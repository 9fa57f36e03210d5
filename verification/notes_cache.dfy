/** The client's copy of the server's notes (frontend/src/hooks/useNotes.js):
    the list, the open note, a loading flag, the last error and the id of the
    last opened note (mirrored into local storage under 'lastNoteId').  Each
    operation is one atomic transition taking the outcome of its remote call
    as a parameter; the promise it returns is the `Result`. */
module NotesCache {
  import opened Outcomes
  import opened Json
  import Seqs
  import NotesRepository
  import NotesService
  import NotesController
  import ApiClient
  import Http

  datatype Cache = Cache(notes: seq<Json>, current: Json, loading: bool, error: Option<Failure>, lastNoteId: Json)

  /** The hook's first render, `lastNoteId` read back from storage. */
  function Initial(storedLastNoteId: Json): (c: Cache)
    ensures c.notes == [] && c.current == JNull && !c.loading && c.error.None?
    ensures c.lastNoteId == storedLastNoteId
  {
    Cache([], JNull, false, None, storedLastNoteId)
  }

  /** After a failed remote call: the error recorded, loading over, and the
      list, the open note and the remembered id as they were. */
  ghost predicate FailedFrom(c: Cache, c': Cache, e: Failure)
  {
    c' == c.(loading := false, error := Some(e))
  }

  /** After a successful remote call: loading over and no error. */
  predicate Settled(c: Cache)
  {
    !c.loading && c.error.None?
  }

  /** A list entry's id is strictly equal to `id`; an entry without an id
      reads it as undefined. */
  predicate SameId(n: Json, id: Option<Json>)
  {
    StrictEq(Prop(n, "id"), id)
  }

  /** `loadNotes()` given the outcome of `fetchNotes()`: a non-array answer
      empties the list. */
  function LoadNotes(c: Cache, fetched: Result<Json>): (out: Step<Cache, Result<Json>>)
    ensures out.result == fetched
    ensures fetched.Err? ==> FailedFrom(c, out.state, fetched.failure)
    ensures fetched.Ok? ==>
      && Settled(out.state)
      && out.state.current == c.current && out.state.lastNoteId == c.lastNoteId
      && (fetched.value.JArr? ==> out.state.notes == fetched.value.items)
      && (!fetched.value.JArr? ==> out.state.notes == [])
  {
    match fetched
    case Err(e) => Step(c.(loading := false, error := Some(e)), fetched)
    case Ok(list) =>
      var items := if list.JArr? then list.items else [];
      Step(c.(notes := items, loading := false, error := None), fetched)
  }

  /** `openNote(id)` given the remote `getNote`: a falsy id answers `null` and
      touches nothing; otherwise the fetched note becomes the open one and
      its id is remembered. */
  function OpenNote(c: Cache, id: Json, getNote: Json -> Result<Json>): (out: Step<Cache, Result<Json>>)
    ensures !Truthy(id) ==> out == Step(c, Ok(JNull))
    ensures Truthy(id) ==> out.result == getNote(id)
    ensures Truthy(id) && getNote(id).Err? ==> FailedFrom(c, out.state, getNote(id).failure)
    ensures Truthy(id) && getNote(id).Ok? ==>
      && Settled(out.state)
      && out.state.current == getNote(id).value && out.state.lastNoteId == id
      && out.state.notes == c.notes
  {
    if !Truthy(id) then Step(c, Ok(JNull))
    else
      match getNote(id)
      case Err(e) => Step(c.(loading := false, error := Some(e)), Err(e))
      case Ok(data) => Step(c.(current := data, lastNoteId := id, loading := false, error := None), Ok(data))
  }

  /** `createNote(note)` given the remote `saveNote`: the created note goes to
      the front of the list and becomes the open one; `created?.id ?? null`
      is remembered. */
  function CreateNote(c: Cache, note: Json, saveNote: Json -> Result<Json>): (out: Step<Cache, Result<Json>>)
    ensures out.result == saveNote(note)
    ensures saveNote(note).Err? ==> FailedFrom(c, out.state, saveNote(note).failure)
    ensures saveNote(note).Ok? ==>
      var created := saveNote(note).value;
      && Settled(out.state)
      && out.state.notes == [created] + c.notes
      && out.state.current == created
      && out.state.lastNoteId == OrNull(Prop(created, "id"))
  {
    match saveNote(note)
    case Err(e) => Step(c.(loading := false, error := Some(e)), Err(e))
    case Ok(created) =>
      Step(c.(notes := [created] + c.notes, current := created, lastNoteId := OrNull(Prop(created, "id")),
              loading := false, error := None), Ok(created))
  }

  /** The list after an update: every entry whose id is strictly equal to the
      updated note's id is replaced by it, the others stay in place. */
  function ReplaceById(notes: seq<Json>, updated: Json): (r: seq<Json>)
    ensures |r| == |notes|
    ensures forall i :: 0 <= i < |notes| && SameId(notes[i], Prop(updated, "id")) ==> r[i] == updated
    ensures forall i :: 0 <= i < |notes| && !SameId(notes[i], Prop(updated, "id")) ==> r[i] == notes[i]
  {
    seq(|notes|, i requires 0 <= i < |notes| => if SameId(notes[i], Prop(updated, "id")) then updated else notes[i])
  }

  /** `saveCurrent(patch)`.  An open note without a truthy id is created from
      `{ ...currentNote, ...patch }`; otherwise the remote `updateNote` gets
      the id and the patch, and its answer replaces the open note and every
      list entry with the same id. */
  function SaveCurrent(c: Cache, patch: Json, saveNote: Json -> Result<Json>, updateNote: (Json, Json) -> Result<Json>): (out: Step<Cache, Result<Json>>)
    ensures !TruthyOpt(Prop(c.current, "id")) ==> out == CreateNote(c, JObj(Spread(c.current) + Spread(patch)), saveNote)
    ensures TruthyOpt(Prop(c.current, "id")) ==>
      var answer := updateNote(Prop(c.current, "id").value, patch);
      && out.result == answer
      && (answer.Err? ==> FailedFrom(c, out.state, answer.failure))
      && (answer.Ok? ==>
        && Settled(out.state)
        && out.state.current == answer.value
        && out.state.notes == ReplaceById(c.notes, answer.value)
        && out.state.lastNoteId == c.lastNoteId)
  {
    match Prop(c.current, "id")
    case None => CreateNote(c, JObj(Spread(c.current) + Spread(patch)), saveNote)
    case Some(id) =>
      if !Truthy(id) then CreateNote(c, JObj(Spread(c.current) + Spread(patch)), saveNote)
      else
        match updateNote(id, patch)
        case Err(e) => Step(c.(loading := false, error := Some(e)), Err(e))
        case Ok(updated) =>
          Step(c.(current := updated, notes := ReplaceById(c.notes, updated), loading := false, error := None), Ok(updated))
  }

  /** The list after a delete: no entry with the id remains, and every other
      entry is kept as often as before. */
  function Without(notes: seq<Json>, id: Json): (r: seq<Json>)
    ensures forall i :: 0 <= i < |r| ==> !SameId(r[i], Some(id))
    ensures forall n :: !SameId(n, Some(id)) ==> multiset(r)[n] == multiset(notes)[n]
  {
    var keep := (n: Json) => !SameId(n, Some(id));
    Seqs.FilterCounts(notes, keep);
    Seqs.Filter(notes, keep)
  }

  /** Dropping an id from a list made of two parts drops it from each part,
      so the surviving entries keep their order. */
  lemma WithoutAppend(a: seq<Json>, b: seq<Json>, id: Json)
    ensures Without(a + b, id) == Without(a, id) + Without(b, id)
  {
    Seqs.FilterAppend(a, b, (n: Json) => !SameId(n, Some(id)));
  }

  /** `deleteNote(id)` given the remote `removeNote`: a falsy id does nothing;
      otherwise every entry with that id leaves the list, and the open note
      and the remembered id are cleared only when the open note had that id.
      The promise resolves to `undefined`, the unit value here. */
  function DeleteNote(c: Cache, id: Json, removeNote: Json -> Result<Json>): (out: Step<Cache, Result<()>>)
    ensures !Truthy(id) ==> out == Step(c, Ok(()))
    ensures Truthy(id) && removeNote(id).Err? ==>
      out.result == Err(removeNote(id).failure) && FailedFrom(c, out.state, removeNote(id).failure)
    ensures Truthy(id) && removeNote(id).Ok? ==>
      && out.result == Ok(())
      && Settled(out.state)
      && out.state.notes == Without(c.notes, id)
      && (SameId(c.current, Some(id)) ==> out.state.current == JNull && out.state.lastNoteId == JNull)
      && (!SameId(c.current, Some(id)) ==> out.state.current == c.current && out.state.lastNoteId == c.lastNoteId)
  {
    if !Truthy(id) then Step(c, Ok(()))
    else
      match removeNote(id)
      case Err(e) => Step(c.(loading := false, error := Some(e)), Err(e))
      case Ok(_) =>
        var kept := Without(c.notes, id);
        var cleared := SameId(c.current, Some(id));
        Step(c.(notes := kept,
                current := if cleared then JNull else c.current,
                lastNoteId := if cleared then JNull else c.lastNoteId,
                loading := false, error := None), Ok(()))
  }

  /** The mount effect: when auto-loading, load the list and, if that worked
      and an id was remembered, reopen that note.  A failed reopen is
      swallowed by the effect but still recorded as the error. */
  function Mount(c: Cache, autoLoad: bool, fetched: Result<Json>, getNote: Json -> Result<Json>): (c': Cache)
    ensures !autoLoad ==> c' == c
    ensures autoLoad ==> c'.notes == LoadNotes(c, fetched).state.notes && c'.lastNoteId == c.lastNoteId
    ensures autoLoad && fetched.Ok? && Truthy(c.lastNoteId) && getNote(c.lastNoteId).Ok? ==>
      c' == LoadNotes(c, fetched).state.(current := getNote(c.lastNoteId).value) && Settled(c')
    ensures autoLoad && fetched.Ok? && Truthy(c.lastNoteId) && getNote(c.lastNoteId).Err? ==>
      FailedFrom(LoadNotes(c, fetched).state, c', getNote(c.lastNoteId).failure) && c'.current == c.current
    ensures autoLoad && (fetched.Err? || !Truthy(c.lastNoteId)) ==> c' == LoadNotes(c, fetched).state
  {
    if !autoLoad then c
    else
      var loaded := LoadNotes(c, fetched);
      if loaded.result.Err? || !Truthy(c.lastNoteId) then loaded.state
      else OpenNote(loaded.state, c.lastNoteId, getNote).state
  }

  // Keeping the cache equal to the server's list.

  /** The cached list holds exactly the server's notes, in its order. */
  ghost predicate Mirrors(notes: seq<Json>, s: NotesRepository.Store)
  {
    |notes| == |s| && forall i :: 0 <= i < |s| ==> notes[i] == JObj(s[i])
  }

  /** The answer the remote call hands back for a service outcome on one note. */
  function RemoteNote(r: Result<Obj>): (j: Result<Json>)
    ensures r.Ok? ==> j == Ok(JObj(r.value))
    ensures r.Err? ==> j == Err(r.failure)
  {
    match r
    case Ok(n) => Ok(JObj(n))
    case Err(e) => Err(e)
  }

  /** Loading the server's list makes the cache mirror it. */
  lemma LoadMirrors(c: Cache, s: NotesRepository.Store)
    ensures Mirrors(LoadNotes(c, Ok(NotesController.NotesJson(NotesService.ListNotes(s)))).state.notes, s)
  {
  }

  /** Creating through the cache and on the server keeps the mirror, whether
      the server accepts the draft or refuses it. */
  lemma CreateKeepsMirror(c: Cache, s: NotesRepository.Store, draft: Obj, genId: string)
    requires Mirrors(c.notes, s)
    ensures var server := NotesService.CreateNote(s, Some(draft), genId);
      Mirrors(CreateNote(c, JObj(draft), (x: Json) => RemoteNote(server.result)).state.notes, server.state)
  {
    var server := NotesService.CreateNote(s, Some(draft), genId);
    var client := CreateNote(c, JObj(draft), (x: Json) => RemoteNote(server.result)).state;
    if server.result.Ok? {
      assert server.state == [server.result.value] + s;
    }
  }

  /** Saving the open note, which carries the server id `id`, keeps the mirror
      when ids on the server are unique: the server replaces the first note
      with that id, the cache every entry with it, and there is only one. */
  lemma SaveKeepsMirror(c: Cache, s: NotesRepository.Store, id: string, patch: Obj, saveNote: Json -> Result<Json>)
    requires Mirrors(c.notes, s) && NotesRepository.UniqueIds(s)
    requires Prop(c.current, "id") == Some(JStr(id)) && id != ""
    ensures var server := NotesService.UpdateNote(s, id, Some(patch));
      Mirrors(SaveCurrent(c, JObj(patch), saveNote, (i: Json, p: Json) => RemoteNote(server.result)).state.notes, server.state)
  {
    var server := NotesService.UpdateNote(s, id, Some(patch));
    var client := SaveCurrent(c, JObj(patch), saveNote, (i: Json, p: Json) => RemoteNote(server.result)).state;
    if server.result.Ok? {
      var i :| NotesRepository.FirstWithId(s, id, i);
      var updated := server.result.value;
      assert updated["id"] == JStr(id);
      assert Prop(JObj(updated), "id") == Some(JStr(id));
      forall j | 0 <= j < |s|
        ensures client.notes[j] == JObj(server.state[j])
      {
        if j != i {
          assert !NotesRepository.HasId(s[j], id);
          assert !SameId(c.notes[j], Some(JStr(id)));
        }
      }
    }
  }

  /** Deleting the id `id` through the cache and on the server keeps the
      mirror when ids on the server are unique. */
  lemma DeleteKeepsMirror(c: Cache, s: NotesRepository.Store, id: string)
    requires Mirrors(c.notes, s) && NotesRepository.UniqueIds(s) && id != ""
    ensures var server := NotesService.DeleteNote(s, id);
      Mirrors(DeleteNote(c, JStr(id), (x: Json) => server.result).state.notes, server.state)
  {
    var server := NotesService.DeleteNote(s, id);
    if server.result.Ok? {
      var i :| NotesRepository.FirstWithId(s, id, i);
      WithoutTheOne(c.notes, s, id, i);
    }
  }

  /** With unique ids, filtering the cached list by the id of the server's
      i-th note is cutting out its i-th entry. */
  lemma WithoutTheOne(notes: seq<Json>, s: NotesRepository.Store, id: string, i: nat)
    requires Mirrors(notes, s) && NotesRepository.UniqueIds(s) && NotesRepository.FirstWithId(s, id, i)
    ensures Mirrors(Without(notes, JStr(id)), Seqs.RemoveAt(s, i))
  {
    var keep := (n: Json) => !SameId(n, Some(JStr(id)));
    forall j | 0 <= j < |notes| && j != i
      ensures keep(notes[j])
    {
      assert !NotesRepository.HasId(s[j], id);
    }
    Seqs.FilterOneRejected(notes, keep, i);
  }

  // The cache against the server's note endpoints.

  /** The answer the client's `getNote(id)` receives from `GET /notes/:id`. */
  function ServerNote(s: NotesRepository.Store, id: string, statusText: string): Json -> Result<Json>
  {
    (x: Json) => ApiClient.Delivered(NotesController.GetOne(s, id), statusText)
  }

  /** The 404 the client records for an id the server does not hold. */
  const NotFound: Failure := Failure(Some(404), "Note not found")

  /** Opening an id against the server opens the server's first note with
      that id and remembers the id; an id the server does not hold records
      the 404 and changes nothing else. */
  lemma OpenFromServer(c: Cache, s: NotesRepository.Store, id: string, statusText: string)
    requires id != ""
    ensures var shown := OpenNote(c, JStr(id), ServerNote(s, id, statusText)).state;
      && (forall i :: NotesRepository.FirstWithId(s, id, i) ==>
            shown == c.(current := JObj(s[i]), lastNoteId := JStr(id), loading := false, error := None))
      && (NotesRepository.NoneWithId(s, id) ==> shown == c.(loading := false, error := Some(NotFound)))
  {
    if NotesRepository.NoneWithId(s, id) {
      assert Prop(Http.ErrorBody("Note not found"), "message") == None;
    }
  }

  /** Mounting with a remembered id loads the server's list and reopens the
      server's note with that id; when the server no longer holds it, the
      open note stays as it was and the 404 is recorded. */
  lemma MountReopens(c: Cache, s: NotesRepository.Store, id: string, statusText: string)
    requires c.lastNoteId == JStr(id) && id != ""
    ensures var m := Mount(c, true, ApiClient.Delivered(NotesController.ListHandler(s), statusText), ServerNote(s, id, statusText));
      && Mirrors(m.notes, s)
      && (forall i :: NotesRepository.FirstWithId(s, id, i) ==> m.current == JObj(s[i]) && Settled(m))
      && (NotesRepository.NoneWithId(s, id) ==> m.current == c.current && m.error == Some(NotFound))
  {
    var loaded := LoadNotes(c, Ok(NotesController.NotesJson(NotesService.ListNotes(s)))).state;
    OpenFromServer(loaded, s, id, statusText);
  }
}
