/** Validation in front of the note store (backend/src/services/notesService.js):
    empty payloads are refused with 400, a missing target with 404.  Reads
    pass straight through, so a missing note is `null`, not an error. */
module NotesService {
  import opened Outcomes
  import opened Json
  import opened NotesRepository
  import Http

  const NothingToCreate: Failure := Failure(Some(400), "Nothing to create")
  const NothingToUpdate: Failure := Failure(Some(400), "Nothing to update")
  const NoteNotFound: Failure := Failure(Some(404), "Note not found")

  /** No data at all, or data whose title and html are both falsy: nothing
      worth storing. */
  predicate NothingGiven(data: Option<Obj>)
  {
    data.None? || (!TruthyAt(data.value, "title") && !TruthyAt(data.value, "html"))
  }

  /** `listNotes()`: the store's list, unfiltered. */
  function ListNotes(s: Store): (r: Store)
    ensures r == s
  {
    List(s)
  }

  /** `getNote(id)`: the repository's answer, None (`null`) when absent. */
  function GetNote(s: Store, id: string): (r: Option<Obj>)
    ensures r == FindById(s, id)
    ensures r.None? <==> NoneWithId(s, id)
  {
    FindById(s, id)
  }

  /** `createNote(data)`: 400 with the store untouched when there is nothing
      to create, otherwise the repository's `create`. */
  function CreateNote(s: Store, data: Option<Obj>, genId: string): (out: Step<Store, Result<Obj>>)
    ensures out.result.Err? <==> NothingGiven(data)
    ensures NothingGiven(data) ==> out == Step(s, Err(NothingToCreate))
    ensures !NothingGiven(data) ==> Create(s, data.value, genId) == Step(out.state, out.result.value)
  {
    if NothingGiven(data) then Step(s, Err(NothingToCreate))
    else
      var c := Create(s, data.value, genId);
      Step(c.state, Ok(c.result))
  }

  /** `updateNote(id, patch)`: the patch is checked before the lookup, so an
      empty patch is 400 even for an unknown id; a valid patch on an unknown
      id is 404; in both cases the store is untouched. */
  function UpdateNote(s: Store, id: string, patch: Option<Obj>): (out: Step<Store, Result<Obj>>)
    ensures NothingGiven(patch) ==> out == Step(s, Err(NothingToUpdate))
    ensures !NothingGiven(patch) && NoneWithId(s, id) ==> out == Step(s, Err(NoteNotFound))
    ensures !NothingGiven(patch) && !NoneWithId(s, id) ==>
      out.result.Ok? && Update(s, id, patch.value) == Step(out.state, Some(out.result.value))
  {
    if NothingGiven(patch) then Step(s, Err(NothingToUpdate))
    else
      var u := Update(s, id, patch.value);
      match u.result
      case None => Step(s, Err(NoteNotFound))
      case Some(n) => Step(u.state, Ok(n))
  }

  /** `deleteNote(id)`: `{ ok: true }` exactly when a note was removed,
      otherwise 404 and no change. */
  function DeleteNote(s: Store, id: string): (out: Step<Store, Result<Json>>)
    ensures out.result.Ok? <==> !NoneWithId(s, id)
    ensures out.result.Ok? ==> out.result.value == Http.OkTrue && out.state == Remove(s, id).state
    ensures out.result.Err? ==> out == Step(s, Err(NoteNotFound))
  {
    var r := Remove(s, id);
    if r.result then Step(r.state, Ok(Http.OkTrue)) else Step(s, Err(NoteNotFound))
  }

  /** After a note is created from a draft without an id under an unused
      generated id and then deleted, looking it up finds nothing. */
  lemma CreateDeleteGet(s: Store, draft: Obj, genId: string)
    requires !NothingGiven(Some(draft)) && "id" !in draft && NoneWithId(s, genId)
    ensures var c := CreateNote(s, Some(draft), genId);
            var d := DeleteNote(c.state, genId);
            d.result.Ok? && d.state == s && GetNote(d.state, genId).None?
  {
    CreateThenRemove(s, draft, genId);
  }
}
