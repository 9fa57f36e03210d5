/** The older notes backend (backend/models and backend/controllers): integer
    ids from a counter starting at 1, notes appended in insertion order, a
    required title, and no update or delete.  It is a separate design from
    the current backend and shares nothing with it but the JSON values. */
module LegacyNotes {
  import opened Outcomes
  import opened Json
  import Seqs

  /** A clock reading, as `new Date()` would give it. */
  type Instant = int

  /** `new Notes(id, title, content, createdAt)`.  The title and content are
      whatever the request carried, None standing for `undefined`. */
  datatype Note = Note(id: int, title: Option<Json>, content: Option<Json>, createdAt: Instant)

  /** The `Notes` constructor: fields stored as given, with no checking;
      `createdAt` defaults to the current time only when omitted. */
  function NewNote(id: int, title: Option<Json>, content: Option<Json>, createdAt: Option<Instant>, now: Instant): (n: Note)
    ensures n.id == id && n.title == title && n.content == content
    ensures createdAt.Some? ==> n.createdAt == createdAt.value
    ensures createdAt.None? ==> n.createdAt == now
  {
    Note(id, title, content, createdAt.GetOr(now))
  }

  /** The `NotesRepository` singleton: its list and its `currentId` counter. */
  datatype Repo = Repo(notes: seq<Note>, currentId: int)

  /** The repository as constructed. */
  const Initial: Repo := Repo([], 1)

  /** The counter is one past the number of notes and the i-th note (from 0)
      has id i + 1. */
  ghost predicate Valid(r: Repo)
  {
    && r.currentId == |r.notes| + 1
    && forall i :: 0 <= i < |r.notes| ==> r.notes[i].id == i + 1
  }

  /** `findAll()`: every saved note in insertion order. */
  function FindAll(r: Repo): (ns: seq<Note>)
    ensures |ns| == |r.notes| && forall i :: 0 <= i < |ns| ==> ns[i] == r.notes[i]
  {
    r.notes
  }

  /** `findById(id)`: the first note whose id is `===` to `id`, None standing
      for `undefined`. */
  function FindById(r: Repo, id: int): (n: Option<Note>)
    ensures n.None? <==> forall i :: 0 <= i < |r.notes| ==> r.notes[i].id != id
    ensures forall i :: Seqs.IsFirst(r.notes, (x: Note) => x.id == id, i) ==> n == Some(r.notes[i])
  {
    Seqs.Find(r.notes, (x: Note) => x.id == id)
  }

  /** `save(title, content)`: a note with the counter's value as id and the
      current time, appended; the counter moves on by one. */
  function Save(r: Repo, title: Option<Json>, content: Option<Json>, now: Instant): (out: Step<Repo, Note>)
    ensures out.result == NewNote(r.currentId, title, content, None, now)
    ensures out.state.notes == r.notes + [out.result]
    ensures out.state.currentId == r.currentId + 1
    ensures Valid(r) ==> Valid(out.state) && out.result.id == |r.notes| + 1
  {
    var n := NewNote(r.currentId, title, content, None, now);
    Step(Repo(r.notes + [n], r.currentId + 1), n)
  }

  /** In a valid repository ids strictly increase along the list, so they
      are unique. */
  lemma IdsIncreasing(r: Repo)
    requires Valid(r)
    ensures forall i, j :: 0 <= i < j < |r.notes| ==> r.notes[i].id < r.notes[j].id
  {
  }

  /** In a valid repository `findById(k)` finds exactly the k-th saved note,
      and nothing for any id outside 1..n. */
  lemma FindByIdInValid(r: Repo, id: int)
    requires Valid(r)
    ensures 1 <= id <= |r.notes| ==> FindById(r, id) == Some(r.notes[id - 1])
    ensures !(1 <= id <= |r.notes|) ==> FindById(r, id).None?
  {
    if 1 <= id <= |r.notes| {
      assert Seqs.IsFirst(r.notes, (x: Note) => x.id == id, id - 1);
    }
  }

  /** A sequence of saves, one per (title, content, time) triple. */
  function SaveAll(r: Repo, requests: seq<(Option<Json>, Option<Json>, Instant)>): Repo
    decreases |requests|
  {
    if |requests| == 0 then r
    else
      var last := requests[|requests| - 1];
      Save(SaveAll(r, requests[..|requests| - 1]), last.0, last.1, last.2).state
  }

  /** From the initial repository, the n-th saved note has id n and the
      list only ever grows by appending. */
  lemma {:induction false} SavedInOrder(requests: seq<(Option<Json>, Option<Json>, Instant)>)
    ensures var r := SaveAll(Initial, requests);
      && Valid(r)
      && |r.notes| == |requests|
      && forall i :: 0 <= i < |requests| ==> r.notes[i].id == i + 1 && r.notes[i].title == requests[i].0 && r.notes[i].content == requests[i].1
    decreases |requests|
  {
    if |requests| > 0 {
      var prefix := requests[..|requests| - 1];
      SavedInOrder(prefix);
      var r0 := SaveAll(Initial, prefix);
      var r := SaveAll(Initial, requests);
      assert r.notes == r0.notes + [r.notes[|r.notes| - 1]];
      forall i | 0 <= i < |requests|
        ensures r.notes[i].id == i + 1 && r.notes[i].title == requests[i].0 && r.notes[i].content == requests[i].1
      {
        if i < |prefix| {
          assert r.notes[i] == r0.notes[i];
          assert requests[i] == prefix[i];
        }
      }
    }
  }
}
