/** The in-memory note store of the current backend
    (backend/src/repositories/notesRepository.js).

    The module-level `notes` array is the value `Store`, newest first.  A note
    is whatever object was posted, so it is an open `Obj`; `genId()` (clock
    plus random suffix) is the parameter `genId`.
 */
module NotesRepository {
  import opened Outcomes
  import opened Json
  import Seqs

  type Store = seq<Obj>

  /** The store at process start. */
  const Empty: Store := []

  /** `n.id === id` for a route parameter `id` (always a string). */
  predicate HasId(n: Obj, id: string)
  {
    "id" in n && n["id"] == JStr(id)
  }

  /** `i` is the index `findIndex((n) => n.id === id)` yields. */
  ghost predicate FirstWithId(s: Store, id: string, i: int)
  {
    0 <= i < |s| && HasId(s[i], id) && forall j :: 0 <= j < i ==> !HasId(s[j], id)
  }

  ghost predicate NoneWithId(s: Store, id: string)
  {
    forall i :: 0 <= i < |s| ==> !HasId(s[i], id)
  }

  /** No two notes share an id. */
  ghost predicate UniqueIds(s: Store)
  {
    forall i, j :: 0 <= i < |s| && 0 <= j < |s| && i != j && "id" in s[i] && "id" in s[j] ==> s[i]["id"] != s[j]["id"]
  }

  /** `findIndex((n) => n.id === id)`, None standing for -1. */
  function IndexOf(s: Store, id: string): (r: Option<nat>)
    ensures r.None? <==> NoneWithId(s, id)
    ensures r.Some? ==> FirstWithId(s, id, r.value)
  {
    Seqs.IndexWhere(s, (n: Obj) => HasId(n, id))
  }

  /** `list()`: a snapshot of every note in stored order.  Being a value, it
      cannot be changed by later operations on the store. */
  function List(s: Store): (r: Store)
    ensures |r| == |s| && forall i :: 0 <= i < |s| ==> r[i] == s[i]
  {
    s
  }

  /** `findById(id)`: the first note with that id, None standing for `null`. */
  function FindById(s: Store, id: string): (r: Option<Obj>)
    ensures r.None? <==> NoneWithId(s, id)
    ensures forall i :: FirstWithId(s, id, i) ==> r == Some(s[i])
  {
    match IndexOf(s, id)
    case None => None
    case Some(i) => Some(s[i])
  }

  /** The note `create` builds: a generated id, the draft's title or
      'Untitled', its html or the empty text, and then every property of the
      draft.  The draft comes last, so each property it has, `id` included,
      overrides the defaults and the generated id. */
  function NewNote(draft: Obj, genId: string): (n: Obj)
    ensures n.Keys == draft.Keys + {"id", "title", "html"}
    ensures forall k :: k in draft ==> n[k] == draft[k]
    ensures "id" !in draft ==> n["id"] == JStr(genId)
    ensures "title" !in draft ==> n["title"] == JStr("Untitled")
    ensures "html" !in draft ==> n["html"] == JStr("")
  {
    var defaults := map[
      "id" := JStr(genId),
      "title" := if TruthyAt(draft, "title") then draft["title"] else JStr("Untitled"),
      "html" := if TruthyAt(draft, "html") then draft["html"] else JStr("")
    ];
    defaults + draft
  }

  /** `create(note)`: builds the note and puts it in front (`unshift`). */
  function Create(s: Store, draft: Obj, genId: string): (out: Step<Store, Obj>)
    ensures |out.state| == |s| + 1
    ensures out.state[0] == out.result && out.state[1..] == s
    ensures out.result == NewNote(draft, genId)
  {
    var n := NewNote(draft, genId);
    Step([n] + s, n)
  }

  /** The note `update` stores: the stored note's properties, overridden by
      the patch's, with the route id written last so that it wins over both. */
  ghost predicate MergedOver(prior: Obj, patch: Obj, id: string, n: Obj)
  {
    && n.Keys == prior.Keys + patch.Keys + {"id"}
    && n["id"] == JStr(id)
    && (forall k :: k in patch && k != "id" ==> n[k] == patch[k])
    && (forall k :: k in prior && k !in patch && k != "id" ==> n[k] == prior[k])
  }

  function Merge(prior: Obj, patch: Obj, id: string): (n: Obj)
    ensures MergedOver(prior, patch, id, n)
  {
    prior + patch + map["id" := JStr(id)]
  }

  /** `update(id, patch)`: replaces the first note with that id by the patch
      merged over it; None (`null`) and no change when there is none. */
  function Update(s: Store, id: string, patch: Obj): (out: Step<Store, Option<Obj>>)
    ensures NoneWithId(s, id) ==> out == Step(s, None)
    ensures forall i :: FirstWithId(s, id, i) ==>
      && out.result.Some?
      && MergedOver(s[i], patch, id, out.result.value)
      && |out.state| == |s|
      && out.state[i] == out.result.value
      && (forall j :: 0 <= j < |s| && j != i ==> out.state[j] == s[j])
  {
    match IndexOf(s, id)
    case None => Step(s, None)
    case Some(i) =>
      var n := Merge(s[i], patch, id);
      Step(s[i := n], Some(n))
  }

  /** `remove(id)`: cuts out the first note with that id and answers true;
      false and no change when there is none. */
  function Remove(s: Store, id: string): (out: Step<Store, bool>)
    ensures NoneWithId(s, id) ==> out == Step(s, false)
    ensures forall i :: FirstWithId(s, id, i) ==> out == Step(Seqs.RemoveAt(s, i), true)
  {
    match IndexOf(s, id)
    case None => Step(s, false)
    case Some(i) => Step(Seqs.RemoveAt(s, i), true)
  }

  /** Removing the id of a note just created from a draft without an id, when
      the generated id was not in use, gives back the store as it was. */
  lemma CreateThenRemove(s: Store, draft: Obj, genId: string)
    requires "id" !in draft && NoneWithId(s, genId)
    ensures Remove(Create(s, draft, genId).state, genId) == Step(s, true)
  {
    var s' := Create(s, draft, genId).state;
    assert FirstWithId(s', genId, 0);
    assert Seqs.RemoveAt(s', 0) == s;
  }

  /** Creating under an unused generated id from a draft without an id keeps
      ids unique. */
  lemma CreateKeepsIdsUnique(s: Store, draft: Obj, genId: string)
    requires UniqueIds(s) && "id" !in draft
    requires forall i :: 0 <= i < |s| && "id" in s[i] ==> s[i]["id"] != JStr(genId)
    ensures UniqueIds(Create(s, draft, genId).state)
  {
    var s' := Create(s, draft, genId).state;
    forall i, j | 0 <= i < |s'| && 0 <= j < |s'| && i != j && "id" in s'[i] && "id" in s'[j]
      ensures s'[i]["id"] != s'[j]["id"]
    {
      if i > 0 && j > 0 {
        assert s'[i] == s[i - 1] && s'[j] == s[j - 1];
      } else if i == 0 {
        assert s'[j] == s[j - 1];
      } else {
        assert s'[i] == s[i - 1];
      }
    }
  }

  /** Because the draft is spread last, a draft carrying an existing id
      produces two notes with the same id: the store does not keep ids unique. */
  lemma CreateCanDuplicateId(s: Store, draft: Obj, genId: string, id: string)
    requires |s| > 0 && HasId(s[0], id) && Get(draft, "id") == Some(JStr(id))
    ensures var s' := Create(s, draft, genId).state; HasId(s'[0], id) && HasId(s'[1], id)
    ensures !UniqueIds(Create(s, draft, genId).state)
  {
    var s' := Create(s, draft, genId).state;
    assert s'[1] == s[0];
    assert s'[0]["id"] == s'[1]["id"];
  }

  /** Applying the same patch to the same id twice leaves the store as
      applying it once. */
  lemma UpdateIdempotent(s: Store, id: string, patch: Obj)
    ensures var once := Update(s, id, patch); Update(once.state, id, patch) == Step(once.state, once.result)
  {
    var once := Update(s, id, patch);
    if IndexOf(s, id).Some? {
      var i := IndexOf(s, id).value;
      var n := Merge(s[i], patch, id);
      var s1 := once.state;
      assert s1 == s[i := n] && once.result == Some(n);
      assert FirstWithId(s1, id, i) by {
        assert forall j :: 0 <= j < i ==> s1[j] == s[j];
      }
      Seqs.FirstUnique(s1, (x: Obj) => HasId(x, id), i, IndexOf(s1, id).value);
      MergeIdempotent(s[i], patch, id);
      assert s1[i := Merge(s1[i], patch, id)] == s1;
    }
  }

  /** Merging the same patch a second time adds nothing. */
  lemma MergeIdempotent(prior: Obj, patch: Obj, id: string)
    ensures Merge(Merge(prior, patch, id), patch, id) == Merge(prior, patch, id)
  {
  }

  /** With unique ids, once a note is removed no note with that id remains. */
  lemma RemoveLeavesNoneWithId(s: Store, id: string)
    requires UniqueIds(s)
    ensures NoneWithId(Remove(s, id).state, id)
  {
    match IndexOf(s, id)
    case None =>
    case Some(i) =>
      var s' := Remove(s, id).state;
      forall j | 0 <= j < |s'|
        ensures !HasId(s'[j], id)
      {
        if j < i {
          assert s'[j] == s[j];
        } else {
          assert s'[j] == s[j + 1];
          if "id" in s[j + 1] {
            assert j + 1 != i;
            assert s[j + 1]["id"] != s[i]["id"];
          }
        }
      }
  }

  // The store over the life of the process.

  /** A call the repository serves. */
  datatype Request = CreateRequest(draft: Obj, genId: string) | UpdateRequest(id: string, patch: Obj) | RemoveRequest(id: string)

  /** The store after serving each request in turn, from `s`. */
  function Run(s: Store, reqs: seq<Request>): Store
    decreases |reqs|
  {
    if |reqs| == 0 then s
    else
      var before := Run(s, reqs[..|reqs| - 1]);
      match reqs[|reqs| - 1]
      case CreateRequest(draft, genId) => Create(before, draft, genId).state
      case UpdateRequest(id, patch) => Update(before, id, patch).state
      case RemoveRequest(id) => Remove(before, id).state
  }

  /** Every stored note has an id, a title and an html property. */
  ghost predicate Shaped(s: Store)
  {
    forall i :: 0 <= i < |s| ==> "id" in s[i] && "title" in s[i] && "html" in s[i]
  }

  /** From process start, whatever is created, updated and removed, every
      note in the store carries an id, a title and an html property. */
  lemma {:induction false} AlwaysShaped(reqs: seq<Request>)
    ensures Shaped(Run(Empty, reqs))
    decreases |reqs|
  {
    if |reqs| > 0 {
      AlwaysShaped(reqs[..|reqs| - 1]);
      var before := Run(Empty, reqs[..|reqs| - 1]);
      match reqs[|reqs| - 1]
      case CreateRequest(draft, genId) =>
      case UpdateRequest(id, patch) =>
        if IndexOf(before, id).Some? {
          var i := IndexOf(before, id).value;
          assert MergedOver(before[i], patch, id, Merge(before[i], patch, id));
        }
      case RemoveRequest(id) =>
    }
  }
}
