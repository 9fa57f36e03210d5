/** The browser-only notes list (frontend/src/features/notes/hooks/useNotes.js):
    a list kept in local storage, newest first.  Persisting it is a side
    effect outside the model; each helper is the list transition it hands to
    `setNotes`. */
module LocalNotes {
  import opened Outcomes
  import Text
  import Seqs

  /** One stored note; `createdAt` is the ISO text of the creation time. */
  datatype LocalNote = LocalNote(id: string, title: string, content: string, createdAt: string)

  const DefaultTitle: string := "Untitled"

  /** The trimmed text, or the empty text when there is none; None stands
      for `null` or `undefined`. */
  function TrimOrEmpty(x: Option<string>): (r: string)
    ensures Text.Trimmed(r)
    ensures x.None? ==> r == ""
    ensures x.Some? ==> r == Text.Trim(x.value)
  {
    match x
    case None => ""
    case Some(s) => Text.Trim(s)
  }

  /** The shape every note `addNote` makes has: a non-empty trimmed title and
      trimmed content. */
  predicate WellFormedNote(n: LocalNote)
  {
    n.title != "" && Text.Trimmed(n.title) && Text.Trimmed(n.content)
  }

  predicate WellFormed(notes: seq<LocalNote>)
  {
    forall i :: 0 <= i < |notes| ==> WellFormedNote(notes[i])
  }

  /** `addNote(title, content)` with `newId` from `generateId()` and `now` from
      `new Date().toISOString()`.  When both trimmed texts are empty nothing is
      added; otherwise the new note goes to the front with its title
      defaulted to 'Untitled' when the trimmed title is empty. */
  function AddNote(notes: seq<LocalNote>, title: Option<string>, content: Option<string>, newId: string, now: string): (r: seq<LocalNote>)
    ensures TrimOrEmpty(title) == "" && TrimOrEmpty(content) == "" ==> r == notes
    ensures !(TrimOrEmpty(title) == "" && TrimOrEmpty(content) == "") ==>
      && |r| == |notes| + 1 && r[1..] == notes
      && r[0].id == newId && r[0].createdAt == now
      && r[0].content == TrimOrEmpty(content)
      && (TrimOrEmpty(title) != "" ==> r[0].title == TrimOrEmpty(title))
      && (TrimOrEmpty(title) == "" ==> r[0].title == DefaultTitle)
    ensures WellFormed(notes) ==> WellFormed(r)
  {
    var t := TrimOrEmpty(title);
    var c := TrimOrEmpty(content);
    if t == "" && c == "" then notes
    else
      var n := LocalNote(newId, if t != "" then t else DefaultTitle, c, now);
      assert WellFormedNote(n);
      [n] + notes
  }

  /** `removeNote(id)`: keep the notes whose id differs. */
  function RemoveNote(notes: seq<LocalNote>, id: string): (r: seq<LocalNote>)
    ensures forall i :: 0 <= i < |r| ==> r[i].id != id
    ensures forall n: LocalNote :: n.id != id ==> multiset(r)[n] == multiset(notes)[n]
    ensures WellFormed(notes) ==> WellFormed(r)
  {
    var keep := (n: LocalNote) => n.id != id;
    var r := Seqs.Filter(notes, keep);
    Seqs.FilterCounts(notes, keep);
    assert forall i :: 0 <= i < |r| ==> r[i] in multiset(notes);
    r
  }

  /** `clearNotes()`: whatever the list held, it becomes empty. */
  function ClearNotes(): (r: seq<LocalNote>)
    ensures |r| == 0 && WellFormed(r)
  {
    []
  }

  /** Removing an id no note carries changes nothing. */
  lemma RemoveAbsent(notes: seq<LocalNote>, id: string)
    requires forall i :: 0 <= i < |notes| ==> notes[i].id != id
    ensures RemoveNote(notes, id) == notes
  {
    Seqs.FilterKeepsAll(notes, (n: LocalNote) => n.id != id);
  }

  /** Removing the note just added, under an id no older note carries, gives
      back the list as it was. */
  lemma AddThenRemove(notes: seq<LocalNote>, title: Option<string>, content: Option<string>, newId: string, now: string)
    requires forall i :: 0 <= i < |notes| ==> notes[i].id != newId
    ensures RemoveNote(AddNote(notes, title, content, newId, now), newId) == notes
  {
    var added := AddNote(notes, title, content, newId, now);
    var keep := (n: LocalNote) => n.id != newId;
    RemoveAbsent(notes, newId);
    if added != notes {
      assert added == [added[0]] + notes;
      Seqs.FilterAppend([added[0]], notes, keep);
      assert Seqs.Filter([added[0]], keep) == [];
    }
  }

  /** Removal keeps the survivors in their order: removing an id from a list
      built by putting `front` before `back` removes it from each part. */
  lemma RemoveKeepsOrder(front: seq<LocalNote>, back: seq<LocalNote>, id: string)
    ensures RemoveNote(front + back, id) == RemoveNote(front, id) + RemoveNote(back, id)
  {
    Seqs.FilterAppend(front, back, (n: LocalNote) => n.id != id);
  }
}
