/** `NotesService` of the older backend (backend/models/services/notesService.js):
    a lookup that turns a miss into an error and a create that insists on a
    title.  Its errors carry no status; the controller chooses one. */
module LegacyNotesService {
  import opened Outcomes
  import opened Json
  import opened LegacyNotes

  const NotFound: Failure := Failure(None, "Note not found")
  const TitleRequired: Failure := Failure(None, "Title is required")

  /** `NotesService.getNotes()`: the repository's whole list. */
  function GetNotes(r: Repo): (ns: seq<Note>)
    ensures ns == r.notes
  {
    FindAll(r)
  }

  /** `NotesService.getNote(id)`: the note, or the error 'Note not found'.
      `id` is None when `parseInt` gave `NaN`, which equals no id. */
  function GetNote(r: Repo, id: Option<int>): (res: Result<Note>)
    ensures id.None? ==> res == Err(NotFound)
    ensures id.Some? && FindById(r, id.value).None? ==> res == Err(NotFound)
    ensures id.Some? && FindById(r, id.value).Some? ==> res == Ok(FindById(r, id.value).value)
  {
    match id
    case None => Err(NotFound)
    case Some(k) =>
      match FindById(r, k)
      case None => Err(NotFound)
      case Some(n) => Ok(n)
  }

  /** `NotesService.createNote(title, content)`: 'Title is required' with
      nothing saved when the title is falsy; any content, even none, is
      accepted with a title. */
  function CreateNote(r: Repo, title: Option<Json>, content: Option<Json>, now: Instant): (out: Step<Repo, Result<Note>>)
    ensures !TruthyOpt(title) ==> out == Step(r, Err(TitleRequired))
    ensures TruthyOpt(title) ==>
      var saved := Save(r, title, content, now);
      out == Step(saved.state, Ok(saved.result))
  {
    if !TruthyOpt(title) then Step(r, Err(TitleRequired))
    else
      var s := Save(r, title, content, now);
      Step(s.state, Ok(s.result))
  }
}
