/** The request handlers of the older backend (backend/controllers/notesController.js).
    The route parameter arrives as text and goes through `parseInt`; every
    service error becomes 404 on lookup and 400 on create. */
module LegacyNotesController {
  import opened Outcomes
  import opened Json
  import opened Http
  import opened LegacyNotes
  import LegacyNotesService
  import ParseInt

  /** What the handlers send: the note list, one note, or `{ error }`. */
  datatype Body = NoteList(notes: seq<Note>) | OneNote(note: Note) | ErrorMessage(error: string)

  /** The engine's message when the handler reads the title and content out
      of a request that has no body at all. */
  const NoBodyMessage: string := "Cannot destructure property 'title' of 'req.body' as it is undefined."

  /** `GET /notes`: 200 with every note in insertion order. */
  function GetAllNotes(r: Repo): (res: Response<Body>)
    ensures res.status == 200 && res.body.NoteList?
    ensures res.body.notes == r.notes
  {
    Response(200, NoteList(LegacyNotesService.GetNotes(r)))
  }

  /** `GET /notes/:id`: the note whose id is `parseInt` of the parameter, or
      404 `{ error: 'Note not found' }` (also when the parameter is no number). */
  function GetNote(r: Repo, idParam: string): (res: Response<Body>)
    ensures ParseInt.ParseInt(idParam).None? ==> res == Response(404, ErrorMessage("Note not found"))
    ensures res.status == 200 || res == Response(404, ErrorMessage("Note not found"))
    ensures res.status == 200 <==> ParseInt.ParseInt(idParam).Some? && FindById(r, ParseInt.ParseInt(idParam).value).Some?
    ensures res.status == 200 ==> res.body == OneNote(FindById(r, ParseInt.ParseInt(idParam).value).value)
    ensures res.status == 200 ==> res.body.note in r.notes && Some(res.body.note.id) == ParseInt.ParseInt(idParam)
  {
    match LegacyNotesService.GetNote(r, ParseInt.ParseInt(idParam))
    case Ok(n) => Response(200, OneNote(n))
    case Err(e) => Response(404, ErrorMessage(e.message))
  }

  /** `POST /notes`: 201 with the saved note, or 400 with the error message
      when there is no body or no truthy title; nothing is saved on 400. */
  function CreateNote(r: Repo, body: Option<Obj>, now: Instant): (out: Step<Repo, Response<Body>>)
    ensures body.None? ==> out == Step(r, Response(400, ErrorMessage(NoBodyMessage)))
    ensures body.Some? && !TruthyAt(body.value, "title") ==> out == Step(r, Response(400, ErrorMessage("Title is required")))
    ensures body.Some? && TruthyAt(body.value, "title") ==>
      && out.result.status == 201 && out.result.body.OneNote?
      && out.state.notes == r.notes + [out.result.body.note]
      && out.result.body.note == NewNote(r.currentId, Get(body.value, "title"), Get(body.value, "content"), None, now)
    ensures Valid(r) ==> Valid(out.state)
  {
    match body
    case None => Step(r, Response(400, ErrorMessage(NoBodyMessage)))
    case Some(b) =>
      var created := LegacyNotesService.CreateNote(r, Get(b, "title"), Get(b, "content"), now);
      match created.result
      case Ok(n) => Step(created.state, Response(201, OneNote(n)))
      case Err(e) => Step(created.state, Response(400, ErrorMessage(e.message)))
  }

  /** In a valid repository, asking for the decimal id k finds a note exactly
      when 1 <= k <= n, and it is the k-th note saved. */
  lemma GetByDecimalId(r: Repo, k: nat)
    requires Valid(r)
    ensures var res := GetNote(r, ParseInt.DecimalString(k));
      && (res.status == 200 <==> 1 <= k <= |r.notes|)
      && (1 <= k <= |r.notes| ==> res == Response(200, OneNote(r.notes[k - 1])))
  {
    ParseInt.ParseDecimal(k);
    FindByIdInValid(r, k);
  }

  /** A note created with a title can be fetched back under the id the
      response carries, written in decimal. */
  lemma CreateThenGet(r: Repo, body: Obj, now: Instant)
    requires Valid(r) && TruthyAt(body, "title")
    ensures var created := CreateNote(r, Some(body), now);
      && created.result.status == 201
      && created.result.body.note.id == |r.notes| + 1
      && GetNote(created.state, ParseInt.DecimalString(|r.notes| + 1)) == Response(200, created.result.body)
  {
    var created := CreateNote(r, Some(body), now);
    GetByDecimalId(created.state, |r.notes| + 1);
  }
}
