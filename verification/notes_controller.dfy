/** The note handlers (backend/src/controllers/notesController.js) as
    functions from the request's id and body to a status and a JSON body.
    A missing body is read as `{}`. */
module NotesController {
  import opened Outcomes
  import opened Json
  import opened Http
  import opened NotesRepository
  import opened NotesService

  /** The notes as a JSON array, in stored order. */
  function NotesJson(s: Store): (j: Json)
    ensures j.JArr? && |j.items| == |s|
    ensures forall i :: 0 <= i < |s| ==> j.items[i] == JObj(s[i])
  {
    JArr(seq(|s|, i requires 0 <= i < |s| => JObj(s[i])))
  }

  /** `GET /notes`: 200 with exactly the service's list. */
  function ListHandler(s: Store): (r: Response<Json>)
    ensures r == Response(200, NotesJson(ListNotes(s)))
  {
    Response(200, NotesJson(ListNotes(s)))
  }

  /** `GET /notes/:id`: 404 `{ error: 'Note not found' }` when the service
      answers `null`, otherwise 200 with the note. */
  function GetOne(s: Store, id: string): (r: Response<Json>)
    ensures NoneWithId(s, id) ==> r == Response(404, ErrorBody("Note not found"))
    ensures forall i :: FirstWithId(s, id, i) ==> r == Response(200, JObj(s[i]))
  {
    match GetNote(s, id)
    case None => Response(404, ErrorBody("Note not found"))
    case Some(n) => Response(200, JObj(n))
  }

  /** `POST /notes`: 201 with the created note, or the error's status and
      message.  Without a body the service sees `{}` and refuses with 400. */
  function CreateHandler(s: Store, body: Option<Obj>, genId: string): (out: Step<Store, Response<Json>>)
    ensures body.None? ==> out == Step(s, Response(400, ErrorBody("Nothing to create")))
    ensures var c := CreateNote(s, Some(body.GetOr(map[])), genId);
      && out.state == c.state
      && (c.result.Ok? ==> out.result == Response(201, JObj(c.result.value)))
      && (c.result.Err? ==> out.result == FailureResponse(c.result.failure, "Create failed"))
  {
    var c := CreateNote(s, Some(body.GetOr(map[])), genId);
    match c.result
    case Ok(n) => Step(c.state, Response(201, JObj(n)))
    case Err(e) => Step(c.state, FailureResponse(e, "Create failed"))
  }

  /** `PUT /notes/:id`: 200 with the updated note, or the error's status
      and message (400 for an empty or missing body, 404 for an unknown id). */
  function UpdateHandler(s: Store, id: string, body: Option<Obj>): (out: Step<Store, Response<Json>>)
    ensures NothingGiven(Some(body.GetOr(map[]))) ==> out == Step(s, Response(400, ErrorBody("Nothing to update")))
    ensures !NothingGiven(Some(body.GetOr(map[]))) && NoneWithId(s, id) ==> out == Step(s, Response(404, ErrorBody("Note not found")))
    ensures var u := UpdateNote(s, id, Some(body.GetOr(map[])));
      && out.state == u.state
      && (u.result.Ok? ==> out.result == Response(200, JObj(u.result.value)))
  {
    var u := UpdateNote(s, id, Some(body.GetOr(map[])));
    match u.result
    case Ok(n) => Step(u.state, Response(200, JObj(n)))
    case Err(e) => Step(u.state, FailureResponse(e, "Update failed"))
  }

  /** `DELETE /notes/:id`: 200 `{ ok: true }` when a note was removed,
      otherwise 404 `{ error: 'Note not found' }` with the store untouched. */
  function RemoveHandler(s: Store, id: string): (out: Step<Store, Response<Json>>)
    ensures !NoneWithId(s, id) ==> out == Step(Remove(s, id).state, Response(200, OkTrue))
    ensures NoneWithId(s, id) ==> out == Step(s, Response(404, ErrorBody("Note not found")))
  {
    var d := DeleteNote(s, id);
    match d.result
    case Ok(v) => Step(d.state, Response(200, v))
    case Err(e) => Step(d.state, FailureResponse(e, "Delete failed"))
  }

  /** Posting `{ title: "A", content: "B" }` and then putting `{ title: "C" }`
      under the new id answers 201 then 200, and the updated note keeps its
      id, has title "C" and still carries the content. */
  lemma CreateThenRename(s: Store, genId: string)
    ensures var c := CreateHandler(s, Some(map["title" := JStr("A"), "content" := JStr("B")]), genId);
            var u := UpdateHandler(c.state, genId, Some(map["title" := JStr("C")]));
            && c.result.status == 201
            && u.result.status == 200
            && u.result.body.JObj?
            && u.result.body.fields["id"] == JStr(genId)
            && u.result.body.fields["title"] == JStr("C")
            && u.result.body.fields["content"] == JStr("B")
  {
    var draft := map["title" := JStr("A"), "content" := JStr("B")];
    var patch := map["title" := JStr("C")];
    assert !NothingGiven(Some(draft)) by { assert TruthyAt(draft, "title"); }
    assert !NothingGiven(Some(patch)) by { assert TruthyAt(patch, "title"); }
    var created := NewNote(draft, genId);
    var c := CreateHandler(s, Some(draft), genId);
    assert c.state == [created] + s && c.result == Response(201, JObj(created));
    assert FirstWithId(c.state, genId, 0);
    var updated := Merge(created, patch, genId);
    assert UpdateHandler(c.state, genId, Some(patch)).result == Response(200, JObj(updated));
  }
}
