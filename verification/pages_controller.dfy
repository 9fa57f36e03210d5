/** The demo page selector (backend/src/controllers/pagesController.js): a
    fixed catalogue of three pages and a marker for the current one, which
    only ever names a page of the catalogue. */
module PagesController {
  import opened Outcomes
  import opened Json
  import opened Http
  import Seqs

  datatype Page = Page(id: string, title: string, html: string)

  /** `pages`, in this order. */
  const Catalogue: seq<Page> := [
    Page("home", "Domů", "<h2>Domů</h2><p>Vítejte v ukázce.</p>"),
    Page("about", "O aplikaci", "<h2>O aplikaci</h2><p>Demonstrační server.</p>"),
    Page("notes", "Poznámky", "<h2>Poznámky</h2><p>Prostor pro poznámky.</p>")
  ]

  /** `pages.map((p) => p.id)`. */
  const CatalogueIds: seq<string> := ["home", "about", "notes"]

  /** The module-level `currentPageId`. */
  datatype PagesState = PagesState(current: string)

  /** `currentPageId` at process start. */
  const Initial: PagesState := PagesState("home")

  /** The current id names a catalogue page. */
  predicate Valid(s: PagesState)
  {
    s.current in CatalogueIds
  }

  function PageJson(p: Page): Json
  {
    JObj(map["id" := JStr(p.id), "title" := JStr(p.title), "html" := JStr(p.html)])
  }

  function CatalogueJson(): (j: Json)
    ensures j.JArr? && |j.items| == |Catalogue|
    ensures forall i :: 0 <= i < |Catalogue| ==> j.items[i] == PageJson(Catalogue[i])
  {
    JArr(seq(|Catalogue|, i requires 0 <= i < |Catalogue| => PageJson(Catalogue[i])))
  }

  /** The process starts on a catalogue page. */
  lemma InitialValid()
    ensures Valid(Initial) && Initial.current == "home"
  {
  }

  /** `GET /pages`: the catalogue unchanged, plus the current id. */
  function ListPages(s: PagesState): (r: Response<Json>)
    ensures r.status == 200 && r.body.JObj? && r.body.fields.Keys == {"pages", "current"}
    ensures r.body.fields["pages"] == CatalogueJson() && r.body.fields["current"] == JStr(s.current)
  {
    Response(200, JObj(map["pages" := CatalogueJson(), "current" := JStr(s.current)]))
  }

  /** `GET /current`: the current id and the page `find` returns for it.  When
      `find` returns `undefined` the property is dropped from the JSON; in a
      valid state that never happens and the page is the catalogue entry
      with that id. */
  function GetCurrent(s: PagesState): (r: Response<Json>)
    ensures r.status == 200 && r.body.JObj? && "current" in r.body.fields && r.body.fields["current"] == JStr(s.current)
    ensures Valid(s) ==> ("page" in r.body.fields
      && exists i :: 0 <= i < |Catalogue| && Catalogue[i].id == s.current && r.body.fields["page"] == PageJson(Catalogue[i]))
    ensures !Valid(s) ==> r.body.fields.Keys == {"current"}
  {
    match Seqs.Find(Catalogue, (p: Page) => p.id == s.current)
    case None =>
      assert !Valid(s) by {
        assert forall i :: 0 <= i < |Catalogue| ==> Catalogue[i].id == CatalogueIds[i];
      }
      Response(200, JObj(map["current" := JStr(s.current)]))
    case Some(p) =>
      assert Valid(s) by {
        assert forall i :: 0 <= i < |Catalogue| ==> Catalogue[i].id == CatalogueIds[i];
      }
      Response(200, JObj(map["current" := JStr(s.current), "page" := PageJson(p)]))
  }

  /** `POST /current` with body `{ id }`.  An id that is not a catalogue id
      (including a missing id, a missing body or a non-string) gives 400 with
      the allowed ids in catalogue order and leaves the current page alone;
      otherwise the current page changes and the answer is `{ ok: true, current }`. */
  function SetCurrent(s: PagesState, body: Option<Obj>): (out: Step<PagesState, Response<Json>>)
    ensures var id := Get(body.GetOr(map[]), "id");
      if id.Some? && id.value.JStr? && id.value.s in CatalogueIds then
        && out.state == PagesState(id.value.s)
        && out.result == Response(200, JObj(map["ok" := JBool(true), "current" := id.value]))
      else
        && out.state == s
        && out.result == Response(400, JObj(map["error" := JStr("Unknown page id"), "allowed" := Strings(CatalogueIds)]))
    ensures Valid(s) ==> Valid(out.state)
    ensures out.state == s || Valid(out.state)
  {
    var id := Get(body.GetOr(map[]), "id");
    if id.Some? && Seqs.Find(Catalogue, (p: Page) => JStr(p.id) == id.value).Some? then
      assert id.value.JStr? && id.value.s in CatalogueIds by {
        assert forall i :: 0 <= i < |Catalogue| ==> Catalogue[i].id == CatalogueIds[i];
      }
      Step(PagesState(id.value.s), Response(200, JObj(map["ok" := JBool(true), "current" := id.value])))
    else
      assert !(id.Some? && id.value.JStr? && id.value.s in CatalogueIds) by {
        assert forall i :: 0 <= i < |Catalogue| ==> JStr(Catalogue[i].id) == JStr(CatalogueIds[i]);
      }
      Step(s, Response(400, JObj(map["error" := JStr("Unknown page id"), "allowed" := Strings(CatalogueIds)])))
  }

  /** Every state reachable from the start by any sequence of `POST /current`
      requests points at a catalogue page. */
  lemma {:induction false} AlwaysValid(bodies: seq<Option<Obj>>)
    ensures Valid(Run(Initial, bodies))
    decreases |bodies|
  {
    if |bodies| > 0 {
      AlwaysValid(bodies[..|bodies| - 1]);
    }
  }

  /** The state after applying `SetCurrent` for each body in turn. */
  function Run(s: PagesState, bodies: seq<Option<Obj>>): PagesState
    decreases |bodies|
  {
    if |bodies| == 0 then s else SetCurrent(Run(s, bodies[..|bodies| - 1]), bodies[|bodies| - 1]).state
  }
}
