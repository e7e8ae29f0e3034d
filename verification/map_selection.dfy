/**
 * Click-to-select on the map, and the shadow copy of the externally owned
 * selection that tells the map's own clicks apart from changes made elsewhere.
 *
 * The rendering library's hit test is a parameter: given a screen box and the
 * layer names, it returns the identifiers (`properties.id`) of the rendered
 * features found there, in the library's order.
 */
module MapSelection {
  import opened Optional
  import opened MapData

  /** `IdSelection`: the identifier of the selected walk, or none. */
  type Selection = Option<string>

  /** `queryRenderedFeatures`, seen through the feature identifiers it returns. */
  type Query = (Box, seq<string>) -> seq<string>

  /** The layers a click may hit: the plain lines and the highlighted selection. */
  const SelectableLayers: seq<string> := ["lines", "selected"]

  /** Rings 0 to 4 are tried. */
  const RingCount: nat := 5

  /** The box holds exactly the points within `ring` of `p` on both axes. */
  ghost predicate CoversRing(b: Box, p: Point, ring: nat) {
    forall q {:trigger InBox(q, b)} :: InBox(q, b) <==> Abs(q.x - p.x) <= ring as real && Abs(q.y - p.y) <= ring as real
  }

  /**
   * Identifiers hit within `ring` pixels of the click: the query gets a box
   * holding exactly the points within `ring` of the click on both axes, and
   * only the two selectable layers.
   */
  function Hits(query: Query, p: Point, ring: nat): (r: seq<string>)
    ensures exists b :: r == query(b, SelectableLayers) && CoversRing(b, p, ring)
  {
    var b := Surround(p, ring as real);
    forall q
      ensures InBox(q, b) <==> Abs(q.x - p.x) <= ring as real && Abs(q.y - p.y) <= ring as real
    {
      InSurround(p, ring as real, q);
    }
    query(b, SelectableLayers)
  }

  /** The engine's private state: `localSelection`, initially undefined. */
  datatype Selector = Selector(local: Selection)

  /** A fresh engine: `localSelection` is declared without a value. */
  function NewSelector(): Selector {
    Selector(None)
  }

  /** Whether `emitUpdate` was called, and with what. */
  datatype Emission = Silent | Emit(selection: Selection)

  /** The rings queried, in order, and the identifier found, if any. */
  datatype Search = Search(queried: seq<nat>, found: Selection)

  /**
   * The ring loop from `ring` on: query each ring in turn and stop at the
   * first one that hits anything, taking its first feature.
   */
  function SearchRings(query: Query, p: Point, ring: nat): (r: Search)
    requires ring <= RingCount
    ensures ring < RingCount ==> |r.queried| >= 1
    ensures ring + |r.queried| <= RingCount
    ensures forall j :: 0 <= j < |r.queried| ==> r.queried[j] == ring + j
    ensures forall k :: ring <= k < ring + |r.queried| - 1 ==> Hits(query, p, k) == []
    ensures r.found.Some? ==>
              && |r.queried| >= 1
              && Hits(query, p, ring + |r.queried| - 1) != []
              && r.found.value == Hits(query, p, ring + |r.queried| - 1)[0]
    ensures r.found.None? ==>
              && ring + |r.queried| == RingCount
              && forall k :: ring <= k < RingCount ==> Hits(query, p, k) == []
    decreases RingCount - ring
  {
    if ring == RingCount then Search([], None)
    else
      var neighbours := Hits(query, p, ring);
      if |neighbours| > 0 then
        assert ring + |[ring]| - 1 == ring;
        Search([ring], Some(neighbours[0]))
      else
        var rest := SearchRings(query, p, ring + 1);
        assert ring + |[ring] + rest.queried| - 1 == ring + 1 + |rest.queried| - 1;
        Search([ring] + rest.queried, rest.found)
  }

  /** `select(id)`: record the new selection locally, then emit it. */
  function Select(sel: Selector, id: Selection): (r: (Selector, Emission))
    ensures r.1 == Emit(r.0.local) && r.0.local == id
  {
    (sel.(local := id), Emit(id))
  }

  datatype ClickResult = ClickResult(selector: Selector, queried: seq<nat>, emitted: Emission)

  /**
   * `click(e)`, where `detail` is the browser's click count. Repeated clicks
   * are ignored; otherwise the first ring with a hit decides, and a click
   * that hits nothing within ring 4 clears the selection.
   */
  function Click(sel: Selector, query: Query, p: Point, detail: int): (r: ClickResult)
    ensures detail > 1 ==> r == ClickResult(sel, [], Silent)
    ensures detail <= 1 ==> r.emitted == Emit(r.selector.local)
    ensures detail <= 1 ==> 1 <= |r.queried| <= RingCount
    ensures detail <= 1 ==> forall j :: 0 <= j < |r.queried| ==> r.queried[j] == j
    ensures detail <= 1 ==> forall j :: 0 <= j < |r.queried| - 1 ==> Hits(query, p, j) == []
    ensures detail <= 1 && r.selector.local.Some? ==>
              && Hits(query, p, |r.queried| - 1) != []
              && r.selector.local.value == Hits(query, p, |r.queried| - 1)[0]
    ensures detail <= 1 && r.selector.local.None? ==>
              && |r.queried| == RingCount
              && forall k :: 0 <= k < RingCount ==> Hits(query, p, k) == []
  {
    if detail > 1 then ClickResult(sel, [], Silent)
    else
      var search := SearchRings(query, p, 0);
      var (sel', emitted) := Select(sel, search.found);
      ClickResult(sel', search.queried, emitted)
  }

  /** The smallest ring with a hit decides, whatever the larger rings would return. */
  lemma ClickPicksSmallestRing(sel: Selector, query: Query, p: Point, detail: int, k: nat)
    requires detail <= 1
    requires k < RingCount
    requires forall j :: 0 <= j < k ==> Hits(query, p, j) == []
    requires Hits(query, p, k) != []
    ensures Click(sel, query, p, detail).selector.local == Some(Hits(query, p, k)[0])
    ensures |Click(sel, query, p, detail).queried| == k + 1
  {
  }

  /** The external-selection watcher's outcome: the new state and whether the camera was asked to fly. */
  datatype WatchResult = WatchResult(selector: Selector, flew: bool)

  /**
   * The watcher's deferred callback, given the external value it reads: a
   * value that differs from the shadow copy is adopted and flown to; an
   * equal one is the echo of this engine's own click and is ignored.
   */
  function OnExternalChange(sel: Selector, external: Selection): (r: WatchResult)
    ensures r.selector.local == external
    ensures r.flew <==> external != sel.local
    ensures !r.flew ==> r.selector == sel
  {
    if external != sel.local then WatchResult(Selector(external), true)
    else WatchResult(sel, false)
  }

  /** Seeing the same external value twice flies at most once. */
  lemma WatcherIdempotent(sel: Selector, external: Selection)
    ensures var first := OnExternalChange(sel, external);
            var second := OnExternalChange(first.selector, external);
            !second.flew && second.selector == first.selector
  {
  }

  // ---------------------------------------------------------------------------
  // Closed loop: the owner echoes every emitted selection back
  // ---------------------------------------------------------------------------

  /**
   * The map engine together with the owner of the selection, which stores
   * every emitted value. `flights` counts calls of `flyToSelection`.
   */
  datatype Page = Page(external: Selection, selector: Selector, flights: nat)

  datatype PageEvent = Clicked(point: Point, detail: int) | ExternalSet(value: Selection)

  /** The watcher fires only when the external value actually changes. */
  function ChangeExternal(page: Page, v: Selection): (r: Page)
    ensures r.external == v
    ensures v == page.external ==> r == page
    ensures v != page.external ==> r.selector == Selector(v)
    ensures r.flights == page.flights + (if v != page.external && v != page.selector.local then 1 else 0)
  {
    if v == page.external then page
    else
      var w := OnExternalChange(page.selector, v);
      Page(v, w.selector, page.flights + (if w.flew then 1 else 0))
  }

  function PageStep(page: Page, query: Query, ev: PageEvent): (r: Page)
  {
    match ev
    case Clicked(p, detail) =>
      var c := Click(page.selector, query, p, detail);
      (match c.emitted
       case Silent => page.(selector := c.selector)
       case Emit(v) => ChangeExternal(page.(selector := c.selector), v))
    case ExternalSet(v) => ChangeExternal(page, v)
  }

  function RunPage(page: Page, query: Query, events: seq<PageEvent>): (r: Page)
    decreases |events|
  {
    if |events| == 0 then page
    else RunPage(PageStep(page, query, events[0]), query, events[1..])
  }

  /** The shadow copy agrees with the owner's value. */
  predicate Synced(page: Page) {
    page.external == page.selector.local
  }

  /** A click never makes the camera fly, even though its own emission comes back through the watcher. */
  lemma ClickNeverFlies(page: Page, query: Query, p: Point, detail: int)
    ensures PageStep(page, query, Clicked(p, detail)).flights == page.flights
    ensures detail <= 1 || Synced(page) ==> Synced(PageStep(page, query, Clicked(p, detail)))
  {
  }

  /** From a synced page, a change made elsewhere makes the camera fly exactly once and keeps the page synced. */
  lemma ExternalChangeFliesOnce(page: Page, query: Query, v: Selection)
    requires Synced(page)
    ensures var r := PageStep(page, query, ExternalSet(v));
            && Synced(r)
            && r.flights == page.flights + (if v != page.external then 1 else 0)
  {
  }

  /** Once synced, the page stays synced whatever happens. */
  lemma {:induction false} RunPageKeepsSynced(page: Page, query: Query, events: seq<PageEvent>)
    requires Synced(page)
    ensures Synced(RunPage(page, query, events))
    decreases |events|
  {
    if |events| > 0 {
      var next := PageStep(page, query, events[0]);
      match events[0] {
        case Clicked(p, detail) => ClickNeverFlies(page, query, p, detail);
        case ExternalSet(v) => ExternalChangeFliesOnce(page, query, v);
      }
      RunPageKeepsSynced(next, query, events[1..]);
    }
  }

  /**
   * A page loaded with nothing selected, whose engine starts with
   * `localSelection` undefined, stays synced from then on.
   */
  lemma FreshPageStaysSynced(query: Query, events: seq<PageEvent>)
    ensures Synced(RunPage(Page(None, NewSelector(), 0), query, events))
  {
    RunPageKeepsSynced(Page(None, NewSelector(), 0), query, events);
  }

  /** Without changes from elsewhere, the camera never flies: no feedback loop. */
  lemma {:induction false} OnlyExternalChangesFly(page: Page, query: Query, events: seq<PageEvent>)
    requires forall i :: 0 <= i < |events| ==> events[i].Clicked?
    ensures RunPage(page, query, events).flights == page.flights
    decreases |events|
  {
    if |events| > 0 {
      var e := events[0];
      assert e.Clicked?;
      ClickNeverFlies(page, query, e.point, e.detail);
      assert forall i :: 0 <= i < |events[1..]| ==> events[1..][i] == events[i + 1];
      OnlyExternalChangesFly(PageStep(page, query, e), query, events[1..]);
    }
  }
}
