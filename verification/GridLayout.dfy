/**
 The resolver as a whole: validation, priority order, placement, compaction,
 stretching, gap closing. `IsLayout` says which answer a request has, and the
 lemmas say what every answer guarantees.
 */
module GridLayout {
  import opened Results
  import opened StableSorting
  import opened GridGeometry
  import opened GridPlacement
  import opened GridGrowth
  import opened GridGaps

  datatype Request = Request(
    columns: int,
    maximumRows: int,
    tiles: seq<Descriptor>,
    containerWidth: Option<real>,
    minimumTileWidth: Option<real>)

  datatype Layout = Layout(placed: seq<Tile>, relocated: seq<(string, string)>, hidden: seq<string>, usedRows: int)

  datatype LayoutError = InvalidRequest | LayoutOverflow(id: string)

  const WHITESPACE: string :=
    "\t\n\U{B}\U{C}\r \U{A0}\U{1680}\U{2000}\U{2001}\U{2002}\U{2003}\U{2004}\U{2005}\U{2006}\U{2007}"
    + "\U{2008}\U{2009}\U{200A}\U{2028}\U{2029}\U{202F}\U{205F}\U{3000}\U{FEFF}"

  predicate Blank(id: string) {
    forall i :: 0 <= i < |id| ==> id[i] in WHITESPACE
  }

  predicate ValidDescriptor(d: Descriptor) {
    && !Blank(d.id)
    && |d.variants| > 0
    && (forall k :: 0 <= k < |d.variants| ==> d.variants[k].columns >= 1 && d.variants[k].rows >= 1)
    && (forall k :: 0 < k < |d.variants| ==> Area(d.variants[k]) <= Area(d.variants[k - 1]))
    && (d.maximumColumns.Some? ==> d.maximumColumns.value >= 1)
    && (d.maximumRows.Some? ==> d.maximumRows.value >= 1)
  }

  function Area(v: Variant): int {
    v.columns * v.rows
  }

  predicate ValidRequest(request: Request) {
    && request.columns >= 1
    && request.maximumRows >= 1
    && (request.containerWidth.Some? ==> request.containerWidth.value > 0.0)
    && (request.minimumTileWidth.Some? ==> request.minimumTileWidth.value > 0.0)
    && (forall i :: 0 <= i < |request.tiles| ==> ValidDescriptor(request.tiles[i]))
    && (forall i, j :: 0 <= i < j < |request.tiles| ==> request.tiles[i].id != request.tiles[j].id)
  }

  function GridOf(request: Request): Grid
    requires request.columns >= 1
  {
    Grid(request.columns, request.maximumRows,
         if request.containerWidth.Some? then Some(request.containerWidth.value / request.columns as real) else None,
         request.minimumTileWidth)
  }

  /** Highest priority first, equal priorities in the order the request lists them. */
  function Ordered(request: Request): seq<Descriptor> {
    StableSort(request.tiles, (d: Descriptor) => -d.priority)
  }

  lemma UsedRowsValid(p: seq<Tile>, columns: int, rows: int)
    requires Valid(p, columns, rows) && 0 <= rows
    ensures 0 <= UsedRows(p) <= rows
    ensures Valid(p, columns, UsedRows(p))
  {
  }

  /** Stretching followed by gap closing over the rows then in use. */
  ghost function Grown(p: seq<Tile>, descriptors: seq<Descriptor>, columns: nat, maximumRows: nat):
    (r: (seq<Tile>, int))
    requires Valid(p, columns, maximumRows)
  {
    var s := Stretched(p, ById(descriptors), columns, maximumRows);
    StretchedSound(p, ById(descriptors), columns, maximumRows);
    UsedRowsValid(s, columns, maximumRows);
    (Closed(s, ById(descriptors), columns, UsedRows(s)), UsedRows(s))
  }

  ghost predicate Builds(request: Request, decisions: seq<Decision>, layout: Layout)
    requires ValidRequest(request)
  {
    && Completed(Ordered(request), GridOf(request), decisions)
    && Valid(PlacedBy(decisions), request.columns, request.maximumRows)
    && (layout.placed, layout.usedRows)
       == Grown(PlacedBy(decisions), request.tiles, request.columns, request.maximumRows)
    && layout.relocated == RelocatedBy(Ordered(request), decisions)
    && layout.hidden == HiddenBy(Ordered(request), decisions)
  }

  ghost predicate IsLayout(request: Request, r: Result<Layout, LayoutError>) {
    if !ValidRequest(request) then r == Err(InvalidRequest)
    else match r
      case Err(InvalidRequest) => false
      case Err(LayoutOverflow(id)) => IsPlacement(Ordered(request), GridOf(request), Err(id))
      case Ok(layout) => exists ds :: Builds(request, ds, layout)
  }

  method ResolveGridLayout(request: Request) returns (r: Result<Layout, LayoutError>)
    ensures IsLayout(request, r)
  {
    if !ValidRequest(request) {
      return Err(InvalidRequest);
    }
    var placement := PlaceTiles(Ordered(request), GridOf(request));
    if placement.Err? {
      return Err(LayoutOverflow(placement.error));
    }
    ghost var decisions :| Completed(Ordered(request), GridOf(request), decisions)
                           && placement.value == PlacementOf(Ordered(request), decisions);
    OrderedIsValid(request);
    PlacementSound(Ordered(request), GridOf(request), decisions);
    var placed := placement.value.placed;
    var usedRows: int;
    placed, usedRows := GrowPlaced(placed, request);
    var layout := Layout(placed, placement.value.relocated, placement.value.hidden, usedRows);
    assert Builds(request, decisions, layout);
    r := Ok(layout);
  }

  /** The passes that run once every tile has been decided. */
  method GrowPlaced(tiles: seq<Tile>, request: Request) returns (placed: seq<Tile>, usedRows: int)
    requires request.columns >= 1 && request.maximumRows >= 1
    requires Valid(tiles, request.columns, request.maximumRows) && Tight(tiles)
    ensures (placed, usedRows) == Grown(tiles, request.tiles, request.columns, request.maximumRows)
  {
    if tiles == [] {
      QuietGrown(tiles, request.tiles, request.columns, request.maximumRows);
      return [], 0;
    }
    var list := new Tile[|tiles|](i requires 0 <= i < |tiles| => tiles[i]);
    assert list[..] == tiles;
    TightUnmoved(tiles, request.columns, request.maximumRows);
    hide CompactedFrom, Tight;
    CompactTiles(list, request.columns, request.maximumRows);
    StretchedSound(tiles, ById(request.tiles), request.columns, request.maximumRows);
    StretchTiles(list, request.tiles, request.columns, request.maximumRows);
    usedRows := 0;
    for i := 0 to list.Length
      invariant usedRows == UsedRows(list[..i])
    {
      assert list[..i + 1][..i] == list[..i];
      if usedRows < list[i].y + list[i].rows {
        usedRows := list[i].y + list[i].rows;
      }
    }
    assert list[..list.Length] == list[..];
    UsedRowsValid(list[..], request.columns, request.maximumRows);
    CloseGaps(list, request.tiles, request.columns, usedRows);
    placed := list[..];
  }

  // ------------------------------------------------------------ fixpoints stay

  lemma {:induction false} QuietSweepStays(p: seq<Tile>, i: nat, ds: map<string, Descriptor>, columns: int, rows: int)
    requires i <= |p| && NoStretchLeft(p, ds, columns, rows)
    ensures Sweep(p, i, ds, columns, rows) == p
    decreases |p| - i
  {
    if i < |p| {
      QuietSweepStays(p, i + 1, ds, columns, rows);
    }
  }

  /** A list with nothing to stretch and no gap to close is returned as it is. */
  lemma QuietGrown(p: seq<Tile>, descriptors: seq<Descriptor>, columns: nat, maximumRows: nat)
    requires Valid(p, columns, maximumRows)
    requires NoStretchLeft(p, ById(descriptors), columns, maximumRows)
    requires GapsClosed(p, ById(descriptors), columns, UsedRows(p))
    ensures Grown(p, descriptors, columns, maximumRows) == (p, UsedRows(p))
  {
    var ds := ById(descriptors);
    QuietSweepStays(p, 0, ds, columns, maximumRows);
    UsedRowsValid(p, columns, maximumRows);
    var cells := EmptyList(p, columns, UsedRows(p));
    FirstMoveExact(p, cells, ds, columns, UsedRows(p));
    var next := FirstMove(p, cells, ds, columns, UsedRows(p));
    if next.Some? {
      var c :| c in cells && IsMove(next.value, p, c.0, c.1, ds, columns, UsedRows(p));
      EmptyListExact(p, columns, UsedRows(p), c);
      assert false;
    }
  }

  // ---------------------------------------------------------------- the request

  lemma OrderedIsValid(request: Request)
    requires ValidRequest(request)
    ensures multiset(Ordered(request)) == multiset(request.tiles)
    ensures DistinctWellFormed(Ordered(request))
    ensures forall k :: 0 <= k < |Ordered(request)| ==> Ordered(request)[k] in request.tiles
  {
    var ordered := Ordered(request);
    SortIsStable(request.tiles, (d: Descriptor) => -d.priority);
    forall k | 0 <= k < |ordered| ensures ordered[k] in request.tiles && WellFormed(ordered[k]) {
      assert ordered[k] in multiset(ordered);
    }
    DistinctByMultiset(request.tiles, ordered);
  }

  lemma DistinctByMultiset(a: seq<Descriptor>, b: seq<Descriptor>)
    requires multiset(a) == multiset(b)
    requires forall i, j :: 0 <= i < j < |a| ==> a[i].id != a[j].id
    ensures forall i, j :: 0 <= i < j < |b| ==> b[i].id != b[j].id
  {
    forall i, j | 0 <= i < j < |b| ensures b[i].id != b[j].id {
      assert b == b[..i] + [b[i]] + b[i + 1..j] + [b[j]] + b[j + 1..];
      if b[i] == b[j] {
        assert multiset(b)[b[i]] >= 2;
        DistinctCountsOne(a, b[i]);
      } else {
        assert b[i] in multiset(a) && b[j] in multiset(a);
        var m :| 0 <= m < |a| && a[m] == b[i];
        var n :| 0 <= n < |a| && a[n] == b[j];
        assert m != n;
      }
    }
  }

  lemma {:induction false} DistinctCountsOne(a: seq<Descriptor>, d: Descriptor)
    requires forall i, j :: 0 <= i < j < |a| ==> a[i].id != a[j].id
    ensures multiset(a)[d] <= 1
  {
    if a != [] {
      DistinctCountsOne(a[1..], d);
      assert a == [a[0]] + a[1..];
    }
  }

  lemma {:induction false} DescriptorIdsPermuted(a: seq<Descriptor>, b: seq<Descriptor>)
    requires multiset(a) == multiset(b)
    ensures multiset(DescriptorIds(a)) == multiset(DescriptorIds(b))
    decreases |a|
  {
    if a == [] {
      assert |multiset(b)| == |b|;
    } else {
      assert a[0] in multiset(b);
      var j :| 0 <= j < |b| && b[j] == a[0];
      WithoutOne(a, 0);
      WithoutOne(b, j);
      assert multiset(Without(a, 0)) == multiset(Without(b, j));
      DescriptorIdsPermuted(Without(a, 0), Without(b, j));
    }
  }

  ghost function Without(s: seq<Descriptor>, j: nat): (r: seq<Descriptor>)
    requires j < |s|
    ensures |r| == |s| - 1
  {
    s[..j] + s[j + 1..]
  }

  lemma WithoutOne(s: seq<Descriptor>, j: nat)
    requires j < |s|
    ensures multiset(Without(s, j)) == multiset(s) - multiset{s[j]}
    ensures multiset(DescriptorIds(s)) == multiset(DescriptorIds(Without(s, j))) + multiset{s[j].id}
  {
    assert s == s[..j] + [s[j]] + s[j + 1..];
    assert DescriptorIds(s) == DescriptorIds(s[..j]) + [s[j].id] + DescriptorIds(s[j + 1..]);
    assert DescriptorIds(Without(s, j)) == DescriptorIds(s[..j]) + DescriptorIds(s[j + 1..]);
  }

  lemma {:induction false} ByIdFinds(descriptors: seq<Descriptor>, k: nat)
    requires forall i, j :: 0 <= i < j < |descriptors| ==> descriptors[i].id != descriptors[j].id
    requires k < |descriptors|
    ensures descriptors[k].id in ById(descriptors) && ById(descriptors)[descriptors[k].id] == descriptors[k]
  {
    if k < |descriptors| - 1 {
      ByIdFinds(descriptors[..|descriptors| - 1], k);
    }
  }

  // --------------------------------------------------------------- the theorems

  /** A tile that may leave was only placed where it cleared the floor, and growing never narrows it. */
  ghost predicate FloorKept(request: Request, placed: seq<Tile>)
    requires ValidRequest(request)
  {
    var ds := ById(request.tiles);
    forall i :: 0 <= i < |placed| ==>
      placed[i].id in ds && (CanLeave(ds[placed[i].id]) ==> ClearsFloor(placed[i].columns, GridOf(request)))
  }

  /**
   Every layout is safe, complete and finished: tiles in bounds and disjoint, the
   row count exact, each requested tile in exactly one list, no opted-in tile with
   a stretch left, no gap a one-step growth could close, caps and floor respected.
   */
  lemma LayoutSound(request: Request, layout: Layout)
    requires ValidRequest(request) && IsLayout(request, Ok(layout))
    ensures Valid(layout.placed, request.columns, layout.usedRows) && layout.usedRows <= request.maximumRows
    ensures IsMaximumBottom(layout.placed, layout.usedRows)
    ensures Accounted(Placement(layout.placed, layout.relocated, layout.hidden))
            == multiset(DescriptorIds(request.tiles))
    ensures GapsClosed(layout.placed, ById(request.tiles), request.columns, layout.usedRows)
    ensures NoStretchLeft(layout.placed, ById(request.tiles), request.columns, request.maximumRows)
    ensures FloorKept(request, layout.placed)
    ensures exists first ::
              && IsPlacement(Ordered(request), GridOf(request), Ok(Placement(first, layout.relocated, layout.hidden)))
              && Extends(first, layout.placed)
              && RespectsCaps(first, layout.placed, ById(request.tiles))
  {
    var decisions :| Builds(request, decisions, layout);
    var first := PlacedBy(decisions);
    GrownSound(first, request, layout.placed, layout.usedRows);
    NothingLostOverall(request, decisions, layout);
    OrderedIsValid(request);
    PlacementSound(Ordered(request), GridOf(request), decisions);
    FloorSurvives(request, first, layout.placed);
    FirstPlacement(request, decisions, layout);
  }

  lemma FirstPlacement(request: Request, decisions: seq<Decision>, layout: Layout)
    requires ValidRequest(request) && Builds(request, decisions, layout)
    ensures IsPlacement(Ordered(request), GridOf(request),
                        Ok(Placement(PlacedBy(decisions), layout.relocated, layout.hidden)))
  {
  }

  lemma NothingLostOverall(request: Request, decisions: seq<Decision>, layout: Layout)
    requires ValidRequest(request) && Builds(request, decisions, layout)
    requires Extends(PlacedBy(decisions), layout.placed)
    ensures Accounted(Placement(layout.placed, layout.relocated, layout.hidden))
            == multiset(DescriptorIds(request.tiles))
  {
    var ordered := Ordered(request);
    NothingLost(ordered, GridOf(request), decisions);
    assert ordered[..|decisions|] == ordered;
    OrderedIsValid(request);
    DescriptorIdsPermuted(ordered, request.tiles);
    SameIds(PlacedBy(decisions), layout.placed);
    assert PlacementOf(ordered, decisions) == Placement(PlacedBy(decisions), layout.relocated, layout.hidden);
    hide TileIds, RouteIds, DescriptorIds, Extends, Completed, Valid, Grown, PlacedBy, RelocatedBy, HiddenBy;
  }

  lemma SameIds(p: seq<Tile>, q: seq<Tile>)
    requires Extends(p, q)
    ensures TileIds(p) == TileIds(q)
  {
  }

  lemma GrownSound(first: seq<Tile>, request: Request, placed: seq<Tile>, usedRows: int)
    requires request.columns >= 1 && request.maximumRows >= 1
    requires Valid(first, request.columns, request.maximumRows)
    requires (placed, usedRows) == Grown(first, request.tiles, request.columns, request.maximumRows)
    ensures Valid(placed, request.columns, usedRows) && usedRows <= request.maximumRows
    ensures IsMaximumBottom(placed, usedRows)
    ensures GapsClosed(placed, ById(request.tiles), request.columns, usedRows)
    ensures NoStretchLeft(placed, ById(request.tiles), request.columns, request.maximumRows)
    ensures Extends(first, placed) && RespectsCaps(first, placed, ById(request.tiles))
  {
    var ds, columns, maximumRows := ById(request.tiles), request.columns, request.maximumRows;
    var s := Stretched(first, ds, columns, maximumRows);
    StretchedSound(first, ds, columns, maximumRows);
    UsedRowsValid(s, columns, maximumRows);
    ClosedSound(s, ds, columns, usedRows);
    StretchSurvives(s, ds, columns, usedRows, maximumRows);
    ExtendsTransitive(first, s, placed, ds);
    UsedRowsIsMaximum(s);
    BottomKept(s, placed, columns, usedRows);
  }

  /** Growth inside the used rows neither lowers nor raises the lowest edge. */
  lemma BottomKept(s: seq<Tile>, q: seq<Tile>, columns: int, usedRows: int)
    requires IsMaximumBottom(s, usedRows) && Extends(s, q) && Valid(q, columns, usedRows)
    ensures IsMaximumBottom(q, usedRows)
  {
  }

  lemma FloorSurvives(request: Request, first: seq<Tile>, placed: seq<Tile>)
    requires ValidRequest(request) && Extends(first, placed)
    requires FromDecided(first, Ordered(request), |Ordered(request)|, GridOf(request))
    ensures FloorKept(request, placed)
  {
    OrderedIsValid(request);
    var ordered, ds, grid := Ordered(request), ById(request.tiles), GridOf(request);
    forall i | 0 <= i < |placed|
      ensures placed[i].id in ds && (CanLeave(ds[placed[i].id]) ==> ClearsFloor(placed[i].columns, grid))
    {
      var k :| 0 <= k < |ordered| && first[i].id == ordered[k].id
               && (CanLeave(ordered[k]) ==> ClearsFloor(first[i].columns, grid));
      assert ordered[k] in request.tiles;
      var n :| 0 <= n < |request.tiles| && request.tiles[n] == ordered[k];
      ByIdFinds(request.tiles, n);
      assert Expands(first[i], placed[i]);
      if ClearsFloor(first[i].columns, grid) {
        WiderClears(first[i].columns, placed[i].columns, request);
      }
    }
  }

  lemma WiderClears(narrow: int, wide: int, request: Request)
    requires ValidRequest(request) && narrow <= wide && ClearsFloor(narrow, GridOf(request))
    ensures ClearsFloor(wide, GridOf(request))
  {
  }

  /** A request has exactly one answer: the resolver is deterministic, errors included. */
  lemma LayoutUnique(request: Request, a: Result<Layout, LayoutError>, b: Result<Layout, LayoutError>)
    requires IsLayout(request, a) && IsLayout(request, b)
    ensures a == b
  {
    if ValidRequest(request) {
      var ordered, grid := Ordered(request), GridOf(request);
      var da := RunOf(request, a);
      var db := RunOf(request, b);
      var n := if |da| <= |db| then |da| else |db|;
      RunUnique(ordered, grid, da, db, n);
      assert da == da[..|da|] && db == db[..|db|];
    }
  }

  /** The decisions behind an answer. */
  lemma RunOf(request: Request, r: Result<Layout, LayoutError>) returns (decisions: seq<Decision>)
    requires ValidRequest(request) && IsLayout(request, r)
    ensures IsRun(Ordered(request), GridOf(request), decisions)
    ensures r.Ok? ==> Builds(request, decisions, r.value) && |decisions| == |request.tiles| && Overflow !in decisions
    ensures r.Err? ==> 0 < |decisions| && r.error == LayoutOverflow(Ordered(request)[|decisions| - 1].id)
                       && decisions[|decisions| - 1] == Overflow && Overflow !in decisions[..|decisions| - 1]
  {
    hide IsLayout, Builds, IsRun;
    if r.Ok? {
      decisions := RunOfLayout(request, r.value);
    } else {
      decisions := RunOfOverflow(request, r.error);
    }
  }

  lemma RunOfLayout(request: Request, layout: Layout) returns (decisions: seq<Decision>)
    requires ValidRequest(request) && IsLayout(request, Ok(layout))
    ensures IsRun(Ordered(request), GridOf(request), decisions)
    ensures Builds(request, decisions, layout) && |decisions| == |request.tiles| && Overflow !in decisions
  {
    hide IsRun, Grown;
    decisions :| Builds(request, decisions, layout);
  }

  lemma RunOfOverflow(request: Request, error: LayoutError) returns (decisions: seq<Decision>)
    requires ValidRequest(request) && IsLayout(request, Err(error))
    ensures IsRun(Ordered(request), GridOf(request), decisions)
    ensures 0 < |decisions| && error == LayoutOverflow(Ordered(request)[|decisions| - 1].id)
    ensures decisions[|decisions| - 1] == Overflow && Overflow !in decisions[..|decisions| - 1]
  {
    hide IsDecision, Builds;
    decisions :| Overflowed(Ordered(request), GridOf(request), decisions, |decisions| - 1)
                 && error.id == Ordered(request)[|decisions| - 1].id;
  }

  /**
   The overflow error is raised exactly when the run reaches a tile that has no
   policy and no free position for any variant, even without the floor.
   */
  lemma OverflowExact(request: Request, r: Result<Layout, LayoutError>)
    requires ValidRequest(request) && IsLayout(request, r)
    ensures r.Err? <==> exists ds, k :: ReachesStuckTile(request, ds, k)
  {
    var decisions := RunOf(request, r);
    hide IsLayout, Builds, IsRun, ValidRequest, PlacedBy, Ordered, GridOf;
    if r.Err? {
      StopsWhereStuck(request, decisions);
    } else if ds, k :| ReachesStuckTile(request, ds, k) {
      StuckMeansOverflow(request, decisions, ds, k);
      assert false;
    }
  }

  lemma StopsWhereStuck(request: Request, decisions: seq<Decision>)
    requires ValidRequest(request) && IsRun(Ordered(request), GridOf(request), decisions)
    requires decisions != [] && decisions[|decisions| - 1] == Overflow && Overflow !in decisions[..|decisions| - 1]
    ensures ReachesStuckTile(request, decisions[..|decisions| - 1], |decisions| - 1)
  {
    var ordered, grid, k := Ordered(request), GridOf(request), |decisions| - 1;
    var before := decisions[..k];
    assert IsRun(ordered, grid, before) by {
      hide IsDecision;
      assert forall i :: 0 <= i < k ==> before[..i] == decisions[..i];
    }
    assert IsDecision(ordered[k], PlacedBy(before), grid, decisions[k]);
    hide IsRun;
  }

  lemma StuckMeansOverflow(request: Request, decisions: seq<Decision>, ds: seq<Decision>, k: int)
    requires ValidRequest(request) && IsRun(Ordered(request), GridOf(request), decisions)
    requires |decisions| == |Ordered(request)|
    requires ReachesStuckTile(request, ds, k)
    ensures Overflow in decisions
  {
    var ordered, grid := Ordered(request), GridOf(request);
    assert IsDecision(ordered[k], PlacedBy(decisions[..k]), grid, decisions[k]);
    assert IsDecision(ordered[k], PlacedBy(ds), grid, Overflow);
    hide IsDecision, IsRun, PlacedBy;
    RunUnique(ordered, grid, decisions, ds, k);
    assert ds == ds[..k];
    DecisionUnique(ordered[k], PlacedBy(ds), grid, decisions[k], Overflow);
  }

  ghost predicate ReachesStuckTile(request: Request, ds: seq<Decision>, k: int)
    requires ValidRequest(request)
  {
    var ordered, grid := Ordered(request), GridOf(request);
    && IsRun(ordered, grid, ds) && 0 <= k == |ds| < |ordered| && Overflow !in ds
    && !CanLeave(ordered[k])
    && FullyOccupied(ordered[k], PlacedBy(ds), grid.WithoutFloor())
  }
}
