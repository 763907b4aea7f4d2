/**
 What an answer means in the request's own terms: cells, pixels and declared policies,
 without the resolver's internal notions.
 */
module GridPolicies {
  import opened Results
  import opened GridGeometry
  import opened GridPlacement
  import opened GridGrowth
  import opened GridGaps
  import opened GridLayout
  import opened GridHoles

  // -------------------------------------------------------------------------- cells

  /** Two proper tiles overlap exactly if some cell belongs to both. */
  lemma OverlapIsSharedCell(a: Tile, b: Tile)
    requires a.columns >= 1 && a.rows >= 1 && b.columns >= 1 && b.rows >= 1
    ensures Overlaps(a, b) <==> exists x, y :: Covers(a, x, y) && Covers(b, x, y)
  {
    if Overlaps(a, b) {
      var x, y := if a.x < b.x then b.x else a.x, if a.y < b.y then b.y else a.y;
      assert Covers(a, x, y) && Covers(b, x, y);
    }
  }

  lemma DisjointCells(placed: seq<Tile>, columns: int, rows: int, i: nat, j: nat, x: int, y: int)
    requires Valid(placed, columns, rows) && i < |placed| && j < |placed|
    requires Covers(placed[i], x, y) && Covers(placed[j], x, y)
    ensures i == j
  {
  }

  /** In an answer every cell belongs to at most one tile, and every tile's cells lie inside the used rows. */
  lemma CellsOnce(request: Request, layout: Layout, i: nat, j: nat, x: int, y: int)
    requires ValidRequest(request) && IsLayout(request, Ok(layout)) && i < |layout.placed| && j < |layout.placed|
    requires Covers(layout.placed[i], x, y)
    ensures Covers(layout.placed[j], x, y) <==> i == j
    ensures 0 <= x < request.columns && 0 <= y < layout.usedRows <= request.maximumRows
  {
    LayoutSound(request, layout);
    hide IsLayout, ValidRequest, GapsClosed, NoStretchLeft, FloorKept, Accounted;
    assert Proper(layout.placed[i], request.columns, layout.usedRows);
    if Covers(layout.placed[j], x, y) {
      DisjointCells(layout.placed, request.columns, layout.usedRows, i, j, x, y);
    }
  }

  /** The cells one step of `t` in direction `d` would add. */
  predicate Beside(t: Tile, d: Direction, x: int, y: int) {
    match d
    case Right => x == t.x + t.columns && t.y <= y < t.y + t.rows
    case Down => y == t.y + t.rows && t.x <= x < t.x + t.columns
    case Left => x == t.x - 1 && t.y <= y < t.y + t.rows
    case Up => y == t.y - 1 && t.x <= x < t.x + t.columns
  }

  predicate AtMaximum(t: Tile, d: Direction, declared: Descriptor) {
    match d
    case Right => declared.maximumColumns.Some? && t.columns >= declared.maximumColumns.value
    case Left => declared.maximumColumns.Some? && t.columns >= declared.maximumColumns.value
    case Down => declared.maximumRows.Some? && t.rows >= declared.maximumRows.value
    case Up => declared.maximumRows.Some? && t.rows >= declared.maximumRows.value
  }

  lemma BesideIsTouching(t: Tile, d: Direction, x: int, y: int)
    requires t.columns >= 1 && t.rows >= 1
    ensures Touches(t, d, x, y) <==> Beside(t, d, x, y)
  {
  }

  /** Every hole is explained: a tile beside it is at its maximum there, or another tile stands in the way. */
  lemma HoleExplained(request: Request, layout: Layout, i: nat, n: nat, d: Direction, x: int, y: int)
    requires ValidRequest(request) && IsLayout(request, Ok(layout)) && i < |layout.placed| && n < |request.tiles|
    requires layout.placed[i].id == request.tiles[n].id
    requires 0 <= x < request.columns && 0 <= y < layout.usedRows && !Covered(layout.placed, x, y)
    requires Beside(layout.placed[i], d, x, y)
    ensures || AtMaximum(layout.placed[i], d, request.tiles[n])
            || exists a, b :: Beside(layout.placed[i], d, a, b) && Covered(layout.placed, a, b)
  {
    LayoutSound(request, layout);
    ByIdFinds(request.tiles, n);
    var t, ds := layout.placed[i], ById(request.tiles);
    assert Proper(t, request.columns, layout.usedRows);
    BesideIsTouching(t, d, x, y);
    if UnderCap(t, d, ds) {
      var a, b := StripObstructed(layout.placed, ds, request.columns, layout.usedRows, i, d, x, y);
      BesideIsTouching(t, d, a, b);
    }
  }

  predicate WantsStretch(t: Tile, d: Direction, declared: Descriptor, columns: int, rows: int) {
    match d
    case Right => declared.canStretchHorizontally && t.columns < declared.maximumColumns.GetOr(columns)
    case Down => declared.canStretchVertically && t.rows < declared.maximumRows.GetOr(rows)
    case _ => false
  }

  /** A tile that asked to be stretched and has not reached its size is stopped by the edge or another tile. */
  lemma StretchExplained(request: Request, layout: Layout, i: nat, n: nat, d: Direction)
    requires ValidRequest(request) && IsLayout(request, Ok(layout)) && i < |layout.placed| && n < |request.tiles|
    requires layout.placed[i].id == request.tiles[n].id
    requires WantsStretch(layout.placed[i], d, request.tiles[n], request.columns, request.maximumRows)
    ensures var t := layout.placed[i];
            || (d.Right? && t.x + t.columns == request.columns)
            || (d.Down? && t.y + t.rows == request.maximumRows)
            || exists a, b :: Beside(t, d, a, b) && Covered(layout.placed, a, b)
  {
    LayoutSound(request, layout);
    ByIdFinds(request.tiles, n);
    hide IsLayout, ValidRequest, GapsClosed, FloorKept, Accounted;
    var p, t := layout.placed, layout.placed[i];
    assert !Fits(Growth(t, d), p, request.columns, request.maximumRows);
    hide NoStretchLeft;
    ValidTaller(p, request.columns, layout.usedRows, request.maximumRows);
    BlockedByTile(p, request.columns, request.maximumRows, i, d);
  }

  lemma ValidTaller(p: seq<Tile>, columns: int, rows: int, taller: int)
    requires Valid(p, columns, rows) && rows <= taller
    ensures Valid(p, columns, taller)
  {
    forall i | 0 <= i < |p| ensures Proper(p[i], columns, taller) {
      assert Proper(p[i], columns, rows);
    }
  }

  /** A step right or down that does not fit leaves the grid or meets a covered cell. */
  lemma BlockedByTile(p: seq<Tile>, columns: int, rows: int, i: nat, d: Direction)
    requires Valid(p, columns, rows) && i < |p| && (d.Right? || d.Down?)
    requires !Fits(Growth(p[i], d), p, columns, rows)
    ensures || (d.Right? && p[i].x + p[i].columns == columns)
            || (d.Down? && p[i].y + p[i].rows == rows)
            || exists a, b :: Beside(p[i], d, a, b) && Covered(p, a, b)
  {
    var t, g := p[i], Growth(p[i], d);
    assert Proper(t, columns, rows);
    if Inside(g, columns, rows) {
      var k :| 0 <= k < |p| && p[k].id != g.id && Overlaps(g, p[k]);
      assert Proper(p[k], columns, rows);
      OverlapIsSharedCell(g, p[k]);
      var a, b :| Covers(g, a, b) && Covers(p[k], a, b);
      if Covers(t, a, b) {
        DisjointCells(p, columns, rows, i, k, a, b);
      }
      BesideIsTouching(t, d, a, b);
    }
  }

  // -------------------------------------------------------------------------- policies

  lemma {:induction false} LeaversDeclared(ordered: seq<Descriptor>, grid: Grid, decisions: seq<Decision>)
    requires IsRun(ordered, grid, decisions)
    ensures forall r :: r in RelocatedBy(ordered, decisions) ==> RoutedBy(ordered, r)
    ensures forall id :: id in HiddenBy(ordered, decisions) ==> HiddenAs(ordered, id)
  {
    if decisions != [] {
      var n := |decisions| - 1;
      var front := decisions[..n];
      assert IsDecision(ordered[n], PlacedBy(front), grid, decisions[n]);
      assert IsRun(ordered, grid, front) by {
        hide IsDecision;
        assert forall k :: 0 <= k < n ==> front[..k] == decisions[..k];
      }
      LeaversDeclared(ordered, grid, front);
      hide IsRun, FullyOccupied, IsFirstFit;
    }
  }

  /** The tile declares the route it left by. */
  ghost predicate RoutedBy(tiles: seq<Descriptor>, r: (string, string)) {
    exists n :: 0 <= n < |tiles| && tiles[n].id == r.0 && tiles[n].relocationRoute == Some(r.1)
  }

  /** The tile declares no route, and that it may be hidden. */
  ghost predicate HiddenAs(tiles: seq<Descriptor>, id: string) {
    exists n :: 0 <= n < |tiles| && tiles[n].id == id && tiles[n].relocationRoute.None? && tiles[n].hideWhenOverflow
  }

  lemma DeclaredInRequest(request: Request, r: (string, string), id: string)
    requires ValidRequest(request)
    ensures RoutedBy(Ordered(request), r) ==> RoutedBy(request.tiles, r)
    ensures HiddenAs(Ordered(request), id) ==> HiddenAs(request.tiles, id)
  {
    OrderedIsValid(request);
    var ordered := Ordered(request);
    hide Ordered;
    if n :| 0 <= n < |ordered| && ordered[n].id == r.0 && ordered[n].relocationRoute == Some(r.1) {
      var k :| 0 <= k < |request.tiles| && request.tiles[k] == ordered[n];
    }
    if n :| && 0 <= n < |ordered| && ordered[n].id == id
            && ordered[n].relocationRoute.None? && ordered[n].hideWhenOverflow
    {
      var k :| 0 <= k < |request.tiles| && request.tiles[k] == ordered[n];
    }
  }

  /** Tiles leave only as they declared: by their own route, or hidden because they declared no route but hiding. */
  lemma LeavesByPolicy(request: Request, layout: Layout)
    requires ValidRequest(request) && IsLayout(request, Ok(layout))
    ensures forall r :: r in layout.relocated ==> RoutedBy(request.tiles, r)
    ensures forall id :: id in layout.hidden ==> HiddenAs(request.tiles, id)
  {
    var decisions := RunOfLayout(request, layout);
    LeaversDeclared(Ordered(request), GridOf(request), decisions);
    assert layout.relocated == RelocatedBy(Ordered(request), decisions);
    assert layout.hidden == HiddenBy(Ordered(request), decisions);
    hide IsLayout, Builds, IsRun, Ordered, RelocatedBy, HiddenBy, RoutedBy, HiddenAs;
    forall r | r in layout.relocated ensures RoutedBy(request.tiles, r) {
      DeclaredInRequest(request, r, "");
    }
    forall id | id in layout.hidden ensures HiddenAs(request.tiles, id) {
      DeclaredInRequest(request, (id, id), id);
    }
  }

  ghost predicate IsPlaced(placed: seq<Tile>, id: string) {
    exists i :: 0 <= i < |placed| && placed[i].id == id
  }

  lemma AccountedSomewhere(p: Placement, id: string)
    requires id in Accounted(p)
    ensures IsPlaced(p.placed, id) || (exists r :: r in p.relocated && r.0 == id) || id in p.hidden
  {
    if id in TileIds(p.placed) {
      var i :| 0 <= i < |p.placed| && TileIds(p.placed)[i] == id;
      assert p.placed[i].id == id;
    } else if id in RouteIds(p.relocated) {
      var i :| 0 <= i < |p.relocated| && RouteIds(p.relocated)[i] == id;
      assert p.relocated[i] in p.relocated;
    }
  }

  lemma IdListed(tiles: seq<Descriptor>, n: nat)
    requires n < |tiles|
    ensures tiles[n].id in multiset(DescriptorIds(tiles))
  {
    assert DescriptorIds(tiles)[n] == tiles[n].id;
  }

  lemma DeclaresNothing(tiles: seq<Descriptor>, n: nat, route: string)
    requires forall i, j :: 0 <= i < j < |tiles| ==> tiles[i].id != tiles[j].id
    requires n < |tiles| && tiles[n].relocationRoute.None? && !tiles[n].hideWhenOverflow
    ensures !RoutedBy(tiles, (tiles[n].id, route)) && !HiddenAs(tiles, tiles[n].id)
  {
  }

  /** A tile that declares neither a route nor hiding is placed in every answer. */
  lemma KeptWithoutPolicy(request: Request, layout: Layout, n: nat)
    requires ValidRequest(request) && IsLayout(request, Ok(layout)) && n < |request.tiles|
    requires request.tiles[n].relocationRoute.None? && !request.tiles[n].hideWhenOverflow
    ensures IsPlaced(layout.placed, request.tiles[n].id)
  {
    hide IsLayout, GapsClosed, NoStretchLeft, FloorKept, Accounted, IsPlaced, RoutedBy, HiddenAs, Valid, Extends,
      RespectsCaps, IsPlacement, Ordered, DescriptorIds, IsMaximumBottom;
    LayoutSound(request, layout);
    LeavesByPolicy(request, layout);
    var id := request.tiles[n].id;
    IdListed(request.tiles, n);
    AccountedSomewhere(Placement(layout.placed, layout.relocated, layout.hidden), id);
    if r :| r in layout.relocated && r.0 == id {
      DeclaresNothing(request.tiles, n, r.1);
    } else {
      DeclaresNothing(request.tiles, n, "");
    }
  }

  // ------------------------------------------------------------------------- the floor

  lemma ColumnPixels(columns: int, width: real, total: int, minimum: real)
    requires total >= 1
    ensures columns as real * (width / total as real) >= minimum <==> columns as real * width >= minimum * total as real
  {
    var c, t := columns as real, total as real;
    var unit := width / t;
    assert unit * t == width;
    assert c * width == (c * unit) * t;
    ScaleBoth(c * unit, minimum, t);
  }

  lemma ScaleBoth(a: real, b: real, t: real)
    requires t > 0.0
    ensures a >= b <==> a * t >= b * t
  {
  }

  /** Both widths are given and the columns, drawn in that container, are narrower than the minimum. */
  ghost predicate TooNarrow(columns: int, request: Request) {
    && request.containerWidth.Some? && request.minimumTileWidth.Some?
    && columns as real * request.containerWidth.value < request.minimumTileWidth.value * request.columns as real
  }

  lemma FloorInPixels(columns: int, request: Request)
    requires request.columns >= 1
    ensures ClearsFloor(columns, GridOf(request)) <==> !TooNarrow(columns, request)
  {
    if request.containerWidth.Some? && request.minimumTileWidth.Some? {
      ColumnPixels(columns, request.containerWidth.value, request.columns, request.minimumTileWidth.value);
    }
  }

  /** No placed tile that declared a way to leave is drawn narrower than the minimum width. */
  lemma NeverTooNarrow(request: Request, layout: Layout, i: nat, n: nat)
    requires ValidRequest(request) && IsLayout(request, Ok(layout)) && i < |layout.placed| && n < |request.tiles|
    requires layout.placed[i].id == request.tiles[n].id
    requires request.tiles[n].relocationRoute.Some? || request.tiles[n].hideWhenOverflow
    ensures !TooNarrow(layout.placed[i].columns, request)
  {
    LayoutSound(request, layout);
    ByIdFinds(request.tiles, n);
    hide IsLayout, GapsClosed, NoStretchLeft, Accounted, TooNarrow;
    FloorInPixels(layout.placed[i].columns, request);
  }

  // ------------------------------------------------------------------------- first fit

  /** Variant `k` of the tile as it would lie with its corner at the cell. */
  function TileOf(d: Descriptor, k: nat, x: int, y: int): Tile
    requires k < |d.variants|
  {
    Tile(d.id, x, y, d.variants[k].columns, d.variants[k].rows, d.variants[k].presentation)
  }

  /** A place for variant `k` of the tile: inside the grid, wide enough, and clear of every placed tile. */
  ghost predicate RoomAt(d: Descriptor, k: int, placed: seq<Tile>, grid: Grid, x: int, y: int) {
    && 0 <= k < |d.variants|
    && var v := d.variants[k];
       && 0 <= x && 0 <= y && x + v.columns <= grid.columns && y + v.rows <= grid.rows
       && ClearsFloor(v.columns, grid)
       && forall i :: 0 <= i < |placed| && placed[i].id != d.id ==> !Overlaps(TileOf(d, k, x, y), placed[i])
  }

  lemma RoomIsFree(d: Descriptor, k: int, placed: seq<Tile>, grid: Grid, x: int, y: int)
    requires WellFormed(d) && RoomAt(d, k, placed, grid, x, y)
    ensures Eligible(d.variants[k], grid) && Position(d.variants[k], grid, x, y)
    ensures Free(d.id, d.variants[k], placed, x, y)
  {
  }

  /**
   The place found is a place, of the richest variant that has any: whatever other place
   some variant has, that variant comes later, or it is the same one further down or right.
   */
  lemma FirstFitIsFirst(d: Descriptor, placed: seq<Tile>, grid: Grid, c: Tile, j: int, x: int, y: int)
    requires WellFormed(d) && IsFirstFit(d, placed, grid, Some(c)) && RoomAt(d, j, placed, grid, x, y)
    ensures exists k :: RoomAt(d, k, placed, grid, c.x, c.y)
                        && c == TileOf(d, k, c.x, c.y)
                        && (k < j || (k == j && (c.y < y || (c.y == y && c.x <= x))))
  {
    var k :| FirstFitVariant(d, placed, grid, k, c);
    RoomIsFree(d, j, placed, grid, x, y);
    assert RoomAt(d, k, placed, grid, c.x, c.y);
    hide RoomAt, Free, Eligible;
    if j < k {
      assert false;
    } else if j == k && Before(x, y, c) {
      assert false;
    }
  }

  /** In a valid request no variant with room is larger than the one placed. */
  lemma LargestPlaced(d: Descriptor, placed: seq<Tile>, grid: Grid, c: Tile, j: int, x: int, y: int)
    requires ValidDescriptor(d) && IsFirstFit(d, placed, grid, Some(c)) && RoomAt(d, j, placed, grid, x, y)
    ensures d.variants[j].columns * d.variants[j].rows <= c.columns * c.rows
  {
    FirstFitIsFirst(d, placed, grid, c, j, x, y);
    var k :| RoomAt(d, k, placed, grid, c.x, c.y) && k <= j && c == TileOf(d, k, c.x, c.y);
    hide IsFirstFit;
    assert RoomAt(d, j, placed, grid, x, y);
    AreasFall(d, k, j);
  }

  lemma {:induction false} AreasFall(d: Descriptor, k: int, j: int)
    requires ValidDescriptor(d) && 0 <= k <= j < |d.variants|
    ensures Area(d.variants[j]) <= Area(d.variants[k])
    decreases j - k
  {
    if k < j {
      hide Area;
      AreasFall(d, k, j - 1);
    }
  }

  // ------------------------------------------------------------------- refused requests

  /** What can be wrong with a request. */
  datatype Fault =
    | NoCells
    | NoWidth
    | NamelessTile(tile: nat)
    | SameName(tile: nat, other: nat)
    | NoVariant(tile: nat)
    | EmptyVariant(tile: nat, variant: nat)
    | LargerVariant(tile: nat, variant: nat)
    | NoMaximum(tile: nat)

  ghost predicate Has(request: Request, fault: Fault) {
    var tiles := request.tiles;
    match fault
    case NoCells => request.columns <= 0 || request.maximumRows <= 0
    case NoWidth => || (request.containerWidth.Some? && request.containerWidth.value <= 0.0)
                    || (request.minimumTileWidth.Some? && request.minimumTileWidth.value <= 0.0)
    case NamelessTile(i) => i < |tiles| && forall c :: c in tiles[i].id ==> c in WHITESPACE
    case SameName(i, j) => i < |tiles| && j < |tiles| && i != j && tiles[i].id == tiles[j].id
    case NoVariant(i) => i < |tiles| && tiles[i].variants == []
    case EmptyVariant(i, k) =>
      i < |tiles| && k < |tiles[i].variants| && (tiles[i].variants[k].columns <= 0 || tiles[i].variants[k].rows <= 0)
    case LargerVariant(i, k) =>
      && i < |tiles| && 0 < k < |tiles[i].variants|
      && Area(tiles[i].variants[k]) > Area(tiles[i].variants[k - 1])
    case NoMaximum(i) =>
      && i < |tiles|
      && (|| (tiles[i].maximumColumns.Some? && tiles[i].maximumColumns.value <= 0)
          || (tiles[i].maximumRows.Some? && tiles[i].maximumRows.value <= 0))
  }

  lemma FaultOfDescriptor(request: Request, i: nat) returns (fault: Fault)
    requires i < |request.tiles| && !ValidDescriptor(request.tiles[i])
    ensures Has(request, fault)
  {
    hide Area;
    var d := request.tiles[i];
    if Blank(d.id) {
      fault := NamelessTile(i);
    } else if d.variants == [] {
      fault := NoVariant(i);
    } else if k: nat :| k < |d.variants| && !(d.variants[k].columns >= 1 && d.variants[k].rows >= 1) {
      fault := EmptyVariant(i, k);
    } else if k: nat :| 0 < k < |d.variants| && !(Area(d.variants[k]) <= Area(d.variants[k - 1])) {
      fault := LargerVariant(i, k);
    } else {
      fault := NoMaximum(i);
    }
  }

  lemma FaultOf(request: Request) returns (fault: Fault)
    requires !ValidRequest(request)
    ensures Has(request, fault)
  {
    hide ValidDescriptor;
    if !(request.columns >= 1 && request.maximumRows >= 1) {
      fault := NoCells;
    } else if i: nat :| i < |request.tiles| && !ValidDescriptor(request.tiles[i]) {
      fault := FaultOfDescriptor(request, i);
    } else if i: nat, j: nat :| i < j < |request.tiles| && request.tiles[i].id == request.tiles[j].id {
      fault := SameName(i, j);
    } else {
      fault := NoWidth;
    }
  }

  lemma FaultRefuses(request: Request, fault: Fault)
    requires Has(request, fault)
    ensures !ValidRequest(request)
  {
    hide Area;
    match fault {
      case NamelessTile(i) =>
        forall k | 0 <= k < |request.tiles[i].id| ensures request.tiles[i].id[k] in WHITESPACE {
          assert request.tiles[i].id[k] in request.tiles[i].id;
        }
        assert Blank(request.tiles[i].id);
      case SameName(i, j) =>
        var a, b := if i < j then i else j, if i < j then j else i;
        assert request.tiles[a].id == request.tiles[b].id;
      case EmptyVariant(i, k) =>
        var v := request.tiles[i].variants[k];
        assert !(v.columns >= 1 && v.rows >= 1);
      case _ =>
    }
  }

  /** A request is refused as invalid exactly if something is wrong with it. */
  lemma RefusedExactly(request: Request, r: Result<Layout, LayoutError>)
    requires IsLayout(request, r)
    ensures r == Err(InvalidRequest) <==> exists fault :: Has(request, fault)
  {
    if ValidRequest(request) {
      forall fault ensures !Has(request, fault) {
        if Has(request, fault) {
          FaultRefuses(request, fault);
        }
      }
    } else {
      var fault := FaultOf(request);
    }
    hide ValidRequest, Has;
  }

  /** An overflow names a tile of the request that declares neither a route nor hiding. */
  lemma OverflowNamesRequired(request: Request, id: string) returns (n: nat)
    requires ValidRequest(request) && IsLayout(request, Err(LayoutOverflow(id)))
    ensures n < |request.tiles| && request.tiles[n].id == id
    ensures request.tiles[n].relocationRoute.None? && !request.tiles[n].hideWhenOverflow
  {
    var decisions := RunOfOverflow(request, LayoutOverflow(id));
    OrderedIsValid(request);
    var ordered, k := Ordered(request), |decisions| - 1;
    assert IsDecision(ordered[k], PlacedBy(decisions[..k]), GridOf(request), decisions[k]);
    hide IsRun, IsLayout, Ordered, FullyOccupied;
    n :| n < |request.tiles| && request.tiles[n] == ordered[k];
  }
}
