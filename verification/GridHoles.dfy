/**
 The resolver's own description promises a grid with no empty cell unless every
 tile touching that cell has reached its declared maximum. The code does not
 keep that promise on every grid. Here are the exact conditions, which a caller
 can read off the request:

 - for arbitrary requests the promise holds on a grid of C columns and R rows
   if and only if C == 1 or R == 1;
 - for requests that declare no maximum, where the promise means no empty cell
   at all, it holds if and only if C <= 2 or R <= 2.
 */
module GridHoles {
  import opened Results
  import opened StableSorting
  import opened GridGeometry
  import opened GridPlacement
  import opened GridGrowth
  import opened GridGaps
  import opened GridLayout

  ghost predicate Hole(p: seq<Tile>, columns: int, rows: int, x: int, y: int) {
    0 <= x < columns && 0 <= y < rows && !Covered(p, x, y)
  }

  /** One step in direction `d` is what separates the tile from the cell. */
  ghost predicate Touches(t: Tile, d: Direction, x: int, y: int) {
    Covers(Growth(t, d), x, y) && !Covers(t, x, y)
  }

  ghost predicate PromiseKept(p: seq<Tile>, ds: map<string, Descriptor>, columns: int, rows: int) {
    forall x, y, i, d :: Hole(p, columns, rows, x, y) && 0 <= i < |p| && Touches(p[i], d, x, y) ==>
      !UnderCap(p[i], d, ds)
  }

  ghost predicate NoHole(p: seq<Tile>, columns: int, rows: int) {
    forall x, y :: !Hole(p, columns, rows, x, y)
  }

  /** Where gaps are closed, a growth into a hole is obstructed by a covered cell of its own strip. */
  lemma StripObstructed(p: seq<Tile>, ds: map<string, Descriptor>, columns: int, rows: int,
                        i: nat, d: Direction, x: int, y: int) returns (a: int, b: int)
    requires Valid(p, columns, rows) && GapsClosed(p, ds, columns, rows) && i < |p|
    requires Hole(p, columns, rows, x, y) && Touches(p[i], d, x, y) && UnderCap(p[i], d, ds)
    ensures Touches(p[i], d, a, b) && Covered(p, a, b)
  {
    var g := Growth(p[i], d);
    assert !IsMove(Move(i, d), p, x, y, ds, columns, rows);
    assert Proper(p[i], columns, rows);
    assert Inside(g, columns, rows);
    var k :| 0 <= k < |p| && p[k].id != g.id && Overlaps(g, p[k]);
    a := if g.x < p[k].x then p[k].x else g.x;
    b := if g.y < p[k].y then p[k].y else g.y;
    assert Covers(p[k], a, b) && Proper(p[k], columns, rows);
    assert !Overlaps(p[i], p[k]);
  }

  // --------------------------------------------------- grids one cell wide or high

  lemma LineKeepsPromise(p: seq<Tile>, ds: map<string, Descriptor>, columns: int, rows: int)
    requires Valid(p, columns, rows) && GapsClosed(p, ds, columns, rows)
    requires columns == 1 || rows <= 1
    ensures PromiseKept(p, ds, columns, rows)
  {
    forall x, y, i, d | Hole(p, columns, rows, x, y) && 0 <= i < |p| && Touches(p[i], d, x, y)
      ensures !UnderCap(p[i], d, ds)
    {
      assert Proper(p[i], columns, rows);
      if UnderCap(p[i], d, ds) {
        var a, b := StripObstructed(p, ds, columns, rows, i, d, x, y);
        assert false;
      }
    }
  }

  // ------------------------------------------------------------------- two rows

  /** A one-row tile leaves no hole beside it: the strip is the single cell. */
  lemma RowSpreads(p: seq<Tile>, columns: int, rows: int, i: nat, x: int, y: int, next: int)
    requires Valid(p, columns, rows) && GapsClosed(p, map[], columns, rows)
    requires i < |p| && Covers(p[i], x, y) && p[i].rows == 1
    requires 0 <= next < columns && (next == x + 1 || next == x - 1)
    ensures Covered(p, next, y)
  {
    assert Proper(p[i], columns, rows);
    if !Covered(p, next, y) {
      var d := if next > x then Right else Left;
      assert Touches(p[i], d, next, y);
      var a, b := StripObstructed(p, map[], columns, rows, i, d, next, y);
    }
  }

  /** A column is never half covered: the tile in the other row would have spread along it. */
  lemma NoHalfColumn(p: seq<Tile>, columns: int, x: int, y: int)
    requires Valid(p, columns, 2) && GapsClosed(p, map[], columns, 2)
    requires 0 <= x < columns && 0 <= y < 2 && Covered(p, x, y)
    ensures Covered(p, x, 1 - y)
  {
    var i :| 0 <= i < |p| && Covers(p[i], x, y);
    assert Proper(p[i], columns, 2);
    if !Covered(p, x, 1 - y) {
      assert p[i].rows == 1 by {
        assert !Covers(p[i], x, 1 - y);
      }
      var d := if y == 0 then Down else Up;
      assert Touches(p[i], d, x, 1 - y);
      var z, b := StripObstructed(p, map[], columns, 2, i, d, x, 1 - y);
      WalkRow(p, columns, i, z, x, 1 - y);
    }
  }

  /** Beside a one-row tile, cover in the other row spreads from `z` to `x` along that tile. */
  lemma WalkRow(p: seq<Tile>, columns: int, i: nat, z: int, x: int, y: int)
    requires Valid(p, columns, 2) && GapsClosed(p, map[], columns, 2) && i < |p| && 0 <= y < 2
    requires Covers(p[i], z, 1 - y) && Covers(p[i], x, 1 - y) && p[i].rows == 1
    requires Covered(p, z, y)
    ensures Covered(p, x, y)
    decreases if z < x then x - z else z - x
  {
    hide GapsClosed;
    if z != x {
      var k :| 0 <= k < |p| && Covers(p[k], z, y);
      assert Proper(p[k], columns, 2) && Proper(p[i], columns, 2);
      assert k < i ==> !Overlaps(p[k], p[i]);
      assert i < k ==> !Overlaps(p[i], p[k]);
      hide Valid;
      assert p[k].rows == 1;
      var next := if z < x then z + 1 else z - 1;
      RowSpreads(p, columns, 2, k, z, y, next);
      WalkRow(p, columns, i, next, x, y);
    }
  }

  ghost predicate ColumnFull(p: seq<Tile>, x: int, rows: int) {
    forall y :: 0 <= y < rows ==> Covered(p, x, y)
  }

  lemma ColumnSpreads(p: seq<Tile>, columns: int, rows: int, x: int, next: int)
    requires Valid(p, columns, rows) && GapsClosed(p, map[], columns, rows) && 1 <= rows <= 2
    requires 0 <= x < columns && ColumnFull(p, x, rows)
    requires 0 <= next < columns && (next == x + 1 || next == x - 1)
    ensures ColumnFull(p, next, rows)
  {
    hide GapsClosed;
    assert Covered(p, x, 0);
    if !Covered(p, next, 0) {
      var i :| 0 <= i < |p| && Covers(p[i], x, 0);
      assert Proper(p[i], columns, rows);
      hide Valid;
      var d := if next > x then Right else Left;
      assert Touches(p[i], d, next, 0);
      var a, b := StripObstructed(p, map[], columns, rows, i, d, next, 0);
      assert a == next && b == 1;
      NoHalfColumn(p, columns, next, 1);
      assert false;
    }
    if rows == 2 {
      NoHalfColumn(p, columns, next, 0);
    }
  }

  lemma TwoRowsFull(p: seq<Tile>, columns: int, rows: int)
    requires Valid(p, columns, rows) && GapsClosed(p, map[], columns, rows) && rows <= 2
    requires p != [] || rows <= 0
    ensures NoHole(p, columns, rows)
  {
    if rows > 0 {
      assert Proper(p[0], columns, rows);
      var x0 := p[0].x;
      assert Covers(p[0], x0, p[0].y);
      if rows == 2 {
        NoHalfColumn(p, columns, x0, p[0].y);
      }
      var lo, hi := x0, x0;
      while 0 < lo || hi < columns - 1
        invariant 0 <= lo <= x0 <= hi < columns
        invariant forall x :: lo <= x <= hi ==> ColumnFull(p, x, rows)
        decreases lo + columns - hi
      {
        if 0 < lo {
          ColumnSpreads(p, columns, rows, lo, lo - 1);
          lo := lo - 1;
        } else {
          ColumnSpreads(p, columns, rows, hi, hi + 1);
          hi := hi + 1;
        }
      }
      forall x, y ensures !Hole(p, columns, rows, x, y) {
        if 0 <= x < columns && 0 <= y < rows {
          assert ColumnFull(p, x, rows);
        }
      }
    }
  }

  // ------------------------------------------------- two columns, by transposition

  function Flip(t: Tile): Tile {
    Tile(t.id, t.y, t.x, t.rows, t.columns, t.presentation)
  }

  function FlipDirection(d: Direction): Direction {
    match d case Right => Down case Down => Right case Left => Up case Up => Left
  }

  function FlipAll(p: seq<Tile>): seq<Tile> {
    seq(|p|, i requires 0 <= i < |p| => Flip(p[i]))
  }

  lemma FlipCovered(p: seq<Tile>, x: int, y: int)
    ensures Covered(FlipAll(p), x, y) == Covered(p, y, x)
  {
    if Covered(p, y, x) {
      var k :| 0 <= k < |p| && Covers(p[k], y, x);
      assert Covers(FlipAll(p)[k], x, y);
    }
  }

  lemma FlipClosed(p: seq<Tile>, columns: int, rows: int)
    requires Valid(p, columns, rows) && GapsClosed(p, map[], columns, rows)
    ensures Valid(FlipAll(p), rows, columns) && GapsClosed(FlipAll(p), map[], rows, columns)
  {
    var q := FlipAll(p);
    forall i | 0 <= i < |q| ensures Proper(q[i], rows, columns) {
      assert Proper(p[i], columns, rows);
    }
    forall i, j | 0 <= i < j < |q| ensures !Overlaps(q[i], q[j]) {
      assert !Overlaps(p[i], p[j]);
    }
    forall x, y, m | Hole(q, rows, columns, x, y) ensures !IsMove(m, q, x, y, map[], rows, columns) {
      FlipCovered(p, x, y);
      if IsMove(m, q, x, y, map[], rows, columns) {
        FlipMove(p, m, columns, rows, x, y);
        assert false;
      }
    }
  }

  lemma FlipMove(p: seq<Tile>, m: Move, columns: int, rows: int, x: int, y: int)
    requires IsMove(m, FlipAll(p), x, y, map[], rows, columns)
    ensures IsMove(Move(m.index, FlipDirection(m.direction)), p, y, x, map[], columns, rows)
  {
    var q := FlipAll(p);
    var g := Growth(p[m.index], FlipDirection(m.direction));
    assert Growth(q[m.index], m.direction) == Flip(g);
    if OverlapsAny(g, p) {
      var k :| 0 <= k < |p| && p[k].id != g.id && Overlaps(g, p[k]);
      assert Overlaps(Flip(g), q[k]);
      assert false;
    }
  }

  lemma NarrowFull(p: seq<Tile>, columns: int, rows: int)
    requires Valid(p, columns, rows) && GapsClosed(p, map[], columns, rows)
    requires columns <= 2 || rows <= 2
    requires p != [] || rows <= 0
    ensures NoHole(p, columns, rows)
  {
    if rows <= 2 {
      TwoRowsFull(p, columns, rows);
    } else {
      FlipClosed(p, columns, rows);
      TwoRowsFull(FlipAll(p), rows, columns);
      forall x, y ensures !Hole(p, columns, rows, x, y) {
        FlipCovered(p, y, x);
        assert !Hole(FlipAll(p), rows, columns, y, x);
      }
    }
  }

  // ----------------------------------------------------------------- the witnesses

  function Plain(id: string, columns: int, rows: int): Descriptor {
    Descriptor(id, 0.0, [Variant(columns, rows, Full)], None, None, false, false, None, false)
  }

  lemma LettersAreNotBlank()
    ensures !Blank("a") && !Blank("b") && !Blank("c") && !Blank("d") && !Blank("t") && !Blank("w")
  {
    assert forall i :: 0 <= i < |WHITESPACE| ==> !('a' <= WHITESPACE[i] <= 'z');
    assert "a"[0] !in WHITESPACE && "b"[0] !in WHITESPACE && "c"[0] !in WHITESPACE;
    assert "d"[0] !in WHITESPACE && "t"[0] !in WHITESPACE && "w"[0] !in WHITESPACE;
  }

  /** Tiles of equal priority keep their order. */
  lemma EqualPrioritiesKeepOrder(request: Request)
    requires forall i :: 0 <= i < |request.tiles| ==> request.tiles[i].priority == 0.0
    ensures Ordered(request) == request.tiles
  {
    var key := (d: Descriptor) => -d.priority;
    SortIsStable(request.tiles, key);
    StableSortUnique(StableSort(request.tiles, key), request.tiles, key);
  }

  /** The only variant of a tile, at the first position that is free. */
  lemma OnlyFit(d: Descriptor, placed: seq<Tile>, grid: Grid, x: int, y: int)
    requires |d.variants| == 1 && Eligible(d.variants[0], grid) && Position(d.variants[0], grid, x, y)
    requires Free(d.id, d.variants[0], placed, x, y)
    requires forall a, b :: Position(d.variants[0], grid, a, b) && (b < y || (b == y && a < x)) ==>
               !Free(d.id, d.variants[0], placed, a, b)
    ensures IsDecision(d, placed, grid, Place(TileAt(d.id, d.variants[0], x, y)))
  {
    var c := TileAt(d.id, d.variants[0], x, y);
    assert FirstFitVariant(d, placed, grid, 0, c);
  }

  /** A layout the growth passes leave alone is the answer to its request. */
  lemma StaysAsPlaced(request: Request, p: seq<Tile>)
    requires ValidRequest(request) && Ordered(request) == request.tiles
    requires |p| == |request.tiles|
    requires forall k :: 0 <= k < |p| ==> IsDecision(request.tiles[k], p[..k], GridOf(request), Place(p[k]))
    requires NoStretchLeft(p, ById(request.tiles), request.columns, request.maximumRows)
    requires GapsClosed(p, ById(request.tiles), request.columns, UsedRows(p))
    ensures IsLayout(request, Ok(Layout(p, [], [], UsedRows(p))))
  {
    hide Ordered, IsDecision;
    var ds := CompletedAsPlaced(request.tiles, GridOf(request), p);
    StaysQuiet(request, p, ds);
  }

  lemma StaysQuiet(request: Request, p: seq<Tile>, ds: seq<Decision>)
    requires ValidRequest(request) && Completed(Ordered(request), GridOf(request), ds)
    requires PlacedBy(ds) == p && RelocatedBy(Ordered(request), ds) == [] && HiddenBy(Ordered(request), ds) == []
    requires NoStretchLeft(p, ById(request.tiles), request.columns, request.maximumRows)
    requires GapsClosed(p, ById(request.tiles), request.columns, UsedRows(p))
    ensures IsLayout(request, Ok(Layout(p, [], [], UsedRows(p))))
  {
    hide Ordered;
    OrderedIsValid(request);
    PlacementSound(Ordered(request), GridOf(request), ds);
    hide Completed, Valid, GapsClosed, NoStretchLeft, Tight, FromDecided, Grown, UsedRows;
    QuietGrown(p, request.tiles, request.columns, request.maximumRows);
    assert Builds(request, ds, Layout(p, [], [], UsedRows(p)));
  }

  lemma CompletedAsPlaced(tiles: seq<Descriptor>, grid: Grid, p: seq<Tile>) returns (ds: seq<Decision>)
    requires |p| == |tiles|
    requires forall k :: 0 <= k < |p| ==> IsDecision(tiles[k], p[..k], grid, Place(p[k]))
    ensures Completed(tiles, grid, ds)
    ensures PlacedBy(ds) == p && RelocatedBy(tiles, ds) == [] && HiddenBy(tiles, ds) == []
  {
    hide IsDecision;
    ds := seq(|p|, k requires 0 <= k < |p| => Place(p[k]));
    AllPlaced(tiles, p, ds, |p|);
    assert ds[..|p|] == ds && p[..|p|] == p;
    forall k | 0 <= k < |ds| ensures IsDecision(tiles[k], PlacedBy(ds[..k]), grid, ds[k]) {
      AllPlaced(tiles, p, ds, k);
    }
  }

  lemma {:induction false} AllPlaced(tiles: seq<Descriptor>, p: seq<Tile>, ds: seq<Decision>, k: nat)
    requires |tiles| == |p| == |ds| && k <= |p|
    requires forall i :: 0 <= i < |p| ==> ds[i] == Place(p[i])
    ensures PlacedBy(ds[..k]) == p[..k]
    ensures RelocatedBy(tiles, ds[..k]) == [] && HiddenBy(tiles, ds[..k]) == []
  {
    if k > 0 {
      AllPlaced(tiles, p, ds, k - 1);
      assert ds[..k][..k - 1] == ds[..k - 1];
      assert p[..k] == p[..k - 1] + [p[k - 1]];
    }
  }

  /** A one-cell tile that may not grow, beside a tile spanning the rest of the grid. */
  function CornerRequest(columns: int, rows: int): Request {
    Request(columns, rows,
            [Plain("t", 1, 1).(maximumColumns := Some(1), maximumRows := Some(1)), Plain("w", columns - 1, rows)],
            None, None)
  }

  function Corner(columns: int, rows: int): seq<Tile> {
    [Tile("t", 0, 0, 1, 1, Full), Tile("w", 1, 0, columns - 1, rows, Full)]
  }

  lemma CornerBreaksPromise(columns: int, rows: int) returns (layout: Layout)
    requires columns >= 2 && rows >= 2
    ensures var request := CornerRequest(columns, rows);
            && ValidRequest(request) && IsLayout(request, Ok(layout))
            && !PromiseKept(layout.placed, ById(request.tiles), columns, layout.usedRows)
  {
    var request, p := CornerRequest(columns, rows), Corner(columns, rows);
    CornerValid(columns, rows);
    CornerFirst(columns, rows);
    CornerSecond(columns, rows);
    CornerQuiet(columns, rows);
    assert p[..0] == [] && p[..1] == [p[0]];
    hide CornerRequest, Corner, IsDecision, NoStretchLeft, GapsClosed, ValidRequest, IsLayout, PromiseKept;
    StaysAsPlaced(request, p);
    layout := Layout(p, [], [], UsedRows(p));
  }

  lemma CornerValid(columns: int, rows: int)
    requires columns >= 2 && rows >= 2
    ensures ValidRequest(CornerRequest(columns, rows))
    ensures Ordered(CornerRequest(columns, rows)) == CornerRequest(columns, rows).tiles
  {
    LettersAreNotBlank();
    EqualPrioritiesKeepOrder(CornerRequest(columns, rows));
  }

  lemma CornerQuiet(columns: int, rows: int)
    requires columns >= 2 && rows >= 2
    ensures var ds, p := ById(CornerRequest(columns, rows).tiles), Corner(columns, rows);
            && UsedRows(p) == rows
            && NoStretchLeft(p, ds, columns, rows) && GapsClosed(p, ds, columns, rows)
            && !PromiseKept(p, ds, columns, rows)
  {
    var request, p := CornerRequest(columns, rows), Corner(columns, rows);
    assert p[..1] == [p[0]] && p[..1][..0] == [];
    assert UsedRows(p[..1]) == 1;
    ByIdFinds(request.tiles, 0);
    ByIdFinds(request.tiles, 1);
    assert Overlaps(Growth(p[1], Left), p[0]);
    assert !Covers(p[0], 0, 1) && !Covers(p[1], 0, 1);
    assert Hole(p, columns, rows, 0, 1) && Touches(p[1], Left, 0, 1);
  }

  lemma CornerFirst(columns: int, rows: int)
    requires columns >= 2 && rows >= 2
    ensures var request := CornerRequest(columns, rows);
            IsDecision(request.tiles[0], [], GridOf(request), Place(Tile("t", 0, 0, 1, 1, Full)))
  {
    OnlyFit(CornerRequest(columns, rows).tiles[0], [], GridOf(CornerRequest(columns, rows)), 0, 0);
  }

  lemma CornerSecond(columns: int, rows: int)
    requires columns >= 2 && rows >= 2
    ensures var request := CornerRequest(columns, rows);
            IsDecision(request.tiles[1], [Tile("t", 0, 0, 1, 1, Full)], GridOf(request),
                       Place(Tile("w", 1, 0, columns - 1, rows, Full)))
  {
    var request := CornerRequest(columns, rows);
    var d, placed := request.tiles[1], [Tile("t", 0, 0, 1, 1, Full)];
    var v := d.variants[0];
    assert Overlaps(TileAt("w", v, 0, 0), placed[0]);
    OnlyFit(d, placed, GridOf(request), 1, 0);
  }

  /** Four tiles around the border, each stopped by the next. */
  function PinwheelRequest(columns: int, rows: int): Request {
    Request(columns, rows,
            [Plain("a", columns - 1, 1), Plain("b", 1, rows - 1), Plain("d", 1, rows - 1), Plain("c", columns - 1, 1)],
            None, None)
  }

  function Pinwheel(columns: int, rows: int): seq<Tile> {
    [Tile("a", 0, 0, columns - 1, 1, Full), Tile("b", columns - 1, 0, 1, rows - 1, Full),
     Tile("d", 0, 1, 1, rows - 1, Full), Tile("c", 1, rows - 1, columns - 1, 1, Full)]
  }

  lemma PinwheelPlaced(columns: int, rows: int, k: nat)
    requires columns >= 3 && rows >= 3 && k < 4
    ensures IsDecision(PinwheelRequest(columns, rows).tiles[k], Pinwheel(columns, rows)[..k],
                       GridOf(PinwheelRequest(columns, rows)), Place(Pinwheel(columns, rows)[k]))
  {
    var request, p := PinwheelRequest(columns, rows), Pinwheel(columns, rows);
    var d, placed, c := request.tiles[k], p[..k], p[k];
    var v := d.variants[0];
    assert forall i :: 0 <= i < k ==> placed[i] == p[i];
    forall x, y | Position(v, GridOf(request), x, y) && (y < c.y || (y == c.y && x < c.x))
      ensures !Free(d.id, v, placed, x, y)
    {
      var candidate := TileAt(d.id, v, x, y);
      var i := if y == 0 && x < columns - 1 then 0 else if x == 0 then 2 else 1;
      assert placed[i].id != d.id && Overlaps(candidate, placed[i]);
    }
    OnlyFit(d, placed, GridOf(request), c.x, c.y);
  }

  lemma PinwheelValid(columns: int, rows: int)
    requires columns >= 3 && rows >= 3
    ensures ValidRequest(PinwheelRequest(columns, rows))
    ensures Ordered(PinwheelRequest(columns, rows)) == PinwheelRequest(columns, rows).tiles
  {
    LettersAreNotBlank();
    EqualPrioritiesKeepOrder(PinwheelRequest(columns, rows));
  }

  lemma PinwheelRows(columns: int, rows: int)
    requires columns >= 3 && rows >= 3
    ensures UsedRows(Pinwheel(columns, rows)) == rows
  {
    var p := Pinwheel(columns, rows);
    UsedRowsIsMaximum(p);
    assert p[3].y + p[3].rows == rows;
  }

  /** Every tile is stopped by its neighbour around the wheel, so the centre stays empty. */
  lemma PinwheelQuiet(columns: int, rows: int)
    requires columns >= 3 && rows >= 3
    ensures var ds, p := ById(PinwheelRequest(columns, rows).tiles), Pinwheel(columns, rows);
            && NoStretchLeft(p, ds, columns, rows) && GapsClosed(p, ds, columns, rows)
            && !NoHole(p, columns, rows)
  {
    var request, p := PinwheelRequest(columns, rows), Pinwheel(columns, rows);
    var ds := ById(request.tiles);
    forall i | 0 <= i < 4 ensures p[i].id in ds && ds[p[i].id] == request.tiles[i] {
      ByIdFinds(request.tiles, i);
    }
    forall i, d | 0 <= i < 4 ensures !Fits(Growth(p[i], d), p, columns, rows) {
      PinwheelBlocked(columns, rows, i, d);
    }
    assert Hole(p, columns, rows, 1, 1);
  }

  lemma PinwheelBlocked(columns: int, rows: int, i: nat, d: Direction)
    requires columns >= 3 && rows >= 3 && i < 4
    ensures !Fits(Growth(Pinwheel(columns, rows)[i], d), Pinwheel(columns, rows), columns, rows)
  {
    var p := Pinwheel(columns, rows);
    var g := Growth(p[i], d);
    if Inside(g, columns, rows) {
      var k := match i
        case 0 => if d.Right? then 1 else 2
        case 1 => if d.Down? then 3 else 0
        case 2 => if d.Up? then 0 else 3
        case _ => if d.Left? then 2 else 1;
      assert p[k].id != p[i].id && Overlaps(g, p[k]);
    }
  }

  lemma PinwheelLeavesHole(columns: int, rows: int) returns (layout: Layout)
    requires columns >= 3 && rows >= 3
    ensures var request := PinwheelRequest(columns, rows);
            && ValidRequest(request) && IsLayout(request, Ok(layout)) && Uncapped(request)
            && !NoHole(layout.placed, columns, layout.usedRows)
  {
    var request, p := PinwheelRequest(columns, rows), Pinwheel(columns, rows);
    PinwheelValid(columns, rows);
    PinwheelQuiet(columns, rows);
    PinwheelRows(columns, rows);
    forall k | 0 <= k < 4 ensures IsDecision(request.tiles[k], p[..k], GridOf(request), Place(p[k])) {
      PinwheelPlaced(columns, rows, k);
    }
    assert Uncapped(request);
    assert |p| == |request.tiles| == 4;
    hide PinwheelRequest, Pinwheel, IsDecision, NoStretchLeft, GapsClosed, IsLayout, NoHole, Uncapped, Ordered;
    StaysAsPlaced(request, p);
    layout := Layout(p, [], [], UsedRows(p));
  }

  // ------------------------------------------------------------------ the theorems

  ghost predicate Uncapped(request: Request) {
    forall i :: 0 <= i < |request.tiles| ==>
      request.tiles[i].maximumColumns.None? && request.tiles[i].maximumRows.None?
  }

  lemma {:induction false} UncappedLookup(tiles: seq<Descriptor>)
    requires forall i :: 0 <= i < |tiles| ==> tiles[i].maximumColumns.None? && tiles[i].maximumRows.None?
    ensures forall id, d :: Cap(ById(tiles), id, d).None?
  {
    if tiles != [] {
      UncappedLookup(tiles[..|tiles| - 1]);
      forall id, d ensures Cap(ById(tiles), id, d).None? {
        assert Cap(ById(tiles[..|tiles| - 1]), id, d).None?;
      }
    }
  }

  lemma UncappedClosed(p: seq<Tile>, ds: map<string, Descriptor>, columns: int, rows: int)
    requires GapsClosed(p, ds, columns, rows)
    requires forall id, d :: Cap(ds, id, d).None?
    ensures GapsClosed(p, map[], columns, rows)
  {
    forall x, y, m | Hole(p, columns, rows, x, y) ensures !IsMove(m, p, x, y, map[], columns, rows) {
      assert !IsMove(m, p, x, y, ds, columns, rows);
      assert m.index < |p| ==> Cap(ds, p[m.index].id, m.direction).None?;
    }
  }

  ghost predicate AnswersOn(request: Request, layout: Layout, columns: int, rows: int) {
    && ValidRequest(request) && request.columns == columns && request.maximumRows == rows
    && IsLayout(request, Ok(layout))
  }

  /** The documented promise holds for every request on a grid exactly when the grid is a single line. */
  lemma PromiseExact(columns: int, rows: int)
    requires columns >= 1 && rows >= 1
    ensures (forall request, layout :: AnswersOn(request, layout, columns, rows) ==>
               PromiseKept(layout.placed, ById(request.tiles), columns, layout.usedRows))
            <==> columns == 1 || rows == 1
  {
    if columns == 1 || rows == 1 {
      forall request, layout | AnswersOn(request, layout, columns, rows)
        ensures PromiseKept(layout.placed, ById(request.tiles), columns, layout.usedRows)
      {
        LayoutSound(request, layout);
        LineKeepsPromise(layout.placed, ById(request.tiles), columns, layout.usedRows);
      }
    } else {
      var layout := CornerBreaksPromise(columns, rows);
      assert AnswersOn(CornerRequest(columns, rows), layout, columns, rows);
    }
  }

  /** Without declared maxima, every request on a grid is answered hole-free exactly when one side is at most two. */
  lemma HoleFreeExact(columns: int, rows: int)
    requires columns >= 1 && rows >= 1
    ensures (forall request, layout :: AnswersOn(request, layout, columns, rows) && Uncapped(request) ==>
               NoHole(layout.placed, columns, layout.usedRows))
            <==> columns <= 2 || rows <= 2
  {
    if columns <= 2 || rows <= 2 {
      forall request, layout | AnswersOn(request, layout, columns, rows) && Uncapped(request)
        ensures NoHole(layout.placed, columns, layout.usedRows)
      {
        LayoutSound(request, layout);
        UncappedLookup(request.tiles);
        UncappedClosed(layout.placed, ById(request.tiles), columns, layout.usedRows);
        NarrowFull(layout.placed, columns, layout.usedRows);
      }
    } else {
      var layout := PinwheelLeavesHole(columns, rows);
      assert AnswersOn(PinwheelRequest(columns, rows), layout, columns, rows);
    }
  }
}
