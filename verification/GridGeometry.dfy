/**
 Rectangles on the layout grid: overlap, fit, one-step growth, and the two facts
 every pass of the resolver relies on: a legal growth keeps the tiles in bounds
 and pairwise disjoint, and it strictly shrinks the set of empty cells.
 */
module GridGeometry {
  import opened Results

  datatype Presentation = Full | Compact | Minimal

  datatype Variant = Variant(columns: int, rows: int, presentation: Presentation)

  /** A tile as a screen declares it; a `None` maximum is an undeclared one. */
  datatype Descriptor = Descriptor(
    id: string,
    priority: real,
    variants: seq<Variant>,
    maximumColumns: Option<int>,
    maximumRows: Option<int>,
    canStretchHorizontally: bool,
    canStretchVertically: bool,
    relocationRoute: Option<string>,
    hideWhenOverflow: bool)

  datatype Tile = Tile(id: string, x: int, y: int, columns: int, rows: int, presentation: Presentation)

  datatype Direction = Right | Down | Left | Up

  predicate Horizontal(d: Direction) {
    d.Right? || d.Left?
  }

  predicate Overlaps(a: Tile, b: Tile) {
    && a.x < b.x + b.columns && b.x < a.x + a.columns
    && a.y < b.y + b.rows && b.y < a.y + a.rows
  }

  predicate OverlapsAny(candidate: Tile, placed: seq<Tile>) {
    exists k :: 0 <= k < |placed| && placed[k].id != candidate.id && Overlaps(candidate, placed[k])
  }

  predicate Inside(t: Tile, columns: int, rows: int) {
    0 <= t.x && 0 <= t.y && t.x + t.columns <= columns && t.y + t.rows <= rows
  }

  predicate Fits(candidate: Tile, placed: seq<Tile>, columns: int, rows: int) {
    Inside(candidate, columns, rows) && !OverlapsAny(candidate, placed)
  }

  predicate Covers(t: Tile, x: int, y: int) {
    t.x <= x < t.x + t.columns && t.y <= y < t.y + t.rows
  }

  predicate Covered(placed: seq<Tile>, x: int, y: int) {
    exists k :: 0 <= k < |placed| && Covers(placed[k], x, y)
  }

  function Growth(t: Tile, d: Direction): Tile {
    match d
    case Right => t.(columns := t.columns + 1)
    case Down => t.(rows := t.rows + 1)
    case Left => t.(x := t.x - 1, columns := t.columns + 1)
    case Up => t.(y := t.y - 1, rows := t.rows + 1)
  }

  /** The declared cap a growth in direction `d` must respect, if any. */
  function Cap(descriptors: map<string, Descriptor>, id: string, d: Direction): Option<int> {
    if id !in descriptors then None
    else if Horizontal(d) then descriptors[id].maximumColumns
    else descriptors[id].maximumRows
  }

  function Extent(t: Tile, d: Direction): int {
    if Horizontal(d) then t.columns else t.rows
  }

  predicate UnderCap(t: Tile, d: Direction, descriptors: map<string, Descriptor>) {
    var cap := Cap(descriptors, t.id, d);
    cap.None? || Extent(t, d) + 1 <= cap.value
  }

  /** Whether `t` may take one step in direction `d`, and would thereby cover the cell. */
  predicate CanGrow(t: Tile, d: Direction, x: int, y: int, placed: seq<Tile>,
                    descriptors: map<string, Descriptor>, columns: int, rows: int)
  {
    && UnderCap(t, d, descriptors)
    && Fits(Growth(t, d), placed, columns, rows)
    && Covers(Growth(t, d), x, y)
  }

  ghost predicate UniqueIds(placed: seq<Tile>) {
    forall i, j :: 0 <= i < j < |placed| ==> placed[i].id != placed[j].id
  }

  ghost predicate Disjoint(placed: seq<Tile>) {
    forall i, j :: 0 <= i < j < |placed| ==> !Overlaps(placed[i], placed[j])
  }

  ghost predicate Proper(t: Tile, columns: int, rows: int) {
    t.columns >= 1 && t.rows >= 1 && Inside(t, columns, rows)
  }

  /** The safety property of a layout: proper tiles, in bounds, pairwise disjoint. */
  ghost predicate Valid(placed: seq<Tile>, columns: int, rows: int) {
    && UniqueIds(placed)
    && Disjoint(placed)
    && forall i :: 0 <= i < |placed| ==> Proper(placed[i], columns, rows)
  }

  ghost function EmptySet(placed: seq<Tile>, columns: int, rows: int): set<(int, int)> {
    set x, y | 0 <= x < columns && 0 <= y < rows && !Covered(placed, x, y) :: (x, y)
  }

  /** `b` is `a` grown on the spot: same identity, a rectangle that contains `a`'s. */
  ghost predicate Expands(a: Tile, b: Tile) {
    && b.id == a.id && b.presentation == a.presentation
    && b.x <= a.x && b.y <= a.y
    && a.x + a.columns <= b.x + b.columns
    && a.y + a.rows <= b.y + b.rows
  }

  ghost predicate Extends(p: seq<Tile>, q: seq<Tile>) {
    |p| == |q| && forall i :: 0 <= i < |p| ==> Expands(p[i], q[i])
  }

  /** No tile was pushed past a declared cap by growing from `p` to `q`. */
  ghost predicate RespectsCaps(p: seq<Tile>, q: seq<Tile>, descriptors: map<string, Descriptor>) {
    && |p| == |q|
    && forall i, d :: 0 <= i < |p| && Extent(p[i], d) < Extent(q[i], d) ==>
         var cap := Cap(descriptors, p[i].id, d);
         cap.None? || Extent(q[i], d) <= cap.value
  }

  /** Growing one tile into room it fits keeps the layout valid and covers at least one new cell. */
  lemma GrowthStep(p: seq<Tile>, i: nat, d: Direction, columns: int, rows: int)
    requires Valid(p, columns, rows) && i < |p|
    requires Fits(Growth(p[i], d), p, columns, rows)
    ensures Valid(p[i := Growth(p[i], d)], columns, rows)
    ensures Extends(p, p[i := Growth(p[i], d)])
    ensures EmptySet(p[i := Growth(p[i], d)], columns, rows) < EmptySet(p, columns, rows)
  {
    var g := Growth(p[i], d);
    var q := p[i := g];
    forall k | 0 <= k < |p| && k != i ensures !Overlaps(g, p[k]) && !Overlaps(p[k], g) {
      assert p[k].id != g.id;
    }
    var x, y := if d.Right? then g.x + g.columns - 1 else g.x, if d.Down? then g.y + g.rows - 1 else g.y;
    NewCellWasEmpty(p, i, d, columns, rows, x, y);
    assert Covers(q[i], x, y);
    assert (x, y) !in EmptySet(q, columns, rows);
    forall a, b | !Covered(q, a, b) ensures !Covered(p, a, b) {
      if Covered(p, a, b) {
        var k :| 0 <= k < |p| && Covers(p[k], a, b);
        assert Covers(q[k], a, b);
      }
    }
  }

  lemma NewCellWasEmpty(p: seq<Tile>, i: nat, d: Direction, columns: int, rows: int, x: int, y: int)
    requires Valid(p, columns, rows) && i < |p|
    requires Fits(Growth(p[i], d), p, columns, rows)
    requires Covers(Growth(p[i], d), x, y) && !Covers(p[i], x, y)
    ensures (x, y) in EmptySet(p, columns, rows)
  {
  }

  lemma ExtendsTransitive(p: seq<Tile>, q: seq<Tile>, r: seq<Tile>, descriptors: map<string, Descriptor>)
    requires Extends(p, q) && Extends(q, r)
    ensures Extends(p, r)
    ensures RespectsCaps(p, q, descriptors) && RespectsCaps(q, r, descriptors) ==> RespectsCaps(p, r, descriptors)
  {
  }

  /** The lowest occupied edge, which is the number of rows in use. */
  function UsedRows(placed: seq<Tile>): int {
    if placed == [] then 0
    else
      var rest := UsedRows(placed[..|placed| - 1]);
      var bottom := placed[|placed| - 1].y + placed[|placed| - 1].rows;
      if rest < bottom then bottom else rest
  }

  ghost predicate IsMaximumBottom(placed: seq<Tile>, m: int) {
    && 0 <= m
    && (forall i :: 0 <= i < |placed| ==> placed[i].y + placed[i].rows <= m)
    && (m == 0 || exists i :: 0 <= i < |placed| && placed[i].y + placed[i].rows == m)
  }

  lemma {:induction false} UsedRowsIsMaximum(placed: seq<Tile>)
    ensures IsMaximumBottom(placed, UsedRows(placed))
  {
    if placed != [] {
      var front := placed[..|placed| - 1];
      UsedRowsIsMaximum(front);
      forall i | 0 <= i < |placed| ensures placed[i].y + placed[i].rows <= UsedRows(placed) {
        if i < |front| {
          assert front[i] == placed[i];
        }
      }
      var m := UsedRows(placed);
      if UsedRows(front) == m && m != 0 {
        var i :| 0 <= i < |front| && front[i].y + front[i].rows == m;
        assert placed[i].y + placed[i].rows == m;
      } else {
        assert m == 0 || placed[|placed| - 1].y + placed[|placed| - 1].rows == m;
      }
    }
  }
}
