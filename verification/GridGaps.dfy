/**
 Gap closing: while some empty cell can be covered by growing one tile one step,
 within its cap and the rows in use, the first such cell (row by row) is covered
 by the first willing neighbour, tiles that opted in coming before the others.
 */
module GridGaps {
  import opened Results
  import opened GridGeometry
  import opened GridGrowth

  datatype Move = Move(index: nat, direction: Direction)

  const DIRECTIONS: seq<Direction> := [Right, Down, Left, Up]

  // ------------------------------------------------------------ the empty cells

  function EmptyInRow(p: seq<Tile>, y: int, columns: nat): seq<(int, int)> {
    if columns == 0 then []
    else EmptyInRow(p, y, columns - 1) + (if Covered(p, columns - 1, y) then [] else [(columns - 1, y)])
  }

  /** The empty cells of the first `rows` rows, row by row from the left. */
  function EmptyList(p: seq<Tile>, columns: nat, rows: nat): seq<(int, int)> {
    if rows == 0 then []
    else EmptyList(p, columns, rows - 1) + EmptyInRow(p, rows - 1, columns)
  }

  lemma {:induction false} EmptyInRowExact(p: seq<Tile>, y: int, columns: nat, cell: (int, int))
    ensures cell in EmptyInRow(p, y, columns) <==> 0 <= cell.0 < columns && cell.1 == y && !Covered(p, cell.0, y)
  {
    if columns > 0 {
      EmptyInRowExact(p, y, columns - 1, cell);
    }
  }

  lemma {:induction false} EmptyListExact(p: seq<Tile>, columns: nat, rows: nat, cell: (int, int))
    ensures cell in EmptyList(p, columns, rows) <==>
            0 <= cell.0 < columns && 0 <= cell.1 < rows && !Covered(p, cell.0, cell.1)
  {
    hide Covered, EmptyInRow;
    if rows > 0 {
      EmptyListExact(p, columns, rows - 1, cell);
      EmptyInRowExact(p, rows - 1, columns, cell);
      var above, row := EmptyList(p, columns, rows - 1), EmptyInRow(p, rows - 1, columns);
      assert EmptyList(p, columns, rows) == above + row;
      hide EmptyList;
      assert cell in above + row <==> cell in above || cell in row;
    }
  }

  method EmptyCells(p: seq<Tile>, columns: nat, rows: nat) returns (empty: seq<(int, int)>)
    ensures empty == EmptyList(p, columns, rows)
  {
    var occupied: set<(int, int)> := {};
    for i := 0 to |p|
      invariant forall x, y :: (x, y) in occupied <==> Covered(p[..i], x, y)
    {
      occupied := MarkTile(occupied, p[i]);
      assert p[..i + 1] == p[..i] + [p[i]];
      CoveredAppend(p[..i], p[i]);
    }
    assert p[..|p|] == p;
    empty := [];
    for y := 0 to rows
      invariant empty == EmptyList(p, columns, y)
    {
      ghost var above := empty;
      for x := 0 to columns
        invariant empty == above + EmptyInRow(p, y, x)
      {
        if (x, y) !in occupied { empty := empty + [(x, y)]; }
      }
    }
  }

  lemma CoveredAppend(p: seq<Tile>, t: Tile)
    ensures forall x, y :: Covered(p + [t], x, y) <==> Covered(p, x, y) || Covers(t, x, y)
  {
    forall x, y ensures Covered(p + [t], x, y) <==> Covered(p, x, y) || Covers(t, x, y) {
      if Covered(p, x, y) {
        var k :| 0 <= k < |p| && Covers(p[k], x, y);
        assert Covers((p + [t])[k], x, y);
      } else if Covers(t, x, y) {
        assert Covers((p + [t])[|p|], x, y);
      }
    }
  }

  method MarkTile(before: set<(int, int)>, t: Tile) returns (occupied: set<(int, int)>)
    ensures forall x, y :: (x, y) in occupied <==> (x, y) in before || Covers(t, x, y)
  {
    occupied := before;
    var y := t.y;
    while y < t.y + t.rows
      invariant t.rows > 0 ==> t.y <= y <= t.y + t.rows
      invariant forall a, b :: (a, b) in occupied <==> (a, b) in before || (Covers(t, a, b) && b < y)
    {
      var x := t.x;
      ghost var above := occupied;
      while x < t.x + t.columns
        invariant t.columns > 0 ==> t.x <= x <= t.x + t.columns
        invariant forall a, b :: (a, b) in occupied <==> (a, b) in above || (Covers(t, a, b) && b == y && a < x)
      {
        occupied := occupied + {(x, y)};
        x := x + 1;
      }
      y := y + 1;
    }
  }

  // ------------------------------------------------------------ choosing a move

  predicate Prefers(m: Move, p: seq<Tile>, ds: map<string, Descriptor>)
    requires m.index < |p|
  {
    var id := p[m.index].id;
    id in ds && (if Horizontal(m.direction) then ds[id].canStretchHorizontally else ds[id].canStretchVertically)
  }

  /** The directions, among the first `n`, in which tile `i` can grow over the cell. */
  function TileMoves(p: seq<Tile>, i: nat, n: nat, x: int, y: int, ds: map<string, Descriptor>,
                     columns: int, rows: int): seq<Move>
    requires i < |p| && n <= 4
  {
    if n == 0 then []
    else
      TileMoves(p, i, n - 1, x, y, ds, columns, rows)
      + (if CanGrow(p[i], DIRECTIONS[n - 1], x, y, p, ds, columns, rows) then [Move(i, DIRECTIONS[n - 1])] else [])
  }

  /** Every move of the first `k` tiles that covers the cell, in tile order. */
  function Candidates(p: seq<Tile>, k: nat, x: int, y: int, ds: map<string, Descriptor>,
                      columns: int, rows: int): seq<Move>
    requires k <= |p|
  {
    if k == 0 then []
    else Candidates(p, k - 1, x, y, ds, columns, rows) + TileMoves(p, k - 1, 4, x, y, ds, columns, rows)
  }

  ghost predicate IsMove(m: Move, p: seq<Tile>, x: int, y: int, ds: map<string, Descriptor>, columns: int, rows: int) {
    m.index < |p| && CanGrow(p[m.index], m.direction, x, y, p, ds, columns, rows)
  }

  lemma {:induction false} CandidatesExact(p: seq<Tile>, k: nat, x: int, y: int, ds: map<string, Descriptor>,
                                           columns: int, rows: int, m: Move)
    requires k <= |p|
    ensures m in Candidates(p, k, x, y, ds, columns, rows) <==> m.index < k && IsMove(m, p, x, y, ds, columns, rows)
  {
    if k > 0 {
      CandidatesExact(p, k - 1, x, y, ds, columns, rows, m);
      TileMovesExact(p, k - 1, 4, x, y, ds, columns, rows, m);
      var n := match m.direction case Right => 0 case Down => 1 case Left => 2 case Up => 3;
      assert DIRECTIONS[n] == m.direction;
    }
  }

  lemma {:induction false} TileMovesExact(p: seq<Tile>, i: nat, n: nat, x: int, y: int, ds: map<string, Descriptor>,
                                          columns: int, rows: int, m: Move)
    requires i < |p| && n <= 4
    ensures m in TileMoves(p, i, n, x, y, ds, columns, rows) <==>
            m.index == i && m.direction in DIRECTIONS[..n] && CanGrow(p[i], m.direction, x, y, p, ds, columns, rows)
  {
    if n > 0 {
      TileMovesExact(p, i, n - 1, x, y, ds, columns, rows, m);
      assert DIRECTIONS[..n] == DIRECTIONS[..n - 1] + [DIRECTIONS[n - 1]];
    }
  }

  ghost predicate AllIndexed(moves: seq<Move>, p: seq<Tile>) {
    forall j :: 0 <= j < |moves| ==> moves[j].index < |p|
  }

  /** The position of the first move whose tile opted in, or the number of moves. */
  function FirstPreferred(moves: seq<Move>, p: seq<Tile>, ds: map<string, Descriptor>): (j: nat)
    requires AllIndexed(moves, p)
    ensures j <= |moves|
    ensures j < |moves| ==> Prefers(moves[j], p, ds)
    ensures forall i :: 0 <= i < j ==> !Prefers(moves[i], p, ds)
  {
    if moves == [] || Prefers(moves[0], p, ds) then 0
    else 1 + FirstPreferred(moves[1..], p, ds)
  }

  /** The candidate chosen: the first that opted in, failing that the first of all. */
  function Choose(moves: seq<Move>, p: seq<Tile>, ds: map<string, Descriptor>): (r: Option<Move>)
    requires AllIndexed(moves, p)
    ensures r.None? <==> moves == []
    ensures r.Some? ==> r.value in moves
    ensures r.Some? ==> forall i :: 0 <= i < |moves| && Prefers(moves[i], p, ds) ==> Prefers(r.value, p, ds)
  {
    var j := FirstPreferred(moves, p, ds);
    if j < |moves| then Some(moves[j]) else if moves == [] then None else Some(moves[0])
  }

  lemma CandidatesIndexed(p: seq<Tile>, x: int, y: int, ds: map<string, Descriptor>, columns: int, rows: int)
    ensures AllIndexed(Candidates(p, |p|, x, y, ds, columns, rows), p)
  {
    var moves := Candidates(p, |p|, x, y, ds, columns, rows);
    forall j | 0 <= j < |moves| ensures moves[j].index < |p| {
      CandidatesExact(p, |p|, x, y, ds, columns, rows, moves[j]);
      assert moves[j] in moves;
    }
  }

  /** The move the pass makes to cover one empty cell, if any tile can. */
  function GrowthFor(p: seq<Tile>, x: int, y: int, ds: map<string, Descriptor>, columns: int, rows: int): Option<Move> {
    CandidatesIndexed(p, x, y, ds, columns, rows);
    Choose(Candidates(p, |p|, x, y, ds, columns, rows), p, ds)
  }

  lemma GrowthForExact(p: seq<Tile>, x: int, y: int, ds: map<string, Descriptor>, columns: int, rows: int)
    ensures match GrowthFor(p, x, y, ds, columns, rows)
            case None => forall m :: !IsMove(m, p, x, y, ds, columns, rows)
            case Some(m) => IsMove(m, p, x, y, ds, columns, rows)
  {
    var moves := Candidates(p, |p|, x, y, ds, columns, rows);
    CandidatesIndexed(p, x, y, ds, columns, rows);
    forall m ensures m in moves <==> IsMove(m, p, x, y, ds, columns, rows) {
      CandidatesExact(p, |p|, x, y, ds, columns, rows, m);
    }
  }

  method FindGrowth(p: seq<Tile>, x: int, y: int, ds: map<string, Descriptor>, columns: int, rows: int)
    returns (r: Option<Move>)
    ensures r == GrowthFor(p, x, y, ds, columns, rows)
  {
    var candidates: seq<Move> := [];
    for i := 0 to |p|
      invariant candidates == Candidates(p, i, x, y, ds, columns, rows)
    {
      ghost var earlier := candidates;
      for n := 0 to 4
        invariant candidates == earlier + TileMoves(p, i, n, x, y, ds, columns, rows)
      {
        if CanGrow(p[i], DIRECTIONS[n], x, y, p, ds, columns, rows) {
          candidates := candidates + [Move(i, DIRECTIONS[n])];
        }
      }
    }
    CandidatesIndexed(p, x, y, ds, columns, rows);
    for j := 0 to |candidates|
      invariant forall i :: 0 <= i < j ==> !Prefers(candidates[i], p, ds)
    {
      if Prefers(candidates[j], p, ds) { return Some(candidates[j]); }
    }
    r := if candidates == [] then None else Some(candidates[0]);
  }

  // ------------------------------------------------------------ closing the gaps

  /** The move for the first cell of the list that has one. */
  function FirstMove(p: seq<Tile>, cells: seq<(int, int)>, ds: map<string, Descriptor>,
                     columns: int, rows: int): Option<Move>
  {
    if cells == [] then None
    else
      var m := GrowthFor(p, cells[0].0, cells[0].1, ds, columns, rows);
      if m.Some? then m else FirstMove(p, cells[1..], ds, columns, rows)
  }

  lemma {:induction false} FirstMoveExact(p: seq<Tile>, cells: seq<(int, int)>, ds: map<string, Descriptor>,
                                          columns: int, rows: int)
    ensures match FirstMove(p, cells, ds, columns, rows)
            case None => forall c, m :: c in cells ==> !IsMove(m, p, c.0, c.1, ds, columns, rows)
            case Some(m) => exists c :: c in cells && IsMove(m, p, c.0, c.1, ds, columns, rows)
  {
    if cells != [] {
      GrowthForExact(p, cells[0].0, cells[0].1, ds, columns, rows);
      FirstMoveExact(p, cells[1..], ds, columns, rows);
    }
  }

  /** No tile, by one step in any direction within its cap and the rows in use, can cover an empty cell. */
  ghost predicate GapsClosed(p: seq<Tile>, ds: map<string, Descriptor>, columns: int, rows: int) {
    forall x, y, m :: 0 <= x < columns && 0 <= y < rows && !Covered(p, x, y) ==>
      !IsMove(m, p, x, y, ds, columns, rows)
  }

  function Applied(p: seq<Tile>, m: Move): seq<Tile>
    requires m.index < |p|
  {
    p[m.index := Growth(p[m.index], m.direction)]
  }

  lemma NextMove(p: seq<Tile>, ds: map<string, Descriptor>, columns: nat, rows: nat)
    requires Valid(p, columns, rows)
    ensures match FirstMove(p, EmptyList(p, columns, rows), ds, columns, rows)
            case None => GapsClosed(p, ds, columns, rows)
            case Some(m) =>
              && m.index < |p|
              && UnderCap(p[m.index], m.direction, ds)
              && Fits(Growth(p[m.index], m.direction), p, columns, rows)
  {
    var cells := EmptyList(p, columns, rows);
    FirstMoveExact(p, cells, ds, columns, rows);
    if FirstMove(p, cells, ds, columns, rows).None? {
      forall x, y, m | 0 <= x < columns && 0 <= y < rows && !Covered(p, x, y)
        ensures !IsMove(m, p, x, y, ds, columns, rows)
      {
        EmptyListExact(p, columns, rows, (x, y));
      }
    }
  }

  lemma MoveStep(p: seq<Tile>, m: Move, ds: map<string, Descriptor>, columns: int, rows: int)
    requires Valid(p, columns, rows) && m.index < |p|
    requires UnderCap(p[m.index], m.direction, ds) && Fits(Growth(p[m.index], m.direction), p, columns, rows)
    ensures Valid(Applied(p, m), columns, rows) && Extends(p, Applied(p, m))
    ensures RespectsCaps(p, Applied(p, m), ds)
    ensures EmptySet(Applied(p, m), columns, rows) < EmptySet(p, columns, rows)
  {
    GrowthStep(p, m.index, m.direction, columns, rows);
  }

  /** The layout after gap closing; each move covers an empty cell, so the moves run out. */
  ghost function Closed(p: seq<Tile>, ds: map<string, Descriptor>, columns: nat, rows: nat): seq<Tile>
    requires Valid(p, columns, rows)
    decreases EmptySet(p, columns, rows)
  {
    NextMove(p, ds, columns, rows);
    match FirstMove(p, EmptyList(p, columns, rows), ds, columns, rows)
    case None => p
    case Some(m) =>
      MoveStep(p, m, ds, columns, rows);
      Closed(Applied(p, m), ds, columns, rows)
  }

  lemma {:induction false} ClosedSound(p: seq<Tile>, ds: map<string, Descriptor>, columns: nat, rows: nat)
    requires Valid(p, columns, rows)
    ensures var q := Closed(p, ds, columns, rows);
            && Valid(q, columns, rows) && Extends(p, q) && RespectsCaps(p, q, ds)
            && GapsClosed(q, ds, columns, rows)
    decreases EmptySet(p, columns, rows)
  {
    NextMove(p, ds, columns, rows);
    var next := FirstMove(p, EmptyList(p, columns, rows), ds, columns, rows);
    if next.Some? {
      var q := Applied(p, next.value);
      MoveStep(p, next.value, ds, columns, rows);
      ClosedSound(q, ds, columns, rows);
      ExtendsTransitive(p, q, Closed(q, ds, columns, rows), ds);
    }
  }

  /** One growth cannot unblock a stretch: what blocked it stays in the way, or has grown. */
  lemma StretchSurvivesMove(p: seq<Tile>, m: Move, ds: map<string, Descriptor>,
                            columns: int, rows: int, maximumRows: int)
    requires Valid(p, columns, rows) && rows <= maximumRows && m.index < |p|
    requires UnderCap(p[m.index], m.direction, ds) && Fits(Growth(p[m.index], m.direction), p, columns, rows)
    requires NoStretchLeft(p, ds, columns, maximumRows)
    ensures NoStretchLeft(Applied(p, m), ds, columns, maximumRows)
  {
    var q := Applied(p, m);
    forall i | 0 <= i < |q|
      ensures !CanStretchRight(q[i], q, ds, columns, maximumRows) && !CanStretchDown(q[i], q, ds, columns, maximumRows)
    {
      if !Fits(Growth(p[i], Right), p, columns, maximumRows) {
        StretchStaysBlocked(p, m, i, Right, columns, rows, maximumRows);
      }
      if !Fits(Growth(p[i], Down), p, columns, maximumRows) {
        StretchStaysBlocked(p, m, i, Down, columns, rows, maximumRows);
      }
    }
  }

  lemma StretchStaysBlocked(p: seq<Tile>, m: Move, i: nat, d: Direction, columns: int, rows: int, maximumRows: int)
    requires Valid(p, columns, rows) && rows <= maximumRows && m.index < |p| && i < |p|
    requires Fits(Growth(p[m.index], m.direction), p, columns, rows)
    requires d == Right || d == Down
    requires !Fits(Growth(p[i], d), p, columns, maximumRows)
    ensures !Fits(Growth(Applied(p, m)[i], d), Applied(p, m), columns, maximumRows)
  {
    var q := Applied(p, m);
    if Inside(Growth(p[i], d), columns, maximumRows) {
      var k :| 0 <= k < |p| && p[k].id != p[i].id && Overlaps(Growth(p[i], d), p[k]);
      assert i == m.index ==> d != m.direction;
      assert Proper(p[i], columns, rows) && Proper(p[k], columns, rows);
      hide Valid;
      assert Overlaps(Growth(q[i], d), q[k]);
    }
  }

  lemma {:induction false} StretchSurvives(p: seq<Tile>, ds: map<string, Descriptor>,
                                           columns: nat, rows: nat, maximumRows: int)
    requires Valid(p, columns, rows) && rows <= maximumRows && NoStretchLeft(p, ds, columns, maximumRows)
    ensures NoStretchLeft(Closed(p, ds, columns, rows), ds, columns, maximumRows)
    decreases EmptySet(p, columns, rows)
  {
    NextMove(p, ds, columns, rows);
    var next := FirstMove(p, EmptyList(p, columns, rows), ds, columns, rows);
    if next.Some? {
      MoveStep(p, next.value, ds, columns, rows);
      StretchSurvivesMove(p, next.value, ds, columns, rows, maximumRows);
      StretchSurvives(Applied(p, next.value), ds, columns, rows, maximumRows);
    }
  }

  method CloseGaps(placed: array<Tile>, descriptors: seq<Descriptor>, columns: nat, rows: nat)
    requires Valid(placed[..], columns, rows)
    modifies placed
    ensures placed[..] == Closed(old(placed[..]), ById(descriptors), columns, rows)
  {
    var ds := ById(descriptors);
    ghost var goal := Closed(placed[..], ds, columns, rows);
    var closedOne := true;
    while closedOne
      invariant Valid(placed[..], columns, rows)
      invariant Closed(placed[..], ds, columns, rows) == goal
      invariant !closedOne ==> placed[..] == goal
      decreases EmptySet(placed[..], columns, rows), closedOne
    {
      ghost var p := placed[..];
      ghost var next := FirstMove(p, EmptyList(p, columns, rows), ds, columns, rows);
      NextMove(p, ds, columns, rows);
      if next.Some? {
        MoveStep(p, next.value, ds, columns, rows);
      }
      closedOne := CloseOneGap(placed, ds, columns, rows);
    }
  }

  /** Looks for the first empty cell some tile can cover, and covers it. */
  method CloseOneGap(placed: array<Tile>, ds: map<string, Descriptor>, columns: nat, rows: nat)
    returns (closedOne: bool)
    requires Valid(placed[..], columns, rows)
    modifies placed
    ensures var p := old(placed[..]);
            match FirstMove(p, EmptyList(p, columns, rows), ds, columns, rows)
            case None => !closedOne && placed[..] == p
            case Some(m) => closedOne && m.index < |p| && placed[..] == Applied(p, m)
  {
    hide Valid, FirstMove, GrowthFor;
    ghost var p := placed[..];
    NextMove(p, ds, columns, rows);
    var cells := EmptyCells(placed[..], columns, rows);
    for k := 0 to |cells|
      invariant placed[..] == p
      invariant FirstMove(p, cells[k..], ds, columns, rows) == FirstMove(p, cells, ds, columns, rows)
    {
      var growth := FindGrowth(placed[..], cells[k].0, cells[k].1, ds, columns, rows);
      FirstMoveStep(p, cells, k, ds, columns, rows);
      if growth.None? { continue; }
      placed[growth.value.index] := Growth(placed[growth.value.index], growth.value.direction);
      return true;
    }
    FirstMoveEnd(p, cells, ds, columns, rows);
    closedOne := false;
  }

  lemma FirstMoveStep(p: seq<Tile>, cells: seq<(int, int)>, k: nat, ds: map<string, Descriptor>,
                      columns: int, rows: int)
    requires k < |cells|
    ensures var m := GrowthFor(p, cells[k].0, cells[k].1, ds, columns, rows);
            FirstMove(p, cells[k..], ds, columns, rows)
            == if m.Some? then m else FirstMove(p, cells[k + 1..], ds, columns, rows)
  {
  }

  lemma FirstMoveEnd(p: seq<Tile>, cells: seq<(int, int)>, ds: map<string, Descriptor>, columns: int, rows: int)
    ensures FirstMove(p, cells[|cells|..], ds, columns, rows) == None
  {
  }
}
