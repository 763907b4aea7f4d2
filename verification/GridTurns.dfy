/**
 Whose turn it is: which step a sweep of stretching takes and which growth closes the
 next gap, in terms of cells and declarations. Where several growths compete these
 orders decide the layout.
 */
module GridTurns {
  import opened Results
  import opened GridGeometry
  import opened GridPlacement
  import opened GridGrowth
  import opened GridGaps
  import opened GridPolicies

  // ------------------------------------------------------------------------- stretching

  /** The cells one step right or down would add are inside the grid and empty. */
  ghost predicate RoomBeside(p: seq<Tile>, i: nat, d: Direction, columns: int, rows: int)
    requires i < |p|
  {
    && (d.Right? ==> p[i].x + p[i].columns < columns)
    && (d.Down? ==> p[i].y + p[i].rows < rows)
    && forall a, b :: Beside(p[i], d, a, b) ==> !Covered(p, a, b)
  }

  lemma RoomIsFit(p: seq<Tile>, i: nat, d: Direction, columns: int, rows: int)
    requires Valid(p, columns, rows) && i < |p| && (d.Right? || d.Down?)
    ensures Fits(Growth(p[i], d), p, columns, rows) <==> RoomBeside(p, i, d, columns, rows)
  {
    if !Fits(Growth(p[i], d), p, columns, rows) {
      BlockedByTile(p, columns, rows, i, d);
    } else {
      forall a, b | Beside(p[i], d, a, b) ensures !Covered(p, a, b) {
        StripFree(p, i, d, columns, rows, a, b);
      }
    }
  }

  lemma StripFree(p: seq<Tile>, i: nat, d: Direction, columns: int, rows: int, a: int, b: int)
    requires Valid(p, columns, rows) && i < |p| && (d.Right? || d.Down?)
    requires Fits(Growth(p[i], d), p, columns, rows) && Beside(p[i], d, a, b)
    ensures !Covered(p, a, b)
  {
    var g := Growth(p[i], d);
    assert Proper(p[i], columns, rows);
    if k :| 0 <= k < |p| && Covers(p[k], a, b) {
      assert k != i && Proper(p[k], columns, rows);
      OverlapIsSharedCell(g, p[k]);
    }
  }

  ghost predicate Stretches(p: seq<Tile>, i: nat, d: Direction, ds: map<string, Descriptor>, columns: int, rows: int)
    requires i < |p|
  {
    p[i].id in ds && WantsStretch(p[i], d, ds[p[i].id], columns, rows) && RoomBeside(p, i, d, columns, rows)
  }

  /** A tile's turn: one column to the right if it wants and has it, failing that one row down, failing that nothing. */
  ghost function DeclaredTurn(p: seq<Tile>, i: nat, ds: map<string, Descriptor>, columns: int, rows: int):
    (q: seq<Tile>)
    requires i < |p|
    ensures |q| == |p|
  {
    if Stretches(p, i, Right, ds, columns, rows) then p[i := p[i].(columns := p[i].columns + 1)]
    else if Stretches(p, i, Down, ds, columns, rows) then p[i := p[i].(rows := p[i].rows + 1)]
    else p
  }

  /** The list once the first `n` tiles have had their turn, each after the one before it. */
  ghost function TurnsTaken(p: seq<Tile>, n: nat, ds: map<string, Descriptor>, columns: int, rows: int):
    (q: seq<Tile>)
    requires n <= |p|
    ensures |q| == |p|
  {
    if n == 0 then p else DeclaredTurn(TurnsTaken(p, n - 1, ds, columns, rows), n - 1, ds, columns, rows)
  }

  lemma TurnByCells(p: seq<Tile>, i: nat, ds: map<string, Descriptor>, columns: int, rows: int)
    requires Valid(p, columns, rows) && i < |p|
    ensures StretchTurn(p, i, ds, columns, rows) == DeclaredTurn(p, i, ds, columns, rows)
  {
    RoomIsFit(p, i, Right, columns, rows);
    RoomIsFit(p, i, Down, columns, rows);
    hide Fits, RoomBeside, Valid;
  }

  lemma ValidTurn(p: seq<Tile>, i: nat, ds: map<string, Descriptor>, columns: int, rows: int)
    requires Valid(p, columns, rows) && i < |p|
    ensures Valid(StretchTurn(p, i, ds, columns, rows), columns, rows)
  {
    TurnStep(p, i, ds, columns, rows);
  }

  lemma SweepNext(p: seq<Tile>, i: nat, ds: map<string, Descriptor>, columns: int, rows: int)
    requires Valid(p, columns, rows) && i < |p|
    ensures var q := DeclaredTurn(p, i, ds, columns, rows);
            Valid(q, columns, rows) && Sweep(p, i, ds, columns, rows) == Sweep(q, i + 1, ds, columns, rows)
  {
    ValidTurn(p, i, ds, columns, rows);
    TurnByCells(p, i, ds, columns, rows);
    hide Valid, StretchTurn, DeclaredTurn;
  }

  lemma {:induction false} SweepContinues(p: seq<Tile>, n: nat, ds: map<string, Descriptor>, columns: int, rows: int)
    requires Valid(p, columns, rows) && n <= |p|
    ensures Valid(TurnsTaken(p, n, ds, columns, rows), columns, rows)
    ensures Sweep(TurnsTaken(p, n, ds, columns, rows), n, ds, columns, rows) == Sweep(p, 0, ds, columns, rows)
  {
    hide Valid, DeclaredTurn, Sweep;
    if n > 0 {
      SweepContinues(p, n - 1, ds, columns, rows);
      SweepNext(TurnsTaken(p, n - 1, ds, columns, rows), n - 1, ds, columns, rows);
    }
  }

  /** A sweep gives every tile one turn, first to last. */
  lemma SweepInTurn(p: seq<Tile>, ds: map<string, Descriptor>, columns: int, rows: int)
    requires Valid(p, columns, rows)
    ensures Sweep(p, 0, ds, columns, rows) == TurnsTaken(p, |p|, ds, columns, rows)
  {
    SweepContinues(p, |p|, ds, columns, rows);
  }

  // ----------------------------------------------------------------------- closing gaps

  function Turn(d: Direction): nat {
    match d
    case Right => 0
    case Down => 1
    case Left => 2
    case Up => 3
  }

  /** Tiles in their order; within one tile right, down, left, up. */
  ghost predicate Sooner(m: Move, n: Move) {
    m.index < n.index || (m.index == n.index && Turn(m.direction) < Turn(n.direction))
  }

  ghost predicate InTurn(moves: seq<Move>) {
    forall i, j :: 0 <= i < j < |moves| ==> Sooner(moves[i], moves[j])
  }

  lemma InTurnConcat(a: seq<Move>, b: seq<Move>)
    requires InTurn(a) && InTurn(b) && forall i, j :: 0 <= i < |a| && 0 <= j < |b| ==> Sooner(a[i], b[j])
    ensures InTurn(a + b)
  {
  }

  lemma OneInTurn(m: Move)
    ensures InTurn([]) && InTurn([m])
  {
  }

  lemma {:induction false} TileMovesInTurn(p: seq<Tile>, i: nat, n: nat, x: int, y: int, ds: map<string, Descriptor>,
                                           columns: int, rows: int)
    requires i < |p| && n <= 4
    ensures var moves := TileMoves(p, i, n, x, y, ds, columns, rows);
            InTurn(moves) && forall j :: 0 <= j < |moves| ==> moves[j].index == i && Turn(moves[j].direction) < n
  {
    if n > 0 {
      hide CanGrow, InTurn;
      TileMovesInTurn(p, i, n - 1, x, y, ds, columns, rows);
      assert Turn(DIRECTIONS[n - 1]) == n - 1;
      assert InTurn([Move(i, DIRECTIONS[n - 1])]) by {
        OneInTurn(Move(i, DIRECTIONS[n - 1]));
      }
      InTurnConcat(TileMoves(p, i, n - 1, x, y, ds, columns, rows), [Move(i, DIRECTIONS[n - 1])]);
    }
  }

  lemma {:induction false} CandidatesInTurn(p: seq<Tile>, k: nat, x: int, y: int, ds: map<string, Descriptor>,
                                            columns: int, rows: int)
    requires k <= |p|
    ensures var moves := Candidates(p, k, x, y, ds, columns, rows);
            InTurn(moves) && forall j :: 0 <= j < |moves| ==> moves[j].index < k
  {
    if k > 0 {
      CandidatesInTurn(p, k - 1, x, y, ds, columns, rows);
      TileMovesInTurn(p, k - 1, 4, x, y, ds, columns, rows);
      hide InTurn, TileMoves;
      InTurnConcat(Candidates(p, k - 1, x, y, ds, columns, rows), TileMoves(p, k - 1, 4, x, y, ds, columns, rows));
    }
  }

  /** The tile declared that it stretches along the axis of the growth. */
  ghost predicate OptedIn(m: Move, p: seq<Tile>, ds: map<string, Descriptor>)
    requires m.index < |p|
  {
    p[m.index].id in ds &&
    match m.direction
    case Right => ds[p[m.index].id].canStretchHorizontally
    case Left => ds[p[m.index].id].canStretchHorizontally
    case Down => ds[p[m.index].id].canStretchVertically
    case Up => ds[p[m.index].id].canStretchVertically
  }

  /** `m` goes before every other growth: opted in before not, then by turn. */
  ghost predicate Wins(m: Move, n: Move, p: seq<Tile>, ds: map<string, Descriptor>) {
    && m.index < |p| && n.index < |p|
    && (|| m == n
        || (OptedIn(m, p, ds) && !OptedIn(n, p, ds))
        || (OptedIn(m, p, ds) == OptedIn(n, p, ds) && Sooner(m, n)))
  }

  lemma ChosenWins(moves: seq<Move>, p: seq<Tile>, ds: map<string, Descriptor>, n: Move)
    requires AllIndexed(moves, p) && InTurn(moves) && n in moves
    ensures var m := Choose(moves, p, ds); m.Some? && Wins(m.value, n, p, ds)
  {
    var i :| 0 <= i < |moves| && moves[i] == n;
    var j := FirstPreferred(moves, p, ds);
    assert Prefers(n, p, ds) <==> OptedIn(n, p, ds);
    if j < |moves| {
      assert Prefers(moves[j], p, ds) <==> OptedIn(moves[j], p, ds);
    } else {
      assert Prefers(moves[0], p, ds) <==> OptedIn(moves[0], p, ds);
    }
    hide Prefers, OptedIn, Sooner;
  }

  /** The growth that covers a cell is the one that goes before every other that could. */
  lemma GrowthWins(p: seq<Tile>, x: int, y: int, ds: map<string, Descriptor>, columns: int, rows: int, n: Move)
    requires IsMove(n, p, x, y, ds, columns, rows)
    ensures var m := GrowthFor(p, x, y, ds, columns, rows);
            m.Some? && IsMove(m.value, p, x, y, ds, columns, rows) && Wins(m.value, n, p, ds)
  {
    var moves := Candidates(p, |p|, x, y, ds, columns, rows);
    CandidatesIndexed(p, x, y, ds, columns, rows);
    CandidatesInTurn(p, |p|, x, y, ds, columns, rows);
    CandidatesExact(p, |p|, x, y, ds, columns, rows, n);
    GrowthForExact(p, x, y, ds, columns, rows);
    hide Candidates, IsMove, Wins, Choose, InTurn;
    ChosenWins(moves, p, ds, n);
  }

  /** One cell comes before another, row by row from the left. */
  ghost predicate CellBefore(a: (int, int), b: (int, int)) {
    a.1 < b.1 || (a.1 == b.1 && a.0 < b.0)
  }

  ghost predicate RowMajor(cells: seq<(int, int)>) {
    forall i, j :: 0 <= i < j < |cells| ==> CellBefore(cells[i], cells[j])
  }

  lemma RowMajorConcat(a: seq<(int, int)>, b: seq<(int, int)>)
    requires RowMajor(a) && RowMajor(b)
    requires forall i, j :: 0 <= i < |a| && 0 <= j < |b| ==> CellBefore(a[i], b[j])
    ensures RowMajor(a + b)
  {
  }

  lemma {:induction false} EmptyInRowMajor(p: seq<Tile>, y: int, columns: nat)
    ensures RowMajor(EmptyInRow(p, y, columns))
    ensures forall i :: 0 <= i < |EmptyInRow(p, y, columns)| ==>
              EmptyInRow(p, y, columns)[i].0 < columns && EmptyInRow(p, y, columns)[i].1 == y
  {
    if columns > 0 {
      EmptyInRowMajor(p, y, columns - 1);
      hide Covered;
      RowMajorConcat(EmptyInRow(p, y, columns - 1), [(columns - 1, y)]);
    }
  }

  lemma {:induction false} EmptyListRowMajor(p: seq<Tile>, columns: nat, rows: nat)
    ensures RowMajor(EmptyList(p, columns, rows))
    ensures forall i :: 0 <= i < |EmptyList(p, columns, rows)| ==> EmptyList(p, columns, rows)[i].1 < rows
  {
    if rows > 0 {
      EmptyListRowMajor(p, columns, rows - 1);
      EmptyInRowMajor(p, rows - 1, columns);
      hide EmptyInRow, RowMajor;
      RowMajorConcat(EmptyList(p, columns, rows - 1), EmptyInRow(p, rows - 1, columns));
    }
  }

  ghost predicate EmptyBefore(p: seq<Tile>, c: (int, int), x: int, y: int, columns: int, rows: int) {
    0 <= c.0 < columns && 0 <= c.1 < rows && !Covered(p, c.0, c.1) && CellBefore(c, (x, y))
  }

  /** No growth covers the cell. */
  ghost predicate Unreachable(p: seq<Tile>, c: (int, int), ds: map<string, Descriptor>, columns: int, rows: int) {
    forall m :: !IsMove(m, p, c.0, c.1, ds, columns, rows)
  }

  lemma NoGrowth(p: seq<Tile>, c: (int, int), ds: map<string, Descriptor>, columns: int, rows: int)
    ensures GrowthFor(p, c.0, c.1, ds, columns, rows).None? ==> Unreachable(p, c, ds, columns, rows)
  {
    GrowthForExact(p, c.0, c.1, ds, columns, rows);
  }

  lemma {:induction false} FirstMoveOf(p: seq<Tile>, cells: seq<(int, int)>, ds: map<string, Descriptor>,
                                       columns: int, rows: int) returns (i: nat)
    requires FirstMove(p, cells, ds, columns, rows).Some?
    ensures i < |cells|
    ensures GrowthFor(p, cells[i].0, cells[i].1, ds, columns, rows) == FirstMove(p, cells, ds, columns, rows)
    ensures forall j :: 0 <= j < i ==> Unreachable(p, cells[j], ds, columns, rows)
  {
    NoGrowth(p, cells[0], ds, columns, rows);
    hide GrowthFor, Unreachable;
    if GrowthFor(p, cells[0].0, cells[0].1, ds, columns, rows).Some? {
      i := 0;
    } else {
      var k := FirstMoveOf(p, cells[1..], ds, columns, rows);
      i := k + 1;
      forall j | 0 <= j < i ensures Unreachable(p, cells[j], ds, columns, rows) {
        assert j > 0 ==> cells[j] == cells[1..][j - 1];
      }
    }
  }

  /**
   The gap closed next is the first empty cell, row by row, that any growth can cover, and
   the growth is the one that goes before all others that could cover it.
   */
  lemma FirstGapFirst(p: seq<Tile>, ds: map<string, Descriptor>, columns: nat, rows: nat) returns (x: int, y: int)
    requires FirstMove(p, EmptyList(p, columns, rows), ds, columns, rows).Some?
    ensures 0 <= x < columns && 0 <= y < rows && !Covered(p, x, y)
    ensures var m := FirstMove(p, EmptyList(p, columns, rows), ds, columns, rows).value;
            && IsMove(m, p, x, y, ds, columns, rows)
            && (forall n :: IsMove(n, p, x, y, ds, columns, rows) ==> Wins(m, n, p, ds))
    ensures forall c :: EmptyBefore(p, c, x, y, columns, rows) ==> Unreachable(p, c, ds, columns, rows)
  {
    var cells := EmptyList(p, columns, rows);
    EmptyListRowMajor(p, columns, rows);
    hide IsMove, Wins, Covered, EmptyList, FirstMove, GrowthFor, Unreachable;
    var i := FirstMoveOf(p, cells, ds, columns, rows);
    x, y := cells[i].0, cells[i].1;
    assert cells[i] in cells;
    EmptyListExact(p, columns, rows, cells[i]);
    GrowthForExact(p, x, y, ds, columns, rows);
    forall n | IsMove(n, p, x, y, ds, columns, rows)
      ensures Wins(FirstMove(p, cells, ds, columns, rows).value, n, p, ds)
    {
      GrowthWins(p, x, y, ds, columns, rows, n);
    }
    forall c | EmptyBefore(p, c, x, y, columns, rows)
      ensures Unreachable(p, c, ds, columns, rows)
    {
      EmptyListExact(p, columns, rows, c);
      var j :| 0 <= j < |cells| && cells[j] == c;
    }
  }

  // ------------------------------------------------------------------------- compaction

  /** The tile moved some cells towards the edge. */
  function Towards(t: Tile, d: Slide, cells: int): Tile {
    if d.Upward? then t.(y := t.y - cells) else t.(x := t.x - cells)
  }

  /** A slide takes one tile, in one direction, over free cells to the first place it cannot leave. */
  lemma {:induction false} SlideStops(p: seq<Tile>, i: nat, d: Slide, columns: int, rows: int) returns (cells: nat)
    requires i < |p|
    ensures SlidFully(p, i, d, columns, rows) == p[i := Towards(p[i], d, cells)]
    ensures forall k :: 0 < k <= cells ==> Fits(Towards(p[i], d, k), p, columns, rows)
    ensures || !Fits(Towards(p[i], d, cells + 1), p, columns, rows)
            || (if d.Upward? then p[i].y <= cells else p[i].x <= cells)
    decreases if d.Upward? then p[i].y else p[i].x
  {
    if CanSlide(p, i, d, columns, rows) {
      var q := p[i := Slid(p[i], d)];
      var less := SlideStops(q, i, d, columns, rows);
      cells := less + 1;
      assert q[i := Towards(q[i], d, less)] == p[i := Towards(p[i], d, cells)];
      forall k | 0 <= k <= less + 1 ensures Towards(q[i], d, k) == Towards(p[i], d, k + 1) {
      }
      forall t: Tile | t.id == p[i].id ensures Fits(t, q, columns, rows) <==> Fits(t, p, columns, rows) {
        SameOthers(p, q, i, t);
      }
      forall k | 0 < k <= cells ensures Fits(Towards(p[i], d, k), p, columns, rows) {
        assert k > 1 ==> Towards(p[i], d, k) == Towards(q[i], d, k - 1);
      }
      assert Towards(p[i], d, cells + 1) == Towards(q[i], d, less + 1);
    } else {
      cells := 0;
      assert p[i := p[i]] == p;
      assert Towards(p[i], d, 1) == Slid(p[i], d);
    }
  }

  /** A tile's own place does not stand in its way. */
  lemma SameOthers(p: seq<Tile>, q: seq<Tile>, i: nat, t: Tile)
    requires i < |p| == |q| && q == p[i := q[i]] && p[i].id == q[i].id == t.id
    ensures OverlapsAny(t, q) <==> OverlapsAny(t, p)
  {
    if OverlapsAny(t, p) {
      var k :| 0 <= k < |p| && p[k].id != t.id && Overlaps(t, p[k]);
      assert q[k] == p[k];
    }
  }

  /** Up comes before left: beside a tile in the corner, not below it, is where the second one ends. */
  lemma UpBeforeLeft()
    ensures var a, b := Tile("a", 0, 0, 1, 1, Full), Tile("b", 1, 1, 1, 1, Full);
            CompactedFrom([a, b], 0, 2, 2) == [a, b.(y := 0)]
  {
    var a, b := Tile("a", 0, 0, 1, 1, Full), Tile("b", 1, 1, 1, 1, Full);
    assert SlidFully([a, b], 0, Upward, 2, 2) == [a, b] && SlidFully([a, b], 0, Leftward, 2, 2) == [a, b];
    var up := [a, b.(y := 0)];
    assert CanSlide([a, b], 1, Upward, 2, 2) && [a, b][1 := Slid(b, Upward)] == up;
    assert SlidFully([a, b], 1, Upward, 2, 2) == up;
    assert Overlaps(Slid(up[1], Leftward), up[0]);
    assert SlidFully(up, 1, Leftward, 2, 2) == up;
    assert CompactedFrom(up, 2, 2, 2) == up;
    assert CompactedFrom([a, b], 1, 2, 2) == up;
  }
}
