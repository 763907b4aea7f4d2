/**
 The two passes that grow placed tiles: opt-in stretching to the right and down
 until nothing moves, then closing the remaining gaps in all four directions.
 Each pass works in place on the placed tiles and is proved equal to a function
 of the list it starts from.
 */
module GridGrowth {
  import opened Results
  import opened GridGeometry

  /** The lookup both passes build; of two tiles declaring one id, the later wins. */
  function ById(descriptors: seq<Descriptor>): map<string, Descriptor> {
    if descriptors == [] then map[]
    else
      var last := descriptors[|descriptors| - 1];
      ById(descriptors[..|descriptors| - 1])[last.id := last]
  }

  // --------------------------------------------------------------- stretching

  predicate CanStretchRight(t: Tile, placed: seq<Tile>, ds: map<string, Descriptor>, columns: int, rows: int) {
    && t.id in ds && ds[t.id].canStretchHorizontally
    && t.columns < ds[t.id].maximumColumns.GetOr(columns)
    && Fits(Growth(t, Right), placed, columns, rows)
  }

  predicate CanStretchDown(t: Tile, placed: seq<Tile>, ds: map<string, Descriptor>, columns: int, rows: int) {
    && t.id in ds && ds[t.id].canStretchVertically
    && t.rows < ds[t.id].maximumRows.GetOr(rows)
    && Fits(Growth(t, Down), placed, columns, rows)
  }

  /** The turn of tile `i` in one sweep: one step right if it can, otherwise one step down if it can. */
  function StretchTurn(p: seq<Tile>, i: nat, ds: map<string, Descriptor>, columns: int, rows: int): seq<Tile>
    requires i < |p|
  {
    if CanStretchRight(p[i], p, ds, columns, rows) then p[i := Growth(p[i], Right)]
    else if CanStretchDown(p[i], p, ds, columns, rows) then p[i := Growth(p[i], Down)]
    else p
  }

  function Sweep(p: seq<Tile>, i: nat, ds: map<string, Descriptor>, columns: int, rows: int): (q: seq<Tile>)
    requires i <= |p|
    ensures |q| == |p|
    decreases |p| - i
  {
    if i == |p| then p else Sweep(StretchTurn(p, i, ds, columns, rows), i + 1, ds, columns, rows)
  }

  /** Sweeps until one leaves the tiles as they are. */
  ghost function Stretched(p: seq<Tile>, ds: map<string, Descriptor>, columns: int, rows: int): (q: seq<Tile>)
    requires Valid(p, columns, rows)
    decreases EmptySet(p, columns, rows)
  {
    var s := Sweep(p, 0, ds, columns, rows);
    if s == p then p
    else
      SweepStep(p, 0, ds, columns, rows);
      Stretched(s, ds, columns, rows)
  }

  /** No tile that opted in can take one more step right or down. */
  ghost predicate NoStretchLeft(p: seq<Tile>, ds: map<string, Descriptor>, columns: int, rows: int) {
    forall i :: 0 <= i < |p| ==>
      !CanStretchRight(p[i], p, ds, columns, rows) && !CanStretchDown(p[i], p, ds, columns, rows)
  }

  lemma TurnStep(p: seq<Tile>, i: nat, ds: map<string, Descriptor>, columns: int, rows: int)
    requires Valid(p, columns, rows) && i < |p|
    ensures var q := StretchTurn(p, i, ds, columns, rows);
            && Valid(q, columns, rows) && Extends(p, q) && RespectsCaps(p, q, ds)
            && (q == p || EmptySet(q, columns, rows) < EmptySet(p, columns, rows))
  {
    if CanStretchRight(p[i], p, ds, columns, rows) {
      GrowthStep(p, i, Right, columns, rows);
    } else if CanStretchDown(p[i], p, ds, columns, rows) {
      GrowthStep(p, i, Down, columns, rows);
    }
  }

  lemma {:induction false} SweepStep(p: seq<Tile>, i: nat, ds: map<string, Descriptor>, columns: int, rows: int)
    requires Valid(p, columns, rows) && i <= |p|
    ensures var q := Sweep(p, i, ds, columns, rows);
            && Valid(q, columns, rows) && Extends(p, q) && RespectsCaps(p, q, ds)
            && (q == p || EmptySet(q, columns, rows) < EmptySet(p, columns, rows))
    decreases |p| - i
  {
    if i < |p| {
      var s := StretchTurn(p, i, ds, columns, rows);
      TurnStep(p, i, ds, columns, rows);
      SweepStep(s, i + 1, ds, columns, rows);
      ExtendsTransitive(p, s, Sweep(p, i, ds, columns, rows), ds);
    }
  }

  /** A sweep that changed nothing looked at every tile against the same list, and found no step. */
  lemma {:induction false} QuietSweep(p: seq<Tile>, i: nat, ds: map<string, Descriptor>, columns: int, rows: int)
    requires Valid(p, columns, rows) && i <= |p|
    requires Sweep(p, i, ds, columns, rows) == p
    ensures forall k :: i <= k < |p| ==>
              !CanStretchRight(p[k], p, ds, columns, rows) && !CanStretchDown(p[k], p, ds, columns, rows)
    decreases |p| - i
  {
    if i < |p| {
      var s := StretchTurn(p, i, ds, columns, rows);
      TurnStep(p, i, ds, columns, rows);
      SweepStep(s, i + 1, ds, columns, rows);
      assert s == p;
      QuietSweep(p, i + 1, ds, columns, rows);
    }
  }

  lemma {:induction false} StretchedSound(p: seq<Tile>, ds: map<string, Descriptor>, columns: int, rows: int)
    requires Valid(p, columns, rows)
    ensures var q := Stretched(p, ds, columns, rows);
            && Valid(q, columns, rows) && Extends(p, q) && RespectsCaps(p, q, ds)
            && NoStretchLeft(q, ds, columns, rows)
    decreases EmptySet(p, columns, rows)
  {
    var s := Sweep(p, 0, ds, columns, rows);
    if s == p {
      QuietSweep(p, 0, ds, columns, rows);
    } else {
      SweepStep(p, 0, ds, columns, rows);
      StretchedSound(s, ds, columns, rows);
      ExtendsTransitive(p, s, Stretched(s, ds, columns, rows), ds);
    }
  }

  method StretchTiles(placed: array<Tile>, descriptors: seq<Descriptor>, columns: int, rows: int)
    requires Valid(placed[..], columns, rows)
    modifies placed
    ensures placed[..] == Stretched(old(placed[..]), ById(descriptors), columns, rows)
  {
    var ds := ById(descriptors);
    ghost var goal := Stretched(placed[..], ds, columns, rows);
    var didStretch := true;
    while didStretch
      invariant Valid(placed[..], columns, rows)
      invariant Stretched(placed[..], ds, columns, rows) == goal
      invariant !didStretch ==> placed[..] == goal
      decreases EmptySet(placed[..], columns, rows), didStretch
    {
      SweepStep(placed[..], 0, ds, columns, rows);
      didStretch := SweepTiles(placed, ds, columns, rows);
    }
  }

  /** One sweep over all tiles; answers whether any of them was stretched. */
  method SweepTiles(placed: array<Tile>, ds: map<string, Descriptor>, columns: int, rows: int)
    returns (didStretch: bool)
    modifies placed
    ensures placed[..] == Sweep(old(placed[..]), 0, ds, columns, rows)
    ensures didStretch <==> placed[..] != old(placed[..])
  {
    ghost var start := placed[..];
    ghost var goal := Sweep(start, 0, ds, columns, rows);
    didStretch := false;
    for i := 0 to placed.Length
      invariant Sweep(placed[..], i, ds, columns, rows) == goal
      invariant didStretch ==> Larger(start, placed[..])
      invariant !didStretch ==> placed[..] == start
    {
      var stretched := TakeTurn(placed, i, ds, columns, rows);
      didStretch := didStretch || stretched;
    }
  }

  /** Some tile's width plus height exceeds what it was, and no tile shrank. */
  ghost predicate Larger(p: seq<Tile>, q: seq<Tile>) {
    && |p| == |q|
    && (forall i :: 0 <= i < |p| ==> p[i].columns + p[i].rows <= q[i].columns + q[i].rows)
    && (exists i :: 0 <= i < |p| && p[i].columns + p[i].rows < q[i].columns + q[i].rows)
  }

  method TakeTurn(placed: array<Tile>, i: nat, ds: map<string, Descriptor>, columns: int, rows: int)
    returns (stretched: bool)
    requires i < placed.Length
    modifies placed
    ensures placed[..] == StretchTurn(old(placed[..]), i, ds, columns, rows)
    ensures if stretched then Larger(old(placed[..]), placed[..]) else placed[..] == old(placed[..])
  {
    var tile := placed[i];
    if tile.id in ds && ds[tile.id].canStretchHorizontally {
      var maximumColumns := ds[tile.id].maximumColumns.GetOr(columns);
      if tile.columns < maximumColumns && Fits(tile.(columns := tile.columns + 1), placed[..], columns, rows) {
        placed[i] := tile.(columns := tile.columns + 1);
        assert old(placed[i]).columns < placed[i].columns;
        return true;
      }
    }
    if tile.id in ds && ds[tile.id].canStretchVertically {
      var maximumRows := ds[tile.id].maximumRows.GetOr(rows);
      if tile.rows < maximumRows && Fits(tile.(rows := tile.rows + 1), placed[..], columns, rows) {
        placed[i] := tile.(rows := tile.rows + 1);
        assert old(placed[i]).rows < placed[i].rows;
        return true;
      }
    }
    stretched := false;
  }
}
