/**
 First-fit placement: every tile, in priority order, takes its richest variant
 that has room and clears the width floor, at the first free position in
 row-major order; a tile without room leaves by its own overflow policy.
 */
module GridPlacement {
  import opened Results
  import opened GridGeometry

  /** The grid being filled, with the floor a rendered width should clear. */
  datatype Grid = Grid(columns: int, rows: int, columnWidth: Option<real>, minimumTileWidth: Option<real>) {
    function WithoutFloor(): Grid {
      this.(columnWidth := None, minimumTileWidth := None)
    }
  }

  predicate ClearsFloor(columns: int, grid: Grid) {
    || grid.columnWidth.None?
    || grid.minimumTileWidth.None?
    || columns as real * grid.columnWidth.value >= grid.minimumTileWidth.value
  }

  predicate Eligible(v: Variant, grid: Grid) {
    v.columns <= grid.columns && v.rows <= grid.rows && ClearsFloor(v.columns, grid)
  }

  function TileAt(id: string, v: Variant, x: int, y: int): Tile {
    Tile(id, x, y, v.columns, v.rows, v.presentation)
  }

  predicate Free(id: string, v: Variant, placed: seq<Tile>, x: int, y: int) {
    !OverlapsAny(TileAt(id, v, x, y), placed)
  }

  ghost predicate Position(v: Variant, grid: Grid, x: int, y: int) {
    0 <= x <= grid.columns - v.columns && 0 <= y <= grid.rows - v.rows
  }

  ghost predicate NoRoom(id: string, v: Variant, placed: seq<Tile>, grid: Grid) {
    Eligible(v, grid) ==> forall x, y :: Position(v, grid, x, y) ==> !Free(id, v, placed, x, y)
  }

  ghost predicate FullyOccupied(d: Descriptor, placed: seq<Tile>, grid: Grid) {
    forall k :: 0 <= k < |d.variants| ==> NoRoom(d.id, d.variants[k], placed, grid)
  }

  ghost predicate Before(x: int, y: int, c: Tile) {
    y < c.y || (y == c.y && x < c.x)
  }

  /** `c` is variant `k` at the first free position, and no richer variant had room. */
  ghost predicate FirstFitVariant(d: Descriptor, placed: seq<Tile>, grid: Grid, k: int, c: Tile) {
    && 0 <= k < |d.variants|
    && var v := d.variants[k];
    && Eligible(v, grid)
    && c == TileAt(d.id, v, c.x, c.y)
    && Position(v, grid, c.x, c.y)
    && Free(d.id, v, placed, c.x, c.y)
    && (forall x, y :: Position(v, grid, x, y) && Before(x, y, c) ==> !Free(d.id, v, placed, x, y))
    && (forall j :: 0 <= j < k ==> NoRoom(d.id, d.variants[j], placed, grid))
  }

  ghost predicate IsFirstFit(d: Descriptor, placed: seq<Tile>, grid: Grid, r: Option<Tile>) {
    match r
    case None => FullyOccupied(d, placed, grid)
    case Some(c) => exists k :: FirstFitVariant(d, placed, grid, k, c)
  }

  method FindPlacement(d: Descriptor, placed: seq<Tile>, grid: Grid) returns (r: Option<Tile>)
    ensures IsFirstFit(d, placed, grid, r)
  {
    for k := 0 to |d.variants|
      invariant forall j :: 0 <= j < k ==> NoRoom(d.id, d.variants[j], placed, grid)
    {
      var v := d.variants[k];
      if v.columns > grid.columns || v.rows > grid.rows { continue; }
      if grid.columnWidth.Some? && grid.minimumTileWidth.Some?
         && v.columns as real * grid.columnWidth.value < grid.minimumTileWidth.value
      {
        continue;
      }
      var y := 0;
      while y <= grid.rows - v.rows
        invariant 0 <= y <= grid.rows - v.rows + 1
        invariant forall a, b :: Position(v, grid, a, b) && b < y ==> !Free(d.id, v, placed, a, b)
      {
        var x := 0;
        while x <= grid.columns - v.columns
          invariant 0 <= x <= grid.columns - v.columns + 1
          invariant forall a :: Position(v, grid, a, y) && a < x ==> !Free(d.id, v, placed, a, y)
        {
          var candidate := TileAt(d.id, v, x, y);
          if !OverlapsAny(candidate, placed) {
            assert FirstFitVariant(d, placed, grid, k, candidate);
            return Some(candidate);
          }
          x := x + 1;
        }
        y := y + 1;
      }
      assert NoRoom(d.id, v, placed, grid);
    }
    r := None;
  }

  /** First fit leaves no choice: richest variant first, then row-major position. */
  lemma FirstFitUnique(d: Descriptor, placed: seq<Tile>, grid: Grid, r: Option<Tile>, s: Option<Tile>)
    requires IsFirstFit(d, placed, grid, r) && IsFirstFit(d, placed, grid, s)
    ensures r == s
  {
  }

  // ---------------------------------------------------------------- decisions

  datatype Decision = Place(tile: Tile) | Relocate(route: string) | Hide | Overflow

  predicate CanLeave(d: Descriptor) {
    d.relocationRoute.Some? || d.hideWhenOverflow
  }

  /** What the resolver owes a tile, given the tiles already placed. */
  ghost predicate IsDecision(d: Descriptor, placed: seq<Tile>, grid: Grid, decision: Decision) {
    match decision
    case Place(tile) =>
      || IsFirstFit(d, placed, grid, Some(tile))
      || (!CanLeave(d) && FullyOccupied(d, placed, grid)
          && IsFirstFit(d, placed, grid.WithoutFloor(), Some(tile)))
    case Relocate(route) => FullyOccupied(d, placed, grid) && d.relocationRoute == Some(route)
    case Hide => FullyOccupied(d, placed, grid) && d.relocationRoute.None? && d.hideWhenOverflow
    case Overflow => !CanLeave(d) && FullyOccupied(d, placed, grid.WithoutFloor())
  }

  lemma DecisionUnique(d: Descriptor, placed: seq<Tile>, grid: Grid, a: Decision, b: Decision)
    requires IsDecision(d, placed, grid, a) && IsDecision(d, placed, grid, b)
    ensures a == b
  {
  }

  function PlacedBy(decisions: seq<Decision>): seq<Tile> {
    if decisions == [] then []
    else
      var last := decisions[|decisions| - 1];
      PlacedBy(decisions[..|decisions| - 1]) + (if last.Place? then [last.tile] else [])
  }

  function RelocatedBy(ordered: seq<Descriptor>, decisions: seq<Decision>): seq<(string, string)>
    requires |decisions| <= |ordered|
  {
    if decisions == [] then []
    else
      var n := |decisions| - 1;
      RelocatedBy(ordered, decisions[..n])
      + (if decisions[n].Relocate? then [(ordered[n].id, decisions[n].route)] else [])
  }

  function HiddenBy(ordered: seq<Descriptor>, decisions: seq<Decision>): seq<string>
    requires |decisions| <= |ordered|
  {
    if decisions == [] then []
    else
      var n := |decisions| - 1;
      HiddenBy(ordered, decisions[..n]) + (if decisions[n].Hide? then [ordered[n].id] else [])
  }

  /** The decisions taken tile by tile, each against the tiles placed before it. */
  ghost predicate IsRun(ordered: seq<Descriptor>, grid: Grid, decisions: seq<Decision>) {
    && |decisions| <= |ordered|
    && forall k :: 0 <= k < |decisions| ==> IsDecision(ordered[k], PlacedBy(decisions[..k]), grid, decisions[k])
  }

  ghost predicate Completed(ordered: seq<Descriptor>, grid: Grid, decisions: seq<Decision>) {
    && IsRun(ordered, grid, decisions)
    && |decisions| == |ordered|
    && Overflow !in decisions
  }

  /** The run stops at tile `k`, which has no policy and no room for any variant even without the floor. */
  ghost predicate Overflowed(ordered: seq<Descriptor>, grid: Grid, decisions: seq<Decision>, k: int) {
    && IsRun(ordered, grid, decisions)
    && 0 <= k == |decisions| - 1
    && decisions[k].Overflow?
    && Overflow !in decisions[..k]
  }

  datatype Placement = Placement(placed: seq<Tile>, relocated: seq<(string, string)>, hidden: seq<string>)

  function PlacementOf(ordered: seq<Descriptor>, decisions: seq<Decision>): Placement
    requires |decisions| <= |ordered|
  {
    Placement(PlacedBy(decisions), RelocatedBy(ordered, decisions), HiddenBy(ordered, decisions))
  }

  /** What the placement loop answers: the completed run's lists, or the tile it overflowed on. */
  ghost predicate IsPlacement(ordered: seq<Descriptor>, grid: Grid, r: Result<Placement, string>) {
    match r
    case Ok(placement) => exists ds :: Completed(ordered, grid, ds) && placement == PlacementOf(ordered, ds)
    case Err(id) => exists ds :: Overflowed(ordered, grid, ds, |ds| - 1) && id == ordered[|ds| - 1].id
  }

  /** One turn of the placement loop: place, place without the floor, relocate, hide, or overflow. */
  method Decide(tile: Descriptor, placed: seq<Tile>, grid: Grid) returns (decision: Decision)
    ensures IsDecision(tile, placed, grid, decision)
  {
    var candidate := FindPlacement(tile, placed, grid);
    if candidate.Some? {
      return Place(candidate.value);
    }
    if !CanLeave(tile) {
      var withoutFloor := FindPlacement(tile, placed, grid.WithoutFloor());
      if withoutFloor.Some? {
        return Place(withoutFloor.value);
      }
    }
    if tile.relocationRoute.Some? {
      return Relocate(tile.relocationRoute.value);
    }
    if tile.hideWhenOverflow {
      return Hide;
    }
    return Overflow;
  }

  method PlaceTiles(ordered: seq<Descriptor>, grid: Grid) returns (r: Result<Placement, string>)
    ensures IsPlacement(ordered, grid, r)
  {
    var placed, relocated, hidden := [], [], [];
    ghost var decisions: seq<Decision> := [];
    assert IsRun(ordered, grid, decisions) && Placement(placed, relocated, hidden) == PlacementOf(ordered, decisions);
    hide IsDecision, IsRun, IsPlacement, PlacedBy, RelocatedBy, HiddenBy;
    for i := 0 to |ordered|
      invariant |decisions| == i && IsRun(ordered, grid, decisions) && Overflow !in decisions
      invariant Placement(placed, relocated, hidden) == PlacementOf(ordered, decisions)
    {
      var decision := Decide(ordered[i], placed, grid);
      ExtendRun(ordered, grid, decisions, decision);
      ListsGrow(ordered, decisions, decision);
      if decision.Overflow? {
        OverflowPlacement(ordered, grid, decisions);
      }
      decisions := decisions + [decision];
      match decision
      case Place(tile) => placed := placed + [tile];
      case Relocate(route) => relocated := relocated + [(ordered[i].id, route)];
      case Hide => hidden := hidden + [ordered[i].id];
      case Overflow => return Err(ordered[i].id);
    }
    r := Ok(Placement(placed, relocated, hidden));
    CompletePlacement(ordered, grid, decisions);
  }

  /** One more decision extends the list it belongs to and no other. */
  lemma ListsGrow(ordered: seq<Descriptor>, decisions: seq<Decision>, decision: Decision)
    requires |decisions| < |ordered|
    ensures var id, longer := ordered[|decisions|].id, decisions + [decision];
            && PlacedBy(longer) == PlacedBy(decisions) + (if decision.Place? then [decision.tile] else [])
            && RelocatedBy(ordered, longer)
               == RelocatedBy(ordered, decisions) + (if decision.Relocate? then [(id, decision.route)] else [])
            && HiddenBy(ordered, longer) == HiddenBy(ordered, decisions) + (if decision.Hide? then [id] else [])
  {
    assert (decisions + [decision])[..|decisions|] == decisions;
  }

  lemma OverflowPlacement(ordered: seq<Descriptor>, grid: Grid, decisions: seq<Decision>)
    requires |decisions| < |ordered| && Overflow !in decisions && IsRun(ordered, grid, decisions + [Overflow])
    ensures IsPlacement(ordered, grid, Err(ordered[|decisions|].id))
  {
    hide IsRun;
    var longer := decisions + [Overflow];
    assert longer[..|longer| - 1] == decisions;
    assert Overflowed(ordered, grid, longer, |longer| - 1);
    hide Overflowed;
  }

  lemma CompletePlacement(ordered: seq<Descriptor>, grid: Grid, decisions: seq<Decision>)
    requires IsRun(ordered, grid, decisions) && |decisions| == |ordered| && Overflow !in decisions
    ensures IsPlacement(ordered, grid, Ok(PlacementOf(ordered, decisions)))
  {
    hide IsRun;
    assert Completed(ordered, grid, decisions);
  }

  lemma ExtendRun(ordered: seq<Descriptor>, grid: Grid, decisions: seq<Decision>, decision: Decision)
    requires IsRun(ordered, grid, decisions) && |decisions| < |ordered|
    requires IsDecision(ordered[|decisions|], PlacedBy(decisions), grid, decision)
    ensures IsRun(ordered, grid, decisions + [decision])
  {
    var longer := decisions + [decision];
    forall k | 0 <= k < |longer| ensures IsDecision(ordered[k], PlacedBy(longer[..k]), grid, longer[k]) {
      assert longer[..k] == decisions[..k];
      if k == |decisions| {
        assert decisions[..k] == decisions;
      }
    }
  }

  /** Two runs over the same tiles take the same decisions, so the layout is a function of the request. */
  lemma {:induction false} RunUnique(ordered: seq<Descriptor>, grid: Grid, a: seq<Decision>, b: seq<Decision>, n: nat)
    requires IsRun(ordered, grid, a) && IsRun(ordered, grid, b) && n <= |a| && n <= |b|
    ensures a[..n] == b[..n]
  {
    hide IsDecision, PlacedBy;
    if n > 0 {
      assert IsDecision(ordered[n - 1], PlacedBy(a[..n - 1]), grid, a[n - 1]);
      assert IsDecision(ordered[n - 1], PlacedBy(b[..n - 1]), grid, b[n - 1]);
      hide IsRun;
      RunUnique(ordered, grid, a, b, n - 1);
      assert a[..n] == a[..n - 1] + [a[n - 1]] && b[..n] == b[..n - 1] + [b[n - 1]];
      DecisionUnique(ordered[n - 1], PlacedBy(a[..n - 1]), grid, a[n - 1], b[n - 1]);
    }
  }

  // ------------------------------------------------------- what placement builds

  ghost predicate WellFormed(d: Descriptor) {
    forall k :: 0 <= k < |d.variants| ==> d.variants[k].columns >= 1 && d.variants[k].rows >= 1
  }

  ghost predicate DistinctWellFormed(ordered: seq<Descriptor>) {
    && (forall i :: 0 <= i < |ordered| ==> WellFormed(ordered[i]))
    && (forall i, j :: 0 <= i < j < |ordered| ==> ordered[i].id != ordered[j].id)
  }

  /** Moving tile `i` one cell up, or one cell left, runs into the edge or an earlier tile. */
  ghost predicate Tight(placed: seq<Tile>) {
    forall i :: 0 <= i < |placed| ==>
      && (placed[i].y == 0 || OverlapsAny(placed[i].(y := placed[i].y - 1), placed[..i]))
      && (placed[i].x == 0 || OverlapsAny(placed[i].(x := placed[i].x - 1), placed[..i]))
  }

  /** Each placed tile carries the id of a tile already decided, and keeps its own width above the floor. */
  ghost predicate FromDecided(placed: seq<Tile>, ordered: seq<Descriptor>, n: nat, grid: Grid)
    requires n <= |ordered|
  {
    forall i :: 0 <= i < |placed| ==>
      exists k :: 0 <= k < n && placed[i].id == ordered[k].id
        && (CanLeave(ordered[k]) ==> ClearsFloor(placed[i].columns, grid))
  }

  lemma FirstFitIsTight(d: Descriptor, placed: seq<Tile>, grid: Grid, c: Tile)
    requires IsFirstFit(d, placed, grid, Some(c)) && WellFormed(d)
    ensures c.id == d.id && Proper(c, grid.columns, grid.rows) && !OverlapsAny(c, placed)
    ensures c.y == 0 || OverlapsAny(c.(y := c.y - 1), placed)
    ensures c.x == 0 || OverlapsAny(c.(x := c.x - 1), placed)
    ensures ClearsFloor(c.columns, grid)
  {
    var k :| FirstFitVariant(d, placed, grid, k, c);
    var v := d.variants[k];
    if c.y != 0 {
      assert Position(v, grid, c.x, c.y - 1) && Before(c.x, c.y - 1, c);
      assert TileAt(d.id, v, c.x, c.y - 1) == c.(y := c.y - 1);
    }
    if c.x != 0 {
      assert Position(v, grid, c.x - 1, c.y) && Before(c.x - 1, c.y, c);
      assert TileAt(d.id, v, c.x - 1, c.y) == c.(x := c.x - 1);
    }
  }

  lemma {:induction false} PlacementSound(ordered: seq<Descriptor>, grid: Grid, decisions: seq<Decision>)
    requires IsRun(ordered, grid, decisions) && DistinctWellFormed(ordered)
    ensures Valid(PlacedBy(decisions), grid.columns, grid.rows)
    ensures Tight(PlacedBy(decisions))
    ensures FromDecided(PlacedBy(decisions), ordered, |decisions|, grid)
  {
    if decisions != [] {
      var n := |decisions| - 1;
      var front := decisions[..n];
      assert forall k :: 0 <= k < n ==> front[..k] == decisions[..k];
      PlacementSound(ordered, grid, front);
      if decisions[n].Place? {
        AppendTile(ordered, grid, PlacedBy(front), n, decisions[n].tile);
      } else {
        assert PlacedBy(decisions) == PlacedBy(front);
      }
    }
  }

  lemma AppendTile(ordered: seq<Descriptor>, grid: Grid, placed: seq<Tile>, n: nat, c: Tile)
    requires n < |ordered| && DistinctWellFormed(ordered)
    requires Valid(placed, grid.columns, grid.rows) && Tight(placed) && FromDecided(placed, ordered, n, grid)
    requires IsDecision(ordered[n], placed, grid, Place(c))
    ensures Valid(placed + [c], grid.columns, grid.rows)
    ensures Tight(placed + [c]) && FromDecided(placed + [c], ordered, n + 1, grid)
  {
    if IsFirstFit(ordered[n], placed, grid, Some(c)) {
      FirstFitIsTight(ordered[n], placed, grid, c);
    } else {
      FirstFitIsTight(ordered[n], placed, grid.WithoutFloor(), c);
    }
    hide IsDecision;
    hide IsFirstFit;
    AppendDecided(ordered, grid, placed, n, c);
    AppendValid(placed, c, grid.columns, grid.rows);
    AppendTight(placed, c);
  }

  lemma AppendDecided(ordered: seq<Descriptor>, grid: Grid, placed: seq<Tile>, n: nat, c: Tile)
    requires n < |ordered| && DistinctWellFormed(ordered) && FromDecided(placed, ordered, n, grid)
    requires c.id == ordered[n].id && (CanLeave(ordered[n]) ==> ClearsFloor(c.columns, grid))
    ensures FromDecided(placed + [c], ordered, n + 1, grid)
    ensures forall i :: 0 <= i < |placed| ==> placed[i].id != c.id
  {
  }

  lemma AppendValid(placed: seq<Tile>, c: Tile, columns: int, rows: int)
    requires Valid(placed, columns, rows) && Proper(c, columns, rows) && !OverlapsAny(c, placed)
    requires forall i :: 0 <= i < |placed| ==> placed[i].id != c.id
    ensures Valid(placed + [c], columns, rows)
  {
  }

  lemma AppendTight(placed: seq<Tile>, c: Tile)
    requires Tight(placed)
    requires c.y == 0 || OverlapsAny(c.(y := c.y - 1), placed)
    requires c.x == 0 || OverlapsAny(c.(x := c.x - 1), placed)
    ensures Tight(placed + [c])
  {
    var q := placed + [c];
    forall i | 0 <= i < |q|
      ensures q[i].y == 0 || OverlapsAny(q[i].(y := q[i].y - 1), q[..i])
      ensures q[i].x == 0 || OverlapsAny(q[i].(x := q[i].x - 1), q[..i])
    {
      assert q[..i] == placed[..i];
      assert i == |placed| ==> placed[..i] == placed;
    }
  }

  // ------------------------------------------------------------- conservation

  function TileIds(placed: seq<Tile>): seq<string> {
    seq(|placed|, i requires 0 <= i < |placed| => placed[i].id)
  }

  function RouteIds(relocated: seq<(string, string)>): seq<string> {
    seq(|relocated|, i requires 0 <= i < |relocated| => relocated[i].0)
  }

  function DescriptorIds(ordered: seq<Descriptor>): seq<string> {
    seq(|ordered|, i requires 0 <= i < |ordered| => ordered[i].id)
  }

  /** All the ids an answer accounts for, with multiplicity. */
  function Accounted(p: Placement): multiset<string> {
    multiset(TileIds(p.placed)) + multiset(RouteIds(p.relocated)) + multiset(p.hidden)
  }

  /** Every decided tile is in exactly one of placed, relocated and hidden, and nothing else is. */
  lemma {:induction false} NothingLost(ordered: seq<Descriptor>, grid: Grid, decisions: seq<Decision>)
    requires IsRun(ordered, grid, decisions) && Overflow !in decisions
    ensures Accounted(PlacementOf(ordered, decisions)) == multiset(DescriptorIds(ordered[..|decisions|]))
  {
    hide DescriptorIds, Accounted;
    if decisions == [] {
      NothingYet(ordered);
    } else {
      var n := |decisions| - 1;
      var front := decisions[..n];
      assert IsRun(ordered, grid, front) by {
        hide IsDecision;
        assert forall k :: 0 <= k < n ==> front[..k] == decisions[..k];
      }
      NothingLost(ordered, grid, front);
      assert decisions[n] in decisions;
      assert decisions[n].Place? ==> decisions[n].tile.id == ordered[n].id by {
        if decisions[n].Place? {
          PlacedIdMatches(ordered[n], PlacedBy(front), grid, decisions[n].tile);
        }
      }
      OneMoreDecided(ordered, decisions);
      DescriptorIdsAppend(ordered, n);
    }
  }

  lemma NothingYet(ordered: seq<Descriptor>)
    ensures Accounted(PlacementOf(ordered, [])) == multiset(DescriptorIds(ordered[..0]))
  {
  }

  lemma DescriptorIdsAppend(ordered: seq<Descriptor>, n: nat)
    requires n < |ordered|
    ensures multiset(DescriptorIds(ordered[..n + 1])) == multiset(DescriptorIds(ordered[..n])) + multiset{ordered[n].id}
  {
    assert DescriptorIds(ordered[..n + 1]) == DescriptorIds(ordered[..n]) + [ordered[n].id];
  }

  lemma OneMoreDecided(ordered: seq<Descriptor>, decisions: seq<Decision>)
    requires 0 < |decisions| <= |ordered|
    requires var last := decisions[|decisions| - 1];
             !last.Overflow? && (last.Place? ==> last.tile.id == ordered[|decisions| - 1].id)
    ensures var n := |decisions| - 1;
            Accounted(PlacementOf(ordered, decisions))
            == Accounted(PlacementOf(ordered, decisions[..n])) + multiset{ordered[n].id}
  {
    var n := |decisions| - 1;
    var last, p, q := decisions[n], PlacementOf(ordered, decisions[..n]), PlacementOf(ordered, decisions);
    hide Accounted;
    if last.Place? {
      assert q == p.(placed := p.placed + [last.tile]);
      TileIdsAppend(p, last.tile);
    } else if last.Relocate? {
      assert q == p.(relocated := p.relocated + [(ordered[n].id, last.route)]);
      RouteIdsAppend(p, (ordered[n].id, last.route));
    } else {
      assert q == p.(hidden := p.hidden + [ordered[n].id]);
      HiddenAppend(p, ordered[n].id);
    }
  }

  lemma TileIdsAppend(p: Placement, t: Tile)
    ensures Accounted(p.(placed := p.placed + [t])) == Accounted(p) + multiset{t.id}
  {
    assert TileIds(p.placed + [t]) == TileIds(p.placed) + [t.id];
  }

  lemma RouteIdsAppend(p: Placement, r: (string, string))
    ensures Accounted(p.(relocated := p.relocated + [r])) == Accounted(p) + multiset{r.0}
  {
    assert RouteIds(p.relocated + [r]) == RouteIds(p.relocated) + [r.0];
  }

  lemma HiddenAppend(p: Placement, id: string)
    ensures Accounted(p.(hidden := p.hidden + [id])) == Accounted(p) + multiset{id}
  {
  }

  lemma PlacedIdMatches(d: Descriptor, placed: seq<Tile>, grid: Grid, c: Tile)
    requires IsDecision(d, placed, grid, Place(c))
    ensures c.id == d.id
  {
  }

  // --------------------------------------------------------------- compaction

  datatype Slide = Upward | Leftward

  function Slid(t: Tile, d: Slide): Tile {
    if d.Upward? then t.(y := t.y - 1) else t.(x := t.x - 1)
  }

  predicate CanSlide(p: seq<Tile>, i: nat, d: Slide, columns: int, rows: int)
    requires i < |p|
  {
    (if d.Upward? then p[i].y > 0 else p[i].x > 0) && Fits(Slid(p[i], d), p, columns, rows)
  }

  /** Tile `i` as far in one direction as it goes, cell by cell. */
  function SlidFully(p: seq<Tile>, i: nat, d: Slide, columns: int, rows: int): (r: seq<Tile>)
    requires i < |p|
    ensures |r| == |p|
    decreases if d.Upward? then p[i].y else p[i].x
  {
    if CanSlide(p, i, d, columns, rows) then SlidFully(p[i := Slid(p[i], d)], i, d, columns, rows) else p
  }

  /** Each tile from `i` on goes up as far as it can, then left as far as it can. */
  function CompactedFrom(p: seq<Tile>, i: nat, columns: int, rows: int): (r: seq<Tile>)
    ensures |r| == |p|
    decreases |p| - i
  {
    if i >= |p| then p
    else
      var up := SlidFully(p, i, Upward, columns, rows);
      CompactedFrom(SlidFully(up, i, Leftward, columns, rows), i + 1, columns, rows)
  }

  method CompactTiles(placed: array<Tile>, columns: int, rows: int)
    modifies placed
    ensures placed[..] == CompactedFrom(old(placed[..]), 0, columns, rows)
  {
    ghost var goal := CompactedFrom(placed[..], 0, columns, rows);
    for i := 0 to placed.Length
      invariant CompactedFrom(placed[..], i, columns, rows) == goal
    {
      SlideTile(placed, i, Upward, columns, rows);
      SlideTile(placed, i, Leftward, columns, rows);
    }
  }

  method SlideTile(placed: array<Tile>, i: nat, d: Slide, columns: int, rows: int)
    requires i < placed.Length
    modifies placed
    ensures placed[..] == SlidFully(old(placed[..]), i, d, columns, rows)
  {
    ghost var goal := SlidFully(placed[..], i, d, columns, rows);
    while CanSlide(placed[..], i, d, columns, rows)
      invariant SlidFully(placed[..], i, d, columns, rows) == goal
      decreases if d.Upward? then placed[i].y else placed[i].x
    {
      ghost var before := placed[..];
      placed[i] := Slid(placed[i], d);
      assert placed[..] == before[i := Slid(before[i], d)];
    }
  }

  function AfterSlides(p: seq<Tile>, moves: seq<(nat, Slide)>): seq<Tile> {
    if moves == [] then p
    else
      var q, last := AfterSlides(p, moves[..|moves| - 1]), moves[|moves| - 1];
      if last.0 < |q| then q[last.0 := Slid(q[last.0], last.1)] else q
  }

  /** Every move takes one tile one cell on, into cells that are free at that point. */
  predicate FreeSlides(p: seq<Tile>, moves: seq<(nat, Slide)>, columns: int, rows: int) {
    moves == [] ||
    var front, last := moves[..|moves| - 1], moves[|moves| - 1];
    && FreeSlides(p, front, columns, rows)
    && last.0 < |AfterSlides(p, front)|
    && CanSlide(AfterSlides(p, front), last.0, last.1, columns, rows)
  }

  ghost predicate SlidesTo(p: seq<Tile>, moves: seq<(nat, Slide)>, q: seq<Tile>, columns: int, rows: int) {
    FreeSlides(p, moves, columns, rows) && AfterSlides(p, moves) == q
  }

  /** What compaction may make of a list: slid through free cells, and nothing at all if the list is tight. */
  ghost predicate Compacted(before: seq<Tile>, now: seq<Tile>, columns: int, rows: int) {
    && Valid(now, columns, rows)
    && (exists moves :: SlidesTo(before, moves, now, columns, rows))
    && (Tight(before) ==> now == before)
  }

  lemma SlideStep(before: seq<Tile>, now: seq<Tile>, i: nat, d: Slide, columns: int, rows: int)
    requires Compacted(before, now, columns, rows) && i < |now| && CanSlide(now, i, d, columns, rows)
    ensures Compacted(before, now[i := Slid(now[i], d)], columns, rows)
  {
    var moves :| SlidesTo(before, moves, now, columns, rows);
    OneMoreSlide(before, moves, now, i, d, columns, rows);
    TightStays(now, i, d, columns, rows);
    hide SlidesTo;
  }

  lemma OneMoreSlide(p: seq<Tile>, moves: seq<(nat, Slide)>, q: seq<Tile>, i: nat, d: Slide, columns: int, rows: int)
    requires SlidesTo(p, moves, q, columns, rows) && i < |q| && CanSlide(q, i, d, columns, rows)
    ensures SlidesTo(p, moves + [(i, d)], q[i := Slid(q[i], d)], columns, rows)
  {
    assert (moves + [(i, d)])[..|moves|] == moves;
  }

  /** In a tight list nothing can slide, and elsewhere a slide keeps the list valid. */
  lemma TightStays(p: seq<Tile>, i: nat, d: Slide, columns: int, rows: int)
    requires Valid(p, columns, rows) && i < |p| && CanSlide(p, i, d, columns, rows)
    ensures !Tight(p) && Valid(p[i := Slid(p[i], d)], columns, rows)
  {
  }

  lemma {:induction false} SlidFullySound(before: seq<Tile>, p: seq<Tile>, i: nat, d: Slide, columns: int, rows: int)
    requires Compacted(before, p, columns, rows) && i < |p|
    ensures Compacted(before, SlidFully(p, i, d, columns, rows), columns, rows)
    decreases if d.Upward? then p[i].y else p[i].x
  {
    hide Compacted;
    if CanSlide(p, i, d, columns, rows) {
      SlideStep(before, p, i, d, columns, rows);
      SlidFullySound(before, p[i := Slid(p[i], d)], i, d, columns, rows);
    }
  }

  lemma {:induction false} CompactedFromSound(before: seq<Tile>, p: seq<Tile>, i: nat, columns: int, rows: int)
    requires Compacted(before, p, columns, rows)
    ensures Compacted(before, CompactedFrom(p, i, columns, rows), columns, rows)
    decreases |p| - i
  {
    hide Compacted;
    if i < |p| {
      var up := SlidFully(p, i, Upward, columns, rows);
      SlidFullySound(before, p, i, Upward, columns, rows);
      SlidFullySound(before, up, i, Leftward, columns, rows);
      CompactedFromSound(before, SlidFully(up, i, Leftward, columns, rows), i + 1, columns, rows);
    }
  }

  /** Compaction keeps a list valid, moves tiles only through free cells, and leaves what placement builds alone. */
  lemma CompactionSound(p: seq<Tile>, columns: int, rows: int)
    requires Valid(p, columns, rows)
    ensures Compacted(p, CompactedFrom(p, 0, columns, rows), columns, rows)
  {
    assert SlidesTo(p, [], p, columns, rows);
    CompactedFromSound(p, p, 0, columns, rows);
  }

  lemma TightUnmoved(p: seq<Tile>, columns: int, rows: int)
    requires Valid(p, columns, rows) && Tight(p)
    ensures CompactedFrom(p, 0, columns, rows) == p
  {
    CompactionSound(p, columns, rows);
    hide CompactedFrom;
  }
}
