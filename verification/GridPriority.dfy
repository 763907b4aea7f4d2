/**
 Priority: tiles are decided by non-increasing priority, equal priorities in the order
 the request lists them, so a tile is never affected by tiles of lower priority.
 */
module GridPriority {
  import opened Results
  import opened StableSorting
  import opened GridGeometry
  import opened GridPlacement
  import opened GridGrowth
  import opened GridLayout

  // ------------------------------------------------------------------------- the order

  /** A list of all the request's indices, higher priority first and equal priorities as listed. */
  ghost predicate ByPriority(tiles: seq<Descriptor>, order: seq<nat>) {
    && |order| == |tiles|
    && (forall x :: 0 <= x < |order| ==> order[x] < |tiles|)
    && (forall x, y :: 0 <= x < y < |order| ==> Precedes(tiles, order[x], order[y]))
  }

  ghost predicate Precedes(tiles: seq<Descriptor>, i: nat, j: nat) {
    && i < |tiles| && j < |tiles|
    && (tiles[i].priority > tiles[j].priority || (tiles[i].priority == tiles[j].priority && i < j))
  }

  ghost function Pick(tiles: seq<Descriptor>, order: seq<nat>): (r: seq<Descriptor>)
    requires forall x :: 0 <= x < |order| ==> order[x] < |tiles|
    ensures |r| == |order|
  {
    seq(|order|, x requires 0 <= x < |order| => tiles[order[x]])
  }

  lemma OrderedPrecedes(request: Request, x: nat, y: nat, i: nat, j: nat)
    requires ValidRequest(request) && x < y < |Ordered(request)| && i < |request.tiles| && j < |request.tiles|
    requires Ordered(request)[x] == request.tiles[i] && Ordered(request)[y] == request.tiles[j]
    ensures Precedes(request.tiles, i, j)
  {
    var key := (d: Descriptor) => -d.priority;
    SortIsStable(request.tiles, key);
    OrderedIsValid(request);
    assert key(Ordered(request)[x]) <= key(Ordered(request)[y]);
    if request.tiles[i].priority == request.tiles[j].priority {
      SortKeepsTies(request.tiles, key, x, y, i, j);
      assert i != j;
    }
  }

  /** The tiles are decided in the one order the priorities and the request's own listing determine. */
  lemma DecidedByPriority(request: Request) returns (order: seq<nat>)
    requires ValidRequest(request)
    ensures ByPriority(request.tiles, order) && Pick(request.tiles, order) == Ordered(request)
  {
    OrderedIsValid(request);
    hide Ordered, ValidRequest, DistinctWellFormed, Precedes;
    order := Positions(request.tiles, Ordered(request));
    forall x, y | 0 <= x < y < |order| ensures Precedes(request.tiles, order[x], order[y]) {
      OrderedPrecedes(request, x, y, order[x], order[y]);
    }
  }

  /** Where in the request each of the tiles is. */
  lemma Positions(tiles: seq<Descriptor>, some: seq<Descriptor>) returns (order: seq<nat>)
    requires forall x :: 0 <= x < |some| ==> some[x] in tiles
    ensures |order| == |some|
    ensures forall x :: 0 <= x < |order| ==> order[x] < |tiles| && tiles[order[x]] == some[x]
  {
    order := [];
    while |order| < |some|
      invariant |order| <= |some|
      invariant forall x :: 0 <= x < |order| ==> order[x] < |tiles| && tiles[order[x]] == some[x]
    {
      var i :| 0 <= i < |tiles| && tiles[i] == some[|order|];
      order := order + [i];
    }
  }

  /** Every answer is the placement loop's answer on the tiles in that order. */
  lemma AnsweredByPriority(request: Request, r: Result<Layout, LayoutError>) returns (order: seq<nat>)
    requires ValidRequest(request) && IsLayout(request, r)
    ensures ByPriority(request.tiles, order)
    ensures r.Err? ==> r.error.LayoutOverflow?
                       && IsPlacement(Pick(request.tiles, order), GridOf(request), Err(r.error.id))
    ensures r.Ok? ==> exists first ::
              && IsPlacement(Pick(request.tiles, order), GridOf(request),
                             Ok(Placement(first, r.value.relocated, r.value.hidden)))
              && Extends(first, r.value.placed)
  {
    order := DecidedByPriority(request);
    hide ByPriority, Pick;
    if r.Ok? {
      LayoutSound(request, r.value);
    }
  }

  // ------------------------------------------------------ lower priorities do not matter

  /** The tiles of at least the given priority, in the order listed. */
  function AtLeast(tiles: seq<Descriptor>, p: real): seq<Descriptor> {
    if tiles == [] then []
    else (if tiles[0].priority >= p then [tiles[0]] else []) + AtLeast(tiles[1..], p)
  }

  function Without(request: Request, p: real): Request {
    request.(tiles := AtLeast(request.tiles, p))
  }

  const Rank: Descriptor -> real := (d: Descriptor) => -d.priority

  lemma {:induction false} AtLeastPart(tiles: seq<Descriptor>, p: real, d: Descriptor)
    ensures d in AtLeast(tiles, p) <==> d in tiles && d.priority >= p
  {
    if tiles != [] {
      AtLeastPart(tiles[1..], p, d);
      assert tiles == [tiles[0]] + tiles[1..];
    }
  }

  ghost predicate DistinctIds(tiles: seq<Descriptor>) {
    forall i, j :: 0 <= i < j < |tiles| ==> tiles[i].id != tiles[j].id
  }

  lemma HeadDistinct(tiles: seq<Descriptor>)
    requires DistinctIds(tiles) && tiles != []
    ensures DistinctIds(tiles[1..]) && forall d :: d in tiles[1..] ==> d.id != tiles[0].id
  {
    var rest := tiles[1..];
    forall i, j | 0 <= i < j < |rest| ensures rest[i].id != rest[j].id {
      assert rest[i] == tiles[i + 1] && rest[j] == tiles[j + 1];
    }
    forall d | d in rest ensures d.id != tiles[0].id {
      var i :| 0 <= i < |rest| && rest[i] == d;
      assert tiles[i + 1] == d;
    }
  }

  lemma AddDistinct(head: Descriptor, later: seq<Descriptor>)
    requires DistinctIds(later) && forall d :: d in later ==> d.id != head.id
    ensures DistinctIds([head] + later)
  {
    var kept := [head] + later;
    forall i, j | 0 <= i < j < |kept| ensures kept[i].id != kept[j].id {
      assert kept[j] == later[j - 1] && later[j - 1] in later;
      if i > 0 {
        assert kept[i] == later[i - 1];
      }
    }
  }

  lemma {:induction false} AtLeastDistinct(tiles: seq<Descriptor>, p: real)
    requires DistinctIds(tiles)
    ensures DistinctIds(AtLeast(tiles, p))
  {
    if tiles != [] {
      HeadDistinct(tiles);
      AtLeastDistinct(tiles[1..], p);
      forall d | d in AtLeast(tiles[1..], p) ensures d.id != tiles[0].id {
        AtLeastPart(tiles[1..], p, d);
      }
      hide DistinctIds;
      var later := AtLeast(tiles[1..], p);
      AddDistinct(tiles[0], later);
      assert AtLeast(tiles, p) == if tiles[0].priority >= p then [tiles[0]] + later else later;
    }
  }

  lemma WithoutValid(request: Request, p: real)
    requires ValidRequest(request)
    ensures ValidRequest(Without(request, p)) && GridOf(Without(request, p)) == GridOf(request)
  {
    var kept := AtLeast(request.tiles, p);
    AtLeastDistinct(request.tiles, p);
    forall i | 0 <= i < |kept| ensures ValidDescriptor(kept[i]) {
      AtLeastPart(request.tiles, p, kept[i]);
      assert kept[i] in kept;
    }
  }

  lemma {:induction false} AtLeastBucket(tiles: seq<Descriptor>, p: real, k: real)
    ensures Bucket(AtLeast(tiles, p), Rank, k) == if -k >= p then Bucket(tiles, Rank, k) else []
  {
    if tiles != [] {
      AtLeastBucket(tiles[1..], p, k);
      var head := if tiles[0].priority >= p then [tiles[0]] else [];
      BucketConcat(head, AtLeast(tiles[1..], p), Rank, k);
      assert head != [] ==> head[1..] == [];
    }
  }

  /** How many of an ordered list reach the priority. */
  lemma {:induction false} Threshold(ordered: seq<Descriptor>, p: real) returns (k: nat)
    requires Ascending(ordered, Rank)
    ensures k <= |ordered|
    ensures forall i :: 0 <= i < k ==> ordered[i].priority >= p
    ensures forall i :: k <= i < |ordered| ==> ordered[i].priority < p
  {
    k := |ordered|;
    while k > 0 && ordered[k - 1].priority < p
      invariant k <= |ordered|
      invariant forall i :: k <= i < |ordered| ==> ordered[i].priority < p
    {
      k := k - 1;
    }
    if k > 0 {
      forall i | 0 <= i < k ensures ordered[i].priority >= p {
        assert i < k - 1 ==> Rank(ordered[i]) <= Rank(ordered[k - 1]);
      }
    }
  }

  lemma PrefixBucket(request: Request, p: real, k: nat, r: real)
    requires k <= |Ordered(request)| && SameBuckets(Ordered(request), request.tiles, Rank)
    requires forall i :: 0 <= i < k ==> Ordered(request)[i].priority >= p
    requires forall i :: k <= i < |Ordered(request)| ==> Ordered(request)[i].priority < p
    ensures Bucket(Ordered(request)[..k], Rank, r) == Bucket(AtLeast(request.tiles, p), Rank, r)
  {
    var ordered := Ordered(request);
    assert ordered == ordered[..k] + ordered[k..];
    BucketConcat(ordered[..k], ordered[k..], Rank, r);
    AtLeastBucket(request.tiles, p, r);
    assert Bucket(ordered, Rank, r) == Bucket(request.tiles, Rank, r);
    if -r >= p {
      BucketFree(ordered[k..], Rank, r);
    } else {
      BucketFree(ordered[..k], Rank, r);
    }
  }

  /** Dropping the lower priorities cuts the tail off the order and changes nothing before it. */
  lemma WithoutIsPrefix(request: Request, p: real) returns (k: nat)
    requires ValidRequest(request)
    ensures k <= |Ordered(request)| && Ordered(Without(request, p)) == Ordered(request)[..k]
    ensures forall i :: k <= i < |Ordered(request)| ==> Ordered(request)[i].priority < p
  {
    var ordered, kept := Ordered(request), Ordered(Without(request, p));
    OrderedSorted(request);
    k := Threshold(ordered, p);
    OrderedSorted(Without(request, p));
    hide Ordered, Bucket;
    forall r ensures Bucket(ordered[..k], Rank, r) == Bucket(kept, Rank, r) {
      PrefixBucket(request, p, k, r);
    }
    StableSortUnique(ordered[..k], kept, Rank);
  }

  lemma OrderedSorted(request: Request)
    ensures Ascending(Ordered(request), Rank) && SameBuckets(Ordered(request), request.tiles, Rank)
  {
    SortIsStable(request.tiles, Rank);
    SameOrder(request.tiles, (d: Descriptor) => -d.priority);
  }

  lemma {:induction false} SameOrder(tiles: seq<Descriptor>, key: Descriptor -> real)
    requires forall d :: key(d) == Rank(d)
    ensures StableSort(tiles, key) == StableSort(tiles, Rank)
  {
    if tiles != [] {
      SameOrder(tiles[..|tiles| - 1], key);
      SameInsert(StableSort(tiles[..|tiles| - 1], Rank), tiles[|tiles| - 1], key);
    }
  }

  lemma {:induction false} SameInsert(s: seq<Descriptor>, x: Descriptor, key: Descriptor -> real)
    requires forall d :: key(d) == Rank(d)
    ensures InsertAfterEquals(s, x, key) == InsertAfterEquals(s, x, Rank)
  {
    if s != [] {
      SameInsert(s[1..], x, key);
    }
  }

  lemma {:induction false} PlacedPrefix(decisions: seq<Decision>, k: nat)
    requires k <= |decisions|
    ensures PlacedBy(decisions[..k]) <= PlacedBy(decisions)
    decreases |decisions|
  {
    if k < |decisions| {
      var front := decisions[..|decisions| - 1];
      assert front[..k] == decisions[..k];
      PlacedPrefix(front, k);
    } else {
      assert decisions[..k] == decisions;
    }
  }

  lemma PlacedSplit(decisions: seq<Decision>, k: nat) returns (first: seq<Tile>, more: seq<Tile>)
    requires k <= |decisions|
    ensures first == PlacedBy(decisions[..k]) && PlacedBy(decisions) == first + more
  {
    PlacedPrefix(decisions, k);
    first := PlacedBy(decisions[..k]);
    more := PlacedBy(decisions)[|first|..];
  }

  lemma {:induction false} LeaversPrefix(ordered: seq<Descriptor>, decisions: seq<Decision>, k: nat)
    requires k <= |decisions| <= |ordered|
    ensures RelocatedBy(ordered[..k], decisions[..k]) <= RelocatedBy(ordered, decisions)
    ensures HiddenBy(ordered[..k], decisions[..k]) <= HiddenBy(ordered, decisions)
    decreases |decisions|
  {
    if k < |decisions| {
      var front := decisions[..|decisions| - 1];
      assert front[..k] == decisions[..k];
      LeaversPrefix(ordered, front, k);
    } else {
      assert decisions[..k] == decisions;
      SameLeavers(ordered, ordered[..k], decisions);
    }
  }

  lemma {:induction false} SameLeavers(a: seq<Descriptor>, b: seq<Descriptor>, decisions: seq<Decision>)
    requires |decisions| <= |a| && |decisions| <= |b| && a[..|decisions|] == b[..|decisions|]
    ensures RelocatedBy(a, decisions) == RelocatedBy(b, decisions)
    ensures HiddenBy(a, decisions) == HiddenBy(b, decisions)
  {
    if decisions != [] {
      var n := |decisions| - 1;
      assert a[..n] == a[..n + 1][..n] && b[..n] == b[..n + 1][..n];
      assert a[n] == a[..n + 1][n] && b[n] == b[..n + 1][n];
      SameLeavers(a, b, decisions[..n]);
    }
  }

  /**
   Dropping every tile of priority below `p` leaves a request that is answered too, and
   the answers agree on all that remains: the same tiles are placed first, at the same
   positions, the same are relocated and hidden; what the dropped tiles add comes after.
   */
  lemma LowerPrioritiesYield(request: Request, layout: Layout, p: real) returns (less: Layout, first: seq<Tile>,
                                                                                more: seq<Tile>)
    requires ValidRequest(request) && IsLayout(request, Ok(layout))
    ensures ValidRequest(Without(request, p)) && IsLayout(Without(request, p), Ok(less))
    ensures less.relocated <= layout.relocated && less.hidden <= layout.hidden
    ensures IsPlacement(Ordered(Without(request, p)), GridOf(request),
                        Ok(Placement(first, less.relocated, less.hidden)))
    ensures IsPlacement(Ordered(request), GridOf(request),
                        Ok(Placement(first + more, layout.relocated, layout.hidden)))
    ensures Extends(first, less.placed) && Extends(first + more, layout.placed)
  {
    assert request.columns >= 1;
    hide Ordered, IsLayout, IsPlacement, ValidRequest, Builds, Extends, PlacedBy, RelocatedBy, HiddenBy, Without,
      GridOf;
    var decisions, k;
    decisions, k, less := CutRun(request, layout, p);
    RunAnswer(request, decisions, layout);
    RunAnswer(Without(request, p), decisions[..k], less);
    LeaversPrefix(Ordered(request), decisions, k);
    first, more := PlacedSplit(decisions, k);
  }

  lemma RunAnswer(request: Request, decisions: seq<Decision>, layout: Layout)
    requires ValidRequest(request) && Builds(request, decisions, layout)
    ensures |decisions| <= |Ordered(request)|
    ensures layout.relocated == RelocatedBy(Ordered(request), decisions)
    ensures layout.hidden == HiddenBy(Ordered(request), decisions)
    ensures IsPlacement(Ordered(request), GridOf(request),
                        Ok(Placement(PlacedBy(decisions), layout.relocated, layout.hidden)))
    ensures Extends(PlacedBy(decisions), layout.placed)
  {
    FirstPlacement(request, decisions, layout);
    GrownExtends(request, decisions, layout);
    hide IsPlacement, Grown, PlacedBy;
  }

  lemma CutRun(request: Request, layout: Layout, p: real) returns (decisions: seq<Decision>, k: nat, less: Layout)
    requires ValidRequest(request) && IsLayout(request, Ok(layout))
    ensures ValidRequest(Without(request, p)) && k <= |decisions| == |Ordered(request)|
    ensures Ordered(Without(request, p)) == Ordered(request)[..k]
    ensures Builds(request, decisions, layout) && Builds(Without(request, p), decisions[..k], less)
    ensures IsLayout(Without(request, p), Ok(less)) && GridOf(Without(request, p)) == GridOf(request)
  {
    decisions := RunOfLayout(request, layout);
    k := WithoutIsPrefix(request, p);
    WithoutValid(request, p);
    assert Completed(Ordered(request), GridOf(request), decisions);
    OrderedIsValid(Without(request, p));
    hide Ordered, IsLayout, Builds, IsRun;
    CompletedPrefix(Ordered(request), GridOf(request), decisions, k);
    PlacementSound(Ordered(Without(request, p)), GridOf(request), decisions[..k]);
    less := LayoutFrom(Without(request, p), decisions[..k]);
  }

  lemma CompletedPrefix(ordered: seq<Descriptor>, grid: Grid, decisions: seq<Decision>, k: nat)
    requires Completed(ordered, grid, decisions) && k <= |ordered|
    ensures Completed(ordered[..k], grid, decisions[..k])
  {
    hide IsDecision, PlacedBy;
    forall i | 0 <= i < k ensures decisions[..k][..i] == decisions[..i] {
    }
  }

  lemma LayoutFrom(request: Request, decisions: seq<Decision>) returns (layout: Layout)
    requires ValidRequest(request) && Completed(Ordered(request), GridOf(request), decisions)
    requires Valid(PlacedBy(decisions), request.columns, request.maximumRows)
    ensures Builds(request, decisions, layout) && IsLayout(request, Ok(layout))
  {
    assert request.columns >= 1 && request.maximumRows >= 1 && |decisions| == |Ordered(request)|;
    hide Completed, Grown, ValidRequest, Valid;
    var grown := Grown(PlacedBy(decisions), request.tiles, request.columns, request.maximumRows);
    layout := Layout(grown.0, RelocatedBy(Ordered(request), decisions), HiddenBy(Ordered(request), decisions), grown.1);
  }

  lemma GrownExtends(request: Request, decisions: seq<Decision>, layout: Layout)
    requires ValidRequest(request) && Builds(request, decisions, layout)
    ensures Extends(PlacedBy(decisions), layout.placed)
  {
    GrownSound(PlacedBy(decisions), request, layout.placed, layout.usedRows);
  }
}
