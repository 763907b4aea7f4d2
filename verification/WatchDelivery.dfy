/**
 What the stream delivers while the library stands still. A millisecond that fills a
 batch pins the cursor, so the promise that nothing is silently lost holds exactly
 when no such millisecond has anything left after its first batch.
 */
module WatchDelivery {
  import opened Results
  import opened OrderedRows
  import opened MaterialLibrary
  import opened WatchStream

  /** How many rows lie before an instant. */
  ghost function FirstAt(rows: seq<Event>, t: int): (f: nat)
    ensures f <= |rows|
  {
    if rows == [] || rows[0].sequence >= t then 0 else 1 + FirstAt(rows[1..], t)
  }

  lemma {:induction false} FirstAtSplits(rows: seq<Event>, t: int)
    requires Ordered(rows, Earlier)
    ensures var f := FirstAt(rows, t);
            && (forall i :: 0 <= i < f ==> rows[i].sequence < t)
            && (forall i :: f <= i < |rows| ==> rows[i].sequence >= t)
  {
    if rows != [] {
      if rows[0].sequence >= t {
        forall i | 0 <= i < |rows| ensures rows[i].sequence >= t {
          assert i > 0 ==> Earlier(rows[0], rows[i]);
        }
      } else {
        var rest := rows[1..];
        FirstAtSplits(rest, t);
        forall i | 0 < i < |rows| ensures rows[i] == rest[i - 1] {
        }
      }
    }
  }

  /** A later reading of a library that did not change is the tail of the earlier one. */
  lemma RowsFrom(s: Library, group: Id, after: int, t: int)
    requires t >= after
    ensures Rows(s, group, t) == Rows(s, group, after)[FirstAt(Rows(s, group, after), t)..]
  {
    var rows := Rows(s, group, after);
    var f := FirstAt(rows, t);
    FirstAtSplits(rows, t);
    ChangedOrdered(s, group, after);
    ChangedTail(s, group, after, t);
    ListingTail(Changed(s, group, after), Changed(s, group, t), Earlier, f);
  }

  lemma TailMembers(rows: seq<Event>, t: int)
    requires Ordered(rows, Earlier)
    ensures (set e | e in Members(rows) && e.sequence >= t) == Members(rows[FirstAt(rows, t)..])
  {
  }

  lemma ChangedTail(s: Library, group: Id, after: int, t: int)
    requires t >= after
    ensures var rows := Rows(s, group, after); Changed(s, group, t) == Members(rows[FirstAt(rows, t)..])
  {
    assert Changed(s, group, t) == set e | e in Changed(s, group, after) && e.sequence >= t;
    TailMembers(Rows(s, group, after), t);
  }

  // ------------------------------------------------------------ one poll, by position

  /** The stream has yielded the first `p` rows and nothing else. */
  ghost predicate Reached(st: Stream, rows: seq<Event>, after: int, p: nat) {
    && p <= |rows|
    && Sound(st) && st.yielded == rows[..p]
    && st.cursor == if p == 0 then after else rows[p - 1].sequence
  }

  function Max(a: nat, b: nat): nat {
    if a < b then b else a
  }

  function Min(a: nat, b: nat): nat {
    if a < b then a else b
  }

  lemma DistinctRows(rows: seq<Event>)
    requires Ordered(rows, Earlier)
    ensures Distinct(rows) && Ascends(rows)
  {
  }

  ghost predicate Since(rows: seq<Event>, after: int) {
    forall i :: 0 <= i < |rows| ==> rows[i].sequence >= after
  }

  lemma AbsorbRow(st: Stream, rows: seq<Event>, after: int, p: nat, i: nat)
    requires Ordered(rows, Earlier) && Since(rows, after) && Reached(st, rows, after, p)
    requires i < |rows| && i <= p && (i < p ==> rows[i].sequence == rows[p - 1].sequence)
    ensures Reached(Absorb(st, rows[i]), rows, after, Max(p, i + 1))
  {
    DistinctRows(rows);
    if i < p {
      assert st.yielded[i] == rows[i];
      assert rows[i] == Event(st.cursor, rows[i].material);
    } else {
      AbsorbSound(st, rows[i]);
      assert rows[i] !in st.yielded;
      assert rows[i] == Event(rows[i].sequence, rows[i].material);
      assert rows[..i + 1] == rows[..i] + [rows[i]];
    }
  }

  lemma SliceFront(rows: seq<Event>, f: nat, e: nat)
    requires f < e <= |rows|
    ensures rows[f..e][..e - 1 - f] == rows[f..e - 1] && rows[f..e][e - 1 - f] == rows[e - 1]
  {
  }

  lemma {:induction false} AbsorbRows(st: Stream, rows: seq<Event>, after: int, p: nat, f: nat, e: nat)
    requires Ordered(rows, Earlier) && Since(rows, after) && Reached(st, rows, after, p)
    requires f <= e <= |rows| && f <= p <= |rows|
    requires forall i :: f <= i < p ==> rows[i].sequence == rows[p - 1].sequence
    ensures Reached(AbsorbAll(st, rows[f..e]), rows, after, Max(p, e))
  {
    hide Reached, Ordered, Since;
    if f < e {
      AbsorbRows(st, rows, after, p, f, e - 1);
      SliceFront(rows, f, e);
      AbsorbRow(AbsorbAll(st, rows[f..e - 1]), rows, after, Max(p, e - 1), e - 1);
    } else {
      assert rows[f..e] == [];
    }
  }

  /** Where the cursor of position `p` starts reading. */
  ghost function ReadFrom(rows: seq<Event>, after: int, p: nat): nat
    requires p <= |rows|
  {
    FirstAt(rows, if p == 0 then after else rows[p - 1].sequence)
  }

  ghost function Next(rows: seq<Event>, after: int, size: nat, p: nat): (q: nat)
    requires p <= |rows|
    ensures p <= q <= |rows|
  {
    Max(p, Min(ReadFrom(rows, after, p) + size, |rows|))
  }

  /** The cursor rereads only rows of its own millisecond. */
  lemma ReadsBack(rows: seq<Event>, after: int, p: nat)
    requires Ordered(rows, Earlier) && Since(rows, after) && p <= |rows|
    ensures var f := ReadFrom(rows, after, p);
            f <= p && (forall i :: f <= i < p ==> rows[i].sequence == rows[p - 1].sequence)
  {
    DistinctRows(rows);
    FirstAtSplits(rows, if p == 0 then after else rows[p - 1].sequence);
  }

  lemma RowsSince(s: Library, group: Id, after: int)
    ensures Since(Rows(s, group, after), after)
  {
    var rows := Rows(s, group, after);
    forall i | 0 <= i < |rows| ensures rows[i].sequence >= after {
      assert rows[i] in Members(rows);
    }
  }

  lemma TakeSlice(rows: seq<Event>, f: nat, n: nat)
    requires f <= |rows|
    ensures Take(rows[f..], n) == rows[f..Max(f, Min(f + n, |rows|))]
  {
  }

  lemma AbsorbBatch(st: Stream, rows: seq<Event>, after: int, size: nat, p: nat)
    requires Ordered(rows, Earlier) && Since(rows, after) && p <= |rows| && Reached(st, rows, after, p)
    ensures var batch := Take(rows[ReadFrom(rows, after, p)..], size);
            Reached(AbsorbAll(st, batch), rows, after, Next(rows, after, size, p))
  {
    hide Ordered, Since, Reached, ReadFrom, Take;
    var f := ReadFrom(rows, after, p);
    ReadsBack(rows, after, p);
    TakeSlice(rows, f, size);
    AbsorbRows(st, rows, after, p, f, Max(f, Min(f + size, |rows|)));
  }

  lemma BatchAt(s: Library, group: Id, limit: int, after: int, cursor: int)
    requires cursor >= after
    ensures var rows := Rows(s, group, after);
            ReadMaterialEvents(s, group, cursor, limit) == Take(rows[FirstAt(rows, cursor)..], Batch(limit))
  {
    hide Rows, Take, FirstAt;
    RowsFrom(s, group, after, cursor);
  }

  lemma PollAdvances(st: Stream, s: Library, group: Id, limit: int, after: int, p: nat)
    requires Reached(st, Rows(s, group, after), after, p)
    ensures var rows := Rows(s, group, after);
            Reached(Poll(st, s, group, limit), rows, after, Next(rows, after, Batch(limit), p))
  {
    var rows := Rows(s, group, after);
    RowsSince(s, group, after);
    assert st.cursor >= after && FirstAt(rows, st.cursor) == ReadFrom(rows, after, p);
    BatchAt(s, group, limit, after, st.cursor);
    assert Ordered(rows, Earlier);
    hide Reached, Rows, ReadFrom, FirstAt, ReadMaterialEvents, Batch, Take, Next, Ordered, Since;
    AbsorbBatch(st, rows, after, Batch(limit), p);
  }

  ghost function Position(rows: seq<Event>, after: int, size: nat, k: nat): (p: nat)
    ensures p <= |rows|
  {
    if k == 0 then 0 else Next(rows, after, size, Position(rows, after, size, k - 1))
  }

  lemma {:induction false} StillWatch(at: nat -> Library, s: Library, group: Id, limit: int, after: int, k: nat)
    requires forall i :: at(i) == s
    ensures var rows := Rows(s, group, after);
            Reached(Watch(at, group, limit, after, k), rows, after, Position(rows, after, Batch(limit), k))
  {
    if k > 0 {
      StillWatch(at, s, group, limit, after, k - 1);
      hide Reached, Rows, Next, Poll;
      PollAdvances(Watch(at, group, limit, after, k - 1), s, group, limit, after,
                   Position(Rows(s, group, after), after, Batch(limit), k - 1));
    }
  }

  // ------------------------------------------------------------ exactly when all arrive

  /** Millisecond `t` alone fills a batch, and more rows remain from it on than one batch holds. */
  ghost predicate Crowded(s: Library, group: Id, limit: int, t: int) {
    && |Changed(s, group, t) - Changed(s, group, t + 1)| >= Batch(limit)
    && |Changed(s, group, t)| > Batch(limit)
  }

  /** The same, read off the listing. */
  ghost predicate CrowdedRows(rows: seq<Event>, size: nat, t: int) {
    FirstAt(rows, t + 1) - FirstAt(rows, t) >= size && |rows| - FirstAt(rows, t) > size
  }

  lemma CrowdedByPosition(s: Library, group: Id, limit: int, after: int, t: int)
    requires t >= after
    ensures Crowded(s, group, limit, t) <==> CrowdedRows(Rows(s, group, after), Batch(limit), t)
  {
    RowsFrom(s, group, after, t);
    RowsFrom(s, group, after, t + 1);
    var now, later := Changed(s, group, t), Changed(s, group, t + 1);
    assert later <= now;
    assert |now - later| == |now| - |later|;
  }

  /** Off a crowded millisecond a poll always moves on. */
  lemma MovesOnce(rows: seq<Event>, after: int, size: nat, p: nat)
    requires Ordered(rows, Earlier) && Since(rows, after) && size > 0 && p < |rows|
    requires p > 0 ==> !CrowdedRows(rows, size, rows[p - 1].sequence)
    ensures Next(rows, after, size, p) > p
  {
    ReadsBack(rows, after, p);
    if p > 0 {
      FirstAtSplits(rows, rows[p - 1].sequence + 1);
    }
  }

  lemma {:induction false} MovesOn(rows: seq<Event>, after: int, size: nat, k: nat)
    requires Ordered(rows, Earlier) && Since(rows, after) && size > 0
    requires forall t :: t >= after ==> !CrowdedRows(rows, size, t)
    ensures Position(rows, after, size, k) >= Min(k, |rows|)
  {
    if k > 0 {
      MovesOn(rows, after, size, k - 1);
      hide CrowdedRows, Next, Ordered;
      var p := Position(rows, after, size, k - 1);
      if p < |rows| {
        MovesOnce(rows, after, size, p);
      }
    }
  }

  lemma StaysBehindOnce(rows: seq<Event>, after: int, size: nat, t: int, p: nat)
    requires Ordered(rows, Earlier) && Since(rows, after) && p <= |rows| && size > 0
    requires t >= after && CrowdedRows(rows, size, t) && p <= FirstAt(rows, t) + size
    ensures Next(rows, after, size, p) <= FirstAt(rows, t) + size
  {
    FirstAtSplits(rows, t + 1);
    FirstAtSplits(rows, t);
    if p > 0 {
      assert rows[p - 1].sequence <= t;
      FirstAtSplits(rows, rows[p - 1].sequence);
    } else {
      FirstAtSplits(rows, after);
    }
  }

  /** The cursor never gets past a crowded millisecond's first batch. */
  lemma {:induction false} StaysBehind(rows: seq<Event>, after: int, size: nat, t: int, k: nat)
    requires Ordered(rows, Earlier) && Since(rows, after) && size > 0
    requires t >= after && CrowdedRows(rows, size, t)
    ensures Position(rows, after, size, k) <= FirstAt(rows, t) + size
  {
    if k > 0 {
      StaysBehind(rows, after, size, t, k - 1);
      hide FirstAt, Next, Ordered, Since, CrowdedRows;
      StaysBehindOnce(rows, after, size, t, Position(rows, after, size, k - 1));
    }
  }

  /**
   On a library that stands still the stream yields a prefix of the rows due, in order.
   It yields all of them if and only if no millisecond from the start cursor on is
   crowded, and then within as many polls as there are rows.
   */
  lemma DeliversAllExactly(at: nat -> Library, s: Library, group: Id, limit: int, after: int, k: nat)
    requires forall i :: at(i) == s
    ensures var rows, yielded := Rows(s, group, after), Watch(at, group, limit, after, k).yielded;
            && yielded <= rows
            && ((forall t :: t >= after ==> !Crowded(s, group, limit, t)) && k >= |rows| ==> yielded == rows)
            && ((exists t :: t >= after && Crowded(s, group, limit, t)) ==> yielded != rows)
  {
    var rows, size := Rows(s, group, after), Batch(limit);
    StillWatch(at, s, group, limit, after, k);
    RowsSince(s, group, after);
    hide Rows, Position, Watch, Crowded, Sound, Since;
    if t :| t >= after && Crowded(s, group, limit, t) {
      CrowdedByPosition(s, group, limit, after, t);
      StaysBehind(rows, after, size, t, k);
    } else {
      forall t | t >= after ensures !CrowdedRows(rows, size, t) {
        CrowdedByPosition(s, group, limit, after, t);
      }
      MovesOn(rows, after, size, k);
    }
  }

  /** What is lost is lost for good: no number of polls delivers the last row behind a crowded millisecond. */
  lemma CrowdedLosesLast(at: nat -> Library, s: Library, group: Id, limit: int, after: int, t: int, k: nat)
    requires (forall i :: at(i) == s) && t >= after && Crowded(s, group, limit, t)
    ensures var rows := Rows(s, group, after);
            rows != [] && rows[|rows| - 1] !in Watch(at, group, limit, after, k).yielded
  {
    var rows, yielded := Rows(s, group, after), Watch(at, group, limit, after, k).yielded;
    DeliversAllExactly(at, s, group, limit, after, k);
    DistinctRows(rows);
    hide Watch, Rows, Crowded, Lists;
    assert |yielded| < |rows|;
    assert rows[|rows| - 1] !in rows[..|yielded|];
  }

  const FIRST_TWIN := Call(0, true, 0, BeginUpload(1, 7, 1, 1))
  const SECOND_TWIN := Call(0, true, 0, BeginUpload(2, 8, 2, 2))

  /** Two uploads begun in one millisecond, read one at a time. */
  const TWINS := Run(EMPTY, [FIRST_TWIN, SECOND_TWIN])

  lemma TwinsAre()
    ensures TWINS == Library(
              map[(0, 7) := 1, (0, 8) := 1],
              map[1 := Material(0, 7, Uploading, None, 1, false, 0), 2 := Material(0, 8, Uploading, None, 1, false, 0)],
              map[],
              map[1 := Session(0, Some(1), None, Pending), 2 := Session(0, Some(2), None, Pending)])
  {
    var one := Step(EMPTY, FIRST_TWIN);
    var two := Step(one, SECOND_TWIN);
    assert one == Library(map[(0, 7) := 1], map[1 := Material(0, 7, Uploading, None, 1, false, 0)], map[],
                          map[1 := Session(0, Some(1), None, Pending)]);
    assert [FIRST_TWIN, SECOND_TWIN][1..] == [SECOND_TWIN] && [SECOND_TWIN][1..] == [];
    assert Run(two, []) == two && Run(one, [SECOND_TWIN]) == two;
  }

  lemma TwinsChanged()
    ensures Changed(TWINS, 0, 0) == {Event(0, 1), Event(0, 2)} && Changed(TWINS, 0, 1) == {}
  {
    TwinsAre();
    forall e ensures e in Changed(TWINS, 0, 0) <==> e in {Event(0, 1), Event(0, 2)} {
      assert 1 in TWINS.materials && 2 in TWINS.materials;
      assert TWINS.materials[1].updatedAt == 0 && TWINS.materials[2].updatedAt == 0;
    }
  }

  lemma TwinRows()
    ensures Rows(TWINS, 0, 0) == [Event(0, 1), Event(0, 2)]
  {
    TwinsChanged();
    var rows, expected := Rows(TWINS, 0, 0), [Event(0, 1), Event(0, 2)];
    ChangedOrdered(TWINS, 0, 0);
    assert Members(expected) == {Event(0, 1), Event(0, 2)};
    ListingUnique(rows, expected, Changed(TWINS, 0, 0), Earlier);
  }

  /** The stream's promise is broken on such a library: the second material never arrives. */
  lemma TwinLost(at: nat -> Library, k: nat)
    requires forall i :: at(i) == TWINS
    ensures Event(0, 2) in Changed(TWINS, 0, 0)
    ensures Event(0, 2) !in Watch(at, 0, 1, 0, k).yielded
  {
    TwinsChanged();
    TwinRows();
    assert |{Event(0, 1), Event(0, 2)} - {}| == 2;
    hide Changed, Rows;
    CrowdedLosesLast(at, TWINS, 0, 1, 0, 0, k);
  }
}
