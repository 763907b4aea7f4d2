/**
 The library change stream: a poll of `updatedAt` whose cursor is a millisecond, and
 a set that filters what the cursor's own millisecond has already delivered.
 */
module WatchStream {
  import opened OrderedRows
  import opened MaterialLibrary

  datatype Event = Event(sequence: int, material: Id)

  const MAX_WATCH_BATCH := 256

  function Distance(a: int, b: int): nat {
    if a < b then b - a else a - b
  }

  /** The allowed batch size nearest to what was asked for. */
  function Batch(limit: int): (size: nat)
    ensures 1 <= size <= 256
    ensures forall n :: 1 <= n <= 256 ==> Distance(limit, size) <= Distance(limit, n)
  {
    if limit < 1 then 1 else if limit > MAX_WATCH_BATCH then MAX_WATCH_BATCH else limit
  }

  predicate Earlier(a: Event, b: Event) {
    a.sequence < b.sequence || (a.sequence == b.sequence && a.material < b.material)
  }

  /** The group's materials changed at or after an instant. */
  function Changed(s: Library, group: Id, from: int): set<Event> {
    set m | m in s.materials && s.materials[m].group == group && s.materials[m].updatedAt >= from ::
      Event(s.materials[m].updatedAt, m)
  }

  /** A change event is a material of the group at its own update instant, from the given instant on. */
  lemma ChangedExact(s: Library, group: Id, from: int, e: Event)
    ensures e in Changed(s, group, from) <==> IsChange(s, group, e) && e.sequence >= from
  {
  }

  ghost predicate IsChange(s: Library, group: Id, e: Event) {
    && e.material in s.materials && s.materials[e.material].group == group
    && e.sequence == s.materials[e.material].updatedAt
  }

  lemma ChangedOrdered(s: Library, group: Id, from: int)
    ensures StrictOrder(Changed(s, group, from), Earlier)
  {
  }

  ghost function Rows(s: Library, group: Id, from: int): (rows: seq<Event>)
    ensures Lists(rows, Changed(s, group, from), Earlier) && |rows| == |Changed(s, group, from)|
  {
    ChangedOrdered(s, group, from);
    ListingLists(Changed(s, group, from), Earlier);
    Listing(Changed(s, group, from), Earlier)
  }

  function Take(rows: seq<Event>, n: nat): seq<Event> {
    if |rows| <= n then rows else rows[..n]
  }

  ghost function ReadMaterialEvents(s: Library, group: Id, after: int, limit: int): seq<Event> {
    Take(Rows(s, group, after), Batch(limit))
  }

  // ------------------------------------------------------------------- one stream

  /** A stream's cursor, the materials delivered at it, and everything yielded so far. */
  datatype Stream = Stream(cursor: int, delivered: set<Id>, yielded: seq<Event>)

  function Absorb(st: Stream, e: Event): Stream {
    if e.sequence > st.cursor then Stream(e.sequence, {e.material}, st.yielded + [e])
    else if e.material in st.delivered then st
    else st.(delivered := st.delivered + {e.material}, yielded := st.yielded + [e])
  }

  function AbsorbAll(st: Stream, events: seq<Event>): Stream {
    if events == [] then st else Absorb(AbsorbAll(st, events[..|events| - 1]), events[|events| - 1])
  }

  /** The generator's state, updated event by event. */
  class Watcher {
    var cursor: int
    var deliveredAtCursor: set<Id>
    var yielded: seq<Event>

    function State(): Stream
      reads this
    {
      Stream(cursor, deliveredAtCursor, yielded)
    }

    constructor (afterSequence: int)
      ensures State() == Stream(afterSequence, {}, [])
    {
      cursor, deliveredAtCursor, yielded := afterSequence, {}, [];
    }

    method Deliver(events: seq<Event>)
      modifies this
      ensures State() == AbsorbAll(old(State()), events)
    {
      for i := 0 to |events|
        invariant State() == AbsorbAll(old(State()), events[..i])
      {
        var event := events[i];
        assert events[..i + 1][..i] == events[..i];
        if event.sequence > cursor {
          cursor := event.sequence;
          deliveredAtCursor := {};
        } else if event.material in deliveredAtCursor {
          continue;
        }
        deliveredAtCursor := deliveredAtCursor + {event.material};
        yielded := yielded + [event];
      }
      assert events[..|events|] == events;
    }
  }

  ghost function Poll(st: Stream, s: Library, group: Id, limit: int): Stream {
    AbsorbAll(st, ReadMaterialEvents(s, group, st.cursor, limit))
  }

  /** The stream after `k` polls, the library being `at(i)` when poll `i` reads it. */
  ghost function Watch(at: nat -> Library, group: Id, limit: int, after: int, k: nat): Stream {
    if k == 0 then Stream(after, {}, [])
    else Poll(Watch(at, group, limit, after, k - 1), at(k - 1), group, limit)
  }

  // ---------------------------------------------- whatever the library does meanwhile

  ghost predicate Ascends(events: seq<Event>) {
    forall i, j :: 0 <= i < j < |events| ==> events[i].sequence <= events[j].sequence
  }

  ghost predicate Distinct(events: seq<Event>) {
    forall i, j :: 0 <= i < j < |events| ==> events[i] != events[j]
  }

  /** Nothing repeats or goes back, and the filter holds exactly the cursor's own deliveries. */
  ghost predicate Sound(st: Stream) {
    && Ascends(st.yielded) && Distinct(st.yielded)
    && (forall e :: e in st.yielded ==> e.sequence <= st.cursor)
    && (forall m :: m in st.delivered <==> Event(st.cursor, m) in st.yielded)
  }

  lemma AbsorbSound(st: Stream, e: Event)
    requires Sound(st) && e.sequence >= st.cursor
    ensures Sound(Absorb(st, e)) && Absorb(st, e).cursor == e.sequence
    ensures e in Absorb(st, e).yielded
  {
  }

  lemma {:induction false} AbsorbAllSound(st: Stream, events: seq<Event>)
    requires Sound(st) && Ordered(events, Earlier)
    requires forall i :: 0 <= i < |events| ==> events[i].sequence >= st.cursor
    ensures Sound(AbsorbAll(st, events))
    ensures AbsorbAll(st, events).cursor == if events == [] then st.cursor else events[|events| - 1].sequence
  {
    if events != [] {
      var n := |events| - 1;
      AbsorbAllSound(st, events[..n]);
      assert n > 0 ==> Earlier(events[n - 1], events[n]);
      AbsorbSound(AbsorbAll(st, events[..n]), events[n]);
    }
  }

  lemma ReadOrdered(s: Library, group: Id, after: int, limit: int)
    ensures var events := ReadMaterialEvents(s, group, after, limit);
            Ordered(events, Earlier) && forall i :: 0 <= i < |events| ==> events[i].sequence >= after
  {
    var rows := Rows(s, group, after);
    forall i | 0 <= i < |rows| ensures rows[i].sequence >= after {
      assert rows[i] in Members(rows);
    }
  }

  lemma PollSound(st: Stream, s: Library, group: Id, limit: int)
    requires Sound(st)
    ensures Sound(Poll(st, s, group, limit))
  {
    hide Sound, Ordered, ReadMaterialEvents;
    ReadOrdered(s, group, st.cursor, limit);
    AbsorbAllSound(st, ReadMaterialEvents(s, group, st.cursor, limit));
  }

  /** However the library changes between polls, one stream never goes back and never repeats a delivery. */
  lemma {:induction false} NeverRepeats(at: nat -> Library, group: Id, limit: int, after: int, k: nat)
    ensures Sound(Watch(at, group, limit, after, k))
  {
    assert Sound(Stream(after, {}, []));
    hide Sound, Poll;
    if k > 0 {
      NeverRepeats(at, group, limit, after, k - 1);
      PollSound(Watch(at, group, limit, after, k - 1), at(k - 1), group, limit);
    }
  }

  /** The event is a change of the group's, at or after the first cursor, that some poll read. */
  ghost predicate SeenBy(at: nat -> Library, group: Id, after: int, k: nat, e: Event) {
    e.sequence >= after && exists i: nat :: i < k && IsChange(at(i), group, e)
  }

  lemma {:induction false} AbsorbedFrom(st: Stream, events: seq<Event>, e: Event)
    requires e in AbsorbAll(st, events).yielded
    ensures e in st.yielded || e in events
  {
    if events != [] {
      var n := |events| - 1;
      if e in AbsorbAll(st, events[..n]).yielded {
        AbsorbedFrom(st, events[..n], e);
      } else {
        assert e == events[n];
      }
    }
  }

  lemma ReadChanges(s: Library, group: Id, after: int, limit: int, e: Event)
    requires e in ReadMaterialEvents(s, group, after, limit)
    ensures IsChange(s, group, e) && e.sequence >= after
  {
    var rows := Rows(s, group, after);
    assert e in rows;
    assert e in Members(rows);
    ChangedExact(s, group, after, e);
  }

  lemma {:induction false} AbsorbRaises(st: Stream, events: seq<Event>)
    ensures AbsorbAll(st, events).cursor >= st.cursor
  {
    if events != [] {
      AbsorbRaises(st, events[..|events| - 1]);
    }
  }

  lemma {:induction false} CursorRises(at: nat -> Library, group: Id, limit: int, after: int, k: nat)
    ensures Watch(at, group, limit, after, k).cursor >= after
  {
    if k > 0 {
      CursorRises(at, group, limit, after, k - 1);
      var st := Watch(at, group, limit, after, k - 1);
      AbsorbRaises(st, ReadMaterialEvents(at(k - 1), group, st.cursor, limit));
      hide ReadMaterialEvents;
    }
  }

  /** Whatever a stream yields is a change of its own group's that a poll met, from its first cursor on. */
  lemma {:induction false} YieldsOwnChanges(at: nat -> Library, group: Id, limit: int, after: int, k: nat, e: Event)
    requires e in Watch(at, group, limit, after, k).yielded
    ensures SeenBy(at, group, after, k, e)
  {
    hide ReadMaterialEvents, IsChange;
    var st := Watch(at, group, limit, after, k - 1);
    AbsorbedFrom(st, ReadMaterialEvents(at(k - 1), group, st.cursor, limit), e);
    if e in st.yielded {
      YieldsOwnChanges(at, group, limit, after, k - 1, e);
    } else {
      ReadChanges(at(k - 1), group, st.cursor, limit, e);
      CursorRises(at, group, limit, after, k - 1);
    }
  }
}
