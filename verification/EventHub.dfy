/**
 The bridge's event hub: publishing pushes onto each subscriber's queue and wakes it
 if it is parked. The host is single-threaded, so a stream's code between two
 suspensions is one step, and the methods here are those steps in any order.
 */
module EventHub {
  import opened Results

  type Mount = nat

  datatype Event = Event(mount: Mount, id: nat)

  /** Before its first step; suspended at a yield; parked; woken but not yet resumed; ended. */
  datatype Phase = Created | Yielding | Parked | Woken | Ended

  /** No mounts means every mount. */
  predicate Matches(filter: set<Mount>, e: Event) {
    filter == {} || e.mount in filter
  }

  function Matching(filter: set<Mount>, events: seq<Event>): seq<Event> {
    if events == [] then []
    else
      var last := events[|events| - 1];
      Matching(filter, events[..|events| - 1]) + if Matches(filter, last) then [last] else []
  }

  /** A stream with no mounts hears everything; any other hears each wanted event as often as it was published. */
  lemma {:induction false} MatchingExact(filter: set<Mount>, events: seq<Event>, e: Event)
    ensures multiset(Matching(filter, events))[e]
            == if filter == {} || e.mount in filter then multiset(events)[e] else 0
    ensures filter == {} ==> Matching(filter, events) == events
  {
    if events != [] {
      var front, last := events[..|events| - 1], events[|events| - 1];
      MatchingExact(filter, front, e);
      assert events == front + [last];
    }
  }

  /** What is heard of two stretches is what is heard of the first, then what is heard of the second. */
  lemma {:induction false} MatchingInOrder(filter: set<Mount>, first: seq<Event>, second: seq<Event>)
    ensures Matching(filter, first + second) == Matching(filter, first) + Matching(filter, second)
  {
    if second == [] {
      assert first + second == first;
    } else {
      var n := |second| - 1;
      MatchingInOrder(filter, first, second[..n]);
      assert (first + second)[..|first| + n] == first + second[..n];
    }
  }

  lemma MatchingNext(filter: set<Mount>, log: seq<Event>, since: nat, e: Event)
    requires since <= |log|
    ensures Matching(filter, (log + [e])[since..]) ==
            Matching(filter, log[since..]) + if Matches(filter, e) then [e] else []
  {
    assert (log + [e])[since..] == log[since..] + [e];
    assert (log[since..] + [e])[..|log| - since] == log[since..];
  }

  class Subscription {
    const filter: set<Mount>
    var queue: seq<Event>
    var phase: Phase
    var aborted: bool
    var returning: bool     // the consumer stopped while a step was still pending
    var yielded: seq<Event>
    ghost var since: nat    // how many events the hub had published when the stream registered

    constructor (filter: set<Mount>)
      ensures this.filter == filter && queue == [] && phase == Created && yielded == [] && since == 0
      ensures !aborted && !returning
    {
      this.filter, queue, phase, aborted, returning := filter, [], Created, false, false;
      yielded, since := [], 0;
    }

    method Deliver(e: Event, ghost log: seq<Event>, ghost closed: bool)
      requires Live(this) && Sound(this, log, closed)
      modifies this`queue, this`phase
      ensures Live(this) && Sound(this, log + [e], closed)
      ensures filter == {} || e.mount in filter ==> phase != Parked
    {
      MatchingNext(filter, log, since, e);
      if Matches(filter, e) {
        queue := queue + [e];
        Wake(log, closed);
      }
    }

    /** Resumes the stream if it is parked; otherwise there is nothing to resume. */
    method Wake(ghost log: seq<Event>, ghost closed: bool)
      modifies this`phase
      ensures phase == if old(phase) == Parked then Woken else old(phase)
      ensures old(Sound(this, log, closed)) ==> Sound(this, log, closed)
    {
      if phase == Parked {
        phase := Woken;
      }
    }

    /**
     One turn of a registered stream: end, yield the next event, or park. A return that
     was asked for meanwhile takes effect at the yield.
     */
    method Turn(closed: bool, ghost log: seq<Event>) returns (event: Option<Event>)
      requires Sound(this, log, closed) && (phase == Yielding || phase == Woken)
      modifies this`phase, this`queue, this`yielded
      ensures Sound(this, log, closed)
      ensures event == if !aborted && !closed && old(queue) != [] then Some(old(queue)[0]) else None
      ensures yielded == old(yielded) + if event.Some? then [event.value] else []
      ensures phase == if aborted || closed then Ended
                       else if event.None? then Parked
                       else if returning then Ended else Yielding
    {
      if aborted || closed {
        phase := Ended;
        return None;
      }
      if queue != [] {
        event := Some(queue[0]);
        yielded, queue := yielded + [queue[0]], queue[1..];
        phase := if returning then Ended else Yielding;
        return;
      }
      phase := Parked;
      return None;
    }

    /** The consumer stops: at once if the stream is suspended at a yield or never began, else at its next yield. */
    method Stop(ghost log: seq<Event>, ghost closed: bool)
      requires Sound(this, log, closed)
      modifies this`phase, this`returning
      ensures Sound(this, log, closed)
      ensures phase == if old(phase) == Created || old(phase) == Yielding then Ended else old(phase)
      ensures returning == (old(returning) || old(phase) == Parked || old(phase) == Woken)
    {
      if phase == Parked || phase == Woken {
        returning := true;
      } else {
        phase := Ended;
      }
    }
  }

  predicate Live(s: Subscription)
    reads s
  {
    s.phase == Yielding || s.phase == Parked || s.phase == Woken
  }

  /** Against what was published: nothing missing, nothing twice, in order; and no stream parked that should run. */
  ghost predicate Sound(s: Subscription, log: seq<Event>, closed: bool)
    reads s
  {
    && s.since <= |log|
    && (s.phase == Created ==> s.queue == [] && s.yielded == [])
    && (Live(s) ==> s.yielded + s.queue == Matching(s.filter, log[s.since..]))
    && (s.phase == Ended ==> s.yielded <= Matching(s.filter, log[s.since..]))
    && (s.phase == Parked ==> s.queue == [] && !s.aborted && !closed)
  }

  lemma StillSound(s: Subscription, log: seq<Event>, closed: bool, e: Event)
    requires Sound(s, log, closed) && !Live(s)
    ensures Sound(s, log + [e], closed)
  {
    MatchingNext(s.filter, log, s.since, e);
  }

  lemma ClosedSound(s: Subscription, log: seq<Event>, closed: bool)
    requires Sound(s, log, closed) && s.phase != Parked
    ensures Sound(s, log, true)
  {
  }

  ghost predicate Heard(s: Subscription, log: seq<Event>, closed: bool, e: Event)
    reads s
  {
    Live(s) && Sound(s, log, closed) && (s.filter == {} || e.mount in s.filter ==> s.phase != Parked)
  }

  class Hub {
    var subscribers: set<Subscription>
    var closed: bool
    ghost var log: seq<Event>
    ghost var streams: set<Subscription>

    ghost predicate Valid()
      reads this, streams
    {
      && subscribers <= streams
      && forall s :: s in streams ==> Sound(s, log, closed) && (s in subscribers <==> Live(s))
    }

    constructor ()
      ensures Valid() && fresh(this) && log == [] && !closed && streams == {}
    {
      subscribers, closed, log, streams := {}, false, [], {};
    }

    /** Asking for a stream registers nothing; its first step does. */
    method Subscribe(filter: set<Mount>) returns (s: Subscription)
      requires Valid()
      modifies this`streams
      ensures Valid() && fresh(s) && streams == old(streams) + {s}
      ensures s.filter == filter && s.phase == Created && s.yielded == []
    {
      s := new Subscription(filter);
      streams := streams + {s};
    }

    /** Every live stream hears the event, in the order of publication, and none stays parked over one it wants. */
    method Publish(e: Event)
      requires Valid()
      modifies this`log, subscribers
      ensures Valid() && log == old(log) + [e]
      ensures forall s :: s in subscribers && (s.filter == {} || e.mount in s.filter) ==> s.phase != Parked
    {
      forall s | s in streams - subscribers ensures Sound(s, log + [e], closed) {
        StillSound(s, log, closed, e);
      }
      DeliverAll(e);
      hide Sound;
      log := log + [e];
    }

    method DeliverAll(e: Event)
      requires Valid()
      modifies subscribers
      ensures forall s :: s in subscribers ==> Heard(s, log + [e], closed, e)
    {
      var pending := subscribers;
      hide Sound;
      while pending != {}
        invariant pending <= subscribers
        invariant forall s :: s in pending ==> Live(s) && Sound(s, log, closed)
        invariant forall s :: s in subscribers && s !in pending ==> Heard(s, log + [e], closed, e)
        decreases |pending|
      {
        var s :| s in pending;
        s.Deliver(e, log, closed);
        pending := pending - {s};
      }
    }

    /** Wakes every stream; each ends at its next step. */
    method Close()
      requires Valid()
      modifies this`closed, subscribers
      ensures Valid() && closed
      ensures forall s :: s in subscribers ==> s.phase != Parked
    {
      WakeAll();
      forall s | s in streams ensures Sound(s, log, true) {
        ClosedSound(s, log, closed);
      }
      hide Sound;
      closed := true;
    }

    method WakeAll()
      requires Valid()
      modifies subscribers
      ensures Valid()
      ensures forall s :: s in streams ==> s.phase != Parked
    {
      var pending := subscribers;
      hide Sound;
      while pending != {}
        invariant pending <= subscribers && Valid()
        invariant forall s :: s in subscribers && s !in pending ==> s.phase != Parked
        decreases |pending|
      {
        var s :| s in pending;
        s.Wake(log, closed);
        pending := pending - {s};
      }
    }

    /** The client goes away. */
    method Abort(s: Subscription)
      requires Valid() && s in streams
      modifies s`aborted, s`phase
      ensures Valid() && s.aborted && s.phase != Parked
    {
      s.Wake(log, closed);
      s.aborted := true;
    }

    /** A step of a stream that may run; the first one registers it. */
    method Advance(s: Subscription) returns (event: Option<Event>)
      requires Valid() && s in streams && (s.phase == Created || s.phase == Yielding || s.phase == Woken)
      modifies this`subscribers, s`phase, s`queue, s`yielded, s`since
      ensures Valid()
      ensures s.yielded == old(s.yielded) + if event.Some? then [event.value] else []
      ensures event == if !s.aborted && !closed && old(s.queue) != [] then Some(old(s.queue)[0]) else None
      ensures s.phase == if s.aborted || closed then Ended
                         else if event.None? then Parked
                         else if s.returning then Ended else Yielding
    {
      if s.phase == Created {
        Register(s);
      }
      hide Sound;
      event := s.Turn(closed, log);
      if s.phase == Ended {
        subscribers := subscribers - {s};
      }
    }

    method Register(s: Subscription)
      requires Valid() && s in streams && s.phase == Created
      modifies this`subscribers, s`since, s`phase
      ensures Valid() && s in subscribers && s.phase == Woken && s.since == |log|
    {
      subscribers := subscribers + {s};
      s.since := |log|;
      s.phase := Woken;
    }

    /** The consumer stops iterating; a parked stream is neither woken nor lost, and ends with its next event. */
    method Return(s: Subscription)
      requires Valid() && s in streams
      modifies this`subscribers, s`phase, s`returning
      ensures Valid()
      ensures s.phase == if old(s.phase) == Created || old(s.phase) == Yielding then Ended else old(s.phase)
      ensures Live(s) ==> s.returning
      ensures s in subscribers <==> Live(s)
    {
      hide Sound;
      s.Stop(log, closed);
      if s.phase == Ended {
        subscribers := subscribers - {s};
      }
    }
  }
}
