/**
 What a translation proposal can still cause. The early check keeps settled and
 published proposals from a pull request of their own, but not from one asked for by a
 handler that is already past it; the condition under which no further call can follow
 is exact.
 */
module IntegrationProposals {
  import opened Results
  import opened IntegrationJobs

  predicate Concerns(goal: Goal, p: Id) {
    goal.PullRequest? && goal.proposal == p
  }

  /** The step asks the remote service for a pull request of `p`. */
  predicate CallFor(s: Office, e: Event, p: Id) {
    e.Call? && At(s, e.handler).Started? && Concerns(At(s, e.handler).goal, p)
  }

  function CallsFor(s: Office, events: seq<Event>, p: Id): nat
    decreases |events|
  {
    if events == [] then 0
    else (if CallFor(s, events[0], p) then 1 else 0) + CallsFor(Next(s, events[0]), events[1..], p)
  }

  /** The handler is past the check for `p` and can still come to ask. */
  predicate Pursues(s: Office, h: Id, p: Id) {
    match At(s, h)
    case Checked(goal) => Concerns(goal, p)
    case Ready(j, goal) => Concerns(goal, p) && (j in s.jobs ==> s.jobs[j].state == Queued)
    case Started(_, goal) => Concerns(goal, p)
    case _ => false
  }

  ghost predicate Sealed(s: Office, p: Id) {
    p in s.proposals && Closed(s.proposals[p]) && forall h :: !Pursues(s, h, p)
  }

  /** Some continuation asks for `p` at least `n` times. */
  ghost predicate CanCall(s: Office, p: Id, n: nat) {
    exists events :: CallsFor(s, events, p) >= n
  }

  // ------------------------------------------------------------------ sealed for good

  lemma NextClosed(s: Office, e: Event, p: Id)
    requires p in s.proposals && Closed(s.proposals[p])
    ensures p in Next(s, e).proposals && Closed(Next(s, e).proposals[p])
  {
    if Settled(s.proposals[p].status) {
      NextSettled(s, e, p);
    } else {
      NextNames(s, e, p);
    }
    hide Next;
  }

  /** A handler comes to pursue a closed proposal only if it already did. */
  lemma NextPursues(s: Office, e: Event, p: Id, h: Id)
    requires p in s.proposals && Closed(s.proposals[p]) && Pursues(Next(s, e), h, p)
    ensures Pursues(s, h, p)
  {
    hide WithProposal;
  }

  lemma NextSealed(s: Office, e: Event, p: Id)
    requires Sealed(s, p)
    ensures Sealed(Next(s, e), p) && !CallFor(s, e, p)
  {
    NextClosed(s, e, p);
    assert e.Call? ==> !Pursues(s, e.handler, p);
    hide Next, Closed;
    forall h ensures !Pursues(Next(s, e), h, p) {
      if Pursues(Next(s, e), h, p) {
        NextPursues(s, e, p, h);
      }
    }
  }

  lemma {:induction false} SealedForever(s: Office, events: seq<Event>, p: Id)
    requires Sealed(s, p)
    ensures CallsFor(s, events, p) == 0
    decreases |events|
  {
    if events != [] {
      NextSealed(s, events[0], p);
      hide Next, Sealed;
      SealedForever(Next(s, events[0]), events[1..], p);
    }
  }

  // -------------------------------------------------------------- otherwise a call follows

  lemma Before(s: Office, e: Event, p: Id, n: nat)
    requires CanCall(Next(s, e), p, n)
    ensures CanCall(s, p, n + if CallFor(s, e, p) then 1 else 0)
  {
    var events :| CallsFor(Next(s, e), events, p) >= n;
    CallsFirst(s, e, events, p);
  }

  lemma CallsFirst(s: Office, e: Event, rest: seq<Event>, p: Id)
    ensures CallsFor(s, [e] + rest, p) ==
            (if CallFor(s, e, p) then 1 else 0) + CallsFor(Next(s, e), rest, p)
  {
    assert ([e] + rest)[1..] == rest;
  }

  lemma StartedCalls(s: Office, h: Id, p: Id)
    requires At(s, h).Started? && Concerns(At(s, h).goal, p)
    ensures CanCall(s, p, 1)
  {
    CallsFirst(s, Call(h, None), [], p);
  }

  lemma QueuedCalls(s: Office, h: Id, p: Id)
    requires At(s, h).Ready? && Concerns(At(s, h).goal, p)
    requires At(s, h).job in s.jobs && s.jobs[At(s, h).job].state == Queued
    ensures CanCall(s, p, 1)
  {
    StartedCalls(Next(s, Begin(h)), h, p);
    Before(s, Begin(h), p, 1);
  }

  /** A handler waiting on a job that is not there can see it queued by somebody else. */
  lemma UnknownCalls(s: Office, h: Id, p: Id)
    requires At(s, h).Ready? && Concerns(At(s, h).goal, p) && At(s, h).job !in s.jobs
    ensures CanCall(s, p, 1)
  {
    var g, j := h + 1, At(s, h).job;
    var a := Next(s, Crash(g));
    var b := Next(a, Check(g, Issue));
    QueuedCalls(Next(b, Enqueue(g, None, j)), h, p);
    hide Next;
    Before(b, Enqueue(g, None, j), p, 1);
    Before(a, Check(g, Issue), p, 1);
    Before(s, Crash(g), p, 1);
  }

  lemma {:induction false} Bound(ids: set<Id>) returns (b: Id)
    ensures forall i :: i in ids ==> i < b
  {
    b := 0;
    if ids != {} {
      var i :| i in ids;
      var c := Bound(ids - {i});
      assert ids == ids - {i} + {i};
      b := if c <= i then i + 1 else c;
    }
  }

  lemma CheckedCalls(s: Office, h: Id, p: Id)
    requires At(s, h).Checked? && Concerns(At(s, h).goal, p)
    ensures CanCall(s, p, 1)
  {
    var id := Bound(s.jobs.Keys);
    QueuedCalls(Next(s, Enqueue(h, None, id)), h, p);
    Before(s, Enqueue(h, None, id), p, 1);
  }

  lemma OpenCalls(s: Office, p: Id)
    requires p in s.proposals ==> !Closed(s.proposals[p])
    ensures CanCall(s, p, 1)
  {
    var a := Next(s, Crash(0));
    var b := Next(a, Propose(p));
    var goal := PullRequest(p, b.proposals[p].status);
    assert Admits(b, goal) && At(b, 0).Idle?;
    CheckedCalls(Next(b, Check(0, goal)), 0, p);
    hide Next;
    Before(b, Check(0, goal), p, 1);
    Before(a, Propose(p), p, 1);
    Before(s, Crash(0), p, 1);
  }

  /**
   No further call for a proposal can follow, whatever happens, if and only if it is
   settled or published and no handler past its check can still come to ask. In
   particular a run that has asked once can ask again exactly while this fails.
   */
  lemma SealedExactly(s: Office, p: Id)
    ensures (forall events :: CallsFor(s, events, p) == 0) <==> Sealed(s, p)
  {
    if Sealed(s, p) {
      forall events ensures CallsFor(s, events, p) == 0 {
        SealedForever(s, events, p);
      }
    } else {
      NotSealedCalls(s, p);
      var events :| CallsFor(s, events, p) >= 1;
      assert CallsFor(s, events, p) != 0;
    }
  }

  lemma NotSealedCalls(s: Office, p: Id)
    requires !Sealed(s, p)
    ensures CanCall(s, p, 1)
  {
    hide CanCall;
    if p !in s.proposals || !Closed(s.proposals[p]) {
      OpenCalls(s, p);
    } else {
      var h :| Pursues(s, h, p);
      PursuerCalls(s, h, p);
    }
  }

  lemma PursuerCalls(s: Office, h: Id, p: Id)
    requires Pursues(s, h, p)
    ensures CanCall(s, p, 1)
  {
    match At(s, h) {
      case Checked(_) => CheckedCalls(s, h, p);
      case Started(_, _) => StartedCalls(s, h, p);
      case Ready(j, _) =>
        if j in s.jobs {
          QueuedCalls(s, h, p);
        } else {
          UnknownCalls(s, h, p);
        }
    }
  }

  // ----------------------------------------------------------------- at most one call

  /** Both handlers wait for the same job, which only one of them can take. */
  predicate SameJob(s: Office, g: Id, h: Id) {
    At(s, g).Ready? && At(s, h).Ready? && At(s, g).job == At(s, h).job
  }

  /** The proposal is closed, and all that still pursue it compete for one job. */
  ghost predicate Narrow(s: Office, p: Id) {
    && p in s.proposals && Closed(s.proposals[p])
    && forall g, h :: g != h && Pursues(s, g, p) && Pursues(s, h, p) ==> SameJob(s, g, h)
  }

  /** Two that pursue after a step and competed for a job before it still do. */
  lemma NextSameJob(s: Office, e: Event, p: Id, g: Id, h: Id)
    requires g != h && SameJob(s, g, h) && Pursues(Next(s, e), g, p) && Pursues(Next(s, e), h, p)
    ensures SameJob(Next(s, e), g, h)
  {
    hide WithProposal, Admits;
  }

  lemma CallEnds(s: Office, e: Event, p: Id)
    requires CallFor(s, e, p)
    ensures !Pursues(Next(s, e), e.handler, p)
  {
  }

  lemma NextNarrow(s: Office, e: Event, p: Id)
    requires Narrow(s, p)
    ensures Narrow(Next(s, e), p) && (CallFor(s, e, p) ==> Sealed(Next(s, e), p))
  {
    NextClosed(s, e, p);
    if CallFor(s, e, p) {
      CallEnds(s, e, p);
      assert Pursues(s, e.handler, p) && !At(s, e.handler).Ready?;
    }
    hide Next, Closed, CallFor;
    forall h | Pursues(Next(s, e), h, p) ensures Pursues(s, h, p) {
      NextPursues(s, e, p, h);
    }
    forall g, h | g != h && Pursues(Next(s, e), g, p) && Pursues(Next(s, e), h, p) ensures SameJob(Next(s, e), g, h) {
      NextSameJob(s, e, p, g, h);
    }
  }

  lemma {:induction false} NarrowAsksOnce(s: Office, events: seq<Event>, p: Id)
    requires Narrow(s, p)
    ensures CallsFor(s, events, p) <= 1
    decreases |events|
  {
    if events != [] {
      NextNarrow(s, events[0], p);
      hide Next, Narrow, Sealed;
      if CallFor(s, events[0], p) {
        SealedForever(Next(s, events[0]), events[1..], p);
      } else {
        NarrowAsksOnce(Next(s, events[0]), events[1..], p);
      }
    }
  }

  ghost predicate BothPursue(s: Office, g: Id, h: Id, p: Id) {
    g != h && Pursues(s, g, p) && Pursues(s, h, p) && !SameJob(s, g, h)
  }

  lemma StartedBoth(s: Office, g: Id, h: Id, p: Id)
    requires BothPursue(s, g, h, p) && At(s, g).Started?
    ensures CanCall(s, p, 2)
  {
    assert CallFor(s, Call(g, None), p) && Pursues(Next(s, Call(g, None)), h, p);
    hide Next;
    PursuerCalls(Next(s, Call(g, None)), h, p);
    Before(s, Call(g, None), p, 1);
  }

  lemma QueuedBoth(s: Office, g: Id, h: Id, p: Id)
    requires BothPursue(s, g, h, p) && At(s, g).Ready? && At(s, g).job in s.jobs
    ensures CanCall(s, p, 2)
  {
    assert BothPursue(Next(s, Begin(g)), g, h, p) && At(Next(s, Begin(g)), g).Started?;
    hide Next;
    StartedBoth(Next(s, Begin(g)), g, h, p);
    Before(s, Begin(g), p, 2);
  }

  lemma UnknownBoth(s: Office, g: Id, h: Id, p: Id)
    requires BothPursue(s, g, h, p) && At(s, g).Ready? && At(s, g).job !in s.jobs
    ensures CanCall(s, p, 2)
  {
    var k, j := g + h + 1, At(s, g).job;
    var a := Next(s, Crash(k));
    var b := Next(a, Check(k, Issue));
    var c := Next(b, Enqueue(k, None, j));
    assert At(c, g) == At(s, g) && At(c, h) == At(s, h) && c.jobs == s.jobs[j := Job(Queued, None)];
    assert BothPursue(c, g, h, p);
    assert !CallFor(s, Crash(k), p) && !CallFor(a, Check(k, Issue), p) && !CallFor(b, Enqueue(k, None, j), p);
    hide Next, CallFor;
    QueuedBoth(c, g, h, p);
    Before(b, Enqueue(k, None, j), p, 2);
    Before(a, Check(k, Issue), p, 2);
    Before(s, Crash(k), p, 2);
  }

  lemma CheckedBoth(s: Office, g: Id, h: Id, p: Id)
    requires BothPursue(s, g, h, p) && At(s, g).Checked?
    ensures CanCall(s, p, 2)
  {
    var id := Bound(s.jobs.Keys + if At(s, h).Ready? then {At(s, h).job} else {});
    var a := Next(s, Enqueue(g, None, id));
    assert At(a, g).Ready? && At(a, g).job == id && At(a, h) == At(s, h) && a.jobs == s.jobs[id := Job(Queued, None)];
    assert BothPursue(a, g, h, p);
    hide Next;
    QueuedBoth(a, g, h, p);
    Before(s, Enqueue(g, None, id), p, 2);
  }

  lemma OpenTwice(s: Office, p: Id)
    requires p in s.proposals ==> !Closed(s.proposals[p])
    ensures CanCall(s, p, 2)
  {
    var a := Next(s, Crash(0));
    var b := Next(a, Propose(p));
    var goal := PullRequest(p, b.proposals[p].status);
    var c := Next(b, Check(0, goal));
    assert At(b, 0).Idle? && Admits(b, goal);
    assert At(c, 0) == Checked(goal) && c.proposals == b.proposals;
    hide Next;
    CheckedTwice(c, goal);
    Before(b, Check(0, goal), p, 2);
    Before(a, Propose(p), p, 2);
    Before(s, Crash(0), p, 2);
  }

  lemma CheckedTwice(s: Office, goal: Goal)
    requires goal.PullRequest? && At(s, 0) == Checked(goal) && Admits(s, goal)
    ensures CanCall(s, goal.proposal, 2)
  {
    var p := goal.proposal;
    var id := Bound(s.jobs.Keys);
    var a := Next(s, Enqueue(0, None, id));
    var b := Next(a, Begin(0));
    var c := Next(b, Call(0, None));
    assert At(a, 0) == Ready(id, goal) && a.jobs == s.jobs[id := Job(Queued, None)] && a.proposals == s.proposals;
    assert At(b, 0) == Started(id, goal) && b.proposals == s.proposals;
    assert CallFor(b, Call(0, None), p) && c.proposals == s.proposals;
    hide Next;
    OpenCalls(c, p);
    Before(b, Call(0, None), p, 1);
    Before(a, Begin(0), p, 2);
    Before(s, Enqueue(0, None, id), p, 2);
  }

  /**
   At most one further call can follow, whatever happens, if and only if the proposal is
   settled or published and all handlers past its check compete for one and the same job.
   */
  lemma NarrowExactly(s: Office, p: Id)
    ensures (forall events :: CallsFor(s, events, p) <= 1) <==> Narrow(s, p)
  {
    hide CanCall;
    if Narrow(s, p) {
      forall events ensures CallsFor(s, events, p) <= 1 {
        NarrowAsksOnce(s, events, p);
      }
    } else {
      if p !in s.proposals || !Closed(s.proposals[p]) {
        OpenTwice(s, p);
      } else {
        var g, h :| g != h && Pursues(s, g, p) && Pursues(s, h, p) && !SameJob(s, g, h);
        PairCalls(s, g, h, p);
      }
      TwiceIsMore(s, p);
    }
  }

  lemma PairCalls(s: Office, g: Id, h: Id, p: Id)
    requires BothPursue(s, g, h, p)
    ensures CanCall(s, p, 2)
  {
    match At(s, g) {
      case Checked(_) => CheckedBoth(s, g, h, p);
      case Started(_, _) => StartedBoth(s, g, h, p);
      case Ready(j, _) =>
        if j in s.jobs {
          QueuedBoth(s, g, h, p);
        } else {
          UnknownBoth(s, g, h, p);
        }
    }
  }

  lemma TwiceIsMore(s: Office, p: Id)
    requires CanCall(s, p, 2)
    ensures exists events :: CallsFor(s, events, p) > 1
  {
    var events :| CallsFor(s, events, p) >= 2;
    assert CallsFor(s, events, p) > 1;
  }

  /**
   A run from the start keeps to one call for a proposal, however it goes on, if and only
   if it has made none and is narrow, or has made one and is sealed.
   */
  lemma OneCallExactly(done: seq<Event>, p: Id)
    ensures (forall more :: CallsFor(EMPTY, done + more, p) <= 1) <==>
            var calls, s := CallsFor(EMPTY, done, p), Run(EMPTY, done);
            (calls == 0 && Narrow(s, p)) || (calls == 1 && Sealed(s, p))
  {
    var calls, s := CallsFor(EMPTY, done, p), Run(EMPTY, done);
    NarrowExactly(s, p);
    SealedExactly(s, p);
    hide Narrow, Sealed, Run;
    if (calls == 0 && Narrow(s, p)) || (calls == 1 && Sealed(s, p)) {
      forall more ensures CallsFor(EMPTY, done + more, p) <= 1 {
        CallsSplit(EMPTY, done, more, p);
      }
    } else {
      var more := [];
      if calls == 0 {
        more :| CallsFor(s, more, p) > 1;
      } else if calls == 1 {
        more :| CallsFor(s, more, p) != 0;
      }
      CallsSplit(EMPTY, done, more, p);
      assert CallsFor(EMPTY, done + more, p) > 1;
    }
  }

  // ------------------------------------------------------------------------ witnesses

  const DRAFT_GOAL := PullRequest(0, Draft)

  /** A ruling that falls between the check and the call. */
  const OVERTAKEN: seq<Event> := [
    Propose(0), Check(0, DRAFT_GOAL), Enqueue(0, None, 1), Decide(0, Draft, Rejected, None), Begin(0)]

  /** A second request for the same proposal. */
  const AGAIN: seq<Event> := [Check(0, DRAFT_GOAL), Enqueue(0, Some(8), 2), Begin(0), Call(0, Some(6))]

  /** The office after `events[..n]`, and the calls made for proposal 0 until then. */
  ghost predicate Stands(events: seq<Event>, n: nat, s: Office, calls: nat) {
    n <= |events| && Run(EMPTY, events[..n]) == s && CallsFor(EMPTY, events[..n], 0) == calls
  }

  lemma {:induction false} RunLast(s: Office, events: seq<Event>, e: Event)
    ensures Run(s, events + [e]) == Next(Run(s, events), e)
    ensures CallsFor(s, events + [e], 0) ==
            CallsFor(s, events, 0) + if CallFor(Run(s, events), e, 0) then 1 else 0
    decreases |events|
  {
    if events == [] {
      assert events + [e] == [e] && [e][1..] == [];
      assert Run(Next(s, e), []) == Next(s, e) && CallsFor(Next(s, e), [], 0) == 0;
    } else {
      assert (events + [e])[1..] == events[1..] + [e];
      RunLast(Next(s, events[0]), events[1..], e);
    }
  }

  lemma OneOn(events: seq<Event>, n: nat, s: Office, calls: nat)
    requires Stands(events, n, s, calls) && n < |events|
    ensures Stands(events, n + 1, Next(s, events[n]), calls + if CallFor(s, events[n], 0) then 1 else 0)
  {
    assert events[..n + 1] == events[..n] + [events[n]];
    RunLast(EMPTY, events[..n], events[n]);
  }

  /** Up to the recorded success the two runs that open a pull request agree. */
  const OPENING: seq<Event> := [
    Propose(0), Check(0, DRAFT_GOAL), Enqueue(0, Some(7), 1), Begin(0), Call(0, Some(5)), Succeed(0)]

  const OPENED := Office(
    map[1 := Job(Succeeded, Some(Opened(5)))], map[7 := 1], map[0 := Proposal(Draft, None, 1)],
    map[0 := Recorded(1, DRAFT_GOAL, 5)], [1], [])

  const READY := Office(
    map[1 := Job(Queued, None)], map[7 := 1], map[0 := Proposal(Draft, None, 1)],
    map[0 := Ready(1, DRAFT_GOAL)], [], [])

  lemma ReadyStands()
    ensures Stands(OPENING, 3, READY, 0)
  {
    var a := Office(map[], map[], map[0 := Proposal(Draft, None, 1)], map[], [], []);
    var b := a.(handlers := map[0 := Checked(DRAFT_GOAL)]);
    assert Next(EMPTY, OPENING[0]) == a;
    assert Next(a, OPENING[1]) == b;
    assert Next(b, OPENING[2]) == READY;
    assert Stands(OPENING, 0, EMPTY, 0);
    hide Next, Stands;
    OneOn(OPENING, 0, EMPTY, 0);
    OneOn(OPENING, 1, a, 0);
    OneOn(OPENING, 2, b, 0);
  }

  const STARTED := READY.(jobs := map[1 := Job(Running, None)], handlers := map[0 := Started(1, DRAFT_GOAL)])
  const ANSWERED := STARTED.(handlers := map[0 := Answered(1, DRAFT_GOAL, 5)], calls := [1])

  lemma StartStep()
    ensures Next(READY, Begin(0)) == STARTED && !CallFor(READY, Begin(0), 0)
  {
  }

  lemma CallStep()
    ensures Next(STARTED, Call(0, Some(5))) == ANSWERED && CallFor(STARTED, Call(0, Some(5)), 0)
  {
  }

  lemma SucceedStep()
    ensures Next(ANSWERED, Succeed(0)) == OPENED && !CallFor(ANSWERED, Succeed(0), 0)
  {
  }

  lemma OpeningStands()
    ensures Stands(OPENING, 6, OPENED, 1)
  {
    hide Next, Stands, CallFor;
    StartStep();
    CallStep();
    SucceedStep();
    ReadyStands();
    OneOn(OPENING, 3, READY, 0);
    OneOn(OPENING, 4, STARTED, 0);
    OneOn(OPENING, 5, ANSWERED, 1);
  }

  /** A request that succeeded and published gets its record never again: every retry is refused for good. */
  lemma PublishedRetryRefused(events: seq<Event>, h: Id, from: Status, id: Id)
    requires At(Run(Run(EMPTY, OPENING + [Publish(0)]), events), h).Idle?
    ensures var s := Run(EMPTY, OPENING + [Publish(0)]);
            && 7 in s.receipts && Says(s, s.receipts[7], 5) && Answer(1, 5) in s.answers
            && var t := Run(s, events);
               Next(Next(t, Check(h, PullRequest(0, from))), Enqueue(h, Some(7), id)) == t
  {
    OpeningStands();
    assert OPENING[..6] == OPENING;
    RunLast(EMPTY, OPENING, Publish(0));
    var s := Next(OPENED, Publish(0));
    assert s == Office(OPENED.jobs, OPENED.receipts, map[0 := Proposal(Proposed, Some(5), 2)], map[0 := Idle], [1],
                       [Answer(1, 5)]);
    hide Next;
    PublishedRefused(s, events, 0, from, h, Some(7), id);
  }

  lemma {:induction false} CallsSplit(s: Office, first: seq<Event>, second: seq<Event>, p: Id)
    ensures CallsFor(s, first + second, p) == CallsFor(s, first, p) + CallsFor(Run(s, first), second, p)
    decreases |first|
  {
    if first == [] {
      assert first + second == second;
    } else {
      assert (first + second)[1..] == first[1..] + second;
      CallsSplit(Next(s, first[0]), first[1..], second, p);
    }
  }

  lemma StartedAsks(s: Office)
    requires At(s, 0) == Started(2, DRAFT_GOAL)
    ensures CallsFor(s, [Call(0, Some(6))], 0) == 1
  {
    CallsFirst(s, Call(0, Some(6)), [], 0);
  }

  lemma ReadyAsks(s: Office)
    requires At(s, 0) == Ready(2, DRAFT_GOAL) && 2 in s.jobs && s.jobs[2].state == Queued
    ensures CallsFor(s, [Begin(0), Call(0, Some(6))], 0) == 1
  {
    StartedAsks(Next(s, Begin(0)));
    CallsFirst(s, Begin(0), [Call(0, Some(6))], 0);
  }

  lemma CheckedAsks(s: Office)
    requires At(s, 0) == Checked(DRAFT_GOAL) && 8 !in s.receipts && 2 !in s.jobs
    ensures CallsFor(s, [Enqueue(0, Some(8), 2), Begin(0), Call(0, Some(6))], 0) == 1
  {
    ReadyAsks(Next(s, Enqueue(0, Some(8), 2)));
    CallsFirst(s, Enqueue(0, Some(8), 2), [Begin(0), Call(0, Some(6))], 0);
  }

  /** A new request for an open draft, served by a handler that is free, asks once. */
  lemma AgainAsks(s: Office)
    requires At(s, 0).Idle? && Admits(s, DRAFT_GOAL) && 8 !in s.receipts && 2 !in s.jobs
    ensures CallsFor(s, AGAIN, 0) == 1
  {
    CheckedAsks(Next(s, Check(0, DRAFT_GOAL)));
    CallsFirst(s, Check(0, DRAFT_GOAL), [Enqueue(0, Some(8), 2), Begin(0), Call(0, Some(6))], 0);
  }

  /** A handler that stops between success and publication leaves the proposal open to a second call. */
  lemma CrashAsksTwice()
    ensures CallsFor(EMPTY, OPENING + [Crash(0)] + AGAIN, 0) == 2
  {
    OpeningStands();
    assert OPENING[..6] == OPENING;
    RunLast(EMPTY, OPENING, Crash(0));
    var s := Next(OPENED, Crash(0));
    assert s == OPENED.(handlers := map[0 := Idle]);
    CallsSplit(EMPTY, OPENING + [Crash(0)], AGAIN, 0);
    hide Next, Stands, CallsFor;
    AgainAsks(s);
  }

  /** A ruling between the check and the call does not stop the call: a rejected proposal gets a pull request. */
  lemma RejectedStillAsked()
    ensures var s := Run(EMPTY, OVERTAKEN);
            && 0 in s.proposals && s.proposals[0].status == Rejected && CallFor(s, Call(0, Some(5)), 0)
  {
    var draft := map[0 := Proposal(Draft, None, 1)];
    var a := Office(map[], map[], draft, map[], [], []);
    var b := a.(handlers := map[0 := Checked(DRAFT_GOAL)]);
    var c := b.(jobs := map[1 := Job(Queued, None)], handlers := map[0 := Ready(1, DRAFT_GOAL)]);
    var d := c.(proposals := map[0 := Proposal(Rejected, None, 2)]);
    var e := d.(jobs := map[1 := Job(Running, None)], handlers := map[0 := Started(1, DRAFT_GOAL)]);
    assert Next(EMPTY, OVERTAKEN[0]) == a;
    assert Next(a, OVERTAKEN[1]) == b;
    assert Next(b, OVERTAKEN[2]) == c;
    assert Next(c, OVERTAKEN[3]) == d;
    assert Next(d, OVERTAKEN[4]) == e;
    assert Stands(OVERTAKEN, 0, EMPTY, 0) && OVERTAKEN[..5] == OVERTAKEN;
    hide Next;
    OneOn(OVERTAKEN, 0, EMPTY, 0);
    OneOn(OVERTAKEN, 1, a, 0);
    OneOn(OVERTAKEN, 2, b, 0);
    OneOn(OVERTAKEN, 3, c, 0);
    OneOn(OVERTAKEN, 4, d, 0);
  }
}
