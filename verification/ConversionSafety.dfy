/**
 What holds of the conversion queue over whole runs, whatever the interleaving of
 workers, lease expiries, lost replies and crashes.
 */
module ConversionSafety {
  import opened Results
  import opened ConversionQueue

  lemma {:induction false} RunSound(s: Queue, events: seq<Event>)
    requires Sound(s)
    ensures Sound(Run(s, events))
    decreases |events|
  {
    hide Sound;
    if events != [] {
      NextSound(s, events[0]);
      RunSound(Next(s, events[0]), events[1..]);
    }
  }

  /**
   Fencing and crash safety in every reachable state: no two claims are of the same
   attempt, no claim takes effect twice, no two workers hold the same one; and a
   completed job has a rendition whose object is in the bucket.
   */
  lemma ReachableSound(maxAttempts: nat, events: seq<Event>)
    requires maxAttempts >= 1
    ensures var s := Run(Start(maxAttempts), events);
            && Distinct(s.claims) && Distinct(s.effects) && (forall t :: t in s.effects ==> t in s.claims)
            && (forall v, w :: v != w && At(s, v).Busy? && At(s, w).Busy? ==> At(s, v).token != At(s, w).token)
            && (forall j :: j in s.jobs && s.jobs[j].state == Completed ==>
                  s.jobs[j].Target() in s.renditions && s.renditions[s.jobs[j].Target()] in s.bucket)
            && (forall t :: t in s.renditions ==> s.renditions[t] in s.bucket)
            && (forall j :: j in s.jobs && s.jobs[j].state == Pending ==> s.jobs[j].attempt < s.maxAttempts)
  {
    StartSound(maxAttempts);
    RunSound(Start(maxAttempts), events);
    hide Run;
    var s := Run(Start(maxAttempts), events);
    assert forall j :: j in s.jobs ==> RowSound(s, s.jobs[j]);
  }

  // ---------------------------------------------------------------------- stale claims

  /** A granted claim that lost its fence never regains it. */
  lemma NextStaysStale(s: Queue, e: Event, token: Token)
    requires Sound(s) && token in s.claims && !Current(s.jobs, token)
    ensures token in Next(s, e).claims && !Current(Next(s, e).jobs, token)
  {
  }

  lemma {:induction false} RunStaysStale(s: Queue, events: seq<Event>, token: Token)
    requires Sound(s) && token in s.claims && !Current(s.jobs, token)
    ensures token in Run(s, events).claims && !Current(Run(s, events).jobs, token)
    decreases |events|
  {
    if events != [] {
      NextStaysStale(s, events[0], token);
      NextSound(s, events[0]);
      hide Sound, Next, Current;
      RunStaysStale(Next(s, events[0]), events[1..], token);
    }
  }

  ghost predicate WrittenBy(e: Event, w: Id) {
    match e
    case Download(v) => v == w
    case Render(v) => v == w
    case Upload(v, _, _) => v == w
    case Complete(v, _) => v == w
    case Refuse(v) => v == w
    case Throw(v) => v == w
    case Fail(v) => v == w
    case Crash(v) => v == w
    case _ => false
  }

  /**
   Once another worker has claimed the job, the first one changes nothing any more:
   whatever happens in between, no later step of its pass touches a job or a rendition.
   */
  lemma ReclaimedWritesNothing(s: Queue, w: Id, other: Id, now: int, until: int, events: seq<Event>, e: Event)
    requires Sound(s) && At(s, w).Busy? && other != w && At(s, other).Idle?
    requires var j := At(s, w).token.job; j in s.jobs && Claimable(s.jobs[j], s.maxAttempts, now)
    requires var t := Run(Next(s, Claim(other, At(s, w).token.job, now, until)), events);
             At(t, w).Busy? && At(t, w).token == At(s, w).token && WrittenBy(e, w)
    ensures var t := Run(Next(s, Claim(other, At(s, w).token.job, now, until)), events);
            Next(t, e).jobs == t.jobs && Next(t, e).renditions == t.renditions && Next(t, e).effects == t.effects
  {
    var token := At(s, w).token;
    var claimed := Next(s, Claim(other, token.job, now, until));
    NextSound(s, Claim(other, token.job, now, until));
    assert token in s.claims && token in claimed.claims && !Current(claimed.jobs, token);
    hide Sound, Run;
    RunStaysStale(claimed, events, token);
    StaleWritesNothing(Run(claimed, events), w, e);
  }

  lemma StaleWritesNothing(t: Queue, w: Id, e: Event)
    requires At(t, w).Busy? && !Current(t.jobs, At(t, w).token) && WrittenBy(e, w)
    ensures Next(t, e).jobs == t.jobs && Next(t, e).renditions == t.renditions && Next(t, e).effects == t.effects
  {
  }

  // ------------------------------------------------------------------- terminal states

  lemma NextTerminal(s: Queue, e: Event, j: Id)
    requires Sound(s) && j in s.drawn
    requires j in s.jobs ==> s.jobs[j].state == Completed || s.jobs[j].state == Failed
    ensures j in Next(s, e).drawn
    ensures j in Next(s, e).jobs ==> j in s.jobs && Next(s, e).jobs[j] == s.jobs[j]
  {
  }

  /** Completed and failed jobs keep their row unchanged for as long as it exists, and their id never returns. */
  lemma {:induction false} TerminalForever(s: Queue, events: seq<Event>, j: Id)
    requires Sound(s) && j in s.drawn
    requires j in s.jobs ==> s.jobs[j].state == Completed || s.jobs[j].state == Failed
    ensures j in Run(s, events).jobs ==> j in s.jobs && Run(s, events).jobs[j] == s.jobs[j]
    decreases |events|
  {
    if events != [] {
      NextTerminal(s, events[0], j);
      NextSound(s, events[0]);
      hide Sound, Next;
      TerminalForever(Next(s, events[0]), events[1..], j);
    }
  }

  // -------------------------------------------------------------------------- measure

  /** The attempts a job can still be granted, one token each. */
  ghost function TokensLeft(j: Id, attempt: nat, maxAttempts: nat): set<Token>
    decreases maxAttempts - attempt
  {
    if attempt >= maxAttempts then {} else TokensLeft(j, attempt + 1, maxAttempts) + {Token(j, attempt + 1)}
  }

  lemma {:induction false} TokensLeftExact(j: Id, attempt: nat, maxAttempts: nat)
    ensures forall t :: t in TokensLeft(j, attempt, maxAttempts) <==> t.job == j && attempt < t.attempt <= maxAttempts
    ensures |TokensLeft(j, attempt, maxAttempts)| == AttemptsLeft(attempt, maxAttempts)
    decreases maxAttempts - attempt
  {
    if attempt < maxAttempts {
      TokensLeftExact(j, attempt + 1, maxAttempts);
    }
  }

  function AttemptsLeft(attempt: nat, maxAttempts: nat): nat {
    if attempt < maxAttempts then maxAttempts - attempt else 0
  }

  ghost function Unspent(s: Queue): set<Token> {
    set j, t | j in s.jobs && t in TokensLeft(j, s.jobs[j].attempt, s.maxAttempts) :: t
  }

  lemma UnspentExact(s: Queue, t: Token)
    ensures t in Unspent(s) <==> t.job in s.jobs && s.jobs[t.job].attempt < t.attempt <= s.maxAttempts
  {
    forall j | j in s.jobs
      ensures t in TokensLeft(j, s.jobs[j].attempt, s.maxAttempts)
              <==> t.job == j && s.jobs[j].attempt < t.attempt <= s.maxAttempts
    {
      TokensLeftExact(j, s.jobs[j].attempt, s.maxAttempts);
    }
  }

  /** The sum, over jobs, of the attempts left to each. */
  ghost function TotalLeft(jobs: map<Id, Job>, maxAttempts: nat): nat
    decreases |jobs|
  {
    if jobs == map[] then 0
    else
      var j :| j in jobs;
      AttemptsLeft(jobs[j].attempt, maxAttempts) + TotalLeft(jobs - {j}, maxAttempts)
  }

  lemma {:induction false} UnspentCounts(s: Queue)
    ensures |Unspent(s)| == TotalLeft(s.jobs, s.maxAttempts)
    decreases |s.jobs|
  {
    if s.jobs != map[] {
      var j :| j in s.jobs && TotalLeft(s.jobs, s.maxAttempts) ==
                              AttemptsLeft(s.jobs[j].attempt, s.maxAttempts) + TotalLeft(s.jobs - {j}, s.maxAttempts);
      var rest := s.(jobs := s.jobs - {j});
      UnspentCounts(rest);
      var own := TokensLeft(j, s.jobs[j].attempt, s.maxAttempts);
      TokensLeftExact(j, s.jobs[j].attempt, s.maxAttempts);
      forall t ensures t in Unspent(s) <==> t in Unspent(rest) || t in own {
        UnspentExact(s, t);
        UnspentExact(rest, t);
      }
      forall t | t in own ensures t !in Unspent(rest) {
        UnspentExact(rest, t);
      }
      assert Unspent(s) == Unspent(rest) + own && Unspent(rest) !! own;
    }
  }

  /** Each claim spends its own token; nothing but a new job adds any. */
  lemma NextSpends(s: Queue, e: Event)
    requires !e.Enqueue?
    ensures var t := Next(s, e);
            && Unspent(t) <= Unspent(s)
            && (t.claims != s.claims ==> |t.claims| == |s.claims| + 1
                                         && t.claims[|s.claims|] in Unspent(s) && t.claims[|s.claims|] !in Unspent(t))
  {
    var t := Next(s, e);
    forall x ensures x in Unspent(t) ==> x in Unspent(s) {
      UnspentExact(s, x);
      UnspentExact(t, x);
    }
    if t.claims != s.claims {
      UnspentExact(s, t.claims[|s.claims|]);
      UnspentExact(t, t.claims[|s.claims|]);
    }
  }

  ghost predicate NoneEnqueued(events: seq<Event>) {
    forall i :: 0 <= i < |events| ==> !events[i].Enqueue?
  }

  lemma {:induction false} ClaimsBounded(s: Queue, events: seq<Event>)
    requires NoneEnqueued(events)
    ensures |Run(s, events).claims| - |s.claims| <= |Unspent(s)| - |Unspent(Run(s, events))|
    decreases |events|
  {
    hide Unspent;
    if events != [] {
      var t := Next(s, events[0]);
      NextSpends(s, events[0]);
      hide Next, Unspent;
      ClaimsBounded(t, events[1..]);
      if t.claims != s.claims {
        Fewer(Unspent(t), Unspent(s), t.claims[|s.claims|]);
      } else {
        NoMore(Unspent(t), Unspent(s));
      }
    }
  }

  /** With no new jobs, the claims a run is granted are at most the sum of the attempts left at its start. */
  lemma PassesBounded(s: Queue, events: seq<Event>)
    requires NoneEnqueued(events)
    ensures |Run(s, events).claims| - |s.claims| <= TotalLeft(s.jobs, s.maxAttempts)
  {
    hide Unspent, Run;
    ClaimsBounded(s, events);
    UnspentCounts(s);
  }

  lemma Fewer(a: set<Token>, b: set<Token>, x: Token)
    requires a <= b && x in b && x !in a
    ensures |a| < |b|
  {
    NoMore(a, b - {x});
  }

  lemma {:induction false} NoMore(a: set<Token>, b: set<Token>)
    requires a <= b
    ensures |a| <= |b|
  {
    assert b == a + (b - a);
  }

  // ------------------------------------------------------------ jobs left running for good

  /** Running on the last attempt with nobody holding it. */
  ghost predicate Abandoned(s: Queue, j: Id) {
    && j in s.jobs && s.jobs[j].state == Running && s.jobs[j].attempt == s.maxAttempts
    && forall w :: At(s, w).Busy? ==> At(s, w).token != Token(j, s.maxAttempts)
  }

  lemma NextAbandoned(s: Queue, e: Event, j: Id)
    requires Sound(s) && Abandoned(s, j) && j in Next(s, e).jobs
    ensures Abandoned(Next(s, e), j) && Next(s, e).jobs[j] == s.jobs[j]
  {
    hide Claims, Effects, Workers, Stored, RowSound;
    var t := Next(s, e);
    forall w | At(t, w).Busy? ensures At(t, w).token != Token(j, s.maxAttempts) {
      assert At(s, w).Busy? ==> At(s, w).token != Token(j, s.maxAttempts);
    }
  }

  /** A worker that dies on the last attempt leaves its job running until the version is purged. */
  lemma {:induction false} AbandonedForever(s: Queue, events: seq<Event>, j: Id)
    requires Sound(s) && Abandoned(s, j)
    ensures j in Run(s, events).jobs ==> Run(s, events).jobs[j] == s.jobs[j]
    decreases |events|
  {
    if events != [] {
      var t := Next(s, events[0]);
      NextSound(s, events[0]);
      if j in t.jobs {
        NextAbandoned(s, events[0], j);
        hide Sound, Next, Abandoned;
        AbandonedForever(t, events[1..], j);
      } else {
        assert j in s.drawn && j in t.drawn;
        hide Next;
        TerminalForever(t, events[1..], j);
      }
    }
  }

  predicate Closed(job: Job) {
    job.state == Completed || job.state == Failed
  }

  ghost predicate SettlesBy(s: Queue, j: Id, events: seq<Event>) {
    j in Run(s, events).jobs && Closed(Run(s, events).jobs[j])
  }

  /** While attempts are left some worker can claim the job and be refused. */
  lemma ClaimSettles(s: Queue, j: Id) returns (events: seq<Event>)
    requires Sound(s) && j in s.jobs && !Closed(s.jobs[j]) && s.jobs[j].attempt < s.maxAttempts
    ensures SettlesBy(s, j, events)
  {
    var now := s.jobs[j].lease.GetOr(0);
    var a := Next(s, Crash(0));
    var b := Next(a, Claim(0, j, now, 0));
    var c := Next(b, Refuse(0));
    var d := Next(c, Fail(0));
    events := [Crash(0), Claim(0, j, now, 0), Refuse(0), Fail(0)];
    assert At(b, 0) == Busy(Token(j, s.jobs[j].attempt + 1), Claimed);
    assert At(c, 0) == Busy(Token(j, s.jobs[j].attempt + 1), Failing(true));
    assert j in d.jobs && Closed(d.jobs[j]);
    hide Next;
    RunFirst(s, Crash(0), [Claim(0, j, now, 0), Refuse(0), Fail(0)]);
    RunFirst(a, Claim(0, j, now, 0), [Refuse(0), Fail(0)]);
    RunFirst(b, Refuse(0), [Fail(0)]);
    RunFirst(c, Fail(0), []);
  }

  /** The worker that holds the last attempt can give up. */
  lemma HolderSettles(s: Queue, j: Id, w: Id) returns (events: seq<Event>)
    requires Sound(s) && j in s.jobs && s.jobs[j].state == Running && s.jobs[j].attempt == s.maxAttempts
    requires At(s, w).Busy? && At(s, w).token == Token(j, s.maxAttempts)
    ensures SettlesBy(s, j, events)
  {
    var a := Next(s, Throw(w));
    var b := Next(a, Fail(w));
    events := [Throw(w), Fail(w)];
    assert At(a, w).Busy? && At(a, w).token == Token(j, s.maxAttempts) && At(a, w).stage.Failing?;
    assert j in b.jobs && Closed(b.jobs[j]);
    hide Next;
    RunFirst(s, Throw(w), [Fail(w)]);
    RunFirst(a, Fail(w), []);
  }

  lemma RunFirst(s: Queue, e: Event, rest: seq<Event>)
    ensures Run(s, [e] + rest) == Run(Next(s, e), rest)
  {
    assert ([e] + rest)[1..] == rest;
  }

  /**
   A job can still end completed or failed, in some continuation, if and only if it is
   not abandoned: running on its last attempt with no worker holding it.
   */
  lemma SettlesExactly(s: Queue, j: Id)
    requires Sound(s) && j in s.jobs
    ensures (exists events :: SettlesBy(s, j, events)) <==> !Abandoned(s, j)
  {
    if Abandoned(s, j) {
      forall events ensures !SettlesBy(s, j, events) {
        AbandonedForever(s, events, j);
      }
    } else if Closed(s.jobs[j]) {
      assert SettlesBy(s, j, []);
    } else if s.jobs[j].attempt < s.maxAttempts {
      var events := ClaimSettles(s, j);
    } else {
      assert RowSound(s, s.jobs[j]);
      var w :| At(s, w).Busy? && At(s, w).token == Token(j, s.maxAttempts);
      var events := HolderSettles(s, j, w);
    }
  }

  /** Such a job is reachable: queued, claimed for its last attempt, and its worker gone. */
  lemma AbandonedReachable()
    ensures Abandoned(Run(Start(1), [Enqueue(0, 0, 0, 0), Claim(0, 0, 0, 300), Crash(0)]), 0)
  {
  }
}
