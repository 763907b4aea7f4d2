/**
 What each statement of the queue does to its row, and what follows over runs: when a
 failed job is tried again, how often, and how long a lease keeps everybody else away.
 */
module ConversionRetries {
  import opened Results
  import opened ConversionQueue
  import opened ConversionSafety

  /** The claim is granted: the log of claims grows. */
  predicate Grants(s: Queue, w: Id, j: Id, now: int) {
    Next(s, Claim(w, j, now, now)).claims != s.claims
  }

  // ------------------------------------------------------------------------ statements

  /** A claim is granted to an idle worker while attempts are left, once the row is free or its lease is over. */
  lemma ClaimGrantedExactly(s: Queue, w: Id, j: Id, now: int, until: int)
    ensures Grants(s, w, j, now) <==>
            && At(s, w).Idle? && j in s.jobs && s.jobs[j].attempt < s.maxAttempts
            && match s.jobs[j].state
               case Pending => true
               case Running => s.jobs[j].lease.None? || s.jobs[j].lease.value <= now
               case _ => false
    ensures var t := Next(s, Claim(w, j, now, until));
            if !Grants(s, w, j, now) then t == s
            else
              && t.jobs.Keys == s.jobs.Keys
              && (forall i :: i in s.jobs && i != j ==> t.jobs[i] == s.jobs[i])
              && t.jobs[j].state == Running && t.jobs[j].attempt == s.jobs[j].attempt + 1
              && t.jobs[j].lease == Some(until) && t.jobs[j].createdAt == s.jobs[j].createdAt
              && t.jobs[j].Target() == s.jobs[j].Target()
              && t.claims == s.claims + [Token(j, t.jobs[j].attempt)]
              && At(t, w) == Busy(Token(j, t.jobs[j].attempt), Claimed)
              && t.renditions == s.renditions
  {
  }

  /** The row of `j` alone changed, to a state without a lease. */
  ghost predicate OnlyCloses(s: Queue, t: Queue, j: Id, state: JobState) {
    && j in s.jobs && t.jobs == s.jobs[j := s.jobs[j].(state := state, lease := None)]
  }

  /**
   When the current holder fails for a passing reason its job can be claimed again at
   once, by anybody idle, if and only if attempts are left; otherwise it has failed.
   */
  lemma RetriedExactly(s: Queue, w: Id, v: Id, now: int)
    requires Sound(s) && At(s, w).Busy? && At(s, w).stage == Failing(false) && Current(s.jobs, At(s, w).token)
    requires v == w || At(s, v).Idle?
    ensures var t, j := Next(s, Fail(w)), At(s, w).token.job;
            && At(t, w).Idle? && t.renditions == s.renditions && j in s.jobs
            && (Grants(t, v, j, now) <==> s.jobs[j].attempt < s.maxAttempts)
            && OnlyCloses(s, t, j, if s.jobs[j].attempt < s.maxAttempts then Pending else Failed)
  {
    assert RowSound(s, s.jobs[At(s, w).token.job]);
  }

  /** A refusal no retry can change fails the job at once, at whatever attempt. */
  lemma RefusalFails(s: Queue, w: Id)
    requires Sound(s) && At(s, w).Busy? && At(s, w).stage == Failing(true) && Current(s.jobs, At(s, w).token)
    ensures OnlyCloses(s, Next(s, Fail(w)), At(s, w).token.job, Failed) && At(Next(s, Fail(w)), w).Idle?
  {
    assert RowSound(s, s.jobs[At(s, w).token.job]);
  }

  /** The current holder's completion closes its job and names the object it uploaded, in one step. */
  lemma CompletionRecords(s: Queue, w: Id, replied: bool)
    requires At(s, w).Busy? && At(s, w).stage.Uploaded? && Current(s.jobs, At(s, w).token)
    ensures var t, j := Next(s, Complete(w, replied)), At(s, w).token.job;
            && OnlyCloses(s, t, j, Completed)
            && t.renditions == s.renditions[(s.jobs[j].version, s.jobs[j].variant) := At(s, w).stage.key]
            && (replied <==> At(t, w).Idle?)
  {
  }

  /** A purge removes every job and rendition of the version and nothing else; workers go on unaware. */
  lemma PurgeClears(s: Queue, version: Id)
    ensures var t := Next(s, Purge(version));
            && (forall j :: j in t.jobs <==> j in s.jobs && s.jobs[j].version != version)
            && (forall j :: j in t.jobs ==> t.jobs[j] == s.jobs[j])
            && (forall o :: o in t.renditions <==> o in s.renditions && o.0 != version)
            && (forall o :: o in t.renditions ==> t.renditions[o] == s.renditions[o])
            && t.workers == s.workers && t.bucket == s.bucket
  {
  }

  // --------------------------------------------------------------------------- the bound

  function FailedPass(w: Id, j: Id, now: int): seq<Event> {
    [Claim(w, j, now, now), Throw(w), Fail(w)]
  }

  function FailedPasses(w: Id, j: Id, now: int, k: nat): seq<Event> {
    if k == 0 then [] else FailedPasses(w, j, now, k - 1) + FailedPass(w, j, now)
  }

  function Attempts(j: Id, k: nat): seq<Token> {
    if k == 0 then [] else Attempts(j, k - 1) + [Token(j, k)]
  }

  /** A claimed pass that throws gives its job back, or fails it at the last attempt. */
  lemma ThrownPass(s: Queue, w: Id, j: Id)
    requires Sound(s) && j in s.jobs && s.jobs[j].state == Running
    requires At(s, w) == Busy(Token(j, s.jobs[j].attempt), Claimed)
    ensures var t := Run(s, [Throw(w), Fail(w)]);
            && At(t, w).Idle? && t.maxAttempts == s.maxAttempts && t.claims == s.claims
            && OnlyCloses(s, t, j, if s.jobs[j].attempt < s.maxAttempts then Pending else Failed)
  {
    var a := Next(s, Throw(w));
    NextSound(s, Throw(w));
    assert a == Move(s, w, Busy(Token(j, s.jobs[j].attempt), Failing(false)));
    RetriedExactly(a, w, w, 0);
    var b := Next(a, Fail(w));
    assert b.claims == a.claims && b.maxAttempts == a.maxAttempts;
    hide Next, Sound, Grants;
    RunFirst(s, Throw(w), [Fail(w)]);
    RunFirst(a, Fail(w), []);
  }

  lemma OnePassFails(s: Queue, w: Id, j: Id, now: int)
    requires Sound(s) && At(s, w).Idle? && j in s.jobs && s.jobs[j].state == Pending
    ensures var t := Run(s, FailedPass(w, j, now));
            && At(t, w).Idle? && j in t.jobs && t.maxAttempts == s.maxAttempts
            && t.jobs[j].attempt == s.jobs[j].attempt + 1
            && t.jobs[j].state == (if s.jobs[j].attempt + 1 < s.maxAttempts then Pending else Failed)
            && t.claims == s.claims + [Token(j, s.jobs[j].attempt + 1)]
  {
    assert RowSound(s, s.jobs[j]);
    var e := Claim(w, j, now, now);
    var a := Next(s, e);
    ClaimGrantedExactly(s, w, j, now, now);
    assert a.maxAttempts == s.maxAttempts;
    NextSound(s, e);
    hide Next, Sound, Grants;
    RunFirst(s, e, [Throw(w), Fail(w)]);
    ThrownPass(a, w, j);
  }

  /** Where a job stands after `k` failed passes, and which claims were granted. */
  ghost predicate TriedTimes(s: Queue, w: Id, j: Id, k: nat) {
    && At(s, w).Idle? && j in s.jobs && s.jobs[j].attempt == k && s.claims == Attempts(j, k)
    && s.jobs[j].state == (if k < s.maxAttempts then Pending else Failed)
  }

  lemma {:induction false} PassesFail(s: Queue, w: Id, j: Id, now: int, k: nat)
    requires Sound(s) && TriedTimes(s, w, j, 0) && k <= s.maxAttempts
    ensures TriedTimes(Run(s, FailedPasses(w, j, now, k)), w, j, k)
    ensures Run(s, FailedPasses(w, j, now, k)).maxAttempts == s.maxAttempts
    ensures Sound(Run(s, FailedPasses(w, j, now, k)))
  {
    if k > 0 {
      PassesFail(s, w, j, now, k - 1);
      var t := Run(s, FailedPasses(w, j, now, k - 1));
      RunSound(s, FailedPasses(w, j, now, k));
      RunSplit(s, FailedPasses(w, j, now, k - 1), FailedPass(w, j, now));
      hide Sound, FailedPass, Run;
      OnePassFails(t, w, j, now);
    }
  }

  /**
   The bound on attempts is attained: a job whose every pass throws is tried exactly
   `maxAttempts` times, each time from the waiting state, and has failed after the last;
   from then on no claim of it is granted.
   */
  lemma AttemptsAttained(maxAttempts: nat, w: Id, j: Id, version: Id, variant: Id, now: int, k: nat)
    requires 1 <= maxAttempts && k <= maxAttempts
    ensures var s := Run(Start(maxAttempts), [Enqueue(j, version, variant, now)] + FailedPasses(w, j, now, k));
            && j in s.jobs && s.claims == Attempts(j, k) && |s.claims| == k
            && (k < maxAttempts ==> s.jobs[j].state == Pending && s.jobs[j].attempt == k)
            && (k == maxAttempts ==> s.jobs[j].state == Failed
                                     && forall v, at :: !Grants(s, v, j, at))
  {
    var e := Enqueue(j, version, variant, now);
    var first := Next(Start(maxAttempts), e);
    StartSound(maxAttempts);
    NextSound(Start(maxAttempts), e);
    RunFirst(Start(maxAttempts), e, FailedPasses(w, j, now, k));
    PassesFail(first, w, j, now, k);
    AttemptsCount(j, k);
    var s := Run(first, FailedPasses(w, j, now, k));
    forall v, at | k == maxAttempts ensures !Grants(s, v, j, at) {
      ClaimGrantedExactly(s, v, j, at, at);
    }
  }

  lemma {:induction false} AttemptsCount(j: Id, k: nat)
    ensures |Attempts(j, k)| == k
  {
    if k > 0 {
      AttemptsCount(j, k - 1);
    }
  }

  // ----------------------------------------------------------------------------- leases

  /** The claim holds its row under a lease, and only `w` may still write for it. */
  ghost predicate Held(s: Queue, w: Id, token: Token, until: int) {
    && Current(s.jobs, token) && s.jobs[token.job].lease == Some(until)
    && forall v :: v != w && At(s, v).Busy? ==> At(s, v).token != token
  }

  /** Not a write of the holder, a purge of the version, or a claim made when the lease is over. */
  ghost predicate Respects(e: Event, w: Id, token: Token, version: Id, until: int) {
    && e != Fail(w) && !(e.Complete? && e.worker == w)
    && e != Purge(version)
    && (e.Claim? && e.id == token.job ==> e.now < until)
  }

  lemma NextHeld(s: Queue, e: Event, w: Id, token: Token, until: int)
    requires Rows(s) && Held(s, w, token, until) && Respects(e, w, token, s.jobs[token.job].version, until)
    ensures Held(Next(s, e), w, token, until) && Next(s, e).jobs[token.job] == s.jobs[token.job]
  {
    var t := Next(s, e);
    forall v | v != w && At(t, v).Busy? ensures At(t, v).token != token {
      assert At(s, v).Busy? ==> At(s, v).token != token;
    }
  }

  /**
   A lease keeps everybody away: until the holder itself writes, the version is purged or
   somebody claims at or after the lease's end, the row stays as the claim left it.
   */
  lemma {:induction false} LeaseHolds(s: Queue, events: seq<Event>, w: Id, token: Token, until: int)
    requires Rows(s) && Held(s, w, token, until)
    requires forall i :: 0 <= i < |events| ==> Respects(events[i], w, token, s.jobs[token.job].version, until)
    ensures Held(Run(s, events), w, token, until) && Run(s, events).jobs[token.job] == s.jobs[token.job]
    decreases |events|
  {
    if events != [] {
      NextHeld(s, events[0], w, token, until);
      NextRows(s, events[0]);
      hide Next, Respects, Rows;
      LeaseHolds(Next(s, events[0]), events[1..], w, token, until);
    }
  }

  /** A granted claim is held from the start. */
  lemma ClaimHolds(s: Queue, w: Id, j: Id, now: int, until: int)
    requires Sound(s) && Grants(s, w, j, now)
    ensures var t := Next(s, Claim(w, j, now, until)); j in t.jobs && Held(t, w, Token(j, t.jobs[j].attempt), until)
  {
    ClaimGrantedExactly(s, w, j, now, until);
    NextSound(s, Claim(w, j, now, until));
    hide Next, Grants, Rows, Claims, Effects, Stored;
  }

  /** What throws can be tried again, also where the write took effect; what is refused cannot. */
  lemma FaultKinds(s: Queue, w: Id, key: Id)
    requires At(s, w).Busy?
    ensures At(s, w).stage.Claimed? ==> At(Next(s, Refuse(w)), w) == Busy(At(s, w).token, Failing(true))
    ensures !At(s, w).stage.Failing? ==> At(Next(s, Throw(w)), w) == Busy(At(s, w).token, Failing(false))
    ensures At(s, w).stage.Rendered? ==>
              && At(Next(s, Upload(w, key, false)), w) == Busy(At(s, w).token, Failing(false))
              && Next(s, Upload(w, key, false)).bucket == s.bucket + {key}
    ensures At(s, w).stage.Uploaded? ==>
              && At(Next(s, Complete(w, false)), w) == Busy(At(s, w).token, Failing(false))
              && Next(s, Complete(w, false)).jobs == Next(s, Complete(w, true)).jobs
  {
  }
}
