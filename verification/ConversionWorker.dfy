/**
 The conversion worker: one pass claims a job, fetches and renders it, writes the
 object, then the row, while producers and other workers go on with theirs. Every
 pass is a stretch of the queue's transition system, so what is proved of all runs
 holds of the worker.
 */
module ConversionWorker {
  import opened Results
  import opened ConversionQueue
  import opened ConversionSafety
  import ConversionStore

  /** Where a foreign call of the pass throws; a write may have happened although its call threw. */
  datatype Fault = NoFault | BeforeUpload | AtUpload(written: bool) | AtCompletion(written: bool)

  /**
   What one pass meets: the instant, the jobs its claim can see, the rung, the source and
   the calls; and what everybody else does before the claim, while it renders, and before
   it writes the row.
   */
  datatype Pass = Pass(now: int, visible: set<Id>, hasRung: bool, oversized: bool, key: Id, fault: Fault,
                       before: seq<Event>, rendering: seq<Event>, closing: seq<Event>)

  datatype Outcome =
    | IdlePass
    | Finished(job: Id, key: Id)
    | Unsuccessful(job: Id, state: Option<JobState>)
    | Stale(job: Id)

  // -------------------------------------------------------------------- everybody else

  ghost predicate Foreign(e: Event, w: Id) {
    !WrittenBy(e, w) && !(e.Claim? && e.worker == w)
  }

  ghost predicate AllForeign(events: seq<Event>, w: Id) {
    forall i :: 0 <= i < |events| ==> Foreign(events[i], w)
  }

  ghost predicate ForeignPass(pass: Pass, w: Id) {
    AllForeign(pass.before, w) && AllForeign(pass.rendering, w) && AllForeign(pass.closing, w)
  }

  /** A variant this deployment renders, a source it accepts, and no call that throws. */
  predicate Smooth(pass: Pass) {
    pass.hasRung && !pass.oversized && pass.fault.NoFault?
  }

  /** Nobody queues anything during the pass. */
  ghost predicate Quiet(pass: Pass) {
    NoneEnqueued(pass.before) && NoneEnqueued(pass.rendering) && NoneEnqueued(pass.closing)
  }

  lemma NextForeign(s: Queue, e: Event, w: Id)
    requires Foreign(e, w)
    ensures At(Next(s, e), w) == At(s, w) && Next(s, e).maxAttempts == s.maxAttempts
    ensures |s.claims| <= |Next(s, e).claims| && s.bucket <= Next(s, e).bucket
  {
  }

  /** Others never move this worker, take back a claim or empty the bucket. */
  lemma {:induction false} RunForeign(s: Queue, events: seq<Event>, w: Id)
    requires AllForeign(events, w)
    ensures At(Run(s, events), w) == At(s, w) && Run(s, events).maxAttempts == s.maxAttempts
    ensures |s.claims| <= |Run(s, events).claims| && s.bucket <= Run(s, events).bucket
    decreases |events|
  {
    if events != [] {
      NextForeign(s, events[0], w);
      hide Next;
      RunForeign(Next(s, events[0]), events[1..], w);
    }
  }

  // ------------------------------------------------------------------------ the log

  /** The log grew, and unless others queued jobs not by new jobs. */
  ghost predicate Worked(before: seq<Event>, after: seq<Event>, quiet: bool) {
    before <= after && (quiet ==> NoneEnqueued(after[|before|..]))
  }

  lemma WorkedOn(a: seq<Event>, b: seq<Event>, more: seq<Event>, quiet: bool)
    requires Worked(a, b, quiet) && (quiet ==> NoneEnqueued(more))
    ensures Worked(a, b + more, quiet)
  {
    assert (b + more)[|a|..] == b[|a|..] + more;
  }

  /** A step of a worker's pass that touches no table. */
  ghost predicate Local(s: Queue, w: Id, e: Event) {
    && At(s, w).Busy?
    && match At(s, w).stage
       case Claimed => e == Download(w) || e == Refuse(w) || e == Throw(w)
       case Downloaded => e == Render(w) || e == Throw(w)
       case Rendered => (e.Upload? && e.worker == w) || e == Throw(w)
       case Uploaded(_) => e == Throw(w)
       case Failing(_) => false
  }

  function Reached(e: Event): Stage {
    match e
    case Download(_) => Downloaded
    case Render(_) => Rendered
    case Upload(_, key, replied) => if replied then Uploaded(key) else Failing(false)
    case Refuse(_) => Failing(true)
    case _ => Failing(false)
  }

  lemma LocalStep(s: Queue, w: Id, e: Event)
    requires Local(s, w, e)
    ensures var t := Next(s, e);
            && At(t, w) == Busy(At(s, w).token, Reached(e))
            && t.jobs == s.jobs && t.renditions == s.renditions && t.claims == s.claims
            && t.maxAttempts == s.maxAttempts
            && t.bucket == s.bucket + if e.Upload? then {e.key} else {}
  {
  }

  class Worker {
    const id: Id
    const store: ConversionStore.Store
    var bucket: set<Id>
    var start: Queue
    var events: seq<Event>

    /** The whole system as the events so far leave it. */
    function System(): Queue
      reads this
    {
      Run(start, events)
    }

    /** The tables and the bucket are the system's, and the system came about by its own steps. */
    ghost predicate Valid()
      reads this, store
    {
      && System().jobs == store.jobs && System().renditions == store.renditions
      && System().bucket == bucket && System().maxAttempts == store.maxAttempts
    }

    constructor (id: Id, store: ConversionStore.Store, bucket: set<Id>, system: Queue)
      requires system.jobs == store.jobs && system.renditions == store.renditions
      requires system.bucket == bucket && system.maxAttempts == store.maxAttempts
      ensures this.id == id && this.store == store && start == system && events == []
      ensures Valid() && System() == system
    {
      this.id, this.store, this.bucket, this.start, this.events := id, store, bucket, system, [];
    }

    method Record(e: Event)
      modifies this`events
      ensures events == old(events) + [e] && System() == Next(old(System()), e)
    {
      RunExtend(start, events, e);
      events := events + [e];
    }

    /** Everybody else takes some steps. */
    method Meanwhile(others: seq<Event>)
      requires Valid() && AllForeign(others, id)
      modifies this`events, this`bucket, store`jobs, store`renditions
      ensures Valid() && events == old(events) + others && System() == Run(old(System()), others)
      ensures At(System(), id) == At(old(System()), id)
      ensures |old(System()).claims| <= |System().claims| && old(bucket) <= bucket
    {
      RunSplit(start, events, others);
      RunForeign(System(), others, id);
      events := events + others;
      store.jobs, store.renditions, bucket := System().jobs, System().renditions, System().bucket;
    }

    /** A step that touches no table, and the bucket only by an upload. */
    method RecordLocal(e: Event)
      requires Valid() && Local(System(), id, e)
      modifies this`events, this`bucket
      ensures Valid() && events == old(events) + [e] && System().claims == old(System()).claims
      ensures At(System(), id) == Busy(At(old(System()), id).token, Reached(e))
      ensures bucket == old(bucket) + if e.Upload? then {e.key} else {}
    {
      LocalStep(System(), id, e);
      hide Next;
      Record(e);
      if e.Upload? {
        bucket := bucket + {e.key};
      }
    }

    /** Fails the pass; a job claimed again meanwhile is left alone. */
    method FailPass(token: Token, permanent: bool) returns (outcome: Outcome)
      requires Valid() && At(System(), id) == Busy(token, Failing(permanent))
      modifies this`events, store`jobs
      ensures Valid() && At(System(), id).Idle? && events == old(events) + [Fail(id)]
      ensures System() == Next(old(System()), Fail(id)) && System().claims == old(System()).claims
      ensures outcome == Unsuccessful(token.job, if Current(old(store.jobs), token)
                                                 then Some(store.jobs[token.job].state) else None)
    {
      var state := store.FailJob(token, permanent);
      Record(Fail(id));
      outcome := Unsuccessful(token.job, state);
    }

    /** Claims the next job, if there is one. */
    method Begin(pass: Pass) returns (claim: Option<Token>)
      requires Valid() && At(System(), id).Idle?
      modifies this`events, store`jobs
      ensures Valid() && Worked(old(events), events, true) && System().renditions == old(System()).renditions
      ensures claim.None? <==>
                ConversionStore.NothingInLine(old(store.jobs), pass.visible, store.maxAttempts, pass.now)
      ensures claim.None? ==> events == old(events) && store.jobs == old(store.jobs)
      ensures claim.Some? ==>
                && ConversionStore.NextInLine(old(store.jobs), pass.visible, store.maxAttempts, pass.now,
                                              claim.value.job)
                && At(System(), id) == Busy(claim.value, Claimed)
                && System().claims == old(System()).claims + [claim.value]
                && Current(store.jobs, claim.value) && claim.value.attempt >= 1
    {
      claim := store.ClaimNextJob(pass.visible, pass.now);
      if claim.Some? {
        Record(Claim(id, claim.value.job, pass.now, pass.now + store.leaseMs));
      }
    }

    /** Fetches and renders, then writes the object to the bucket. */
    method StoreObject(token: Token, pass: Pass) returns (stored: bool)
      requires Valid() && At(System(), id) == Busy(token, Claimed) && ForeignPass(pass, id)
      modifies this`events, this`bucket, store`jobs, store`renditions
      ensures Valid() && Worked(old(events), events, Quiet(pass)) && |old(System()).claims| <= |System().claims|
      ensures stored == (pass.fault.NoFault? || pass.fault.AtCompletion?)
      ensures At(System(), id) == Busy(token, if stored then Uploaded(pass.key) else Failing(false))
      ensures stored ==> pass.key in bucket
      ensures pass.rendering == [] ==> store.jobs == old(store.jobs)
    {
      hide Next;
      Meanwhile(pass.rendering);
      if pass.fault.BeforeUpload? {
        RecordLocal(Throw(id));
        return false;
      }
      RecordLocal(Download(id));
      RecordLocal(Render(id));
      stored := !pass.fault.AtUpload?;
      RecordLocal(if stored || pass.fault.written then Upload(id, pass.key, stored) else Throw(id));
    }

    /** Writes the row for an object already in the bucket. */
    method CloseJob(token: Token, key: Id, fault: Fault) returns (outcome: Outcome)
      requires Valid() && At(System(), id) == Busy(token, Uploaded(key))
      modifies this`events, this`bucket, store`jobs, store`renditions
      ensures Valid() && At(System(), id).Idle? && Worked(old(events), events, true) && bucket == old(bucket)
      ensures System().claims == old(System()).claims
      ensures outcome.Finished? ==>
                && outcome.key == key && Current(old(store.jobs), token)
                && store.jobs == old(store.jobs)[token.job := Settled(old(store.jobs)[token.job], Completed)]
                && store.renditions == old(store.renditions)[old(store.jobs)[token.job].Target() := key]
      ensures outcome.Stale? ==>
                && !Current(old(store.jobs), token)
                && store.jobs == old(store.jobs) && store.renditions == old(store.renditions)
      ensures !outcome.IdlePass? && outcome.job == token.job
      ensures outcome.Unsuccessful? <==> fault.AtCompletion?
      ensures !fault.AtCompletion? ==> (outcome.Finished? <==> Current(old(store.jobs), token))
    {
      if fault == AtCompletion(false) {
        RecordLocal(Throw(id));
        hide Next;
        outcome := FailPass(token, false);
        return;
      }
      var completed := store.CompleteJob(token, key);
      Record(Complete(id, !fault.AtCompletion?));
      if fault.AtCompletion? {
        outcome := FailPass(token, false);
      } else {
        outcome := if completed then Finished(token.job, key) else Stale(token.job);
      }
    }

    /** A failure no retry can change is final at once. */
    method RefusePass(token: Token) returns (outcome: Outcome)
      requires Valid() && At(System(), id) == Busy(token, Claimed)
      modifies this`events, this`bucket, store`jobs
      ensures Valid() && At(System(), id).Idle? && Worked(old(events), events, true)
      ensures System().claims == old(System()).claims
      ensures outcome.Unsuccessful? && outcome.job == token.job
      ensures Current(old(store.jobs), token) && token.attempt >= 1 ==> outcome.state == Some(Failed)
    {
      RecordLocal(Refuse(id));
      outcome := FailPass(token, true);
    }

    /** Everything between the claim and the end of the pass. */
    method Convert(token: Token, pass: Pass) returns (outcome: Outcome)
      requires Valid() && At(System(), id) == Busy(token, Claimed) && ForeignPass(pass, id)
      modifies this`events, this`bucket, store`jobs, store`renditions
      ensures Valid() && At(System(), id).Idle? && Worked(old(events), events, Quiet(pass))
      ensures |old(System()).claims| <= |System().claims|
      ensures !outcome.IdlePass? && outcome.job == token.job
      ensures outcome.Finished? ==>
                && outcome.key == pass.key && pass.key in bucket
                && token.job in store.jobs && store.jobs[token.job].state == Completed
                && store.jobs[token.job].Target() in store.renditions
                && store.renditions[store.jobs[token.job].Target()] == pass.key
      ensures outcome.Stale? ==> !Current(store.jobs, token)
      ensures outcome.Unsuccessful? <==> !Smooth(pass)
      ensures Smooth(pass) && pass.rendering == [] && pass.closing == [] && Current(old(store.jobs), token) ==>
                outcome.Finished?
    {
      hide Next;
      if !pass.hasRung || pass.oversized {
        outcome := RefusePass(token);
        return;
      }
      var stored := StoreObject(token, pass);
      ghost var logged := events;
      Meanwhile(pass.closing);
      WorkedOn(old(events), logged, pass.closing, Quiet(pass));
      logged := events;
      if stored {
        outcome := CloseJob(token, pass.key, pass.fault);
      } else {
        outcome := FailPass(token, false);
      }
      WorkedOn(old(events), logged, events[|logged|..], Quiet(pass));
      assert events == logged + events[|logged|..];
    }

    /** Claims and finishes at most one job, whatever the others do meanwhile. */
    method RunOnce(pass: Pass) returns (outcome: Outcome)
      requires Valid() && At(System(), id).Idle? && ForeignPass(pass, id)
      modifies this`events, this`bucket, store`jobs, store`renditions
      ensures Valid() && At(System(), id).Idle? && Worked(old(events), events, Quiet(pass))
      ensures var found := Run(old(System()), pass.before).jobs;
              && (outcome.IdlePass? <==>
                    ConversionStore.NothingInLine(found, pass.visible, store.maxAttempts, pass.now))
              && (outcome.IdlePass? ==> store.jobs == found)
              && (!outcome.IdlePass? ==>
                    ConversionStore.NextInLine(found, pass.visible, store.maxAttempts, pass.now, outcome.job))
      ensures |old(System()).claims| + (if outcome.IdlePass? then 0 else 1) <= |System().claims|
      ensures outcome.Finished? ==>
                && outcome.key == pass.key && pass.key in bucket
                && outcome.job in store.jobs && store.jobs[outcome.job].state == Completed
                && store.jobs[outcome.job].Target() in store.renditions
                && store.renditions[store.jobs[outcome.job].Target()] == pass.key
      ensures !outcome.IdlePass? ==> (outcome.Unsuccessful? <==> !Smooth(pass))
      ensures Smooth(pass) && pass.rendering == [] && pass.closing == [] ==> outcome.IdlePass? || outcome.Finished?
    {
      hide Next, Run, ConversionStore.NextInLine, ConversionStore.NothingInLine;
      Meanwhile(pass.before);
      ghost var logged := events;
      WorkedOn(old(events), old(events), pass.before, Quiet(pass));
      var claim := Begin(pass);
      WorkedOn(old(events), logged, events[|logged|..], Quiet(pass));
      assert events == logged + events[|logged|..];
      if claim.None? {
        return IdlePass;
      }
      logged := events;
      outcome := Convert(claim.value, pass);
      WorkedOn(old(events), logged, events[|logged|..], Quiet(pass));
      assert events == logged + events[|logged|..];
    }

    /**
     Drains the queue, at most `maxJobs` jobs of it, whatever the others do. Only if they
     queue nothing is the number of passes also bounded by the attempts left.
     */
    method RunUntilIdle(passes: seq<Pass>, maxJobs: nat) returns (outcomes: seq<Outcome>)
      requires Valid() && At(System(), id).Idle? && |passes| >= maxJobs
      requires forall i :: 0 <= i < |passes| ==> ForeignPass(passes[i], id)
      modifies this`events, this`bucket, store`jobs, store`renditions
      ensures Valid() && At(System(), id).Idle?
      ensures |outcomes| <= maxJobs && forall i :: 0 <= i < |outcomes| ==> !outcomes[i].IdlePass?
      ensures |outcomes| < maxJobs ==>
                var last := passes[|outcomes|];
                ConversionStore.NothingInLine(store.jobs, last.visible, store.maxAttempts, last.now)
      ensures (forall i :: 0 <= i < |passes| ==> Quiet(passes[i])) ==>
                |outcomes| <= TotalLeft(old(store.jobs), store.maxAttempts)
    {
      hide Next, Run, ConversionStore.NextInLine, ConversionStore.NothingInLine;
      ghost var quiet := forall i :: 0 <= i < |passes| ==> Quiet(passes[i]);
      outcomes := [];
      var taken := 0;
      while taken < maxJobs
        invariant taken == |outcomes| <= maxJobs
        invariant Valid() && At(System(), id).Idle? && Worked(old(events), events, quiet)
        invariant forall i :: 0 <= i < |outcomes| ==> !outcomes[i].IdlePass?
        invariant |old(System()).claims| + taken <= |System().claims|
      {
        ghost var logged := events;
        var outcome := RunOnce(passes[taken]);
        WorkedOn(old(events), logged, events[|logged|..], quiet);
        assert events == logged + events[|logged|..];
        if outcome.IdlePass? {
          break;
        }
        outcomes := outcomes + [outcome];
        taken := taken + 1;
      }
      RunSplit(start, old(events), events[|old(events)|..]);
      assert old(events) + events[|old(events)|..] == events;
      if quiet {
        PassesBounded(old(System()), events[|old(events)|..]);
      }
    }
  }
}
