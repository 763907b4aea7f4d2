/**
 The conversion store: the job and rendition tables and the statements that rewrite
 them. Each method is one statement, so one step of the queue's transition system.
 */
module ConversionStore {
  import opened Results
  import opened ConversionQueue

  /** The job a claim takes: claimable, visible, and first by creation and id among all such. */
  ghost predicate NextInLine(jobs: map<Id, Job>, visible: set<Id>, maxAttempts: nat, now: int, j: Id) {
    && j in jobs && j in visible && Claimable(jobs[j], maxAttempts, now)
    && forall i :: i in jobs && i in visible && Claimable(jobs[i], maxAttempts, now) && i != j ==>
         jobs[j].createdAt < jobs[i].createdAt || (jobs[j].createdAt == jobs[i].createdAt && j < i)
  }

  ghost predicate NothingInLine(jobs: map<Id, Job>, visible: set<Id>, maxAttempts: nat, now: int) {
    forall j :: j in jobs && j in visible ==> !Claimable(jobs[j], maxAttempts, now)
  }

  /** New ids, each used once, for variants each named once. */
  ghost predicate FreshRequests(jobs: map<Id, Job>, requested: seq<(Id, Id)>) {
    && (forall i :: 0 <= i < |requested| ==> requested[i].0 !in jobs)
    && (forall i, j :: 0 <= i < j < |requested| ==>
          requested[i].0 != requested[j].0 && requested[i].1 != requested[j].1)
  }

  /** The jobs table as one enqueue step per requested variant leaves it. */
  ghost function AfterEnqueues(before: map<Id, Job>, version: Id, requested: seq<(Id, Id)>, now: int): map<Id, Job> {
    if requested == [] then before
    else
      var rest, last := AfterEnqueues(before, version, requested[..|requested| - 1], now), requested[|requested| - 1];
      if Queued(rest, (version, last.1)) then rest
      else rest[last.0 := Job(version, last.1, Pending, 0, None, now)]
  }

  function Missing(jobs: map<Id, Job>, version: Id, requested: seq<(Id, Id)>): set<Id> {
    set i | 0 <= i < |requested| && !Queued(jobs, (version, requested[i].1)) :: requested[i].1
  }

  ghost predicate Asked(requested: seq<(Id, Id)>, variant: Id) {
    exists i :: 0 <= i < |requested| && requested[i].1 == variant
  }

  lemma {:induction false} EnqueueKeeps(before: map<Id, Job>, version: Id, requested: seq<(Id, Id)>, now: int, j: Id)
    requires FreshRequests(before, requested)
    ensures var after := AfterEnqueues(before, version, requested, now);
            && (j in before ==> j in after && after[j] == before[j])
            && (j in after ==> j in before || exists i :: 0 <= i < |requested| && j == requested[i].0)
  {
    if requested != [] {
      var n := |requested| - 1;
      EnqueueKeeps(before, version, requested[..n], now, j);
      assert requested[..n] + [requested[n]] == requested;
    }
  }

  /** Afterwards a target is queued exactly if it was, or is one of those asked for. */
  lemma {:induction false} EnqueuedExactly(before: map<Id, Job>, version: Id, requested: seq<(Id, Id)>, now: int,
                                           target: Output)
    requires FreshRequests(before, requested)
    ensures Queued(AfterEnqueues(before, version, requested, now), target)
            <==> Queued(before, target) || (target.0 == version && Asked(requested, target.1))
  {
    if requested != [] {
      var n := |requested| - 1;
      var rest := AfterEnqueues(before, version, requested[..n], now);
      EnqueuedExactly(before, version, requested[..n], now, target);
      EnqueueKeeps(before, version, requested[..n], now, requested[n].0);
      AskedLast(requested, target.1);
      AddedRow(rest, requested[n].0, Job(version, requested[n].1, Pending, 0, None, now), target);
      hide Asked, Queued, FreshRequests;
    }
  }

  function EnqueueEvents(version: Id, requested: seq<(Id, Id)>, now: int): seq<Event> {
    if requested == [] then []
    else
      var n := |requested| - 1;
      EnqueueEvents(version, requested[..n], now) + [Enqueue(requested[n].0, version, requested[n].1, now)]
  }

  function NewIds(requested: seq<(Id, Id)>): set<Id> {
    if requested == [] then {} else NewIds(requested[..|requested| - 1]) + {requested[|requested| - 1].0}
  }

  ghost predicate Undrawn(s: Queue, requested: seq<(Id, Id)>) {
    && (forall i :: 0 <= i < |requested| ==> requested[i].0 !in s.drawn)
    && (forall i, j :: 0 <= i < j < |requested| ==> requested[i].0 != requested[j].0)
  }

  lemma {:induction false} NewIdsMember(requested: seq<(Id, Id)>, id: Id)
    requires id in NewIds(requested)
    ensures exists i :: 0 <= i < |requested| && requested[i].0 == id
  {
    var n := |requested| - 1;
    if requested[n].0 != id {
      NewIdsMember(requested[..n], id);
      var i :| 0 <= i < n && requested[..n][i].0 == id;
      assert requested[i].0 == id;
    }
  }

  lemma EnqueueStep(s: Queue, id: Id, version: Id, variant: Id, now: int)
    requires id !in s.drawn
    ensures var t := Next(s, Enqueue(id, version, variant, now));
            && t.drawn <= s.drawn + {id} && t.renditions == s.renditions
            && t.jobs == if Queued(s.jobs, (version, variant)) then s.jobs
                         else s.jobs[id := Job(version, variant, Pending, 0, None, now)]
  {
  }

  /** What the statement leaves is what one enqueue step per requested variant leaves. */
  lemma {:induction false} EnqueuesAreSteps(s: Queue, version: Id, requested: seq<(Id, Id)>, now: int)
    requires Undrawn(s, requested)
    ensures var t := Run(s, EnqueueEvents(version, requested, now));
            && t.jobs == AfterEnqueues(s.jobs, version, requested, now)
            && t.renditions == s.renditions && t.drawn <= s.drawn + NewIds(requested)
  {
    hide Next, Queued;
    if requested != [] {
      var n := |requested| - 1;
      var events, id := EnqueueEvents(version, requested[..n], now), requested[n].0;
      EnqueuesAreSteps(s, version, requested[..n], now);
      if id in Run(s, events).drawn {
        NewIdsMember(requested[..n], id);
        assert false;
      }
      EnqueueStep(Run(s, events), id, version, requested[n].1, now);
      RunExtend(s, events, Enqueue(id, version, requested[n].1, now));
    }
  }

  lemma AskedLast(requested: seq<(Id, Id)>, variant: Id)
    requires requested != []
    ensures Asked(requested, variant)
            <==> Asked(requested[..|requested| - 1], variant) || requested[|requested| - 1].1 == variant
  {
  }

  lemma AddedRow(jobs: map<Id, Job>, id: Id, job: Job, target: Output)
    requires id !in jobs
    ensures Queued(jobs[id := job], target) <==> Queued(jobs, target) || job.Target() == target
  {
    if Queued(jobs, target) {
      var j :| j in jobs && jobs[j].Target() == target;
      assert jobs[id := job][j].Target() == target;
    }
    assert jobs[id := job][id] == job;
  }

  lemma MissingNext(jobs: map<Id, Job>, version: Id, requested: seq<(Id, Id)>, i: nat)
    requires i < |requested| && FreshRequests(jobs, requested)
    ensures Missing(jobs, version, requested[..i + 1]) ==
            Missing(jobs, version, requested[..i])
            + if Queued(jobs, (version, requested[i].1)) then {} else {requested[i].1}
    ensures !Asked(requested[..i], requested[i].1)
  {
  }

  class Store {
    const maxAttempts: nat
    const leaseMs: nat
    var jobs: map<Id, Job>
    var renditions: map<Output, Id>

    constructor (maxAttempts: nat, leaseMs: nat)
      ensures this.maxAttempts == maxAttempts && this.leaseMs == leaseMs
      ensures jobs == map[] && renditions == map[]
    {
      this.maxAttempts, this.leaseMs := maxAttempts, leaseMs;
      jobs, renditions := map[], map[];
    }

    /** Queues each requested variant once, whoever asked first; an unreachable version queues nothing. */
    method EnqueueRenditions(reachable: bool, version: Id, requested: seq<(Id, Id)>, now: int)
      returns (queued: Option<set<Id>>)
      requires FreshRequests(jobs, requested)
      modifies this`jobs
      ensures requested != [] ==> (queued.None? <==> !reachable)
      ensures !reachable ==> jobs == old(jobs)
      ensures reachable ==> jobs == AfterEnqueues(old(jobs), version, requested, now)
      ensures queued.Some? ==> queued.value == Missing(old(jobs), version, requested)
    {
      if requested == [] {
        return Some({});
      }
      if !reachable {
        return None;
      }
      var added: set<Id> := {};
      for i := 0 to |requested|
        invariant jobs == AfterEnqueues(old(jobs), version, requested[..i], now)
        invariant added == Missing(old(jobs), version, requested[..i])
      {
        var id, variant := requested[i].0, requested[i].1;
        EnqueuedExactly(old(jobs), version, requested[..i], now, (version, variant));
        MissingNext(old(jobs), version, requested, i);
        assert requested[..i + 1][..i] == requested[..i];
        if forall j :: j in jobs ==> jobs[j].Target() != (version, variant) {
          jobs := jobs[id := Job(version, variant, Pending, 0, None, now)];
          added := added + {variant};
        }
      }
      assert requested[..|requested|] == requested;
      return Some(added);
    }

    /** Takes the oldest claimable job among those the statement can see, or none if there is none. */
    method ClaimNextJob(visible: set<Id>, now: int) returns (claim: Option<Token>)
      modifies this`jobs
      ensures claim.None? <==> NothingInLine(old(jobs), visible, maxAttempts, now)
      ensures claim.None? ==> jobs == old(jobs)
      ensures claim.Some? ==>
                var j := claim.value.job;
                && NextInLine(old(jobs), visible, maxAttempts, now, j)
                && claim.value == Token(j, old(jobs)[j].attempt + 1)
                && jobs == old(jobs)[j := Taken(old(jobs)[j], now + leaseMs)]
    {
      var best: Option<Id> := None;
      var pending := jobs.Keys;
      while pending != {}
        invariant pending <= jobs.Keys && jobs == old(jobs)
        invariant best.None? ==> NothingInLine(jobs, visible - pending, maxAttempts, now)
        invariant best.Some? ==> NextInLine(jobs, visible - pending, maxAttempts, now, best.value)
        decreases |pending|
      {
        var j :| j in pending;
        pending := pending - {j};
        if j in visible && Claimable(jobs[j], maxAttempts, now)
           && (best.None? || jobs[j].createdAt < jobs[best.value].createdAt
               || (jobs[j].createdAt == jobs[best.value].createdAt && j < best.value))
        {
          best := Some(j);
        }
      }
      if best.None? {
        return None;
      }
      var j := best.value;
      claim := Some(Token(j, jobs[j].attempt + 1));
      jobs := jobs[j := Taken(jobs[j], now + leaseMs)];
    }

    /** Records the rendition and closes the job, or changes nothing if the claim is stale. */
    method CompleteJob(token: Token, key: Id) returns (completed: bool)
      modifies this`jobs, this`renditions
      ensures completed == Current(old(jobs), token)
      ensures forall s: Queue :: s.jobs == old(jobs) && s.renditions == old(renditions) ==>
                jobs == Recorded(s, token, key).jobs && renditions == Recorded(s, token, key).renditions
    {
      completed := Current(jobs, token);
      if completed {
        renditions := renditions[jobs[token.job].Target() := key];
        jobs := jobs[token.job := Settled(jobs[token.job], Completed)];
      }
    }

    /** Records a failure and whether the job is retried, or changes nothing if the claim is stale. */
    method FailJob(token: Token, permanent: bool) returns (state: Option<JobState>)
      modifies this`jobs
      ensures state.Some? == Current(old(jobs), token)
      ensures state.Some? ==> token.job in jobs && jobs[token.job].state == state.value
      ensures forall s: Queue :: s.jobs == old(jobs) && s.maxAttempts == maxAttempts ==>
                jobs == Refused(s, token, permanent).jobs
    {
      if !Current(jobs, token) {
        return None;
      }
      var ceiling := if permanent then 1 else maxAttempts;
      var next := if jobs[token.job].attempt >= ceiling then Failed else Pending;
      jobs := jobs[token.job := Settled(jobs[token.job], next)];
      return Some(next);
    }
  }
}
