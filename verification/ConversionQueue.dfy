/**
 The conversion queue: many workers, one table of jobs, one bucket. A claim raises
 the job's attempt, and that number fences everything the worker later writes.
 Workers may stop between any two of their steps, leases may run out at any time,
 and a write may take effect although its reply is lost.
 */
module ConversionQueue {
  import opened Results

  type Id = nat
  type Output = (Id, Id)

  datatype JobState = Pending | Running | Completed | Failed

  datatype Job = Job(version: Id, variant: Id, state: JobState, attempt: nat, lease: Option<int>, createdAt: int) {
    function Target(): Output {
      (version, variant)
    }
  }

  /** The fence: one job at one attempt. */
  datatype Token = Token(job: Id, attempt: nat)

  /** Where a worker stands in its pass; the object is in the bucket before the row is written. */
  datatype Stage = Claimed | Downloaded | Rendered | Uploaded(key: Id) | Failing(permanent: bool)

  datatype Worker = Idle | Busy(token: Token, stage: Stage)

  datatype Queue = Queue(
    maxAttempts: nat,
    jobs: map<Id, Job>,
    renditions: map<Output, Id>,
    bucket: set<Id>,
    workers: map<Id, Worker>,
    drawn: set<Id>,         // every job id ever drawn
    claims: seq<Token>,     // every claim granted, in order
    effects: seq<Token>)    // every completion or failure that changed its job, in order

  function Start(maxAttempts: nat): Queue
    requires maxAttempts >= 1
  {
    Queue(maxAttempts, map[], map[], {}, map[], {}, [], [])
  }

  // ------------------------------------------------------------ statements on tables

  predicate Claimable(job: Job, maxAttempts: nat, now: int) {
    && job.attempt < maxAttempts
    && (job.state == Pending || (job.state == Running && (job.lease.None? || job.lease.value <= now)))
  }

  function Taken(job: Job, until: int): Job {
    job.(state := Running, attempt := job.attempt + 1, lease := Some(until))
  }

  /** The fence every later write of a claim must pass. */
  predicate Current(jobs: map<Id, Job>, token: Token) {
    token.job in jobs && jobs[token.job].attempt == token.attempt && jobs[token.job].state == Running
  }

  function Settled(job: Job, state: JobState): Job {
    job.(state := state, lease := None)
  }

  /** A failure is final at the last attempt, or at the first one a retry cannot change. */
  function AfterFailure(attempt: nat, maxAttempts: nat, permanent: bool): JobState {
    if attempt >= (if permanent then 1 else maxAttempts) then Failed else Pending
  }

  predicate Queued(jobs: map<Id, Job>, target: Output) {
    exists j :: j in jobs && jobs[j].Target() == target
  }

  // ------------------------------------------------------------------- transitions

  datatype Event =
    | Enqueue(id: Id, version: Id, variant: Id, now: int)
    | Claim(worker: Id, id: Id, now: int, until: int)
    | Download(worker: Id)
    | Render(worker: Id)
    | Upload(worker: Id, key: Id, replied: bool)
    | Complete(worker: Id, replied: bool)
    | Refuse(worker: Id)      // the variant has no rung, or the source is too large
    | Throw(worker: Id)         // a foreign call fails
    | Fail(worker: Id)
    | Crash(worker: Id)
    | Purge(version: Id)      // the version's rows go, jobs and renditions with it

  function At(s: Queue, w: Id): Worker {
    if w in s.workers then s.workers[w] else Idle
  }

  function Move(s: Queue, w: Id, worker: Worker): Queue {
    s.(workers := s.workers[w := worker])
  }

  function Reach(s: Queue, w: Id, stage: Stage): Queue
    requires At(s, w).Busy?
  {
    Move(s, w, Busy(At(s, w).token, stage))
  }

  /** The rendition and the job's completion are one statement. */
  function Recorded(s: Queue, token: Token, key: Id): Queue {
    if !Current(s.jobs, token) then s
    else
      var job := s.jobs[token.job];
      s.(jobs := s.jobs[token.job := Settled(job, Completed)],
         renditions := s.renditions[job.Target() := key],
         effects := s.effects + [token])
  }

  function Refused(s: Queue, token: Token, permanent: bool): Queue {
    if !Current(s.jobs, token) then s
    else
      var job := s.jobs[token.job];
      s.(jobs := s.jobs[token.job := Settled(job, AfterFailure(job.attempt, s.maxAttempts, permanent))],
         effects := s.effects + [token])
  }

  function Granted(s: Queue, w: Id, j: Id, until: int): Queue
    requires j in s.jobs
  {
    var token := Token(j, s.jobs[j].attempt + 1);
    s.(jobs := s.jobs[j := Taken(s.jobs[j], until)],
       workers := s.workers[w := Busy(token, Claimed)],
       claims := s.claims + [token])
  }

  function Purged(s: Queue, version: Id): Queue {
    s.(jobs := map j | j in s.jobs && s.jobs[j].version != version :: s.jobs[j],
       renditions := map t | t in s.renditions && t.0 != version :: s.renditions[t])
  }

  /** One atomic step; an event whose guard does not hold changes nothing. */
  function Next(s: Queue, e: Event): Queue {
    match e
    case Enqueue(id, version, variant, now) =>
      if id in s.drawn || Queued(s.jobs, (version, variant)) then s
      else s.(jobs := s.jobs[id := Job(version, variant, Pending, 0, None, now)], drawn := s.drawn + {id})
    case Claim(w, j, now, until) =>
      if At(s, w).Idle? && j in s.jobs && Claimable(s.jobs[j], s.maxAttempts, now) then Granted(s, w, j, until) else s
    case Download(w) =>
      if At(s, w).Busy? && At(s, w).stage.Claimed? then Reach(s, w, Downloaded) else s
    case Render(w) =>
      if At(s, w).Busy? && At(s, w).stage.Downloaded? then Reach(s, w, Rendered) else s
    case Upload(w, key, replied) =>
      if At(s, w).Busy? && At(s, w).stage.Rendered?
      then Reach(s.(bucket := s.bucket + {key}), w, if replied then Uploaded(key) else Failing(false)) else s
    case Complete(w, replied) =>
      if At(s, w).Busy? && At(s, w).stage.Uploaded?
      then
        var token := At(s, w).token;
        Move(Recorded(s, token, At(s, w).stage.key), w, if replied then Idle else Busy(token, Failing(false)))
      else s
    case Refuse(w) =>
      if At(s, w).Busy? && At(s, w).stage.Claimed? then Reach(s, w, Failing(true)) else s
    case Throw(w) =>
      if At(s, w).Busy? && !At(s, w).stage.Failing? then Reach(s, w, Failing(false)) else s
    case Fail(w) =>
      if At(s, w).Busy? && At(s, w).stage.Failing?
      then Move(Refused(s, At(s, w).token, At(s, w).stage.permanent), w, Idle) else s
    case Crash(w) => Move(s, w, Idle)
    case Purge(version) => Purged(s, version)
  }

  function Run(s: Queue, events: seq<Event>): Queue
    decreases |events|
  {
    if events == [] then s else Run(Next(s, events[0]), events[1..])
  }

  lemma {:induction false} RunExtend(s: Queue, events: seq<Event>, e: Event)
    ensures Run(s, events + [e]) == Next(Run(s, events), e)
    decreases |events|
  {
    if events == [] {
      assert events + [e] == [e] && [e][1..] == [];
      assert Run(Next(s, e), []) == Next(s, e);
    } else {
      assert (events + [e])[1..] == events[1..] + [e];
      RunExtend(Next(s, events[0]), events[1..], e);
    }
  }

  lemma {:induction false} RunSplit(s: Queue, first: seq<Event>, second: seq<Event>)
    ensures Run(s, first + second) == Run(Run(s, first), second)
    decreases |first|
  {
    if first == [] {
      assert first + second == second;
    } else {
      assert (first + second)[1..] == first[1..] + second;
      RunSplit(Next(s, first[0]), first[1..], second);
    }
  }

  // ------------------------------------------------------------------- the invariant

  ghost predicate Distinct(log: seq<Token>) {
    forall i, j :: 0 <= i < j < |log| ==> log[i] != log[j]
  }

  /** A pending job has attempts left, and a job at rest or running has used at least one. */
  ghost predicate RowSound(s: Queue, job: Job) {
    && job.attempt <= s.maxAttempts
    && (job.state == Pending ==> job.attempt < s.maxAttempts)
    && (job.state != Pending ==> job.attempt >= 1)
    && (job.state == Completed ==> job.Target() in s.renditions)
  }

  ghost predicate Rows(s: Queue) {
    && s.maxAttempts >= 1
    && (forall j :: j in s.jobs ==> j in s.drawn && RowSound(s, s.jobs[j]))
    && (forall i, j :: i in s.jobs && j in s.jobs && i != j ==> s.jobs[i].Target() != s.jobs[j].Target())
  }

  /** Every claim is of an attempt its job has reached, and no two claims are of the same one. */
  ghost predicate Claims(s: Queue) {
    && Distinct(s.claims)
    && (forall t :: t in s.claims ==> t.job in s.drawn && (t.job in s.jobs ==> t.attempt <= s.jobs[t.job].attempt))
  }

  /** Every effect is of a granted claim that can have no other. */
  ghost predicate Effects(s: Queue) {
    && Distinct(s.effects)
    && (forall t :: t in s.effects ==> t in s.claims && !Current(s.jobs, t))
  }

  ghost predicate Workers(s: Queue) {
    && (forall w :: At(s, w).Busy? ==> At(s, w).token in s.claims)
    && (forall v, w :: v != w && At(s, v).Busy? && At(s, w).Busy? ==> At(s, v).token != At(s, w).token)
  }

  /** Nothing names an object that was not uploaded first. */
  ghost predicate Stored(s: Queue) {
    && (forall t :: t in s.renditions ==> s.renditions[t] in s.bucket)
    && (forall w :: At(s, w).Busy? && At(s, w).stage.Uploaded? ==> At(s, w).stage.key in s.bucket)
  }

  ghost predicate Sound(s: Queue) {
    Rows(s) && Claims(s) && Effects(s) && Workers(s) && Stored(s)
  }

  lemma StartSound(maxAttempts: nat)
    requires maxAttempts >= 1
    ensures Sound(Start(maxAttempts))
  {
  }

  lemma RecordedRows(s: Queue, token: Token, key: Id)
    requires Rows(s)
    ensures Rows(Recorded(s, token, key))
  {
  }

  lemma RefusedRows(s: Queue, token: Token, permanent: bool)
    requires Rows(s)
    ensures Rows(Refused(s, token, permanent))
  {
  }

  lemma PurgedRows(s: Queue, version: Id)
    requires Rows(s)
    ensures Rows(Purged(s, version))
  {
  }

  lemma NextRows(s: Queue, e: Event)
    requires Rows(s)
    ensures Rows(Next(s, e))
  {
    match e {
      case Complete(w, replied) =>
        if At(s, w).Busy? && At(s, w).stage.Uploaded? {
          RecordedRows(s, At(s, w).token, At(s, w).stage.key);
        }
      case Fail(w) =>
        if At(s, w).Busy? && At(s, w).stage.Failing? {
          RefusedRows(s, At(s, w).token, At(s, w).stage.permanent);
        }
      case Purge(version) => PurgedRows(s, version);
      case _ =>
    }
    hide Recorded, Refused, Purged;
  }

  lemma NextClaims(s: Queue, e: Event)
    requires Sound(s)
    ensures Claims(Next(s, e))
  {
  }

  lemma NextEffects(s: Queue, e: Event)
    requires Sound(s)
    ensures Effects(Next(s, e))
  {
  }

  lemma NextWorkers(s: Queue, e: Event)
    requires Sound(s)
    ensures Workers(Next(s, e))
  {
    var t := Next(s, e);
    forall w | At(t, w).Busy?
      ensures At(t, w).token in t.claims
      ensures || (At(s, w).Busy? && At(s, w).token == At(t, w).token)
              || (e.Claim? && e.worker == w && At(t, w).token !in s.claims)
    {
      if !(At(s, w).Busy? && At(s, w).token == At(t, w).token) {
        assert t.claims == s.claims + [At(t, w).token];
      }
    }
  }

  lemma NextStored(s: Queue, e: Event)
    requires Sound(s)
    ensures Stored(Next(s, e))
  {
    var t := Next(s, e);
    forall w | At(t, w).Busy? && At(t, w).stage.Uploaded? ensures At(t, w).stage.key in t.bucket {
      assert At(s, w).Busy?;
    }
  }

  /** Every step of every worker keeps the invariant. */
  lemma NextSound(s: Queue, e: Event)
    requires Sound(s)
    ensures Sound(Next(s, e))
  {
    hide Rows, Claims, Effects, Workers, Stored, Next;
    NextRows(s, e);
    NextClaims(s, e);
    NextEffects(s, e);
    NextWorkers(s, e);
    NextStored(s, e);
  }
}
