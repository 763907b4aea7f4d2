/**
 Outbound integration work: jobs that ask a remote service to open something, the
 receipts that answer retries, and the translation proposals a pull request is
 opened for. Request handlers interleave freely and may stop between any two steps.
 */
module IntegrationJobs {
  import opened Results

  type Id = nat

  datatype JobState = Queued | Running | Succeeded | Failed | Cancelled

  /** The declared job transitions: a finished job has none. */
  predicate MayMove(from: JobState, to: JobState) {
    match from
    case Queued => to == Running || to == Cancelled
    case Running => to == Succeeded || to == Failed
    case _ => false
  }

  datatype Status = Draft | Proposed | Merged | Rejected

  predicate Settled(status: Status) {
    status == Merged || status == Rejected
  }

  /** The declared proposal transitions: a settled proposal has none. */
  predicate MayBecome(from: Status, to: Status) {
    match from
    case Draft => to == Proposed || to == Rejected
    case Proposed => to == Draft || to == Merged || to == Rejected
    case _ => false
  }

  datatype Report = Opened(url: Id) | DidNotComplete

  datatype Job = Job(state: JobState, result: Option<Report>)

  datatype Proposal = Proposal(status: Status, pullRequest: Option<Id>, revision: nat)

  datatype Goal = Issue | PullRequest(proposal: Id, from: Status)

  /** Where a request handler stands; each stage lies between two statements or calls. */
  datatype Handler =
    | Idle
    | Checked(goal: Goal)
    | Ready(job: Id, goal: Goal)
    | Started(job: Id, goal: Goal)
    | Answered(job: Id, goal: Goal, url: Id)
    | Broken(job: Id)
    | Recorded(job: Id, goal: Goal, url: Id)

  datatype Answer = Answer(job: Id, url: Id)

  datatype Office = Office(
    jobs: map<Id, Job>,
    receipts: map<Id, Id>,
    proposals: map<Id, Proposal>,
    handlers: map<Id, Handler>,
    calls: seq<Id>,          // the job of every outbound call, in order
    answers: seq<Answer>)    // every reply that named an opened issue or pull request

  const EMPTY := Office(map[], map[], map[], map[], [], [])

  // ------------------------------------------------------------------- statements

  /** A job moves only from the state the caller names; what was recorded stays unless replaced. */
  function Moved(job: Job, to: JobState, result: Option<Report>): Job {
    Job(to, if result.Some? then result else job.result)
  }

  predicate CanMove(jobs: map<Id, Job>, j: Id, from: JobState, to: JobState) {
    MayMove(from, to) && j in jobs && jobs[j].state == from
  }

  function WithProposal(proposals: map<Id, Proposal>, p: Id, from: Status, to: Status, url: Option<Id>):
    map<Id, Proposal>
  {
    if MayBecome(from, to) && p in proposals && proposals[p].status == from && !Settled(proposals[p].status)
    then proposals[p := Proposal(to, if url.Some? then url else proposals[p].pullRequest, proposals[p].revision + 1)]
    else proposals
  }

  /** What a handler makes of the job its enqueue returned. */
  datatype Replay = Proceed | Reply(url: Id) | Refused

  function ReplayOf(job: Job): Replay {
    if job.state == Queued then Proceed
    else if job.state == Succeeded && job.result.Some? && job.result.value.Opened? then Reply(job.result.value.url)
    else Refused
  }

  // ------------------------------------------------------------------ transitions

  datatype Event =
    | Propose(proposal: Id)
    | Decide(proposal: Id, from: Status, to: Status, url: Option<Id>)
    | Check(handler: Id, goal: Goal)
    | Enqueue(handler: Id, request: Option<Id>, id: Id)
    | Begin(handler: Id)
    | Call(handler: Id, url: Option<Id>)
    | Succeed(handler: Id)
    | RecordFailure(handler: Id)
    | Publish(handler: Id)
    | Move(job: Id, left: JobState, reached: JobState, result: Option<Report>)
    | Crash(handler: Id)

  function At(s: Office, h: Id): Handler {
    if h in s.handlers then s.handlers[h] else Idle
  }

  function Put(s: Office, h: Id, handler: Handler): Office {
    s.(handlers := s.handlers[h := handler])
  }

  /** A pull request is opened only for an unsettled proposal that names none yet. */
  predicate Admits(s: Office, goal: Goal) {
    match goal
    case Issue => true
    case PullRequest(p, from) =>
      p in s.proposals && s.proposals[p].status == from && !Settled(from) && s.proposals[p].pullRequest.None?
  }

  function Replied(s: Office, h: Id, j: Id, url: Id): Office {
    Put(s, h, Idle).(answers := s.answers + [Answer(j, url)])
  }

  /** The handler goes on with a queued job, replies with a finished one, and gives up on any other. */
  function Resume(s: Office, h: Id, j: Id, goal: Goal): Office
    requires j in s.jobs
  {
    match ReplayOf(s.jobs[j])
    case Proceed => Put(s, h, Ready(j, goal))
    case Reply(url) => Replied(s, h, j, url)
    case Refused => Put(s, h, Idle)
  }

  function Next(s: Office, e: Event): Office {
    match e
    case Propose(p) =>
      if p in s.proposals then s else s.(proposals := s.proposals[p := Proposal(Draft, None, 1)])
    case Decide(p, from, to, url) => s.(proposals := WithProposal(s.proposals, p, from, to, url))
    case Check(h, goal) =>
      if At(s, h).Idle? && Admits(s, goal) then Put(s, h, Checked(goal)) else s
    case Enqueue(h, request, id) =>
      if !At(s, h).Checked? then s
      else if request.Some? && request.value in s.receipts && s.receipts[request.value] in s.jobs
      then Resume(s, h, s.receipts[request.value], At(s, h).goal)
      else if id in s.jobs then Put(s, h, Idle)
      else
        Put(s.(jobs := s.jobs[id := Job(Queued, None)],
               receipts := if request.Some? then s.receipts[request.value := id] else s.receipts),
            h, Ready(id, At(s, h).goal))
    case Begin(h) =>
      if !At(s, h).Ready? then s
      else
        var j := At(s, h).job;
        if CanMove(s.jobs, j, Queued, Running)
        then Put(s.(jobs := s.jobs[j := Moved(s.jobs[j], Running, None)]), h, Started(j, At(s, h).goal))
        else Put(s, h, Idle)
    case Call(h, url) =>
      if !At(s, h).Started? then s
      else
        var j := At(s, h).job;
        Put(s, h, if url.Some? then Answered(j, At(s, h).goal, url.value) else Broken(j)).(calls := s.calls + [j])
    case Succeed(h) =>
      if !At(s, h).Answered? then s
      else
        var j, goal, url := At(s, h).job, At(s, h).goal, At(s, h).url;
        if !CanMove(s.jobs, j, Running, Succeeded) then Put(s, h, Idle)
        else
          var t := s.(jobs := s.jobs[j := Moved(s.jobs[j], Succeeded, Some(Opened(url)))]);
          if goal.Issue? then Replied(t, h, j, url) else Put(t, h, Recorded(j, goal, url))
    case RecordFailure(h) =>
      if !At(s, h).Broken? then s
      else
        var j := At(s, h).job;
        if CanMove(s.jobs, j, Running, Failed)
        then Put(s.(jobs := s.jobs[j := Moved(s.jobs[j], Failed, Some(DidNotComplete))]), h, Idle)
        else Put(s, h, Idle)
    case Publish(h) =>
      if !At(s, h).Recorded? || !At(s, h).goal.PullRequest? then s
      else
        var p, from, url := At(s, h).goal.proposal, At(s, h).goal.from, At(s, h).url;
        var after := WithProposal(s.proposals, p, from, Proposed, Some(url));
        if after == s.proposals then Put(s, h, Idle)
        else Replied(s.(proposals := after), h, At(s, h).job, url)
    case Move(j, from, to, result) =>
      if CanMove(s.jobs, j, from, to) then s.(jobs := s.jobs[j := Moved(s.jobs[j], to, result)]) else s
    case Crash(h) => Put(s, h, Idle)
  }

  function Run(s: Office, events: seq<Event>): Office
    decreases |events|
  {
    if events == [] then s else Run(Next(s, events[0]), events[1..])
  }

  // ----------------------------------------------------------------- the invariant

  ghost predicate Distinct(calls: seq<Id>) {
    forall i, j :: 0 <= i < j < |calls| ==> calls[i] != calls[j]
  }

  /** A job asked for, or about to be, has left the queue, and only one handler is about to ask. */
  ghost predicate Asking(s: Office) {
    && Distinct(s.calls)
    && (forall j :: j in s.calls ==> j in s.jobs && s.jobs[j].state != Queued)
    && (forall h :: At(s, h).Started? ==>
          At(s, h).job in s.jobs && s.jobs[At(s, h).job].state != Queued && At(s, h).job !in s.calls)
    && (forall g, h :: g != h && At(s, g).Started? && At(s, h).Started? ==> At(s, g).job != At(s, h).job)
  }

  ghost predicate Says(s: Office, j: Id, url: Id) {
    j in s.jobs && s.jobs[j] == Job(Succeeded, Some(Opened(url)))
  }

  /** Every reply, given or about to be, is what its job recorded. */
  ghost predicate Truthful(s: Office) {
    && (forall a :: a in s.answers ==> Says(s, a.job, a.url))
    && (forall h :: At(s, h).Recorded? ==> Says(s, At(s, h).job, At(s, h).url))
  }

  ghost predicate Sound(s: Office) {
    Asking(s) && Truthful(s)
  }

  // ---------------------------------------------------------- what every step keeps

  predicate Finished(job: Job) {
    job.state == Succeeded || job.state == Failed || job.state == Cancelled
  }

  /** A finished job's row never changes again, and no job returns to the queue. */
  lemma NextKeepsJobs(s: Office, e: Event, j: Id)
    requires j in s.jobs
    ensures j in Next(s, e).jobs
    ensures Finished(s.jobs[j]) ==> Next(s, e).jobs[j] == s.jobs[j]
    ensures s.jobs[j].state != Queued ==> Next(s, e).jobs[j].state != Queued
  {
    hide WithProposal, Admits;
  }

  ghost predicate JobsKept(s: Office, t: Office) {
    forall j :: j in s.jobs ==>
      && j in t.jobs
      && (Finished(s.jobs[j]) ==> t.jobs[j] == s.jobs[j])
      && (s.jobs[j].state != Queued ==> t.jobs[j].state != Queued)
  }

  lemma NextJobsKept(s: Office, e: Event)
    ensures JobsKept(s, Next(s, e))
  {
    hide Next;
    forall j | j in s.jobs
      ensures j in Next(s, e).jobs
      ensures Finished(s.jobs[j]) ==> Next(s, e).jobs[j] == s.jobs[j]
      ensures s.jobs[j].state != Queued ==> Next(s, e).jobs[j].state != Queued
    {
      NextKeepsJobs(s, e, j);
    }
  }

  /** Only beginning makes a handler ready to ask; only asking is logged as a call. */
  lemma NextHandlers(s: Office, e: Event, h: Id)
    ensures At(Next(s, e), h).Started? && !(e.Begin? && e.handler == h) ==> At(s, h) == At(Next(s, e), h)
    ensures !e.Call? ==> Next(s, e).calls == s.calls
  {
    hide WithProposal, Admits, ReplayOf;
  }

  lemma QuietAsking(s: Office, e: Event)
    requires Asking(s) && !e.Begin? && !e.Call?
    ensures Asking(Next(s, e))
  {
    hide Next;
    NextJobsKept(s, e);
    NextHandlers(s, e, 0);
    forall h ensures At(Next(s, e), h).Started? ==> At(s, h) == At(Next(s, e), h) {
      NextHandlers(s, e, h);
    }
  }

  lemma BeginAsking(s: Office, h: Id)
    requires Asking(s)
    ensures Asking(Next(s, Begin(h)))
  {
    var t := Next(s, Begin(h));
    forall g | At(t, g).Started? && g != h ensures At(s, g) == At(t, g) {
    }
    assert At(t, h).Started? && !At(s, h).Started? ==> CanMove(s.jobs, At(t, h).job, Queued, Running);
  }

  lemma CallAsking(s: Office, h: Id, url: Option<Id>)
    requires Asking(s)
    ensures Asking(Next(s, Call(h, url)))
  {
    var t := Next(s, Call(h, url));
    forall g | At(t, g).Started? ensures g != h && At(s, g) == At(t, g) {
    }
  }

  lemma NextAsking(s: Office, e: Event)
    requires Asking(s)
    ensures Asking(Next(s, e))
  {
    hide Asking, Next;
    match e {
      case Begin(h) => BeginAsking(s, h);
      case Call(h, url) => CallAsking(s, h, url);
      case _ => QuietAsking(s, e);
    }
  }

  /** A reply the step adds, or readies, is what the job then says. */
  lemma NextAnswers(s: Office, e: Event)
    requires Truthful(s)
    ensures var t := Next(s, e);
            || t.answers == s.answers
            || exists a :: t.answers == s.answers + [a] && Says(t, a.job, a.url)
  {
    var t := Next(s, e);
    if t.answers != s.answers {
      var a := t.answers[|s.answers|];
      assert t.answers == s.answers + [a];
      assert Says(t, a.job, a.url);
    }
  }

  lemma NextRecorded(s: Office, e: Event, h: Id)
    ensures At(Next(s, e), h).Recorded? ==>
              || At(s, h) == At(Next(s, e), h)
              || Says(Next(s, e), At(Next(s, e), h).job, At(Next(s, e), h).url)
  {
    hide WithProposal, Admits, ReplayOf;
  }

  lemma NextTruthful(s: Office, e: Event)
    requires Truthful(s)
    ensures Truthful(Next(s, e))
  {
    var t := Next(s, e);
    NextAnswers(s, e);
    NextJobsKept(s, e);
    hide Next;
    forall h | At(t, h).Recorded? ensures Says(t, At(t, h).job, At(t, h).url) {
      NextRecorded(s, e, h);
    }
  }

  lemma {:induction false} RunSound(s: Office, events: seq<Event>)
    requires Sound(s)
    ensures Sound(Run(s, events))
    decreases |events|
  {
    hide Asking, Truthful;
    if events != [] {
      NextAsking(s, events[0]);
      NextTruthful(s, events[0]);
      RunSound(Next(s, events[0]), events[1..]);
    }
  }

  // ------------------------------------------------------------------ over whole runs

  /**
   In every run each job causes at most one outbound call, and every reply ever given
   for a job names the one thing that job recorded as opened.
   */
  lemma OneCallPerJob(events: seq<Event>)
    ensures var s := Run(EMPTY, events);
            && Distinct(s.calls)
            && (forall a, b :: a in s.answers && b in s.answers && a.job == b.job ==> a.url == b.url)
  {
    RunSound(EMPTY, events);
    hide Run;
    var s := Run(EMPTY, events);
    forall a, b | a in s.answers && b in s.answers && a.job == b.job ensures a.url == b.url {
      assert Says(s, a.job, a.url) && Says(s, b.job, b.url);
    }
  }

  lemma {:induction false} FinishedForever(s: Office, events: seq<Event>, j: Id)
    requires j in s.jobs && Finished(s.jobs[j])
    ensures j in Run(s, events).jobs && Run(s, events).jobs[j] == s.jobs[j]
    decreases |events|
  {
    if events != [] {
      NextKeepsJobs(s, events[0], j);
      hide Next;
      FinishedForever(Next(s, events[0]), events[1..], j);
    }
  }

  lemma NextKeepsReceipt(s: Office, e: Event, request: Id)
    requires request in s.receipts && s.receipts[request] in s.jobs
    ensures request in Next(s, e).receipts && Next(s, e).receipts[request] == s.receipts[request]
  {
  }

  lemma {:induction false} ReceiptForever(s: Office, events: seq<Event>, request: Id)
    requires request in s.receipts && s.receipts[request] in s.jobs
    ensures request in Run(s, events).receipts && Run(s, events).receipts[request] == s.receipts[request]
    decreases |events|
  {
    if events != [] {
      NextKeepsReceipt(s, events[0], request);
      NextKeepsJobs(s, events[0], s.receipts[request]);
      hide Next;
      ReceiptForever(Next(s, events[0]), events[1..], request);
    }
  }

  /**
   Once a request's job has succeeded, a retry is answered from that record exactly if its
   goal is still admitted when it is checked; otherwise it changes nothing. Either way it
   asks nobody.
   */
  lemma RetryExact(s: Office, events: seq<Event>, request: Id, url: Id, h: Id, goal: Goal, id: Id)
    requires request in s.receipts && Says(s, s.receipts[request], url)
    requires At(Run(s, events), h).Idle?
    ensures var t := Run(s, events);
            var u := Next(Next(t, Check(h, goal)), Enqueue(h, Some(request), id));
            && (u.answers == t.answers + [Answer(s.receipts[request], url)] <==> Admits(t, goal))
            && (!Admits(t, goal) ==> u == t)
            && u.calls == t.calls && u.jobs == t.jobs && u.proposals == t.proposals
  {
    ReceiptForever(s, events, request);
    FinishedForever(s, events, s.receipts[request]);
    hide Run;
    var t := Run(s, events);
    assert t.answers != t.answers + [Answer(s.receipts[request], url)];
  }

  lemma NextNames(s: Office, e: Event, p: Id)
    requires p in s.proposals && s.proposals[p].pullRequest.Some?
    ensures p in Next(s, e).proposals && Next(s, e).proposals[p].pullRequest.Some?
  {
  }

  /** A proposal that names a pull request names one ever after. */
  lemma {:induction false} NamedForever(s: Office, events: seq<Event>, p: Id)
    requires p in s.proposals && s.proposals[p].pullRequest.Some?
    ensures p in Run(s, events).proposals && Run(s, events).proposals[p].pullRequest.Some?
    decreases |events|
  {
    if events != [] {
      NextNames(s, events[0], p);
      hide Next;
      NamedForever(Next(s, events[0]), events[1..], p);
    }
  }

  predicate Closed(proposal: Proposal) {
    Settled(proposal.status) || proposal.pullRequest.Some?
  }

  /** Once its proposal is settled or published, a request is refused for good, recorded success or not. */
  lemma PublishedRefused(s: Office, events: seq<Event>, p: Id, from: Status, h: Id, request: Option<Id>, id: Id)
    requires p in s.proposals && Closed(s.proposals[p]) && At(Run(s, events), h).Idle?
    ensures var t := Run(s, events);
            Next(Next(t, Check(h, PullRequest(p, from))), Enqueue(h, request, id)) == t
  {
    if Settled(s.proposals[p].status) {
      SettledForever(s, events, p);
    } else {
      NamedForever(s, events, p);
    }
    hide Run;
  }

  lemma NextSettled(s: Office, e: Event, p: Id)
    requires p in s.proposals && Settled(s.proposals[p].status)
    ensures p in Next(s, e).proposals && Next(s, e).proposals[p] == s.proposals[p]
  {
  }

  /** A merged or rejected proposal keeps its ruling, its revision and its pull request for good. */
  lemma {:induction false} SettledForever(s: Office, events: seq<Event>, p: Id)
    requires p in s.proposals && Settled(s.proposals[p].status)
    ensures p in Run(s, events).proposals && Run(s, events).proposals[p] == s.proposals[p]
    decreases |events|
  {
    if events != [] {
      NextSettled(s, events[0], p);
      hide Next;
      SettledForever(Next(s, events[0]), events[1..], p);
    }
  }
}
