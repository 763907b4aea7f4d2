/**
 The lives of jobs and proposals over every run, state by state: which moves there are,
 what a retry meets in each state, and that work withdrawn before it began is never done.
 */
module IntegrationRecords {
  import opened Results
  import opened IntegrationJobs

  // ----------------------------------------------------------------------------- jobs

  /** The only ways a job's state changes. */
  ghost predicate JobMoves(from: JobState, to: JobState) {
    || (from == Queued && to == Running)
    || (from == Queued && to == Cancelled)
    || (from == Running && to == Succeeded)
    || (from == Running && to == Failed)
  }

  /** A job is created queued with nothing recorded, and then moves only as declared or not at all. */
  lemma JobLives(s: Office, e: Event, j: Id)
    requires j in Next(s, e).jobs
    ensures j !in s.jobs ==> Next(s, e).jobs[j] == Job(Queued, None) && e.Enqueue? && e.id == j
    ensures j in s.jobs ==>
              || Next(s, e).jobs[j] == s.jobs[j]
              || JobMoves(s.jobs[j].state, Next(s, e).jobs[j].state)
  {
    hide WithProposal, Admits;
  }

  /** A move along a declared path is made exactly if the job stands where the caller believes. */
  lemma MovesExactly(s: Office, j: Id, from: JobState, to: JobState, result: Option<Report>)
    ensures var t := Next(s, Move(j, from, to, result));
            if j in s.jobs && s.jobs[j].state == from && JobMoves(from, to)
            then t.jobs == s.jobs[j := Job(to, if result.None? then s.jobs[j].result else result)]
            else t == s
  {
  }

  /** What was asked for, or is about to be, was taken from the queue and so can never be withdrawn. */
  ghost predicate Taken(s: Office) {
    && (forall j :: j in s.calls ==> j in s.jobs && Begun(s.jobs[j]))
    && (forall h :: At(s, h).Started? ==> At(s, h).job in s.jobs && Begun(s.jobs[At(s, h).job]))
  }

  ghost predicate Begun(job: Job) {
    job.state == Running || job.state == Succeeded || job.state == Failed
  }

  lemma NextBegun(s: Office, e: Event, j: Id)
    requires j in s.jobs && Begun(s.jobs[j])
    ensures j in Next(s, e).jobs && Begun(Next(s, e).jobs[j])
  {
    NextKeepsJobs(s, e, j);
    JobLives(s, e, j);
    hide Next;
  }

  lemma NextTakes(s: Office, e: Event)
    requires Taken(s)
    ensures Taken(Next(s, e))
  {
    var t := Next(s, e);
    forall j | j in t.calls ensures j in t.jobs && Begun(t.jobs[j]) {
      CallsFrom(s, e, j);
      NextBegun(s, e, j);
    }
    forall h | At(t, h).Started? ensures At(t, h).job in t.jobs && Begun(t.jobs[At(t, h).job]) {
      StartsFrom(s, e, h);
      if At(s, h) == At(t, h) {
        NextBegun(s, e, At(s, h).job);
      }
    }
  }

  lemma CallsFrom(s: Office, e: Event, j: Id)
    requires Taken(s) && j in Next(s, e).calls
    ensures j in s.jobs && Begun(s.jobs[j])
  {
    hide WithProposal, Admits, ReplayOf;
  }

  lemma StartsFrom(s: Office, e: Event, h: Id)
    requires At(Next(s, e), h).Started?
    ensures || At(s, h) == At(Next(s, e), h)
            || (At(Next(s, e), h).job in Next(s, e).jobs && Next(s, e).jobs[At(Next(s, e), h).job].state == Running)
  {
    hide WithProposal, Admits, ReplayOf;
  }

  lemma {:induction false} RunTakes(s: Office, events: seq<Event>)
    requires Taken(s)
    ensures Taken(Run(s, events))
    decreases |events|
  {
    if events != [] {
      NextTakes(s, events[0]);
      hide Next, Taken;
      RunTakes(Next(s, events[0]), events[1..]);
    }
  }

  /** In every run a job that is queued or cancelled has caused no outbound call. */
  lemma WithdrawnNeverAsked(events: seq<Event>, j: Id)
    requires j in Run(EMPTY, events).jobs
    requires Run(EMPTY, events).jobs[j].state == Queued || Run(EMPTY, events).jobs[j].state == Cancelled
    ensures j !in Run(EMPTY, events).calls
  {
    RunTakes(EMPTY, events);
    hide Run;
  }

  // -------------------------------------------------------------------------- retries

  /**
   A retry meets its request's job: queued, it goes on with that job; succeeded with
   something opened, it is answered with that; in any other state it is refused. In no
   case does it create a job or ask anybody.
   */
  lemma RetryByState(s: Office, h: Id, request: Id, id: Id)
    requires At(s, h).Checked? && request in s.receipts && s.receipts[request] in s.jobs
    ensures var j, t := s.receipts[request], Next(s, Enqueue(h, Some(request), id));
            && t.jobs == s.jobs && t.receipts == s.receipts && t.calls == s.calls && t.proposals == s.proposals
            && At(t, h) == (if s.jobs[j].state == Queued then Ready(j, At(s, h).goal) else Idle)
            && match s.jobs[j]
               case Job(Succeeded, Some(Opened(url))) => t.answers == s.answers + [Answer(j, url)]
               case _ => t.answers == s.answers
  {
  }

  // ------------------------------------------------------------------------- proposals

  /** The only ways a proposal's status changes. */
  ghost predicate ProposalMoves(from: Status, to: Status) {
    || (from == Draft && to == Proposed)
    || (from == Draft && to == Rejected)
    || (from == Proposed && to == Draft)
    || (from == Proposed && to == Merged)
    || (from == Proposed && to == Rejected)
  }

  /** A proposal starts as a draft at revision one; each change is a declared move and one revision. */
  lemma ProposalLives(s: Office, e: Event, p: Id)
    requires p in Next(s, e).proposals
    ensures p !in s.proposals ==> Next(s, e).proposals[p] == Proposal(Draft, None, 1) && e == Propose(p)
    ensures p in s.proposals && Next(s, e).proposals[p] != s.proposals[p] ==>
              && ProposalMoves(s.proposals[p].status, Next(s, e).proposals[p].status)
              && Next(s, e).proposals[p].revision == s.proposals[p].revision + 1
  {
    hide ReplayOf, CanMove;
  }

  /** A decision is taken exactly if the proposal stands where the caller believes; a name given replaces the old. */
  lemma DecidedExactly(s: Office, p: Id, from: Status, to: Status, url: Option<Id>)
    ensures var t := Next(s, Decide(p, from, to, url));
            t == s.(proposals :=
              if p in s.proposals && s.proposals[p].status == from && ProposalMoves(from, to)
              then s.proposals[p := Proposal(to, if url.None? then s.proposals[p].pullRequest else url,
                                             s.proposals[p].revision + 1)]
              else s.proposals)
  {
  }

  /** A pull request is asked for only for a draft or proposed text that names none. */
  lemma AdmittedExactly(s: Office, h: Id, p: Id, from: Status)
    requires At(s, h).Idle?
    ensures At(Next(s, Check(h, PullRequest(p, from))), h).Checked? <==>
            && p in s.proposals && s.proposals[p].status == from && s.proposals[p].pullRequest.None?
            && (from == Draft || from == Proposed)
  {
  }

  // ---------------------------------------------------------------------- publication

  /** A pull request that was opened is recorded exactly if its proposal still is the draft the request read. */
  lemma PublishedExactly(s: Office, h: Id, j: Id, p: Id, from: Status, url: Id)
    requires At(s, h) == Recorded(j, PullRequest(p, from), url)
    ensures var t := Next(s, Publish(h));
            && At(t, h).Idle? && t.calls == s.calls && t.jobs == s.jobs
            && if from == Draft && p in s.proposals && s.proposals[p].status == Draft
               then t.proposals == s.proposals[p := Proposal(Proposed, Some(url), s.proposals[p].revision + 1)]
                    && t.answers == s.answers + [Answer(j, url)]
               else t.proposals == s.proposals && t.answers == s.answers
  {
  }

  /** A handler that checks, enqueues a new job and takes it from the queue. */
  function AfterBegin(s: Office, h: Id, goal: Goal, id: Id): Office {
    Next(Next(Next(s, Check(h, goal)), Enqueue(h, None, id)), Begin(h))
  }

  /** The same handler asks, is answered and records it. */
  function AfterSuccess(s: Office, h: Id, goal: Goal, id: Id, url: Id): Office {
    Next(Next(AfterBegin(s, h, goal, id), Call(h, Some(url))), Succeed(h))
  }

  ghost predicate Openable(s: Office, p: Id) {
    && p in s.proposals && s.proposals[p].pullRequest.None?
    && (s.proposals[p].status == Draft || s.proposals[p].status == Proposed)
  }

  lemma RequestBegins(s: Office, h: Id, p: Id, id: Id)
    requires At(s, h).Idle? && Openable(s, p) && id !in s.jobs
    ensures var goal := PullRequest(p, s.proposals[p].status);
            AfterBegin(s, h, goal, id)
            == s.(jobs := s.jobs[id := Job(Running, None)], handlers := s.handlers[h := Started(id, goal)])
  {
    var goal := PullRequest(p, s.proposals[p].status);
    var a := Next(s, Check(h, goal));
    assert a == Put(s, h, Checked(goal));
    var b := Next(a, Enqueue(h, None, id));
    assert b == Put(a.(jobs := s.jobs[id := Job(Queued, None)]), h, Ready(id, goal));
  }

  lemma RequestOpens(s: Office, h: Id, p: Id, id: Id, url: Id)
    requires At(s, h).Idle? && Openable(s, p) && id !in s.jobs
    ensures var goal := PullRequest(p, s.proposals[p].status);
            AfterSuccess(s, h, goal, id, url)
            == s.(jobs := s.jobs[id := Job(Succeeded, Some(Opened(url)))], calls := s.calls + [id],
                  handlers := s.handlers[h := Recorded(id, goal, url)])
  {
    RequestBegins(s, h, p, id);
    hide AfterBegin;
  }

  /**
   A request for a proposal that names no pull request opens one, whatever its status; a
   draft then is under review at that address, and a proposal already under review is left
   as it was, naming none, so that the next request opens another.
   */
  lemma OpenedAndRecordedExactly(s: Office, h: Id, p: Id, id: Id, url: Id)
    requires At(s, h).Idle? && Openable(s, p) && id !in s.jobs
    ensures var status := s.proposals[p].status;
            var t := Next(AfterSuccess(s, h, PullRequest(p, status), id, url), Publish(h));
            && t.calls == s.calls + [id] && Says(t, id, url) && At(t, h).Idle? && p in t.proposals
            && (t.proposals[p].pullRequest == Some(url) <==> status == Draft)
            && (status == Draft ==> t.proposals[p].status == Proposed && t.answers == s.answers + [Answer(id, url)])
            && (status == Proposed ==> t.proposals == s.proposals && t.answers == s.answers && Openable(t, p))
  {
    RequestOpens(s, h, p, id, url);
    hide AfterSuccess;
    var status := s.proposals[p].status;
    PublishedExactly(AfterSuccess(s, h, PullRequest(p, status), id, url), h, id, p, status, url);
  }
}
