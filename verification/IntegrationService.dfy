/**
 The integration store's tables and the two request handlers that spend a
 credential. Each handler is the ordered sequence of statements and calls the
 transition system interleaves, so what holds of all runs holds of it.
 */
module IntegrationService {
  import opened Results
  import opened IntegrationJobs

  datatype Refusal = InvalidArgument | NotFound | FailedPrecondition | AlreadyExists | Unavailable

  class Store {
    var jobs: map<Id, Job>
    var receipts: map<Id, Id>
    var proposals: map<Id, Proposal>

    constructor ()
      ensures jobs == map[] && receipts == map[] && proposals == map[]
    {
      jobs, receipts, proposals := map[], map[], map[];
    }

    /** A request seen before is answered with the job it created; a new one creates it, queued. */
    method EnqueueJob(request: Option<Id>, id: Id) returns (job: Result<Id, Refusal>)
      modifies this`jobs, this`receipts
      ensures request.Some? && request.value in old(receipts) && old(receipts)[request.value] in old(jobs) ==>
                job == Ok(old(receipts)[request.value]) && jobs == old(jobs) && receipts == old(receipts)
      ensures !(request.Some? && request.value in old(receipts) && old(receipts)[request.value] in old(jobs)) ==>
                && (job.Err? <==> id in old(jobs))
                && (job.Err? ==> jobs == old(jobs) && receipts == old(receipts))
                && (job.Ok? ==> job == Ok(id) && jobs == old(jobs)[id := Job(Queued, None)]
                                && receipts == if request.Some? then old(receipts)[request.value := id]
                                               else old(receipts))
    {
      if request.Some? && request.value in receipts && receipts[request.value] in jobs {
        return Ok(receipts[request.value]);
      }
      if id in jobs {
        return Err(AlreadyExists);
      }
      jobs := jobs[id := Job(Queued, None)];
      if request.Some? {
        receipts := receipts[request.value := id];
      }
      return Ok(id);
    }

    /** Moves a job between declared states, if it still is where the caller believes. */
    method TransitionJob(j: Id, from: JobState, to: JobState, result: Option<Report>)
      returns (moved: Result<Job, Refusal>)
      modifies this`jobs
      ensures moved.Ok? <==> CanMove(old(jobs), j, from, to)
      ensures moved.Ok? ==> moved.value == Moved(old(jobs)[j], to, result) && jobs == old(jobs)[j := moved.value]
      ensures moved.Err? ==> jobs == old(jobs)
      ensures moved == Err(InvalidArgument) <==> !MayMove(from, to)
      ensures moved == Err(NotFound) <==> MayMove(from, to) && j !in old(jobs)
    {
      if !MayMove(from, to) {
        return Err(InvalidArgument);
      }
      if j !in jobs {
        return Err(NotFound);
      }
      if jobs[j].state != from {
        return Err(FailedPrecondition);
      }
      var job := jobs[j].(state := to);
      if result.Some? {
        job := job.(result := result);
      }
      jobs := jobs[j := job];
      return Ok(job);
    }

    method ProposeTranslation(p: Id) returns (accepted: bool)
      modifies this`proposals
      ensures accepted <==> p !in old(proposals)
      ensures proposals == if accepted then old(proposals)[p := Proposal(Draft, None, 1)] else old(proposals)
    {
      accepted := p !in proposals;
      if accepted {
        proposals := proposals[p := Proposal(Draft, None, 1)];
      }
    }

    /** Moves a proposal between declared states; one that is settled is never moved. */
    method UpdateProposal(p: Id, from: Status, to: Status, url: Option<Id>) returns (updated: Result<Proposal, Refusal>)
      modifies this`proposals
      ensures proposals == WithProposal(old(proposals), p, from, to, url)
      ensures updated.Ok? <==> proposals != old(proposals)
      ensures updated.Ok? ==> p in proposals && proposals[p] == updated.value && updated.value.status == to
    {
      if !MayBecome(from, to) {
        return Err(InvalidArgument);
      }
      if p !in proposals {
        return Err(NotFound);
      }
      var proposal := proposals[p];
      if proposal.status != from || Settled(proposal.status) {
        return Err(FailedPrecondition);
      }
      var next := Proposal(to, if url.Some? then url else proposal.pullRequest, proposal.revision + 1);
      assert next != proposal;
      proposals := proposals[p := next];
      assert proposals[p] != old(proposals)[p];
      return Ok(next);
    }
  }

  class Service {
    const handler: Id
    const store: Store
    ghost var office: Office

    ghost predicate Valid()
      reads this, store
    {
      && office.jobs == store.jobs && office.receipts == store.receipts && office.proposals == store.proposals
      && Sound(office)
    }

    constructor (handler: Id, store: Store, ghost office: Office)
      requires office.jobs == store.jobs && office.receipts == store.receipts && office.proposals == store.proposals
      requires Sound(office)
      ensures this.handler == handler && this.store == store && this.office == office && Valid()
    {
      this.handler, this.store, this.office := handler, store, office;
    }

    ghost method Step(e: Event)
      requires Sound(office)
      modifies this`office
      ensures office == Next(old(office), e) && Sound(office)
    {
      NextAsking(office, e);
      NextTruthful(office, e);
      office := Next(office, e);
    }

    /** Asks, once, and records what came of it. */
    method RunJob(j: Id, goal: Goal, reply: Option<Id>) returns (answer: Result<Id, Refusal>)
      requires Valid() && At(office, handler) == Started(j, goal) && j in store.jobs && store.jobs[j].state == Running
      modifies this`office, store`jobs
      ensures Valid() && office.calls == old(office.calls) + [j]
      ensures answer == (if reply.Some? then Ok(reply.value) else Err(Unavailable))
      ensures answer.Ok? ==>
                && Says(office, j, answer.value)
                && office.answers == old(office.answers) + (if goal.Issue? then [Answer(j, answer.value)] else [])
                && At(office, handler) == if goal.Issue? then Idle else Recorded(j, goal, answer.value)
      ensures answer.Err? ==> At(office, handler).Idle? && office.answers == old(office.answers)
      ensures answer.Err? ==> store.jobs == old(store.jobs)[j := Job(Failed, Some(DidNotComplete))]
    {
      hide Sound;
      Step(Call(handler, reply));
      if reply.None? {
        var failed := store.TransitionJob(j, Running, Failed, Some(DidNotComplete));
        Step(RecordFailure(handler));
        return Err(Unavailable);
      }
      var done := store.TransitionJob(j, Running, Succeeded, Some(Opened(reply.value)));
      Step(Succeed(handler));
      return Ok(reply.value);
    }

    /** Takes the job a request enqueued, unless a retry already has its answer or another handler has the job. */
    method Perform(j: Id, goal: Goal, credentials: bool, reply: Option<Id>) returns (answer: Result<Id, Refusal>)
      requires Valid() && At(office, handler) == Ready(j, goal)
      modifies this`office, store`jobs
      ensures Valid()
      ensures office.calls == old(office.calls) || office.calls == old(office.calls) + [j]
      ensures answer.Ok? ==>
                && reply == Some(answer.value) && Says(office, j, answer.value)
                && office.answers == old(office.answers) + (if goal.Issue? then [Answer(j, answer.value)] else [])
                && At(office, handler) == if goal.Issue? then Idle else Recorded(j, goal, answer.value)
      ensures answer.Err? ==> At(office, handler).Idle? && office.answers == old(office.answers)
      ensures !credentials ==> answer == Err(Unavailable)
      ensures !credentials || j !in old(store.jobs) || old(store.jobs)[j].state != Queued ==>
                answer.Err? && office.calls == old(office.calls) && store.jobs == old(store.jobs)
      ensures credentials && j in old(store.jobs) && old(store.jobs)[j].state == Queued ==>
                && office.calls == old(office.calls) + [j]
                && answer == if reply.Some? then Ok(reply.value) else Err(Unavailable)
    {
      hide Sound;
      if !credentials {
        Step(Crash(handler));
        return Err(Unavailable);
      }
      var begun := store.TransitionJob(j, Queued, Running, None);
      Step(Begin(handler));
      if begun.Err? {
        return Err(begun.error);
      }
      answer := RunJob(j, goal, reply);
    }

    /** Enqueues for a checked goal and decides between answering from the record and going on. */
    method Enter(goal: Goal, request: Option<Id>, id: Id) returns (entry: Result<(Id, Replay), Refusal>)
      requires Valid() && At(office, handler) == Checked(goal)
      modifies this`office, store`jobs, store`receipts
      ensures Valid() && office.calls == old(office.calls)
      ensures entry.Ok? ==>
                && entry.value.0 in store.jobs && entry.value.1 == ReplayOf(store.jobs[entry.value.0])
                && (request.Some? ==> request.value in store.receipts && store.receipts[request.value] == entry.value.0)
                && At(office, handler) == (if entry.value.1.Proceed? then Ready(entry.value.0, goal) else Idle)
                && (entry.value.1.Reply? ==> Says(office, entry.value.0, entry.value.1.url))
                && (entry.value.1.Reply? ==>
                      office.answers == old(office.answers) + [Answer(entry.value.0, entry.value.1.url)])
      ensures entry.Ok? && !entry.value.1.Reply? ==> office.answers == old(office.answers)
      ensures entry.Err? ==> At(office, handler).Idle? && office.answers == old(office.answers)
      ensures request.Some? && request.value in old(store.receipts)
              && old(store.receipts)[request.value] in old(store.jobs) ==>
                entry.Ok? && entry.value.0 == old(store.receipts)[request.value] && store.jobs == old(store.jobs)
      ensures request.None? && id !in old(store.jobs) ==>
                entry == Ok((id, Proceed)) && store.jobs == old(store.jobs)[id := Job(Queued, None)]
    {
      hide Sound;
      var job := store.EnqueueJob(request, id);
      Step(Enqueue(handler, request, id));
      if job.Err? {
        return Err(job.error);
      }
      return Ok((job.value, ReplayOf(store.jobs[job.value])));
    }

    /** Opens one issue per request, however often the request is retried. */
    method CreateIssue(request: Option<Id>, id: Id, credentials: bool, reply: Option<Id>)
      returns (answer: Result<Id, Refusal>)
      requires Valid() && At(office, handler).Idle?
      modifies this`office, store`jobs, store`receipts
      ensures Valid() && At(office, handler).Idle?
      ensures |office.calls| <= |old(office.calls)| + 1
      ensures answer.Ok? ==>
                exists j :: Says(office, j, answer.value)
                            && office.answers == old(office.answers) + [Answer(j, answer.value)]
      ensures answer.Err? ==> office.answers == old(office.answers)
      ensures request.Some? && request.value in old(store.receipts)
              && old(store.receipts)[request.value] in old(store.jobs)
              && !ReplayOf(old(store.jobs)[old(store.receipts)[request.value]]).Proceed? ==>
                && office.calls == old(office.calls) && store.jobs == old(store.jobs)
                && (answer.Ok? <==> ReplayOf(old(store.jobs)[old(store.receipts)[request.value]]).Reply?)
                && (answer.Ok? ==> Says(old(office), old(store.receipts)[request.value], answer.value))
      ensures request.None? && id !in old(store.jobs) ==>
                && office.calls == old(office.calls) + (if credentials then [id] else [])
                && answer == if credentials && reply.Some? then Ok(reply.value) else Err(Unavailable)
    {
      Step(Check(handler, Issue));
      var entry := Enter(Issue, request, id);
      if entry.Err? {
        return Err(entry.error);
      }
      match entry.value.1
      case Reply(url) => return Ok(url);
      case Refused => return Err(FailedPrecondition);
      case Proceed =>
        answer := Perform(entry.value.0, Issue, credentials, reply);
    }

    /** Puts the proposal under review where its pull request is. */
    method PublishProposal(j: Id, p: Id, from: Status, url: Id) returns (answer: Result<Id, Refusal>)
      requires Valid() && At(office, handler) == Recorded(j, PullRequest(p, from), url)
      modifies this`office, store`proposals
      ensures Valid() && At(office, handler).Idle? && office.calls == old(office.calls)
      ensures store.proposals == WithProposal(old(store.proposals), p, from, Proposed, Some(url))
      ensures answer.Ok? <==> store.proposals != old(store.proposals)
      ensures answer.Ok? ==>
                && answer.value == url && Says(office, j, url)
                && p in store.proposals && store.proposals[p].status == Proposed
                && store.proposals[p].pullRequest == Some(url)
    {
      assert Says(office, j, url);
      hide Sound;
      var updated := store.UpdateProposal(p, from, Proposed, Some(url));
      Step(Publish(handler));
      answer := if updated.Ok? then Ok(url) else Err(updated.error);
    }

    /** Opens a pull request for a proposal that is unsettled and names none, then puts the proposal under review. */
    method CreateTranslationPullRequest(p: Id, request: Option<Id>, id: Id, credentials: bool, reply: Option<Id>)
      returns (answer: Result<Id, Refusal>)
      requires Valid() && At(office, handler).Idle?
      modifies this`office, store`jobs, store`receipts, store`proposals
      ensures Valid() && At(office, handler).Idle?
      ensures |office.calls| <= |old(office.calls)| + 1
      ensures p !in old(store.proposals) ==> answer == Err(NotFound)
      ensures p in old(store.proposals) && Closed(old(store.proposals)[p]) ==>
                && answer == Err(if Settled(old(store.proposals)[p].status) then FailedPrecondition else AlreadyExists)
                && office == old(office) && store.jobs == old(store.jobs) && store.proposals == old(store.proposals)
      ensures answer.Ok? ==> exists j :: Says(office, j, answer.value)
      ensures p in old(store.proposals) && !Closed(old(store.proposals)[p])
              && request.Some? && request.value in old(store.receipts)
              && old(store.receipts)[request.value] in old(store.jobs)
              && !ReplayOf(old(store.jobs)[old(store.receipts)[request.value]]).Proceed? ==>
                && office.calls == old(office.calls)
                && store.jobs == old(store.jobs) && store.proposals == old(store.proposals)
                && (answer.Ok? <==> ReplayOf(old(store.jobs)[old(store.receipts)[request.value]]).Reply?)
                && (answer.Ok? ==> Says(old(office), old(store.receipts)[request.value], answer.value))
      ensures answer.Ok? && office.calls != old(office.calls) ==>
                && p in store.proposals && store.proposals[p].status == Proposed
                && store.proposals[p].pullRequest == Some(answer.value)
      ensures p in old(store.proposals) && !Closed(old(store.proposals)[p])
              && request.None? && id !in old(store.jobs) ==>
                && office.calls == old(office.calls) + (if credentials then [id] else [])
                && (answer.Ok? <==> credentials && reply.Some? && old(store.proposals)[p].status == Draft)
                && (!answer.Ok? ==> store.proposals == old(store.proposals))
    {
      hide Sound;
      if p !in store.proposals {
        return Err(NotFound);
      }
      var proposal := store.proposals[p];
      if Settled(proposal.status) {
        return Err(FailedPrecondition);
      }
      if proposal.pullRequest.Some? {
        return Err(AlreadyExists);
      }
      var goal := PullRequest(p, proposal.status);
      Step(Check(handler, goal));
      var entry := Enter(goal, request, id);
      if entry.Err? {
        return Err(entry.error);
      }
      match entry.value.1
      case Reply(url) => return Ok(url);
      case Refused => return Err(FailedPrecondition);
      case Proceed =>
        answer := Perform(entry.value.0, goal, credentials, reply);
        if answer.Ok? {
          answer := PublishProposal(entry.value.0, p, proposal.status, answer.value);
        }
    }
  }
}
