/**
 What a material's fields mean over every run: when ready means ready, what trash
 and restore return, and readings of the rows that hold along a run exactly if one
 kind of call is never granted in it.
 */
module MaterialStatus {
  import opened Results
  import opened MaterialLibrary

  // ---------------------------------------------------------------------- the status

  /** A ready material names a version, and only a trashed one is shown as trashed. */
  ghost predicate StatusSound(s: Library) {
    forall m :: m in s.materials ==>
      && (s.materials[m].status == Ready ==> s.materials[m].current.Some?)
      && (s.materials[m].status == Trashed ==> s.materials[m].trashed)
  }

  lemma StepStatusSound(s: Library, c: Call)
    requires StatusSound(s)
    ensures StatusSound(Step(s, c))
  {
    hide Released, Forgotten, WithoutMaterial;
  }

  lemma {:induction false} RunStatusSound(s: Library, calls: seq<Call>)
    requires StatusSound(s)
    ensures StatusSound(Run(s, calls))
    decreases |calls|
  {
    if calls != [] {
      StepStatusSound(s, calls[0]);
      hide Step, StatusSound;
      RunStatusSound(Step(s, calls[0]), calls[1..]);
    }
  }

  /** Over every run from an empty library a ready material names a version that exists and is its own. */
  lemma ReadyNamesVersion(calls: seq<Call>, m: Id)
    requires m in Run(EMPTY, calls).materials && Run(EMPTY, calls).materials[m].status == Ready
    ensures var s := Run(EMPTY, calls);
            s.materials[m].current.Some? && PointsWithin(s, s.materials[m].current.value, m)
  {
    RunStatusSound(EMPTY, calls);
    RunConsistent(EMPTY, calls);
  }

  function TrashCall(group: Id, now: int, m: Id, trashing: bool): Call {
    Call(group, true, now, SetTrash(m, trashing))
  }

  /**
   Trash and restore give back the material with two revisions more, and nothing else
   changes, if and only if no new version was being uploaded: such a material returns ready.
   */
  lemma RestoreExact(s: Library, m: Id, trashedAt: int, restoredAt: int)
    requires StatusSound(s) && m in s.materials && !s.materials[m].trashed
    ensures var was := s.materials[m];
            var trash, restore := TrashCall(was.group, trashedAt, m, true), TrashCall(was.group, restoredAt, m, false);
            var t := Step(s, trash);
            var u := Step(t, restore);
            var same := was.(revision := was.revision + 2, updatedAt := restoredAt);
            && Attempt(s, trash).0 == Done && Attempt(t, restore).0 == Done
            && t.materials[m].status == Trashed && t.materials[m].trashed
            && u == s.(materials := s.materials[m := u.materials[m]])
            && u.materials[m] == same.(status := u.materials[m].status)
            && (u.materials[m] == same <==> !(was.status == Uploading && was.current.Some?))
            && (u.materials[m].status == Ready <==> was.current.Some?)
  {
  }

  // ---------------------------------------------------------------------------- frames

  /** A refused call changes nothing, and who may not edit is always told so. */
  lemma RefusedChangesNothing(s: Library, c: Call)
    ensures Attempt(s, c).0 != Done ==> Step(s, c) == s
    ensures Attempt(s, c).0 == PermissionDenied <==> !c.editor
  {
    hide Released, Forgotten, WithoutMaterial;
  }

  /** A change to a material is one revision, stamped with the instant, by its own group. */
  ghost predicate Stamped(before: Material, after: Material, c: Call) {
    && after.revision == before.revision + 1 && after.updatedAt == c.now
    && after.group == before.group == c.group
  }

  lemma ChangesAreStamped(s: Library, c: Call, m: Id)
    requires Consistent(s) && m in s.materials
    ensures m !in Step(s, c).materials <==>
              c.editor && c.op == Purge(m) && c.group == s.materials[m].group && s.materials[m].trashed
    ensures m in Step(s, c).materials && Step(s, c).materials[m] != s.materials[m] ==>
              Stamped(s.materials[m], Step(s, c).materials[m], c)
  {
    hide Released, Forgotten, WithoutMaterial;
    if c.op.CompleteUpload? && c.op.upload in s.sessions {
      assert SessionPlaced(s, s.sessions[c.op.upload]);
    }
  }

  /** The material a granted call acts on, when it acts on one that is there. */
  ghost function Acted(s: Library, c: Call): Option<Id> {
    match c.op
    case CompleteUpload(u, _, _) => if u in s.sessions then s.sessions[u].material else None
    case CreateVersion(m, _, _, _) => Some(m)
    case UpdateMetadata(m) => Some(m)
    case SetTrash(m, _) => Some(m)
    case _ => None
  }

  /** A granted call stamps the material it acts on; describing it changes nothing more. */
  lemma GrantsStamp(s: Library, c: Call)
    requires Consistent(s) && Attempt(s, c).0 == Done && Acted(s, c).Some?
    ensures var m, t := Acted(s, c).value, Step(s, c);
            && m in s.materials && m in t.materials && Stamped(s.materials[m], t.materials[m], c)
            && (c.op.UpdateMetadata? ==>
                  t == s.(materials := s.materials[m := s.materials[m].(revision := s.materials[m].revision + 1,
                                                                        updatedAt := c.now)]))
  {
    hide Released, Forgotten, WithoutMaterial;
    if c.op.CompleteUpload? {
      assert SessionPlaced(s, s.sessions[c.op.upload]);
    }
  }

  /** Only a begun upload creates a material: its own group's, at revision one, ready exactly if the bytes are held. */
  lemma CreatedByBegin(s: Library, c: Call, m: Id)
    requires m !in s.materials && m in Step(s, c).materials
    ensures c.editor && c.op.BeginUpload? && c.op.material == m
    ensures var made, held := Step(s, c).materials[m], (c.group, c.op.hash) in s.objects;
            && made.group == c.group && made.hash == c.op.hash && made.revision == 1 && made.updatedAt == c.now
            && !made.trashed && made.status == (if held then Ready else Uploading) && (held <==> made.current.Some?)
  {
    hide Released, Forgotten, WithoutMaterial;
  }

  /** The row the call names belongs to the caller's group. */
  ghost predicate NamesOwnRow(s: Library, c: Call) {
    match c.op
    case BeginUpload(_, _, _, _) => true
    case CompleteUpload(u, _, _) => u in s.sessions && s.sessions[u].group == c.group
    case CancelUpload(u) => u in s.sessions && s.sessions[u].group == c.group
    case _ => c.op.material in s.materials && s.materials[c.op.material].group == c.group
  }

  /** The ids drawn for new rows are in use already. */
  ghost predicate DrawsTakenId(s: Library, c: Call) {
    match c.op
    case BeginUpload(m, _, v, u) => m in s.materials || v in s.versions || u in s.sessions
    case CompleteUpload(_, _, v) => v in s.versions
    case CreateVersion(_, _, v, u) => v in s.versions || u in s.sessions
    case _ => false
  }

  /** What the call asks for is excluded by the state of its own row. */
  ghost predicate RowExcludes(s: Library, c: Call)
    requires NamesOwnRow(s, c)
  {
    match c.op
    case CompleteUpload(u, h, _) =>
      var session := s.sessions[u];
      !session.state.Open() || session.material.None? || session.material.value !in s.materials
      || s.materials[session.material.value].hash != h
    case CancelUpload(u) => !s.sessions[u].state.Open()
    case CreateVersion(m, _, _, _) => s.materials[m].trashed
    case SetTrash(m, trashing) => s.materials[m].trashed == trashing
    case Purge(m) => !s.materials[m].trashed
    case _ => false
  }

  /** Each refusal has its own cause, and a call with none of them and fresh ids is granted. */
  lemma RepliesExact(s: Library, c: Call)
    ensures var reply := Attempt(s, c).0;
            && (reply == NotFound <==> c.editor && !NamesOwnRow(s, c))
            && (reply == FailedPrecondition <==> c.editor && NamesOwnRow(s, c) && RowExcludes(s, c))
            && (reply == ConstraintViolated ==> DrawsTakenId(s, c))
            && (c.editor && NamesOwnRow(s, c) && !RowExcludes(s, c) && !DrawsTakenId(s, c) ==> reply == Done)
  {
    hide Released, Forgotten, WithoutMaterial;
  }

  /** All rows that belong to the group are the same in both libraries. */
  ghost predicate SameGroup(s: Library, t: Library, g: Id) {
    SameMaterials(s, t, g) && SameVersions(s, t, g) && SameSessions(s, t, g) && SameObjects(s, t, g)
  }

  ghost predicate SameMaterials(s: Library, t: Library, g: Id) {
    forall m :: || (m in s.materials && s.materials[m].group == g)
                || (m in t.materials && t.materials[m].group == g) ==>
      m in s.materials && m in t.materials && s.materials[m] == t.materials[m]
  }

  ghost predicate OwnVersion(s: Library, v: Id, g: Id) {
    v in s.versions && s.versions[v].material in s.materials && s.materials[s.versions[v].material].group == g
  }

  ghost predicate SameVersions(s: Library, t: Library, g: Id) {
    forall v :: OwnVersion(s, v, g) || OwnVersion(t, v, g) ==>
      v in s.versions && v in t.versions && s.versions[v] == t.versions[v]
  }

  ghost predicate SameSessions(s: Library, t: Library, g: Id) {
    forall u :: || (u in s.sessions && s.sessions[u].group == g)
                || (u in t.sessions && t.sessions[u].group == g) ==>
      u in s.sessions && u in t.sessions && s.sessions[u] == t.sessions[u]
  }

  ghost predicate SameObjects(s: Library, t: Library, g: Id) {
    forall key: ObjectKey :: key.0 == g ==>
      (key in s.objects <==> key in t.objects) && (key in s.objects ==> s.objects[key] == t.objects[key])
  }

  lemma StepKeepsMaterials(s: Library, c: Call, g: Id)
    requires Consistent(s) && c.group != g
    ensures SameMaterials(s, Step(s, c), g)
  {
    var t := Step(s, c);
    hide Step, Consistent;
    forall m | (m in s.materials && s.materials[m].group == g) || (m in t.materials && t.materials[m].group == g)
      ensures m in s.materials && m in t.materials && s.materials[m] == t.materials[m]
    {
      if m in s.materials {
        ChangesAreStamped(s, c, m);
      } else {
        CreatedByBegin(s, c, m);
      }
    }
  }

  lemma StepKeepsVersions(s: Library, c: Call, g: Id)
    requires Consistent(s) && c.group != g
    ensures SameVersions(s, Step(s, c), g)
  {
    hide Released, Forgotten;
    forall v | v in s.versions ensures VersionPlaced(s, v) {
    }
    forall u | u in s.sessions ensures SessionPlaced(s, s.sessions[u]) {
    }
  }

  lemma StepKeepsSessions(s: Library, c: Call, g: Id)
    requires Consistent(s) && c.group != g
    ensures SameSessions(s, Step(s, c), g)
  {
    var t := Step(s, c);
    hide Step, Consistent;
    forall u | (u in s.sessions && s.sessions[u].group == g) || (u in t.sessions && t.sessions[u].group == g)
      ensures u in s.sessions && u in t.sessions && s.sessions[u] == t.sessions[u]
    {
      SessionApart(s, c, u);
    }
  }

  lemma SessionApart(s: Library, c: Call, u: Id)
    requires Consistent(s)
    ensures u in s.sessions && s.sessions[u].group != c.group ==>
              u in Step(s, c).sessions && Step(s, c).sessions[u] == s.sessions[u]
    ensures u !in s.sessions && u in Step(s, c).sessions ==> Step(s, c).sessions[u].group == c.group
    ensures u in s.sessions && s.sessions[u].group == c.group ==>
              u in Step(s, c).sessions && Step(s, c).sessions[u].group == c.group
  {
    hide Released, WithoutMaterial;
    if u in s.sessions {
      assert SessionPlaced(s, s.sessions[u]);
    }
  }

  lemma StepKeepsObjects(s: Library, c: Call, g: Id)
    requires c.group != g
    ensures SameObjects(s, Step(s, c), g)
  {
    hide Forgotten, WithoutMaterial, Holds;
  }

  lemma StepKeepsGroup(s: Library, c: Call, g: Id)
    requires Consistent(s) && c.group != g
    ensures SameGroup(s, Step(s, c), g)
  {
    StepKeepsMaterials(s, c, g);
    StepKeepsVersions(s, c, g);
    StepKeepsSessions(s, c, g);
    StepKeepsObjects(s, c, g);
    hide Step, SameMaterials, SameVersions, SameSessions, SameObjects;
  }

  lemma SameGroupChains(s: Library, t: Library, u: Library, g: Id)
    requires SameGroup(s, t, g) && SameGroup(t, u, g)
    ensures SameGroup(s, u, g)
  {
  }

  /** No run of other groups' calls changes a row of a group. */
  lemma {:induction false} GroupsApart(s: Library, calls: seq<Call>, g: Id)
    requires Consistent(s) && forall i :: 0 <= i < |calls| ==> calls[i].group != g
    ensures SameGroup(s, Run(s, calls), g)
    decreases |calls|
  {
    if calls != [] {
      StepKeepsGroup(s, calls[0], g);
      StepConsistent(s, calls[0]);
      hide Step, SameGroup, Consistent;
      GroupsApart(Step(s, calls[0]), calls[1..], g);
      SameGroupChains(s, Step(s, calls[0]), Run(Step(s, calls[0]), calls[1..]), g);
    }
  }

  // -------------------------------------------------------------------- closed uploads

  /** A granted completion completes its session, a granted cancellation cancels it, and no other state moves. */
  lemma SessionsMove(s: Library, c: Call, u: Id)
    requires u in s.sessions
    ensures u in Step(s, c).sessions
    ensures Step(s, c).sessions[u].state ==
            if Attempt(s, c).0 == Done && c.op.CompleteUpload? && c.op.upload == u then Completed
            else if Attempt(s, c).0 == Done && c.op.CancelUpload? && c.op.upload == u then Cancelled
            else s.sessions[u].state
  {
    hide Released, WithoutMaterial;
  }

  lemma StepKeepsClosed(s: Library, c: Call, u: Id)
    requires u in s.sessions && !s.sessions[u].state.Open()
    ensures u in Step(s, c).sessions && Step(s, c).sessions[u].state == s.sessions[u].state
  {
    hide Released, WithoutMaterial;
  }

  /** An upload that was completed or cancelled stays so, and neither is ever granted again. */
  lemma {:induction false} ClosedForever(s: Library, calls: seq<Call>, u: Id, c: Call)
    requires u in s.sessions && !s.sessions[u].state.Open()
    ensures u in Run(s, calls).sessions && Run(s, calls).sessions[u].state == s.sessions[u].state
    ensures (c.op.CompleteUpload? || c.op.CancelUpload?) && c.op.upload == u ==> Attempt(Run(s, calls), c).0 != Done
    decreases |calls|
  {
    if calls != [] {
      StepKeepsClosed(s, calls[0], u);
      hide Step;
      ClosedForever(Step(s, calls[0]), calls[1..], u, c);
    }
  }

  // ---------------------------------------------------- what holds along a run, exactly

  ghost predicate Always(s: Library, calls: seq<Call>, holds: Library -> bool)
    decreases |calls|
  {
    holds(s) && (calls != [] ==> Always(Step(s, calls[0]), calls[1..], holds))
  }

  ghost predicate Never(s: Library, calls: seq<Call>, bad: (Library, Call) -> bool)
    decreases |calls|
  {
    calls != [] ==> !bad(s, calls[0]) && Never(Step(s, calls[0]), calls[1..], bad)
  }

  /** A property that one kind of call always breaks, and no other call does. */
  ghost predicate BrokenBy(holds: Library -> bool, bad: (Library, Call) -> bool) {
    forall s, c :: Consistent(s) && holds(s) ==> (holds(Step(s, c)) <==> !bad(s, c))
  }

  lemma {:induction false} AlwaysExact(s: Library, calls: seq<Call>, holds: Library -> bool,
                                       bad: (Library, Call) -> bool)
    requires Consistent(s) && holds(s) && BrokenBy(holds, bad)
    ensures Always(s, calls, holds) <==> Never(s, calls, bad)
    decreases |calls|
  {
    if calls != [] {
      var t := Step(s, calls[0]);
      StepConsistent(s, calls[0]);
      assert holds(t) <==> !bad(s, calls[0]);
      hide Step, Consistent, BrokenBy;
      if holds(t) {
        AlwaysExact(t, calls[1..], holds, bad);
      } else {
        assert !Always(t, calls[1..], holds);
      }
    }
  }

  /** The version a material names carries the content the material records. */
  ghost predicate HashesMatch(s: Library) {
    forall m :: m in s.materials && s.materials[m].current.Some? && s.materials[m].current.value in s.versions ==>
      s.versions[s.materials[m].current.value].hash == s.materials[m].hash
  }

  /** The call completes an upload whose version was opened for other content than the material now records. */
  ghost predicate CompletesOutdated(s: Library, c: Call) {
    && c.op.CompleteUpload? && Attempt(s, c).0 == Done
    && var session := s.sessions[c.op.upload];
       session.version.Some? && session.version.value in s.versions
       && s.versions[session.version.value].hash != s.materials[session.material.value].hash
  }

  lemma HashesBrokenBy(s: Library, c: Call)
    requires Consistent(s) && HashesMatch(s)
    ensures HashesMatch(Step(s, c)) <==> !CompletesOutdated(s, c)
  {
    hide Released, Forgotten;
    var t := Step(s, c);
    if CompletesOutdated(s, c) {
      var m := s.sessions[c.op.upload].material.value;
      assert t.materials[m].current == s.sessions[c.op.upload].version;
    }
  }

  /**
   A material's current version is the content it records, throughout a run, if and
   only if the run never completes an upload that a newer version has outdated.
   */
  lemma CurrentContentExact(calls: seq<Call>)
    ensures Always(EMPTY, calls, HashesMatch) <==> Never(EMPTY, calls, CompletesOutdated)
  {
    forall s, c | Consistent(s) && HashesMatch(s)
      ensures HashesMatch(Step(s, c)) <==> !CompletesOutdated(s, c)
    {
      HashesBrokenBy(s, c);
    }
    hide Step, CompletesOutdated;
    AlwaysExact(EMPTY, calls, HashesMatch, CompletesOutdated);
  }

  /** A trashed material is shown as trashed. */
  ghost predicate TrashShown(s: Library) {
    forall m :: m in s.materials && s.materials[m].trashed ==> s.materials[m].status == Trashed
  }

  ghost predicate CompletesTrashed(s: Library, c: Call) {
    && c.op.CompleteUpload? && Attempt(s, c).0 == Done
    && s.materials[s.sessions[c.op.upload].material.value].trashed
  }

  lemma TrashBrokenBy(s: Library, c: Call)
    requires TrashShown(s)
    ensures TrashShown(Step(s, c)) <==> !CompletesTrashed(s, c)
  {
    hide Released, Forgotten, WithoutMaterial;
    if CompletesTrashed(s, c) {
      assert Step(s, c).materials[s.sessions[c.op.upload].material.value].trashed;
    }
  }

  /** Trashed materials are shown as trashed throughout a run if and only if it completes no upload of one. */
  lemma TrashShownExact(calls: seq<Call>)
    ensures Always(EMPTY, calls, TrashShown) <==> Never(EMPTY, calls, CompletesTrashed)
  {
    forall s, c | TrashShown(s) ensures TrashShown(Step(s, c)) <==> !CompletesTrashed(s, c) {
      TrashBrokenBy(s, c);
    }
    hide Step, CompletesTrashed;
    AlwaysExact(EMPTY, calls, TrashShown, CompletesTrashed);
  }

  // --------------------------------------------------------------- runs that break each

  const OPENED := ByEditor(BeginUpload(1, 10, 1, 1))
  const FILLED := ByEditor(CompleteUpload(1, 10, 1))
  const SECOND := ByEditor(CreateVersion(1, 20, 2, 2))
  const THIRD := ByEditor(CreateVersion(1, 30, 3, 3))
  const LATE := ByEditor(CompleteUpload(2, 30, 4))
  const REFILLED := ByEditor(CompleteUpload(2, 20, 4))
  const TRASH := ByEditor(SetTrash(1, true))

  const VERSIONED := Library(
    map[(0, 10) := 1, (0, 20) := 1],
    map[1 := Material(0, 20, Uploading, Some(2), 3, false, 0)],
    map[1 := Version(1, 2, 10), 2 := Version(1, 3, 20)],
    map[1 := Session(0, Some(1), Some(1), Completed), 2 := Session(0, Some(1), Some(2), Pending)])

  /** A material filled once, with a second version being uploaded. */
  lemma ReachVersioned(rest: seq<Call>)
    ensures Run(EMPTY, [OPENED, FILLED, SECOND] + rest) == Run(VERSIONED, rest)
  {
    assert [OPENED, FILLED, SECOND] + rest == [OPENED] + ([FILLED] + ([SECOND] + rest));
    RunFirst(EMPTY, OPENED, [FILLED] + ([SECOND] + rest));
    RunFirst(Step(EMPTY, OPENED), FILLED, [SECOND] + rest);
    RunFirst(Step(Step(EMPTY, OPENED), FILLED), SECOND, rest);
    hide Run, Destroy;
    var one := Library(map[(0, 10) := 1], map[1 := Material(0, 10, Uploading, None, 1, false, 0)], map[],
                       map[1 := Session(0, Some(1), None, Pending)]);
    assert Step(EMPTY, OPENED) == one;
    var two := Library(map[(0, 10) := 1], map[1 := Material(0, 10, Ready, Some(1), 2, false, 0)],
                       map[1 := Version(1, 2, 10)], map[1 := Session(0, Some(1), Some(1), Completed)]);
    assert Step(one, FILLED) == two;
    assert Step(two, SECOND) == VERSIONED;
  }

  /** Completing the second upload after a third version was opened makes the second's content current again. */
  lemma OutdatedBecomesCurrent()
    ensures var s := Run(EMPTY, [OPENED, FILLED, SECOND] + [THIRD, LATE]);
            && 1 in s.materials && 2 in s.versions
            && s.materials[1].status == Ready && s.materials[1].current == Some(2)
            && s.versions[2].hash == 20 && s.materials[1].hash == 30
  {
    ReachVersioned([THIRD, LATE]);
    RunFirst(VERSIONED, THIRD, [LATE]);
    RunFirst(Step(VERSIONED, THIRD), LATE, []);
    hide Destroy;
    assert Step(VERSIONED, THIRD).materials[1] == Material(0, 30, Uploading, Some(3), 4, false, 0);
  }

  /** Completing the upload of a trashed material shows it as ready while it stays in the trash. */
  lemma CompletedInTrash()
    ensures var s := Run(EMPTY, [OPENED, FILLED, SECOND] + [TRASH, REFILLED]);
            1 in s.materials && s.materials[1].trashed && s.materials[1].status == Ready
  {
    ReachVersioned([TRASH, REFILLED]);
    RunFirst(VERSIONED, TRASH, [REFILLED]);
    RunFirst(Step(VERSIONED, TRASH), REFILLED, []);
    hide Destroy;
  }
}
