/**
 Whether ready means uploaded. The library knows of bytes only by the completions it
 granted, so a run is followed together with the contents completed in it; content
 whose object row is dropped is gone.
 */
module MaterialBytes {
  import opened Results
  import opened MaterialLibrary
  import ReferenceCounts
  import MaterialStatus

  function KeyOf(s: Library, m: Id): ObjectKey
    requires m in s.materials
  {
    (s.materials[m].group, s.materials[m].hash)
  }

  /** The contents completed so far, after one more call. */
  ghost function Filled(s: Library, filled: set<ObjectKey>, c: Call): set<ObjectKey> {
    filled + (if c.op.CompleteUpload? && Attempt(s, c).0 == Done then {(c.group, c.op.hash)} else {})
    - (s.objects.Keys - Step(s, c).objects.Keys)
  }

  /** The content every ready material records has been completed. */
  ghost predicate ReadyFilled(s: Library, filled: set<ObjectKey>) {
    forall m :: m in s.materials && s.materials[m].status == Ready ==> KeyOf(s, m) in filled
  }

  /** The call begins an upload of content that is held but not completed. */
  ghost predicate BeginsUnfilled(s: Library, filled: set<ObjectKey>, c: Call) {
    && c.op.BeginUpload? && Attempt(s, c).0 == Done
    && (c.group, c.op.hash) in s.objects && (c.group, c.op.hash) !in filled
  }

  /** The call restores a material that names a version whose content is not completed. */
  ghost predicate RestoresUnfilled(s: Library, filled: set<ObjectKey>, c: Call) {
    && c.op.SetTrash? && !c.op.trashing && Attempt(s, c).0 == Done
    && s.materials[c.op.material].current.Some? && KeyOf(s, c.op.material) !in filled
  }

  /** The call purges a material and with it drops the object of another one that is ready. */
  ghost predicate PurgesReady(s: Library, c: Call) {
    && c.op.Purge? && Attempt(s, c).0 == Done
    && exists m :: m in s.materials && m != c.op.material && DropsReady(s, c, m)
  }

  ghost predicate DropsReady(s: Library, c: Call, m: Id)
    requires m in s.materials
  {
    s.materials[m].status == Ready && KeyOf(s, m) in s.objects && KeyOf(s, m) !in Step(s, c).objects
  }

  ghost predicate Unfills(s: Library, filled: set<ObjectKey>, c: Call) {
    BeginsUnfilled(s, filled, c) || RestoresUnfilled(s, filled, c) || PurgesReady(s, c)
  }

  lemma ObjectsStay(s: Library, c: Call)
    requires !c.op.Purge?
    ensures s.objects.Keys <= Step(s, c).objects.Keys
  {
  }

  /** Where a material's readiness comes from, unless it is a purge. */
  lemma ReadyFrom(s: Library, c: Call, m: Id)
    requires Consistent(s) && !c.op.Purge? && m in Step(s, c).materials && Step(s, c).materials[m].status == Ready
    ensures var t := Step(s, c);
            || (m in s.materials && s.materials[m].status == Ready && KeyOf(s, m) == KeyOf(t, m))
            || (c.op.CompleteUpload? && Attempt(s, c).0 == Done && KeyOf(t, m) == (c.group, c.op.hash))
            || (c.op.BeginUpload? && Attempt(s, c).0 == Done && KeyOf(t, m) == (c.group, c.op.hash)
                && KeyOf(t, m) in s.objects)
            || (c.op.SetTrash? && !c.op.trashing && Attempt(s, c).0 == Done && c.op.material == m
                && s.materials[m].current.Some? && KeyOf(t, m) == KeyOf(s, m))
  {
    if c.op.CompleteUpload? && c.op.upload in s.sessions {
      assert SessionPlaced(s, s.sessions[c.op.upload]);
    }
  }

  lemma StaysFilled(s: Library, filled: set<ObjectKey>, c: Call)
    requires Consistent(s) && ReadyFilled(s, filled) && !c.op.Purge? && !Unfills(s, filled, c)
    ensures ReadyFilled(Step(s, c), Filled(s, filled, c))
  {
    var t := Step(s, c);
    ObjectsStay(s, c);
    hide Step, Consistent;
    forall m | m in t.materials && t.materials[m].status == Ready ensures KeyOf(t, m) in Filled(s, filled, c) {
      ReadyFrom(s, c, m);
    }
  }

  lemma PurgeFilled(s: Library, filled: set<ObjectKey>, c: Call)
    requires ReadyFilled(s, filled) && c.op.Purge?
    ensures ReadyFilled(Step(s, c), Filled(s, filled, c)) <==> !PurgesReady(s, c)
  {
    var t := Step(s, c);
    PurgeKeeps(s, c);
    hide Step, Attempt;
    if PurgesReady(s, c) {
      var m :| m in s.materials && m != c.op.material && DropsReady(s, c, m);
      assert m in t.materials && KeyOf(t, m) !in Filled(s, filled, c);
    } else {
      forall m | m in t.materials && t.materials[m].status == Ready ensures KeyOf(t, m) in Filled(s, filled, c) {
        assert !DropsReady(s, c, m);
      }
    }
  }

  lemma PurgeKeeps(s: Library, c: Call)
    requires c.op.Purge?
    ensures Attempt(s, c).0 != Done ==> Step(s, c) == s
    ensures Attempt(s, c).0 == Done ==> Step(s, c).materials == s.materials - {c.op.material}
  {
    hide Released, Forgotten, WithoutMaterial;
  }

  lemma BeginUnfills(s: Library, filled: set<ObjectKey>, c: Call)
    requires BeginsUnfilled(s, filled, c) || RestoresUnfilled(s, filled, c)
    ensures !ReadyFilled(Step(s, c), Filled(s, filled, c))
  {
    var t, m := Step(s, c), c.op.material;
    assert m in t.materials && t.materials[m].status == Ready && KeyOf(t, m) !in Filled(s, filled, c);
  }

  lemma StepFilled(s: Library, filled: set<ObjectKey>, c: Call)
    requires Consistent(s) && ReadyFilled(s, filled)
    ensures ReadyFilled(Step(s, c), Filled(s, filled, c)) <==> !Unfills(s, filled, c)
  {
    hide Step, Filled, ReadyFilled, Attempt, Consistent;
    if c.op.Purge? {
      PurgeFilled(s, filled, c);
    } else if Unfills(s, filled, c) {
      BeginUnfills(s, filled, c);
    } else {
      StaysFilled(s, filled, c);
    }
  }

  ghost predicate AlwaysFilled(s: Library, filled: set<ObjectKey>, calls: seq<Call>)
    decreases |calls|
  {
    ReadyFilled(s, filled) && (calls != [] ==> AlwaysFilled(Step(s, calls[0]), Filled(s, filled, calls[0]), calls[1..]))
  }

  ghost predicate NeverUnfills(s: Library, filled: set<ObjectKey>, calls: seq<Call>)
    decreases |calls|
  {
    calls != [] ==>
      && !Unfills(s, filled, calls[0])
      && NeverUnfills(Step(s, calls[0]), Filled(s, filled, calls[0]), calls[1..])
  }

  lemma {:induction false} RunFilledExactly(s: Library, filled: set<ObjectKey>, calls: seq<Call>)
    requires Consistent(s) && ReadyFilled(s, filled)
    ensures AlwaysFilled(s, filled, calls) <==> NeverUnfills(s, filled, calls)
    decreases |calls|
  {
    if calls != [] {
      var c := calls[0];
      StepFilled(s, filled, c);
      StepConsistent(s, c);
      hide Step, Filled, ReadyFilled, Unfills, Consistent;
      if Unfills(s, filled, c) {
        assert !AlwaysFilled(Step(s, c), Filled(s, filled, c), calls[1..]);
      } else {
        RunFilledExactly(Step(s, c), Filled(s, filled, c), calls[1..]);
      }
    }
  }

  /**
   The content of every ready material has been completed, throughout a run, if and only
   if no call begins on content held but not completed, restores a material in the middle
   of an upload, or purges the object of another ready material.
   */
  lemma ReadyFilledExact(calls: seq<Call>)
    ensures AlwaysFilled(EMPTY, {}, calls) <==> NeverUnfills(EMPTY, {}, calls)
  {
    RunFilledExactly(EMPTY, {}, calls);
  }

  /** The last of the three needs miscounted references: while counts are exact, no purge drops a ready one's object. */
  lemma ExactCountsKeepReady(s: Library, c: Call)
    requires Consistent(s) && ReferenceCounts.Conserved(s)
    ensures !PurgesReady(s, c)
  {
    if PurgesReady(s, c) {
      var m :| m in s.materials && m != c.op.material && DropsReady(s, c, m);
      ReferenceCounts.PurgeDropsExactly(s, c, c.op.material, KeyOf(s, m));
      OwnHolder(s, m, c.op.material);
      assert false;
    }
  }

  /** A material always holds the object it records, by a version or by a claim, and nobody else's purge counts it. */
  lemma OwnHolder(s: Library, m: Id, other: Id)
    requires m in s.materials && other in s.materials && m != other
    ensures ReferenceCounts.Holders(s, KeyOf(s, m)) != ReferenceCounts.HeldBy(s, other, KeyOf(s, m))
  {
    var key := KeyOf(s, m);
    ReferenceCounts.HoldersExact(s, key);
    var versions := VersionsOf(s, m, s.materials[m].hash);
    var holder;
    if versions == {} {
      holder := ReferenceCounts.OpenClaim(m);
    } else {
      var v :| v in versions;
      holder := ReferenceCounts.VersionRow(v);
    }
    assert ReferenceCounts.HolderOf(s, key, holder);
    assert holder !in ReferenceCounts.HeldBy(s, other, key);
  }

  // ---------------------------------------------------------------- runs that break it

  const SAME := ByEditor(BeginUpload(2, 10, 2, 2))

  /** A second upload of content still in flight is ready at once, and nothing was completed. */
  lemma ReadyBeforeBytes()
    ensures var s := Run(EMPTY, [MaterialStatus.OPENED, SAME]);
            && 1 in s.materials && s.materials[1].status == Uploading
            && 2 in s.materials && s.materials[2].status == Ready && s.materials[2].hash == s.materials[1].hash
  {
    RunFirst(EMPTY, MaterialStatus.OPENED, [SAME]);
    RunFirst(Step(EMPTY, MaterialStatus.OPENED), SAME, []);
    hide Destroy;
  }

  /** Trashing and restoring a material in the middle of an upload makes it ready, with its session still open. */
  lemma RestoredBeforeBytes()
    ensures var calls := [MaterialStatus.OPENED, MaterialStatus.FILLED, MaterialStatus.SECOND]
                         + [MaterialStatus.TRASH, ByEditor(SetTrash(1, false))];
            var s := Run(EMPTY, calls);
            && 1 in s.materials && s.materials[1].status == Ready && s.materials[1].current == Some(2)
            && 2 in s.sessions && s.sessions[2].version == Some(2) && s.sessions[2].state == Pending
  {
    var restore, s := ByEditor(SetTrash(1, false)), MaterialStatus.VERSIONED;
    MaterialStatus.ReachVersioned([MaterialStatus.TRASH, restore]);
    RunFirst(s, MaterialStatus.TRASH, [restore]);
    RunFirst(Step(s, MaterialStatus.TRASH), restore, []);
    hide Destroy;
  }
}
