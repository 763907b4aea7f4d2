/**
 Reference conservation: the count on an object is the number of its holders,
 which are the version rows naming its hash and the materials whose upload has
 claimed the hash but produced no version of it yet. The store keeps this on
 every call except one: opening a new version for a material that is itself such
 a holder. That call is exactly what breaks it.
 */
module ReferenceCounts {
  import opened Results
  import opened MaterialLibrary

  datatype Holder = VersionRow(id: Id) | OpenClaim(material: Id)

  /** The material reserved its current hash and no version row of it names that hash. */
  ghost predicate Claiming(s: Library, m: Id) {
    m in s.materials && VersionsOf(s, m, s.materials[m].hash) == {}
  }

  ghost predicate HeldUnder(s: Library, v: Id, key: ObjectKey) {
    && v in s.versions
    && s.versions[v].material in s.materials
    && key == (s.materials[s.versions[v].material].group, s.versions[v].hash)
  }

  ghost predicate ClaimUnder(s: Library, m: Id, key: ObjectKey) {
    Claiming(s, m) && key == (s.materials[m].group, s.materials[m].hash)
  }

  ghost function Holders(s: Library, key: ObjectKey): set<Holder> {
    (set v | v in s.versions && HeldUnder(s, v, key) :: VersionRow(v))
    + (set m | m in s.materials && ClaimUnder(s, m, key) :: OpenClaim(m))
  }

  ghost predicate HolderOf(s: Library, key: ObjectKey, holder: Holder) {
    match holder
    case VersionRow(v) => HeldUnder(s, v, key)
    case OpenClaim(m) => ClaimUnder(s, m, key)
  }

  lemma HoldersExact(s: Library, key: ObjectKey)
    ensures forall holder :: holder in Holders(s, key) <==> HolderOf(s, key, holder)
  {
  }

  ghost predicate ConservedAt(s: Library, key: ObjectKey) {
    if key in s.objects then s.objects[key] == |Holders(s, key)| && s.objects[key] > 0
    else Holders(s, key) == {}
  }

  ghost predicate Conserved(s: Library) {
    forall key :: ConservedAt(s, key)
  }

  /** An open session without a version belongs to a material without one, and to no other such session. */
  ghost predicate FreshUploads(s: Library) {
    && (forall u, v :: Unfinished(s, u) && v in s.versions ==> s.versions[v].material != s.sessions[u].material.value)
    && (forall u, w :: Unfinished(s, u) && Unfinished(s, w) && u != w ==>
          s.sessions[u].material != s.sessions[w].material)
  }

  ghost predicate Unfinished(s: Library, u: Id) {
    u in s.sessions && s.sessions[u].state.Open() && s.sessions[u].version.None? && s.sessions[u].material.Some?
  }

  /** The call opens a new version for a material that still holds a claim of its own. */
  ghost predicate VersionsClaiming(s: Library, c: Call) {
    c.op.CreateVersion? && Attempt(s, c).0 == Done && Claiming(s, c.op.material)
  }

  // ------------------------------------------------------------------ step by step

  /** Two libraries have the same claims of material `n` when its rows agree. */
  lemma SameVersions(s: Library, t: Library, n: Id, h: Hash)
    requires forall v :: || (v in s.versions && s.versions[v].material == n)
                         || (v in t.versions && t.versions[v].material == n) ==>
               v in s.versions && v in t.versions && s.versions[v] == t.versions[v]
    ensures VersionsOf(t, n, h) == VersionsOf(s, n, h)
  {
  }

  /** A step that admits `added` and lets `removed` go, holder by holder, does so to the whole set. */
  lemma HoldersMove(s: Library, t: Library, key: ObjectKey, added: set<Holder>, removed: set<Holder>)
    requires forall holder :: HolderOf(t, key, holder) <==>
               holder in added || (holder !in removed && HolderOf(s, key, holder))
    ensures Holders(t, key) == Holders(s, key) - removed + added
  {
  }

  lemma BeginHolderOf(s: Library, c: Call, m: Id, h: Hash, v: Id, u: Id, key: ObjectKey, holder: Holder)
    requires Consistent(s) && Begin(s, c, m, h, v, u).0 == Done
    ensures var extra := if (c.group, h) in s.objects then VersionRow(v) else OpenClaim(m);
            && !HolderOf(s, key, extra)
            && (HolderOf(Begin(s, c, m, h, v, u).1, key, holder)
                <==> (key == (c.group, h) && holder == extra) || HolderOf(s, key, holder))
  {
    var t := Begin(s, c, m, h, v, u).1;
    match holder {
      case VersionRow(w) =>
        assert w in s.versions ==> VersionPlaced(s, w);
      case OpenClaim(n) =>
        assert forall w :: w in s.versions ==> VersionPlaced(s, w);
        if n == m {
          assert VersionsOf(t, m, h) == if (c.group, h) in s.objects then {v} else {};
        } else if n in s.materials {
          SameVersions(s, t, n, s.materials[n].hash);
        }
    }
  }

  /** Beginning adds one holder under its key: a version if the object is held, otherwise a claim. */
  lemma BeginHolders(s: Library, c: Call, m: Id, h: Hash, v: Id, u: Id, key: ObjectKey)
    requires Consistent(s) && Begin(s, c, m, h, v, u).0 == Done
    ensures var t, here := Begin(s, c, m, h, v, u).1, (c.group, h);
            var extra := if here in s.objects then VersionRow(v) else OpenClaim(m);
            && extra !in Holders(s, key)
            && Holders(t, key) == Holders(s, key) + if key == here then {extra} else {}
  {
    var t, here := Begin(s, c, m, h, v, u).1, (c.group, h);
    var extra := if here in s.objects then VersionRow(v) else OpenClaim(m);
    BeginHolderOf(s, c, m, h, v, u, key, extra);
    HoldersExact(s, key);
    hide Holders, HolderOf, Consistent;
    forall holder ensures HolderOf(t, key, holder) <==> (key == here && holder == extra) || HolderOf(s, key, holder) {
      BeginHolderOf(s, c, m, h, v, u, key, holder);
    }
    HoldersMove(s, t, key, if key == here then {extra} else {}, {});
  }

  /** One holder more and one count more, or neither, keeps the count exact. */
  lemma CountsAlong(s: Library, t: Library, key: ObjectKey, more: bool)
    requires ConservedAt(s, key)
    requires |Holders(t, key)| == |Holders(s, key)| + if more then 1 else 0
    requires more ==> key in t.objects && t.objects[key] == (if key in s.objects then s.objects[key] else 0) + 1
    requires !more ==> (key in t.objects <==> key in s.objects)
    requires !more && key in s.objects ==> t.objects[key] == s.objects[key]
    ensures ConservedAt(t, key)
  {
    hide Holders;
  }

  lemma BeginConservesAt(s: Library, c: Call, m: Id, h: Hash, v: Id, u: Id, key: ObjectKey)
    requires Consistent(s) && ConservedAt(s, key)
    ensures ConservedAt(Begin(s, c, m, h, v, u).1, key)
  {
    var t := Begin(s, c, m, h, v, u).1;
    if Begin(s, c, m, h, v, u).0 == Done {
      hide Holders, Consistent, ConservedAt, HolderOf;
      BeginHolders(s, c, m, h, v, u, key);
      CountsAlong(s, t, key, key == (c.group, h));
    }
  }

  lemma CompleteHolderOf(s: Library, c: Call, u: Id, h: Hash, v: Id, key: ObjectKey, holder: Holder)
    requires Consistent(s) && FreshUploads(s) && Complete(s, c, u, h, v).0 == Done
    ensures var first, m := s.sessions[u].version.None?, s.sessions[u].material.value;
            HolderOf(Complete(s, c, u, h, v).1, key, holder) <==>
            || (first && key == (c.group, h) && holder == VersionRow(v))
            || (!(first && holder == OpenClaim(m)) && HolderOf(s, key, holder))
  {
    var t, first := Complete(s, c, u, h, v).1, s.sessions[u].version.None?;
    var m := s.sessions[u].material.value;
    assert SessionPlaced(s, s.sessions[u]);
    match holder {
      case VersionRow(w) =>
      case OpenClaim(n) =>
        if first && n == m {
          assert v in VersionsOf(t, m, h);
        } else if n in s.materials {
          SameVersions(s, t, n, s.materials[n].hash);
        }
    }
  }

  /** Before its first version a material's upload holds its claim, and the new row's id is free. */
  lemma CompleteStartsClaimed(s: Library, c: Call, u: Id, h: Hash, v: Id, key: ObjectKey)
    requires Consistent(s) && FreshUploads(s) && Complete(s, c, u, h, v).0 == Done && s.sessions[u].version.None?
    ensures !HolderOf(s, key, VersionRow(v))
    ensures HolderOf(s, key, OpenClaim(s.sessions[u].material.value)) <==> key == (c.group, h)
  {
  }

  /** Completing turns a first upload's claim into the hold of its new version, and otherwise moves nothing. */
  lemma CompleteHolders(s: Library, c: Call, u: Id, h: Hash, v: Id, key: ObjectKey)
    requires Consistent(s) && FreshUploads(s) && Complete(s, c, u, h, v).0 == Done
    ensures var t, here, first := Complete(s, c, u, h, v).1, (c.group, h), s.sessions[u].version.None?;
            var m := s.sessions[u].material.value;
            && (first ==> VersionRow(v) !in Holders(s, key) && (OpenClaim(m) in Holders(s, key) <==> key == here))
            && Holders(t, key) == if first && key == here then Holders(s, key) - {OpenClaim(m)} + {VersionRow(v)}
                                  else Holders(s, key)
  {
    var t, here, first := Complete(s, c, u, h, v).1, (c.group, h), s.sessions[u].version.None?;
    var m := s.sessions[u].material.value;
    HoldersExact(s, key);
    hide Holders, HolderOf, Consistent, FreshUploads;
    if first {
      CompleteStartsClaimed(s, c, u, h, v, key);
    }
    var added, removed := if first && key == here then {VersionRow(v)} else {}, if first then {OpenClaim(m)} else {};
    forall holder
      ensures HolderOf(t, key, holder) <==> holder in added || (holder !in removed && HolderOf(s, key, holder))
    {
      CompleteHolderOf(s, c, u, h, v, key, holder);
    }
    HoldersMove(s, t, key, added, removed);
  }

  lemma Swapped(holders: set<Holder>, gone: Holder, come: Holder)
    ensures gone in holders && come !in holders ==> |holders - {gone} + {come}| == |holders|
  {
  }

  lemma CompleteConservesAt(s: Library, c: Call, u: Id, h: Hash, v: Id, key: ObjectKey)
    requires Consistent(s) && FreshUploads(s) && ConservedAt(s, key)
    ensures ConservedAt(Complete(s, c, u, h, v).1, key)
  {
    var t := Complete(s, c, u, h, v).1;
    if Complete(s, c, u, h, v).0 == Done {
      hide Holders, Consistent, FreshUploads, ConservedAt, HolderOf;
      CompleteHolders(s, c, u, h, v, key);
      Swapped(Holders(s, key), OpenClaim(s.sessions[u].material.value), VersionRow(v));
      CountsAlong(s, t, key, false);
    }
  }

  lemma NewVersionHolderOf(s: Library, c: Call, m: Id, h: Hash, v: Id, u: Id, key: ObjectKey, holder: Holder)
    requires Consistent(s) && NewVersion(s, c, m, h, v, u).0 == Done
    ensures HolderOf(NewVersion(s, c, m, h, v, u).1, key, holder) <==>
            (key == (c.group, h) && holder == VersionRow(v)) || (holder != OpenClaim(m) && HolderOf(s, key, holder))
  {
    var t := NewVersion(s, c, m, h, v, u).1;
    match holder {
      case VersionRow(w) =>
      case OpenClaim(n) =>
        if n == m {
          assert v in VersionsOf(t, m, h);
        } else if n in s.materials {
          SameVersions(s, t, n, s.materials[n].hash);
        }
    }
  }

  /** A new version adds its row under its key, and ends the material's own claim wherever it was. */
  lemma NewVersionHolders(s: Library, c: Call, m: Id, h: Hash, v: Id, u: Id, key: ObjectKey)
    requires Consistent(s) && NewVersion(s, c, m, h, v, u).0 == Done
    ensures var t := NewVersion(s, c, m, h, v, u).1;
            && VersionRow(v) !in Holders(s, key)
            && (OpenClaim(m) in Holders(s, key) <==>
                  Claiming(s, m) && key == (s.materials[m].group, s.materials[m].hash))
            && Holders(t, key) == Holders(s, key) - {OpenClaim(m)} + if key == (c.group, h) then {VersionRow(v)} else {}
  {
    var t := NewVersion(s, c, m, h, v, u).1;
    HoldersExact(s, key);
    assert !HolderOf(s, key, VersionRow(v)) && HolderOf(s, key, OpenClaim(m)) == ClaimUnder(s, m, key);
    hide Holders, HolderOf, Consistent;
    var added := if key == (c.group, h) then {VersionRow(v)} else {};
    forall holder
      ensures HolderOf(t, key, holder) <==>
                holder in added || (holder !in {OpenClaim(m)} && HolderOf(s, key, holder))
    {
      NewVersionHolderOf(s, c, m, h, v, u, key, holder);
    }
    HoldersMove(s, t, key, added, {OpenClaim(m)});
  }

  lemma NewVersionKeepsAt(s: Library, c: Call, m: Id, h: Hash, v: Id, u: Id, key: ObjectKey)
    requires Consistent(s) && ConservedAt(s, key) && NewVersion(s, c, m, h, v, u).0 == Done
    requires !Claiming(s, m)
    ensures ConservedAt(NewVersion(s, c, m, h, v, u).1, key)
  {
    hide Holders, Consistent, Claiming, ConservedAt, HolderOf;
    NewVersionHolders(s, c, m, h, v, u, key);
    assert Holders(s, key) - {OpenClaim(m)} == Holders(s, key);
    CountsAlong(s, NewVersion(s, c, m, h, v, u).1, key, key == (c.group, h));
  }

  lemma NewVersionBreaksAt(s: Library, c: Call, m: Id, h: Hash, v: Id, u: Id, key: ObjectKey)
    requires Consistent(s) && NewVersion(s, c, m, h, v, u).0 == Done
    requires Claiming(s, m) && key == (s.materials[m].group, s.materials[m].hash) && ConservedAt(s, key)
    ensures !ConservedAt(NewVersion(s, c, m, h, v, u).1, key)
  {
    hide Holders, Consistent, Claiming;
    NewVersionHolders(s, c, m, h, v, u, key);
    assert |Holders(s, key) - {OpenClaim(m)}| == |Holders(s, key)| - 1;
  }

  /** Opening a new version keeps the counts exact if and only if the material holds no claim of its own. */
  lemma NewVersionConservesExactly(s: Library, c: Call, m: Id, h: Hash, v: Id, u: Id)
    requires Consistent(s) && Conserved(s) && NewVersion(s, c, m, h, v, u).0 == Done
    ensures Conserved(NewVersion(s, c, m, h, v, u).1) <==> !Claiming(s, m)
  {
    hide ConservedAt, Claiming, Consistent;
    var t := NewVersion(s, c, m, h, v, u).1;
    if Claiming(s, m) {
      var key := (s.materials[m].group, s.materials[m].hash);
      assert ConservedAt(s, key);
      NewVersionBreaksAt(s, c, m, h, v, u, key);
    } else {
      forall key ensures ConservedAt(t, key) {
        assert ConservedAt(s, key);
        NewVersionKeepsAt(s, c, m, h, v, u, key);
      }
    }
  }

  // ------------------------------------------------------------------------ purge

  ghost function Rows(versions: set<Id>): set<Holder> {
    set v | v in versions :: VersionRow(v)
  }

  lemma {:induction false} RowsCount(versions: set<Id>)
    ensures |Rows(versions)| == |versions|
  {
    if versions != {} {
      var v :| v in versions;
      RowsCount(versions - {v});
      assert Rows(versions) == Rows(versions - {v}) + {VersionRow(v)};
    }
  }

  /** What one material holds under a key, holder by holder. */
  ghost function HeldBy(s: Library, m: Id, key: ObjectKey): set<Holder>
    requires m in s.materials
  {
    if key.0 != s.materials[m].group then {}
    else Rows(VersionsOf(s, m, key.1)) + (if ClaimUnder(s, m, key) then {OpenClaim(m)} else {})
  }

  lemma HeldByCount(s: Library, m: Id, key: ObjectKey)
    requires m in s.materials
    ensures |HeldBy(s, m, key)| == if key.0 == s.materials[m].group then Holds(s, m, key.1) else 0
  {
    RowsCount(VersionsOf(s, m, key.1));
  }

  lemma DestroyHolderOf(s: Library, c: Call, m: Id, key: ObjectKey, holder: Holder)
    requires Consistent(s) && Destroy(s, c, m).0 == Done
    ensures HolderOf(Destroy(s, c, m).1, key, holder) <==> HolderOf(s, key, holder) && holder !in HeldBy(s, m, key)
    ensures holder in HeldBy(s, m, key) ==> HolderOf(s, key, holder)
  {
  }

  lemma DestroyHolders(s: Library, c: Call, m: Id, key: ObjectKey)
    requires Consistent(s) && Destroy(s, c, m).0 == Done
    ensures var t := Destroy(s, c, m).1;
            && HeldBy(s, m, key) <= Holders(s, key)
            && Holders(t, key) == Holders(s, key) - HeldBy(s, m, key)
  {
    var t := Destroy(s, c, m).1;
    HoldersExact(s, key);
    HoldersExact(t, key);
    forall holder
      ensures HolderOf(t, key, holder) <==> HolderOf(s, key, holder) && holder !in HeldBy(s, m, key)
      ensures holder in HeldBy(s, m, key) ==> HolderOf(s, key, holder)
    {
      DestroyHolderOf(s, c, m, key, holder);
    }
    hide Holders, HolderOf, HeldBy, Destroy, Consistent;
  }

  lemma DestroyConservesAt(s: Library, c: Call, m: Id, key: ObjectKey)
    requires Consistent(s) && ConservedAt(s, key) && Destroy(s, c, m).0 == Done
    ensures ConservedAt(Destroy(s, c, m).1, key)
  {
    hide Consistent;
    var t := Destroy(s, c, m).1;
    DestroyHolders(s, c, m, key);
    HeldByCount(s, m, key);
    assert t.objects == Released(s, m);
    hide Holders, HeldBy, Holds;
    assert |Holders(t, key)| == |Holders(s, key)| - |HeldBy(s, m, key)|;
  }

  /** A purge drops an object row exactly when it removes the last holder, for all its hashes at once. */
  lemma PurgeDropsExactly(s: Library, c: Call, m: Id, key: ObjectKey)
    requires Consistent(s) && Conserved(s) && Destroy(s, c, m).0 == Done
    ensures var t := Destroy(s, c, m).1;
            (key in s.objects && key !in t.objects)
            <==> HeldBy(s, m, key) != {} && Holders(s, key) == HeldBy(s, m, key)
  {
    assert ConservedAt(s, key);
    hide Conserved, Consistent, ConservedAt, Holders, HeldBy, Destroy;
    DestroyConservesAt(s, c, m, key);
    DestroyHolders(s, c, m, key);
    PresentWhenHeld(s, key);
    PresentWhenHeld(Destroy(s, c, m).1, key);
  }

  lemma PresentWhenHeld(s: Library, key: ObjectKey)
    requires ConservedAt(s, key)
    ensures key in s.objects <==> Holders(s, key) != {}
  {
  }

  // -------------------------------------------------------------------- every call

  ghost predicate SameRows(s: Library, t: Library) {
    && t.objects == s.objects && t.versions == s.versions && t.materials.Keys == s.materials.Keys
    && (forall m :: m in s.materials ==>
          t.materials[m].group == s.materials[m].group && t.materials[m].hash == s.materials[m].hash)
  }

  lemma QuietHolderOf(s: Library, t: Library, key: ObjectKey, holder: Holder)
    requires SameRows(s, t)
    ensures HolderOf(t, key, holder) <==> HolderOf(s, key, holder)
  {
  }

  /** Calls that move no holder and no count. */
  lemma QuietConservesAt(s: Library, t: Library, key: ObjectKey)
    requires ConservedAt(s, key) && SameRows(s, t)
    ensures ConservedAt(t, key)
  {
    hide HolderOf, Holders;
    forall holder ensures HolderOf(t, key, holder) <==> HolderOf(s, key, holder) {
      QuietHolderOf(s, t, key, holder);
    }
    HoldersMove(s, t, key, {}, {});
    assert Holders(t, key) == Holders(s, key);
  }

  lemma StepConservesAt(s: Library, c: Call, key: ObjectKey)
    requires Consistent(s) && FreshUploads(s) && ConservedAt(s, key) && !VersionsClaiming(s, c)
    ensures ConservedAt(Step(s, c), key)
  {
    hide ConservedAt, Consistent, FreshUploads, Claiming;
    if c.editor {
      match c.op {
        case BeginUpload(m, h, v, u) => BeginConservesAt(s, c, m, h, v, u, key);
        case CompleteUpload(u, h, v) => CompleteConservesAt(s, c, u, h, v, key);
        case CancelUpload(u) => QuietConservesAt(s, Step(s, c), key);
        case CreateVersion(m, h, v, u) =>
          if NewVersion(s, c, m, h, v, u).0 == Done {
            NewVersionKeepsAt(s, c, m, h, v, u, key);
          }
        case UpdateMetadata(m) => QuietConservesAt(s, Step(s, c), key);
        case SetTrash(m, trashing) => QuietConservesAt(s, Step(s, c), key);
        case Purge(m) =>
          if Destroy(s, c, m).0 == Done {
            DestroyConservesAt(s, c, m, key);
          }
      }
    }
  }

  /** Every call keeps the counts exact, except the one that versions a claiming material, which never does. */
  lemma StepConserves(s: Library, c: Call)
    requires Consistent(s) && Conserved(s) && FreshUploads(s)
    ensures Conserved(Step(s, c)) <==> !VersionsClaiming(s, c)
  {
    if VersionsClaiming(s, c) {
      NewVersionConservesExactly(s, c, c.op.material, c.op.hash, c.op.version, c.op.upload);
    } else {
      hide ConservedAt, Consistent, FreshUploads, Step, VersionsClaiming;
      forall key ensures ConservedAt(Step(s, c), key) {
        assert ConservedAt(s, key);
        StepConservesAt(s, c, key);
      }
    }
  }

  lemma StepFresh(s: Library, c: Call)
    requires Consistent(s) && FreshUploads(s) && !VersionsClaiming(s, c)
    ensures FreshUploads(Step(s, c))
  {
    if c.editor {
      match c.op {
        case BeginUpload(m, h, v, u) => BeginFresh(s, c, m, h, v, u);
        case CompleteUpload(u, h, v) => CompleteFresh(s, c, u, h, v);
        case CancelUpload(u) =>
        case CreateVersion(m, h, v, u) => NewVersionFresh(s, c, m, h, v, u);
        case UpdateMetadata(m) =>
        case SetTrash(m, trashing) =>
        case Purge(m) => DestroyFresh(s, c, m);
      }
    }
  }

  lemma BeginFresh(s: Library, c: Call, m: Id, h: Hash, v: Id, u: Id)
    requires Consistent(s) && FreshUploads(s)
    ensures FreshUploads(Begin(s, c, m, h, v, u).1)
  {
  }

  lemma CompleteFresh(s: Library, c: Call, u: Id, h: Hash, v: Id)
    requires Consistent(s) && FreshUploads(s)
    ensures FreshUploads(Complete(s, c, u, h, v).1)
  {
  }

  lemma NewVersionFresh(s: Library, c: Call, m: Id, h: Hash, v: Id, u: Id)
    requires Consistent(s) && FreshUploads(s)
    requires NewVersion(s, c, m, h, v, u).0 == Done ==> !Claiming(s, m)
    ensures FreshUploads(NewVersion(s, c, m, h, v, u).1)
  {
  }

  lemma DestroyFresh(s: Library, c: Call, m: Id)
    requires Consistent(s) && FreshUploads(s)
    ensures FreshUploads(Destroy(s, c, m).1)
  {
  }

  // --------------------------------------------------------------------- every run

  ghost predicate AlwaysConserved(s: Library, calls: seq<Call>)
    decreases |calls|
  {
    Conserved(s) && (calls != [] ==> AlwaysConserved(Step(s, calls[0]), calls[1..]))
  }

  /** No call of the run opens a new version for a material that still holds a claim. */
  ghost predicate NeverVersionsClaiming(s: Library, calls: seq<Call>)
    decreases |calls|
  {
    calls != [] ==> !VersionsClaiming(s, calls[0]) && NeverVersionsClaiming(Step(s, calls[0]), calls[1..])
  }

  lemma {:induction false} RunConservesExactly(s: Library, calls: seq<Call>)
    requires Consistent(s) && Conserved(s) && FreshUploads(s)
    ensures AlwaysConserved(s, calls) <==> NeverVersionsClaiming(s, calls)
    decreases |calls|
  {
    if calls != [] {
      StepConserves(s, calls[0]);
      StepConsistent(s, calls[0]);
      hide Step, Conserved, Consistent, FreshUploads, VersionsClaiming;
      if !VersionsClaiming(s, calls[0]) {
        StepFresh(s, calls[0]);
        RunConservesExactly(Step(s, calls[0]), calls[1..]);
      } else {
        assert !Conserved(Step(s, calls[0]));
      }
    }
  }

  /** From an empty library, the counts are exact throughout a run if and only if no such call is made. */
  lemma ConservationExact(calls: seq<Call>)
    ensures AlwaysConserved(EMPTY, calls) <==> NeverVersionsClaiming(EMPTY, calls)
  {
    forall key ensures ConservedAt(EMPTY, key) {
      HoldersExact(EMPTY, key);
    }
    RunConservesExactly(EMPTY, calls);
  }

  // ------------------------------------------------------- what the one call costs

  const FIRST := ByEditor(BeginUpload(1, 10, 1, 1))
  const EARLY_VERSION := ByEditor(CreateVersion(1, 20, 2, 2))
  const LATE_COMPLETION := ByEditor(CompleteUpload(1, 20, 3))
  const SECOND := ByEditor(BeginUpload(2, 20, 4, 4))
  const TRASH := ByEditor(SetTrash(1, true))
  const PURGE := ByEditor(Purge(1))

  const BEFORE_PURGE := Library(
    map[(0, 10) := 1, (0, 20) := 2],
    map[1 := Material(0, 20, Trashed, Some(3), 4, true, 0), 2 := Material(0, 20, Ready, Some(4), 1, false, 0)],
    map[2 := Version(1, 2, 20), 3 := Version(1, 3, 20), 4 := Version(2, 1, 20)],
    map[1 := Session(0, Some(1), Some(3), Completed), 2 := Session(0, Some(1), Some(2), Pending),
        4 := Session(0, Some(2), Some(4), Completed)])

  const AFTER_COMPLETION := Library(
    map[(0, 10) := 1, (0, 20) := 1],
    map[1 := Material(0, 20, Ready, Some(3), 3, false, 0)], map[2 := Version(1, 2, 20), 3 := Version(1, 3, 20)],
    map[1 := Session(0, Some(1), Some(3), Completed), 2 := Session(0, Some(1), Some(2), Pending)])

  lemma ReachCompletion()
    ensures Step(Step(Step(EMPTY, FIRST), EARLY_VERSION), LATE_COMPLETION) == AFTER_COMPLETION
  {
    hide Destroy;
    assert Step(EMPTY, FIRST) == Library(map[(0, 10) := 1],
                                         map[1 := Material(0, 10, Uploading, None, 1, false, 0)], map[],
                                         map[1 := Session(0, Some(1), None, Pending)]);
    assert Step(Step(EMPTY, FIRST), EARLY_VERSION) == Library(
        map[(0, 10) := 1, (0, 20) := 1],
        map[1 := Material(0, 20, Uploading, Some(2), 2, false, 0)], map[2 := Version(1, 2, 20)],
        map[1 := Session(0, Some(1), None, Pending), 2 := Session(0, Some(1), Some(2), Pending)]);
  }

  lemma ReachTrash()
    ensures Step(Step(AFTER_COMPLETION, SECOND), TRASH) == BEFORE_PURGE
  {
    hide Destroy;
  }

  lemma ReachBeforePurge()
    ensures Step(Step(Step(Step(Step(EMPTY, FIRST), EARLY_VERSION), LATE_COMPLETION), SECOND), TRASH) == BEFORE_PURGE
  {
    ReachCompletion();
    ReachTrash();
    hide Step;
  }

  lemma ReachAfterPurge()
    ensures Run(EMPTY, [FIRST, EARLY_VERSION, LATE_COMPLETION, SECOND, TRASH, PURGE]) == Step(BEFORE_PURGE, PURGE)
  {
    ReachBeforePurge();
    hide Step;
    RunFirst(EMPTY, FIRST, [EARLY_VERSION, LATE_COMPLETION, SECOND, TRASH, PURGE]);
    RunFirst(Step(EMPTY, FIRST), EARLY_VERSION, [LATE_COMPLETION, SECOND, TRASH, PURGE]);
    RunFirst(Step(Step(EMPTY, FIRST), EARLY_VERSION), LATE_COMPLETION, [SECOND, TRASH, PURGE]);
    RunFirst(Step(Step(Step(EMPTY, FIRST), EARLY_VERSION), LATE_COMPLETION), SECOND, [TRASH, PURGE]);
    RunFirst(Step(Step(Step(Step(EMPTY, FIRST), EARLY_VERSION), LATE_COMPLETION), SECOND), TRASH, [PURGE]);
    RunFirst(BEFORE_PURGE, PURGE, []);
  }

  lemma CostlyPurge()
    ensures Attempt(BEFORE_PURGE, PURGE).0 == Done
    ensures var t := Step(BEFORE_PURGE, PURGE);
            && t.objects == map[(0, 10) := 1]
            && t.materials == map[2 := Material(0, 20, Ready, Some(4), 1, false, 0)]
            && t.versions == map[4 := Version(2, 1, 20)]
  {
    var s := BEFORE_PURGE;
    CostlyRelease();
    hide Released, Forgotten, Holds;
    assert WithoutMaterial(s, 1) == map[4 := Version(2, 1, 20)];
    assert s.materials - {1} == map[2 := Material(0, 20, Ready, Some(4), 1, false, 0)];
  }

  lemma CostlyRelease()
    ensures Released(BEFORE_PURGE, 1) == map[(0, 10) := 1]
  {
    var s := BEFORE_PURGE;
    assert VersionsOf(s, 1, 20) == {2, 3} && VersionsOf(s, 1, 10) == {};
    assert Holds(s, 1, 20) == 2 && Holds(s, 1, 10) == 0;
    hide VersionsOf, Holds;
  }

  /**
   The excluded call is not harmless: a material versioned before its first upload
   completes, then completed, counts one reference too few, and purging it drops the
   object of another material that is ready. The abandoned hash keeps a row nobody holds.
   */
  lemma EarlyVersionLosesContent()
    ensures var t := Run(EMPTY, [FIRST, EARLY_VERSION, LATE_COMPLETION, SECOND, TRASH, PURGE]);
            && 2 in t.materials && t.materials[2].status == Ready && t.materials[2].current == Some(4)
            && 4 in t.versions && t.versions[4] == Version(2, 1, 20)
            && (0, 20) !in t.objects
            && (0, 10) in t.objects && Holders(t, (0, 10)) == {}
  {
    ReachAfterPurge();
    CostlyPurge();
    HoldersExact(Step(BEFORE_PURGE, PURGE), (0, 10));
    hide Step, Run;
  }
}
