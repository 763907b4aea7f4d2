/**
 The material store as the service holds it: four tables that each mutation
 rewrites row by row. Every method leaves exactly the tables, and gives exactly the
 reply, of the library's transition for that call, and keeps pointers and numbering sound.
 */
module MaterialStore {
  import opened Results
  import opened MaterialLibrary

  class Store {
    var objects: map<ObjectKey, nat>
    var materials: map<Id, Material>
    var versions: map<Id, Version>
    var sessions: map<Id, Session>

    ghost function Contents(): Library
      reads this
    {
      Library(objects, materials, versions, sessions)
    }

    ghost predicate Valid()
      reads this
    {
      Consistent(Contents())
    }

    constructor ()
      ensures Contents() == EMPTY && Valid()
    {
      objects, materials, versions, sessions := map[], map[], map[], map[];
    }

    method BeginUpload(group: Id, editor: bool, now: int, m: Id, h: Hash, v: Id, u: Id) returns (reply: Reply)
      requires Valid()
      modifies this
      ensures Valid()
      ensures (reply, Contents()) == Attempt(old(Contents()), Call(group, editor, now, Op.BeginUpload(m, h, v, u)))
    {
      StepConsistent(Contents(), Call(group, editor, now, Op.BeginUpload(m, h, v, u)));
      hide Consistent;
      if !editor {
        return PermissionDenied;
      }
      var held := (group, h) in objects;
      if m in materials || u in sessions || (held && v in versions) {
        return ConstraintViolated;
      }
      var material := Material(group, h, Uploading, None, 1, false, now);
      var session := Session(group, Some(m), None, Pending);
      if held {
        objects := objects[(group, h) := objects[(group, h)] + 1];
        versions := versions[v := Version(m, material.revision, h)];
        material := material.(status := Ready, current := Some(v));
        session := session.(state := Completed, version := Some(v));
      } else {
        objects := objects[(group, h) := 1];
      }
      materials := materials[m := material];
      sessions := sessions[u := session];
      return Done;
    }

    method CompleteUpload(group: Id, editor: bool, now: int, u: Id, h: Hash, v: Id) returns (reply: Reply)
      requires Valid()
      modifies this
      ensures Valid()
      ensures (reply, Contents()) == Attempt(old(Contents()), Call(group, editor, now, Op.CompleteUpload(u, h, v)))
    {
      StepConsistent(Contents(), Call(group, editor, now, Op.CompleteUpload(u, h, v)));
      hide Consistent;
      if !editor {
        return PermissionDenied;
      }
      if u !in sessions || sessions[u].group != group {
        return NotFound;
      }
      var session := sessions[u];
      if !session.state.Open() || session.material.None? || session.material.value !in materials {
        return FailedPrecondition;
      }
      if materials[session.material.value].hash != h {
        return FailedPrecondition;
      }
      if session.version.None? && v in versions {
        return ConstraintViolated;
      }
      FinishUpload(now, u, h, v);
      return Done;
    }

    /** Adds the first version if the session came without one, then points session and material at it. */
    method FinishUpload(now: int, u: Id, h: Hash, v: Id)
      requires u in sessions && sessions[u].state.Open()
      requires sessions[u].material.Some? && sessions[u].material.value in materials
      requires materials[sessions[u].material.value].hash == h && (sessions[u].version.None? ==> v !in versions)
      modifies this
      ensures forall c: Call :: c.group == old(sessions)[u].group && c.now == now ==>
                Contents() == Complete(old(Contents()), c, u, h, v).1
    {
      var session := sessions[u];
      var m := session.material.value;
      var material := materials[m];
      if session.version.None? {
        versions := versions[v := Version(m, material.revision + 1, h)];
        session := session.(version := Some(v));
      }
      sessions := sessions[u := session.(state := Completed)];
      materials := materials[m := material.(status := Ready, current := session.version,
                                            revision := material.revision + 1, updatedAt := now)];
    }

    method CancelUpload(group: Id, editor: bool, now: int, u: Id) returns (reply: Reply)
      requires Valid()
      modifies this
      ensures Valid()
      ensures (reply, Contents()) == Attempt(old(Contents()), Call(group, editor, now, Op.CancelUpload(u)))
    {
      StepConsistent(Contents(), Call(group, editor, now, Op.CancelUpload(u)));
      hide Consistent;
      if !editor {
        return PermissionDenied;
      }
      if u !in sessions || sessions[u].group != group {
        return NotFound;
      }
      if !sessions[u].state.Open() {
        return FailedPrecondition;
      }
      sessions := sessions[u := sessions[u].(state := Cancelled)];
      return Done;
    }

    method CreateMaterialVersion(group: Id, editor: bool, now: int, m: Id, h: Hash, v: Id, u: Id) returns (reply: Reply)
      requires Valid()
      modifies this
      ensures Valid()
      ensures (reply, Contents()) == Attempt(old(Contents()), Call(group, editor, now, Op.CreateVersion(m, h, v, u)))
    {
      StepConsistent(Contents(), Call(group, editor, now, Op.CreateVersion(m, h, v, u)));
      hide Consistent;
      if !editor {
        return PermissionDenied;
      }
      if m !in materials || materials[m].group != group {
        return NotFound;
      }
      if materials[m].trashed {
        return FailedPrecondition;
      }
      if v in versions || u in sessions {
        return ConstraintViolated;
      }
      OpenVersion(group, now, m, h, v, u);
      return Done;
    }

    /** Claims the object, then points the material at the new version. */
    method OpenVersion(group: Id, now: int, m: Id, h: Hash, v: Id, u: Id)
      requires m in materials && materials[m].group == group && !materials[m].trashed
      requires v !in versions && u !in sessions
      modifies this
      ensures forall c: Call :: c.group == group && c.now == now ==>
                Contents() == NewVersion(old(Contents()), c, m, h, v, u).1
    {
      objects := objects[(group, h) := if (group, h) in objects then objects[(group, h)] + 1 else 1];
      var revision := materials[m].revision + 1;
      materials := materials[m := materials[m].(status := Uploading, hash := h, current := Some(v),
                                                revision := revision, updatedAt := now)];
      versions := versions[v := Version(m, revision, h)];
      sessions := sessions[u := Session(group, Some(m), Some(v), Pending)];
    }

    method UpdateMetadata(group: Id, editor: bool, now: int, m: Id) returns (reply: Reply)
      requires Valid()
      modifies this
      ensures Valid()
      ensures (reply, Contents()) == Attempt(old(Contents()), Call(group, editor, now, Op.UpdateMetadata(m)))
    {
      StepConsistent(Contents(), Call(group, editor, now, Op.UpdateMetadata(m)));
      hide Consistent;
      if !editor {
        return PermissionDenied;
      }
      if m !in materials || materials[m].group != group {
        return NotFound;
      }
      materials := materials[m := materials[m].(revision := materials[m].revision + 1, updatedAt := now)];
      return Done;
    }

    method SetTrashState(group: Id, editor: bool, now: int, m: Id, trashing: bool) returns (reply: Reply)
      requires Valid()
      modifies this
      ensures Valid()
      ensures (reply, Contents()) == Attempt(old(Contents()), Call(group, editor, now, Op.SetTrash(m, trashing)))
    {
      StepConsistent(Contents(), Call(group, editor, now, Op.SetTrash(m, trashing)));
      hide Consistent;
      if !editor {
        return PermissionDenied;
      }
      if m !in materials || materials[m].group != group {
        return NotFound;
      }
      var material := materials[m];
      if material.trashed == trashing {
        return FailedPrecondition;
      }
      var status := Trashed;
      if !trashing {
        status := if material.current.None? then Uploading else Ready;
      }
      materials := materials[m := material.(trashed := trashing, status := status,
                                            revision := material.revision + 1, updatedAt := now)];
      return Done;
    }

    /** Releases each hash the material holds, one object row at a time, then deletes its rows. */
    method PurgeMaterial(group: Id, editor: bool, now: int, m: Id) returns (reply: Reply)
      requires Valid()
      modifies this
      ensures Valid()
      ensures (reply, Contents()) == Attempt(old(Contents()), Call(group, editor, now, Op.Purge(m)))
    {
      ghost var s := Contents();
      StepConsistent(s, Call(group, editor, now, Op.Purge(m)));
      hide Consistent;
      if !editor {
        return PermissionDenied;
      }
      if m !in materials || materials[m].group != group {
        return NotFound;
      }
      if !materials[m].trashed {
        return FailedPrecondition;
      }
      ReleaseAll(m);
      sessions := map u | u in sessions :: Forget(Library(objects, materials, versions, sessions), m, sessions[u]);
      versions := map v | v in versions && versions[v].material != m :: versions[v];
      materials := materials - {m};
      assert sessions == Forgotten(s, m);
      return Done;
    }

    method ReleaseAll(m: Id)
      requires m in materials
      modifies this`objects
      ensures objects == Released(old(Contents()), m)
    {
      ghost var s := Contents();
      var pending := HeldHashes(versions, materials, m);
      ghost var done: set<Hash> := {};
      ReleasedNone(s, m);
      ReleasedOnce(s, m);
      ghost var all := Released(s, m);
      assert ReleasedFor(s, m, done + pending) == all && objects == ReleasedFor(s, m, done);
      hide ReleasedFor, Released, Holds, HeldHashes;
      while pending != {}
        invariant done !! pending && ReleasedFor(s, m, done + pending) == all
        invariant objects == ReleasedFor(s, m, done)
        decreases |pending|
      {
        var h :| h in pending;
        ReleaseHash(m, h, s, done);
        assert done + pending == done + {h} + (pending - {h});
        pending, done := pending - {h}, done + {h};
      }
      assert done + pending == done;
    }

    method ReleaseHash(m: Id, h: Hash, ghost s: Library, ghost done: set<Hash>)
      requires m in materials && h !in done
      requires s.materials == materials && s.versions == versions && objects == ReleasedFor(s, m, done)
      modifies this`objects
      ensures objects == ReleasedFor(s, m, done + {h})
    {
      ReleaseStep(s, m, done, h);
      hide ReleasedFor;
      var rows := set v | v in versions && versions[v].material == m && versions[v].hash == h;
      assert rows == VersionsOf(s, m, h);
      hide VersionsOf;
      var holds := |rows| + if materials[m].hash == h && rows == {} then 1 else 0;
      var key := (materials[m].group, h);
      if key in objects {
        if objects[key] > holds {
          objects := objects[key := objects[key] - holds];
        } else {
          objects := objects - {key};
        }
      }
    }
  }

  function HeldHashes(versions: map<Id, Version>, materials: map<Id, Material>, m: Id): set<Hash>
    requires m in materials
  {
    (set v | v in versions && versions[v].material == m :: versions[v].hash) + {materials[m].hash}
  }

  /** The object table once the hashes in `done` have been released. */
  ghost function ReleasedFor(s: Library, m: Id, done: set<Hash>): map<ObjectKey, nat>
    requires m in s.materials
  {
    map k | k in s.objects && (k.0 != s.materials[m].group || k.1 !in done || s.objects[k] > Holds(s, m, k.1)) ::
      if k.0 != s.materials[m].group || k.1 !in done then s.objects[k] else s.objects[k] - Holds(s, m, k.1)
  }

  lemma ReleasedNone(s: Library, m: Id)
    requires m in s.materials
    ensures ReleasedFor(s, m, {}) == s.objects
  {
  }

  lemma ReleaseStep(s: Library, m: Id, done: set<Hash>, h: Hash)
    requires m in s.materials && h !in done
    ensures var key, before := (s.materials[m].group, h), ReleasedFor(s, m, done);
            ReleasedFor(s, m, done + {h}) ==
            if key !in before then before
            else if before[key] > Holds(s, m, h) then before[key := before[key] - Holds(s, m, h)]
            else before - {key}
  {
  }

  /** A hash the material names nowhere is held zero times, so releasing the named ones releases all. */
  lemma ReleasedOnce(s: Library, m: Id)
    requires m in s.materials
    ensures ReleasedFor(s, m, HeldHashes(s.versions, s.materials, m)) == Released(s, m)
  {
    var held := HeldHashes(s.versions, s.materials, m);
    forall h ensures h in held <==> Holds(s, m, h) > 0 {
      if h in held && h != s.materials[m].hash {
        var v :| v in s.versions && s.versions[v].material == m && s.versions[v].hash == h;
        assert v in VersionsOf(s, m, h);
      }
    }
    hide Holds, HeldHashes;
  }
}
