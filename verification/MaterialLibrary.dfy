/**
 The material library: content-addressed objects with reference counts, materials,
 their versions, and upload sessions. Every mutation of the store is one SQL
 statement, so it is one atomic step on the four tables. Identifiers and content
 hashes are compared only for equality and are modelled as numbers.
 */
module MaterialLibrary {
  import opened Results

  type Id = nat
  type Hash = nat
  type ObjectKey = (Id, Hash)

  datatype Status = Uploading | Ready | Trashed

  datatype SessionState = Pending | Receiving | Verifying | Completed | Cancelled | Failed {
    predicate Open() {
      Pending? || Receiving? || Verifying?
    }
  }

  datatype Material = Material(group: Id, hash: Hash, status: Status, current: Option<Id>,
                               revision: nat, trashed: bool, updatedAt: int)

  datatype Version = Version(material: Id, sequence: nat, hash: Hash)

  datatype Session = Session(group: Id, material: Option<Id>, version: Option<Id>, state: SessionState)

  datatype Library = Library(
    objects: map<ObjectKey, nat>,
    materials: map<Id, Material>,
    versions: map<Id, Version>,
    sessions: map<Id, Session>)

  const EMPTY := Library(map[], map[], map[], map[])

  /** A mutation as a caller names it; ids of new rows are drawn by the store. */
  datatype Op =
    | BeginUpload(material: Id, hash: Hash, version: Id, upload: Id)
    | CompleteUpload(upload: Id, hash: Hash, version: Id)
    | CancelUpload(upload: Id)
    | CreateVersion(material: Id, hash: Hash, version: Id, upload: Id)
    | UpdateMetadata(material: Id)
    | SetTrash(material: Id, trashing: bool)
    | Purge(material: Id)

  /** One call: the caller's group, whether it is an active editor of it, and the instant. */
  datatype Call = Call(group: Id, editor: bool, now: int, op: Op)

  function ByEditor(op: Op): Call {
    Call(0, true, 0, op)
  }

  datatype Reply = Done | PermissionDenied | NotFound | FailedPrecondition | ConstraintViolated

  // ------------------------------------------------------------------- mutations

  /** Creates a material; holding the object already makes it ready with a first version at once. */
  function Begin(s: Library, c: Call, m: Id, h: Hash, v: Id, u: Id): (Reply, Library) {
    var key := (c.group, h);
    var held := key in s.objects;
    if m in s.materials || u in s.sessions || (held && v in s.versions) then (ConstraintViolated, s)
    else
      (Done, s.(
        objects := s.objects[key := if held then s.objects[key] + 1 else 1],
        materials := s.materials[m := Material(c.group, h, if held then Ready else Uploading,
                                               if held then Some(v) else None, 1, false, c.now)],
        versions := if held then s.versions[v := Version(m, 1, h)] else s.versions,
        sessions := s.sessions[u := Session(c.group, Some(m), if held then Some(v) else None,
                                            if held then Completed else Pending)]))
  }

  /** Records the version an upload produced; a session opened with a version keeps it. */
  function Complete(s: Library, c: Call, u: Id, h: Hash, v: Id): (Reply, Library) {
    if u !in s.sessions || s.sessions[u].group != c.group then (NotFound, s)
    else
      var session := s.sessions[u];
      if !session.state.Open() || session.material.None? || session.material.value !in s.materials
         || s.materials[session.material.value].hash != h
      then (FailedPrecondition, s)
      else
        var m := session.material.value;
        var material := s.materials[m];
        var version := session.version.GetOr(v);
        if session.version.None? && v in s.versions then (ConstraintViolated, s)
        else
          (Done, s.(
            materials := s.materials[m := material.(status := Ready, current := Some(version),
                                                    revision := material.revision + 1, updatedAt := c.now)],
            versions := if session.version.None? then s.versions[v := Version(m, material.revision + 1, h)]
                        else s.versions,
            sessions := s.sessions[u := session.(state := Completed, version := Some(version))]))
  }

  function Cancel(s: Library, c: Call, u: Id): (Reply, Library) {
    if u !in s.sessions || s.sessions[u].group != c.group then (NotFound, s)
    else if !s.sessions[u].state.Open() then (FailedPrecondition, s)
    else (Done, s.(sessions := s.sessions[u := s.sessions[u].(state := Cancelled)]))
  }

  /** Opens an upload for a new version; a version row always claims its object. */
  function NewVersion(s: Library, c: Call, m: Id, h: Hash, v: Id, u: Id): (Reply, Library) {
    if m !in s.materials || s.materials[m].group != c.group then (NotFound, s)
    else if s.materials[m].trashed then (FailedPrecondition, s)
    else if v in s.versions || u in s.sessions then (ConstraintViolated, s)
    else
      var key, material := (c.group, h), s.materials[m];
      var revision := material.revision + 1;
      (Done, s.(
        objects := s.objects[key := if key in s.objects then s.objects[key] + 1 else 1],
        materials := s.materials[m := material.(status := Uploading, hash := h, current := Some(v),
                                                revision := revision, updatedAt := c.now)],
        versions := s.versions[v := Version(m, revision, h)],
        sessions := s.sessions[u := Session(c.group, Some(m), Some(v), Pending)]))
  }

  function Describe(s: Library, c: Call, m: Id): (Reply, Library) {
    if m !in s.materials || s.materials[m].group != c.group then (NotFound, s)
    else
      var material := s.materials[m];
      (Done, s.(materials := s.materials[m := material.(revision := material.revision + 1, updatedAt := c.now)]))
  }

  /** Trash and restore; a restored material is ready exactly when it names a version. */
  function ToggleTrash(s: Library, c: Call, m: Id, trashing: bool): (Reply, Library) {
    if m !in s.materials || s.materials[m].group != c.group then (NotFound, s)
    else if s.materials[m].trashed == trashing then (FailedPrecondition, s)
    else
      var material := s.materials[m];
      var status := if trashing then Trashed else if material.current.None? then Uploading else Ready;
      (Done, s.(materials := s.materials[m := material.(trashed := trashing, status := status,
                                                        revision := material.revision + 1, updatedAt := c.now)]))
  }

  function VersionsOf(s: Library, m: Id, h: Hash): set<Id> {
    set v | v in s.versions && s.versions[v].material == m && s.versions[v].hash == h
  }

  /** The references a material holds on one hash: its versions, or the claim of an upload with no version yet. */
  function Holds(s: Library, m: Id, h: Hash): nat
    requires m in s.materials
  {
    var versions := VersionsOf(s, m, h);
    |versions| + if s.materials[m].hash == h && versions == {} then 1 else 0
  }

  /** Every hash is released by what the material holds; a count that would reach zero drops its row. */
  function Released(s: Library, m: Id): map<ObjectKey, nat>
    requires m in s.materials
  {
    var group := s.materials[m].group;
    map k | k in s.objects && (k.0 != group || Holds(s, m, k.1) == 0 || s.objects[k] > Holds(s, m, k.1)) ::
      if k.0 != group then s.objects[k] else s.objects[k] - Holds(s, m, k.1)
  }

  /** Destroys a trashed material: its versions go with it, and sessions forget both. */
  function Destroy(s: Library, c: Call, m: Id): (Reply, Library) {
    if m !in s.materials || s.materials[m].group != c.group then (NotFound, s)
    else if !s.materials[m].trashed then (FailedPrecondition, s)
    else (Done, Library(Released(s, m), s.materials - {m}, WithoutMaterial(s, m), Forgotten(s, m)))
  }

  function WithoutMaterial(s: Library, m: Id): map<Id, Version> {
    map v | v in s.versions && s.versions[v].material != m :: s.versions[v]
  }

  function Forgotten(s: Library, m: Id): map<Id, Session> {
    map u | u in s.sessions :: Forget(s, m, s.sessions[u])
  }

  function Forget(s: Library, m: Id, session: Session): Session {
    var version := if session.version.Some? && session.version.value in s.versions
                      && s.versions[session.version.value].material == m then None else session.version;
    session.(material := if session.material == Some(m) then None else session.material, version := version)
  }

  function Attempt(s: Library, c: Call): (Reply, Library) {
    if !c.editor then (PermissionDenied, s)
    else match c.op
      case BeginUpload(m, h, v, u) => Begin(s, c, m, h, v, u)
      case CompleteUpload(u, h, v) => Complete(s, c, u, h, v)
      case CancelUpload(u) => Cancel(s, c, u)
      case CreateVersion(m, h, v, u) => NewVersion(s, c, m, h, v, u)
      case UpdateMetadata(m) => Describe(s, c, m)
      case SetTrash(m, trashing) => ToggleTrash(s, c, m, trashing)
      case Purge(m) => Destroy(s, c, m)
  }

  function Step(s: Library, c: Call): Library {
    Attempt(s, c).1
  }

  function Run(s: Library, calls: seq<Call>): Library
    decreases |calls|
  {
    if calls == [] then s else Run(Step(s, calls[0]), calls[1..])
  }

  lemma RunFirst(s: Library, c: Call, rest: seq<Call>)
    ensures Run(s, [c] + rest) == Run(Step(s, c), rest)
  {
  }

  // ---------------------------------------------------------- what every step keeps

  /** Pointers name rows of the same material, and no version outnumbers its material's revision. */
  ghost predicate Consistent(s: Library) {
    MaterialsPointWithin(s) && VersionsPlaced(s) && SessionsPlaced(s) && SequencesDistinct(s)
  }

  ghost predicate MaterialsPointWithin(s: Library) {
    forall m :: m in s.materials && s.materials[m].current.Some? ==>
      PointsWithin(s, s.materials[m].current.value, m)
  }

  ghost predicate VersionsPlaced(s: Library) {
    forall v :: v in s.versions ==> VersionPlaced(s, v)
  }

  ghost predicate SessionsPlaced(s: Library) {
    forall u :: u in s.sessions ==> SessionPlaced(s, s.sessions[u])
  }

  ghost predicate SequencesDistinct(s: Library) {
    forall v, w :: v in s.versions && w in s.versions && v != w
                   && s.versions[v].material == s.versions[w].material ==>
      s.versions[v].sequence != s.versions[w].sequence
  }

  ghost predicate PointsWithin(s: Library, v: Id, m: Id) {
    v in s.versions && s.versions[v].material == m
  }

  ghost predicate VersionPlaced(s: Library, v: Id)
    requires v in s.versions
  {
    var version := s.versions[v];
    version.material in s.materials && 1 <= version.sequence <= s.materials[version.material].revision
  }

  ghost predicate SessionPlaced(s: Library, session: Session) {
    && (session.material.Some? ==>
          session.material.value in s.materials && s.materials[session.material.value].group == session.group)
    && (session.version.Some? ==>
          session.version.value in s.versions && session.material == Some(s.versions[session.version.value].material))
  }

  /** Pointer integrity and numbering survive every call, granted or refused. */
  lemma StepConsistent(s: Library, c: Call)
    requires Consistent(s)
    ensures Consistent(Step(s, c))
  {
    hide Holds;
    match c.op {
      case BeginUpload(m, h, v, u) => BeginConsistent(s, c, m, h, v, u);
      case CompleteUpload(u, h, v) => CompleteConsistent(s, c, u, h, v);
      case CancelUpload(u) =>
      case CreateVersion(m, h, v, u) => NewVersionConsistent(s, c, m, h, v, u);
      case UpdateMetadata(m) =>
      case SetTrash(m, trashing) =>
      case Purge(m) => DestroyConsistent(s, c, m);
    }
  }

  lemma BeginConsistent(s: Library, c: Call, m: Id, h: Hash, v: Id, u: Id)
    requires Consistent(s)
    ensures Consistent(Begin(s, c, m, h, v, u).1)
  {
    BeginPlaces(s, c, m, h, v, u);
    BeginNumbers(s, c, m, h, v, u);
    hide Begin, MaterialsPointWithin, VersionsPlaced, SessionsPlaced, SequencesDistinct;
  }

  lemma BeginPlaces(s: Library, c: Call, m: Id, h: Hash, v: Id, u: Id)
    requires MaterialsPointWithin(s) && SessionsPlaced(s)
    ensures MaterialsPointWithin(Begin(s, c, m, h, v, u).1) && SessionsPlaced(Begin(s, c, m, h, v, u).1)
  {
  }

  lemma BeginNumbers(s: Library, c: Call, m: Id, h: Hash, v: Id, u: Id)
    requires VersionsPlaced(s) && SequencesDistinct(s)
    ensures VersionsPlaced(Begin(s, c, m, h, v, u).1) && SequencesDistinct(Begin(s, c, m, h, v, u).1)
  {
  }

  lemma CompleteConsistent(s: Library, c: Call, u: Id, h: Hash, v: Id)
    requires Consistent(s)
    ensures Consistent(Complete(s, c, u, h, v).1)
  {
  }

  lemma NewVersionConsistent(s: Library, c: Call, m: Id, h: Hash, v: Id, u: Id)
    requires Consistent(s)
    ensures Consistent(NewVersion(s, c, m, h, v, u).1)
  {
  }

  lemma DestroyConsistent(s: Library, c: Call, m: Id)
    requires Consistent(s)
    ensures Consistent(Destroy(s, c, m).1)
  {
  }

  lemma {:induction false} RunConsistent(s: Library, calls: seq<Call>)
    requires Consistent(s)
    ensures Consistent(Run(s, calls))
    decreases |calls|
  {
    if calls != [] {
      StepConsistent(s, calls[0]);
      RunConsistent(Step(s, calls[0]), calls[1..]);
    }
  }
}
