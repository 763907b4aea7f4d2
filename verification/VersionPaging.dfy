/**
 Version numbering and the paged version list. Numbers are drawn from the material's
 revision, so a new version always outnumbers every earlier one, and a client that
 follows the cursors meets each version of the first page's library exactly once
 however many are added meanwhile.
 */
module VersionPaging {
  import opened Results
  import opened OrderedRows
  import opened MaterialLibrary

  datatype Entry = Entry(id: Id, version: Version)

  const DEFAULT_PAGE_SIZE := 50
  const MAX_PAGE_SIZE := 100

  /** Zero asks for the default; anything outside the range is refused, not clamped. */
  function PageSize(requested: int): Option<nat> {
    if requested == 0 then Some(DEFAULT_PAGE_SIZE)
    else if requested < 1 || requested > MAX_PAGE_SIZE then None
    else Some(requested)
  }

  datatype Page = Page(items: seq<Entry>, next: Option<nat>, hasMore: bool, total: nat) | InvalidArgument

  /** The version rows a group sees under a material: none when the material is not its own. */
  ghost function Entries(s: Library, group: Id, m: Id): set<Entry> {
    if m in s.materials && s.materials[m].group == group
    then set v | v in s.versions && s.versions[v].material == m :: Entry(v, s.versions[v])
    else {}
  }

  predicate Newer(a: Entry, b: Entry) {
    a.version.sequence > b.version.sequence
  }

  predicate Past(e: Entry, cursor: Option<nat>) {
    cursor.None? || e.version.sequence < cursor.value
  }

  ghost function After(rows: set<Entry>, cursor: Option<nat>): set<Entry> {
    set e | e in rows && Past(e, cursor)
  }

  lemma NewestFirst(s: Library, group: Id, m: Id)
    requires Consistent(s)
    ensures StrictOrder(Entries(s, group, m), Newer)
  {
  }

  ghost function Rows(s: Library, group: Id, m: Id): (rows: seq<Entry>)
    requires Consistent(s)
    ensures Lists(rows, Entries(s, group, m), Newer) && |rows| == |Entries(s, group, m)|
  {
    NewestFirst(s, group, m);
    ListingLists(Entries(s, group, m), Newer);
    Listing(Entries(s, group, m), Newer)
  }

  /** One page: a row more than asked for is read only to learn that there is one. */
  ghost function ListVersions(s: Library, group: Id, m: Id, requested: int, cursor: Option<nat>): (page: Page)
    requires Consistent(s)
  {
    if PageSize(requested).None? then InvalidArgument
    else
      NewestFirst(s, group, m);
      SubOrder(Entries(s, group, m), After(Entries(s, group, m), cursor), Newer);
      Cut(Listing(After(Entries(s, group, m), cursor), Newer), PageSize(requested).value, |Entries(s, group, m)|)
  }

  function Cut(rows: seq<Entry>, size: nat, total: nat): Page
    requires size > 0
  {
    var read := if |rows| > size + 1 then rows[..size + 1] else rows;
    var hasMore := |read| > size;
    var visible := if hasMore then read[..size] else read;
    Page(visible, if hasMore then Some(visible[|visible| - 1].version.sequence) else None, hasMore, total)
  }

  // -------------------------------------------------------------------- numbering

  /** The run never leaves the library without material `m`. */
  ghost predicate Keeps(s: Library, calls: seq<Call>, m: Id)
    decreases |calls|
  {
    m in s.materials && (calls != [] ==> Keeps(Step(s, calls[0]), calls[1..], m))
  }

  /** Rows stay as they are, and whatever is added is numbered past the old revision. */
  ghost predicate Appends(s: Library, t: Library, m: Id) {
    && m in s.materials && m in t.materials
    && t.materials[m].group == s.materials[m].group
    && t.materials[m].revision >= s.materials[m].revision
    && (forall v :: v in s.versions && s.versions[v].material == m ==>
          v in t.versions && t.versions[v] == s.versions[v])
    && (forall v :: v in t.versions && t.versions[v].material == m ==>
          (v in s.versions && s.versions[v] == t.versions[v]) || t.versions[v].sequence > s.materials[m].revision)
  }

  lemma StepAppends(s: Library, c: Call, m: Id)
    requires Consistent(s) && m in s.materials && m in Step(s, c).materials
    ensures Appends(s, Step(s, c), m)
  {
    if c.editor {
      match c.op {
        case BeginUpload(n, h, v, u) => BeginAppends(s, c, n, h, v, u, m);
        case CompleteUpload(u, h, v) => CompleteAppends(s, c, u, h, v, m);
        case CancelUpload(u) =>
        case CreateVersion(n, h, v, u) => NewVersionAppends(s, c, n, h, v, u, m);
        case UpdateMetadata(n) =>
        case SetTrash(n, trashing) =>
        case Purge(n) => DestroyAppends(s, c, n, m);
      }
    }
    hide Destroy, Begin, Complete, NewVersion, Consistent;
  }

  lemma CompleteAppends(s: Library, c: Call, u: Id, h: Hash, v: Id, m: Id)
    requires m in s.materials
    ensures Appends(s, Complete(s, c, u, h, v).1, m)
  {
  }

  lemma NewVersionAppends(s: Library, c: Call, n: Id, h: Hash, v: Id, u: Id, m: Id)
    requires m in s.materials
    ensures Appends(s, NewVersion(s, c, n, h, v, u).1, m)
  {
  }

  lemma BeginAppends(s: Library, c: Call, n: Id, h: Hash, v: Id, u: Id, m: Id)
    requires Consistent(s) && m in s.materials
    ensures Appends(s, Begin(s, c, n, h, v, u).1, m)
  {
  }

  lemma DestroyAppends(s: Library, c: Call, n: Id, m: Id)
    requires m in s.materials && m in Destroy(s, c, n).1.materials
    ensures Appends(s, Destroy(s, c, n).1, m)
  {
  }

  lemma {:induction false} RunAppends(s: Library, calls: seq<Call>, m: Id)
    requires Consistent(s) && Keeps(s, calls, m)
    ensures Appends(s, Run(s, calls), m)
    decreases |calls|
  {
    if calls != [] {
      StepAppends(s, calls[0], m);
      StepConsistent(s, calls[0]);
      hide Step, Consistent;
      RunAppends(Step(s, calls[0]), calls[1..], m);
    }
  }

  /** Every version added along a run outnumbers every version that was there before. */
  lemma NewVersionsOutnumber(s: Library, calls: seq<Call>, m: Id, earlier: Id, later: Id)
    requires Consistent(s) && Keeps(s, calls, m)
    requires earlier in s.versions && s.versions[earlier].material == m
    requires var t := Run(s, calls); later in t.versions && t.versions[later].material == m && later !in s.versions
    ensures earlier in Run(s, calls).versions
    ensures Run(s, calls).versions[earlier].sequence < Run(s, calls).versions[later].sequence
  {
    RunAppends(s, calls, m);
    assert VersionPlaced(s, earlier);
  }

  // ----------------------------------------------------------------------- paging

  /** A page request, and the library it met. */
  datatype Read = Read(library: Library, requested: int)

  ghost predicate Readable(asked: seq<Read>) {
    forall i :: 0 <= i < |asked| ==> Consistent(asked[i].library) && PageSize(asked[i].requested).Some?
  }

  /** Each library after the first follows from the one before it by calls that keep the material. */
  ghost predicate Evolves(asked: seq<Read>, between: seq<seq<Call>>, m: Id) {
    && asked != [] && |between| == |asked| - 1
    && m in asked[0].library.materials
    && forall i :: 0 <= i < |between| ==>
         Keeps(asked[i].library, between[i], m) && asked[i + 1].library == Run(asked[i].library, between[i])
  }

  /** What a client receives that asks on from request `i` with each cursor until a page says there is no more. */
  ghost function Follow(asked: seq<Read>, i: nat, group: Id, m: Id, cursor: Option<nat>): seq<Entry>
    requires Readable(asked) && i <= |asked|
    decreases |asked| - i
  {
    if i == |asked| then []
    else
      var page := ListVersions(asked[i].library, group, m, asked[i].requested, cursor);
      page.items + if page.hasMore then Follow(asked, i + 1, group, m, page.next) else []
  }

  ghost predicate Finished(asked: seq<Read>, i: nat, group: Id, m: Id, cursor: Option<nat>)
    requires Readable(asked) && i <= |asked|
    decreases |asked| - i
  {
    && i < |asked|
    && var page := ListVersions(asked[i].library, group, m, asked[i].requested, cursor);
       page.hasMore ==> Finished(asked, i + 1, group, m, page.next)
  }

  /** Later libraries answer a cursor taken from the first with the same rows. */
  lemma AfterSettled(s: Library, t: Library, group: Id, m: Id, cursor: nat)
    requires Appends(s, t, m) && cursor <= s.materials[m].revision
    ensures After(Entries(t, group, m), Some(cursor)) == After(Entries(s, group, m), Some(cursor))
  {
  }

  ghost function CursorAt(rows: seq<Entry>, k: nat): Option<nat>
    requires k <= |rows|
  {
    if k == 0 then None else Some(rows[k - 1].version.sequence)
  }

  /** The rows past a position's cursor are the rows from that position on. */
  lemma AfterIsTail(listed: seq<Entry>, k: nat)
    requires Ordered(listed, Newer) && k <= |listed|
    ensures After(Members(listed), CursorAt(listed, k)) == Members(listed[k..])
  {
  }

  /** The page at a position's cursor shows the next rows of the first library's listing. */
  lemma PageAt(s: Library, t: Library, group: Id, m: Id, requested: int, k: nat)
    requires Consistent(s) && Consistent(t) && Appends(s, t, m) && (k == 0 ==> s == t)
    requires PageSize(requested).Some? && k <= |Rows(s, group, m)|
    ensures ListVersions(t, group, m, requested, CursorAt(Rows(s, group, m), k))
            == Cut(Rows(s, group, m)[k..], PageSize(requested).value, |Entries(t, group, m)|)
  {
    NewestFirst(s, group, m);
    var entries, rows := Entries(s, group, m), Rows(s, group, m);
    AfterIsTail(rows, k);
    ListingTail(entries, Members(rows[k..]), Newer, k);
    if k > 0 {
      assert rows[k - 1] in Members(rows);
      assert VersionPlaced(s, rows[k - 1].id);
      AfterSettled(s, t, group, m, rows[k - 1].version.sequence);
    }
  }

  lemma CutAt(rows: seq<Entry>, size: nat, total: nat, k: nat)
    requires 0 < size && k <= |rows|
    ensures var page := Cut(rows[k..], size, total);
            && page.Page?
            && page.hasMore == (|rows| - k > size)
            && page.items == (if page.hasMore then rows[k..k + size] else rows[k..])
            && (page.hasMore ==> page.next == CursorAt(rows, k + size))
  {
  }

  /** One page of the walk: the rest if it fits, else a page of it and the walk from the row after. */
  lemma FollowStep(s: Library, asked: seq<Read>, i: nat, group: Id, m: Id, k: nat)
    requires Consistent(s) && Readable(asked) && i < |asked| && k <= |Rows(s, group, m)|
    requires Appends(s, asked[i].library, m) && (k == 0 ==> asked[i].library == s)
    ensures var rows, size := Rows(s, group, m), PageSize(asked[i].requested).value;
            var cursor := CursorAt(rows, k);
            if |rows| - k > size then
              && Follow(asked, i, group, m, cursor) ==
                 rows[k..k + size] + Follow(asked, i + 1, group, m, CursorAt(rows, k + size))
              && Finished(asked, i, group, m, cursor) == Finished(asked, i + 1, group, m, CursorAt(rows, k + size))
            else Follow(asked, i, group, m, cursor) == rows[k..] && Finished(asked, i, group, m, cursor)
  {
    var rows, size := Rows(s, group, m), PageSize(asked[i].requested).value;
    assert size > 0;
    hide ListVersions, Appends, Consistent, Entries, Rows, Cut, CursorAt, Lists, PageSize;
    PageAt(s, asked[i].library, group, m, asked[i].requested, k);
    CutAt(rows, size, |Entries(asked[i].library, group, m)|, k);
  }

  ghost predicate AllAppend(s: Library, asked: seq<Read>, m: Id) {
    forall i :: 0 <= i < |asked| ==> Appends(s, asked[i].library, m)
  }

  /** Of the rows due, a walk of at most `left` pages received a prefix, and all of them exactly if it finished. */
  ghost predicate Walked(left: nat, due: seq<Entry>, received: seq<Entry>, finished: bool) {
    && received <= due
    && (left == 0 ==> received == [])
    && (finished <==> left > 0 && received == due)
    && (left > 0 && left >= |due| ==> finished)
  }

  lemma WalkPage(left: nat, page: seq<Entry>, due: seq<Entry>, received: seq<Entry>, finished: bool)
    requires Walked(left, due, received, finished) && page != [] && due != []
    ensures Walked(left + 1, page + due, page + received, finished)
  {
  }

  lemma FollowOne(s: Library, asked: seq<Read>, i: nat, group: Id, m: Id, k: nat)
    requires Consistent(s) && Readable(asked) && i < |asked| && k <= |Rows(s, group, m)|
    requires Appends(s, asked[i].library, m) && (k == 0 ==> asked[i].library == s)
    requires var rows, size := Rows(s, group, m), PageSize(asked[i].requested).value;
             |rows| - k > size ==>
               Walked(|asked| - i - 1, rows[k + size..], Follow(asked, i + 1, group, m, CursorAt(rows, k + size)),
                      Finished(asked, i + 1, group, m, CursorAt(rows, k + size)))
    ensures var rows := Rows(s, group, m);
            Walked(|asked| - i, rows[k..], Follow(asked, i, group, m, CursorAt(rows, k)),
                   Finished(asked, i, group, m, CursorAt(rows, k)))
  {
    hide Appends, Consistent, Entries, Rows, CursorAt, Lists, Follow, Finished;
    var rows, size := Rows(s, group, m), PageSize(asked[i].requested).value;
    FollowStep(s, asked, i, group, m, k);
    if |rows| - k > size {
      hide Walked;
      assert rows[k..] == rows[k..k + size] + rows[k + size..];
      WalkPage(|asked| - i - 1, rows[k..k + size], rows[k + size..],
               Follow(asked, i + 1, group, m, CursorAt(rows, k + size)),
               Finished(asked, i + 1, group, m, CursorAt(rows, k + size)));
    }
  }

  lemma FollowNone(asked: seq<Read>, group: Id, m: Id, rows: seq<Entry>, k: nat)
    requires Readable(asked) && k <= |rows|
    ensures Walked(0, rows[k..], Follow(asked, |asked|, group, m, CursorAt(rows, k)),
                   Finished(asked, |asked|, group, m, CursorAt(rows, k)))
  {
  }

  lemma {:induction false} FollowFrom(s: Library, asked: seq<Read>, i: nat, group: Id, m: Id, k: nat)
    requires Consistent(s) && Readable(asked) && AllAppend(s, asked, m) && i <= |asked| && k <= |Rows(s, group, m)|
    requires k == 0 && i < |asked| ==> asked[i].library == s
    ensures var rows := Rows(s, group, m);
            Walked(|asked| - i, rows[k..], Follow(asked, i, group, m, CursorAt(rows, k)),
                   Finished(asked, i, group, m, CursorAt(rows, k)))
    decreases |asked| - i
  {
    hide Appends, Consistent, Entries, Rows, CursorAt, Lists, Walked, Follow, Finished;
    if i < |asked| {
      var rows, size := Rows(s, group, m), PageSize(asked[i].requested).value;
      if |rows| - k > size {
        FollowFrom(s, asked, i + 1, group, m, k + size);
      }
      FollowOne(s, asked, i, group, m, k);
    } else {
      FollowNone(asked, group, m, Rows(s, group, m), k);
    }
  }

  lemma {:induction false} EvolvesAppends(asked: seq<Read>, between: seq<seq<Call>>, m: Id, i: nat)
    requires Readable(asked) && Evolves(asked, between, m) && i < |asked|
    ensures Appends(asked[0].library, asked[i].library, m)
  {
    hide Consistent;
    if i > 0 {
      EvolvesAppends(asked, between, m, i - 1);
      RunAppends(asked[i - 1].library, between[i - 1], m);
    }
  }

  /**
   Following the cursors delivers a prefix of the first library's versions, newest
   first; all of them, each once, exactly when a page has said there is no more; and
   that happens within as many pages as there were versions.
   */
  lemma PagesDeliverAll(asked: seq<Read>, between: seq<seq<Call>>, group: Id, m: Id)
    requires Readable(asked) && Evolves(asked, between, m)
    ensures var rows, received := Rows(asked[0].library, group, m), Follow(asked, 0, group, m, None);
            && received <= rows
            && (Finished(asked, 0, group, m, None) <==> received == rows)
            && (|asked| >= |rows| ==> Finished(asked, 0, group, m, None))
  {
    forall i | 0 <= i < |asked| ensures Appends(asked[0].library, asked[i].library, m) {
      EvolvesAppends(asked, between, m, i);
    }
    hide Consistent, Entries, Rows, Appends, Follow, Finished, Evolves;
    FollowFrom(asked[0].library, asked, 0, group, m, 0);
    assert Rows(asked[0].library, group, m)[0..] == Rows(asked[0].library, group, m);
  }

  // ---------------------------------------------------------------- what one page shows

  /** The entry is a version of the material, which is the group's own. */
  ghost predicate IsVersionOf(s: Library, group: Id, m: Id, e: Entry) {
    && m in s.materials && s.materials[m].group == group
    && e.id in s.versions && e.version == s.versions[e.id] && e.version.material == m
  }

  /** The entry is one the cursor has not passed. */
  ghost predicate Due(s: Library, group: Id, m: Id, cursor: Option<nat>, e: Entry) {
    IsVersionOf(s, group, m, e) && (cursor.Some? ==> e.version.sequence < cursor.value)
  }

  lemma DueExact(s: Library, group: Id, m: Id, cursor: Option<nat>, e: Entry)
    ensures e in Entries(s, group, m) <==> IsVersionOf(s, group, m, e)
    ensures e in After(Entries(s, group, m), cursor) <==> Due(s, group, m, cursor, e)
  {
  }

  ghost predicate Falling(items: seq<Entry>) {
    forall i, j :: 0 <= i < j < |items| ==> items[i].version.sequence > items[j].version.sequence
  }

  /** The newest rows of a falling list: all of them, or as many as asked for and the number of the last. */
  ghost predicate NewestOf(rows: seq<Entry>, size: nat, page: Page)
    requires page.Page?
  {
    && page.hasMore == (|rows| > size)
    && page.items == (if |rows| > size then rows[..size] else rows)
    && (page.next.Some? <==> page.hasMore)
    && (page.hasMore ==> page.items != [] && page.next.value == page.items[|page.items| - 1].version.sequence)
  }

  lemma CutNewest(rows: seq<Entry>, size: nat, total: nat)
    requires size > 0
    ensures var page := Cut(rows, size, total); page.Page? && page.total == total && NewestOf(rows, size, page)
  {
  }

  /**
   A page size is refused exactly outside 0 to 100, zero meaning 50. A page holds the
   newest versions the cursor has not passed, falling in number, and names the last of
   them exactly if more are due; a group that does not own the material sees none.
   */
  lemma PageExact(s: Library, group: Id, m: Id, requested: int, cursor: Option<nat>) returns (rows: seq<Entry>)
    requires Consistent(s)
    ensures ListVersions(s, group, m, requested, cursor) == InvalidArgument <==> requested < 0 || requested > 100
    ensures Falling(rows) && forall e :: e in rows <==> Due(s, group, m, cursor, e)
    ensures var page := ListVersions(s, group, m, requested, cursor);
            page.Page? ==>
              NewestOf(rows, if requested == 0 then 50 else requested, page) && page.total == |Entries(s, group, m)|
  {
    NewestFirst(s, group, m);
    var entries := Entries(s, group, m);
    var due := After(entries, cursor);
    SubOrder(entries, due, Newer);
    ListingLists(due, Newer);
    rows := Listing(due, Newer);
    forall e ensures e in rows <==> Due(s, group, m, cursor, e) {
      DueExact(s, group, m, cursor, e);
      assert e in rows <==> e in Members(rows);
    }
    if PageSize(requested).Some? {
      CutNewest(rows, PageSize(requested).value, |entries|);
    }
    hide Entries, After, Listing, Consistent, Cut, NewestOf, Due;
  }
}
