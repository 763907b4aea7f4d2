/**
 `ORDER BY` over a set of rows: the one sequence that lists every row once, each
 before all that come after it. A `LIMIT` keeps a prefix of that sequence.
 */
module OrderedRows {

  ghost predicate StrictOrder<T(!new)>(rows: set<T>, before: (T, T) -> bool) {
    && (forall a :: a in rows ==> !before(a, a))
    && (forall a, b :: a in rows && b in rows && a != b ==> before(a, b) || before(b, a))
    && (forall a, b, c :: a in rows && b in rows && c in rows && before(a, b) && before(b, c) ==> before(a, c))
  }

  ghost predicate Ordered<T>(s: seq<T>, before: (T, T) -> bool) {
    forall i, j :: 0 <= i < j < |s| ==> before(s[i], s[j])
  }

  function Members<T>(s: seq<T>): set<T> {
    set x | x in s
  }

  ghost predicate Lists<T>(s: seq<T>, rows: set<T>, before: (T, T) -> bool) {
    Members(s) == rows && Ordered(s, before)
  }

  ghost predicate Leads<T(!new)>(a: T, rows: set<T>, before: (T, T) -> bool) {
    a in rows && forall b :: b in rows && b != a ==> before(a, b)
  }

  lemma {:induction false} LeaderExists<T(!new)>(rows: set<T>, before: (T, T) -> bool)
    requires StrictOrder(rows, before) && rows != {}
    ensures exists a :: Leads(a, rows, before)
    decreases |rows|
  {
    var x :| x in rows;
    var rest := rows - {x};
    if rest == {} {
      assert rows == rest + {x};
      assert Leads(x, rows, before);
    } else {
      LeaderExists(rest, before);
      var a :| Leads(a, rest, before);
      if before(a, x) {
        assert Leads(a, rows, before);
      } else {
        assert before(x, a);
        assert Leads(x, rows, before);
      }
    }
  }

  ghost function Leader<T(!new)>(rows: set<T>, before: (T, T) -> bool): (a: T)
    requires StrictOrder(rows, before) && rows != {}
    ensures Leads(a, rows, before)
  {
    LeaderExists(rows, before);
    var a :| Leads(a, rows, before);
    a
  }

  lemma SubOrder<T(!new)>(rows: set<T>, sub: set<T>, before: (T, T) -> bool)
    requires StrictOrder(rows, before) && sub <= rows
    ensures StrictOrder(sub, before)
  {
  }

  ghost function Listing<T(!new)>(rows: set<T>, before: (T, T) -> bool): (s: seq<T>)
    requires StrictOrder(rows, before)
  {
    if rows == {} then []
    else
      var a := Leader(rows, before);
      SubOrder(rows, rows - {a}, before);
      [a] + Listing(rows - {a}, before)
  }

  lemma LeaderLists<T(!new)>(rows: set<T>, a: T, rest: seq<T>, before: (T, T) -> bool)
    requires Leads(a, rows, before) && Lists(rest, rows - {a}, before)
    ensures Lists([a] + rest, rows, before)
  {
    var s := [a] + rest;
    assert Members(s) == {a} + Members(rest);
    forall i, j | 0 <= i < j < |s| ensures before(s[i], s[j]) {
      assert s[j] in Members(rest);
    }
  }

  lemma {:induction false} ListingLists<T(!new)>(rows: set<T>, before: (T, T) -> bool)
    requires StrictOrder(rows, before)
    ensures Lists(Listing(rows, before), rows, before) && |Listing(rows, before)| == |rows|
  {
    if rows != {} {
      var a := Leader(rows, before);
      SubOrder(rows, rows - {a}, before);
      hide StrictOrder;
      ListingLists(rows - {a}, before);
      LeaderLists(rows, a, Listing(rows - {a}, before), before);
    }
  }

  /** The order leaves no choice: two listings of the same rows are the same sequence. */
  lemma {:induction false} ListingUnique<T(!new)>(s: seq<T>, t: seq<T>, rows: set<T>, before: (T, T) -> bool)
    requires StrictOrder(rows, before) && Lists(s, rows, before) && Lists(t, rows, before)
    ensures s == t
    decreases |s|
  {
    if s != [] {
      assert s[0] in Members(t);
    }
    if t != [] {
      assert t[0] in Members(s);
    }
    if s != [] {
      assert s[0] == t[0];
      assert Members(s[1..]) == rows - {s[0]};
      assert Members(t[1..]) == rows - {s[0]};
      ListingUnique(s[1..], t[1..], rows - {s[0]}, before);
    }
  }

  /** The rows from position `k` on are listed as they were. */
  lemma ListingTail<T(!new)>(rows: set<T>, tail: set<T>, before: (T, T) -> bool, k: nat)
    requires StrictOrder(rows, before) && k <= |Listing(rows, before)|
    requires tail == Members(Listing(rows, before)[k..])
    ensures StrictOrder(tail, before) && Listing(tail, before) == Listing(rows, before)[k..]
  {
    ListingLists(rows, before);
    SubOrder(rows, tail, before);
    ListingLists(tail, before);
    ListingUnique(Listing(tail, before), Listing(rows, before)[k..], tail, before);
  }
}
