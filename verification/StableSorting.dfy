/**
 The stable sort the platform provides (`Array.prototype.sort`), written as an
 insertion sort and characterised without reference to how it works: the result
 is ascending, and for every key the elements carrying that key appear in the
 order the input listed them. Those two facts admit only one sequence.
 */
module StableSorting {

  function StableSort<T>(s: seq<T>, key: T -> real): (r: seq<T>)
    ensures |r| == |s|
  {
    if s == [] then []
    else InsertAfterEquals(StableSort(s[..|s| - 1], key), s[|s| - 1], key)
  }

  function InsertAfterEquals<T>(s: seq<T>, x: T, key: T -> real): (r: seq<T>)
    ensures |r| == |s| + 1
  {
    if s == [] || key(x) < key(s[0]) then [x] + s
    else [s[0]] + InsertAfterEquals(s[1..], x, key)
  }

  ghost predicate Ascending<T>(s: seq<T>, key: T -> real) {
    forall i, j :: 0 <= i < j < |s| ==> key(s[i]) <= key(s[j])
  }

  /** The elements of `s` carrying key `k`, in order. */
  function Bucket<T>(s: seq<T>, key: T -> real, k: real): seq<T> {
    if s == [] then []
    else if key(s[0]) == k then [s[0]] + Bucket(s[1..], key, k)
    else Bucket(s[1..], key, k)
  }

  ghost predicate SameBuckets<T>(a: seq<T>, b: seq<T>, key: T -> real) {
    forall k :: Bucket(a, key, k) == Bucket(b, key, k)
  }

  lemma {:induction false} BucketConcat<T>(a: seq<T>, b: seq<T>, key: T -> real, k: real)
    ensures Bucket(a + b, key, k) == Bucket(a, key, k) + Bucket(b, key, k)
  {
    if a == [] {
      assert a + b == b;
    } else {
      BucketConcat(a[1..], b, key, k);
      assert (a + b)[1..] == a[1..] + b;
    }
  }

  lemma {:induction false} InsertedMembers<T>(s: seq<T>, x: T, key: T -> real)
    ensures multiset(InsertAfterEquals(s, x, key)) == multiset(s) + multiset{x}
  {
    if s == [] || key(x) < key(s[0]) {
    } else {
      InsertedMembers(s[1..], x, key);
      assert s == [s[0]] + s[1..];
    }
  }

  lemma {:induction false} InsertKeepsAscending<T>(s: seq<T>, x: T, key: T -> real)
    requires Ascending(s, key)
    ensures Ascending(InsertAfterEquals(s, x, key), key)
  {
    if s == [] || key(x) < key(s[0]) {
    } else {
      var rest := InsertAfterEquals(s[1..], x, key);
      InsertKeepsAscending(s[1..], x, key);
      InsertedMembers(s[1..], x, key);
      forall j | 0 <= j < |rest| ensures key(s[0]) <= key(rest[j]) {
        assert rest[j] in multiset(rest);
        if rest[j] != x {
          assert rest[j] in s[1..];
          var i :| 0 <= i < |s[1..]| && s[1..][i] == rest[j];
          assert s[i + 1] == rest[j];
        }
      }
    }
  }

  lemma {:induction false} BucketOfHigher<T>(s: seq<T>, key: T -> real, k: real)
    requires forall i :: 0 <= i < |s| ==> k < key(s[i])
    ensures Bucket(s, key, k) == []
  {
    if s != [] {
      BucketOfHigher(s[1..], key, k);
    }
  }

  lemma {:induction false} InsertExtendsBucket<T>(s: seq<T>, x: T, key: T -> real, k: real)
    requires Ascending(s, key)
    ensures Bucket(InsertAfterEquals(s, x, key), key, k) == Bucket(s + [x], key, k)
  {
    BucketConcat(s, [x], key, k);
    if s == [] || key(x) < key(s[0]) {
      BucketConcat([x], s, key, k);
      if key(x) == k {
        BucketOfHigher(s, key, k);
      }
    } else {
      InsertExtendsBucket(s[1..], x, key, k);
      BucketConcat(s[1..], [x], key, k);
      var rest := InsertAfterEquals(s[1..], x, key);
      assert ([s[0]] + rest)[1..] == rest;
    }
  }

  /** The sort is a stable sort: ascending, a permutation, and order-preserving inside each key. */
  lemma {:induction false} SortIsStable<T>(s: seq<T>, key: T -> real)
    ensures Ascending(StableSort(s, key), key)
    ensures SameBuckets(StableSort(s, key), s, key)
    ensures multiset(StableSort(s, key)) == multiset(s)
  {
    if s != [] {
      var front, x := s[..|s| - 1], s[|s| - 1];
      assert s == front + [x];
      SortIsStable(front, key);
      var sorted := StableSort(front, key);
      InsertKeepsAscending(sorted, x, key);
      InsertedMembers(sorted, x, key);
      forall k ensures Bucket(StableSort(s, key), key, k) == Bucket(s, key, k) {
        InsertExtendsBucket(sorted, x, key, k);
        BucketConcat(sorted, [x], key, k);
        BucketConcat(front, [x], key, k);
      }
    }
  }

  lemma {:induction false} BucketMember<T>(s: seq<T>, key: T -> real, x: T)
    ensures x in s <==> x in Bucket(s, key, key(x))
  {
    if s != [] {
      BucketMember(s[1..], key, x);
      assert s == [s[0]] + s[1..];
    }
  }

  lemma NonemptyBucket<T>(s: seq<T>, key: T -> real)
    ensures s != [] ==> Bucket(s, key, key(s[0])) != []
  {
  }

  /** A stable sort is determined by its input: ascending order and the buckets leave no choice. */
  lemma {:induction false} StableSortUnique<T>(a: seq<T>, b: seq<T>, key: T -> real)
    requires Ascending(a, key) && Ascending(b, key) && SameBuckets(a, b, key)
    ensures a == b
    decreases |a| + |b|
  {
    if a == [] || b == [] {
      NonemptyBucket(a, key);
      NonemptyBucket(b, key);
    } else {
      HeadKeysAgree(a, b, key);
      var k := key(a[0]);
      assert Bucket(a, key, k) == Bucket(b, key, k);
      assert Bucket(a, key, k)[0] == a[0] && Bucket(b, key, k)[0] == b[0];
      assert Bucket(a[1..], key, k) == Bucket(a, key, k)[1..];
      assert Bucket(b[1..], key, k) == Bucket(b, key, k)[1..];
      forall j ensures Bucket(a[1..], key, j) == Bucket(b[1..], key, j) {
        assert Bucket(a, key, j) == Bucket(b, key, j);
      }
      StableSortUnique(a[1..], b[1..], key);
    }
  }

  lemma HeadKeysAgree<T>(a: seq<T>, b: seq<T>, key: T -> real)
    requires a != [] && b != []
    requires Ascending(a, key) && Ascending(b, key) && SameBuckets(a, b, key)
    ensures key(a[0]) == key(b[0])
  {
    BucketMember(a, key, a[0]);
    BucketMember(b, key, a[0]);
    BucketMember(a, key, b[0]);
    BucketMember(b, key, b[0]);
    assert Bucket(a, key, key(a[0])) == Bucket(b, key, key(a[0]));
    assert Bucket(a, key, key(b[0])) == Bucket(b, key, key(b[0]));
    assert a[0] in b && b[0] in a;
  }

  // ------------------------------------------------------------- ties and thresholds

  lemma {:induction false} BucketFree<T>(s: seq<T>, key: T -> real, k: real)
    requires forall i :: 0 <= i < |s| ==> key(s[i]) != k
    ensures Bucket(s, key, k) == []
  {
    if s != [] {
      BucketFree(s[1..], key, k);
    }
  }

  lemma {:induction false} BucketPart<T>(s: seq<T>, key: T -> real, k: real)
    ensures forall x :: x in Bucket(s, key, k) ==> x in s && key(x) == k
  {
    if s != [] {
      BucketPart(s[1..], key, k);
    }
  }

  /** Elements of one key keep their order in its bucket. */
  lemma BucketPrecedes<T>(s: seq<T>, key: T -> real, x: nat, y: nat) returns (a: nat, b: nat)
    requires x < y < |s| && key(s[x]) == key(s[y])
    ensures var bucket := Bucket(s, key, key(s[x])); a < b < |bucket| && bucket[a] == s[x] && bucket[b] == s[y]
  {
    var k := key(s[x]);
    assert s == s[..x] + ([s[x]] + s[x + 1..]);
    BucketConcat(s[..x], [s[x]] + s[x + 1..], key, k);
    BucketConcat([s[x]], s[x + 1..], key, k);
    var rest := s[x + 1..];
    assert rest[y - x - 1] == s[y];
    BucketMember(rest, key, s[y]);
    a := |Bucket(s[..x], key, k)|;
    var c :| 0 <= c < |Bucket(rest, key, k)| && Bucket(rest, key, k)[c] == s[y];
    b := a + 1 + c;
    assert Bucket([s[x]], key, k) == [s[x]];
  }

  ghost predicate Distinct<T>(s: seq<T>) {
    forall i, j :: 0 <= i < j < |s| ==> s[i] != s[j]
  }

  lemma {:induction false} BucketDistinct<T>(s: seq<T>, key: T -> real, k: real)
    requires Distinct(s)
    ensures Distinct(Bucket(s, key, k))
  {
    if s != [] {
      var rest := s[1..];
      forall i, j | 0 <= i < j < |rest| ensures rest[i] != rest[j] {
        assert s[i + 1] != s[j + 1];
      }
      BucketDistinct(rest, key, k);
      BucketPart(rest, key, k);
      forall x | x in rest ensures x != s[0] {
        var i :| 0 <= i < |rest| && rest[i] == x;
        assert s[i + 1] == x;
      }
    }
  }

  /** Among equal keys the sort lists what the input lists first. */
  lemma SortKeepsTies<T>(s: seq<T>, key: T -> real, x: nat, y: nat, i: nat, j: nat)
    requires Distinct(s) && i < |s| && j < |s| && x < y < |StableSort(s, key)|
    requires StableSort(s, key)[x] == s[i] && StableSort(s, key)[y] == s[j] && key(s[i]) == key(s[j])
    ensures i <= j
  {
    if j < i {
      SortIsStable(s, key);
      var k := key(s[i]);
      assert Bucket(StableSort(s, key), key, k) == Bucket(s, key, k);
      var a, b := BucketPrecedes(StableSort(s, key), key, x, y);
      var c, d := BucketPrecedes(s, key, j, i);
      BucketDistinct(s, key, k);
      assert false;
    }
  }
}
