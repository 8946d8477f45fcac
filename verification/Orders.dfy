/** The order in which `std::map` iterates: ascending keys. */
module Orders {

  ghost predicate TotalOrder<T(!new)>(leq: (T, T) -> bool) {
    && (forall x :: leq(x, x))
    && (forall x, y :: leq(x, y) && leq(y, x) ==> x == y)
    && (forall x, y, z :: leq(x, y) && leq(y, z) ==> leq(x, z))
    && (forall x, y :: leq(x, y) || leq(y, x))
  }

  ghost predicate Ascending<T>(leq: (T, T) -> bool, r: seq<T>) {
    forall i, j | 0 <= i < j < |r| :: leq(r[i], r[j]) && r[i] != r[j]
  }

  ghost predicate IsLeast<T>(leq: (T, T) -> bool, x: T, s: set<T>) {
    x in s && forall y | y in s :: leq(x, y)
  }

  lemma {:induction false} LeastExists<T(!new)>(leq: (T, T) -> bool, s: set<T>)
    requires TotalOrder(leq) && s != {}
    ensures exists x :: IsLeast(leq, x, s)
  {
    var a :| a in s;
    var rest := s - {a};
    if rest == {} {
      assert s == {a};
      assert IsLeast(leq, a, s);
    } else {
      LeastExists(leq, rest);
      var x :| IsLeast(leq, x, rest);
      LeastOfTwo(leq, a, x, rest);
      assert s == rest + {a};
    }
  }

  lemma LeastOfTwo<T(!new)>(leq: (T, T) -> bool, a: T, x: T, rest: set<T>)
    requires TotalOrder(leq) && IsLeast(leq, x, rest)
    ensures IsLeast(leq, if leq(a, x) then a else x, rest + {a})
  {
  }

  /** The elements of `s` in ascending order. */
  function Sorted<T(!new, ==)>(leq: (T, T) -> bool, s: set<T>): (r: seq<T>)
    requires TotalOrder(leq)
    ensures forall x :: x in r <==> x in s
    ensures |r| == |s|
  {
    if s == {} then []
    else
      LeastExists(leq, s);
      assert exists x :: x in s && forall y | y in s :: leq(x, y) by {
        var m :| IsLeast(leq, m, s);
      }
      var x :| x in s && forall y | y in s :: leq(x, y);
      [x] + Sorted(leq, s - {x})
  }

  lemma {:induction false} SortedAscends<T(!new)>(leq: (T, T) -> bool, s: set<T>)
    requires TotalOrder(leq)
    ensures Ascending(leq, Sorted(leq, s))
  {
    if s != {} {
      var r := Sorted(leq, s);
      SortedAscends(leq, s - {r[0]});
      assert r[1..] == Sorted(leq, s - {r[0]});
      forall i, j | 0 <= i < j < |r|
        ensures leq(r[i], r[j]) && r[i] != r[j]
      {
        assert r[j] == r[1..][j - 1] && r[j] in Sorted(leq, s - {r[0]});
        if i > 0 {
          assert r[i] == r[1..][i - 1];
        }
      }
    }
  }

  predicate IntLeq(x: int, y: int) { x <= y }

  function SortedInts(s: set<int>): (r: seq<int>)
    ensures forall x :: x in r <==> x in s
    ensures |r| == |s|
    ensures forall i, j | 0 <= i < j < |r| :: r[i] < r[j]
  {
    assert TotalOrder(IntLeq);
    SortedAscends(IntLeq, s);
    var r := Sorted(IntLeq, s);
    assert forall i, j | 0 <= i < j < |r| :: IntLeq(r[i], r[j]);
    r
  }

  /** The values of a map in the order of its keys. */
  function InKeyOrder<V>(m: map<int, V>): (r: seq<V>) {
    var keys := SortedInts(m.Keys);
    seq(|keys|, i requires 0 <= i < |keys| => var k: int := keys[i]; assert k in keys; m[k])
  }

  lemma InKeyOrderMeaning<V>(m: map<int, V>, v: V)
    ensures v in InKeyOrder(m) <==> exists k :: k in m && m[k] == v
  {
    var keys := SortedInts(m.Keys);
    if k :| k in m && m[k] == v {
      assert k in keys;
      var i :| 0 <= i < |keys| && keys[i] == k;
      assert InKeyOrder(m)[i] == v;
    }
    if v in InKeyOrder(m) {
      var i :| 0 <= i < |keys| && InKeyOrder(m)[i] == v;
      var k: int := keys[i];
      assert k in keys;
    }
  }

  lemma InKeyOrderAt<V>(m: map<int, V>, i: nat)
    requires i < |SortedInts(m.Keys)|
    ensures SortedInts(m.Keys)[i] in m
    ensures |InKeyOrder(m)| == |SortedInts(m.Keys)| && InKeyOrder(m)[i] == m[SortedInts(m.Keys)[i]]
  {
    var k: int := SortedInts(m.Keys)[i];
    assert k in SortedInts(m.Keys);
  }

  /** A sequence as a map from its positions. */
  function Indexed<V>(s: seq<V>): map<int, V> {
    map i: int | 0 <= i < |s| :: s[i]
  }

  lemma {:induction false} IndexedSize<V>(s: seq<V>)
    ensures |Indexed(s).Keys| == |s|
  {
    if s != [] {
      var n := |s| - 1;
      IndexedSize(s[..n]);
      assert Indexed(s).Keys == Indexed(s[..n]).Keys + {n};
    }
  }

  lemma {:induction false} AscendingGap(keys: seq<int>, i: nat, j: nat)
    requires i <= j < |keys| && forall a, b | 0 <= a < b < |keys| :: keys[a] < keys[b]
    ensures keys[j] >= keys[i] + (j - i)
    decreases j
  {
    if i < j {
      AscendingGap(keys, i, j - 1);
    }
  }

  /** The values of such a map in the order of its keys are the sequence. */
  lemma IndexedInOrder<V>(s: seq<V>)
    ensures InKeyOrder(Indexed(s)) == s
  {
    var keys := SortedInts(Indexed(s).Keys);
    IndexedSize(s);
    forall i | 0 <= i < |s|
      ensures keys[i] == i
    {
      assert keys[0] in keys && keys[|s| - 1] in keys;
      AscendingGap(keys, 0, i);
      AscendingGap(keys, i, |s| - 1);
    }
    forall i | 0 <= i < |s|
      ensures InKeyOrder(Indexed(s))[i] == s[i]
    {
      InKeyOrderAt(Indexed(s), i);
    }
  }

  /** Lexicographic order. */
  predicate StringLeq(a: string, b: string) {
    a == [] || (b != [] && (a[0] < b[0] || (a[0] == b[0] && StringLeq(a[1..], b[1..]))))
  }

  lemma StringLeqTotal(a: string, b: string)
    ensures StringLeq(a, a)
    ensures StringLeq(a, b) || StringLeq(b, a)
  {
  }

  lemma StringLeqAntisymmetric(a: string, b: string)
    requires StringLeq(a, b) && StringLeq(b, a)
    ensures a == b
  {
    if a != [] {
      StringLeqAntisymmetric(a[1..], b[1..]);
      assert a == [a[0]] + a[1..] && b == [b[0]] + b[1..];
    }
  }

  lemma StringLeqTransitive(a: string, b: string, c: string)
    requires StringLeq(a, b) && StringLeq(b, c)
    ensures StringLeq(a, c)
  {
  }

  lemma StringOrder()
    ensures TotalOrder(StringLeq)
  {
    forall a, b
      ensures StringLeq(a, a) && (StringLeq(a, b) || StringLeq(b, a))
      ensures StringLeq(a, b) && StringLeq(b, a) ==> a == b
    {
      StringLeqTotal(a, b);
      if StringLeq(a, b) && StringLeq(b, a) {
        StringLeqAntisymmetric(a, b);
      }
    }
    forall a, b, c | StringLeq(a, b) && StringLeq(b, c)
      ensures StringLeq(a, c)
    {
      StringLeqTransitive(a, b, c);
    }
  }

  function SortedStrings(s: set<string>): (r: seq<string>)
    ensures forall x :: x in r <==> x in s
    ensures |r| == |s|
    ensures forall i, j | 0 <= i < j < |r| :: r[i] != r[j]
  {
    StringOrder();
    SortedAscends(StringLeq, s);
    Sorted(StringLeq, s)
  }

  lemma SortedStringsAscend(s: set<string>)
    ensures Ascending(StringLeq, SortedStrings(s))
  {
    StringOrder();
    SortedAscends(StringLeq, s);
  }

  // Where a key stands

  /** Strict lexicographic order: up to `k` the strings agree, there the first one ends or is smaller. */
  ghost predicate PrecedesAt(a: string, b: string, k: int) {
    0 <= k <= |a| && k < |b| && a[..k] == b[..k] && (k == |a| || a[k] < b[k])
  }

  ghost predicate Precedes(a: string, b: string) {
    exists k :: PrecedesAt(a, b, k)
  }

  lemma {:induction false} LeqIsPrecedes(a: string, b: string)
    ensures Precedes(a, b) <==> StringLeq(a, b) && a != b
  {
    if a == [] {
      assert b != [] ==> PrecedesAt(a, b, 0);
    } else if b != [] {
      LeqIsPrecedes(a[1..], b[1..]);
      assert a == [a[0]] + a[1..] && b == [b[0]] + b[1..];
      if k :| PrecedesAt(a, b, k) {
        if k > 0 {
          assert a[..k][0] == b[..k][0];
          assert a[1..][..k - 1] == a[..k][1..] && b[1..][..k - 1] == b[..k][1..];
          assert PrecedesAt(a[1..], b[1..], k - 1);
        }
      }
      if StringLeq(a, b) && a != b {
        if a[0] < b[0] {
          assert PrecedesAt(a, b, 0);
        } else {
          var k :| PrecedesAt(a[1..], b[1..], k);
          assert a[..k + 1] == [a[0]] + a[1..][..k] && b[..k + 1] == [b[0]] + b[1..][..k];
          assert PrecedesAt(a, b, k + 1);
        }
      }
    }
  }

  /** The keys that come before `key`. */
  ghost function Earlier(keys: set<string>, key: string): set<string> {
    set k | k in keys && Precedes(k, key)
  }

  lemma {:induction false} PrefixSize(keys: seq<string>, i: nat)
    requires i <= |keys| && forall a, b | 0 <= a < b < |keys| :: keys[a] != keys[b]
    ensures |set a | 0 <= a < i :: keys[a]| == i
  {
    if i > 0 {
      PrefixSize(keys, i - 1);
      assert (set a | 0 <= a < i :: keys[a]) == (set a | 0 <= a < i - 1 :: keys[a]) + {keys[i - 1]};
    }
  }

  /** In sorted order a key stands at the number of keys before it. */
  lemma SortedAtRank(keys: set<string>, i: nat)
    requires i < |SortedStrings(keys)|
    ensures |Earlier(keys, SortedStrings(keys)[i])| == i
  {
    var sorted := SortedStrings(keys);
    SortedStringsAscend(keys);
    PrefixSize(sorted, i);
    forall a | 0 <= a < |sorted|
      ensures Precedes(sorted[a], sorted[i]) <==> a < i
    {
      LeqIsPrecedes(sorted[a], sorted[i]);
      if a > i {
        StringLeqAntisymmetricAt(sorted[i], sorted[a]);
      }
    }
    forall k
      ensures k in Earlier(keys, sorted[i]) <==> k in set a | 0 <= a < i :: sorted[a]
    {
      if k in keys {
        assert k in sorted;
        var a :| 0 <= a < |sorted| && sorted[a] == k;
      }
    }
    assert Earlier(keys, sorted[i]) == set a | 0 <= a < i :: sorted[a];
  }

  lemma StringLeqAntisymmetricAt(a: string, b: string)
    requires StringLeq(a, b) && a != b
    ensures !StringLeq(b, a)
  {
    if StringLeq(b, a) {
      StringLeqAntisymmetric(a, b);
    }
  }
}
