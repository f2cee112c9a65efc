/** Key ordering: the strict total order the grouper sorts with, Python's
    `sorted` over distinct keys, and Python's `<` on `str`. */
module Order {

  /** `lt` is a strict total order: irreflexive, transitive and connected. */
  ghost predicate StrictTotalOrder<K(!new)>(lt: (K, K) -> bool)
  {
    && (forall a :: !lt(a, a))
    && (forall a, b, c :: lt(a, b) && lt(b, c) ==> lt(a, c))
    && (forall a, b :: a != b ==> lt(a, b) || lt(b, a))
  }

  /** Strictly ascending under `lt` (so also free of duplicates). */
  predicate Ascending<K>(lt: (K, K) -> bool, s: seq<K>)
  {
    forall i, j :: 0 <= i < j < |s| ==> lt(s[i], s[j])
  }

  predicate Distinct<K(==)>(s: seq<K>)
  {
    forall i, j :: 0 <= i < j < |s| ==> s[i] != s[j]
  }

  /** Inserts `x` before the first element it is smaller than. */
  function Insert<K>(lt: (K, K) -> bool, x: K, s: seq<K>): (r: seq<K>)
    ensures multiset(r) == multiset(s) + multiset{x}
  {
    if s == [] then [x]
    else if lt(x, s[0]) then [x] + s
    else
      assert s == [s[0]] + s[1..];
      [s[0]] + Insert(lt, x, s[1..])
  }

  /** Python's `sorted` on a list of distinct keys (the result does not
      depend on the sorting algorithm: see AscendingUnique). */
  function Sort<K>(lt: (K, K) -> bool, s: seq<K>): (r: seq<K>)
    ensures multiset(r) == multiset(s)
  {
    if s == [] then []
    else
      assert s == s[..|s| - 1] + [s[|s| - 1]];
      Insert(lt, s[|s| - 1], Sort(lt, s[..|s| - 1]))
  }

  /** Consing a key below every key of an ascending sequence keeps it
      ascending. */
  lemma ConsAscending<K>(lt: (K, K) -> bool, h: K, r: seq<K>)
    requires Ascending(lt, r)
    requires forall y :: y in r ==> lt(h, y)
    ensures Ascending(lt, [h] + r)
  {
    forall i, j | 0 <= i < j < |[h] + r| ensures lt(([h] + r)[i], ([h] + r)[j]) {
      if i == 0 {
        assert ([h] + r)[j] == r[j - 1];
        assert r[j - 1] in r;
      }
    }
  }

  /** What `Insert` returns holds the inserted key and the old keys, and
      nothing else. */
  lemma InsertMembers<K>(lt: (K, K) -> bool, x: K, s: seq<K>)
    ensures forall y :: y in Insert(lt, x, s) <==> y == x || y in s
  {
    forall y ensures y in Insert(lt, x, s) <==> y == x || y in s {
      assert y in Insert(lt, x, s) <==> y in multiset(Insert(lt, x, s));
      assert y in s <==> y in multiset(s);
    }
  }

  lemma {:induction false} InsertAscending<K(!new)>(lt: (K, K) -> bool, x: K, s: seq<K>)
    requires StrictTotalOrder(lt)
    requires Ascending(lt, s) && x !in s
    ensures Ascending(lt, Insert(lt, x, s))
  {
    if s != [] && !lt(x, s[0]) {
      assert lt(s[0], x);
      var t := s[1..];
      InsertAscending(lt, x, t);
      var r := Insert(lt, x, t);
      InsertMembers(lt, x, t);
      forall y | y in t ensures lt(s[0], y) {
        var k :| 0 <= k < |t| && t[k] == y;
        assert s[k + 1] == y;
      }
      ConsAscending(lt, s[0], r);
    }
  }

  /** Sorting distinct keys yields them in strictly ascending order. */
  lemma {:induction false} SortAscending<K(!new)>(lt: (K, K) -> bool, s: seq<K>)
    requires StrictTotalOrder(lt)
    requires Distinct(s)
    ensures Ascending(lt, Sort(lt, s))
  {
    if s != [] {
      var p := s[..|s| - 1];
      var x := s[|s| - 1];
      SortAscending(lt, p);
      assert forall k :: 0 <= k < |p| ==> p[k] == s[k] != x;
      assert x !in multiset(Sort(lt, p));
      InsertAscending(lt, x, Sort(lt, p));
    }
  }

  lemma AscendingIsDistinct<K(!new)>(lt: (K, K) -> bool, s: seq<K>)
    requires StrictTotalOrder(lt)
    requires Ascending(lt, s)
    ensures Distinct(s)
  {
  }

  lemma AscendingHeadIsLeast<K>(lt: (K, K) -> bool, s: seq<K>, x: K)
    requires Ascending(lt, s) && x in s
    ensures x == s[0] || lt(s[0], x)
  {
    var k :| 0 <= k < |s| && s[k] == x;
    assert k == 0 || lt(s[0], s[k]);
  }

  /** Two strictly ascending sequences with the same elements are equal:
      the sorted key order is determined by the key set alone. */
  lemma {:induction false} AscendingUnique<K(!new)>(lt: (K, K) -> bool, a: seq<K>, b: seq<K>)
    requires StrictTotalOrder(lt)
    requires Ascending(lt, a) && Ascending(lt, b)
    requires forall x :: x in a <==> x in b
    ensures a == b
    decreases |a|
  {
    if a == [] {
      assert multiset(b) == multiset{};
    } else {
      assert a[0] in a;
      assert |b| != 0;
      assert b[0] in b;
      AscendingHeadIsLeast(lt, a, b[0]);
      AscendingHeadIsLeast(lt, b, a[0]);
      assert a[0] == b[0];
      forall x ensures x in a[1..] <==> x in b[1..] {
        if x in a[1..] {
          var k :| 1 <= k < |a| && a[k] == x;
          assert lt(a[0], x);
          assert x in b;
          assert x != b[0];
        }
        if x in b[1..] {
          var k :| 1 <= k < |b| && b[k] == x;
          assert lt(b[0], x);
          assert x in a;
          assert x != a[0];
        }
      }
      AscendingUnique(lt, a[1..], b[1..]);
      assert a == [a[0]] + a[1..];
      assert b == [b[0]] + b[1..];
    }
  }

  /** Python's `<` on `str`: lexicographic comparison of code points, a
      proper prefix being smaller. */
  function StrLess(a: string, b: string): bool
  {
    if a == [] then b != []
    else if b == [] then false
    else if a[0] != b[0] then a[0] < b[0]
    else StrLess(a[1..], b[1..])
  }

  lemma {:induction false} StrLessIrreflexive(a: string)
    ensures !StrLess(a, a)
  {
    if a != [] {
      StrLessIrreflexive(a[1..]);
    }
  }

  lemma {:induction false} StrLessTransitive(a: string, b: string, c: string)
    requires StrLess(a, b) && StrLess(b, c)
    ensures StrLess(a, c)
  {
    if a != [] && a[0] == b[0] && b[0] == c[0] {
      StrLessTransitive(a[1..], b[1..], c[1..]);
    }
  }

  lemma {:induction false} StrLessConnected(a: string, b: string)
    requires a != b
    ensures StrLess(a, b) || StrLess(b, a)
  {
    if a != [] && b != [] && a[0] == b[0] {
      assert a == [a[0]] + a[1..] && b == [b[0]] + b[1..];
      StrLessConnected(a[1..], b[1..]);
    }
  }

  lemma StrLessIsStrictTotalOrder()
    ensures StrictTotalOrder(StrLess)
  {
    forall a ensures !StrLess(a, a) {
      StrLessIrreflexive(a);
    }
    forall a, b, c | StrLess(a, b) && StrLess(b, c) ensures StrLess(a, c) {
      StrLessTransitive(a, b, c);
    }
    forall a, b | a != b ensures StrLess(a, b) || StrLess(b, a) {
      StrLessConnected(a, b);
    }
  }
}
