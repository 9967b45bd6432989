/** Counting, summing, filtering and stable sorting of sequences, and their
    behaviour under reordering. */
module Lists {

  datatype Option<+T> = None | Some(value: T)

  function Get<K, V>(m: map<K, V>, k: K): Option<V> {
    if k in m then Some(m[k]) else None
  }

  /** The list stored under a key, empty when there is none. */
  function ListAt<K, V>(m: map<K, seq<V>>, k: K): seq<V> {
    if k in m then m[k] else []
  }

  function Max(a: int, b: int): int { if a < b then b else a }

  // ---------- repeated elements ----------

  function SetOf<T(==)>(s: seq<T>): set<T> { set x | x in s }

  /** No element repeats: the set of the elements is as large as the list. */
  predicate Unique<T(==)>(s: seq<T>) { |SetOf(s)| == |s| }

  ghost predicate Distinct<T>(s: seq<T>) {
    forall i, j :: 0 <= i < j < |s| ==> s[i] != s[j]
  }

  lemma {:induction false} DistinctAppend<T>(s: seq<T>, x: T)
    requires Distinct(s) && x !in s
    ensures Distinct(s + [x])
  {
  }

  lemma {:induction false} DistinctConcat<T>(a: seq<T>, b: seq<T>)
    requires Distinct(a) && Distinct(b) && forall x :: x in a ==> x !in b
    ensures Distinct(a + b)
  {
    forall i, j | 0 <= i < j < |a + b| ensures (a + b)[i] != (a + b)[j] {
      if i < |a| && j >= |a| {
        assert a[i] in a && b[j - |a|] in b;
      }
    }
  }

  lemma {:induction false} UniqueMeaning<T>(s: seq<T>)
    ensures |SetOf(s)| <= |s|
    ensures Unique(s) <==> Distinct(s)
  {
    if s != [] {
      var init, last := s[..|s| - 1], s[|s| - 1];
      UniqueMeaning(init);
      assert SetOf(s) == SetOf(init) + {last};
      if last in init {
        assert SetOf(s) == SetOf(init);
        var i :| 0 <= i < |init| && init[i] == last;
        assert s[i] == s[|s| - 1];
      } else {
        assert Distinct(s) <==> Distinct(init);
      }
    }
  }

  // ---------- counting and summing ----------

  function CountIf<T>(p: T -> bool, s: seq<T>): nat {
    if s == [] then 0
    else CountIf(p, s[..|s| - 1]) + if p(s[|s| - 1]) then 1 else 0
  }

  function SumBy<T>(f: T -> int, s: seq<T>): int {
    if s == [] then 0 else SumBy(f, s[..|s| - 1]) + f(s[|s| - 1])
  }

  function Filter<T>(p: T -> bool, s: seq<T>): seq<T> {
    if s == [] then []
    else Filter(p, s[..|s| - 1]) + if p(s[|s| - 1]) then [s[|s| - 1]] else []
  }

  lemma {:induction false} CountConcat<T>(p: T -> bool, a: seq<T>, b: seq<T>)
    ensures CountIf(p, a + b) == CountIf(p, a) + CountIf(p, b)
  {
    if b == [] {
      assert a + b == a;
    } else {
      assert (a + b)[..|a + b| - 1] == a + b[..|b| - 1];
      CountConcat(p, a, b[..|b| - 1]);
    }
  }

  lemma {:induction false} SumConcat<T>(f: T -> int, a: seq<T>, b: seq<T>)
    ensures SumBy(f, a + b) == SumBy(f, a) + SumBy(f, b)
  {
    if b == [] {
      assert a + b == a;
    } else {
      assert (a + b)[..|a + b| - 1] == a + b[..|b| - 1];
      SumConcat(f, a, b[..|b| - 1]);
    }
  }

  lemma {:induction false} CountAppend<T>(p: T -> bool, s: seq<T>, x: T)
    ensures CountIf(p, s + [x]) == CountIf(p, s) + if p(x) then 1 else 0
  {
    assert (s + [x])[..|s|] == s;
  }

  lemma {:induction false} SumAppend<T>(f: T -> int, s: seq<T>, x: T)
    ensures SumBy(f, s + [x]) == SumBy(f, s) + f(x)
  {
    assert (s + [x])[..|s|] == s;
  }

  lemma {:induction false} SumPair<T>(f: T -> int, x: T, y: T)
    ensures SumBy(f, [x, y]) == f(x) + f(y)
  {
    assert [x, y] == [] + [x] + [y];
    SumAppend(f, [], x);
    SumAppend(f, [] + [x], y);
  }

  lemma {:induction false} CountMonotone<T>(p: T -> bool, q: T -> bool, s: seq<T>)
    requires forall i :: 0 <= i < |s| && p(s[i]) ==> q(s[i])
    ensures CountIf(p, s) <= CountIf(q, s)
  {
    if s != [] {
      CountMonotone(p, q, s[..|s| - 1]);
    }
  }

  /** At most one element counts exactly when no two do. */
  lemma {:induction false} CountAtMostOne<T>(p: T -> bool, s: seq<T>)
    ensures CountIf(p, s) <= 1 <==> forall i, j :: 0 <= i < j < |s| ==> !(p(s[i]) && p(s[j]))
  {
    if s != [] {
      var init, n := s[..|s| - 1], |s| - 1;
      CountAtMostOne(p, init);
      CountZero(p, init);
      assert forall i :: 0 <= i < n ==> init[i] == s[i];
      if CountIf(p, init) != 0 && p(s[n]) {
        var i :| 0 <= i < n && p(s[i]);
      }
    }
  }

  lemma {:induction false} CountZero<T>(p: T -> bool, s: seq<T>)
    ensures CountIf(p, s) == 0 <==> forall i :: 0 <= i < |s| ==> !p(s[i])
    ensures CountIf(p, s) <= |s|
    ensures CountIf(p, s) == |s| <==> forall i :: 0 <= i < |s| ==> p(s[i])
  {
    if s != [] {
      var init := s[..|s| - 1];
      CountZero(p, init);
      assert forall i :: 0 <= i < |init| ==> init[i] == s[i];
    }
  }

  lemma {:induction false} CountInsert<T>(p: T -> bool, a: seq<T>, x: T, b: seq<T>)
    ensures CountIf(p, a + [x] + b) == CountIf(p, a + b) + if p(x) then 1 else 0
  {
    CountConcat(p, a + [x], b);
    CountAppend(p, a, x);
    CountConcat(p, a, b);
  }

  lemma {:induction false} SumInsert<T>(f: T -> int, a: seq<T>, x: T, b: seq<T>)
    ensures SumBy(f, a + [x] + b) == SumBy(f, a + b) + f(x)
  {
    SumConcat(f, a + [x], b);
    SumAppend(f, a, x);
    SumConcat(f, a, b);
  }

  lemma {:induction false} DropLast<T>(a: seq<T>)
    requires a != []
    ensures a == a[..|a| - 1] + [a[|a| - 1]]
    ensures multiset(a[..|a| - 1]) == multiset(a) - multiset{a[|a| - 1]}
  {
    assert a == a[..|a| - 1] + [a[|a| - 1]];
  }

  /** An element of a reordering, with what stands around it. */
  lemma {:induction false} Around<T>(a: seq<T>, b: seq<T>) returns (u: seq<T>, v: seq<T>)
    requires multiset(a) == multiset(b) && a != []
    ensures b == u + [a[|a| - 1]] + v
    ensures multiset(a[..|a| - 1]) == multiset(u + v)
  {
    var x := a[|a| - 1];
    DropLast(a);
    assert x in multiset(b);
    var i :| 0 <= i < |b| && b[i] == x;
    u, v := b[..i], b[i + 1..];
    assert b == u + [x] + v;
  }

  /** Counting does not depend on the order. */
  lemma {:induction false} CountReordered<T>(p: T -> bool, a: seq<T>, b: seq<T>)
    requires multiset(a) == multiset(b)
    ensures CountIf(p, a) == CountIf(p, b)
  {
    if a == [] {
      assert |multiset(b)| == |b|;
    } else {
      var u, v := Around(a, b);
      CountInsert(p, u, a[|a| - 1], v);
      CountReordered(p, a[..|a| - 1], u + v);
    }
  }

  /** Summing does not depend on the order. */
  lemma {:induction false} SumReordered<T>(f: T -> int, a: seq<T>, b: seq<T>)
    requires multiset(a) == multiset(b)
    ensures SumBy(f, a) == SumBy(f, b)
  {
    if a == [] {
      assert |multiset(b)| == |b|;
    } else {
      var u, v := Around(a, b);
      SumInsert(f, u, a[|a| - 1], v);
      SumReordered(f, a[..|a| - 1], u + v);
    }
  }

  lemma {:induction false} SumEqual<T>(f: T -> int, g: T -> int, s: seq<T>)
    requires forall i :: 0 <= i < |s| ==> f(s[i]) == g(s[i])
    ensures SumBy(f, s) == SumBy(g, s)
  {
    if s != [] {
      SumEqual(f, g, s[..|s| - 1]);
    }
  }

  /** Reordering keeps elements distinct. */
  lemma {:induction false} DistinctReordered<T>(a: seq<T>, b: seq<T>)
    requires multiset(a) == multiset(b) && Distinct(a)
    ensures Distinct(b)
  {
    forall i, j | 0 <= i < j < |b| ensures b[i] != b[j] {
      var same := (x: T) => x == b[i];
      CountReordered(same, a, b);
      CountAtMostOne(same, a);
      CountAtMostOne(same, b);
      assert same(b[i]);
    }
  }

  lemma {:induction false} FilterSkips<T>(p: T -> bool, s: seq<T>)
    requires s != [] && !p(s[|s| - 1])
    ensures Filter(p, s) == Filter(p, s[..|s| - 1])
  {
  }

  lemma {:induction false} FilterMember<T>(p: T -> bool, s: seq<T>, x: T)
    ensures x in Filter(p, s) <==> x in s && p(x)
  {
    if s != [] {
      FilterMember(p, s[..|s| - 1], x);
    }
  }

  lemma {:induction false} FilterLength<T>(p: T -> bool, s: seq<T>)
    ensures |Filter(p, s)| == CountIf(p, s)
  {
    if s != [] {
      FilterLength(p, s[..|s| - 1]);
    }
  }

  lemma {:induction false} FilterDistinct<T>(p: T -> bool, s: seq<T>)
    requires Distinct(s)
    ensures Distinct(Filter(p, s))
  {
    if s != [] {
      var init, x := s[..|s| - 1], s[|s| - 1];
      FilterDistinct(p, init);
      FilterMember(p, init, x);
      if p(x) {
        assert x !in init;
        DistinctAppend(Filter(p, init), x);
      } else {
        FilterSkips(p, s);
      }
    }
  }

  lemma {:induction false} SomeCount<T>(p: T -> bool, s: seq<T>)
    ensures CountIf(p, s) > 0 <==> exists x :: x in s && p(x)
  {
    if s != [] {
      var init, last := s[..|s| - 1], s[|s| - 1];
      SomeCount(p, init);
      assert forall x :: x in s <==> x in init || x == last;
    }
  }

  // ---------- stable sorting by an integer key ----------

  /** The key of a plain number. */
  function Self(v: int): int { v }

  ghost predicate SortedBy<T>(key: T -> int, s: seq<T>) {
    forall i, j :: 0 <= i < j < |s| ==> key(s[i]) <= key(s[j])
  }

  /** `x` behind the last element whose key is at most its own. */
  function Insert<T>(key: T -> int, s: seq<T>, x: T): seq<T> {
    if s == [] || key(s[|s| - 1]) <= key(x) then s + [x]
    else Insert(key, s[..|s| - 1], x) + [s[|s| - 1]]
  }

  function SortBy<T>(key: T -> int, s: seq<T>): seq<T> {
    if s == [] then [] else Insert(key, SortBy(key, s[..|s| - 1]), s[|s| - 1])
  }

  lemma {:induction false} InsertKeeps<T>(key: T -> int, s: seq<T>, x: T)
    ensures multiset(Insert(key, s, x)) == multiset(s) + multiset{x}
  {
    if s == [] || key(s[|s| - 1]) <= key(x) {
    } else {
      InsertKeeps(key, s[..|s| - 1], x);
      assert s == s[..|s| - 1] + [s[|s| - 1]];
    }
  }

  lemma {:induction false} InsertBound<T>(key: T -> int, s: seq<T>, x: T, bound: int)
    requires key(x) <= bound
    requires forall i :: 0 <= i < |s| ==> key(s[i]) <= bound
    ensures forall i :: 0 <= i < |Insert(key, s, x)| ==> key(Insert(key, s, x)[i]) <= bound
  {
    if s == [] || key(s[|s| - 1]) <= key(x) {
    } else {
      InsertBound(key, s[..|s| - 1], x, bound);
    }
  }

  lemma {:induction false} InsertSorts<T>(key: T -> int, s: seq<T>, x: T)
    requires SortedBy(key, s)
    ensures SortedBy(key, Insert(key, s, x))
  {
    if s == [] || key(s[|s| - 1]) <= key(x) {
    } else {
      InsertSorts(key, s[..|s| - 1], x);
      InsertBound(key, s[..|s| - 1], x, key(s[|s| - 1]));
    }
  }

  lemma {:induction false} SortSorts<T>(key: T -> int, s: seq<T>)
    ensures SortedBy(key, SortBy(key, s))
    ensures multiset(SortBy(key, s)) == multiset(s)
    ensures |SortBy(key, s)| == |s|
  {
    if s != [] {
      assert s == s[..|s| - 1] + [s[|s| - 1]];
      SortSorts(key, s[..|s| - 1]);
      InsertSorts(key, SortBy(key, s[..|s| - 1]), s[|s| - 1]);
      InsertKeeps(key, SortBy(key, s[..|s| - 1]), s[|s| - 1]);
    }
    assert |multiset(SortBy(key, s))| == |SortBy(key, s)|;
    assert |multiset(s)| == |s|;
  }

  /** Elements with the same key are the same. */
  ghost predicate TellsApart<T(!new)>(key: T -> int) {
    forall x, y :: key(x) == key(y) ==> x == y
  }

  lemma {:induction false} SortedInit<T>(key: T -> int, s: seq<T>)
    requires SortedBy(key, s) && s != []
    ensures SortedBy(key, s[..|s| - 1])
  {
  }

  lemma {:induction false} LastIsGreatest<T>(key: T -> int, s: seq<T>, x: T)
    requires SortedBy(key, s) && x in s
    ensures key(x) <= key(s[|s| - 1])
  {
    var i :| 0 <= i < |s| && s[i] == x;
  }

  lemma {:induction false} SameLast<T(!new)>(key: T -> int, a: seq<T>, b: seq<T>)
    requires SortedBy(key, a) && SortedBy(key, b) && TellsApart(key)
    requires multiset(a) == multiset(b) && a != [] && b != []
    ensures a[|a| - 1] == b[|b| - 1]
  {
    var x, y := a[|a| - 1], b[|b| - 1];
    assert x in multiset(a) && y in multiset(b);
    LastIsGreatest(key, a, y);
    LastIsGreatest(key, b, x);
  }

  /** Under a key that tells elements apart there is one sorted order. */
  lemma {:induction false} SortedUnique<T(!new)>(key: T -> int, a: seq<T>, b: seq<T>)
    requires SortedBy(key, a) && SortedBy(key, b) && TellsApart(key)
    requires multiset(a) == multiset(b)
    ensures a == b
  {
    assert |multiset(a)| == |a| && |multiset(b)| == |b|;
    if a != [] {
      SameLast(key, a, b);
      DropLast(a);
      DropLast(b);
      SortedInit(key, a);
      SortedInit(key, b);
      SortedUnique(key, a[..|a| - 1], b[..|b| - 1]);
    }
  }

  /** Sorting forgets the original order. */
  lemma {:induction false} SortReordered<T(!new)>(key: T -> int, a: seq<T>, b: seq<T>)
    requires multiset(a) == multiset(b) && TellsApart(key)
    ensures SortBy(key, a) == SortBy(key, b)
  {
    SortSorts(key, a);
    SortSorts(key, b);
    SortedUnique(key, SortBy(key, a), SortBy(key, b));
  }
}
