/**
 * Generic sequence operations the services rely on: `Array.prototype.filter`,
 * `slice(0, n)`, dedup keeping the first element with a given key (the
 * `index === self.findIndex(...)` idiom) and `Array.prototype.sort`, which is
 * stable. A comparator `cmp` is modelled by the relation `first(a, b)`,
 * "a may stay in front of b", that is `cmp(a, b) <= 0`.
 */
module Seqs {

  /** A comparator that sorts consistently: total and transitive. */
  ghost predicate TotalPreorder<T(!new)>(first: (T, T) -> bool) {
    && (forall a, b :: first(a, b) || first(b, a))
    && (forall a, b, c :: first(a, b) && first(b, c) ==> first(a, c))
  }

  ghost predicate SortedBy<T>(s: seq<T>, first: (T, T) -> bool) {
    forall i, j :: 0 <= i < j < |s| ==> first(s[i], s[j])
  }

  /** `s.filter(p)`. */
  function Filter<T>(s: seq<T>, p: T -> bool): (r: seq<T>)
    ensures |r| <= |s|
  {
    if s == [] then []
    else
      assert s == [s[0]] + s[1..];
      (if p(s[0]) then [s[0]] else []) + Filter(s[1..], p)
  }

  /** `s.slice(0, n)`. */
  function Take<T>(s: seq<T>, n: nat): (r: seq<T>)
    ensures |r| <= n && |r| <= |s|
    ensures |s| <= n ==> r == s
  {
    if |s| <= n then s else s[..n]
  }

  /** Places `x` in front of the first element it may precede. */
  function Insert<T>(x: T, s: seq<T>, first: (T, T) -> bool): (r: seq<T>)
    ensures |r| == |s| + 1
  {
    if s == [] then [x]
    else if first(x, s[0]) then [x] + s
    else [s[0]] + Insert(x, s[1..], first)
  }

  /**
   * `s.sort(cmp)` as a stable insertion sort: an element ends up in front of every
   * later element it ties with, as ECMAScript requires of `sort` since 2019.
   */
  function SortBy<T>(s: seq<T>, first: (T, T) -> bool): (r: seq<T>)
    ensures |r| == |s|
  {
    if s == [] then [] else Insert(s[0], SortBy(s[1..], first), first)
  }

  /** What the filter keeps: elements of `s` satisfying `p`, and every such element. */
  lemma FilterMembers<T>(s: seq<T>, p: T -> bool)
    ensures multiset(Filter(s, p)) <= multiset(s)
    ensures forall x :: x in Filter(s, p) ==> p(x)
    ensures forall i :: 0 <= i < |s| && p(s[i]) ==> s[i] in Filter(s, p)
  {
    FilterSub(s, p);
    FilterKeeps(s, p);
  }

  /** The filter keeps elements of `s` only, each satisfying `p`. */
  lemma {:induction false} FilterSub<T>(s: seq<T>, p: T -> bool)
    ensures multiset(Filter(s, p)) <= multiset(s)
    ensures forall x :: x in Filter(s, p) ==> p(x)
  {
    if s != [] {
      FilterSub(s[1..], p);
      assert s == [s[0]] + s[1..];
    }
  }

  /** The filter keeps every element satisfying `p`. */
  lemma {:induction false} FilterKeeps<T>(s: seq<T>, p: T -> bool)
    ensures forall i :: 0 <= i < |s| && p(s[i]) ==> s[i] in Filter(s, p)
  {
    if s != [] {
      FilterKeeps(s[1..], p);
      assert forall i :: 1 <= i < |s| ==> s[1..][i - 1] == s[i];
    }
  }

  lemma {:induction false} InsertPermutes<T>(x: T, s: seq<T>, first: (T, T) -> bool)
    ensures multiset(Insert(x, s, first)) == multiset(s) + multiset{x}
  {
    if s != [] && !first(x, s[0]) {
      InsertPermutes(x, s[1..], first);
      assert s == [s[0]] + s[1..];
    }
  }

  /** The sort is a permutation of its input. */
  lemma {:induction false} SortPermutes<T>(s: seq<T>, first: (T, T) -> bool)
    ensures multiset(SortBy(s, first)) == multiset(s)
  {
    if s != [] {
      SortPermutes(s[1..], first);
      InsertPermutes(s[0], SortBy(s[1..], first), first);
      assert s == [s[0]] + s[1..];
    }
  }

  lemma {:induction false} InsertSorted<T(!new)>(x: T, s: seq<T>, first: (T, T) -> bool)
    requires TotalPreorder(first) && SortedBy(s, first)
    ensures SortedBy(Insert(x, s, first), first)
  {
    if s != [] && !first(x, s[0]) {
      InsertSorted(x, s[1..], first);
      var r := Insert(x, s[1..], first);
      InsertPermutes(x, s[1..], first);
      forall y | y in r ensures first(s[0], y) {
        assert y in multiset(r);
      }
    }
  }

  /** The sort orders its result by `first`. */
  lemma {:induction false} SortSorted<T(!new)>(s: seq<T>, first: (T, T) -> bool)
    requires TotalPreorder(first)
    ensures SortedBy(SortBy(s, first), first)
  {
    if s != [] {
      SortSorted(s[1..], first);
      InsertSorted(s[0], SortBy(s[1..], first), first);
    }
  }

  /** Sorting what is already in order changes nothing. */
  lemma {:induction false} SortIdempotent<T(!new)>(s: seq<T>, first: (T, T) -> bool)
    requires SortedBy(s, first)
    ensures SortBy(s, first) == s
  {
    if s != [] {
      SortIdempotent(s[1..], first);
      assert [s[0]] + s[1..] == s;
    }
  }

  lemma FilterCons<T>(y: T, u: seq<T>, p: T -> bool)
    ensures Filter([y] + u, p) == (if p(y) then [y] else []) + Filter(u, p)
  {
    assert ([y] + u)[1..] == u;
  }

  /** Filtering a list with one more element at the back. */
  lemma {:induction false} FilterSnoc<T>(s: seq<T>, x: T, p: T -> bool)
    ensures Filter(s + [x], p) == Filter(s, p) + (if p(x) then [x] else [])
  {
    if s == [] {
      assert [] + [x] == [x] + [];
      FilterCons(x, [], p);
    } else {
      FilterSnoc(s[1..], x, p);
      assert s + [x] == [s[0]] + (s[1..] + [x]);
      FilterCons(s[0], s[1..] + [x], p);
      assert s == [s[0]] + s[1..];
      FilterCons(s[0], s[1..], p);
    }
  }

  /** Nothing passes a filter that no element satisfies. */
  lemma {:induction false} FilterNone<T>(s: seq<T>, p: T -> bool)
    requires forall i :: 0 <= i < |s| ==> !p(s[i])
    ensures Filter(s, p) == []
  {
    if s != [] {
      assert forall i :: 0 <= i < |s| - 1 ==> s[1..][i] == s[i + 1];
      FilterNone(s[1..], p);
    }
  }

  /** The filter keeps every copy of an element that satisfies `p` and no copy of one that does not. */
  lemma {:induction false} FilterCounts<T>(s: seq<T>, p: T -> bool, x: T)
    ensures multiset(Filter(s, p))[x] == if p(x) then multiset(s)[x] else 0
  {
    if s != [] {
      FilterCounts(s[1..], p, x);
      assert s == [s[0]] + s[1..];
    }
  }

  lemma MultisetExt<T>(a: multiset<T>, b: multiset<T>)
    requires forall x :: a[x] == b[x]
    ensures a == b
  {
  }

  /** What the filter keeps depends only on the elements of `s`, not on their order. */
  lemma FilterReorder<T>(s: seq<T>, t: seq<T>, p: T -> bool)
    requires multiset(s) == multiset(t)
    ensures multiset(Filter(s, p)) == multiset(Filter(t, p))
  {
    var a, b := multiset(Filter(s, p)), multiset(Filter(t, p));
    forall x ensures a[x] == b[x] {
      FilterCounts(s, p, x);
      FilterCounts(t, p, x);
    }
    MultisetExt(a, b);
  }

  /** Once `x` may precede an element of `t`, it may precede every later one. */
  ghost predicate PrecedesOnward<T>(x: T, t: seq<T>, first: (T, T) -> bool) {
    forall j, k :: 0 <= j <= k < |t| && first(x, t[j]) ==> first(x, t[k])
  }

  lemma SortedPrecedesOnward<T(!new)>(x: T, t: seq<T>, first: (T, T) -> bool)
    requires TotalPreorder(first) && SortedBy(t, first)
    ensures PrecedesOnward(x, t, first)
  {
    forall j, k | 0 <= j <= k < |t| && first(x, t[j]) ensures first(x, t[k]) {
      if j < k { assert first(t[j], t[k]); }
    }
  }

  /** The case of `FilterInsert` where `x` goes in front. */
  lemma FilterInsertFront<T>(x: T, t: seq<T>, p: T -> bool, first: (T, T) -> bool)
    requires PrecedesOnward(x, t, first) && t != [] && first(x, t[0])
    ensures Filter(Insert(x, t, first), p)
         == if p(x) then Insert(x, Filter(t, p), first) else Filter(t, p)
  {
    assert Insert(x, t, first) == [x] + t;
    FilterCons(x, t, p);
    var ft := Filter(t, p);
    FilterMembers(t, p);
    if p(x) && ft != [] {
      assert ft[0] in multiset(t);
      var j :| 0 <= j < |t| && t[j] == ft[0];
      assert first(x, t[j]);
    }
  }

  lemma InsertPast<T>(x: T, y: T, u: seq<T>, first: (T, T) -> bool)
    requires !first(x, y)
    ensures Insert(x, [y] + u, first) == [y] + Insert(x, u, first)
  {
    assert ([y] + u)[1..] == u;
  }

  /** Inserting past `t[0]`, then filtering: `t[0]` if it passes, then the rest. */
  lemma FilterPastHead<T>(x: T, t: seq<T>, p: T -> bool, first: (T, T) -> bool)
    requires t != [] && !first(x, t[0])
    ensures Filter(Insert(x, t, first), p) == (if p(t[0]) then [t[0]] else []) + Filter(Insert(x, t[1..], first), p)
    ensures Filter(t, p) == (if p(t[0]) then [t[0]] else []) + Filter(t[1..], p)
  {
    assert Insert(x, t, first) == [t[0]] + Insert(x, t[1..], first);
    FilterCons(t[0], Insert(x, t[1..], first), p);
    assert t == [t[0]] + t[1..];
    FilterCons(t[0], t[1..], p);
  }

  /** The case of `FilterInsert` where `x` moves past `t[0]`, given the result for `t[1..]`. */
  lemma FilterInsertPast<T>(x: T, t: seq<T>, p: T -> bool, first: (T, T) -> bool)
    requires t != [] && !first(x, t[0])
    requires Filter(Insert(x, t[1..], first), p)
          == if p(x) then Insert(x, Filter(t[1..], p), first) else Filter(t[1..], p)
    ensures Filter(Insert(x, t, first), p)
         == if p(x) then Insert(x, Filter(t, p), first) else Filter(t, p)
  {
    FilterPastHead(x, t, p, first);
    if p(x) && p(t[0]) {
      InsertPast(x, t[0], Filter(t[1..], p), first);
    } else if !p(t[0]) {
      assert [] + Filter(t[1..], p) == Filter(t[1..], p);
      assert [] + Filter(Insert(x, t[1..], first), p) == Filter(Insert(x, t[1..], first), p);
    }
  }

  /** Filtering commutes with inserting into a list where `x` finds its place. */
  lemma {:induction false} FilterInsert<T>(x: T, t: seq<T>, p: T -> bool, first: (T, T) -> bool)
    requires PrecedesOnward(x, t, first)
    ensures Filter(Insert(x, t, first), p)
         == if p(x) then Insert(x, Filter(t, p), first) else Filter(t, p)
  {
    if t == [] {
      assert Insert(x, t, first) == [x] + [];
      FilterCons(x, [], p);
    } else if first(x, t[0]) {
      FilterInsertFront(x, t, p, first);
    } else {
      assert PrecedesOnward(x, t[1..], first) by {
        forall j, k | 0 <= j <= k < |t| - 1 && first(x, t[1..][j]) ensures first(x, t[1..][k]) {
          assert t[1..][j] == t[j + 1] && t[1..][k] == t[k + 1];
        }
      }
      FilterInsert(x, t[1..], p, first);
      FilterInsertPast(x, t, p, first);
    }
  }

  /** Filtering a sorted list gives the sorted filtered list, in the same order. */
  lemma {:induction false} FilterSortCommute<T(!new)>(s: seq<T>, p: T -> bool, first: (T, T) -> bool)
    requires TotalPreorder(first)
    ensures Filter(SortBy(s, first), p) == SortBy(Filter(s, p), first)
  {
    if s != [] {
      FilterSortCommute(s[1..], p, first);
      SortSorted(s[1..], first);
      SortedPrecedesOnward(s[0], SortBy(s[1..], first), first);
      FilterInsert(s[0], SortBy(s[1..], first), p, first);
      assert s == [s[0]] + s[1..];
      FilterCons(s[0], s[1..], p);
      var f1 := Filter(s[1..], p);
      assert Filter(s, p) == (if p(s[0]) then [s[0]] else []) + f1;
      if p(s[0]) {
        assert ([s[0]] + f1)[1..] == f1;
        assert SortBy([s[0]] + f1, first) == Insert(s[0], SortBy(f1, first), first);
      } else {
        assert [] + f1 == f1;
      }
    }
  }

  /** No key occurs twice. */
  ghost predicate UniqueKeys<T, K>(s: seq<T>, key: T -> K) {
    forall i, j :: 0 <= i < j < |s| ==> key(s[i]) != key(s[j])
  }

  /** No element of `s` has key `k`. */
  ghost predicate KeyAbsent<T, K>(s: seq<T>, key: T -> K, k: K) {
    forall i :: 0 <= i < |s| ==> key(s[i]) != k
  }

  lemma ConsUnique<T, K>(a: T, t: seq<T>, key: T -> K)
    requires KeyAbsent(t, key, key(a)) && UniqueKeys(t, key)
    ensures UniqueKeys([a] + t, key)
  {
    var r := [a] + t;
    forall i, j | 0 <= i < j < |r| ensures key(r[i]) != key(r[j]) {
      assert r[j] == t[j - 1];
      if i > 0 { assert r[i] == t[i - 1]; }
    }
  }

  lemma TailUnique<T, K>(s: seq<T>, key: T -> K)
    requires s != [] && UniqueKeys(s, key)
    ensures UniqueKeys(s[1..], key) && KeyAbsent(s[1..], key, key(s[0]))
  {
    assert forall i :: 0 <= i < |s| - 1 ==> s[1..][i] == s[i + 1];
  }

  /** Inserting an element with a fresh key keeps keys unique and adds no other key. */
  lemma {:induction false} InsertUnique<T, K>(x: T, s: seq<T>, first: (T, T) -> bool, key: T -> K)
    requires UniqueKeys(s, key) && KeyAbsent(s, key, key(x))
    ensures UniqueKeys(Insert(x, s, first), key)
    ensures forall k :: KeyAbsent(s, key, k) && k != key(x) ==> KeyAbsent(Insert(x, s, first), key, k)
  {
    if s == [] {
    } else if first(x, s[0]) {
      ConsUnique(x, s, key);
    } else {
      TailUnique(s, key);
      assert forall i :: 0 <= i < |s| - 1 ==> s[1..][i] == s[i + 1];
      InsertUnique(x, s[1..], first, key);
      assert key(s[0]) != key(x);
      assert KeyAbsent(Insert(x, s[1..], first), key, key(s[0]));
      ConsUnique(s[0], Insert(x, s[1..], first), key);
      forall k | KeyAbsent(s, key, k) && k != key(x) ensures KeyAbsent(Insert(x, s, first), key, k) {
        assert KeyAbsent(s[1..], key, k);
      }
    }
  }

  /** Sorting keeps keys unique and adds no key. */
  lemma {:induction false} SortUnique<T, K>(s: seq<T>, first: (T, T) -> bool, key: T -> K)
    requires UniqueKeys(s, key)
    ensures UniqueKeys(SortBy(s, first), key)
    ensures forall k :: KeyAbsent(s, key, k) ==> KeyAbsent(SortBy(s, first), key, k)
  {
    if s != [] {
      TailUnique(s, key);
      SortUnique(s[1..], first, key);
      assert KeyAbsent(SortBy(s[1..], first), key, key(s[0]));
      InsertUnique(s[0], SortBy(s[1..], first), first, key);
      forall k | KeyAbsent(s, key, k) ensures KeyAbsent(SortBy(s, first), key, k) {
        assert forall i :: 0 <= i < |s| - 1 ==> s[1..][i] == s[i + 1];
        assert KeyAbsent(s[1..], key, k);
      }
    }
  }

  /** Filtering keeps keys unique. */
  lemma {:induction false} FilterUnique<T, K>(s: seq<T>, p: T -> bool, key: T -> K)
    requires UniqueKeys(s, key)
    ensures UniqueKeys(Filter(s, p), key)
  {
    if s != [] {
      TailUnique(s, key);
      FilterUnique(s[1..], p, key);
      var f := Filter(s[1..], p);
      if p(s[0]) {
        FilterMembers(s[1..], p);
        forall i | 0 <= i < |f| ensures key(f[i]) != key(s[0]) {
          assert f[i] in multiset(s[1..]);
        }
        ConsUnique(s[0], f, key);
      }
    }
  }

  /** A prefix of a sorted list with unique keys is sorted and has unique keys. */
  lemma TakeKeeps<T, K>(s: seq<T>, n: nat, first: (T, T) -> bool, key: T -> K)
    ensures Take(s, n) == s[..|Take(s, n)|]
    ensures SortedBy(s, first) ==> SortedBy(Take(s, n), first)
    ensures UniqueKeys(s, key) ==> UniqueKeys(Take(s, n), key)
    ensures multiset(Take(s, n)) <= multiset(s)
  {
    var k := |Take(s, n)|;
    assert s == s[..k] + s[k..];
  }

  /**
   * Cutting a sorted list keeps `min(n, |s|)` elements, and none it leaves out
   * comes before one it keeps.
   */
  lemma TakeSortedRest<T>(s: seq<T>, n: nat, first: (T, T) -> bool)
    requires SortedBy(s, first)
    ensures |Take(s, n)| == if |s| < n then |s| else n
    ensures forall x, y :: x in Take(s, n) && y in s && y !in Take(s, n) ==> first(x, y)
  {
    var t := Take(s, n);
    var k := |t|;
    assert t == s[..k];
    forall x, y | x in t && y in s && y !in t ensures first(x, y) {
      var i :| 0 <= i < k && t[i] == x;
      var j :| 0 <= j < |s| && s[j] == y;
      assert forall p :: 0 <= p < k ==> t[p] == s[p];
      assert k <= j;
    }
  }

  /** `s[i]` is the first element of `s` with its key. */
  ghost predicate FirstWithKey<T, K>(s: seq<T>, key: T -> K, i: int)
    requires 0 <= i < |s|
  {
    forall j :: 0 <= j < i ==> key(s[j]) != key(s[i])
  }

  /** The first element with its key, past the head, is the first with it in the tail, and its key is not the head's. */
  lemma FirstWithKeyTail<T, K>(s: seq<T>, key: T -> K)
    requires s != []
    ensures s == [s[0]] + s[1..]
    ensures forall i :: 1 <= i < |s| ==> s[1..][i - 1] == s[i]
    ensures forall i :: 1 <= i < |s| && FirstWithKey(s, key, i) ==> FirstWithKey(s[1..], key, i - 1) && key(s[i]) != key(s[0])
  {
    assert forall i :: 1 <= i < |s| ==> s[1..][i - 1] == s[i];
  }

  /** Keeps each element whose key is not in `seen` and has not been kept before. */
  function DedupFrom<T(==), K(==)>(s: seq<T>, key: T -> K, seen: set<K>): (r: seq<T>)
    ensures |r| <= |s| && multiset(r) <= multiset(s)
    ensures forall x :: x in r ==> key(x) !in seen
    ensures UniqueKeys(r, key)
    ensures forall i :: 0 <= i < |s| && key(s[i]) !in seen && FirstWithKey(s, key, i) ==> s[i] in r
  {
    if s == [] then []
    else if key(s[0]) in seen then
      FirstWithKeyTail(s, key);
      DedupFrom(s[1..], key, seen)
    else
      var rest := DedupFrom(s[1..], key, seen + {key(s[0])});
      FirstWithKeyTail(s, key);
      [s[0]] + rest
  }

  /**
   * `s.filter((x, i, self) => i === self.findIndex(y => key(y) === key(x)))`:
   * the first element with each key, no key twice, nothing that was not in `s`.
   */
  function DedupBy<T(==), K(==)>(s: seq<T>, key: T -> K): (r: seq<T>)
    ensures multiset(r) <= multiset(s) && |r| <= |s|
    ensures UniqueKeys(r, key)
    ensures forall i :: 0 <= i < |s| && FirstWithKey(s, key, i) ==> s[i] in r
  {
    DedupFrom(s, key, {})
  }

  /** An element first with its key in the tail whose key is not the head's is first with it in the whole list. */
  lemma FirstWithKeyCons<T, K>(s: seq<T>, key: T -> K, i: nat)
    requires i + 1 < |s| && FirstWithKey(s[1..], key, i) && key(s[i + 1]) != key(s[0])
    ensures FirstWithKey(s, key, i + 1)
  {
    forall j | 0 < j < i + 1 ensures key(s[j]) != key(s[i + 1]) {
      assert s[j] == s[1..][j - 1] && s[i + 1] == s[1..][i];
    }
  }

  /** Positions in the tail of `s`, of elements whose key is not the head's, moved one place on. */
  lemma ShiftPositions<T, K>(s: seq<T>, key: T -> K, d: seq<T>, rest: seq<nat>) returns (shifted: seq<nat>)
    requires s != [] && |rest| == |d|
    requires forall k :: 0 <= k < |rest| ==> rest[k] < |s[1..]| && d[k] == s[1..][rest[k]] && FirstWithKey(s[1..], key, rest[k])
    requires forall k :: 0 <= k < |d| ==> key(d[k]) != key(s[0])
    requires forall k, l :: 0 <= k < l < |rest| ==> rest[k] < rest[l]
    ensures |shifted| == |d|
    ensures forall k :: 0 <= k < |shifted| ==> 0 < shifted[k] < |s| && d[k] == s[shifted[k]] && FirstWithKey(s, key, shifted[k])
    ensures forall k, l :: 0 <= k < l < |shifted| ==> shifted[k] < shifted[l]
  {
    shifted := seq(|rest|, k requires 0 <= k < |rest| => rest[k] + 1);
    forall k | 0 <= k < |rest| ensures FirstWithKey(s, key, shifted[k]) {
      FirstWithKeyCons(s, key, rest[k]);
    }
  }

  /** The head's position in front of positions past it. */
  lemma ConsPositions<T, K>(s: seq<T>, key: T -> K, d: seq<T>, shifted: seq<nat>) returns (idx: seq<nat>)
    requires s != [] && |shifted| == |d|
    requires forall k :: 0 <= k < |shifted| ==> 0 < shifted[k] < |s| && d[k] == s[shifted[k]] && FirstWithKey(s, key, shifted[k])
    requires forall k, l :: 0 <= k < l < |shifted| ==> shifted[k] < shifted[l]
    ensures |idx| == |[s[0]] + d|
    ensures forall k :: 0 <= k < |idx| ==> idx[k] < |s| && ([s[0]] + d)[k] == s[idx[k]] && FirstWithKey(s, key, idx[k])
    ensures forall k, l :: 0 <= k < l < |idx| ==> idx[k] < idx[l]
  {
    idx := [0] + shifted;
    assert forall k :: 1 <= k < |idx| ==> idx[k] == shifted[k - 1] && ([s[0]] + d)[k] == d[k - 1];
  }

  /**
   * The dedup keeps the order of `s`: its `k`-th element is `s[idx[k]]` for
   * strictly increasing positions `idx`, each the first of `s` with its key.
   */
  lemma {:induction false} DedupFromOrder<T, K>(s: seq<T>, key: T -> K, seen: set<K>) returns (idx: seq<nat>)
    ensures |idx| == |DedupFrom(s, key, seen)|
    ensures forall k :: 0 <= k < |idx| ==> idx[k] < |s| && DedupFrom(s, key, seen)[k] == s[idx[k]] && FirstWithKey(s, key, idx[k])
    ensures forall k, l :: 0 <= k < l < |idx| ==> idx[k] < idx[l]
  {
    if s == [] {
      return [];
    }
    var seen' := if key(s[0]) in seen then seen else seen + {key(s[0])};
    var rest := DedupFromOrder(s[1..], key, seen');
    var d := DedupFrom(s[1..], key, seen');
    assert forall k :: 0 <= k < |d| ==> d[k] in d;
    var shifted := ShiftPositions(s, key, d, rest);
    if key(s[0]) in seen {
      idx := shifted;
    } else {
      idx := ConsPositions(s, key, d, shifted);
    }
  }

  /** `DedupFromOrder` for the dedup itself: `DedupBy(s, key)` is a subsequence of `s`. */
  lemma DedupOrder<T, K>(s: seq<T>, key: T -> K) returns (idx: seq<nat>)
    ensures |idx| == |DedupBy(s, key)|
    ensures forall k :: 0 <= k < |idx| ==> idx[k] < |s| && DedupBy(s, key)[k] == s[idx[k]] && FirstWithKey(s, key, idx[k])
    ensures forall k, l :: 0 <= k < l < |idx| ==> idx[k] < idx[l]
  {
    idx := DedupFromOrder(s, key, {});
  }

  /** Every key of `s` survives the dedup. */
  lemma DedupKeepsKeys<T, K>(s: seq<T>, key: T -> K, i: nat)
    requires i < |s|
    ensures exists x :: x in DedupBy(s, key) && key(x) == key(s[i])
  {
    var k := i;
    while k > 0 && !FirstWithKey(s, key, k)
      invariant 0 <= k <= i && key(s[k]) == key(s[i])
    {
      var j :| 0 <= j < k && key(s[j]) == key(s[k]);
      k := j;
    }
    assert s[k] in DedupBy(s, key);
  }

  /** `s.map(f)`. */
  function MapSeq<T, U>(s: seq<T>, f: T -> U): (r: seq<U>)
    ensures |r| == |s|
  {
    seq(|s|, i requires 0 <= i < |s| => f(s[i]))
  }

  lemma MapSeqSnoc<T, U>(s: seq<T>, x: T, f: T -> U)
    ensures MapSeq(s + [x], f) == MapSeq(s, f) + [f(x)]
  {
    assert forall i | 0 <= i < |s| :: (s + [x])[i] == s[i];
  }

  /** `s.indexOf(x)`: the first position of `x`, or -1 when it is absent. */
  function IndexOf<T(==)>(s: seq<T>, x: T): (r: int)
    ensures -1 <= r < |s|
    ensures r >= 0 ==> s[r] == x && x !in s[..r]
    ensures r == -1 <==> x !in s
  {
    if s == [] then -1
    else if s[0] == x then 0
    else
      var i := IndexOf(s[1..], x);
      assert s == [s[0]] + s[1..];
      if i == -1 then -1
      else
        assert s[..i + 1] == [s[0]] + s[1..][..i];
        i + 1
  }

  /** In a list without repeats, the element at `v` is found at `v`. */
  lemma {:induction false} IndexOfDistinct<T>(s: seq<T>, v: nat)
    requires v < |s| && forall i, j :: 0 <= i < j < |s| ==> s[i] != s[j]
    ensures IndexOf(s, s[v]) == v
  {
    if v > 0 {
      assert s[0] != s[v];
      assert forall i, j :: 0 <= i < j < |s| - 1 ==> s[1..][i] == s[i + 1] && s[1..][j] == s[j + 1];
      IndexOfDistinct(s[1..], v - 1);
    }
  }

  /** Concatenation of a sequence of sequences. */
  function Flatten<T>(ss: seq<seq<T>>): seq<T> {
    if ss == [] then [] else ss[0] + Flatten(ss[1..])
  }
}
