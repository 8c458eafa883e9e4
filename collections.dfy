/** The JavaScript array built-ins the scheduler is written with
    (`filter`, `find`, `filter(...).length`, `map` and a stable `sort`),
    each defined once over sequences, with the facts the pages rely on. */
module Collections {
  import opened Wrappers

  /** `Array.prototype.filter`: the elements that pass `p`, in order. */
  function Filter<T(==)>(s: seq<T>, p: T -> bool): (r: seq<T>)
    ensures |r| <= |s|
    ensures forall i :: 0 <= i < |r| ==> p(r[i])
  {
    if s == [] then [] else (if p(s[0]) then [s[0]] else []) + Filter(s[1..], p)
  }

  /** The filter keeps exactly the elements that pass. */
  lemma {:induction false} FilterMembers<T>(s: seq<T>, p: T -> bool, x: T)
    ensures x in Filter(s, p) <==> x in s && p(x)
  {
    if s != [] {
      FilterMembers(s[1..], p, x);
      assert s == [s[0]] + s[1..];
    }
  }

  /** `s.filter(p).length`. */
  function Count<T(==)>(s: seq<T>, p: T -> bool): nat
  {
    |Filter(s, p)|
  }

  /** `r` is obtained from `s` by deleting elements: nothing is added and
      the relative order of what is kept does not change. */
  predicate Subsequence<T(==)>(r: seq<T>, s: seq<T>)
  {
    if r == [] then true
    else if s == [] then false
    else (r[0] == s[0] && Subsequence(r[1..], s[1..])) || Subsequence(r, s[1..])
  }

  /** Filtering distributes over concatenation, so it keeps the order of
      the elements it keeps. */
  lemma {:induction false} FilterAppend<T>(a: seq<T>, b: seq<T>, p: T -> bool)
    ensures Filter(a + b, p) == Filter(a, p) + Filter(b, p)
  {
    if a == [] {
      assert a + b == b;
    } else {
      assert (a + b)[0] == a[0];
      assert (a + b)[1..] == a[1..] + b;
      FilterAppend(a[1..], b, p);
    }
  }

  lemma {:induction false} FilterIsSubsequence<T>(s: seq<T>, p: T -> bool)
    ensures Subsequence(Filter(s, p), s)
  {
    if s != [] {
      FilterIsSubsequence(s[1..], p);
      var r := Filter(s, p);
      if p(s[0]) {
        assert r[0] == s[0] && r[1..] == Filter(s[1..], p);
      } else {
        assert r == Filter(s[1..], p);
      }
    }
  }

  /** A filter whose predicate holds everywhere keeps the whole sequence. */
  lemma {:induction false} FilterKeepsAll<T>(s: seq<T>, p: T -> bool)
    requires forall i :: 0 <= i < |s| ==> p(s[i])
    ensures Filter(s, p) == s
  {
    if s != [] {
      FilterKeepsAll(s[1..], p);
      assert [s[0]] + s[1..] == s;
    }
  }

  /** Each element occurs in the filter's result as often as in the input
      when it passes, and not at all otherwise. */
  lemma {:induction false} FilterMultiset<T>(s: seq<T>, p: T -> bool, x: T)
    ensures multiset(Filter(s, p))[x] == if p(x) then multiset(s)[x] else 0
  {
    if s != [] {
      FilterMultiset(s[1..], p, x);
      assert s == [s[0]] + s[1..];
      assert Filter(s, p) == (if p(s[0]) then [s[0]] else []) + Filter(s[1..], p);
    }
  }

  /** The filter keeps every passing element as often as it occurs, drops
      every other one, and keeps the input order. */
  lemma FilterExact<T>(s: seq<T>, p: T -> bool)
    ensures forall x :: multiset(Filter(s, p))[x] == if p(x) then multiset(s)[x] else 0
    ensures Subsequence(Filter(s, p), s)
  {
    forall x ensures multiset(Filter(s, p))[x] == if p(x) then multiset(s)[x] else 0 {
      FilterMultiset(s, p, x);
    }
    FilterIsSubsequence(s, p);
  }

  /** Counting distributes over concatenation. */
  lemma CountAppend<T>(a: seq<T>, b: seq<T>, p: T -> bool)
    ensures Count(a + b, p) == Count(a, p) + Count(b, p)
  {
    FilterAppend(a, b, p);
  }

  /** A weaker predicate never counts fewer elements. */
  lemma {:induction false} CountMonotonic<T>(s: seq<T>, p: T -> bool, q: T -> bool)
    requires forall x :: p(x) ==> q(x)
    ensures Count(s, p) <= Count(s, q)
  {
    if s != [] {
      CountMonotonic(s[1..], p, q);
    }
  }

  /** Elements passing `p` are those passing `p` and `q` plus those passing
      `p` but not `q`. */
  lemma {:induction false} CountSplit<T>(s: seq<T>, p: T -> bool, q: T -> bool, pq: T -> bool, pnq: T -> bool)
    requires forall x :: pq(x) <==> p(x) && q(x)
    requires forall x :: pnq(x) <==> p(x) && !q(x)
    ensures Count(s, p) == Count(s, pq) + Count(s, pnq)
  {
    if s != [] {
      CountSplit(s[1..], p, q, pq, pnq);
    }
  }

  /** Index of the first element passing `p`, or `|s|` when none does. */
  function FirstIndex<T>(s: seq<T>, p: T -> bool): (k: nat)
    ensures k <= |s|
    ensures forall j :: 0 <= j < k ==> !p(s[j])
    ensures k < |s| ==> p(s[k])
  {
    if s == [] then 0 else if p(s[0]) then 0 else 1 + FirstIndex(s[1..], p)
  }

  /** `Array.prototype.find`: the first element passing `p`, or `undefined`. */
  function FindFirst<T>(s: seq<T>, p: T -> bool): (r: Option<T>)
    ensures r.None? <==> forall i :: 0 <= i < |s| ==> !p(s[i])
    ensures r.Some? ==> exists k :: 0 <= k < |s| && r.value == s[k] && p(s[k]) &&
                                    forall j :: 0 <= j < k ==> !p(s[j])
  {
    var k := FirstIndex(s, p);
    if k < |s| then Some(s[k]) else None
  }

  /** `find` returns the element at the first index that passes. */
  lemma FindFirstAt<T>(s: seq<T>, p: T -> bool, k: nat)
    requires k < |s| && p(s[k])
    requires forall j :: 0 <= j < k ==> !p(s[j])
    ensures FindFirst(s, p) == Some(s[k])
  {
    var r := FindFirst(s, p);
    var m :| 0 <= m < |s| && r.value == s[m] && p(s[m]) && forall j :: 0 <= j < m ==> !p(s[j]);
    assert !(m < k) && !(k < m);
  }

  /** `(a, b) => ...` comparators that a sort accepts: total and transitive. */
  ghost predicate TotalPreorder<T(!new)>(le: (T, T) -> bool)
  {
    && (forall a, b :: le(a, b) || le(b, a))
    && (forall a, b, c :: le(a, b) && le(b, c) ==> le(a, c))
  }

  predicate SortedBy<T>(s: seq<T>, le: (T, T) -> bool)
  {
    forall i, j :: 0 <= i < j < |s| ==> le(s[i], s[j])
  }

  /** Puts `x` in front of the first element it does not follow. */
  function Insert<T(==)>(x: T, s: seq<T>, le: (T, T) -> bool): (r: seq<T>)
    ensures multiset(r) == multiset(s) + multiset{x}
  {
    if s == [] then [x]
    else if le(x, s[0]) then [x] + s
    else assert s == [s[0]] + s[1..]; [s[0]] + Insert(x, s[1..], le)
  }

  /** `[...s].sort(cmp)`, with `le(a, b)` meaning `cmp(a, b) <= 0`. The
      engine's sort is stable (ECMAScript 2019); so is this insertion sort,
      and two stable sorts by the same comparator give the same order. */
  function SortBy<T(==)>(s: seq<T>, le: (T, T) -> bool): (r: seq<T>)
    ensures multiset(r) == multiset(s)
  {
    if s == [] then [] else assert s == [s[0]] + s[1..]; Insert(s[0], SortBy(s[1..], le), le)
  }

  lemma {:induction false} InsertSorted<T(!new)>(x: T, s: seq<T>, le: (T, T) -> bool)
    requires TotalPreorder(le)
    requires SortedBy(s, le)
    ensures SortedBy(Insert(x, s, le), le)
  {
    if s != [] && !le(x, s[0]) {
      InsertSorted(x, s[1..], le);
      var t := Insert(x, s[1..], le);
      var r := [s[0]] + t;
      forall j | 0 <= j < |t| ensures le(s[0], t[j]) {
        assert t[j] in multiset(t);
        assert t[j] == x || t[j] in multiset(s[1..]);
        if t[j] != x {
          var k :| 0 <= k < |s[1..]| && s[1..][k] == t[j];
          assert s[k + 1] == t[j];
        }
      }
      forall i, j | 0 <= i < j < |r| ensures le(r[i], r[j]) {
        if i > 0 {
          assert r[i] == t[i - 1] && r[j] == t[j - 1];
        } else {
          assert r[j] == t[j - 1];
        }
      }
    }
  }

  /** The sorted copy is ordered by `le`. */
  lemma {:induction false} SortBySorted<T(!new)>(s: seq<T>, le: (T, T) -> bool)
    requires TotalPreorder(le)
    ensures SortedBy(SortBy(s, le), le)
  {
    if s != [] {
      SortBySorted(s[1..], le);
      InsertSorted(s[0], SortBy(s[1..], le), le);
    }
  }

  /** The elements `le` cannot tell apart from `k`. */
  function EquivalentTo<T>(le: (T, T) -> bool, k: T): T -> bool
  {
    y => le(y, k) && le(k, y)
  }

  lemma FilterCons<T>(x: T, t: seq<T>, q: T -> bool)
    ensures Filter([x] + t, q) == (if q(x) then [x] else []) + Filter(t, q)
  {
    assert ([x] + t)[0] == x;
    assert ([x] + t)[1..] == t;
  }

  /** Filtering an element out of the middle of a sequence. */
  lemma FilterMiddle<T>(a: seq<T>, x: T, b: seq<T>, p: T -> bool)
    ensures Filter(a + [x] + b, p) == Filter(a, p) + (if p(x) then [x] else []) + Filter(b, p)
  {
    assert [x][1..] == [];
    assert Filter([x], p) == (if p(x) then [x] else []) + Filter([], p);
    FilterAppend(a + [x], b, p);
    FilterAppend(a, [x], p);
  }

  /** A filter that rejects exactly the element at index `k` removes it. */
  lemma {:induction false} FilterAllBut<T>(s: seq<T>, p: T -> bool, k: nat)
    requires k < |s|
    requires forall i :: 0 <= i < |s| ==> (p(s[i]) <==> i != k)
    ensures Filter(s, p) == s[..k] + s[k + 1..]
  {
    if k == 0 {
      forall i | 0 <= i < |s[1..]| ensures p(s[1..][i]) {
        assert s[1..][i] == s[i + 1];
      }
      FilterKeepsAll(s[1..], p);
    } else {
      forall i | 0 <= i < |s[1..]| ensures p(s[1..][i]) <==> i != k - 1 {
        assert s[1..][i] == s[i + 1];
      }
      FilterAllBut(s[1..], p, k - 1);
      assert s[..k] + s[k + 1..] == [s[0]] + (s[1..][..k - 1] + s[1..][k..]);
    }
  }

  lemma {:induction false} InsertFilter<T>(x: T, t: seq<T>, le: (T, T) -> bool, q: T -> bool)
    requires q(x) ==> forall y :: y in t && !le(x, y) ==> !q(y)
    ensures Filter(Insert(x, t, le), q) == (if q(x) then [x] else []) + Filter(t, q)
  {
    if t == [] {
      FilterCons(x, t, q);
    } else if le(x, t[0]) {
      FilterCons(x, t, q);
    } else {
      assert q(x) ==> !q(t[0]) by {
        assert t[0] in t;
      }
      assert q(x) ==> forall y :: y in t[1..] && !le(x, y) ==> !q(y) by {
        forall y | y in t[1..] ensures y in t { }
      }
      InsertFilter(x, t[1..], le, q);
      assert Insert(x, t, le) == [t[0]] + Insert(x, t[1..], le);
      assert t == [t[0]] + t[1..];
      FilterPastHead(t[0], x, Insert(x, t[1..], le), t[1..], q);
    }
  }

  /** Putting the same head on both sides keeps a filtered `x` in front,
      provided the filter does not keep both. */
  lemma FilterPastHead<T>(h: T, x: T, rest: seq<T>, tail: seq<T>, q: T -> bool)
    requires !(q(x) && q(h))
    requires Filter(rest, q) == (if q(x) then [x] else []) + Filter(tail, q)
    ensures Filter([h] + rest, q) == (if q(x) then [x] else []) + Filter([h] + tail, q)
  {
    if q(x) {
      FilterDropHead(h, rest, q);
      FilterDropHead(h, tail, q);
    } else {
      assert Filter(rest, q) == Filter(tail, q);
      if q(h) {
        FilterKeepHead(h, rest, q);
        FilterKeepHead(h, tail, q);
      } else {
        FilterDropHead(h, rest, q);
        FilterDropHead(h, tail, q);
      }
    }
  }

  lemma FilterKeepHead<T>(h: T, t: seq<T>, q: T -> bool)
    requires q(h)
    ensures Filter([h] + t, q) == [h] + Filter(t, q)
  {
    assert ([h] + t)[0] == h && ([h] + t)[1..] == t;
  }

  lemma FilterDropHead<T>(h: T, t: seq<T>, q: T -> bool)
    requires !q(h)
    ensures Filter([h] + t, q) == Filter(t, q)
  {
    assert ([h] + t)[0] == h && ([h] + t)[1..] == t;
  }

  /** Stability: the elements equivalent to any `k` come out of the sort in
      exactly the order they went in. */
  lemma {:induction false} SortByStable<T(!new)>(s: seq<T>, le: (T, T) -> bool, k: T)
    requires TotalPreorder(le)
    ensures Filter(SortBy(s, le), EquivalentTo(le, k)) == Filter(s, EquivalentTo(le, k))
  {
    if s != [] {
      var q := EquivalentTo(le, k);
      SortByStable(s[1..], le, k);
      InsertFilter(s[0], SortBy(s[1..], le), le, q);
      assert s == [s[0]] + s[1..];
      FilterAppend([s[0]], s[1..], q);
    }
  }
}
