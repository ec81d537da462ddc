/**
 * Generic sequence operations shared by the screens: JavaScript's
 * `Array.prototype.filter`, the order-preserving subsequence relation it
 * produces, and the stable `Array.prototype.sort` (a stable sort is what
 * ECMAScript 2019 and later require) driven by a comparator.
 */
module Seqs {

  /** `sub` is obtained from `xs` by deleting elements and keeping the order of the rest. */
  predicate IsSubsequence<T(==)>(sub: seq<T>, xs: seq<T>)
    decreases |xs|
  {
    sub == [] ||
    (xs != [] &&
      ((sub[0] == xs[0] && IsSubsequence(sub[1..], xs[1..])) || IsSubsequence(sub, xs[1..])))
  }

  /** `xs.filter(p)`: the elements of `xs` that satisfy `p`, in their original order. */
  function Filter<T>(xs: seq<T>, p: T -> bool): (r: seq<T>)
    ensures |r| <= |xs|
    ensures forall i :: 0 <= i < |r| ==> p(r[i])
    decreases |xs|
  {
    if xs == [] then []
    else
      assert xs == [xs[0]] + xs[1..];
      if p(xs[0]) then [xs[0]] + Filter(xs[1..], p)
    else Filter(xs[1..], p)
  }

  /** An element is in the filtered list exactly when it is in the list and passes the filter. */
  lemma {:induction false} FilterMembers<T>(xs: seq<T>, p: T -> bool)
    ensures forall x :: x in Filter(xs, p) <==> x in xs && p(x)
    decreases |xs|
  {
    if xs != [] {
      FilterMembers(xs[1..], p);
      assert xs == [xs[0]] + xs[1..];
    }
  }

  /** `filter` keeps every copy of an element that passes and no copy of one that fails. */
  lemma {:induction false} FilterMultiplicity<T>(xs: seq<T>, p: T -> bool)
    ensures forall x :: multiset(Filter(xs, p))[x] == if p(x) then multiset(xs)[x] else 0
    decreases |xs|
  {
    if xs != [] {
      FilterMultiplicity(xs[1..], p);
      assert xs == [xs[0]] + xs[1..];
    }
  }

  lemma {:induction false} FilterIsSubsequence<T>(xs: seq<T>, p: T -> bool)
    ensures IsSubsequence(Filter(xs, p), xs)
    decreases |xs|
  {
    if xs != [] {
      FilterIsSubsequence(xs[1..], p);
    }
  }

  lemma {:induction false} FilterConcat<T>(xs: seq<T>, ys: seq<T>, p: T -> bool)
    ensures Filter(xs + ys, p) == Filter(xs, p) + Filter(ys, p)
    decreases |xs|
  {
    if xs != [] {
      assert (xs + ys)[0] == xs[0] && (xs + ys)[1..] == xs[1..] + ys;
      FilterConcat(xs[1..], ys, p);
    } else {
      assert xs + ys == ys;
    }
  }

  /** Filters by predicates that agree everywhere agree. */
  lemma {:induction false} FilterExt<T>(xs: seq<T>, p: T -> bool, q: T -> bool)
    requires forall x :: p(x) == q(x)
    ensures Filter(xs, p) == Filter(xs, q)
    decreases |xs|
  {
    if xs != [] {
      FilterExt(xs[1..], p, q);
    }
  }

  /** Filtering twice, by `p` then by `q`, is one filter by their conjunction `pq`. */
  lemma {:induction false} FilterFilter<T>(xs: seq<T>, p: T -> bool, q: T -> bool, pq: T -> bool)
    requires forall x :: pq(x) == (p(x) && q(x))
    ensures Filter(Filter(xs, p), q) == Filter(xs, pq)
    decreases |xs|
  {
    if xs != [] {
      FilterFilter(xs[1..], p, q, pq);
    }
  }

  /** A filter that every element passes keeps the whole list. */
  lemma {:induction false} FilterKeepsPassing<T>(xs: seq<T>, p: T -> bool)
    requires forall i :: 0 <= i < |xs| ==> p(xs[i])
    ensures Filter(xs, p) == xs
    decreases |xs|
  {
    if xs != [] {
      var rest := xs[1..];
      assert forall i :: 0 <= i < |rest| ==> p(rest[i]) by {
        forall i | 0 <= i < |rest| ensures p(rest[i]) {
          assert rest[i] == xs[i + 1];
        }
      }
      FilterKeepsPassing(rest, p);
      calc {
        Filter(xs, p);
        [xs[0]] + Filter(rest, p);
        { assert xs == [xs[0]] + rest; }
        xs;
      }
    }
  }

  /** A filter keeps the whole list exactly when every element passes it. */
  lemma {:induction false} FilterKeepsAll<T>(xs: seq<T>, p: T -> bool)
    ensures Filter(xs, p) == xs <==> forall i :: 0 <= i < |xs| ==> p(xs[i])
  {
    if forall i :: 0 <= i < |xs| ==> p(xs[i]) {
      FilterKeepsPassing(xs, p);
    }
  }

  lemma {:induction false} FilterDropsAll<T>(xs: seq<T>, p: T -> bool)
    ensures Filter(xs, p) == [] <==> forall i :: 0 <= i < |xs| ==> !p(xs[i])
    decreases |xs|
  {
    if xs != [] {
      var rest := xs[1..];
      FilterDropsAll(rest, p);
      assert forall i :: 0 <= i < |rest| ==> rest[i] == xs[i + 1];
      if !p(xs[0]) && Filter(rest, p) != [] {
        var i :| 0 <= i < |rest| && p(rest[i]);
        assert p(xs[i + 1]);
      }
    }
  }

  /** Filtering is idempotent: re-filtering a filtered list changes nothing. */
  lemma FilterIdempotent<T>(xs: seq<T>, p: T -> bool)
    ensures Filter(Filter(xs, p), p) == Filter(xs, p)
  {
    var r := Filter(xs, p);
    forall i | 0 <= i < |r| ensures p(r[i]) {
      assert r[i] in r;
    }
    FilterKeepsAll(r, p);
  }

  /** `if (apply) xs = xs.filter(p)`: a filter stage that runs only when `apply` holds. */
  function FilterIf<T>(xs: seq<T>, apply: bool, p: T -> bool): seq<T>
  {
    if apply then Filter(xs, p) else xs
  }

  /** A stage is a filter by `p` guarded by `apply`. */
  lemma FilterIfIsFilter<T>(xs: seq<T>, apply: bool, p: T -> bool, guarded: T -> bool)
    requires forall x :: guarded(x) == (!apply || p(x))
    ensures FilterIf(xs, apply, p) == Filter(xs, guarded)
  {
    if apply {
      FilterExt(xs, p, guarded);
    } else {
      FilterKeepsAll(xs, guarded);
    }
  }

  /** Two stages in a row are one filter by the conjunction of their guarded predicates. */
  lemma FilterIfTwice<T>(xs: seq<T>, a: bool, p: T -> bool, b: bool, q: T -> bool, keep: T -> bool)
    requires forall x :: keep(x) == ((!a || p(x)) && (!b || q(x)))
    ensures FilterIf(FilterIf(xs, a, p), b, q) == Filter(xs, keep)
  {
    var pa := (x: T) => !a || p(x);
    var qb := (x: T) => !b || q(x);
    FilterIfIsFilter(xs, a, p, pa);
    FilterIfIsFilter(Filter(xs, pa), b, q, qb);
    FilterFilter(xs, pa, qb, keep);
  }

  /** Three stages in a row are one filter by the conjunction of their guarded predicates. */
  lemma FilterIfThrice<T>(xs: seq<T>, a: bool, p: T -> bool, b: bool, q: T -> bool, c: bool, r: T -> bool, keep: T -> bool)
    requires forall x :: keep(x) == ((!a || p(x)) && (!b || q(x)) && (!c || r(x)))
    ensures FilterIf(FilterIf(FilterIf(xs, a, p), b, q), c, r) == Filter(xs, keep)
  {
    var pq := (x: T) => (!a || p(x)) && (!b || q(x));
    var rc := (x: T) => !c || r(x);
    FilterIfTwice(xs, a, p, b, q, pq);
    FilterIfIsFilter(Filter(xs, pq), c, r, rc);
    FilterFilter(xs, pq, rc, keep);
  }

  /** `xs.reverse()` on a copy. */
  function Reverse<T>(xs: seq<T>): (r: seq<T>)
    ensures |r| == |xs|
    ensures forall i :: 0 <= i < |xs| ==> r[i] == xs[|xs| - 1 - i]
    decreases |xs|
  {
    if xs == [] then [] else Reverse(xs[1..]) + [xs[0]]
  }

  /** Number of elements of `xs` satisfying `p`. */
  function CountWhere<T>(xs: seq<T>, p: T -> bool): (n: nat)
    ensures n <= |xs|
  {
    |Filter(xs, p)|
  }

  lemma CountWhereCons<T>(xs: seq<T>, p: T -> bool)
    requires xs != []
    ensures CountWhere(xs, p) == (if p(xs[0]) then 1 else 0) + CountWhere(xs[1..], p)
  {
  }

  // ---------------------------------------------------------------------
  // Stable sort by a comparator. `le(a, b)` means that the comparator does
  // not ask for `a` to be placed after `b` (its result for (a, b) is <= 0).

  /** `le` is total and transitive on the elements of `xs`. */
  ghost predicate TotalPreorderOn<T>(le: (T, T) -> bool, xs: seq<T>)
  {
    && (forall a, b :: a in xs && b in xs ==> le(a, b) || le(b, a))
    && (forall a, b, c :: a in xs && b in xs && c in xs && le(a, b) && le(b, c) ==> le(a, c))
  }

  ghost predicate SortedBy<T>(le: (T, T) -> bool, xs: seq<T>)
  {
    forall i, j :: 0 <= i < j < |xs| ==> le(xs[i], xs[j])
  }

  /** Inserts `x` before the first element it may precede; ties keep `x` first. */
  function Insert<T>(x: T, ys: seq<T>, le: (T, T) -> bool): (r: seq<T>)
    ensures multiset(r) == multiset(ys) + multiset{x}
    ensures |r| == |ys| + 1
    decreases |ys|
  {
    if ys == [] then [x]
    else if le(x, ys[0]) then [x] + ys
    else
      assert ys == [ys[0]] + ys[1..];
      [ys[0]] + Insert(x, ys[1..], le)
  }

  /**
   * `[...xs].sort(cmp)` where `le(a, b)` is `cmp(a, b) <= 0`: each element is
   * inserted, from the back, into the already sorted rest, so elements the
   * comparator calls equal keep their input order.
   */
  function SortBy<T>(xs: seq<T>, le: (T, T) -> bool): (r: seq<T>)
    ensures multiset(r) == multiset(xs)
    ensures |r| == |xs|
    decreases |xs|
  {
    if xs == [] then []
    else
      assert xs == [xs[0]] + xs[1..];
      Insert(xs[0], SortBy(xs[1..], le), le)
  }

  /** `y` may precede every element of `zs`. */
  ghost predicate PrecedesAll<T>(le: (T, T) -> bool, y: T, zs: seq<T>)
  {
    forall k :: 0 <= k < |zs| ==> le(y, zs[k])
  }

  lemma SortedCons<T>(le: (T, T) -> bool, y: T, zs: seq<T>)
    requires PrecedesAll(le, y, zs) && SortedBy(le, zs)
    ensures SortedBy(le, [y] + zs)
  {
    var r := [y] + zs;
    forall i, j | 0 <= i < j < |r| ensures le(r[i], r[j]) {
      assert r[j] == zs[j - 1];
      if i > 0 { assert r[i] == zs[i - 1]; }
    }
  }

  lemma {:induction false} InsertPrecededBy<T>(le: (T, T) -> bool, y: T, x: T, zs: seq<T>)
    requires PrecedesAll(le, y, zs) && le(y, x)
    ensures PrecedesAll(le, y, Insert(x, zs, le))
    decreases |zs|
  {
    if zs != [] && !le(x, zs[0]) {
      InsertPrecededBy(le, y, x, zs[1..]);
      var t := Insert(x, zs[1..], le);
      assert Insert(x, zs, le) == [zs[0]] + t;
    }
  }

  lemma {:induction false} InsertSorted<T>(x: T, ys: seq<T>, le: (T, T) -> bool)
    requires TotalPreorderOn(le, [x] + ys)
    requires SortedBy(le, ys)
    ensures SortedBy(le, Insert(x, ys, le))
    decreases |ys|
  {
    if ys != [] {
      var all := [x] + ys;
      assert x in all && ys[0] in all;
      if le(x, ys[0]) {
        forall k | 0 <= k < |ys| ensures le(x, ys[k]) {
          assert ys[k] in all;
        }
        SortedCons(le, x, ys);
      } else {
        var rest := ys[1..];
        assert forall y :: y in [x] + rest ==> y in all;
        assert SortedBy(le, rest);
        InsertSorted(x, rest, le);
        assert PrecedesAll(le, ys[0], rest);
        InsertPrecededBy(le, ys[0], x, rest);
        SortedCons(le, ys[0], Insert(x, rest, le));
      }
    }
  }

  /** The sort's result is ordered whenever the comparator is a total preorder on the input. */
  lemma {:induction false} SortBySorted<T>(xs: seq<T>, le: (T, T) -> bool)
    requires TotalPreorderOn(le, xs)
    ensures SortedBy(le, SortBy(xs, le))
    decreases |xs|
  {
    if xs != [] {
      var rest := xs[1..];
      assert forall y :: y in rest ==> y in xs;
      SortBySorted(rest, le);
      var sorted := SortBy(rest, le);
      forall y | y in [xs[0]] + sorted ensures y in xs {
        if y != xs[0] {
          assert y in multiset(sorted);
          assert y in rest;
        }
      }
      InsertSorted(xs[0], sorted, le);
    }
  }

  /** The elements the comparator ties with `x`: it places neither of the two after the other. */
  function Ties<T>(le: (T, T) -> bool, x: T): T -> bool
  {
    (y: T) => le(x, y) && le(y, x)
  }

  /** Inserting `h` ahead of every element tied with it puts `h` first among them and keeps their order. */
  lemma {:induction false} InsertKeepsTies<T>(h: T, ys: seq<T>, le: (T, T) -> bool, tie: T -> bool)
    requires forall z :: z in ys && tie(h) && tie(z) ==> le(h, z)
    ensures Filter(Insert(h, ys, le), tie) == (if tie(h) then [h] else []) + Filter(ys, tie)
    decreases |ys|
  {
    if ys == [] {
      assert [h][1..] == [];
    } else if le(h, ys[0]) {
      assert ([h] + ys)[0] == h && ([h] + ys)[1..] == ys;
    } else {
      var rest := ys[1..];
      assert forall z :: z in rest ==> z in ys;
      InsertKeepsTies(h, rest, le, tie);
      var t := Insert(h, rest, le);
      assert ([ys[0]] + t)[0] == ys[0] && ([ys[0]] + t)[1..] == t;
    }
  }

  lemma {:induction false} SortByKeepsTies<T>(xs: seq<T>, le: (T, T) -> bool, x: T)
    requires TotalPreorderOn(le, [x] + xs)
    ensures Filter(SortBy(xs, le), Ties(le, x)) == Filter(xs, Ties(le, x))
    decreases |xs|
  {
    if xs != [] {
      var h, rest := xs[0], xs[1..];
      var all := [x] + xs;
      var tie := Ties(le, x);
      assert forall y :: y in [x] + rest ==> y in all;
      SortByKeepsTies(rest, le, x);
      var sorted := SortBy(rest, le);
      forall z | z in sorted && tie(h) && tie(z) ensures le(h, z) {
        assert z in multiset(sorted);
        assert z in rest;
        assert h in all && x in all && z in all;
      }
      InsertKeepsTies(h, sorted, le, tie);
    }
  }

  /**
   * The sort is stable: for any element `x` of the input, the elements the
   * comparator ties with `x` leave the sort in their input order.
   */
  lemma SortByStable<T>(xs: seq<T>, le: (T, T) -> bool, x: T)
    requires TotalPreorderOn(le, xs) && x in xs
    ensures Filter(SortBy(xs, le), Ties(le, x)) == Filter(xs, Ties(le, x))
  {
    assert forall y :: y in [x] + xs ==> y in xs;
    SortByKeepsTies(xs, le, x);
  }

  // ---------------------------------------------------------------------
  // `Array.from(new Set(xs))`: the distinct elements in order of first occurrence

  /** Position of the first occurrence of `x` in `xs`. */
  function IndexOf<T(==)>(xs: seq<T>, x: T): (i: nat)
    requires x in xs
    ensures i < |xs| && xs[i] == x && x !in xs[..i]
    decreases |xs|
  {
    if xs[0] == x then 0
    else
      assert forall y :: y in xs[1..][..IndexOf(xs[1..], x)] ==> y in xs[..IndexOf(xs[1..], x) + 1][1..];
      1 + IndexOf(xs[1..], x)
  }

  /** Extending a list does not move the first occurrence of an element already there. */
  lemma {:induction false} IndexOfPrefix<T>(xs: seq<T>, k: nat, x: T)
    requires k <= |xs| && x in xs[..k]
    ensures IndexOf(xs, x) == IndexOf(xs[..k], x)
    decreases k
  {
    if xs[0] != x {
      assert xs[..k][1..] == xs[1..][..k - 1];
      assert x in xs[1..][..k - 1];
      IndexOfPrefix(xs[1..], k - 1, x);
    }
  }

  predicate NoDuplicates<T(==)>(xs: seq<T>)
  {
    forall i, j :: 0 <= i < j < |xs| ==> xs[i] != xs[j]
  }

  /** The distinct elements of `xs`, each once, in the order they first occur. */
  function Distinct<T(==,!new)>(xs: seq<T>): (r: seq<T>)
    ensures forall x :: x in r <==> x in xs
    ensures NoDuplicates(r)
    ensures forall i, j :: 0 <= i < j < |r| ==> IndexOf(xs, r[i]) < IndexOf(xs, r[j])
    decreases |xs|
  {
    if xs == [] then []
    else
      var init, last := xs[..|xs| - 1], xs[|xs| - 1];
      var r := Distinct(init);
      assert xs == init + [last];
      forall i | 0 <= i < |r| ensures IndexOf(xs, r[i]) == IndexOf(init, r[i]) {
        IndexOfPrefix(xs, |xs| - 1, r[i]);
      }
      if last in r then r
      else
        assert IndexOf(xs, last) == |xs| - 1;
        r + [last]
  }
}
