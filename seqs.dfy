/** The sequence operations the TypeScript code uses on arrays: `filter`,
    `includes` and `Array.from(new Set(xs))`, with the facts the rest of the
    model relies on. */
module Seqs {

  predicate NoDup<T(==,!new)>(xs: seq<T>) {
    forall i, j :: 0 <= i < j < |xs| ==> xs[i] != xs[j]
  }

  /** `xs.filter(keep)`. */
  function Filter<T(!new)>(xs: seq<T>, keep: T -> bool): (r: seq<T>)
    ensures |r| <= |xs|
    ensures forall x :: x in r <==> x in xs && keep(x)
  {
    if xs == [] then []
    else (if keep(xs[0]) then [xs[0]] else []) + Filter(xs[1..], keep)
  }

  /** Filtering distributes over concatenation: the kept elements stay in
      their original relative order. */
  lemma {:induction false} FilterAppend<T(!new)>(a: seq<T>, b: seq<T>, keep: T -> bool)
    ensures Filter(a + b, keep) == Filter(a, keep) + Filter(b, keep)
  {
    if a == [] {
      assert a + b == b;
    } else {
      assert (a + b)[1..] == a[1..] + b;
      FilterAppend(a[1..], b, keep);
    }
  }

  /** A filter that rejects exactly one position removes that element. */
  lemma {:induction false} FilterDropsOne<T(!new)>(xs: seq<T>, k: nat, keep: T -> bool)
    requires k < |xs| && !keep(xs[k])
    requires forall i :: 0 <= i < |xs| && i != k ==> keep(xs[i])
    ensures Filter(xs, keep) == xs[..k] + xs[k + 1..]
  {
    FilterAround(xs, k, keep);
    FilterAllAround(xs, k, keep);
  }

  lemma FilterAllAround<T(!new)>(xs: seq<T>, k: nat, keep: T -> bool)
    requires k < |xs|
    requires forall i :: 0 <= i < |xs| && i != k ==> keep(xs[i])
    ensures Filter(xs[..k], keep) == xs[..k] && Filter(xs[k + 1..], keep) == xs[k + 1..]
  {
    var left, right := xs[..k], xs[k + 1..];
    forall i | 0 <= i < |left| ensures keep(left[i]) {
      assert left[i] == xs[i];
    }
    forall i | 0 <= i < |right| ensures keep(right[i]) {
      assert right[i] == xs[k + 1 + i];
    }
    FilterAll(left, keep);
    FilterAll(right, keep);
  }

  /** Filtering around one position: the part before, that element, the part
      after. */
  lemma FilterAround<T(!new)>(xs: seq<T>, k: nat, keep: T -> bool)
    requires k < |xs|
    ensures Filter(xs, keep) == Filter(xs[..k], keep) + (if keep(xs[k]) then [xs[k]] else []) + Filter(xs[k + 1..], keep)
    ensures !keep(xs[k]) ==> Filter(xs, keep) == Filter(xs[..k], keep) + Filter(xs[k + 1..], keep)
  {
    SplitAt(xs, k);
    FilterAppend(xs[..k] + [xs[k]], xs[k + 1..], keep);
    FilterAppend(xs[..k], [xs[k]], keep);
    FilterSingle(xs[k], keep);
    if !keep(xs[k]) {
      assert Filter(xs[..k], keep) + [] == Filter(xs[..k], keep);
    }
  }

  lemma SplitAt<T>(xs: seq<T>, k: nat)
    requires k < |xs|
    ensures xs == xs[..k] + [xs[k]] + xs[k + 1..]
  {
    assert xs[..k] + [xs[k]] == xs[..k + 1];
  }

  lemma FilterSingle<T(!new)>(x: T, keep: T -> bool)
    ensures Filter([x], keep) == if keep(x) then [x] else []
  {
    assert [x][1..] == [];
  }

  /** A filter that keeps everything is the identity. */
  lemma {:induction false} FilterAll<T(!new)>(xs: seq<T>, keep: T -> bool)
    requires forall i :: 0 <= i < |xs| ==> keep(xs[i])
    ensures Filter(xs, keep) == xs
  {
    if xs != [] {
      FilterAll(xs[1..], keep);
    }
  }

  /** `key` strictly increases along `xs`. */
  predicate IncreasingBy<T>(xs: seq<T>, key: T -> int) {
    forall i, j :: 0 <= i < j < |xs| ==> key(xs[i]) < key(xs[j])
  }

  /** A filter preserves a strictly increasing key. */
  lemma {:induction false} FilterIncreasing<T(!new)>(xs: seq<T>, keep: T -> bool, key: T -> int)
    requires IncreasingBy(xs, key)
    ensures IncreasingBy(Filter(xs, keep), key)
  {
    if xs != [] {
      FilterIncreasing(xs[1..], keep, key);
      var rest := Filter(xs[1..], keep);
      if keep(xs[0]) {
        forall y | y in rest ensures key(xs[0]) < key(y) {
          var k :| 0 <= k < |xs[1..]| && xs[1..][k] == y;
          assert xs[k + 1] == y;
        }
        IncreasingCons(xs[0], rest, key);
        assert Filter(xs, keep) == [xs[0]] + rest;
      } else {
        assert Filter(xs, keep) == rest;
      }
    }
  }

  /** An element below everything of an increasing sequence can go in front. */
  lemma IncreasingCons<T>(x: T, rest: seq<T>, key: T -> int)
    requires IncreasingBy(rest, key)
    requires forall y :: y in rest ==> key(x) < key(y)
    ensures IncreasingBy([x] + rest, key)
  {
    var r := [x] + rest;
    forall i, j | 0 <= i < j < |r| ensures key(r[i]) < key(r[j]) {
      assert r[j] == rest[j - 1] && rest[j - 1] in rest;
      if i > 0 {
        assert r[i] == rest[i - 1];
      }
    }
  }

  /** A filter keeps a sequence free of duplicates. */
  lemma {:induction false} FilterNoDup<T(!new)>(xs: seq<T>, keep: T -> bool)
    requires NoDup(xs)
    ensures NoDup(Filter(xs, keep))
  {
    if xs != [] {
      FilterNoDup(xs[1..], keep);
      assert xs[0] !in xs[1..] by {
        forall k | 0 <= k < |xs[1..]| ensures xs[1..][k] != xs[0] {
          assert xs[1..][k] == xs[k + 1];
        }
      }
    }
  }

  function NotEqual<T(==)>(x: T): T -> bool {
    e => e != x
  }

  /** `xs.filter(e => e !== x)`. */
  function RemoveAll<T(==,!new)>(xs: seq<T>, x: T): (r: seq<T>)
    ensures x !in r
    ensures forall y :: y != x ==> (y in r <==> y in xs)
  {
    Filter(xs, NotEqual(x))
  }

  /** Removing an element that was just appended, and was not there before,
      gives back the original sequence. */
  lemma AppendThenRemove<T(!new)>(xs: seq<T>, x: T)
    requires x !in xs
    ensures RemoveAll(xs + [x], x) == xs
  {
    var keep := NotEqual(x);
    FilterAppend(xs, [x], keep);
    FilterAll(xs, keep);
    assert Filter([x], keep) == [];
  }

  /** The elements of `xs` that are not in `seen`, first occurrences only, in
      order of first occurrence: inserting `xs` into a JavaScript `Set` that
      already holds `seen` and reading the new members back. */
  function DedupFrom<T(==,!new)>(xs: seq<T>, seen: set<T>): (r: seq<T>)
    ensures NoDup(r)
    ensures forall x :: x in r <==> x in xs && x !in seen
  {
    if xs == [] then []
    else if xs[0] in seen then DedupFrom(xs[1..], seen)
    else [xs[0]] + DedupFrom(xs[1..], seen + {xs[0]})
  }

  /** `Array.from(new Set(xs))`. */
  function Dedup<T(==,!new)>(xs: seq<T>): (r: seq<T>)
    ensures NoDup(r)
    ensures forall x :: x in r <==> x in xs
  {
    DedupFrom(xs, {})
  }

  /** A `Set` keeps insertion order, so the first element survives in front. */
  lemma DedupKeepsFirst<T(!new)>(xs: seq<T>)
    requires xs != []
    ensures Dedup(xs) != [] && Dedup(xs)[0] == xs[0]
  {
  }

  lemma {:induction false} DedupFromNoDup<T(!new)>(xs: seq<T>, seen: set<T>)
    requires NoDup(xs)
    requires forall i :: 0 <= i < |xs| ==> xs[i] !in seen
    ensures DedupFrom(xs, seen) == xs
  {
    if xs != [] {
      assert NoDup(xs[1..]);
      forall i | 0 <= i < |xs[1..]| ensures xs[1..][i] !in seen + {xs[0]} {
        assert xs[1..][i] == xs[i + 1];
      }
      DedupFromNoDup(xs[1..], seen + {xs[0]});
    }
  }

  /** A sequence without duplicates is its own `Array.from(new Set(xs))`. */
  lemma DedupOfNoDup<T(!new)>(xs: seq<T>)
    requires NoDup(xs)
    ensures Dedup(xs) == xs
  {
    DedupFromNoDup(xs, {});
  }

  /** The index of the first element satisfying `p`, or -1: `xs.findIndex(p)`,
      and the row `findFirst` returns. */
  function FirstIndex<T>(xs: seq<T>, p: T -> bool): (i: int)
    ensures -1 <= i < |xs|
    ensures i >= 0 ==> p(xs[i])
    ensures forall j :: 0 <= j < |xs| && (i < 0 || j < i) ==> !p(xs[j])
  {
    if xs == [] then -1
    else if p(xs[0]) then 0
    else var k := FirstIndex(xs[1..], p); if k < 0 then -1 else k + 1
  }

  /** `xs` back to front. */
  function Reverse<T(!new)>(xs: seq<T>): (r: seq<T>)
    ensures |r| == |xs| && forall i :: 0 <= i < |xs| ==> r[i] == xs[|xs| - 1 - i]
    ensures forall x :: x in r <==> x in xs
  {
    if xs == [] then [] else Reverse(xs[1..]) + [xs[0]]
  }
}
