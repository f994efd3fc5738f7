/**
 * The array operations the TypeScript code relies on: `find`, `filter`,
 * `slice(0, n)` and the two de-duplication idioms it uses,
 * `Array.from(new Set(xs))` and `xs.filter((v, i, a) => a.indexOf(v) === i)`.
 */
module Seqs {
  import opened Wrappers

  /** `xs.findIndex(p)`: the first position whose element satisfies `p`. */
  function FindIndex<T>(xs: seq<T>, p: T -> bool): (r: Option<nat>)
    ensures r.Some? ==> r.value < |xs| && p(xs[r.value])
    ensures r.Some? ==> forall j :: 0 <= j < r.value ==> !p(xs[j])
    ensures r.None? <==> forall j :: 0 <= j < |xs| ==> !p(xs[j])
  {
    if |xs| == 0 then None
    else if p(xs[0]) then Some(0)
    else match FindIndex(xs[1..], p)
      case None => None
      case Some(k) => Some(k + 1)
  }

  /** `xs.find(p)`: the first element satisfying `p`. */
  function Find<T>(xs: seq<T>, p: T -> bool): (r: Option<T>)
    ensures r.Some? ==>
      exists i :: 0 <= i < |xs| && xs[i] == r.value && p(xs[i]) && forall j :: 0 <= j < i ==> !p(xs[j])
    ensures r.None? <==> forall j :: 0 <= j < |xs| ==> !p(xs[j])
  {
    match FindIndex(xs, p)
    case None => None
    case Some(i) => Some(xs[i])
  }

  /** The first hit of `p` is at `k` when `xs[k]` is a hit and nothing before it is. */
  lemma FindIndexAt<T>(xs: seq<T>, p: T -> bool, k: nat)
    requires k < |xs| && p(xs[k])
    requires forall j :: 0 <= j < k ==> !p(xs[j])
    ensures FindIndex(xs, p) == Some(k)
  {
    var r := FindIndex(xs, p);
    if r.value < k {
      assert false;
    }
  }

  /** Two tests that agree on every element find the same first hit. */
  lemma {:induction false} FindIndexCongruent<T>(xs: seq<T>, p: T -> bool, q: T -> bool)
    requires forall i :: 0 <= i < |xs| ==> p(xs[i]) == q(xs[i])
    ensures FindIndex(xs, p) == FindIndex(xs, q)
    decreases |xs|
  {
    if |xs| > 0 {
      FindIndexCongruent(xs[1..], p, q);
    }
  }

  /** `xs.filter(p)`. */
  function Filter<T>(xs: seq<T>, p: T -> bool): (r: seq<T>)
    ensures |r| <= |xs|
    ensures forall i :: 0 <= i < |r| ==> r[i] in xs && p(r[i])
    ensures forall i :: 0 <= i < |xs| && p(xs[i]) ==> xs[i] in r
    ensures |r| == 0 <==> forall i :: 0 <= i < |xs| ==> !p(xs[i])
  {
    if |xs| == 0 then []
    else if p(xs[0]) then [xs[0]] + Filter(xs[1..], p)
    else Filter(xs[1..], p)
  }

  /** Filtering distributes over concatenation. */
  lemma {:induction false} FilterAppend<T>(a: seq<T>, b: seq<T>, p: T -> bool)
    ensures Filter(a + b, p) == Filter(a, p) + Filter(b, p)
    decreases |a|
  {
    if |a| > 0 {
      assert (a + b)[0] == a[0];
      assert (a + b)[1..] == a[1..] + b;
      FilterAppend(a[1..], b, p);
    } else {
      assert a + b == b;
    }
  }

  /** `xs.slice(0, n)`: at most the first `n` elements. */
  function Take<T>(xs: seq<T>, n: nat): (r: seq<T>)
    ensures |r| <= n && |r| <= |xs|
    ensures |xs| <= n ==> r == xs
    ensures r == xs[..|r|]
  {
    if |xs| <= n then xs else xs[..n]
  }

  predicate NoDuplicates<T(==)>(xs: seq<T>) {
    forall i, j :: 0 <= i < j < |xs| ==> xs[i] != xs[j]
  }

  /** De-duplication through a set of already-seen elements, as `new Set(xs)` iterates. */
  function DedupSeen<T(==)>(xs: seq<T>, seen: set<T>): (r: seq<T>)
    ensures forall i :: 0 <= i < |r| ==> r[i] in xs && r[i] !in seen
    ensures forall i :: 0 <= i < |xs| && xs[i] !in seen ==> xs[i] in r
    ensures NoDuplicates(r)
  {
    if |xs| == 0 then []
    else if xs[0] in seen then DedupSeen(xs[1..], seen)
    else [xs[0]] + DedupSeen(xs[1..], seen + {xs[0]})
  }

  /** `Array.from(new Set(xs))`: the distinct elements in first-occurrence order. */
  function DedupBySet<T(==)>(xs: seq<T>): (r: seq<T>)
    ensures forall i :: 0 <= i < |r| ==> r[i] in xs
    ensures forall i :: 0 <= i < |xs| ==> xs[i] in r
    ensures NoDuplicates(r)
    ensures |xs| > 0 ==> |r| > 0 && r[0] == xs[0]
  {
    DedupSeen(xs, {})
  }

  /** `xs.filter((v, i, a) => a.indexOf(v) === i)`: keep position `i` iff `xs[i]` does not occur before it. */
  function DedupByIndexOf<T(==)>(xs: seq<T>): seq<T> {
    if |xs| == 0 then []
    else
      var init := xs[..|xs| - 1];
      var last := xs[|xs| - 1];
      DedupByIndexOf(init) + (if last in init then [] else [last])
  }

  /** Appending one element to the input of `DedupSeen` appends it to the output iff it is new. */
  lemma {:induction false} DedupSeenSnoc<T>(xs: seq<T>, x: T, seen: set<T>)
    ensures DedupSeen(xs + [x], seen)
      == DedupSeen(xs, seen) + (if x in seen || x in xs then [] else [x])
    decreases |xs|
  {
    if |xs| == 0 {
      assert xs + [x] == [x];
    } else {
      assert (xs + [x])[0] == xs[0];
      assert (xs + [x])[1..] == xs[1..] + [x];
      if xs[0] in seen {
        DedupSeenSnoc(xs[1..], x, seen);
      } else {
        DedupSeenSnoc(xs[1..], x, seen + {xs[0]});
      }
    }
  }

  /** The two de-duplication idioms of the source compute the same sequence. */
  lemma {:induction false} DedupIdiomsAgree<T>(xs: seq<T>)
    ensures DedupBySet(xs) == DedupByIndexOf(xs)
    decreases |xs|
  {
    if |xs| > 0 {
      var init := xs[..|xs| - 1];
      var last := xs[|xs| - 1];
      assert xs == init + [last];
      DedupSeenSnoc(init, last, {});
      DedupIdiomsAgree(init);
    }
  }
}
