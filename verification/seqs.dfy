/** Sequence helpers shared by the move generator and the evaluation. */
module Seqs {

  /** The lists one after the other. */
  function Concat<T>(xss: seq<seq<T>>): seq<T>
  {
    if xss == [] then [] else Concat(xss[..|xss| - 1]) + xss[|xss| - 1]
  }

  lemma ConcatSnoc<T>(xss: seq<seq<T>>, k: nat)
    requires k < |xss|
    ensures Concat(xss[..k + 1]) == Concat(xss[..k]) + xss[k]
  {
    assert xss[..k + 1][..k] == xss[..k];
  }

  /** An element of the concatenation is an element of one of the lists. */
  lemma {:induction false} ConcatMembers<T>(xss: seq<seq<T>>, x: T)
    ensures x in Concat(xss) <==> exists i :: 0 <= i < |xss| && x in xss[i]
  {
    if xss != [] {
      var k := |xss| - 1;
      ConcatMembers(xss[..k], x);
      if x in Concat(xss[..k]) {
        var i :| 0 <= i < k && x in xss[..k][i];
        assert x in xss[i];
      }
      if exists i :: 0 <= i < |xss| && x in xss[i] {
        var i :| 0 <= i < |xss| && x in xss[i];
        if i < k {
          assert x in xss[..k][i];
        }
      }
    }
  }

  lemma AppendAssoc<T>(a: seq<T>, b: seq<T>, c: seq<T>)
    ensures (a + b) + c == a + (b + c)
  {
  }

  // ---------------------------------------------------------------------------
  // Rearranging a sequence

  /** `g` maps the indices below `n` one to one onto themselves, and `h` undoes it. */
  ghost predicate Bijection(n: nat, g: nat -> nat, h: nat -> nat)
  {
    forall i: nat :: i < n ==> g(i) < n && h(i) < n && g(h(i)) == i && h(g(i)) == i
  }

  /** `xs` read through the index map `g`: element `i` is `xs[g(i)]`. */
  function Permute<T>(xs: seq<T>, g: nat -> nat): (r: seq<T>)
    requires forall i: nat :: i < |xs| ==> g(i) < |xs|
    ensures |r| == |xs|
  {
    seq(|xs|, i requires 0 <= i < |xs| => xs[g(i)])
  }

  /**
   * Taking the last element out of a rearrangement: but for its last place, `Permute(xs, g)` is
   * a rearrangement `g'` of the other elements of `xs`, with the last element of `xs` written
   * over place `k` and the element that was there moved to the end.
   */
  lemma PermuteLast<T>(xs: seq<T>, g: nat -> nat, h: nat -> nat) returns (k: nat, g': nat -> nat, h': nat -> nat)
    requires |xs| > 0 && Bijection(|xs|, g, h)
    ensures k < |xs| && Bijection(|xs| - 1, g', h')
    ensures k == |xs| - 1 ==> Permute(xs, g) == Permute(xs[..|xs| - 1], g') + [xs[|xs| - 1]]
    ensures k < |xs| - 1 ==>
      var zs := Permute(xs[..|xs| - 1], g');
      Permute(xs, g) == zs[k := xs[|xs| - 1]] + [zs[k]]
  {
    var n := |xs| - 1;
    k, g', h' := DropLastMaps(n, g, h);
    PermuteDropLast(xs, g, g', k);
  }

  /** The index maps of `n + 1` places, with place `n` taken out: `k` is the place `g` sends to `n`. */
  lemma DropLastMaps(n: nat, g: nat -> nat, h: nat -> nat) returns (k: nat, g': nat -> nat, h': nat -> nat)
    requires Bijection(n + 1, g, h)
    ensures k <= n && g(k) == n && Bijection(n, g', h')
    ensures forall i: nat :: i < n ==> g'(i) == if i == k then g(n) else g(i)
  {
    k := h(n);
    var m := g(n);
    g' := i => if i == k then m else g(i);
    h' := j => if j == m then k else h(j);
    assert g(k) == n && h(m) == n;
    forall i: nat | i < n
      ensures g'(i) < n && h'(i) < n && g'(h'(i)) == i && h'(g'(i)) == i
    {
      assert h(g(i)) == i && g(h(i)) == i;
    }
  }

  /** The rearrangement of `xs` in terms of the rearrangement `g'` of all but its last element. */
  lemma PermuteDropLast<T>(xs: seq<T>, g: nat -> nat, g': nat -> nat, k: nat)
    requires |xs| > 0 && k < |xs| && g(k) == |xs| - 1
    requires forall i: nat :: i < |xs| ==> g(i) < |xs|
    requires forall i: nat :: i < |xs| - 1 ==> g'(i) < |xs| - 1 && g'(i) == if i == k then g(|xs| - 1) else g(i)
    ensures k == |xs| - 1 ==> Permute(xs, g) == Permute(xs[..|xs| - 1], g') + [xs[|xs| - 1]]
    ensures k < |xs| - 1 ==>
      var zs := Permute(xs[..|xs| - 1], g');
      Permute(xs, g) == zs[k := xs[|xs| - 1]] + [zs[k]]
  {
    var n := |xs| - 1;
    var ys := Permute(xs, g);
    var zs := Permute(xs[..n], g');
    if k == n {
      assert ys == zs + [xs[n]];
    } else {
      assert ys == zs[k := xs[n]] + [zs[k]];
    }
  }

  /** A rearrangement by a one-to-one index map keeps the elements and how often each occurs. */
  lemma {:induction false} PermuteMultiset<T>(xs: seq<T>, g: nat -> nat, h: nat -> nat)
    requires Bijection(|xs|, g, h)
    ensures multiset(Permute(xs, g)) == multiset(xs)
    decreases |xs|
  {
    if |xs| > 0 {
      var n := |xs| - 1;
      var k, g', h' := PermuteLast(xs, g, h);
      PermuteMultiset(xs[..n], g', h');
      var zs := Permute(xs[..n], g');
      if k < n {
        assert multiset(zs[k := xs[n]]) == multiset(zs) - multiset{zs[k]} + multiset{xs[n]};
      }
      assert xs == xs[..n] + [xs[n]];
    }
  }
}
