/** Facts about concatenation that the other modules use on their texts and logs. */
module Sequences {

  lemma AppendAssociates<T>(a: seq<T>, b: seq<T>, c: seq<T>)
    ensures a + (b + c) == a + b + c
  {
  }

  /** The three pieces of `x + y + z` are where they were put. */
  lemma Pieces<T>(x: seq<T>, y: seq<T>, z: seq<T>)
    ensures (x + y + z)[..|x|] == x
    ensures (x + y + z)[|x|..|x| + |y|] == y
    ensures (x + y + z)[|x| + |y|..] == z
    ensures forall n :: 0 <= n < |y| ==> (x + y + z)[|x| + n] == y[n]
  {
  }

  /** Appending an element keeps the earlier ones where they were. */
  lemma AppendOne<T>(prev: seq<T>, x: T)
    ensures |prev + [x]| == |prev| + 1 && (prev + [x])[|prev|] == x
    ensures forall k :: 0 <= k < |prev| ==> (prev + [x])[k] == prev[k]
  {
  }

  /**
    Appending a block of length `r` to `m` blocks of length `r`: the earlier
    blocks stay where they were and the new one is block `m`.
   */
  lemma AppendBlock<T>(prev: seq<T>, last: seq<T>, r: nat, m: nat, k: nat)
    requires |prev| == m * r && |last| == r && k <= m
    ensures |prev + last| == (m + 1) * r
    ensures k < m ==> (k + 1) * r <= |prev| && (prev + last)[k * r..(k + 1) * r] == prev[k * r..(k + 1) * r]
    ensures (prev + last)[m * r..(m + 1) * r] == last
  {
    assert (m + 1) * r == m * r + r;
    SliceOfAppend(prev, last, 0, 0);
    if k < m {
      MulMonotone(k + 1, m, r);
      SliceOfAppend(prev, last, k * r, (k + 1) * r);
    }
  }

  /** A slice inside the first part of a concatenation is a slice of that part. */
  lemma SliceOfAppend<T>(a: seq<T>, b: seq<T>, i: nat, j: nat)
    requires i <= j <= |a|
    ensures (a + b)[i..j] == a[i..j]
    ensures (a + b)[|a|..] == b
  {
  }

  lemma MulMonotone(a: int, b: int, s: nat)
    requires a <= b
    ensures a * s <= b * s
  {
    assert b * s == a * s + (b - a) * s;
  }

  /** The blocks `f(0)`, ..., `f(n - 1)` one after the other. */
  function Blocks<T>(f: nat -> seq<T>, n: nat): seq<T> {
    if n == 0 then [] else Blocks(f, n - 1) + f(n - 1)
  }

  lemma {:induction false} BlocksLength<T>(f: nat -> seq<T>, r: nat, n: nat)
    requires forall j: nat :: |f(j)| == r
    ensures |Blocks(f, n)| == n * r
  {
    if n > 0 {
      BlocksLength(f, r, n - 1);
      assert n * r == (n - 1) * r + r;
    }
  }

  /** With every block `r` long, block `k` sits at `k * r`. */
  lemma {:induction false} BlockAt<T>(f: nat -> seq<T>, r: nat, n: nat, k: nat)
    requires forall j: nat :: |f(j)| == r
    requires k < n
    ensures (k + 1) * r <= |Blocks(f, n)|
    ensures Blocks(f, n)[k * r..(k + 1) * r] == f(k)
  {
    BlocksLength(f, r, n - 1);
    AppendBlock(Blocks(f, n - 1), f(n - 1), r, n - 1, k);
    if k < n - 1 {
      BlockAt(f, r, n - 1, k);
    }
  }

  /** A slice of length one holds just the element at its start. */
  lemma SliceOne<T>(s: seq<T>, i: nat)
    requires i < |s|
    ensures s[i..i + 1] == [s[i]]
  {
  }
}
