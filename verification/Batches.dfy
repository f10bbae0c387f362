/** The batch splitter of `split_jsonl_batches`. */
module Batches {
  import opened Prelude

  function Sum(sizes: seq<nat>): nat {
    if sizes == [] then 0 else sizes[0] + Sum(sizes[1..])
  }

  predicate AllAtMost(sizes: seq<nat>, most: nat) {
    forall i :: 0 <= i < |sizes| ==> sizes[i] <= most
  }

  predicate AllAtLeast(sizes: seq<nat>, least: nat) {
    forall i :: 0 <= i < |sizes| ==> least <= sizes[i]
  }

  /** Sizes that split `total` within the limits. */
  predicate IsFairSplit(sizes: seq<nat>, total: nat, minBatch: nat, maxBatch: nat) {
    Sum(sizes) == total && AllAtLeast(sizes, minBatch) && AllAtMost(sizes, maxBatch)
  }

  lemma {:induction false} SumAppend(a: seq<nat>, b: seq<nat>)
    ensures Sum(a + b) == Sum(a) + Sum(b)
    decreases |a|
  {
    if a == [] {
      assert a + b == b;
    } else {
      assert (a + b)[0] == a[0] && (a + b)[1..] == a[1..] + b;
      SumAppend(a[1..], b);
    }
  }

  lemma {:induction false} SumBounds(sizes: seq<nat>, least: nat, most: nat)
    requires AllAtLeast(sizes, least) && AllAtMost(sizes, most)
    ensures |sizes| * least <= Sum(sizes) <= |sizes| * most
    decreases |sizes|
  {
    if sizes != [] {
      SumBounds(sizes[1..], least, most);
      assert |sizes| * least == least + |sizes[1..]| * least;
      assert |sizes| * most == most + |sizes[1..]| * most;
    }
  }

  /** `num_batches` is the fewest batches that can hold `total`. */
  lemma CeilingDivision(total: nat, maxBatch: nat)
    requires maxBatch > 0 && total > 0
    ensures var n := (total + maxBatch - 1) / maxBatch;
      n >= 1 && (n - 1) * maxBatch < total <= n * maxBatch
  {
    var n := (total + maxBatch - 1) / maxBatch;
    assert n * maxBatch <= total + maxBatch - 1 < (n + 1) * maxBatch;
    assert (n + 1) * maxBatch == n * maxBatch + maxBatch;
    assert (n - 1) * maxBatch == n * maxBatch - maxBatch;
  }

  lemma MulGrows(a: int, b: int, c: nat)
    ensures a <= b ==> a * c <= b * c
  {
    if a <= b {
      assert (b - a) * c >= 0;
      assert (b - a) * c == b * c - a * c;
    }
  }

  lemma FewerCannotHold(n: nat, k: nat, total: nat, maxBatch: nat)
    requires (n - 1) * maxBatch < total <= k * maxBatch
    ensures n <= k
  {
    MulGrows(k, n - 1, maxBatch);
  }

  lemma Share(total: nat, n: nat, minBatch: nat, maxBatch: nat)
    requires n > 0 && n * minBatch <= total <= n * maxBatch
    ensures minBatch <= total / n <= maxBatch
    ensures total % n > 0 ==> total / n + 1 <= maxBatch
    ensures total == n * (total / n) + total % n
  {
    var base := total / n;
    assert n * base <= total < n * (base + 1);
    MulGrows(base + 1, minBatch, n);
    MulGrows(maxBatch + 1, base, n);
    MulGrows(maxBatch, base, n);
    assert (maxBatch + 1) * n == maxBatch * n + n;
  }

  lemma {:induction false} EvenSum(sizes: seq<nat>, base: nat, remainder: nat)
    requires forall k :: 0 <= k < |sizes| ==> sizes[k] == if k < remainder then base + 1 else base
    ensures Sum(sizes) == |sizes| * base + if |sizes| < remainder then |sizes| else remainder
    decreases |sizes|
  {
    if sizes != [] {
      var front, last := sizes[..|sizes| - 1], sizes[|sizes| - 1];
      EvenSum(front, base, remainder);
      assert sizes == front + [last];
      SumAppend(front, [last]);
      assert |sizes| * base == |front| * base + base;
    }
  }

  lemma EvenSplit(sizes: seq<nat>, total: nat, minBatch: nat, maxBatch: nat)
    requires |sizes| > 0 && |sizes| * minBatch <= total <= |sizes| * maxBatch
    requires forall k :: 0 <= k < |sizes| ==>
      sizes[k] == if k < total % |sizes| then total / |sizes| + 1 else total / |sizes|
    ensures IsFairSplit(sizes, total, minBatch, maxBatch)
  {
    Share(total, |sizes|, minBatch, maxBatch);
    EvenSum(sizes, total / |sizes|, total % |sizes|);
  }

  lemma {:induction false} TailSplit(main: seq<nat>, tail: nat, minBatch: nat)
    requires forall k :: 0 <= k < |main| ==> main[k] == minBatch
    ensures Sum(main + [tail]) == |main| * minBatch + tail
  {
    SumBounds(main, minBatch, minBatch);
    SumAppend(main, [tail]);
    assert [tail][1..] == [];
  }

  /** `compute_batches`. The limits are the ones `validate_args` accepts. */
  method ComputeBatches(total: nat, minBatch: nat, maxBatch: nat) returns (sizes: seq<nat>)
    requires 1 <= minBatch <= maxBatch
    ensures Sum(sizes) == total && AllAtMost(sizes, maxBatch) && AllAtLeast(sizes, 1)
    // the fewest batches possible
    ensures forall other: seq<nat> :: Sum(other) == total && AllAtMost(other, maxBatch) ==> |sizes| <= |other|
    // within both limits exactly when that is possible
    ensures AllAtLeast(sizes, minBatch) <==> exists other: seq<nat> :: IsFairSplit(other, total, minBatch, maxBatch)
    // then the batches are even, larger ones first; otherwise only the last is too small
    ensures AllAtLeast(sizes, minBatch) ==> IsEven(sizes)
    ensures !AllAtLeast(sizes, minBatch) ==> forall i :: 0 <= i < |sizes| - 1 ==> sizes[i] == minBatch
  {
    if total == 0 {
      assert IsFairSplit([], total, minBatch, maxBatch);
      return [];
    }
    if total <= maxBatch {
      OneBatch(total, minBatch, maxBatch);
      return [total];
    }
    CeilingDivision(total, maxBatch);
    var numBatches := (total + maxBatch - 1) / maxBatch;
    Fewest(total, numBatches, maxBatch);
    if numBatches * minBatch <= total {
      sizes := EvenBatches(total, numBatches, minBatch, maxBatch);
    } else {
      var mainCount := numBatches - 1;
      TailIsPositive(total, numBatches, minBatch, maxBatch);
      var tail := total - mainCount * minBatch;
      NoFairSplit(total, numBatches, minBatch, maxBatch);
      sizes := seq(mainCount, _ => minBatch);
      TailSplit(sizes, tail, minBatch);
      sizes := sizes + [tail];
      assert sizes[mainCount] == tail;
    }
  }

  /** Larger batches come first and the sizes differ by at most one. */
  predicate IsEven(sizes: seq<nat>) {
    forall i, j :: 0 <= i <= j < |sizes| ==> sizes[j] <= sizes[i] <= sizes[j] + 1
  }

  /** The even distribution. */
  method EvenBatches(total: nat, n: nat, minBatch: nat, maxBatch: nat) returns (sizes: seq<nat>)
    requires n > 0 && n * minBatch <= total <= n * maxBatch
    ensures |sizes| == n && IsFairSplit(sizes, total, minBatch, maxBatch) && IsEven(sizes)
  {
    var base, remainder := total / n, total % n;
    sizes := [];
    for i := 0 to n
      invariant |sizes| == i && forall k :: 0 <= k < i ==> sizes[k] == if k < remainder then base + 1 else base
    {
      sizes := sizes + [if i < remainder then base + 1 else base];
    }
    EvenSplit(sizes, total, minBatch, maxBatch);
  }

  lemma OneBatch(total: nat, minBatch: nat, maxBatch: nat)
    requires 0 < total <= maxBatch
    ensures Sum([total]) == total
    ensures forall other: seq<nat> :: Sum(other) == total ==> 1 <= |other|
    ensures minBatch <= total <==> exists other: seq<nat> :: IsFairSplit(other, total, minBatch, maxBatch)
  {
    assert [total][1..] == [];
    if minBatch <= total {
      assert IsFairSplit([total], total, minBatch, maxBatch);
    }
    forall other: seq<nat> | IsFairSplit(other, total, minBatch, maxBatch)
      ensures minBatch <= total
    {
      assert other != [];
      assert minBatch <= other[0];
    }
  }

  lemma Fewest(total: nat, n: nat, maxBatch: nat)
    requires n >= 1 && (n - 1) * maxBatch < total
    ensures forall other: seq<nat> :: Sum(other) == total && AllAtMost(other, maxBatch) ==> n <= |other|
  {
    forall other: seq<nat> | Sum(other) == total && AllAtMost(other, maxBatch)
      ensures n <= |other|
    {
      SumBounds(other, 0, maxBatch);
      FewerCannotHold(n, |other|, total, maxBatch);
    }
  }

  lemma NoFairSplit(total: nat, n: nat, minBatch: nat, maxBatch: nat)
    requires n >= 1 && (n - 1) * maxBatch < total < n * minBatch
    ensures !exists other: seq<nat> :: IsFairSplit(other, total, minBatch, maxBatch)
  {
    forall other: seq<nat> | IsFairSplit(other, total, minBatch, maxBatch)
      ensures false
    {
      SumBounds(other, minBatch, maxBatch);
      FewerCannotHold(n, |other|, total, maxBatch);
      MulGrows(n, |other|, minBatch);
    }
  }

  lemma TailIsPositive(total: nat, n: nat, minBatch: nat, maxBatch: nat)
    requires n >= 1 && minBatch <= maxBatch && (n - 1) * maxBatch < total < n * minBatch
    ensures 0 < total - (n - 1) * minBatch < minBatch
  {
    assert (n - 1) * minBatch <= (n - 1) * maxBatch;
    assert n * minBatch == (n - 1) * minBatch + minBatch;
  }

  // -- Writing the batches -------------------------------------------------

  lemma {:induction false} PrefixSum(sizes: seq<nat>, i: nat)
    requires i < |sizes|
    ensures Sum(sizes[..i + 1]) == Sum(sizes[..i]) + sizes[i] <= Sum(sizes)
  {
    assert sizes[..i + 1] == sizes[..i] + [sizes[i]] && sizes == sizes[..i + 1] + sizes[i + 1..];
    SumAppend(sizes[..i], [sizes[i]]);
    SumAppend(sizes[..i + 1], sizes[i + 1..]);
    assert [sizes[i]][1..] == [];
  }

  lemma NextSlice(lines: seq<string>, offset: nat, size: nat)
    requires offset + size <= |lines|
    ensures lines[..offset] + lines[offset..offset + size] == lines[..offset + size]
  {
  }

  /** The first `i` batches are written: they have these sizes and are the first lines. */
  ghost predicate Written(batches: seq<seq<string>>, sizes: seq<nat>, lines: seq<string>, offset: nat, i: nat) {
    && |batches| == i <= |sizes| && offset == Sum(sizes[..i]) <= |lines| == Sum(sizes)
    && Flatten(batches) == lines[..offset]
    && forall k :: 0 <= k < i ==> |batches[k]| == sizes[k]
  }

  lemma WriteNext(batches: seq<seq<string>>, sizes: seq<nat>, lines: seq<string>, offset: nat, i: nat)
    requires Written(batches, sizes, lines, offset, i) && i < |sizes|
    ensures offset + sizes[i] <= |lines|
    ensures Written(batches + [lines[offset..offset + sizes[i]]], sizes, lines, offset + sizes[i], i + 1)
  {
    PrefixSum(sizes, i);
    NextSlice(lines, offset, sizes[i]);
    var batch := lines[offset..offset + sizes[i]];
    FlattenAppend(batches, [batch]);
    assert Flatten([batch]) == batch + [] == batch;
  }

  /** The slicing loop of `run`: the batches are the input cut into pieces, in order. */
  method SplitLines(lines: seq<string>, minBatch: nat, maxBatch: nat) returns (batches: seq<seq<string>>)
    requires 1 <= minBatch <= maxBatch
    ensures Flatten(batches) == lines
    ensures forall i :: 0 <= i < |batches| ==> 1 <= |batches[i]| <= maxBatch
    ensures forall other: seq<nat> :: Sum(other) == |lines| && AllAtMost(other, maxBatch) ==> |batches| <= |other|
  {
    var sizes := ComputeBatches(|lines|, minBatch, maxBatch);
    var offset: nat := 0;
    batches := [];
    for i := 0 to |sizes|
      invariant Written(batches, sizes, lines, offset, i)
    {
      WriteNext(batches, sizes, lines, offset, i);
      batches := batches + [lines[offset..offset + sizes[i]]];
      offset := offset + sizes[i];
    }
    assert sizes[..|sizes|] == sizes;
  }
}
