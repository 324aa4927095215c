// The array-summing routines of OpenMPBasics: the ones initialiser, the
// sequential baseline, and the parallel strategies with the threads run one
// step at a time in an order given as a parameter. The shared accumulator
// `sum` enters each parallel region with the value `sum0` it holds there.

module Basics {
  import opened Partition
  import opened Reduction

  /** Sets every element of the array to 1. */
  method InitOnes(a: array<int>)
    modifies a
    ensures forall i :: 0 <= i < a.Length ==> a[i] == 1
  {
    var i := 0;
    while i < a.Length
      invariant 0 <= i <= a.Length
      invariant forall k :: 0 <= k < i ==> a[k] == 1
    {
      a[i] := 1;
      i := i + 1;
    }
  }

  /** The sequential baseline: adds the elements into `sum` in index order, starting from 0. */
  method SequentialSum(a: array<int>) returns (sum: int)
    ensures sum == Sum(a[..])
  {
    sum := 0;
    var i := 0;
    while i < a.Length
      invariant 0 <= i <= a.Length
      invariant sum == Sum(a[..i])
    {
      assert a[..i + 1][..i] == a[..i];
      sum := sum + a[i];
      i := i + 1;
    }
    assert a[..a.Length] == a[..];
  }

  /**
   * `steps` is an interleaving of the per-element critical sections: thread
   * tid occurs in it exactly as often as its range has elements, and its
   * k-th occurrence is the add of the k-th element of its range.
   */
  predicate IsInterleaving(steps: seq<int>, n: int, numt: int)
    requires 0 <= n && 1 <= numt
  {
    ThreadIds(steps, numt) &&
    forall tid :: 0 <= tid < numt ==>
      multiset(steps)[tid] == To(n, numt, tid) - From(n, numt, tid) + 1
  }

  /**
   * The number of steps thread t takes in `steps`, counted one step at a
   * time. IsInterleaving states the step counts as multiset multiplicities,
   * which is how a schedule is naturally described; the loop proof of the
   * critical strategy counts step by step instead, which lets a step be
   * taken off a prefix without multiset reasoning. CountIsMultiplicity
   * shows that the two agree.
   */
  function Count(steps: seq<int>, t: int): (c: nat)
    ensures c <= |steps|
  {
    if |steps| == 0 then 0
    else Count(steps[..|steps| - 1], t) + if steps[|steps| - 1] == t then 1 else 0
  }

  /** Count agrees with the multiplicity of t in the multiset of `steps`. */
  lemma {:induction false} CountIsMultiplicity(steps: seq<int>, t: int)
    ensures Count(steps, t) == multiset(steps)[t]
  {
    if |steps| > 0 {
      var init := steps[..|steps| - 1];
      CountIsMultiplicity(init, t);
      assert steps == init + [steps[|steps| - 1]];
    }
  }

  /** The steps of a concatenation are those of its two parts. */
  lemma {:induction false} CountConcat(u: seq<int>, v: seq<int>, t: int)
    ensures Count(u + v, t) == Count(u, t) + Count(v, t)
  {
    if |v| == 0 {
      assert u + v == u;
    } else {
      CountConcat(u, v[..|v| - 1], t);
      assert (u + v)[..|u + v| - 1] == u + v[..|v| - 1];
    }
  }

  /** Step k adds one to the count of the thread that takes it and leaves every other count alone. */
  lemma CountStep(steps: seq<int>, k: int, t: int)
    requires 0 <= k < |steps|
    ensures Count(steps[..k + 1], t) == Count(steps[..k], t) + if steps[k] == t then 1 else 0
  {
    assert steps[..k + 1][..k] == steps[..k];
  }

  /** Thread t occurs in `steps` exactly hi[t] - lo[t] times. */
  predicate Counts(steps: seq<int>, lo: seq<int>, hi: seq<int>)
    requires |lo| == |hi|
  {
    ThreadIds(steps, |lo|) &&
    forall t :: 0 <= t < |lo| ==> Count(steps, t) == hi[t] - lo[t]
  }

  /** An interleaving of the manual partition gives every thread as many steps as its range has elements. */
  lemma InterleavingCounts(steps: seq<int>, n: int, numt: int)
    requires 0 <= n && 1 <= numt && IsInterleaving(steps, n, numt)
    ensures Counts(steps, Starts(n, numt), Ends(n, numt))
  {
    forall t | 0 <= t < numt {
      CountIsMultiplicity(steps, t);
    }
  }

  /** After the first k steps of `steps`, every thread's loop index has moved once per step it took. */
  predicate Counted(steps: seq<int>, k: int, lo: seq<int>, next: seq<int>)
    requires 0 <= k <= |steps|
  {
    |next| == |lo| &&
    forall t :: 0 <= t < |lo| ==> next[t] == lo[t] + Count(steps[..k], t)
  }

  /**
   * The state of the per-element critical strategy after the first k steps
   * of `steps`: every thread's loop index has moved once per step it took
   * and stays in its range, and the threads have added `added` to `sum`.
   */
  predicate CriticalState(s: seq<int>, steps: seq<int>, k: int, lo: seq<int>, hi: seq<int>, next: seq<int>, added: int)
    requires 0 <= k <= |steps|
  {
    Counted(steps, k, lo, next) && Within(lo, hi, next, |s|) &&
    added == Sum(Progress(s, lo, hi, next))
  }

  /** The thread taking step k has not yet counted all of its steps; afterwards its count, and only its, has grown by one. */
  lemma CountedStep(steps: seq<int>, k: int, lo: seq<int>, hi: seq<int>, next: seq<int>)
    requires 0 <= k < |steps| && |lo| == |hi|
    requires Counts(steps, lo, hi) && Counted(steps, k, lo, next)
    ensures 0 <= steps[k] < |lo| && next[steps[k]] < hi[steps[k]]
    ensures Counted(steps, k + 1, lo, next[steps[k] := next[steps[k]] + 1])
  {
    var tid := steps[k];
    var moved := next[tid := next[tid] + 1];
    assert steps == steps[..k + 1] + steps[k + 1..];
    CountConcat(steps[..k + 1], steps[k + 1..], tid);
    forall t | 0 <= t < |lo|
      ensures moved[t] == lo[t] + Count(steps[..k + 1], t)
    {
      CountStep(steps, k, t);
    }
  }

  /** One critical add of step k: the stepping thread is still inside its range, its element joins the total and its loop index moves on. */
  lemma CriticalStep(s: seq<int>, steps: seq<int>, k: int, lo: seq<int>, hi: seq<int>, next: seq<int>, added: int)
    requires 0 <= k < |steps| && |lo| == |hi|
    requires Counts(steps, lo, hi) && CriticalState(s, steps, k, lo, hi, next, added)
    ensures 0 <= steps[k] < |lo| && 0 <= next[steps[k]] < hi[steps[k]] <= |s|
    ensures CriticalState(s, steps, k + 1, lo, hi, next[steps[k] := next[steps[k]] + 1], added + s[next[steps[k]]])
  {
    var tid := steps[k];
    CountedStep(steps, k, lo, hi, next);
    var moved := next[tid := next[tid] + 1];
    ProgressStep(s, lo, hi, next, tid);
    assert Counted(steps, k + 1, lo, moved) && Within(lo, hi, moved, |s|);
    assert added + s[next[tid]] == Sum(Progress(s, lo, hi, moved));
  }

  /** After the last step every thread has walked its whole range, so everything in the ranges has been added. */
  lemma CriticalDone(s: seq<int>, steps: seq<int>, lo: seq<int>, hi: seq<int>, next: seq<int>, added: int)
    requires |lo| == |hi| && Counts(steps, lo, hi)
    requires CriticalState(s, steps, |steps|, lo, hi, next, added)
    ensures next == hi && Within(lo, hi, hi, |s|) && added == Sum(Progress(s, lo, hi, hi))
  {
    assert steps[..|steps|] == steps;
    assert forall t :: 0 <= t < |next| ==> next[t] == hi[t];
  }

  /**
   * The critical adds of all threads, interleaved as `steps` says: thread t
   * walks the range [lo[t], hi[t]) with its private loop index `next[t]`
   * and adds every element straight into the shared `sum`.
   */
  method CriticalAdds(a: array<int>, steps: seq<int>, lo: seq<int>, ghost hi: seq<int>, sum0: int) returns (sum: int)
    requires |lo| == |hi| && Counts(steps, lo, hi) && Within(lo, hi, lo, a.Length)
    ensures Within(lo, hi, hi, a.Length) && sum == sum0 + Sum(Progress(a[..], lo, hi, hi))
  {
    ghost var s := seq(a.Length, i requires 0 <= i < a.Length reads a => a[i]);
    ProgressStart(s, lo, hi);
    assert steps[..0] == [];
    var next := lo;
    ghost var added := 0;
    sum := sum0;
    var k := 0;
    while k < |steps|
      invariant 0 <= k <= |steps|
      invariant CriticalState(s, steps, k, lo, hi, next, added)
      invariant sum == sum0 + added
    {
      var tid := steps[k];
      var i := next[tid];
      CriticalStep(s, steps, k, lo, hi, next, added);
      added := added + s[i];
      sum := sum + a[i];
      next := next[tid := i + 1];
      k := k + 1;
    }
    CriticalDone(s, steps, lo, hi, next, added);
    assert s == a[..];
  }

  /**
   * The per-element critical strategy: each thread walks its own range of
   * the manual partition and adds every element straight into the shared
   * `sum`, one critical section per element; the critical sections of the
   * threads interleave as `steps` says.
   */
  method CriticalSum(a: array<int>, numt: int, steps: seq<int>, sum0: int) returns (sum: int)
    requires 1 <= numt && IsInterleaving(steps, a.Length, numt)
    ensures sum == sum0 + Sum(a[..])
  {
    InterleavingCounts(steps, a.Length, numt);
    StartsWithin(a.Length, numt);
    sum := CriticalAdds(a, steps, Starts(a.Length, numt), Ends(a.Length, numt), sum0);
    ProgressDone(a[..], numt);
  }

  /** Thread tid's private loop of the partial-sum strategy: the fold of its own range into a local `psum`. */
  method RangePartialSum(a: array<int>, numt: int, tid: int) returns (psum: int)
    requires 1 <= numt && 0 <= tid < numt
    ensures psum == RangeSum(a[..], numt, tid)
  {
    var from := From(a.Length, numt, tid);
    var to := To(a.Length, numt, tid);
    psum := 0;
    var i := from;
    while i <= to
      invariant from <= i <= to + 1
      invariant psum == Sum(a[from..i])
    {
      assert a[from..i + 1][..i - from] == a[from..i];
      psum := psum + a[i];
      i := i + 1;
    }
  }

  /**
   * The partial-sum strategy: every thread folds its own range into `psum`
   * and adds it to the shared `sum` in one critical section; the threads
   * reach that section in the order `order`.
   */
  method PseudoSum(a: array<int>, numt: int, order: seq<int>, sum0: int) returns (sum: int)
    requires 1 <= numt && IsPermutation(order, numt)
    ensures sum == sum0 + Sum(a[..])
  {
    ghost var p := ThreadPartials(a[..], numt);
    ghost var merged := Scheduled(p, order);
    sum := sum0;
    var j := 0;
    while j < |order|
      invariant 0 <= j <= |order|
      invariant sum == sum0 + Sum(merged[..j])
    {
      var psum := RangePartialSum(a, numt, order[j]);
      assert merged[j] == psum;
      assert merged[..j + 1] == merged[..j] + [merged[j]];
      SumConcat(merged[..j], [merged[j]]);
      sum := sum + psum;
      j := j + 1;
    }
    assert merged[..|order|] == merged;
    MergeAnyOrder(p, order);
    PartitionedSum(a[..], numt);
  }

  /**
   * How the runtime shares out a work-shared loop: iteration i runs on
   * thread owner[i], and the threads reach the merge in the order `order`.
   */
  datatype Schedule = Schedule(numt: int, owner: seq<int>, order: seq<int>)

  predicate ValidSchedule(sched: Schedule, n: int)
  {
    1 <= sched.numt && |sched.owner| == n &&
    ThreadIds(sched.owner, sched.numt) && IsPermutation(sched.order, sched.numt)
  }

  /** Thread tid's share of a work-shared loop: the fold, in index order, of the iterations dealt to it. */
  method OwnedPartialSum(a: array<int>, owner: seq<int>, tid: int) returns (psum: int)
    requires |owner| == a.Length
    ensures psum == OwnedSum(a[..], owner, tid)
  {
    psum := 0;
    var i := 0;
    while i < a.Length
      invariant 0 <= i <= a.Length
      invariant psum == OwnedSum(a[..i], owner, tid)
    {
      assert a[..i + 1][..i] == a[..i];
      if owner[i] == tid {
        psum := psum + a[i];
      }
      i := i + 1;
    }
    assert a[..a.Length] == a[..];
  }

  /**
   * The work-shared strategy: the loop's iterations are dealt to the
   * threads as `sched` says, each thread folds its share into a local
   * `psum`, and adds it to the shared `sum` in one critical section.
   */
  method WorkSharedSum(a: array<int>, sched: Schedule, sum0: int) returns (sum: int)
    requires ValidSchedule(sched, a.Length)
    ensures sum == sum0 + Sum(a[..])
  {
    ghost var p := OwnedPartials(a[..], sched.owner, sched.numt);
    var order := sched.order;
    ghost var merged := Scheduled(p, order);
    sum := sum0;
    var j := 0;
    while j < |order|
      invariant 0 <= j <= |order|
      invariant sum == sum0 + Sum(merged[..j])
    {
      var psum := OwnedPartialSum(a, sched.owner, order[j]);
      assert merged[j] == psum;
      assert merged[..j + 1] == merged[..j] + [merged[j]];
      SumConcat(merged[..j], [merged[j]]);
      sum := sum + psum;
      j := j + 1;
    }
    assert merged[..|order|] == merged;
    MergeAnyOrder(p, order);
    OwnedPartialsTotal(a[..], sched.owner, sched.numt);
  }

  /**
   * SumCriticalInefficient: fill the array with ones, sum it sequentially,
   * reset `sum` and sum it again with one critical section per element.
   */
  method CriticalInefficientTrial(a: array<int>, numt: int, steps: seq<int>)
    returns (sequential: int, parallel: int)
    requires 1 <= numt && IsInterleaving(steps, a.Length, numt)
    modifies a
    ensures forall i :: 0 <= i < a.Length ==> a[i] == 1
    ensures sequential == a.Length && parallel == a.Length
  {
    InitOnes(a);
    SumOfOnes(a[..]);
    var sum := SequentialSum(a);
    sequential := sum;
    sum := 0;
    parallel := CriticalSum(a, numt, steps, sum);
  }

  /**
   * pseudosums: fill the array with ones, sum it sequentially, reset `sum`
   * and sum it again with one critical merge per thread.
   */
  method PseudoSumsTrial(a: array<int>, numt: int, order: seq<int>)
    returns (sequential: int, parallel: int)
    requires 1 <= numt && IsPermutation(order, numt)
    modifies a
    ensures forall i :: 0 <= i < a.Length ==> a[i] == 1
    ensures sequential == a.Length && parallel == a.Length
  {
    InitOnes(a);
    SumOfOnes(a[..]);
    var sum := SequentialSum(a);
    sequential := sum;
    sum := 0;
    parallel := PseudoSum(a, numt, order, sum);
  }

  /**
   * ForLoopsAndReduction: fill the array with ones, sum it sequentially,
   * then three more times, each after resetting `sum` to 0: a work-shared
   * loop with a critical merge, and the two reduction forms, where each
   * thread's private copy of `sum` starts at 0 and the copies are added to
   * the shared one. Each run has its own schedule.
   */
  method ForLoopsAndReductionTrial(a: array<int>, workShared: Schedule, reduction: Schedule, parallelFor: Schedule)
    returns (sequential: int, shared: int, reduced: int, parallelReduced: int)
    requires ValidSchedule(workShared, a.Length)
    requires ValidSchedule(reduction, a.Length)
    requires ValidSchedule(parallelFor, a.Length)
    modifies a
    ensures forall i :: 0 <= i < a.Length ==> a[i] == 1
    ensures sequential == a.Length && shared == a.Length
    ensures reduced == a.Length && parallelReduced == a.Length
  {
    InitOnes(a);
    SumOfOnes(a[..]);
    var sum := SequentialSum(a);
    sequential := sum;
    sum := 0;
    shared := WorkSharedSum(a, workShared, sum);
    sum := 0;
    reduced := WorkSharedSum(a, reduction, sum);
    sum := 0;
    parallelReduced := WorkSharedSum(a, parallelFor, sum);
  }
}
