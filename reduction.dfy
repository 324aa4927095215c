// What the array-summing demos compute, stated on values: the sequential
// fold, the per-thread partial sums of the manual partition and of a
// runtime-chosen assignment of iterations to threads, and the merge of the
// partial sums into the shared accumulator in whatever order the threads
// reach the critical section.

module Reduction {
  import opened Partition

  /** The sequential loop `sum += s[i]` for i = 0, 1, ..., |s| - 1, starting from 0. */
  function Sum(s: seq<int>): (total: int)
  {
    if s == [] then 0 else Sum(s[..|s| - 1]) + s[|s| - 1]
  }

  /** Folding a concatenation is adding the folds of the parts. */
  lemma {:induction false} SumConcat(s: seq<int>, t: seq<int>)
    ensures Sum(s + t) == Sum(s) + Sum(t)
  {
    if t == [] {
      assert s + t == s;
    } else {
      var t' := t[..|t| - 1];
      assert (s + t)[..|s + t| - 1] == s + t';
      SumConcat(s, t');
    }
  }

  /** Folding a prefix is folding a shorter prefix and then the slice that follows it. */
  lemma SumSplit(s: seq<int>, i: int, j: int)
    requires 0 <= i <= j <= |s|
    ensures Sum(s[..j]) == Sum(s[..i]) + Sum(s[i..j])
  {
    assert s[..j] == s[..i] + s[i..j];
    SumConcat(s[..i], s[i..j]);
  }

  /** An array of ones sums to its length. */
  lemma {:induction false} SumOfOnes(s: seq<int>)
    requires forall i :: 0 <= i < |s| ==> s[i] == 1
    ensures Sum(s) == |s|
  {
    if s != [] {
      SumOfOnes(s[..|s| - 1]);
    }
  }

  /** Adding x to one entry adds x to the fold. */
  lemma {:induction false} SumUpdate(p: seq<int>, t: int, x: int)
    requires 0 <= t < |p|
    ensures Sum(p[t := p[t] + x]) == Sum(p) + x
  {
    var last := |p| - 1;
    if t == last {
      assert p[t := p[t] + x][..last] == p[..last];
    } else {
      assert p[t := p[t] + x][..last] == p[..last][t := p[t] + x];
      SumUpdate(p[..last], t, x);
    }
  }

  /** The thread ids 0, 1, ..., numt - 1 in increasing order. */
  function Iota(numt: nat): (ids: seq<int>)
  {
    seq(numt, tid => tid)
  }

  /** Every entry of `ids` is a thread id below numt. */
  predicate ThreadIds(ids: seq<int>, numt: int)
  {
    forall j :: 0 <= j < |ids| ==> 0 <= ids[j] < numt
  }

  /** `order` lists every thread id 0, ..., numt - 1 exactly once: the order in which the threads pass the critical section. */
  predicate IsPermutation(order: seq<int>, numt: nat)
  {
    ThreadIds(order, numt) && multiset(order) == multiset(Iota(numt))
  }

  /** The partial sums p, taken in the order the thread ids of `order` give. */
  function Scheduled(p: seq<int>, order: seq<int>): (merged: seq<int>)
    requires ThreadIds(order, |p|)
  {
    seq(|order|, j requires 0 <= j < |order| => p[order[j]])
  }

  /** Taking thread id o[k] out of an order removes one copy of it from the multiset. */
  lemma RemoveAt(o: seq<int>, k: int)
    requires 0 <= k < |o|
    ensures multiset(o[..k] + o[k + 1..]) == multiset(o) - multiset{o[k]}
  {
    assert o == o[..k] + [o[k]] + o[k + 1..];
  }

  /** Merging in an order is merging without its k-th thread and then adding that thread's partial sum. */
  lemma ScheduledSplit(p: seq<int>, o: seq<int>, k: int)
    requires ThreadIds(o, |p|) && 0 <= k < |o|
    ensures ThreadIds(o[..k] + o[k + 1..], |p|)
    ensures Sum(Scheduled(p, o)) == Sum(Scheduled(p, o[..k] + o[k + 1..])) + p[o[k]]
  {
    var rest := o[..k] + o[k + 1..];
    var front, back := Scheduled(p, o[..k]), Scheduled(p, o[k + 1..]);
    assert Scheduled(p, o) == front + [p[o[k]]] + back;
    assert Scheduled(p, rest) == front + back;
    SumConcat(front, back);
    SumConcat(front + [p[o[k]]], back);
    SumConcat(front, [p[o[k]]]);
  }

  /** Two orders holding the same thread ids the same number of times merge to the same total. */
  lemma {:induction false} ScheduledSumInvariant(p: seq<int>, o1: seq<int>, o2: seq<int>)
    requires ThreadIds(o1, |p|) && ThreadIds(o2, |p|)
    requires multiset(o1) == multiset(o2)
    ensures Sum(Scheduled(p, o1)) == Sum(Scheduled(p, o2))
  {
    if o1 == [] {
      assert |multiset(o2)| == 0;
    } else {
      var m := |o1| - 1;
      var x := o1[m];
      assert x in multiset(o2);
      var k :| 0 <= k < |o2| && o2[k] == x;
      RemoveAt(o1, m);
      RemoveAt(o2, k);
      assert o1[..m] + o1[m + 1..] == o1[..m];
      ScheduledSplit(p, o1, m);
      ScheduledSplit(p, o2, k);
      ScheduledSumInvariant(p, o1[..m], o2[..k] + o2[k + 1..]);
    }
  }

  /** Merging the partial sums into the accumulator in any order gives the fold of all of them. */
  lemma MergeAnyOrder(p: seq<int>, order: seq<int>)
    requires IsPermutation(order, |p|)
    ensures Sum(Scheduled(p, order)) == Sum(p)
  {
    ScheduledSumInvariant(p, order, Iota(|p|));
    assert Scheduled(p, Iota(|p|)) == p;
  }

  /** `psum` of thread tid under the manual partition: the fold of s[From..To]. */
  function RangeSum(s: seq<int>, numt: int, tid: int): (psum: int)
    requires 1 <= numt && 0 <= tid < numt
  {
    Sum(s[From(|s|, numt, tid)..To(|s|, numt, tid) + 1])
  }

  /** The partial sums of all threads under the manual partition, indexed by thread id. */
  function ThreadPartials(s: seq<int>, numt: int): (partials: seq<int>)
    requires 1 <= numt
  {
    seq(numt, tid requires 0 <= tid < numt => RangeSum(s, numt, tid))
  }

  /** One more partial sum extends the folded prefix by that thread's range. */
  lemma PrefixStep(s: seq<int>, p: seq<int>, k: int, from: int, to: int)
    requires 0 < k <= |p| && 0 <= from <= to + 1 <= |s|
    requires p[k - 1] == Sum(s[from..to + 1]) && Sum(p[..k - 1]) == Sum(s[..from])
    ensures Sum(p[..k]) == Sum(s[..to + 1])
  {
    SumSplit(p, k - 1, k);
    assert p[k - 1..k] == [p[k - 1]];
    SumSplit(s, from, to + 1);
  }

  /** The first k partial sums fold the prefix of s that ends where range k begins. */
  lemma {:induction false} ThreadPartialsPrefix(s: seq<int>, numt: int, k: int)
    requires 1 <= numt && 0 <= k <= numt
    ensures Sum(ThreadPartials(s, numt)[..k])
            == Sum(s[..if k == 0 then 0 else To(|s|, numt, k - 1) + 1])
  {
    if k > 0 {
      var n, p := |s|, ThreadPartials(s, numt);
      var from, to := From(n, numt, k - 1), To(n, numt, k - 1);
      ThreadPartialsPrefix(s, numt, k - 1);
      if k == 1 {
        Covers(n, numt);
      } else {
        Adjacent(n, numt, k - 2);
      }
      assert Sum(p[..k - 1]) == Sum(s[..from]);
      assert p[k - 1] == RangeSum(s, numt, k - 1);
      PrefixStep(s, p, k, from, to);
    }
  }

  /** Summing range by range over the manual partition gives the sequential sum. */
  lemma PartitionedSum(s: seq<int>, numt: int)
    requires 1 <= numt
    ensures Sum(ThreadPartials(s, numt)) == Sum(s)
  {
    ThreadPartialsPrefix(s, numt, numt);
    assert ThreadPartials(s, numt)[..numt] == ThreadPartials(s, numt);
    assert s[..|s|] == s;
  }

  /** Every thread's first index, indexed by thread id. */
  function Starts(n: int, numt: int): (lo: seq<int>)
    requires 0 <= n && 1 <= numt
  {
    seq(numt, t requires 0 <= t < numt => From(n, numt, t))
  }

  /** One past every thread's last index, indexed by thread id. */
  function Ends(n: int, numt: int): (hi: seq<int>)
    requires 0 <= n && 1 <= numt
  {
    seq(numt, t requires 0 <= t < numt => To(n, numt, t) + 1)
  }

  /** Every thread's loop index `next[t]` lies in `[lo[t], hi[t]]`, inside `[0, n]`. */
  predicate Within(lo: seq<int>, hi: seq<int>, next: seq<int>, n: int)
  {
    |lo| == |hi| == |next| &&
    forall t :: 0 <= t < |lo| ==> 0 <= lo[t] <= next[t] <= hi[t] <= n
  }

  /** The manual partition's loop indices, all at the start of their ranges. */
  lemma StartsWithin(n: int, numt: int)
    requires 0 <= n && 1 <= numt
    ensures Within(Starts(n, numt), Ends(n, numt), Starts(n, numt), n)
  {
  }

  /** The manual partition's loop indices, all one past the end of their ranges. */
  lemma EndsWithin(n: int, numt: int)
    requires 0 <= n && 1 <= numt
    ensures Within(Starts(n, numt), Ends(n, numt), Ends(n, numt), n)
  {
  }

  /**
   * The contributions the threads have made to the accumulator in the
   * per-element critical strategy when each thread t has added
   * s[lo[t]..next[t]], `next[t]` being the thread's private loop index.
   */
  function Progress(s: seq<int>, lo: seq<int>, hi: seq<int>, next: seq<int>): (added: seq<int>)
    requires Within(lo, hi, next, |s|)
  {
    seq(|lo|, t requires 0 <= t < |lo| => Sum(s[lo[t]..next[t]]))
  }

  /** Before any thread has added anything, the threads' contributions total zero. */
  lemma ProgressStart(s: seq<int>, lo: seq<int>, hi: seq<int>)
    requires Within(lo, hi, lo, |s|)
    ensures Sum(Progress(s, lo, hi, lo)) == 0
  {
    ZerosSum(Progress(s, lo, hi, lo));
  }

  /** Once every thread's loop index is past the end of its range, the contributions total the sequential sum. */
  lemma ProgressDone(s: seq<int>, numt: int)
    requires 1 <= numt
    ensures Within(Starts(|s|, numt), Ends(|s|, numt), Ends(|s|, numt), |s|)
    ensures Sum(Progress(s, Starts(|s|, numt), Ends(|s|, numt), Ends(|s|, numt))) == Sum(s)
  {
    var lo, hi := Starts(|s|, numt), Ends(|s|, numt);
    EndsWithin(|s|, numt);
    var done, partials := Progress(s, lo, hi, hi), ThreadPartials(s, numt);
    forall t | 0 <= t < numt
      ensures done[t] == partials[t]
    {
    }
    assert done == partials;
    PartitionedSum(s, numt);
  }

  /** Thread tid adding the element at its loop index and moving on adds that element to its own contribution only. */
  lemma ProgressUpdate(s: seq<int>, lo: seq<int>, hi: seq<int>, next: seq<int>, tid: int)
    requires Within(lo, hi, next, |s|) && 0 <= tid < |lo| && next[tid] < hi[tid]
    ensures Within(lo, hi, next[tid := next[tid] + 1], |s|)
    ensures Progress(s, lo, hi, next[tid := next[tid] + 1])
            == Progress(s, lo, hi, next)[tid := Progress(s, lo, hi, next)[tid] + s[next[tid]]]
  {
    var i := next[tid];
    var before, after := Progress(s, lo, hi, next), Progress(s, lo, hi, next[tid := i + 1]);
    forall t | 0 <= t < |lo|
      ensures after[t] == before[tid := before[tid] + s[i]][t]
    {
      if t == tid {
        assert s[lo[t]..i + 1][..i - lo[t]] == s[lo[t]..i];
      }
    }
  }

  /** Thread tid adding the element at its loop index and moving on adds that element to the total. */
  lemma ProgressStep(s: seq<int>, lo: seq<int>, hi: seq<int>, next: seq<int>, tid: int)
    requires Within(lo, hi, next, |s|) && 0 <= tid < |lo| && next[tid] < hi[tid]
    ensures Within(lo, hi, next[tid := next[tid] + 1], |s|)
    ensures Sum(Progress(s, lo, hi, next[tid := next[tid] + 1]))
            == Sum(Progress(s, lo, hi, next)) + s[next[tid]]
  {
    ProgressUpdate(s, lo, hi, next, tid);
    SumUpdate(Progress(s, lo, hi, next), tid, s[next[tid]]);
  }

  /**
   * `psum` of thread t when the runtime deals iteration i to thread
   * owner[i]: the fold, in index order, of the elements it was dealt.
   */
  function OwnedSum(s: seq<int>, owner: seq<int>, t: int): (psum: int)
    requires |s| <= |owner|
  {
    if s == [] then 0
    else OwnedSum(s[..|s| - 1], owner, t) + (if owner[|s| - 1] == t then s[|s| - 1] else 0)
  }

  /** The partial sums of all threads under the assignment `owner`, indexed by thread id. */
  function OwnedPartials(s: seq<int>, owner: seq<int>, numt: nat): (partials: seq<int>)
    requires |s| <= |owner|
  {
    seq(numt, t => OwnedSum(s, owner, t))
  }

  /** However the iterations are dealt to the threads, the partial sums together fold to the sequential sum. */
  lemma {:induction false} OwnedPartialsTotal(s: seq<int>, owner: seq<int>, numt: nat)
    requires |s| <= |owner| && ThreadIds(owner, numt)
    ensures Sum(OwnedPartials(s, owner, numt)) == Sum(s)
  {
    if s == [] {
      ZerosSum(OwnedPartials(s, owner, numt));
    } else {
      var m := |s| - 1;
      OwnedPartialsTotal(s[..m], owner, numt);
      var p := OwnedPartials(s[..m], owner, numt);
      assert OwnedPartials(s, owner, numt) == p[owner[m] := p[owner[m]] + s[m]];
      SumUpdate(p, owner[m], s[m]);
    }
  }

  /** A sequence of zeros folds to zero. */
  lemma {:induction false} ZerosSum(p: seq<int>)
    requires forall j :: 0 <= j < |p| ==> p[j] == 0
    ensures Sum(p) == 0
  {
    if p != [] {
      ZerosSum(p[..|p| - 1]);
    }
  }
}
