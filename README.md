# OpenMPBasics array sums in Dafny

OpenMPBasics is a set of small OpenMP demos. Three of them sum a large global
array of ones in several ways and compare each parallel result with a
sequential loop:

- `SumCriticalInefficient` splits the index space `[0, ARR_SIZE)` by hand into
  one contiguous range per thread. Each thread adds every element of its range
  straight into the shared `sum`, with one critical section per element.
- `pseudosums` uses the same split. Each thread folds its range into a private
  `psum` and adds it to `sum` in a single critical section.
- `ForLoopsAndReduction` lets the runtime share out the loop. It sums once
  with a private `psum` and a critical merge, and then twice with
  `reduction(+: sum)`.

Before every parallel trial `sum` is reset to 0. Each routine starts by
filling the array with ones.

The model has three modules:

- `Partition` (partition.dfy) holds the hand-written range arithmetic
  `from = (n / numt) * tid` and `to = (n / numt) * (tid + 1) - 1`. The last
  thread's `to` is forced to `n - 1`. The arithmetic appears twice in the
  source, at Basics.cpp:320-324 and again at :388-392. The module proves that
  the ranges are adjacent, cover `[0, n)`, and give every index exactly one
  owner. It also proves that the last thread absorbs the remainder.
- `Reduction` (reduction.dfy) holds the specification on values: the
  sequential fold `Sum`, the per-thread partial sums, and the merge of partial
  sums in any order.
- `Basics` (basics.dfy) holds the routines themselves as methods over an
  `array<int>`, with loops and loop invariants. Each parallel strategy is
  proved to leave `sum0 + Sum(a[..])` in the shared accumulator, where `sum0`
  is the accumulator's value on entry to the region. Each trial method resets
  the accumulator to 0 and so returns exactly the array's length.

The threads are run one step at a time. The order of those steps is a
parameter that covers every schedule the runtime may choose:

- `steps` is any interleaving of the per-element critical sections.
  `Basics.Count` and its lemmas `Basics.CountIsMultiplicity`,
  `Basics.CountConcat` and `Basics.CountStep` are helpers of this
  interleaving model with no counterpart in the source. They count a
  thread's steps one at a time, and that count agrees with the multiset
  count that `Basics.IsInterleaving` uses.
- `order` is any permutation of the thread ids, giving the order in which the
  threads reach their single merge.
- `owner` is any assignment of loop iterations to threads, for the
  work-shared loops.

## Model

| member | source | states |
|---|---|---|
| `Partition.From` | OpenMPBasics/Basics.cpp:320 | A thread's first index lies in `[0, n]`. |
| `Partition.To` | OpenMPBasics/Basics.cpp:321-324 | A thread's last index is at most `n - 1` and at least `from - 1`, so a range is empty or well formed. |
| `Partition.ChunkBound` | OpenMPBasics/Basics.cpp:320-321 | `(n / numt) * k` stays in `[0, n]` for `0 <= k <= numt`. No product in the `from`/`to` computation exceeds `n`, so none overflows a C `int` when `n` fits in one. |
| `Partition.RangeLength` | OpenMPBasics/Basics.cpp:320-324 | Every thread but the last gets `n / numt` indices. The last thread gets `n / numt + n % numt`, absorbing the remainder. |
| `Partition.Adjacent` | OpenMPBasics/Basics.cpp:320-321 | `To(tid) + 1 == From(tid + 1)`, so consecutive ranges neither skip an index nor overlap. |
| `Partition.Covers` | OpenMPBasics/Basics.cpp:320-324 | The first range starts at 0 and the last ends at `n - 1`. |
| `Partition.OwnerUnique` | OpenMPBasics/Basics.cpp:320-324 | For every index `i < n`, `i` lies in thread `tid`'s range if and only if `tid == Owner(n, numt, i)`. So every index lies in exactly one range. `Owner` is defined independently of the ranges. |
| `Partition.MoreThreadsThanIndices` | OpenMPBasics/Basics.cpp:388-392 | When `numt > n`, every thread but the last gets `[0, -1]` (empty) and the last gets `[0, n - 1]`. |
| `Partition.Examples` | OpenMPBasics/Basics.cpp:320-324 | Ten indices over three threads split as `[0,2] [3,5] [6,9]`. With seven indices over four threads, the last range is `[3,6]` and absorbs index 6. |
| `Reduction.SumOfOnes` | OpenMPBasics/Basics.cpp:292-301 | An array of ones sums to its length. |
| `Reduction.ScheduledSumInvariant` | OpenMPBasics/Basics.cpp:397-399 | Two merge orders holding the same thread ids equally often add up to the same total. |
| `Reduction.MergeAnyOrder` | OpenMPBasics/Basics.cpp:397-399 | Adding the partial sums into the accumulator in any permutation of the thread ids gives the fold of all partial sums. |
| `Reduction.PartitionedSum` | OpenMPBasics/Basics.cpp:385-395 | The range sums over the hand-written partition add up to the sequential sum. |
| `Reduction.OwnedPartialsTotal` | OpenMPBasics/Basics.cpp:451-456 | For any assignment of iterations to threads, the threads' partial sums add up to the sequential sum. |
| `Reduction.ProgressStep` | OpenMPBasics/Basics.cpp:326-328 | One critical add by thread `tid` adds exactly the element at that thread's loop index to the total the threads have contributed, and the index stays within its range. |
| `Reduction.ProgressDone` | OpenMPBasics/Basics.cpp:326-329 | Under the manual partition, once every thread's loop index is one past the end of its range, the threads' contributions total the sequential sum. |
| `Basics.InterleavingCounts` | OpenMPBasics/Basics.cpp:320-328 | In an interleaving over the manual partition, thread `t` takes exactly `To(t) + 1 - From(t)` steps. |
| `Basics.CountedStep` | OpenMPBasics/Basics.cpp:326-328 | In any interleaving, the thread taking the next step has a loop index still below the end of its range, so the loop guard `i <= to` holds. Afterwards only that thread's index has advanced, by one. |
| `Basics.CriticalStep` | OpenMPBasics/Basics.cpp:326-328 | In any interleaving, a thread about to take a step has not yet run past the end of its range. Its element joins the total, and only its own loop index moves on. |
| `Basics.CriticalDone` | OpenMPBasics/Basics.cpp:326-329 | After the last step, every thread's loop index is one past the end of its range, and the total is the fold of every range. |
| `Basics.CriticalAdds` | OpenMPBasics/Basics.cpp:326-328 | For any interleaving of the per-element critical adds over ranges `[lo[t], hi[t])`, the accumulator ends at `sum0` plus the sum of every range. |
| `Basics.InitOnes` | OpenMPBasics/Basics.cpp:292-294 | Afterwards every element is 1. |
| `Basics.SequentialSum` | OpenMPBasics/Basics.cpp:299-301 | The in-order loop returns `Sum(a[..])`. |
| `Basics.CriticalSum` | OpenMPBasics/Basics.cpp:312-331 | For any interleaving of the per-element critical adds, the accumulator ends at `sum0 + Sum(a[..])`. |
| `Basics.RangePartialSum` | OpenMPBasics/Basics.cpp:385-395 | A thread's `psum` is the fold of `a[from..to]` over its own range. |
| `Basics.PseudoSum` | OpenMPBasics/Basics.cpp:380-401 | For any order of the per-thread merges, the accumulator ends at `sum0 + Sum(a[..])`. |
| `Basics.OwnedPartialSum` | OpenMPBasics/Basics.cpp:451-456 | A thread's `psum` in a work-shared loop is the fold of the elements dealt to it. |
| `Basics.WorkSharedSum` | OpenMPBasics/Basics.cpp:449-461 | For any assignment of iterations to threads and any merge order, the accumulator ends at `sum0 + Sum(a[..])`. |
| `Basics.CriticalInefficientTrial` | OpenMPBasics/Basics.cpp:287-341 | After the trial the array is all ones. The sequential and per-element critical sums are both `n`, because `sum` is reset before the parallel run. |
| `Basics.PseudoSumsTrial` | OpenMPBasics/Basics.cpp:354-410 | After the trial the array is all ones. The sequential and partial-sum results are both `n`. |
| `Basics.ForLoopsAndReductionTrial` | OpenMPBasics/Basics.cpp:424-502 | After the trial the array is all ones. The sequential sum, the work-shared sum and both reduction sums are all `n`, each under its own schedule. |

## Left out

- Threading runtime calls (`omp_get_thread_num`, `omp_get_num_threads`,
  `omp_set_num_threads`, `omp_get_num_procs`) are foreign calls. The thread
  count `numt`, the interleaving `steps`, the merge order `order` and the
  runtime's `Schedule` are parameters instead.
- Concurrency itself is not modelled: no memory model, no lock objects and
  no join. Threads are executed step by step in the order the parameters
  give. A thread's private loop over its own range touches only its own
  `psum`, so only the order of the shared adds matters.
- The runtime's policy for sharing out a work-shared loop and for combining
  `reduction(+: sum)` copies (:453-456, :475-493) is not modelled. Any
  assignment of iterations to threads is allowed. The reduction forms are
  modelled as what they compute: each thread's private copy starts at 0, and
  the copies are added to the shared `sum` in some order. That is the same
  arithmetic as `Basics.WorkSharedSum`, so `Basics.ForLoopsAndReductionTrial`
  reuses it.
- The routines do not validate the thread count. The runtime never reports
  fewer than one thread, so the model requires `numt >= 1` instead of
  modelling an invalid-configuration error the code does not have.
- The array is an arbitrary `array<int>` of length `n`, not the global
  300000000-element array.
- Sums and indices use mathematical integers, not 32-bit C `int`.
  `Partition.ChunkBound` shows that every product `(n / numt) * k` lies in
  `[0, n]`. So `from` lies in `[0, n]` and `to` lies in `[-1, n - 1]`. For
  the all-ones array the sums never exceed `n = 300000000 < 2^31 - 1`, so no
  value in the source's own runs leaves the range of `int`. Signed overflow
  is undefined behaviour in C++. It could happen on arrays with other
  contents, and it is not modelled.
- Every thread of a parallel region writes the shared `numt`
  (Basics.cpp:289 with :315, :356 with :383) without synchronisation,
  because `numt` is not in the `private` list. All threads write the same
  team size, so this benign race is collapsed into the single parameter
  `numt`.
- Timing (`omp_get_wtime`, `double` values) and all `printf` output are left
  out.
- `PrintHelloMultipleProcessors`, `UnderstandingVariables`,
  `UnderstandingBarriers` and `SingleMaster` (:70-260) are left out. They
  show thread synchronisation, data-sharing clauses and printing, and their
  output depends on scheduling.
- `TwoCritical` (:518-573) is left out. Its `psum` and `pprod` are shared and
  updated inside a nested `parallel for` without protection. That is a data
  race with no defined result. Its two named critical sections only matter
  for concurrency.
