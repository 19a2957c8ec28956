/**
 * The batch loop of the geocoding enricher, for any per-item step `f`:
 * `for i in range(start, len(items), batch_size)`, each batch's items
 * replaced by their images under `f` and appended to the progress, the
 * progress saved after every batch and a milestone backup after every fifth
 * batch number.
 *
 * The loop does not look inside `f`; the enricher instantiates it with its
 * per-venue update.
 */
module Batches {
  import opened Snapshots

  /** Every item of `xs` mapped by `f`, in order. */
  function MapAll<T>(xs: seq<T>, f: T -> T): (r: seq<T>)
    ensures |r| == |xs|
    ensures forall i :: 0 <= i < |xs| ==> r[i] == f(xs[i])
    decreases |xs|
  {
    if |xs| == 0 then [] else [f(xs[0])] + MapAll(xs[1..], f)
  }

  /** Mapping a concatenation is concatenating the mapped parts. */
  lemma MapAllAppend<T>(a: seq<T>, b: seq<T>, f: T -> T)
    ensures MapAll(a + b, f) == MapAll(a, f) + MapAll(b, f)
  {
    var l := MapAll(a + b, f);
    var ma := MapAll(a, f);
    var mb := MapAll(b, f);
    forall i | 0 <= i < |a| ensures l[i] == ma[i] {
      assert (a + b)[i] == a[i];
    }
    forall i | |a| <= i < |l| ensures l[i] == mb[i - |a|] {
      assert (a + b)[i] == b[i - |a|];
    }
    assert l == ma + mb;
  }

  /** `i // batch_size + 1`, the number of the batch starting at `i`. */
  function BatchNumber(i: nat, batchSize: int): (n: int)
    requires batchSize > 0
    ensures n >= 1
    ensures (n - 1) * batchSize <= i < n * batchSize
  {
    i / batchSize + 1
  }

  /** Batch starts one batch apart have consecutive numbers. */
  lemma BatchNumberStep(i: nat, batchSize: int)
    requires batchSize > 0
    ensures BatchNumber(i + batchSize, batchSize) == BatchNumber(i, batchSize) + 1
  {
    var q := i / batchSize;
    var r := i % batchSize;
    assert i + batchSize == (q + 1) * batchSize + r;
    DivUnique(i + batchSize, batchSize, q + 1, r);
  }

  /** Division is determined by quotient and remainder. */
  lemma DivUnique(x: int, b: int, q: int, r: int)
    requires b > 0 && 0 <= r < b && x == q * b + r
    ensures x / b == q
  {
    var q' := x / b;
    var r' := x % b;
    assert (q - q') * b == r' - r;
    if q > q' {
      MulAtLeast(q - q', b);
    } else if q < q' {
      MulAtLeast(q' - q, b);
    }
  }

  lemma MulAtLeast(k: int, b: int)
    requires k >= 1 && b > 0
    ensures k * b >= b
  {
  }

  const MilestoneEvery := 5

  /** The milestone backup written after a batch: its number and the items saved. */
  datatype BatchMilestone<T> = BatchMilestone(batch: int, items: seq<T>)

  /** A finished run: the items, the batch starts, the progress snapshots and the milestones. */
  datatype Run<T> = Run(
    items: seq<T>,
    starts: seq<nat>,
    checkpoints: seq<seq<T>>,
    milestones: seq<BatchMilestone<T>>)

  /** The end of the batch starting at `i`: `items[i:i + batch_size]` stops at the end of the list. */
  function BatchEnd(i: nat, batchSize: int, n: nat): (e: nat)
    requires batchSize > 0
    ensures e == i + batchSize || e == n
    ensures i < n ==> i < e <= n
  {
    if i + batchSize < n then i + batchSize else n
  }

  function MilestoneAfter<T>(number: int, items: seq<T>): seq<BatchMilestone<T>> {
    if number % MilestoneEvery == 0 then [BatchMilestone(number, items)] else []
  }

  /** `for i in range(i, len(xs), batch_size)`, with progress `acc` so far. */
  function BatchLoop<T>(xs: seq<T>, batchSize: int, i: nat, acc: seq<T>, f: T -> T): (r: Run<T>)
    requires batchSize > 0
    ensures |r.checkpoints| == |r.starts|
    decreases |xs| - i
  {
    if i >= |xs| then Run(acc, [], [], [])
    else
      var next := acc + MapAll(xs[i..BatchEnd(i, batchSize, |xs|)], f);
      var rest := BatchLoop(xs, batchSize, i + batchSize, next, f);
      Run(rest.items, [i] + rest.starts, [next] + rest.checkpoints,
          MilestoneAfter(BatchNumber(i, batchSize), next) + rest.milestones)
  }

  /** The loop after the batch at `i`. */
  function AfterBatch<T>(xs: seq<T>, batchSize: int, i: nat, acc: seq<T>, f: T -> T): Run<T>
    requires batchSize > 0 && i < |xs|
  {
    BatchLoop(xs, batchSize, i + batchSize, acc + MapAll(xs[i..BatchEnd(i, batchSize, |xs|)], f), f)
  }

  lemma BatchLoopStep<T>(xs: seq<T>, batchSize: int, i: nat, acc: seq<T>, f: T -> T)
    requires batchSize > 0 && i < |xs|
    ensures var r := BatchLoop(xs, batchSize, i, acc, f);
      var next := acc + MapAll(xs[i..BatchEnd(i, batchSize, |xs|)], f);
      var rest := AfterBatch(xs, batchSize, i, acc, f);
      && r.items == rest.items
      && r.starts == [i] + rest.starts
      && r.checkpoints == [next] + rest.checkpoints
      && r.milestones == MilestoneAfter(BatchNumber(i, batchSize), next) + rest.milestones
  {
  }

  /**
   * The batches start at `i`, one batch apart, until the end of the list,
   * and progress is saved after every batch, covering the items up to the
   * batch's end.
   */
  ghost predicate Schedule<T>(n: nat, batchSize: int, i: nat, base: nat, starts: seq<nat>, cks: seq<seq<T>>)
    requires batchSize > 0
  {
    && |cks| == |starts|
    && (|starts| == 0 <==> i >= n)
    && (|starts| > 0 ==> starts[0] == i && starts[|starts| - 1] + batchSize >= n)
    && (forall k :: 0 <= k < |starts| ==> 0 <= starts[k] < n)
    && (forall k :: 0 <= k < |starts| - 1 ==> starts[k + 1] == starts[k] + batchSize)
    && (forall k :: 0 <= k < |starts| ==> |cks[k]| == base + BatchEnd(starts[k], batchSize, n) - i)
  }

  lemma ScheduleCons<T>(n: nat, batchSize: int, i: nat, base: nat, next: seq<T>, starts: seq<nat>, cks: seq<seq<T>>)
    requires batchSize > 0 && i < n
    requires |next| == base + BatchEnd(i, batchSize, n) - i
    requires Schedule(n, batchSize, i + batchSize, |next|, starts, cks)
    ensures Schedule(n, batchSize, i, base, [i] + starts, [next] + cks)
  {
    var s := [i] + starts;
    var c := [next] + cks;
    forall k | 1 <= k < |s| ensures 0 <= s[k] < n && |c[k]| == base + BatchEnd(s[k], batchSize, n) - i {
      assert s[k] == starts[k - 1] && c[k] == cks[k - 1];
    }
    forall k | 0 <= k < |s| - 1 ensures s[k + 1] == s[k] + batchSize {
      assert s[k + 1] == starts[k];
    }
  }

  lemma {:induction false} BatchSchedule<T>(xs: seq<T>, batchSize: int, i: nat, acc: seq<T>, f: T -> T)
    requires batchSize > 0
    ensures var r := BatchLoop(xs, batchSize, i, acc, f);
      Schedule(|xs|, batchSize, i, |acc|, r.starts, r.checkpoints)
    decreases |xs| - i
  {
    if i < |xs| {
      var next := acc + MapAll(xs[i..BatchEnd(i, batchSize, |xs|)], f);
      BatchLoopStep(xs, batchSize, i, acc, f);
      BatchSchedule(xs, batchSize, i + batchSize, next, f);
      var rest := AfterBatch(xs, batchSize, i, acc, f);
      ScheduleCons(|xs|, batchSize, i, |acc|, next, rest.starts, rest.checkpoints);
    }
  }

  /** The items from index `i` on, mapped (none when `i` is past the end). */
  function Remaining<T>(xs: seq<T>, i: nat, f: T -> T): (r: seq<T>)
    ensures |r| == if i < |xs| then |xs| - i else 0
  {
    if i < |xs| then MapAll(xs[i..], f) else []
  }

  /** Past the end, every index leaves nothing. */
  lemma RemainingAt<T>(xs: seq<T>, j: nat, e: nat, f: T -> T)
    requires j == e || (e == |xs| && j >= e)
    ensures Remaining(xs, j, f) == Remaining(xs, e, f)
  {
  }

  lemma RemainingSplit<T>(xs: seq<T>, i: nat, e: nat, f: T -> T)
    requires i <= e <= |xs|
    ensures Remaining(xs, i, f) == if i < |xs| then MapAll(xs[i..e], f) + Remaining(xs, e, f) else []
  {
    if i < |xs| {
      assert xs[i..] == xs[i..e] + xs[e..];
      MapAllAppend(xs[i..e], xs[e..], f);
      if e == |xs| {
        assert xs[e..] == [];
      }
    }
  }

  /** The loop returns the progress followed by every item from `i` on, mapped, in order. */
  lemma {:induction false} BatchContents<T>(xs: seq<T>, batchSize: int, i: nat, acc: seq<T>, f: T -> T)
    requires batchSize > 0
    ensures BatchLoop(xs, batchSize, i, acc, f).items == acc + Remaining(xs, i, f)
    decreases |xs| - i
  {
    if i < |xs| {
      var e := BatchEnd(i, batchSize, |xs|);
      var batch := MapAll(xs[i..e], f);
      var tail := Remaining(xs, e, f);
      BatchLoopStep(xs, batchSize, i, acc, f);
      assert BatchLoop(xs, batchSize, i, acc, f).items == BatchLoop(xs, batchSize, i + batchSize, acc + batch, f).items;
      BatchContents(xs, batchSize, i + batchSize, acc + batch, f);
      RemainingAt(xs, i + batchSize, e, f);
      assert BatchLoop(xs, batchSize, i + batchSize, acc + batch, f).items == (acc + batch) + tail;
      RemainingSplit(xs, i, e, f);
      assert Remaining(xs, i, f) == batch + tail;
      Reassociate(acc, batch, tail);
    } else {
      assert acc + [] == acc;
    }
  }

  /**
   * Every progress snapshot extends the loaded progress and is a prefix of
   * the returned items; each extends the one before, and the last one is
   * the returned list.
   */
  lemma {:induction false} BatchCheckpoints<T>(xs: seq<T>, batchSize: int, i: nat, acc: seq<T>, f: T -> T)
    requires batchSize > 0
    ensures var r := BatchLoop(xs, batchSize, i, acc, f);
      SnapshotChain(acc, r.checkpoints, r.items)
    decreases |xs| - i
  {
    if i < |xs| {
      var next := acc + MapAll(xs[i..BatchEnd(i, batchSize, |xs|)], f);
      BatchLoopStep(xs, batchSize, i, acc, f);
      BatchCheckpoints(xs, batchSize, i + batchSize, next, f);
      var rest := AfterBatch(xs, batchSize, i, acc, f);
      SnapshotChainCons(acc, next, rest.checkpoints, rest.items);
    }
  }

  /** The milestones due for batches starting at `starts` with snapshots `cks`: every fifth batch number. */
  function DueMilestones<T>(starts: seq<nat>, cks: seq<seq<T>>, batchSize: int): seq<BatchMilestone<T>>
    requires batchSize > 0 && |starts| == |cks|
    decreases |starts|
  {
    if |starts| == 0 then []
    else MilestoneAfter(BatchNumber(starts[0], batchSize), cks[0]) + DueMilestones(starts[1..], cks[1..], batchSize)
  }

  lemma DueMilestonesCons<T>(i: nat, next: seq<T>, starts: seq<nat>, cks: seq<seq<T>>, batchSize: int)
    requires batchSize > 0 && |starts| == |cks|
    ensures DueMilestones([i] + starts, [next] + cks, batchSize)
            == MilestoneAfter(BatchNumber(i, batchSize), next) + DueMilestones(starts, cks, batchSize)
  {
    assert ([i] + starts)[1..] == starts;
    assert ([next] + cks)[1..] == cks;
  }

  lemma {:induction false} MilestoneList<T>(xs: seq<T>, batchSize: int, i: nat, acc: seq<T>, f: T -> T)
    requires batchSize > 0
    ensures var r := BatchLoop(xs, batchSize, i, acc, f);
      r.milestones == DueMilestones(r.starts, r.checkpoints, batchSize)
    decreases |xs| - i
  {
    if i < |xs| {
      var next := acc + MapAll(xs[i..BatchEnd(i, batchSize, |xs|)], f);
      BatchLoopStep(xs, batchSize, i, acc, f);
      MilestoneList(xs, batchSize, i + batchSize, next, f);
      var rest := AfterBatch(xs, batchSize, i, acc, f);
      DueMilestonesCons(i, next, rest.starts, rest.checkpoints, batchSize);
    }
  }

  /** Starts one batch apart have consecutive batch numbers. */
  lemma ConsecutiveNumbers(starts: seq<nat>, batchSize: int)
    requires batchSize > 0
    requires forall k :: 0 <= k < |starts| - 1 ==> starts[k + 1] == starts[k] + batchSize
    ensures forall k :: 0 <= k < |starts| - 1 ==>
              BatchNumber(starts[k + 1], batchSize) == BatchNumber(starts[k], batchSize) + 1
  {
    forall k | 0 <= k < |starts| - 1
      ensures BatchNumber(starts[k + 1], batchSize) == BatchNumber(starts[k], batchSize) + 1
    {
      BatchNumberStep(starts[k], batchSize);
    }
  }

  /**
   * A milestone backup is written after exactly the batches whose number is
   * a multiple of 5, holding that batch's progress snapshot; and the batch
   * numbers of consecutive batches are consecutive.
   */
  lemma BatchMilestones<T>(xs: seq<T>, batchSize: int, i: nat, acc: seq<T>, f: T -> T)
    requires batchSize > 0
    ensures var r := BatchLoop(xs, batchSize, i, acc, f);
      && r.milestones == DueMilestones(r.starts, r.checkpoints, batchSize)
      && forall k :: 0 <= k < |r.starts| - 1 ==>
           BatchNumber(r.starts[k + 1], batchSize) == BatchNumber(r.starts[k], batchSize) + 1
  {
    var r := BatchLoop(xs, batchSize, i, acc, f);
    MilestoneList(xs, batchSize, i, acc, f);
    BatchSchedule(xs, batchSize, i, acc, f);
    ConsecutiveNumbers(r.starts, batchSize);
  }

  /** `start_index` after the resume rule: non-empty progress and a zero start resume after the progress. */
  function ResumeIndex(progressLength: nat, startIndex: nat): (s: nat)
    ensures progressLength > 0 && startIndex == 0 ==> s == progressLength
    ensures progressLength == 0 || startIndex != 0 ==> s == startIndex
  {
    if progressLength > 0 && startIndex == 0 then progressLength else startIndex
  }

  /** The loop run on loaded progress, from the index the resume rule picks. */
  function Resume<T>(xs: seq<T>, batchSize: int, startIndex: nat, progress: seq<T>, f: T -> T): (r: Run<T>)
    requires batchSize > 0
    ensures var s := ResumeIndex(|progress|, startIndex);
      && r.items == progress + Remaining(xs, s, f)
      && |r.items| == |progress| + (if s < |xs| then |xs| - s else 0)
  {
    var s := ResumeIndex(|progress|, startIndex);
    BatchContents(xs, batchSize, s, progress, f);
    BatchLoop(xs, batchSize, s, progress, f)
  }

  /**
   * Resuming completes an interrupted run: when the saved progress is the
   * image of the first items, resuming from index 0 yields the image of the
   * whole list.
   */
  lemma ResumeCompletes<T>(xs: seq<T>, batchSize: int, progress: seq<T>, f: T -> T)
    requires batchSize > 0 && |progress| <= |xs|
    requires progress == MapAll(xs[..|progress|], f)
    ensures Resume(xs, batchSize, 0, progress, f).items == MapAll(xs, f)
  {
    var p := |progress|;
    assert xs == xs[..p] + xs[p..];
    MapAllAppend(xs[..p], xs[p..], f);
    if p == |xs| {
      assert xs[p..] == [];
    }
  }

  /** A prefix of the image of `xs` is the image of the matching prefix of `xs`. */
  lemma PrefixOfImage<T>(xs: seq<T>, f: T -> T, c: seq<T>)
    requires c <= MapAll(xs, f)
    ensures |c| <= |xs| && c == MapAll(xs[..|c|], f)
  {
    var m := MapAll(xs, f);
    forall i | 0 <= i < |c| ensures c[i] == f(xs[..|c|][i]) {
      assert c[i] == m[i];
    }
  }

  /** Every snapshot of a fresh run is such a resumable progress. */
  lemma CheckpointsResumable<T>(xs: seq<T>, batchSize: int, f: T -> T, k: nat)
    requires batchSize > 0
    requires k < |BatchLoop(xs, batchSize, 0, [], f).checkpoints|
    ensures var c := BatchLoop(xs, batchSize, 0, [], f).checkpoints[k];
      |c| <= |xs| && c == MapAll(xs[..|c|], f)
  {
    var r := BatchLoop(xs, batchSize, 0, [], f);
    BatchContents(xs, batchSize, 0, [], f);
    BatchCheckpoints(xs, batchSize, 0, [], f);
    assert xs[0..] == xs;
    assert r.items == Remaining(xs, 0, f) == MapAll(xs, f);
    PrefixOfImage(xs, f, r.checkpoints[k]);
  }
}
