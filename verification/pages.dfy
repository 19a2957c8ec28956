/**
 * The page loop of the harvester, for any per-page steps: pages are
 * visited in increasing order up to a page bound; a page that cannot be
 * fetched ends the loop; a fetched page is processed into the progress,
 * which is saved after every page, with a milestone backup on every tenth
 * page; and the loop also ends once the progress meets a stopping
 * condition.
 *
 * The loop does not look inside the steps; the harvester instantiates
 * them with its page fetch, its listing/detail processing and its venue
 * bound.
 */
module Pages {
  import opened Options
  import opened Snapshots

  /** A milestone snapshot is written for every page number divisible by this. */
  const MilestoneInterval := 10

  /**
   * The steps of a page loop: the page bound, whether a page can be
   * fetched, how a fetched page extends the progress, and when the progress
   * is enough to stop.
   */
  datatype Steps<!T> = Steps(
    maxPages: int,
    fetched: int -> bool,
    process: (int, seq<T>) -> seq<T>,
    stop: seq<T> -> bool)

  /** A milestone snapshot: the page it was written after and the items it holds. */
  datatype Milestone<T> = Milestone(page: int, items: seq<T>)

  /**
   * What a run produces: the items returned, the pages processed (fetched,
   * processed and saved), the page whose fetch failed and ended the run (if
   * any), the progress written after each processed page, and the milestone
   * snapshots.
   */
  datatype Run<T> = Run(
    items: seq<T>,
    processed: seq<int>,
    failedAt: Option<int>,
    checkpoints: seq<seq<T>>,
    milestones: seq<Milestone<T>>)

  /** The milestone written after processing `page`, if one is due. */
  function MilestoneFor<T>(page: int, items: seq<T>): seq<Milestone<T>>
  {
    if page % MilestoneInterval == 0 then [Milestone(page, items)] else []
  }

  /** The loop from page `page` with progress `acc`. */
  function PageLoop<T>(st: Steps<T>, page: int, acc: seq<T>): (r: Run<T>)
    ensures |r.checkpoints| == |r.processed|
    ensures forall k :: 0 <= k < |r.processed| ==> r.processed[k] == page + k && st.fetched(page + k)
    ensures page + |r.processed| <= st.maxPages + 1 || |r.processed| == 0
    ensures r.failedAt.Some? ==> r.failedAt.value == page + |r.processed| <= st.maxPages
    ensures r.failedAt.Some? ==> !st.fetched(r.failedAt.value)
    ensures r.failedAt.None? && !st.stop(r.items) ==> page + |r.processed| > st.maxPages
    // the loop goes on only while the stopping condition fails: every snapshot but the last misses it
    ensures forall k :: 0 <= k < |r.checkpoints| - 1 ==> !st.stop(r.checkpoints[k])
    // a loop that processed pages and ended before the page bound without a failure ended on the stopping condition
    ensures |r.processed| > 0 && r.failedAt.None? && page + |r.processed| <= st.maxPages ==> st.stop(r.items)
    decreases st.maxPages + 1 - page
  {
    if page > st.maxPages then Run(acc, [], None, [], [])
    else if !st.fetched(page) then Run(acc, [], Some(page), [], [])
    else
      var next := st.process(page, acc);
      var rest :=
        if st.stop(next) then Run(next, [], None, [], [])
        else PageLoop(st, page + 1, next);
      var processed := [page] + rest.processed;
      assert forall k :: 1 <= k < |processed| ==> processed[k] == rest.processed[k - 1];
      Run(rest.items, processed, rest.failedAt, [next] + rest.checkpoints, MilestoneFor(page, next) + rest.milestones)
  }

  /** The run after page `page` has been processed into `next`. */
  function After<T>(st: Steps<T>, page: int, next: seq<T>): Run<T>
    requires page <= st.maxPages
  {
    if st.stop(next) then Run(next, [], None, [], [])
    else PageLoop(st, page + 1, next)
  }

  /** One step of the page loop, spelled out. */
  lemma PageLoopStep<T>(st: Steps<T>, page: int, acc: seq<T>)
    requires page <= st.maxPages && st.fetched(page)
    ensures var r := PageLoop(st, page, acc);
      var next := st.process(page, acc);
      var rest := After(st, page, next);
      && r.items == rest.items
      && r.processed == [page] + rest.processed
      && r.failedAt == rest.failedAt
      && r.checkpoints == [next] + rest.checkpoints
      && r.milestones == MilestoneFor(page, next) + rest.milestones
  {
  }

  /** Processing a page only appends to the progress. */
  ghost predicate Grows<T(!new)>(st: Steps<T>) {
    forall page, acc :: acc <= st.process(page, acc)
  }

  /**
   * Every progress checkpoint holds a prefix of the returned items that
   * extends the starting progress, each extends the previous one, and the
   * last one holds exactly the returned items.
   */
  lemma {:induction false} Checkpoints<T(!new)>(st: Steps<T>, page: int, acc: seq<T>)
    requires Grows(st)
    ensures var r := PageLoop(st, page, acc);
      SnapshotChain(acc, r.checkpoints, r.items)
    decreases st.maxPages + 1 - page
  {
    if page <= st.maxPages && st.fetched(page) {
      var next := st.process(page, acc);
      PageLoopStep(st, page, acc);
      var rest := After(st, page, next);
      if !st.stop(next) {
        Checkpoints(st, page + 1, next);
      }
      assert SnapshotChain(next, rest.checkpoints, rest.items);
      SnapshotChainCons(acc, next, rest.checkpoints, rest.items);
    }
  }

  /**
   * Processing page `p` appends a prefix of `pageItems(p)`, all of it unless
   * the result meets the stopping condition.
   */
  ghost predicate AppendsPage<T(!new)>(st: Steps<T>, pageItems: int -> seq<T>) {
    forall page, acc ::
      && acc <= st.process(page, acc) <= acc + pageItems(page)
      && (st.process(page, acc) == acc + pageItems(page) || st.stop(st.process(page, acc)))
  }

  /** The parts joined in order. */
  function Concat<T>(parts: seq<seq<T>>): (r: seq<T>)
    decreases |parts|
  {
    if |parts| == 0 then [] else parts[0] + Concat(parts[1..])
  }

  /** The items of each of the given pages, in page order. */
  function PartsOf<T>(pageItems: int -> seq<T>, pages: seq<int>): (r: seq<seq<T>>)
    ensures |r| == |pages|
    ensures forall k :: 0 <= k < |pages| ==> r[k] == pageItems(pages[k])
    decreases |pages|
  {
    if |pages| == 0 then [] else [pageItems(pages[0])] + PartsOf(pageItems, pages[1..])
  }

  lemma PartsOfCons<T>(pageItems: int -> seq<T>, page: int, pages: seq<int>)
    ensures PartsOf(pageItems, [page] + pages) == [pageItems(page)] + PartsOf(pageItems, pages)
  {
    assert ([page] + pages)[1..] == pages;
  }

  /**
   * `items` is `acc` followed by the parts in order: all of every part but
   * the last and a prefix of the last one.
   */
  ghost predicate Gathered<T>(acc: seq<T>, parts: seq<seq<T>>, items: seq<T>) {
    && (|parts| == 0 ==> items == acc)
    && (|parts| > 0 ==> acc + Concat(parts[..|parts| - 1]) <= items)
    && items <= acc + Concat(parts)
  }

  lemma GatheredCons<T>(acc: seq<T>, part: seq<T>, parts: seq<seq<T>>, items: seq<T>)
    requires Gathered(acc + part, parts, items)
    ensures Gathered(acc, [part] + parts, items)
  {
    var all := [part] + parts;
    assert all[1..] == parts;
    if |parts| > 0 {
      var front := parts[..|parts| - 1];
      assert all[..|parts|] == [part] + front;
      assert ([part] + front)[1..] == front;
      Reassociate(acc, part, Concat(front));
      Reassociate(acc, part, Concat(parts));
    } else {
      assert all[..0] == [];
      assert Concat(all) == part + [];
    }
  }

  lemma GatheredLast<T>(acc: seq<T>, part: seq<T>, items: seq<T>)
    requires acc <= items <= acc + part
    ensures Gathered(acc, [part], items)
  {
    assert [part][..0] == [];
    assert Concat([part]) == part + [];
  }

  /**
   * The returned items are the starting progress followed by the items of
   * the processed pages in page order: every processed page but the last
   * contributes all its items, the last one a prefix of them.
   */
  lemma {:induction false} Contents<T(!new)>(st: Steps<T>, pageItems: int -> seq<T>, page: int, acc: seq<T>)
    requires AppendsPage(st, pageItems)
    ensures var r := PageLoop(st, page, acc);
      Gathered(acc, PartsOf(pageItems, r.processed), r.items)
    decreases st.maxPages + 1 - page
  {
    if page <= st.maxPages && st.fetched(page) {
      var next := st.process(page, acc);
      var part := pageItems(page);
      PageLoopStep(st, page, acc);
      var rest := After(st, page, next);
      PartsOfCons(pageItems, page, rest.processed);
      if st.stop(next) {
        GatheredLast(acc, part, next);
      } else {
        assert next == acc + part;
        Contents(st, pageItems, page + 1, next);
        GatheredCons(acc, part, PartsOf(pageItems, rest.processed), rest.items);
      }
    }
  }

  /** Processing a page never takes the progress past `max(bound, one more item)`, and below the bound it does not stop. */
  ghost predicate Bounded<T(!new)>(st: Steps<T>, bound: int) {
    && (forall page, acc :: |st.process(page, acc)| <= Max(bound, |acc| + 1))
    && (forall items :: !st.stop(items) ==> |items| < bound)
  }

  function Max(a: int, b: int): int {
    if a >= b then a else b
  }

  /** A run never ends with more items than the bound, or one more than it started with. */
  lemma {:induction false} RunBound<T(!new)>(st: Steps<T>, bound: int, page: int, acc: seq<T>)
    requires Bounded(st, bound)
    ensures |PageLoop(st, page, acc).items| <= Max(bound, |acc| + 1)
    decreases st.maxPages + 1 - page
  {
    if page <= st.maxPages && st.fetched(page) {
      var next := st.process(page, acc);
      PageLoopStep(st, page, acc);
      if !st.stop(next) {
        RunBound(st, bound, page + 1, next);
      }
    }
  }

  /** The processed pages on which a milestone is due: those divisible by the interval. */
  function MilestoneDue(pages: seq<int>): seq<int>
    decreases |pages|
  {
    if |pages| == 0 then []
    else (if pages[0] % MilestoneInterval == 0 then [pages[0]] else []) + MilestoneDue(pages[1..])
  }

  /** The page numbers of a sequence of milestone snapshots. */
  function MilestonePages<T>(ms: seq<Milestone<T>>): seq<int>
    decreases |ms|
  {
    if |ms| == 0 then [] else [ms[0].page] + MilestonePages(ms[1..])
  }

  /**
   * The milestones `ms` are written for exactly the pages of `processed`
   * divisible by the interval, and each holds the checkpoint written for
   * its page (pages are numbered consecutively from `start`).
   */
  ghost predicate MilestonesMatch<T>(start: int, processed: seq<int>, cks: seq<seq<T>>, ms: seq<Milestone<T>>) {
    && MilestonePages(ms) == MilestoneDue(processed)
    && forall i :: 0 <= i < |ms| ==>
         && start <= ms[i].page < start + |cks|
         && ms[i].items == cks[ms[i].page - start]
  }

  lemma {:induction false} MilestonesCons<T>(page: int, next: seq<T>, processed: seq<int>, cks: seq<seq<T>>, ms: seq<Milestone<T>>)
    requires MilestonesMatch(page + 1, processed, cks, ms)
    ensures MilestonesMatch(page, [page] + processed, [next] + cks, MilestoneFor(page, next) + ms)
  {
    var own := MilestoneFor(page, next);
    MilestoneDueCons(page, processed);
    MilestonesShift(page, next, cks, ms, own);
    assert MilestonePages(own) == if page % MilestoneInterval == 0 then [page] else [];
  }

  lemma MilestoneDueCons(page: int, processed: seq<int>)
    ensures MilestoneDue([page] + processed)
            == (if page % MilestoneInterval == 0 then [page] else []) + MilestoneDue(processed)
  {
    assert ([page] + processed)[1..] == processed;
  }

  lemma {:induction false} MilestonePagesAppend<T>(a: seq<Milestone<T>>, b: seq<Milestone<T>>)
    ensures MilestonePages(a + b) == MilestonePages(a) + MilestonePages(b)
    decreases |a|
  {
    if |a| > 0 {
      assert (a + b)[1..] == a[1..] + b;
      MilestonePagesAppend(a[1..], b);
    } else {
      assert a + b == b;
    }
  }

  /** Prepending page `page`'s own milestones (none, or its checkpoint) keeps the page/checkpoint match. */
  lemma {:induction false} MilestonesShift<T>(page: int, next: seq<T>, cks: seq<seq<T>>, ms: seq<Milestone<T>>, own: seq<Milestone<T>>)
    requires own == [] || own == [Milestone(page, next)]
    requires forall i :: 0 <= i < |ms| ==>
      && page + 1 <= ms[i].page < page + 1 + |cks|
      && ms[i].items == cks[ms[i].page - (page + 1)]
    ensures MilestonePages(own + ms) == MilestonePages(own) + MilestonePages(ms)
    ensures forall i :: 0 <= i < |own + ms| ==>
      && page <= (own + ms)[i].page < page + |[next] + cks|
      && (own + ms)[i].items == ([next] + cks)[(own + ms)[i].page - page]
  {
    var all := own + ms;
    var cks' := [next] + cks;
    MilestonePagesAppend(own, ms);
    if own == [] {
      assert all == ms;
      forall i | 0 <= i < |all|
        ensures page <= all[i].page < page + |cks'|
        ensures all[i].items == cks'[all[i].page - page]
      {
        var j := all[i].page - page;
        assert cks'[j] == cks[j - 1];
      }
    } else {
      assert all[1..] == ms;
      forall i | 0 <= i < |all|
        ensures page <= all[i].page < page + |cks'|
        ensures all[i].items == cks'[all[i].page - page]
      {
        if i > 0 {
          assert all[i] == ms[i - 1];
          var j := all[i].page - page;
          assert cks'[j] == cks[j - 1];
        }
      }
    }
  }

  /**
   * A milestone is written exactly for the processed pages divisible by the
   * interval, in page order, and holds the same items as the progress
   * checkpoint written for that page.
   */
  lemma {:induction false} Milestones<T>(st: Steps<T>, page: int, acc: seq<T>)
    ensures var r := PageLoop(st, page, acc);
      MilestonesMatch(page, r.processed, r.checkpoints, r.milestones)
    decreases st.maxPages + 1 - page
  {
    if page <= st.maxPages && st.fetched(page) {
      var next := st.process(page, acc);
      PageLoopStep(st, page, acc);
      var rest := After(st, page, next);
      if !st.stop(next) {
        Milestones(st, page + 1, next);
      }
      assert MilestonesMatch(page + 1, rest.processed, rest.checkpoints, rest.milestones);
      MilestonesCons(page, next, rest.processed, rest.checkpoints, rest.milestones);
    }
  }

  /**
   * Checkpoints make the run resumable: restarting at the page after a
   * checkpoint, from that checkpoint's items, yields the same items, pages,
   * failure and later checkpoints as the uninterrupted run.
   */
  lemma {:induction false} ResumeFromCheckpoint<T>(st: Steps<T>, page: int, acc: seq<T>, k: nat, resumePage: int, from: seq<T>)
    requires k < |PageLoop(st, page, acc).processed|
    requires resumePage == page + k + 1 && from == PageLoop(st, page, acc).checkpoints[k]
    requires !st.stop(from)
    ensures var r := PageLoop(st, page, acc);
      var resumed := PageLoop(st, resumePage, from);
      && resumed.items == r.items
      && resumed.processed == r.processed[k + 1..]
      && resumed.failedAt == r.failedAt
      && resumed.checkpoints == r.checkpoints[k + 1..]
    decreases k
  {
    var r := PageLoop(st, page, acc);
    assert page <= st.maxPages && st.fetched(page);
    var next := st.process(page, acc);
    PageLoopStep(st, page, acc);
    var rest := After(st, page, next);
    assert r.checkpoints[0] == next;
    if k == 0 {
      assert rest == PageLoop(st, page + 1, next);
      assert r.processed[1..] == rest.processed;
      assert r.checkpoints[1..] == rest.checkpoints;
    } else {
      assert |rest.processed| > 0;
      assert rest == PageLoop(st, page + 1, next);
      ShiftSlices(r, rest, page, next, k);
      ResumeFromCheckpoint(st, page + 1, next, k - 1, resumePage, from);
    }
  }

  /** Dropping one more leading page from a run drops one more page and snapshot. */
  lemma ShiftSlices<T>(r: Run<T>, rest: Run<T>, page: int, next: seq<T>, k: nat)
    requires r.processed == [page] + rest.processed && r.checkpoints == [next] + rest.checkpoints
    requires 0 < k < |r.processed| && |r.checkpoints| == |r.processed|
    ensures r.checkpoints[k] == rest.checkpoints[k - 1]
    ensures r.processed[k + 1..] == rest.processed[k..]
    ensures r.checkpoints[k + 1..] == rest.checkpoints[k..]
  {
  }
}
