/**
 * `deduplicate_venues`: count the names, report the duplicated ones, and
 * keep the first venue of each name.
 */
module Dedup {
  import opened Venues

  /** The first venue of each name, in input order (the reference definition). */
  function KeepFirst(vs: seq<Venue>): (r: seq<Venue>)
    ensures |r| <= |vs|
    ensures DistinctNames(r)
    ensures NameSet(r) == NameSet(vs)
    decreases |vs|
  {
    if |vs| == 0 then []
    else
      var front := vs[..|vs| - 1];
      var last := vs[|vs| - 1];
      var kept := KeepFirst(front);
      if last.name in NameSet(front) then kept
      else
        NameSetLast(vs);
        NameSetSnoc(kept, last);
        kept + [last]
  }

  lemma NameSetSnoc(vs: seq<Venue>, v: Venue)
    ensures NameSet(vs + [v]) == NameSet(vs) + {v.name}
  {
    var all := vs + [v];
    forall n | n in NameSet(all) ensures n in NameSet(vs) + {v.name} {
      var i :| 0 <= i < |all| && all[i].name == n;
      if i < |vs| {
        assert all[i] == vs[i];
      }
    }
    forall n | n in NameSet(vs) ensures n in NameSet(all) {
      var i :| 0 <= i < |vs| && vs[i].name == n;
      assert all[i] == vs[i];
    }
    assert all[|vs|] == v;
  }

  /** Venue `i` is the first of its name: no earlier venue carries it. */
  predicate IsFirst(vs: seq<Venue>, i: nat)
    requires i < |vs|
  {
    forall j :: 0 <= j < i ==> vs[j].name != vs[i].name
  }

  /** The last venue is the first of its name exactly when its name is new. */
  lemma IsFirstLast(vs: seq<Venue>)
    requires |vs| > 0
    ensures IsFirst(vs, |vs| - 1) <==> vs[|vs| - 1].name !in NameSet(vs[..|vs| - 1])
  {
    var front := vs[..|vs| - 1];
    if vs[|vs| - 1].name in NameSet(front) {
      var j :| 0 <= j < |front| && front[j].name == vs[|vs| - 1].name;
      assert vs[j] == front[j];
    } else {
      forall j | 0 <= j < |vs| - 1 ensures vs[j].name != vs[|vs| - 1].name {
        assert vs[j] == front[j];
      }
    }
  }

  /** The indices of the first venue of each name, in increasing order. */
  function FirstIndices(vs: seq<Venue>): (r: seq<nat>)
    ensures forall k :: 0 <= k < |r| ==> r[k] < |vs|
    ensures forall k, l :: 0 <= k < l < |r| ==> r[k] < r[l]
    ensures forall i :: 0 <= i < |vs| ==> (i in r <==> IsFirst(vs, i))
    decreases |vs|
  {
    if |vs| == 0 then []
    else
      var front := vs[..|vs| - 1];
      var rest := FirstIndices(front);
      assert forall i :: 0 <= i < |front| ==> vs[i] == front[i];
      if IsFirst(vs, |vs| - 1) then rest + [|vs| - 1] else rest
  }

  /**
   * The output is an order-preserving subsequence of the input: its `k`-th
   * venue is the input venue at the `k`-th first-occurrence index.
   */
  lemma {:induction false} KeepFirstPicksFirsts(vs: seq<Venue>)
    ensures Picks(KeepFirst(vs), vs, FirstIndices(vs))
    decreases |vs|
  {
    if |vs| > 0 {
      var front := vs[..|vs| - 1];
      KeepFirstPicksFirsts(front);
      PicksSnoc(vs);
    }
  }

  /** `r` lists the venues of `vs` at the indices `idx`, in order. */
  ghost predicate Picks(r: seq<Venue>, vs: seq<Venue>, idx: seq<nat>) {
    && |r| == |idx|
    && forall k :: 0 <= k < |r| ==> idx[k] < |vs| && r[k] == vs[idx[k]]
  }

  lemma PicksSnoc(vs: seq<Venue>)
    requires |vs| > 0
    requires Picks(KeepFirst(vs[..|vs| - 1]), vs[..|vs| - 1], FirstIndices(vs[..|vs| - 1]))
    ensures Picks(KeepFirst(vs), vs, FirstIndices(vs))
  {
    var front := vs[..|vs| - 1];
    var kept := KeepFirst(front);
    var idx := FirstIndices(front);
    IsFirstLast(vs);
    if vs[|vs| - 1].name in NameSet(front) {
      assert KeepFirst(vs) == kept && FirstIndices(vs) == idx;
      PicksExtend(kept, front, vs, idx);
    } else {
      assert KeepFirst(vs) == kept + [vs[|vs| - 1]] && FirstIndices(vs) == idx + [|vs| - 1];
      PicksExtend(kept, front, vs, idx);
      PicksAppend(kept, vs, idx, |vs| - 1);
    }
  }

  lemma PicksExtend(r: seq<Venue>, front: seq<Venue>, vs: seq<Venue>, idx: seq<nat>)
    requires front <= vs && Picks(r, front, idx)
    ensures Picks(r, vs, idx)
  {
    forall k | 0 <= k < |r| ensures idx[k] < |vs| && r[k] == vs[idx[k]] {
      assert vs[idx[k]] == front[idx[k]];
    }
  }

  lemma PicksAppend(r: seq<Venue>, vs: seq<Venue>, idx: seq<nat>, i: nat)
    requires Picks(r, vs, idx) && i < |vs|
    ensures Picks(r + [vs[i]], vs, idx + [i])
  {
    var r' := r + [vs[i]];
    var idx' := idx + [i];
    forall k | 0 <= k < |r'| ensures idx'[k] < |vs| && r'[k] == vs[idx'[k]] {
      if k < |r| {
        assert r'[k] == r[k] && idx'[k] == idx[k];
      }
    }
  }

  /** When all names are distinct, nothing is dropped. */
  lemma {:induction false} DistinctKeepsAll(vs: seq<Venue>)
    requires DistinctNames(vs)
    ensures KeepFirst(vs) == vs
    decreases |vs|
  {
    if |vs| > 0 {
      var front := vs[..|vs| - 1];
      assert DistinctNames(front);
      DistinctKeepsAll(front);
      assert vs[|vs| - 1].name !in NameSet(front);
      assert front + [vs[|vs| - 1]] == vs;
    }
  }

  /** Conversely, nothing is dropped only when all names are distinct. */
  lemma {:induction false} KeepAllIsDistinct(vs: seq<Venue>)
    requires |KeepFirst(vs)| == |vs|
    ensures DistinctNames(vs)
    decreases |vs|
  {
    if |vs| > 0 {
      var front := vs[..|vs| - 1];
      var last := vs[|vs| - 1];
      assert last.name !in NameSet(front);
      KeepAllIsDistinct(front);
      forall i, j | 0 <= i < j < |vs| ensures vs[i].name != vs[j].name {
        if j < |vs| - 1 {
          assert vs[i] == front[i] && vs[j] == front[j];
        } else {
          assert vs[i] == front[i];
        }
      }
    }
  }

  /** Deduplicating twice is deduplicating once. */
  lemma KeepFirstIdempotent(vs: seq<Venue>)
    ensures KeepFirst(KeepFirst(vs)) == KeepFirst(vs)
  {
    DistinctKeepsAll(KeepFirst(vs));
  }

  /** The output has one venue per distinct input name. */
  lemma KeepFirstCount(vs: seq<Venue>)
    ensures |KeepFirst(vs)| == |NameSet(vs)|
    ensures |KeepFirst(vs)| == |vs| <==> DistinctNames(vs)
  {
    DistinctCardinality(KeepFirst(vs));
    if |KeepFirst(vs)| == |vs| {
      KeepAllIsDistinct(vs);
    }
    if DistinctNames(vs) {
      DistinctKeepsAll(vs);
    }
  }

  lemma {:induction false} DistinctCardinality(vs: seq<Venue>)
    requires DistinctNames(vs)
    ensures |NameSet(vs)| == |vs|
    decreases |vs|
  {
    if |vs| > 0 {
      var front := vs[..|vs| - 1];
      assert DistinctNames(front);
      DistinctCardinality(front);
      NameSetLast(vs);
      assert vs[|vs| - 1].name !in NameSet(front);
    }
  }

  /** A name occurs exactly when it is in the name set. */
  lemma {:induction false} OccursIffNamed(vs: seq<Venue>, n: string)
    ensures Occurrences(vs, n) > 0 <==> n in NameSet(vs)
    decreases |vs|
  {
    if |vs| > 0 {
      OccursIffNamed(vs[..|vs| - 1], n);
    }
  }

  /** One entry of `collections.Counter`: a name and how often it was seen. */
  datatype NameCount = NameCount(name: string, count: nat)

  /** Counting one more occurrence of `name`: its entry goes up by one, or a new entry is appended. */
  function Bump(counts: seq<NameCount>, name: string): (r: seq<NameCount>)
    ensures |r| == |counts| || |r| == |counts| + 1
    decreases |counts|
  {
    if |counts| == 0 then [NameCount(name, 1)]
    else if counts[0].name == name then [NameCount(name, counts[0].count + 1)] + counts[1..]
    else [counts[0]] + Bump(counts[1..], name)
  }

  lemma {:induction false} BumpNew(counts: seq<NameCount>, name: string)
    requires forall j :: 0 <= j < |counts| ==> counts[j].name != name
    ensures Bump(counts, name) == counts + [NameCount(name, 1)]
    decreases |counts|
  {
    if |counts| > 0 {
      BumpNew(counts[1..], name);
      assert [counts[0]] + (counts[1..] + [NameCount(name, 1)]) == counts + [NameCount(name, 1)];
    }
  }

  lemma {:induction false} BumpExisting(counts: seq<NameCount>, name: string, k: nat)
    requires k < |counts| && counts[k].name == name
    requires forall j :: 0 <= j < k ==> counts[j].name != name
    ensures |Bump(counts, name)| == |counts|
    ensures Bump(counts, name)[k] == NameCount(name, counts[k].count + 1)
    ensures forall j :: 0 <= j < |counts| && j != k ==> Bump(counts, name)[j] == counts[j]
    decreases |counts|
  {
    if k > 0 {
      BumpExisting(counts[1..], name, k - 1);
    }
  }

  lemma {:induction false} BumpSum(counts: seq<NameCount>, name: string)
    ensures SumCounts(Bump(counts, name)) == SumCounts(counts) + 1
    decreases |counts|
  {
    if |counts| > 0 {
      if counts[0].name != name {
        BumpSum(counts[1..], name);
        assert ([counts[0]] + Bump(counts[1..], name))[1..] == Bump(counts[1..], name);
      } else {
        assert ([NameCount(name, counts[0].count + 1)] + counts[1..])[1..] == counts[1..];
      }
    }
  }

  /** `Counter(names)`: one entry per name, in order of first appearance. */
  function CountNames(vs: seq<Venue>): seq<NameCount>
    decreases |vs|
  {
    if |vs| == 0 then [] else Bump(CountNames(vs[..|vs| - 1]), vs[|vs| - 1].name)
  }

  /** The sum of the counts. */
  function SumCounts(counts: seq<NameCount>): nat
    decreases |counts|
  {
    if |counts| == 0 then 0 else counts[0].count + SumCounts(counts[1..])
  }

  /**
   * `counts` is the name count of `vs` along `kept`: one entry per venue of
   * `kept`, in the same order, holding the number of venues of `vs` with
   * that name.
   */
  ghost predicate Tally(counts: seq<NameCount>, kept: seq<Venue>, vs: seq<Venue>) {
    && |counts| == |kept|
    && forall k :: 0 <= k < |counts| ==>
         counts[k].name == kept[k].name && counts[k].count == Occurrences(vs, kept[k].name)
  }

  /** A venue with a new name adds an entry counting one. */
  lemma TallySnocNew(counts: seq<NameCount>, kept: seq<Venue>, vs: seq<Venue>)
    requires |vs| > 0 && Tally(counts, kept, vs[..|vs| - 1])
    requires forall j :: 0 <= j < |kept| ==> kept[j].name != vs[|vs| - 1].name
    requires Occurrences(vs[..|vs| - 1], vs[|vs| - 1].name) == 0
    ensures Tally(Bump(counts, vs[|vs| - 1].name), kept + [vs[|vs| - 1]], vs)
  {
    var last := vs[|vs| - 1];
    BumpNew(counts, last.name);
    var r := Bump(counts, last.name);
    var kept' := kept + [last];
    forall k | 0 <= k < |r| ensures r[k].name == kept'[k].name && r[k].count == Occurrences(vs, kept'[k].name) {
      if k < |counts| {
        assert kept'[k] == kept[k];
      }
    }
  }

  /** A venue with a name seen before bumps that name's entry. */
  lemma TallySnocSeen(counts: seq<NameCount>, kept: seq<Venue>, vs: seq<Venue>, k: nat)
    requires |vs| > 0 && Tally(counts, kept, vs[..|vs| - 1])
    requires k < |kept| && kept[k].name == vs[|vs| - 1].name
    requires forall j :: 0 <= j < |kept| && j != k ==> kept[j].name != vs[|vs| - 1].name
    ensures Tally(Bump(counts, vs[|vs| - 1].name), kept, vs)
  {
    BumpExisting(counts, vs[|vs| - 1].name, k);
  }

  /** The position of a name in a list of distinct names. */
  lemma FindName(kept: seq<Venue>, n: string) returns (k: nat)
    requires DistinctNames(kept) && n in NameSet(kept)
    ensures k < |kept| && kept[k].name == n
    ensures forall j :: 0 <= j < |kept| && j != k ==> kept[j].name != n
  {
    k :| 0 <= k < |kept| && kept[k].name == n;
  }

  /** A name missing from the names of `vs` is carried by no kept venue. */
  lemma NotKept(vs: seq<Venue>, n: string)
    requires n !in NameSet(vs)
    ensures forall j :: 0 <= j < |KeepFirst(vs)| ==> KeepFirst(vs)[j].name != n
  {
    var kept := KeepFirst(vs);
    forall j | 0 <= j < |kept| ensures kept[j].name != n {
      assert kept[j].name in NameSet(kept);
    }
  }

  /** The counter holds, for each distinct name in first-appearance order, its number of venues. */
  lemma {:induction false} CountNamesTally(vs: seq<Venue>)
    ensures Tally(CountNames(vs), KeepFirst(vs), vs)
    decreases |vs|
  {
    if |vs| > 0 {
      var front := vs[..|vs| - 1];
      var last := vs[|vs| - 1];
      var kept := KeepFirst(front);
      var counts := CountNames(front);
      CountNamesTally(front);
      if last.name in NameSet(front) {
        var k := FindName(kept, last.name);
        TallySnocSeen(counts, kept, vs, k);
      } else {
        NotKept(front, last.name);
        OccursIffNamed(front, last.name);
        TallySnocNew(counts, kept, vs);
      }
    }
  }

  /** The counts add up to the number of venues. */
  lemma {:induction false} CountNamesSum(vs: seq<Venue>)
    ensures SumCounts(CountNames(vs)) == |vs|
    decreases |vs|
  {
    if |vs| > 0 {
      CountNamesSum(vs[..|vs| - 1]);
      BumpSum(CountNames(vs[..|vs| - 1]), vs[|vs| - 1].name);
    }
  }

  /** The `duplicates` dict: the entries seen more than once, in counter order. */
  function Duplicates(counts: seq<NameCount>): (r: seq<NameCount>)
    ensures forall x :: x in r <==> x in counts && x.count > 1
    decreases |counts|
  {
    if |counts| == 0 then []
    else (if counts[0].count > 1 then [counts[0]] else []) + Duplicates(counts[1..])
  }

  /** The reported total of duplicate venues: `sum(duplicates.values()) - len(duplicates)`. */
  function ReportedTotal(vs: seq<Venue>): int {
    var dups := Duplicates(CountNames(vs));
    SumCounts(dups) - |dups|
  }

  /** Dropping entries counted once does not change the excess over one per entry. */
  lemma {:induction false} DuplicatesExcess(counts: seq<NameCount>)
    requires forall k :: 0 <= k < |counts| ==> counts[k].count >= 1
    ensures SumCounts(Duplicates(counts)) - |Duplicates(counts)| == SumCounts(counts) - |counts|
    ensures SumCounts(Duplicates(counts)) - |Duplicates(counts)| >= |Duplicates(counts)|
    decreases |counts|
  {
    if |counts| > 0 {
      DuplicatesExcess(counts[1..]);
      var rest := Duplicates(counts[1..]);
      if counts[0].count > 1 {
        assert ([counts[0]] + rest)[1..] == rest;
      } else {
        assert [] + rest == rest;
      }
    }
  }

  /** The reported total is exactly the number of venues deduplication removes. */
  lemma ReportedTotalIsRemoved(vs: seq<Venue>)
    ensures ReportedTotal(vs) == |vs| - |KeepFirst(vs)|
  {
    var counts := CountNames(vs);
    CountNamesTally(vs);
    CountNamesSum(vs);
    forall k | 0 <= k < |counts| ensures counts[k].count >= 1 {
      var kept := KeepFirst(vs);
      assert kept[k].name in NameSet(kept);
      OccursIffNamed(vs, kept[k].name);
    }
    DuplicatesExcess(counts);
  }

  /** A name is reported as duplicated exactly when more than one venue carries it. */
  lemma DuplicateNames(vs: seq<Venue>, n: string)
    ensures (exists x :: x in Duplicates(CountNames(vs)) && x.name == n) <==> Occurrences(vs, n) > 1
    ensures forall x :: x in Duplicates(CountNames(vs)) ==> x.count == Occurrences(vs, x.name)
  {
    var counts := CountNames(vs);
    var kept := KeepFirst(vs);
    CountNamesTally(vs);
    OccursIffNamed(vs, n);
    if Occurrences(vs, n) > 1 {
      assert n in NameSet(kept);
      var k :| 0 <= k < |kept| && kept[k].name == n;
      assert counts[k] in Duplicates(counts);
    }
  }

  /** Nothing is reported exactly when the names are distinct. */
  lemma NoDuplicatesIffDistinct(vs: seq<Venue>)
    ensures Duplicates(CountNames(vs)) == [] <==> DistinctNames(vs)
  {
    var counts := CountNames(vs);
    ReportedTotalIsRemoved(vs);
    KeepFirstCount(vs);
    CountNamesTally(vs);
    forall k | 0 <= k < |counts| ensures counts[k].count >= 1 {
      var kept := KeepFirst(vs);
      assert kept[k].name in NameSet(kept);
      OccursIffNamed(vs, kept[k].name);
    }
    DuplicatesExcess(counts);
  }

  /** What the script hands back: the venues, the duplicate report, and whether a cleaned file was written. */
  datatype Outcome = Outcome(venues: seq<Venue>, duplicates: seq<NameCount>, saved: bool)

  /**
   * `deduplicate_venues` on the loaded list: with no duplicates the input is
   * returned and nothing is written; otherwise the first venue of each name
   * is kept, in order.
   */
  method DeduplicateVenues(vs: seq<Venue>) returns (out: Outcome)
    ensures out.duplicates == Duplicates(CountNames(vs))
    ensures out.saved <==> out.duplicates != []
    ensures out.venues == KeepFirst(vs)
    ensures out.duplicates == [] ==> out.venues == vs
    ensures DistinctNames(out.venues) && NameSet(out.venues) == NameSet(vs)
  {
    var dups := Duplicates(CountNames(vs));
    if dups == [] {
      NoDuplicatesIffDistinct(vs);
      DistinctKeepsAll(vs);
      return Outcome(vs, dups, false);
    }
    var kept := KeepFirstLoop(vs);
    return Outcome(kept, dups, true);
  }

  /** The `seen`/`unique_venues` loop: the first venue of each name, in order. */
  method KeepFirstLoop(vs: seq<Venue>) returns (kept: seq<Venue>)
    ensures kept == KeepFirst(vs)
  {
    var seen: set<string> := {};
    kept := [];
    for i := 0 to |vs|
      invariant seen == NameSet(vs[..i])
      invariant kept == KeepFirst(vs[..i])
    {
      KeepFirstStep(vs, i);
      if vs[i].name !in seen {
        kept := kept + [vs[i]];
        seen := seen + {vs[i].name};
      }
    }
    assert vs[..|vs|] == vs;
  }

  /** One step of the `seen`/`unique_venues` loop over the input. */
  lemma KeepFirstStep(vs: seq<Venue>, i: nat)
    requires i < |vs|
    ensures NameSet(vs[..i + 1]) == NameSet(vs[..i]) + {vs[i].name}
    ensures KeepFirst(vs[..i + 1]) ==
      if vs[i].name in NameSet(vs[..i]) then KeepFirst(vs[..i]) else KeepFirst(vs[..i]) + [vs[i]]
  {
    var p := vs[..i + 1];
    assert p[..i] == vs[..i];
    assert p[i] == vs[i];
    NameSetLast(p);
    assert KeepFirst(p) == if p[i].name in NameSet(p[..i]) then KeepFirst(p[..i]) else KeepFirst(p[..i]) + [p[i]];
  }
}
