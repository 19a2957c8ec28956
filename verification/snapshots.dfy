/**
 * Progress files written one after another during a run: each snapshot
 * extends the previous one, and the last one is what the run returns.
 */
module Snapshots {
  /**
   * `cks` is a chain of snapshots growing from `base` to `final`: each one
   * extends `base` and is a prefix of the next, and the last one is `final`.
   */
  ghost predicate SnapshotChain<T>(base: seq<T>, cks: seq<seq<T>>, final: seq<T>) {
    && (forall k :: 0 <= k < |cks| ==> base <= cks[k] <= final)
    && (forall k :: 0 <= k < |cks| - 1 ==> cks[k] <= cks[k + 1])
    && (|cks| > 0 ==> cks[|cks| - 1] == final)
    && (|cks| == 0 ==> final == base)
  }

  /** A snapshot taken before a chain extends the chain. */
  lemma SnapshotChainCons<T>(base: seq<T>, next: seq<T>, rest: seq<seq<T>>, final: seq<T>)
    requires base <= next && SnapshotChain(next, rest, final)
    ensures SnapshotChain(base, [next] + rest, final)
  {
    var cks := [next] + rest;
    forall k | 0 <= k < |cks| ensures base <= cks[k] <= final {
      if k > 0 {
        assert cks[k] == rest[k - 1];
        PrefixTransitive(base, next, cks[k]);
      } else if |rest| > 0 {
        PrefixTransitive(next, rest[0], final);
      }
    }
    forall k | 0 <= k < |cks| - 1 ensures cks[k] <= cks[k + 1] {
      assert cks[k + 1] == rest[k];
    }
  }

  /** The prefix order on sequences is transitive. */
  lemma PrefixTransitive<T>(a: seq<T>, b: seq<T>, c: seq<T>)
    requires a <= b && b <= c
    ensures a <= c
  {
    assert c[..|a|] == b[..|a|];
  }

  /** Concatenation is associative. */
  lemma Reassociate<T>(a: seq<T>, b: seq<T>, c: seq<T>)
    ensures (a + b) + c == a + (b + c)
  {
  }
}
