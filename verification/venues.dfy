/**
 * The venue record that flows through the whole pipeline, and Python's
 * truthiness for its optional fields.
 *
 * The Python code keeps a venue as a dict; a key that is absent and a key
 * that holds `None` both read as `None` through `dict.get`, so both are
 * `None` here.
 */
module Venues {
  import opened Options

  /** A coordinate pair as stored by the enricher (`[lat, lon]`). */
  datatype Coordinates = Coordinates(lat: real, lon: real)

  datatype Venue = Venue(
    name: string,
    slug: Option<string>,
    address: Option<string>,
    tags: set<string>,
    detailUrl: Option<string>,
    about: Option<string>,
    website: Option<string>,
    coordinates: Option<Coordinates>,
    district: Option<string>)

  /** Truthiness of an optional string: present and non-empty. */
  predicate Truthy(s: Option<string>) {
    s.Some? && s.value != ""
  }

  /** Truthiness of an optional integer: present and non-zero. */
  predicate IntTruthy(n: Option<int>) {
    n.Some? && n.value != 0
  }

  /** Truthiness of an optional float: present and non-zero. */
  predicate RealTruthy(x: Option<real>) {
    x.Some? && x.value != 0.0
  }

  /** The set of names occurring in `vs`. */
  function NameSet(vs: seq<Venue>): (r: set<string>)
    ensures forall i :: 0 <= i < |vs| ==> vs[i].name in r
    ensures forall n :: n in r ==> exists i :: 0 <= i < |vs| && vs[i].name == n
  {
    set i | 0 <= i < |vs| :: vs[i].name
  }

  /** The names of a non-empty sequence: those of all but the last venue, and the last one's. */
  lemma NameSetLast(vs: seq<Venue>)
    requires |vs| > 0
    ensures NameSet(vs) == NameSet(vs[..|vs| - 1]) + {vs[|vs| - 1].name}
  {
    var front := vs[..|vs| - 1];
    forall n | n in NameSet(vs) ensures n in NameSet(front) + {vs[|vs| - 1].name} {
      var i :| 0 <= i < |vs| && vs[i].name == n;
      if i < |front| {
        assert front[i] == vs[i];
      }
    }
    forall n | n in NameSet(front) ensures n in NameSet(vs) {
      var i :| 0 <= i < |front| && front[i].name == n;
      assert front[i] == vs[i];
    }
  }

  /** No two venues of `vs` share a name. */
  predicate DistinctNames(vs: seq<Venue>) {
    forall i, j :: 0 <= i < j < |vs| ==> vs[i].name != vs[j].name
  }

  /** How many venues of `vs` are called `n`. */
  function Occurrences(vs: seq<Venue>, n: string): nat
    decreases |vs|
  {
    if |vs| == 0 then 0
    else Occurrences(vs[..|vs| - 1], n) + (if vs[|vs| - 1].name == n then 1 else 0)
  }
}
