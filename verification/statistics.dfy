/**
 * `analyze_venues`: how many venues carry each kind of data, and how many
 * distinct tags and districts the data set holds.
 */
module Statistics {
  import opened Options
  import opened Venues

  datatype Stats = Stats(
    total: nat,
    withAddress: nat,
    withDescription: nat,
    withWebsite: nat,
    withTags: nat,
    withCoordinates: nat,
    withDistrict: nat,
    uniqueTags: nat,
    uniqueDistricts: nat)

  predicate HasAddress(v: Venue) { Truthy(v.address) }
  predicate HasDescription(v: Venue) { Truthy(v.about) }
  predicate HasWebsite(v: Venue) { Truthy(v.website) }
  predicate HasTags(v: Venue) { |v.tags| > 0 }
  predicate HasCoordinates(v: Venue) { v.coordinates.Some? }
  predicate HasDistrict(v: Venue) { Truthy(v.district) }

  /** `sum(1 for v in vs if p(v))`. */
  function CountIf(vs: seq<Venue>, p: Venue -> bool): (r: nat)
    ensures r <= |vs|
    decreases |vs|
  {
    if |vs| == 0 then 0
    else CountIf(vs[..|vs| - 1], p) + (if p(vs[|vs| - 1]) then 1 else 0)
  }

  /** The positions of the venues satisfying `p`. */
  function Matching(vs: seq<Venue>, p: Venue -> bool): set<nat> {
    set i: nat | i < |vs| && p(vs[i])
  }

  /** The count is the number of positions holding a venue that satisfies `p`. */
  lemma {:induction false} CountIfMatching(vs: seq<Venue>, p: Venue -> bool)
    ensures CountIf(vs, p) == |Matching(vs, p)|
    decreases |vs|
  {
    if |vs| > 0 {
      var front := vs[..|vs| - 1];
      CountIfMatching(front, p);
      var last := |vs| - 1;
      assert Matching(vs, p) == Matching(front, p) + (if p(vs[last]) then {last} else {});
      assert last !in Matching(front, p);
    }
  }

  /** The union of the tag collections of the venues that have tags. */
  function AllTags(vs: seq<Venue>): (r: set<string>)
    ensures forall t :: t in r <==> exists i :: 0 <= i < |vs| && t in vs[i].tags
    decreases |vs|
  {
    if |vs| == 0 then {}
    else
      var front := vs[..|vs| - 1];
      var last := vs[|vs| - 1];
      var r := AllTags(front) + (if HasTags(last) then last.tags else {});
      assert forall i :: 0 <= i < |front| ==> vs[i] == front[i];
      r
  }

  /** The set of truthy districts. */
  function AllDistricts(vs: seq<Venue>): (r: set<string>)
    ensures forall d :: d in r <==> exists i :: 0 <= i < |vs| && HasDistrict(vs[i]) && vs[i].district.value == d
    decreases |vs|
  {
    if |vs| == 0 then {}
    else
      var front := vs[..|vs| - 1];
      var last := vs[|vs| - 1];
      var r := AllDistricts(front) + (if HasDistrict(last) then {last.district.value} else {});
      assert forall i :: 0 <= i < |front| ==> vs[i] == front[i];
      r
  }

  function AnalyzeVenues(vs: seq<Venue>): (s: Stats)
    ensures s.total == |vs|
    ensures s.withAddress <= s.total && s.withDescription <= s.total && s.withWebsite <= s.total
    ensures s.withTags <= s.total && s.withCoordinates <= s.total && s.withDistrict <= s.total
    // distinct districts are at most the venues that have one
    ensures s.uniqueDistricts <= s.withDistrict
    ensures |vs| == 0 ==> s == Stats(0, 0, 0, 0, 0, 0, 0, 0, 0)
    // each count is the number of venues carrying that kind of data
    ensures s.withAddress == |Matching(vs, HasAddress)|
    ensures s.withDescription == |Matching(vs, HasDescription)|
    ensures s.withWebsite == |Matching(vs, HasWebsite)|
    ensures s.withTags == |Matching(vs, HasTags)|
    ensures s.withCoordinates == |Matching(vs, HasCoordinates)|
    ensures s.withDistrict == |Matching(vs, HasDistrict)|
    // the distinct counts are the sizes of the union of tags and of the set of districts
    ensures s.uniqueTags == |AllTags(vs)| && s.uniqueDistricts == |AllDistricts(vs)|
  {
    DistrictsBounded(vs);
    CountIfMatching(vs, HasAddress);
    CountIfMatching(vs, HasDescription);
    CountIfMatching(vs, HasWebsite);
    CountIfMatching(vs, HasTags);
    CountIfMatching(vs, HasCoordinates);
    CountIfMatching(vs, HasDistrict);
    Stats(|vs|,
          CountIf(vs, HasAddress),
          CountIf(vs, HasDescription),
          CountIf(vs, HasWebsite),
          CountIf(vs, HasTags),
          CountIf(vs, HasCoordinates),
          CountIf(vs, HasDistrict),
          |AllTags(vs)|,
          |AllDistricts(vs)|)
  }

  /** Each venue with a district adds at most one distinct district. */
  lemma {:induction false} DistrictsBounded(vs: seq<Venue>)
    ensures |AllDistricts(vs)| <= CountIf(vs, HasDistrict)
    decreases |vs|
  {
    if |vs| > 0 {
      DistrictsBounded(vs[..|vs| - 1]);
    }
  }

  /** No venue has tags exactly when there are no tags at all. */
  lemma NoTaggedVenuesNoTags(vs: seq<Venue>)
    ensures AnalyzeVenues(vs).withTags == 0 <==> AnalyzeVenues(vs).uniqueTags == 0
  {
    CountIfMatching(vs, HasTags);
    if CountIf(vs, HasTags) == 0 {
      assert Matching(vs, HasTags) == {};
      forall i | 0 <= i < |vs| ensures vs[i].tags == {} {
        assert i !in Matching(vs, HasTags);
      }
      assert AllTags(vs) == {};
    } else {
      var i :| i in Matching(vs, HasTags);
      var t :| t in vs[i].tags;
      assert t in AllTags(vs);
    }
  }

  /** Counting over a concatenation adds the counts of the parts. */
  lemma {:induction false} CountIfAppend(a: seq<Venue>, b: seq<Venue>, p: Venue -> bool)
    ensures CountIf(a + b, p) == CountIf(a, p) + CountIf(b, p)
    decreases |b|
  {
    if |b| == 0 {
      assert a + b == a;
    } else {
      var b' := b[..|b| - 1];
      CountIfAppend(a, b', p);
      assert (a + b)[..|a + b| - 1] == a + b';
    }
  }

  /** Statistics of a concatenation: counts add up and the tag and district sets unite. */
  lemma AnalyzeAppend(a: seq<Venue>, b: seq<Venue>)
    ensures var s := AnalyzeVenues(a + b);
      var sa := AnalyzeVenues(a);
      var sb := AnalyzeVenues(b);
      && s.total == sa.total + sb.total
      && s.withAddress == sa.withAddress + sb.withAddress
      && s.withDescription == sa.withDescription + sb.withDescription
      && s.withWebsite == sa.withWebsite + sb.withWebsite
      && s.withTags == sa.withTags + sb.withTags
      && s.withCoordinates == sa.withCoordinates + sb.withCoordinates
      && s.withDistrict == sa.withDistrict + sb.withDistrict
      && AllTags(a + b) == AllTags(a) + AllTags(b)
      && AllDistricts(a + b) == AllDistricts(a) + AllDistricts(b)
  {
    CountIfAppend(a, b, HasAddress);
    CountIfAppend(a, b, HasDescription);
    CountIfAppend(a, b, HasWebsite);
    CountIfAppend(a, b, HasTags);
    CountIfAppend(a, b, HasCoordinates);
    CountIfAppend(a, b, HasDistrict);
    AllTagsAppend(a, b);
    AllDistrictsAppend(a, b);
  }

  lemma AllTagsAppend(a: seq<Venue>, b: seq<Venue>)
    ensures AllTags(a + b) == AllTags(a) + AllTags(b)
  {
    forall t ensures t in AllTags(a + b) <==> t in AllTags(a) + AllTags(b) {
      if t in AllTags(a + b) {
        var i :| 0 <= i < |a + b| && t in (a + b)[i].tags;
        if i >= |a| {
          assert (a + b)[i] == b[i - |a|];
        }
      }
      if t in AllTags(a) {
        var i :| 0 <= i < |a| && t in a[i].tags;
        assert (a + b)[i] == a[i];
      }
      if t in AllTags(b) {
        var i :| 0 <= i < |b| && t in b[i].tags;
        assert (a + b)[|a| + i] == b[i];
      }
    }
  }

  lemma AllDistrictsAppend(a: seq<Venue>, b: seq<Venue>)
    ensures AllDistricts(a + b) == AllDistricts(a) + AllDistricts(b)
  {
    forall d ensures d in AllDistricts(a + b) <==> d in AllDistricts(a) + AllDistricts(b) {
      if d in AllDistricts(a + b) {
        var i :| 0 <= i < |a + b| && HasDistrict((a + b)[i]) && (a + b)[i].district.value == d;
        if i >= |a| {
          assert (a + b)[i] == b[i - |a|];
        }
      }
      if d in AllDistricts(a) {
        var i :| 0 <= i < |a| && HasDistrict(a[i]) && a[i].district.value == d;
        assert (a + b)[i] == a[i];
      }
      if d in AllDistricts(b) {
        var i :| 0 <= i < |b| && HasDistrict(b[i]) && b[i].district.value == d;
        assert (a + b)[|a| + i] == b[i];
      }
    }
  }
}
