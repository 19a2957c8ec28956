/**
 * The geocoding enricher: one geocoder search per venue (a primary query,
 * then a simpler fallback), the update rule for a venue's coordinates and
 * district, and the batch loop that resumes from saved progress.
 *
 * The geocoder is a parameter `lookup` mapping a query to its reply; it is
 * deterministic, which the Nominatim service is not.
 */
module Geocoding {
  import opened Options
  import opened Text
  import opened Venues
  import opened District
  import opened Snapshots
  import Batches

  /** The first search result: its coordinates and address breakdown (an absent breakdown is the empty map). */
  datatype Hit = Hit(lat: real, lon: real, components: Components)

  /**
   * One search: status 200 with a non-empty result list; anything else that
   * returns normally (another status, an empty list); or an exception (a
   * network error, a body that is not JSON, a result without a numeric
   * `lat`/`lon`).
   */
  datatype Reply = Match(hit: Hit) | NoMatch | Raised

  /** The `(lat, lon, district)` triple `geocode_venue` returns. */
  datatype Geo = Geo(lat: Option<real>, lon: Option<real>, district: Option<string>)

  const NoGeo := Geo(None, None, None)

  /** A search outcome together with the queries sent, in order. */
  datatype Geocoded = Geocoded(geo: Geo, queries: seq<string>)

  const PrimarySuffix := ", Berlin, Germany"
  const FallbackSuffix := ", Berlin"
  const Comma := ","

  /** The address as an f-string renders it: a null address reads "None". */
  function AddressText(address: Option<string>): (t: string)
    ensures address.Some? ==> t == address.value
  {
    if address.Some? then address.value else "None"
  }

  /** The primary query: the whole address, then the city and country. */
  function PrimaryQuery(address: Option<string>): (q: string)
    ensures AddressText(address) <= q
    ensures q[|AddressText(address)|..] == PrimarySuffix
  {
    AddressText(address) + PrimarySuffix
  }

  /** The fallback query: the address up to its first comma, then the city. */
  function FallbackQuery(address: string): (q: string)
    ensures |q| >= |FallbackSuffix| && q[|q| - |FallbackSuffix|..] == FallbackSuffix
    ensures q[..|q| - |FallbackSuffix|] <= address
    ensures !Contains(q[..|q| - |FallbackSuffix|], Comma)
    // the address is cut at its first comma, or kept whole when it has none
    ensures q[..|q| - |FallbackSuffix|] == address || OccursAt(address, Comma, |q| - |FallbackSuffix|)
    ensures forall j :: 0 <= j < |q| - |FallbackSuffix| ==> !OccursAt(address, Comma, j)
  {
    var head := SplitFirst(address, Comma);
    assert (head + FallbackSuffix)[..|head|] == head;
    head + FallbackSuffix
  }

  /**
   * The fallback query is the primary query cut at its first comma, with
   * the country dropped: the primary query's first segment is the
   * address's first segment, because the appended suffix starts with a comma.
   */
  lemma FallbackFromPrimary(address: string)
    ensures FallbackQuery(address) == SplitFirst(PrimaryQuery(Some(address)), Comma) + FallbackSuffix
  {
    SplitFirstExtend(address, PrimarySuffix, Comma);
  }

  /** The triple for a matched search. */
  function FromHit(h: Hit): (g: Geo)
    ensures g.lat == Some(h.lat) && g.lon == Some(h.lon)
    ensures g.district == ExtractDistrict(h.components)
    ensures g.district.Some? ==> Acceptable(g.district.value)
  {
    Geo(Some(h.lat), Some(h.lon), ExtractDistrict(h.components))
  }

  /**
   * `geocode_venue`. An exception anywhere ends the search with
   * `(None, None, None)`; for a null address the fallback's `split` is such
   * an exception.
   */
  function GeocodeVenue(address: Option<string>, lookup: string -> Reply): (r: Geocoded)
    // the primary query is always sent first, and at most one fallback follows
    ensures 1 <= |r.queries| <= 2 && r.queries[0] == PrimaryQuery(address)
    // a match on the primary query is used as is, and no fallback is sent
    ensures lookup(PrimaryQuery(address)).Match? ==>
              r == Geocoded(FromHit(lookup(PrimaryQuery(address)).hit), [PrimaryQuery(address)])
    // the fallback is sent exactly when the primary search returned normally without a result
    ensures |r.queries| == 2 <==> lookup(PrimaryQuery(address)).NoMatch? && address.Some?
    ensures |r.queries| == 2 ==> r.queries[1] == FallbackQuery(address.value)
    // a location is reported exactly when the last query sent matched, and it is that query's hit
    ensures r.geo.lat.Some? <==> lookup(r.queries[|r.queries| - 1]).Match?
    ensures r.geo.lat.Some? ==> r.geo == FromHit(lookup(r.queries[|r.queries| - 1]).hit)
    ensures r.geo.lat.None? ==> r.geo == NoGeo
  {
    var primary := PrimaryQuery(address);
    match lookup(primary)
    case Match(h) => Geocoded(FromHit(h), [primary])
    case Raised => Geocoded(NoGeo, [primary])
    case NoMatch =>
      if address.None? then Geocoded(NoGeo, [primary])
      else
        var fallback := FallbackQuery(address.value);
        match lookup(fallback)
        case Match(h) => Geocoded(FromHit(h), [primary, fallback])
        case _ => Geocoded(NoGeo, [primary, fallback])
  }

  /** A venue whose coordinates and district are both truthy is not geocoded again. */
  predicate Located(v: Venue) {
    v.coordinates.Some? && Truthy(v.district)
  }

  /** The inner loop body of `enhance_venues_batch` for one venue. */
  function EnhanceOne(v: Venue, lookup: string -> Reply): (r: Venue)
    ensures Located(v) ==> r == v
    // otherwise only the coordinates and the district are overwritten
    ensures r.(coordinates := v.coordinates, district := v.district) == v
    ensures !Located(v) ==>
      var g := GeocodeVenue(v.address, lookup).geo;
      && (r.coordinates.Some? <==> RealTruthy(g.lat) && RealTruthy(g.lon))
      && (r.coordinates.Some? ==> r.coordinates.value == Coordinates(g.lat.value, g.lon.value))
      && r.district == g.district
    // a stored district is a real one: never empty, "Berlin" or a short string
    ensures !Located(v) && r.district.Some? ==> Acceptable(r.district.value)
  {
    if Located(v) then v
    else
      var g := GeocodeVenue(v.address, lookup).geo;
      v.(coordinates := if RealTruthy(g.lat) && RealTruthy(g.lon) then Some(Coordinates(g.lat.value, g.lon.value)) else None,
         district := g.district)
  }

  /**
   * Enhancing an enhanced venue changes nothing: either it is now located
   * and skipped, or it is geocoded again from the same address with the same
   * outcome.
   */
  lemma EnhanceIdempotent(v: Venue, lookup: string -> Reply)
    ensures EnhanceOne(EnhanceOne(v, lookup), lookup) == EnhanceOne(v, lookup)
  {
    var r := EnhanceOne(v, lookup);
    assert r.address == v.address;
  }

  /**
   * A hit without a usable district leaves the venue located but without a
   * district: the two fields are not set together.
   */
  lemma CoordinatesWithoutDistrict()
    ensures var v := Venue("Cafe", None, Some("Torstr. 1"), {}, None, None, None, None, None);
      var r := EnhanceOne(v, q => Match(Hit(52.5, 13.4, map[])));
      r.coordinates == Some(Coordinates(52.5, 13.4)) && r.district == None
  {
    var c: Components := map[];
    assert Postcode(c) == "";
    assert forall i :: 0 <= i < |DistrictKeys| ==> !Qualifies(c, DistrictKeys[i]);
  }

  /** A failed search stores no coordinates and no district. */
  lemma FailureStoresNothing(v: Venue, lookup: string -> Reply)
    requires !Located(v)
    requires forall k :: 0 <= k < |GeocodeVenue(v.address, lookup).queries| ==>
               !lookup(GeocodeVenue(v.address, lookup).queries[k]).Match?
    ensures EnhanceOne(v, lookup).coordinates == None && EnhanceOne(v, lookup).district == None
  {
  }

  /** The per-venue update as a function of the venue alone, for the batch loop. */
  function Enhancer(lookup: string -> Reply): Venue -> Venue {
    v => EnhanceOne(v, lookup)
  }

  /** Every venue of `vs` enhanced, in order. */
  function EnhanceAll(vs: seq<Venue>, lookup: string -> Reply): (r: seq<Venue>)
    ensures |r| == |vs|
    ensures forall i :: 0 <= i < |vs| ==> r[i] == EnhanceOne(vs[i], lookup)
  {
    Batches.MapAll(vs, Enhancer(lookup))
  }

  /** The enhanced venues from index `s` on (none when `s` is past the end). */
  function EnhancedFrom(venues: seq<Venue>, s: nat, lookup: string -> Reply): (r: seq<Venue>)
    ensures |r| == if s < |venues| then |venues| - s else 0
    ensures forall j :: 0 <= j < |r| ==> r[j] == EnhanceOne(venues[s + j], lookup)
  {
    var r := Batches.Remaining(venues, s, Enhancer(lookup));
    assert forall j :: 0 <= j < |r| ==> r[j] == EnhanceOne(venues[s..][j], lookup);
    r
  }

  /**
   * `enhance_venues_batch` on the progress loaded from the progress file
   * (empty when there is none): the batch loop with the per-venue update.
   */
  function EnhanceVenuesBatch(venues: seq<Venue>, batchSize: int, startIndex: nat, progress: seq<Venue>,
                              lookup: string -> Reply): (r: Batches.Run<Venue>)
    requires batchSize > 0
    // the progress, then every venue from the resume index on, enhanced, in order
    ensures r.items == progress + EnhancedFrom(venues, Batches.ResumeIndex(|progress|, startIndex), lookup)
    // the progress file grows from the loaded progress to the result
    ensures SnapshotChain(progress, r.checkpoints, r.items)
    // a milestone after every batch whose number is a multiple of 5
    ensures |r.starts| == |r.checkpoints| && r.milestones == Batches.DueMilestones(r.starts, r.checkpoints, batchSize)
    // batches start at the resume index and advance by the batch size until the list is covered
    ensures Batches.Schedule(|venues|, batchSize, Batches.ResumeIndex(|progress|, startIndex), |progress|, r.starts, r.checkpoints)
  {
    var s := Batches.ResumeIndex(|progress|, startIndex);
    Batches.BatchSchedule(venues, batchSize, s, progress, Enhancer(lookup));
    Batches.BatchContents(venues, batchSize, s, progress, Enhancer(lookup));
    Batches.BatchCheckpoints(venues, batchSize, s, progress, Enhancer(lookup));
    Batches.MilestoneList(venues, batchSize, s, progress, Enhancer(lookup));
    Batches.BatchLoop(venues, batchSize, s, progress, Enhancer(lookup))
  }

  /**
   * Resuming completes an interrupted run: when the saved progress is the
   * enhancement of the first venues, resuming from index 0 yields the
   * enhancement of the whole list.
   */
  lemma ResumeCompletes(venues: seq<Venue>, batchSize: int, progress: seq<Venue>, lookup: string -> Reply)
    requires batchSize > 0 && |progress| <= |venues|
    requires progress == EnhanceAll(venues[..|progress|], lookup)
    ensures EnhanceVenuesBatch(venues, batchSize, 0, progress, lookup).items == EnhanceAll(venues, lookup)
  {
    Batches.ResumeCompletes(venues, batchSize, progress, Enhancer(lookup));
  }

  /** Every snapshot of a fresh run is such a resumable progress. */
  lemma CheckpointsResumable(venues: seq<Venue>, batchSize: int, lookup: string -> Reply, k: nat)
    requires batchSize > 0
    requires k < |EnhanceVenuesBatch(venues, batchSize, 0, [], lookup).checkpoints|
    ensures var c := EnhanceVenuesBatch(venues, batchSize, 0, [], lookup).checkpoints[k];
      |c| <= |venues| && c == EnhanceAll(venues[..|c|], lookup)
  {
    Batches.CheckpointsResumable(venues, batchSize, Enhancer(lookup), k);
  }
}
