/**
 * The harvester's control logic (`BerlinVenueScraper`): the page bound, the
 * resume estimate, the page URL rule and the page loop of
 * `scrape_progressive`, with the network given as a `Web` oracle and the
 * checkpoint files recorded as the snapshots written to them.
 */
module Harvester {
  import opened Options
  import opened Text
  import opened Venues
  import opened Listing
  import opened Snapshots
  import Pages

  const TestModePages := 2
  const FullModePages := 89
  /** The estimated number of venues per listing page, used to estimate where to resume. */
  const VenuesPerPage := 22
  const ListingUrl := BaseUrl + "/en/communities/lokale-favoriten-gutschein?q%5Bcity_or_address_postal_code_cont%5D=Berlin"
  const PageParameter := "&page="

  /** The run state fixed at construction: the page bound and the optional venue bound. */
  datatype Config = Config(maxPages: int, maxVenues: Option<int>)

  /** `max_pages or (2 if test_mode else 89)`: 0 and `None` fall back to the mode's default. */
  function MaxPages(requested: Option<int>, testMode: bool): (n: int)
    ensures IntTruthy(requested) ==> n == requested.value
    ensures !IntTruthy(requested) && testMode ==> n == TestModePages
    ensures !IntTruthy(requested) && !testMode ==> n == FullModePages
    ensures n != 0
  {
    if IntTruthy(requested) then requested.value
    else if testMode then TestModePages
    else FullModePages
  }

  /** The page bound chosen once is kept when it is passed in again. */
  lemma MaxPagesStable(requested: Option<int>, testMode: bool)
    ensures MaxPages(Some(MaxPages(requested, testMode)), testMode) == MaxPages(requested, testMode)
  {
  }

  /** `BerlinVenueScraper.__init__`. */
  function NewConfig(testMode: bool, maxPages: Option<int>, maxVenues: Option<int>): (c: Config)
    // a truthy page bound is kept; 0 or None falls back to the mode's default
    ensures IntTruthy(maxPages) ==> c.maxPages == maxPages.value
    ensures !IntTruthy(maxPages) ==> c.maxPages == if testMode then TestModePages else FullModePages
    ensures c.maxPages != 0
    // the venue bound is stored as given
    ensures c.maxVenues == maxVenues
  {
    Config(MaxPages(maxPages, testMode), maxVenues)
  }

  /**
   * The first page to fetch: with saved progress and the default start page
   * 1, the page estimated from the number of saved venues, at least 1.
   * The estimate is the floor of `loaded / 22`, so a resumed run re-fetches
   * pages when the real pages hold fewer than 22 venues and skips pages when
   * they hold more.
   */
  function ResumeStart(loaded: nat, startPage: int): (s: int)
    ensures loaded > 0 && startPage == 1 ==>
      && s >= 1
      && (s == 1 || VenuesPerPage * s <= loaded)
      && loaded < VenuesPerPage * (s + 1)
    ensures !(loaded > 0 && startPage == 1) ==> s == startPage
  {
    if loaded > 0 && startPage == 1 then
      var estimate := loaded / VenuesPerPage;
      if estimate > 1 then estimate else 1
    else startPage
  }

  /** The listing URL of page `page`: the base URL for page 1, `&page=n` appended otherwise. */
  function PageUrl(page: int): (url: string)
    ensures page == 1 ==> url == ListingUrl
    ensures page != 1 ==> url == ListingUrl + PageParameter + IntToString(page)
  {
    if page == 1 then ListingUrl else ListingUrl + PageParameter + IntToString(page)
  }

  /** Reads the page number back out of a listing URL. */
  function PageOfUrl(url: string): Option<int>
  {
    if url == ListingUrl then Some(1)
    else if ListingUrl + PageParameter <= url then ParseInt(url[|ListingUrl + PageParameter|..])
    else None
  }

  /** Every page URL names its page. */
  lemma PageUrlRoundTrip(page: int)
    ensures PageOfUrl(PageUrl(page)) == Some(page)
  {
    if page != 1 {
      var url := PageUrl(page);
      assert url[|ListingUrl + PageParameter|..] == IntToString(page);
      IntToStringRoundTrip(page);
      assert url != ListingUrl by {
        assert |url| > |ListingUrl|;
      }
    }
  }

  /** Distinct pages are fetched from distinct URLs. */
  lemma PageUrlInjective(a: int, b: int)
    requires PageUrl(a) == PageUrl(b)
    ensures a == b
  {
    PageUrlRoundTrip(a);
    PageUrlRoundTrip(b);
  }

  /** `self.max_venues and len(all_venues) >= self.max_venues`. */
  predicate BoundReached(cfg: Config, count: int) {
    IntTruthy(cfg.maxVenues) && count >= cfg.maxVenues.value
  }

  /** The detail-fetched venues of a sequence of listings, in order. */
  function MapDetails(listings: seq<Venue>, web: Web): (r: seq<Venue>)
    requires forall i :: 0 <= i < |listings| ==> listings[i].detailUrl.Some?
    ensures |r| == |listings|
    decreases |listings|
  {
    if |listings| == 0 then [] else [GetDetails(listings[0], web)] + MapDetails(listings[1..], web)
  }

  /** Each listing is completed with its own detail page, in order. */
  lemma {:induction false} MapDetailsEach(listings: seq<Venue>, web: Web)
    requires forall i :: 0 <= i < |listings| ==> listings[i].detailUrl.Some?
    ensures forall i :: 0 <= i < |listings| ==> MapDetails(listings, web)[i] == GetDetails(listings[i], web)
    decreases |listings|
  {
    if |listings| > 0 {
      MapDetailsEach(listings[1..], web);
      assert forall i :: 1 <= i < |listings| ==> listings[1..][i - 1] == listings[i];
    }
  }

  /**
   * The inner loop over one page's listings: each listing is completed with
   * its detail page and appended, and the loop stops right after the append
   * that reaches the venue bound.
   */
  function DetailLoop(cfg: Config, web: Web, listings: seq<Venue>, acc: seq<Venue>): (r: seq<Venue>)
    requires forall i :: 0 <= i < |listings| ==> listings[i].detailUrl.Some?
    ensures |acc| <= |r| <= |acc| + |listings|
    decreases |listings|
  {
    if |listings| == 0 then acc
    else
      var next := acc + [GetDetails(listings[0], web)];
      if BoundReached(cfg, |next|) then next
      else DetailLoop(cfg, web, listings[1..], next)
  }

  /**
   * The inner loop appends the detail-completed listings in order, and
   * stops right after the append that reaches the venue bound, never
   * earlier.
   */
  lemma DetailLoopSpec(cfg: Config, web: Web, listings: seq<Venue>, acc: seq<Venue>)
    requires forall i :: 0 <= i < |listings| ==> listings[i].detailUrl.Some?
    ensures var r := DetailLoop(cfg, web, listings, acc);
      && r == acc + MapDetails(listings, web)[..|r| - |acc|]
      && (|r| < |acc| + |listings| ==> |r| > |acc| && BoundReached(cfg, |r|))
      && (forall n :: |acc| < n < |r| ==> !BoundReached(cfg, n))
  {
    DetailLoopAppendsInOrder(cfg, web, listings, acc);
    DetailLoopStops(cfg, web, listings, acc);
  }

  lemma {:induction false} DetailLoopAppendsInOrder(cfg: Config, web: Web, listings: seq<Venue>, acc: seq<Venue>)
    requires forall i :: 0 <= i < |listings| ==> listings[i].detailUrl.Some?
    ensures var r := DetailLoop(cfg, web, listings, acc);
      r == acc + MapDetails(listings, web)[..|r| - |acc|]
    decreases |listings|
  {
    if |listings| > 0 {
      var x := GetDetails(listings[0], web);
      var next := acc + [x];
      var rest := MapDetails(listings[1..], web);
      var all := MapDetails(listings, web);
      assert all == [x] + rest;
      if BoundReached(cfg, |next|) {
        ConsPrefix(acc, x, rest, all, 0);
      } else {
        var r := DetailLoop(cfg, web, listings[1..], next);
        DetailLoopAppendsInOrder(cfg, web, listings[1..], next);
        ConsPrefix(acc, x, rest, all, |r| - |next|);
      }
    }
  }

  lemma {:induction false} DetailLoopStops(cfg: Config, web: Web, listings: seq<Venue>, acc: seq<Venue>)
    requires forall i :: 0 <= i < |listings| ==> listings[i].detailUrl.Some?
    ensures var r := DetailLoop(cfg, web, listings, acc);
      && (|r| < |acc| + |listings| ==> |r| > |acc| && BoundReached(cfg, |r|))
      && (forall n :: |acc| < n < |r| ==> !BoundReached(cfg, n))
    decreases |listings|
  {
    if |listings| > 0 {
      var next := acc + [GetDetails(listings[0], web)];
      if !BoundReached(cfg, |next|) {
        DetailLoopStops(cfg, web, listings[1..], next);
      }
    }
  }

  /** Extending by one more item of a list is taking a longer prefix of the list with that item in front. */
  lemma ConsPrefix<T>(acc: seq<T>, x: T, rest: seq<T>, all: seq<T>, j: nat)
    requires all == [x] + rest && j <= |rest|
    ensures (acc + [x]) + rest[..j] == acc + all[..j + 1]
  {
    assert all[..j + 1] == [x] + rest[..j];
  }

  /**
   * The inner loop appends a prefix of the detail-completed listings, all
   * of them unless the venue bound is reached.
   */
  lemma DetailLoopAppends(cfg: Config, web: Web, listings: seq<Venue>, acc: seq<Venue>)
    requires forall i :: 0 <= i < |listings| ==> listings[i].detailUrl.Some?
    ensures var r := DetailLoop(cfg, web, listings, acc);
      var all := MapDetails(listings, web);
      && acc <= r <= acc + all
      && (r == acc + all || BoundReached(cfg, |r|))
  {
    var r := DetailLoop(cfg, web, listings, acc);
    var all := MapDetails(listings, web);
    DetailLoopSpec(cfg, web, listings, acc);
    PrefixOfConcat(acc, all, |r| - |acc|);
    if |r| == |acc| + |listings| {
      assert all[..|r| - |acc|] == all;
    }
  }

  lemma PrefixOfConcat<T>(a: seq<T>, b: seq<T>, j: nat)
    requires j <= |b|
    ensures a <= a + b[..j] <= a + b
  {
    assert (a + b)[..|a| + j] == a + b[..j];
  }

  /** The venues a successfully fetched listing page yields; none when the fetch fails. */
  function Listings(web: Web, page: int): (r: seq<Venue>)
    ensures forall i :: 0 <= i < |r| ==> r[i].detailUrl.Some?
  {
    var html := web.getPage(PageUrl(page));
    if Fetched(html) then ParseVenues(web.containers(html.value)) else []
  }

  /** Whether the listing page `page` can be fetched. */
  predicate PageFetched(web: Web, page: int) {
    Fetched(web.getPage(PageUrl(page)))
  }

  /** One iteration of the page loop's body after a successful fetch: the inner loop over the page's listings. */
  function ProcessPage(cfg: Config, web: Web, page: int, acc: seq<Venue>): seq<Venue>
  {
    DetailLoop(cfg, web, Listings(web, page), acc)
  }

  /** All the detail-fetched venues of a fetched listing page. */
  function PageVenues(web: Web): int -> seq<Venue> {
    page => MapDetails(Listings(web, page), web)
  }

  /** The page loop's steps: the page bound, the listing fetch, the page body and the venue bound. */
  function Steps(cfg: Config, web: Web): Pages.Steps<Venue> {
    Pages.Steps(cfg.maxPages,
                page => PageFetched(web, page),
                (page, acc) => ProcessPage(cfg, web, page, acc),
                vs => BoundReached(cfg, |vs|))
  }

  /**
   * The page loop of `scrape_progressive` from page `page` with the venues
   * gathered so far in `acc`: pages are visited in increasing order up to the
   * page bound; a failed fetch ends the loop, and so does reaching the venue
   * bound.
   */
  function PageLoop(cfg: Config, web: Web, page: int, acc: seq<Venue>): Pages.Run<Venue> {
    Pages.PageLoop(Steps(cfg, web), page, acc)
  }

  /** A page's body appends a prefix of the page's venues, all of them unless the venue bound is reached. */
  lemma StepsAppend(cfg: Config, web: Web)
    ensures Pages.AppendsPage(Steps(cfg, web), PageVenues(web))
  {
    var st := Steps(cfg, web);
    forall page, acc
      ensures && acc <= st.process(page, acc) <= acc + PageVenues(web)(page)
              && (st.process(page, acc) == acc + PageVenues(web)(page) || st.stop(st.process(page, acc)))
    {
      DetailLoopAppends(cfg, web, Listings(web, page), acc);
    }
  }

  /**
   * With a truthy venue bound, a page's body never ends above
   * `max(bound, venues so far + 1)`, and the loop goes on only below the bound.
   */
  lemma StepsBounded(cfg: Config, web: Web)
    requires IntTruthy(cfg.maxVenues)
    ensures Pages.Bounded(Steps(cfg, web), cfg.maxVenues.value)
  {
    var st := Steps(cfg, web);
    forall page, acc ensures |st.process(page, acc)| <= Pages.Max(cfg.maxVenues.value, |acc| + 1) {
      var r := DetailLoop(cfg, web, Listings(web, page), acc);
      DetailLoopSpec(cfg, web, Listings(web, page), acc);
      if |r| > |acc| + 1 {
        assert !BoundReached(cfg, |r| - 1);
      }
    }
  }

  /**
   * `scrape_progressive(start_page)` on the progress loaded from the
   * checkpoint file (empty when there is none or it cannot be read).
   */
  function Scrape(cfg: Config, web: Web, loaded: seq<Venue>, startPage: int): (r: Pages.Run<Venue>)
    ensures loaded <= r.items
    ensures IntTruthy(cfg.maxVenues) && |loaded| < cfg.maxVenues.value ==> |r.items| <= cfg.maxVenues.value
  {
    var start := ResumeStart(|loaded|, startPage);
    HarvestExtends(cfg, web, start, loaded);
    HarvestBound(cfg, web, start, loaded);
    PageLoop(cfg, web, start, loaded)
  }

  /** A run only appends to the venues it starts from. */
  lemma HarvestExtends(cfg: Config, web: Web, page: int, acc: seq<Venue>)
    ensures acc <= PageLoop(cfg, web, page, acc).items
  {
    var r := PageLoop(cfg, web, page, acc);
    StepsAppend(cfg, web);
    Pages.Checkpoints(Steps(cfg, web), page, acc);
    if |r.checkpoints| > 0 {
      PrefixTransitive(acc, r.checkpoints[0], r.items);
    }
  }

  /**
   * The venue bound: a run never ends with more than the bound, except that
   * one venue is always appended after a non-empty page is fetched, even
   * when the loaded progress already meets the bound.
   */
  lemma HarvestBound(cfg: Config, web: Web, page: int, acc: seq<Venue>)
    ensures IntTruthy(cfg.maxVenues) ==>
      |PageLoop(cfg, web, page, acc).items| <= Pages.Max(cfg.maxVenues.value, |acc| + 1)
  {
    if IntTruthy(cfg.maxVenues) {
      StepsBounded(cfg, web);
      Pages.RunBound(Steps(cfg, web), cfg.maxVenues.value, page, acc);
    }
  }

  /**
   * The returned venues are the loaded ones followed by the venues of the
   * processed pages in page order: every processed page but the last
   * contributes all its venues, the last one a prefix of them (the venue
   * bound may cut it short).
   */
  lemma HarvestContents(cfg: Config, web: Web, page: int, acc: seq<Venue>)
    ensures var r := PageLoop(cfg, web, page, acc);
      Pages.Gathered(acc, Pages.PartsOf(PageVenues(web), r.processed), r.items)
  {
    StepsAppend(cfg, web);
    Pages.Contents(Steps(cfg, web), PageVenues(web), page, acc);
  }

  /**
   * Every progress checkpoint holds a prefix of the returned venues that
   * extends the loaded ones, each checkpoint extends the previous one, and
   * the last one holds exactly the returned venues.
   */
  lemma HarvestCheckpoints(cfg: Config, web: Web, page: int, acc: seq<Venue>)
    ensures var r := PageLoop(cfg, web, page, acc);
      SnapshotChain(acc, r.checkpoints, r.items)
  {
    StepsAppend(cfg, web);
    Pages.Checkpoints(Steps(cfg, web), page, acc);
  }

  /**
   * A milestone is written exactly for the processed pages divisible by 10,
   * in page order, and holds the same venues as the progress checkpoint
   * written for that page.
   */
  lemma HarvestMilestones(cfg: Config, web: Web, page: int, acc: seq<Venue>)
    ensures var r := PageLoop(cfg, web, page, acc);
      Pages.MilestonesMatch(page, r.processed, r.checkpoints, r.milestones)
  {
    Pages.Milestones(Steps(cfg, web), page, acc);
  }

  /**
   * Checkpoints make the run resumable: restarting at the page after a
   * checkpoint, from that checkpoint's venues, yields the same venues, pages,
   * failure and later checkpoints as the uninterrupted run.
   */
  lemma ResumeFromCheckpoint(cfg: Config, web: Web, page: int, acc: seq<Venue>, k: nat, resumePage: int, from: seq<Venue>)
    requires k < |PageLoop(cfg, web, page, acc).processed|
    requires resumePage == page + k + 1 && from == PageLoop(cfg, web, page, acc).checkpoints[k]
    requires !BoundReached(cfg, |from|)
    ensures var r := PageLoop(cfg, web, page, acc);
      var resumed := PageLoop(cfg, web, resumePage, from);
      && resumed.items == r.items
      && resumed.processed == r.processed[k + 1..]
      && resumed.failedAt == r.failedAt
      && resumed.checkpoints == r.checkpoints[k + 1..]
  {
    Pages.ResumeFromCheckpoint(Steps(cfg, web), page, acc, k, resumePage, from);
  }
}
