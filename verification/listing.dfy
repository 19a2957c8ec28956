/**
 * One listing of the venue directory: turning the texts found in a venue
 * container into a venue record (`extract_venue_from_container`), reading
 * a listing page (`parse_venues_clean`), and merging the detail page into
 * the record (`get_venue_details`).
 *
 * The HTML library is not modelled: a container is given by the texts the
 * selector cascades pick out of it, and a detail page by the About text and
 * website link scraped from it.
 */
module Listing {
  import opened Options
  import opened Text
  import opened Venues

  const BaseUrl := "https://atentogutschein.de"
  const MerchantMarker := "/marketplace_merchants/"
  /** Tags of this length or longer are dropped. */
  const MaxTagLength := 30

  /** The `h3 > a` merchant link of a container: its stripped text and its `href`. */
  datatype Link = Link(text: string, href: string)

  /**
   * What the selector cascades find in one container: the merchant link
   * (`None` when the container has no `h3` or the `h3` has no merchant
   * link), the stripped text of the address paragraph (`None` when no
   * paragraph qualifies), and the stripped texts of the tag spans, in
   * document order.
   */
  datatype Container = Container(link: Option<Link>, addressText: Option<string>, spanTexts: seq<string>)

  /** What the detail page yields: the About text and the website link (each possibly ""). */
  datatype DetailFields = DetailFields(about: string, website: string)

  /**
   * The outside world the harvester talks to.
   * `getPage` is `get_page`: the body of a 200 response, `None` on any
   * other status or a transport error. `containers` is the container
   * cascade of `parse_venues_clean` applied to a listing page, and
   * `details` the About/website scraping applied to a detail page.
   */
  datatype Web = Web(
    getPage: string -> Option<string>,
    containers: string -> seq<Container>,
    details: string -> DetailFields)

  /** `if not html`: a page counts as fetched only when its body is non-empty. */
  predicate Fetched(html: Option<string>) {
    Truthy(html)
  }

  /**
   * `slug` is the text of `href` from position `a` up to the next `?` or the
   * end, where `a` is the start of `href` or the end of a merchant marker
   * with no marker starting at or after it.
   */
  ghost predicate SlugCut(href: string, a: int, slug: string) {
    && 0 <= a && a + |slug| <= |href|
    && (a == 0 || OccursAt(href, MerchantMarker, a - |MerchantMarker|))
    && (forall j :: a <= j ==> !OccursAt(href, MerchantMarker, j))
    && href[a..a + |slug|] == slug
    && (a + |slug| == |href| || href[a + |slug|] == '?')
  }

  /** The slug: the last piece after the merchant marker, cut at the first `?`. */
  function Slug(href: string): (slug: string)
    ensures !Contains(slug, "?")
    ensures !Contains(slug, MerchantMarker)
    ensures Contains(href, slug)
  {
    var tail := SplitLast(href, MerchantMarker);
    var slug := SplitFirst(tail, "?");
    NotContainsPrefix(tail, MerchantMarker, |slug|);
    PrefixOfSuffixOccurs(href, |href| - |tail|, slug);
    slug
  }

  /** The slug is the text after the last merchant marker of `href`, up to the next `?`. */
  lemma SlugPosition(href: string)
    ensures exists a :: SlugCut(href, a, Slug(href))
  {
    var tail := SplitLast(href, MerchantMarker);
    var slug := SplitFirst(tail, "?");
    assert Slug(href) == slug;
    SlugCutFrom(href, tail, slug);
  }

  /** A `?`-cut prefix of the text after the last marker lies at a cut described by `SlugCut`. */
  lemma SlugCutFrom(href: string, tail: string, slug: string)
    requires |tail| <= |href| && tail == href[|href| - |tail|..]
    requires !Contains(tail, MerchantMarker)
    requires tail == href || OccursAt(href, MerchantMarker, |href| - |tail| - |MerchantMarker|)
    requires slug <= tail
    requires slug == tail || OccursAt(tail, "?", |slug|)
    ensures SlugCut(href, |href| - |tail|, slug)
  {
    var a := |href| - |tail|;
    forall j | a <= j ensures !OccursAt(href, MerchantMarker, j) {
      OccursInSuffix(href, MerchantMarker, a, j - a);
    }
    PrefixOfSuffixOccurs(href, a, slug);
    assert a + |slug| == |href| || href[a + |slug|] == '?' by {
      if slug != tail {
        assert tail[|slug|..|slug| + 1] == "?";
        assert href[a + |slug|] == tail[|slug|];
      }
    }
    assert SlugCut(href, a, slug);
  }

  /**
   * `address` is `text[a..b]`, where `a` is the first word character of
   * `text` (or its end) and everything from `b` on is whitespace.
   */
  ghost predicate AddressSpan(text: string, a: int, b: int, address: string) {
    && 0 <= a <= b <= |text| && address == text[a..b]
    && (forall i :: 0 <= i < a ==> !IsWordChar(text[i]))
    && (a == |text| || IsWordChar(text[a]))
    && (forall i :: b <= i < |text| ==> IsSpace(text[i]))
  }

  /** The address: leading non-word characters removed, then whitespace stripped. */
  function CleanAddress(text: string): (address: string)
    ensures Contains(text, address)
    ensures address == [] || IsWordChar(address[0])
    ensures address == [] || !IsSpace(address[|address| - 1])
  {
    var afterPrefix := DropNonWordPrefix(text);
    var left := LeftStrip(afterPrefix);
    assert left == afterPrefix by {
      if afterPrefix != [] {
        WordCharIsNotSpace(afterPrefix[0]);
      }
    }
    var address := RightStrip(left);
    PrefixOfSuffixOccurs(text, |text| - |afterPrefix|, address);
    address
  }

  /**
   * The address is the paragraph text from its first word character up to
   * its trailing whitespace.
   */
  lemma CleanAddressPosition(text: string)
    ensures exists a, b :: AddressSpan(text, a, b, CleanAddress(text))
  {
    var afterPrefix := DropNonWordPrefix(text);
    if afterPrefix != [] {
      WordCharIsNotSpace(afterPrefix[0]);
    }
    assert LeftStrip(afterPrefix) == afterPrefix;
    var address := RightStrip(afterPrefix);
    assert CleanAddress(text) == address;
    AddressSpanHolds(text, afterPrefix, address);
  }

  /** Dropping a non-word prefix and trailing whitespace leaves a span described by `AddressSpan`. */
  lemma AddressSpanHolds(text: string, rest: string, address: string)
    requires |rest| <= |text| && rest == text[|text| - |rest|..]
    requires forall i :: 0 <= i < |text| - |rest| ==> !IsWordChar(text[i])
    requires rest == [] || IsWordChar(rest[0])
    requires address <= rest
    requires forall i :: |address| <= i < |rest| ==> IsSpace(rest[i])
    ensures AddressSpan(text, |text| - |rest|, |text| - |rest| + |address|, address)
  {
    var a := |text| - |rest|;
    var b := a + |address|;
    PrefixOfSuffixOccurs(text, a, address);
    assert a == |text| || IsWordChar(text[a]) by {
      if a < |text| {
        assert text[a] == rest[0];
      }
    }
    forall i | b <= i < |text| ensures IsSpace(text[i]) {
      assert text[i] == rest[i - a];
    }
    assert AddressSpan(text, a, b, address);
  }

  /** The filter a span text must pass to become a tag. */
  predicate KeepTag(tag: string, name: string, address: string) {
    tag != "" && tag != name && !Contains(address, tag) && |tag| < MaxTagLength
  }

  /** The tag loop: the span texts that pass `KeepTag`, in order. */
  function FilterTags(spans: seq<string>, name: string, address: string): (tags: seq<string>)
    ensures forall t :: t in tags <==> t in spans && KeepTag(t, name, address)
    decreases |spans|
  {
    if |spans| == 0 then []
    else
      var rest := FilterTags(spans[1..], name, address);
      assert forall t :: t in spans <==> t == spans[0] || t in spans[1..];
      if KeepTag(spans[0], name, address) then [spans[0]] + rest else rest
  }

  /** `extract_venue_from_container`: `None` exactly when there is no merchant link. */
  function ExtractVenue(c: Container): (r: Option<Venue>)
    ensures r.None? <==> c.link.None?
    ensures r.Some? ==> IsListing(r.value)
    ensures r.Some? ==> r.value.name == c.link.value.text
    ensures r.Some? ==> r.value.slug == Some(Slug(c.link.value.href))
    ensures r.Some? ==> r.value.detailUrl == Some(BaseUrl + c.link.value.href)
    ensures r.Some? && c.addressText.None? ==> r.value.address == Some("")
    ensures r.Some? && c.addressText.Some? ==> r.value.address == Some(CleanAddress(c.addressText.value))
    ensures r.Some? ==> forall t :: t in r.value.tags <==> t in c.spanTexts && KeepTag(t, r.value.name, r.value.address.value)
  {
    match c.link
    case None => None
    case Some(link) =>
      var address := if c.addressText.Some? then CleanAddress(c.addressText.value) else "";
      var tags := FilterTags(c.spanTexts, link.text, address);
      Some(Venue(
        name := link.text,
        slug := Some(Slug(link.href)),
        address := Some(address),
        tags := (set t | t in tags),
        detailUrl := Some(BaseUrl + link.href),
        about := None,
        website := None,
        coordinates := None,
        district := None))
  }

  /**
   * A freshly extracted listing: slug, address and detail URL are set, no
   * detail or location field is, and every tag passes the filter.
   */
  predicate IsListing(v: Venue) {
    && v.slug.Some? && v.address.Some? && v.detailUrl.Some?
    && v.about.None? && v.website.None? && v.coordinates.None? && v.district.None?
    && (forall t :: t in v.tags ==> KeepTag(t, v.name, v.address.value))
  }

  /** `parse_venues_clean`: the venues of the containers that have a merchant link, in order. */
  function ParseVenues(cs: seq<Container>): (vs: seq<Venue>)
    ensures |vs| <= |cs|
    ensures forall i :: 0 <= i < |vs| ==> IsListing(vs[i])
    decreases |cs|
  {
    if |cs| == 0 then []
    else
      var rest := ParseVenues(cs[1..]);
      match ExtractVenue(cs[0])
      case None => rest
      case Some(v) =>
        var vs := [v] + rest;
        assert forall i :: 0 < i < |vs| ==> vs[i] == rest[i - 1];
        vs
  }

  /** Every parsed venue comes from a container, and every container with a merchant link yields one. */
  lemma {:induction false} ParseVenuesSources(cs: seq<Container>)
    ensures forall v :: v in ParseVenues(cs) ==> exists i :: 0 <= i < |cs| && ExtractVenue(cs[i]) == Some(v)
    ensures forall i :: 0 <= i < |cs| && cs[i].link.Some? ==> ExtractVenue(cs[i]).value in ParseVenues(cs)
    decreases |cs|
  {
    if |cs| > 0 {
      var rest := cs[1..];
      ParseVenuesSources(rest);
      var head := ExtractVenue(cs[0]);
      assert ParseVenues(cs) == (if head.Some? then [head.value] else []) + ParseVenues(rest);
      forall v | v in ParseVenues(cs) ensures exists i :: 0 <= i < |cs| && ExtractVenue(cs[i]) == Some(v) {
        if v in ParseVenues(rest) {
          var j :| 0 <= j < |rest| && ExtractVenue(rest[j]) == Some(v);
          assert cs[j + 1] == rest[j];
        } else {
          assert head == Some(v);
        }
      }
      forall i | 0 <= i < |cs| && cs[i].link.Some? ensures ExtractVenue(cs[i]).value in ParseVenues(cs) {
        if i == 0 {
          assert ParseVenues(cs)[0] == head.value;
        } else {
          assert cs[i] == rest[i - 1];
          assert ExtractVenue(rest[i - 1]).value in ParseVenues(rest);
        }
      }
    }
  }

  /** Parsing a concatenation of containers concatenates the parsed venues: order and multiplicity are kept. */
  lemma {:induction false} ParseVenuesAppend(a: seq<Container>, b: seq<Container>)
    ensures ParseVenues(a + b) == ParseVenues(a) + ParseVenues(b)
    decreases |a|
  {
    if |a| == 0 {
      assert a + b == b;
    } else {
      assert (a + b)[1..] == a[1..] + b;
      ParseVenuesAppend(a[1..], b);
    }
  }

  /** One more container adds its venue at the end exactly when it has a merchant link. */
  lemma ParseVenuesSnoc(cs: seq<Container>, c: Container)
    ensures ParseVenues(cs + [c]) == ParseVenues(cs) + (if c.link.Some? then [ExtractVenue(c).value] else [])
  {
    ParseVenuesAppend(cs, [c]);
    assert [c][1..] == [];
  }

  /** Every field except `about` and `website` is the same in `a` and `b`. */
  predicate SameExceptDetails(a: Venue, b: Venue) {
    a == b.(about := a.about, website := a.website)
  }

  /**
   * `get_venue_details`: when the detail page cannot be fetched the venue is
   * returned as it was; otherwise `about` and `website` are set from the page.
   */
  function GetDetails(v: Venue, web: Web): (r: Venue)
    requires v.detailUrl.Some?
    ensures SameExceptDetails(v, r)
    ensures !Fetched(web.getPage(v.detailUrl.value)) ==> r == v
    ensures Fetched(web.getPage(v.detailUrl.value)) ==>
      var fields := web.details(web.getPage(v.detailUrl.value).value);
      r.about == Some(fields.about) && r.website == Some(fields.website)
  {
    var html := web.getPage(v.detailUrl.value);
    if !Fetched(html) then v
    else
      var fields := web.details(html.value);
      v.(about := Some(fields.about), website := Some(fields.website))
  }

  /** Fetching the details a second time changes nothing more. */
  lemma GetDetailsIdempotent(v: Venue, web: Web)
    requires v.detailUrl.Some?
    ensures GetDetails(GetDetails(v, web), web) == GetDetails(v, web)
  {
  }
}
