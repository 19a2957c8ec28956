# Berlin venue pipeline — a Dafny model

This project models the logic of a small pipeline that collects the
"Lokale Favoriten" gift-voucher venues of Berlin from atentogutschein.de and
prepares them for a map. The pipeline has four stages:

* **Harvester** (`scraper_berlin.py`). It walks the paginated listing. For
  each listing container it builds a venue record: name, slug, cleaned
  address, filtered tags and detail URL. It then adds the About text and
  website from the venue's detail page. Progress is saved after every page,
  a milestone backup is written every tenth page, and the run stops at the
  page bound, at the optional venue bound, or at the first page that cannot
  be fetched. A run resumes from saved progress at an estimated page.
* **Geocoding enricher** (`geocoding_enhancer.py`). For each venue it sends
  a primary Nominatim query and, if needed, a simpler fallback query. The
  district comes from the hit's address components, or else from a small
  postcode table. Venues are processed in batches: progress is saved after
  each batch, a milestone every fifth batch, and a run resumes after the
  saved progress.
* **Deduplication** (`deduplicate_venues.py`). It counts names, reports the
  duplicated ones, and keeps the first venue of each name.
* **Statistics** (`check_progress_berlin.py`). It counts how many venues
  carry each kind of data, and how many distinct tags and districts exist.

The model is functional. A venue is an immutable `Venue` datatype
(`venues.dfy`). Every stage is a pure function over sequences of venues. The
outside world is passed in as parameters:

* the web: page fetches, the container texts of a listing page, and the
  fields of a detail page;
* the geocoder: a function from a query to its reply.

The loops are recursive functions. Their results also record what the
program writes to disk: the progress snapshot after each page or batch, and
the milestone snapshots. This lets the save rules be stated as properties.

Modules: `Options`, `Venues`, `Text` (the Python string operations used:
`split`, `strip`, `re.sub(r'^[^\w]*', '')`, `str(int)`), `Snapshots`,
`Listing`, `Pages`, `Harvester`, `District`, `Batches`, `Geocoding`, `Dedup`,
`Statistics`. `Pages` is the harvester's page loop and `Batches` the
enricher's batch loop, each written for any per-page or per-item step; the
harvester and the enricher instantiate them with their own steps.

## Model

| member | source | states |
|---|---|---|
| Text.SplitFirst | geocoding_enhancer.py:62 | `split(sep)[0]` is a prefix of the string with no separator in it, and is either the whole string or is followed by the separator; no separator starts before the cut, so the cut is at the first occurrence |
| Text.SplitLast | scraper_berlin.py:110 | `split(sep)[-1]` is a suffix with no separator in it, and is either the whole string or is preceded by the separator |
| Text.IntToStringRoundTrip | scraper_berlin.py:217 | the decimal text of a page number reads back as that number |
| Listing.Slug | scraper_berlin.py:110 | the slug contains no `?` and no `/marketplace_merchants/`, and occurs in the link's href |
| Listing.SlugPosition | scraper_berlin.py:110 | the slug is the text of the href from a cut up to the next `?` or the end; the cut is the start of the href or the end of a merchant marker, and no marker starts at or after it |
| Listing.CleanAddress | scraper_berlin.py:123-126 | the cleaned address occurs in the paragraph text, is empty or starts with a word character, and has no trailing whitespace |
| Listing.CleanAddressPosition | scraper_berlin.py:123-126 | the address is the span of the paragraph text that starts at its first word character (or its end), with only whitespace after the span |
| Listing.FilterTags | scraper_berlin.py:139-145 | a span text is kept exactly when it is non-empty, differs from the name, does not occur in the address and is shorter than 30 characters |
| Listing.ExtractVenue | scraper_berlin.py:96-153 | no record exactly when there is no merchant link; otherwise name, slug, address (empty when no address paragraph is found), detail URL (base URL + href) as built, and a tag set holding exactly the span texts that pass the filter, with no duplicates |
| Listing.ParseVenues | scraper_berlin.py:76-94 | at most one venue per container, and each is a fresh listing: slug, address and detail URL set, no detail or location field set, every tag passing the filter |
| Listing.ParseVenuesSources | scraper_berlin.py:76-94 | every parsed venue is the record of some container, and every container with a merchant link contributes its record |
| Listing.ParseVenuesAppend | scraper_berlin.py:76-94 | parsing two runs of containers gives the venues of the first run followed by those of the second, so page order and duplicates are kept |
| Listing.ParseVenuesSnoc | scraper_berlin.py:89-92 | one more container appends its venue at the end when it has a merchant link, and adds nothing otherwise |
| Listing.GetDetails | scraper_berlin.py:155-189 | an unfetched detail page leaves the venue unchanged; a fetched one sets `about` and `website` from the page; no other field changes |
| Listing.GetDetailsIdempotent | scraper_berlin.py:155-189 | completing a venue's details twice is completing them once |
| Harvester.MaxPages | scraper_berlin.py:40 | the requested page bound when it is truthy; otherwise 2 in test mode and 89 in full mode |
| Harvester.MaxPagesStable | scraper_berlin.py:40 | applying the default to an already defaulted page bound changes nothing |
| Harvester.NewConfig | scraper_berlin.py:36-41 | a truthy page bound is kept; 0 or None gives 2 in test mode and 89 otherwise; the page bound is never 0; the venue bound is stored as given |
| Harvester.ResumeStart | scraper_berlin.py:202-206 | with saved venues and start page 1, the start page is `max(1, n // 22)`: at least 1, at most n/22 unless it is 1, and more than n/22 − 1; otherwise the given start page |
| Harvester.PageUrl | scraper_berlin.py:214-217 | page 1 is the listing URL itself; any other page is the listing URL followed by `&page=` and the page number in decimal |
| Harvester.PageUrlRoundTrip | scraper_berlin.py:214-217 | page 1 uses the listing URL as is, page n uses `&page=n`, and the page number can be read back from the URL |
| Harvester.PageUrlInjective | scraper_berlin.py:214-217 | distinct pages are fetched from distinct URLs |
| Harvester.MapDetailsEach | scraper_berlin.py:229-231 | each listing of a page is completed with its own detail page, in listing order |
| Harvester.DetailLoopSpec | scraper_berlin.py:229-235 | the inner loop appends the detail-completed listings in order and stops right after the append that reaches the venue bound, never earlier |
| Harvester.DetailLoopAppends | scraper_berlin.py:229-235 | the inner loop appends a prefix of the page's detail-completed listings, all of them unless the venue bound is reached |
| Harvester.StepsAppend | scraper_berlin.py:221-235 | the body of the page loop appends a prefix of the fetched page's venues, all of them unless the venue bound is reached |
| Harvester.StepsBounded | scraper_berlin.py:229-250 | with a truthy venue bound, one page's body never ends above max(bound, venues so far + 1), and the loop continues only below the bound |
| Pages.PageLoop | scraper_berlin.py:211-250 | pages are processed consecutively from the start page and each one was fetched; the loop ends at the page bound, at the venue bound, or at the first unfetched page, which is reported and after which no page is visited; one progress snapshot per processed page; the loop goes on only while the stopping condition fails on every snapshot but the last, and a run that ends before the page bound without a failure ends on the stopping condition |
| Pages.Checkpoints | scraper_berlin.py:237-239 | when a page's body only appends, each progress snapshot extends the previous one, starting from the loaded progress, and the last one is the result |
| Pages.Contents | scraper_berlin.py:211-235 | when a page's body appends a prefix of the page's items, all of them unless the loop stops, the result is the loaded progress followed by the items of the processed pages in page order, the last page possibly cut short |
| Pages.RunBound | scraper_berlin.py:229-250 | when no page's body takes the progress past max(bound, one more item) and the loop continues only below the bound, the result holds at most max(bound, loaded + 1) items |
| Pages.Milestones | scraper_berlin.py:241-246 | a milestone is written for exactly the processed pages divisible by 10, in page order, holding that page's progress snapshot |
| Pages.ResumeFromCheckpoint | scraper_berlin.py:211-239 | restarting at the page after a progress snapshot that has not met the stopping condition, from that snapshot, gives the same items, later pages, failure and later snapshots as the uninterrupted run |
| Harvester.Scrape | scraper_berlin.py:191-256 | the run only appends to the loaded progress, and with a truthy venue bound above the loaded count the result holds at most that many venues |
| Harvester.HarvestExtends | scraper_berlin.py:198-231 | the loaded venues are a prefix of the result |
| Harvester.HarvestBound | scraper_berlin.py:229-235 | with a truthy venue bound the result holds at most max(bound, loaded + 1) venues |
| Harvester.HarvestContents | scraper_berlin.py:211-235 | the result is the loaded venues followed by the detail-completed venues of the processed pages in page order and listing order; only the last page may be cut short |
| Harvester.HarvestCheckpoints | scraper_berlin.py:237-239 | a progress snapshot is saved after every processed page; each extends the previous one, and the last one is the result |
| Harvester.HarvestMilestones | scraper_berlin.py:241-246 | a milestone is written for exactly the processed pages divisible by 10, in page order, holding that page's progress snapshot |
| Harvester.ResumeFromCheckpoint | scraper_berlin.py:237-239 | when a progress snapshot has not reached the venue bound, restarting at the page after it, from that snapshot, gives the same venues, later pages, failure and later snapshots as the uninterrupted run |
| District.SearchKeys | geocoding_enhancer.py:99-104 | the value of the first key whose value is truthy, not "Berlin" and longer than 2 characters; none exactly when no key qualifies |
| District.ExtractDistrict | geocoding_enhancer.py:87-125 | the first qualifying key in the order suburb, neighbourhood, city_district, quarter, district wins; otherwise a postcode starting with "10" is looked up in the table, and any other postcode gives none; a result is never "Berlin", empty or shorter than 3 characters |
| District.TwelvePostcodesUnreachable | geocoding_enhancer.py:106-123 | when no key qualifies, a postcode starting with "12" gives no district, although the table lists such postcodes |
| District.NeukoellnPostcodeIgnored | geocoding_enhancer.py:108-118 | postcode 12043 is in the table, yet a hit with only that postcode gives no district |
| District.MittePostcodeResolved | geocoding_enhancer.py:106-123 | a hit whose suburb is "Berlin" and whose postcode is 10115 gives "Mitte" |
| Geocoding.PrimaryQuery | geocoding_enhancer.py:35 | the primary query is the address text followed by ", Berlin, Germany" |
| Geocoding.FallbackQuery | geocoding_enhancer.py:62 | the fallback query is the address up to its first comma (the whole address when it has none), followed by ", Berlin" |
| Geocoding.FallbackFromPrimary | geocoding_enhancer.py:35-62 | the fallback query is the primary query's first comma-separated segment followed by ", Berlin" |
| Geocoding.FromHit | geocoding_enhancer.py:52-59 | a hit gives its coordinates and the district extracted from its address breakdown, which is never "Berlin", empty or shorter than 3 characters |
| Geocoding.GeocodeVenue | geocoding_enhancer.py:31-85 | the primary query is sent first; a primary match is used and no fallback is sent; the fallback is sent exactly when the primary search returned normally without a result and the address is not null; a location is returned exactly when the last query sent matched; otherwise the result is (None, None, None) |
| Geocoding.EnhanceOne | geocoding_enhancer.py:152-163 | a venue with truthy coordinates and district is kept unchanged; otherwise only the coordinates and district change: coordinates are set exactly when both lat and lon are truthy, and the district is whatever the search returned |
| Geocoding.EnhanceIdempotent | geocoding_enhancer.py:152-161 | enhancing an enhanced venue again changes nothing |
| Geocoding.CoordinatesWithoutDistrict | geocoding_enhancer.py:160-161 | a venue can end up with coordinates but no district |
| Geocoding.FailureStoresNothing | geocoding_enhancer.py:158-161 | when no query matched, the venue stores no coordinates and no district |
| Geocoding.EnhanceAll | geocoding_enhancer.py:148-163 | one enhanced venue per input venue, in order |
| Geocoding.EnhancedFrom | geocoding_enhancer.py:140-163 | the venues from a given index on, each enhanced, in order; none when the index is past the end |
| Batches.MapAllAppend | geocoding_enhancer.py:140-163 | mapping a concatenation is concatenating the mapped parts, so the work can be split into batches |
| Batches.BatchNumber | geocoding_enhancer.py:142 | the batch starting at i has the number n with (n−1)·size ≤ i < n·size |
| Batches.BatchNumberStep | geocoding_enhancer.py:140-142 | batches one batch size apart have consecutive numbers |
| Batches.BatchSchedule | geocoding_enhancer.py:140-141 | batches start at the start index, one batch size apart, while the start is before the end; a progress snapshot is saved after each batch and covers the items up to the batch's end |
| Batches.BatchContents | geocoding_enhancer.py:140-163 | the loop returns the progress followed by every item from the start index on, mapped, in order |
| Batches.BatchCheckpoints | geocoding_enhancer.py:169-170 | each progress snapshot extends the previous one, starting from the loaded progress, and the last one is the result |
| Batches.BatchMilestones | geocoding_enhancer.py:173-177 | a milestone is written after exactly the batches whose number is a multiple of 5, holding that batch's progress snapshot; consecutive batches have consecutive numbers |
| Batches.ResumeIndex | geocoding_enhancer.py:134-136 | non-empty progress with start index 0 resumes at the length of the progress; otherwise the start index is kept |
| Batches.Resume | geocoding_enhancer.py:132-163 | the output is the loaded progress followed by the mapped items from the resume index on, and its length is the progress length plus max(0, items − resume index) |
| Batches.ResumeCompletes | geocoding_enhancer.py:132-163 | when the saved progress is the image of the first items, resuming yields the image of the whole list |
| Batches.PrefixOfImage | geocoding_enhancer.py:169-170 | a prefix of the image of a list is the image of a prefix of the list |
| Batches.CheckpointsResumable | geocoding_enhancer.py:169-170 | every progress snapshot of a fresh run is the image of the first items, and so a valid point to resume from |
| Geocoding.EnhanceVenuesBatch | geocoding_enhancer.py:127-182 | the output is the progress followed by every venue from the resume index on, enhanced; the progress snapshots extend one another up to the output; milestones are the snapshots of the batches numbered by multiples of 5; batches start at the resume index and step by the batch size until the list is covered |
| Geocoding.ResumeCompletes | geocoding_enhancer.py:132-163 | when the saved progress is the enhancement of the first venues, resuming yields the enhancement of the whole list |
| Geocoding.CheckpointsResumable | geocoding_enhancer.py:169-170 | every progress snapshot of a fresh run is the enhancement of the first venues, and so a valid point to resume from |
| Dedup.KeepFirst | deduplicate_venues.py:40-49 | the kept venues have distinct names, the same set of names as the input, and are no more than the input |
| Dedup.FirstIndices | deduplicate_venues.py:43-47 | the increasing list of the positions whose name has not appeared before |
| Dedup.KeepFirstPicksFirsts | deduplicate_venues.py:43-47 | the output is the input at the first-occurrence positions, in input order: an order-preserving subsequence keeping the first venue of each name |
| Dedup.DistinctKeepsAll | deduplicate_venues.py:40-49 | with distinct names, the output is the input |
| Dedup.KeepAllIsDistinct | deduplicate_venues.py:40-52 | nothing is removed only when the names are distinct |
| Dedup.KeepFirstCount | deduplicate_venues.py:40-52 | the output length is the number of distinct names, and equals the input length exactly when the names are distinct |
| Dedup.KeepFirstLoop | deduplicate_venues.py:40-49 | the loop with its `seen` set keeps exactly the first venue of each name, in order |
| Dedup.KeepFirstIdempotent | deduplicate_venues.py:40-49 | deduplicating twice is deduplicating once |
| Dedup.CountNamesTally | deduplicate_venues.py:25-26 | the counter has one entry per distinct name, in order of first appearance, holding that name's number of venues |
| Dedup.CountNamesSum | deduplicate_venues.py:25-26 | the counts add up to the number of venues |
| Dedup.Duplicates | deduplicate_venues.py:27 | an entry is reported exactly when it is a counter entry with a count above 1 |
| Dedup.DuplicateNames | deduplicate_venues.py:25-27 | a name is reported exactly when more than one venue carries it, and with its number of venues |
| Dedup.ReportedTotalIsRemoved | deduplicate_venues.py:34-52 | the reported total `sum(counts) − len(duplicates)` equals the number of venues removed |
| Dedup.NoDuplicatesIffDistinct | deduplicate_venues.py:27-37 | nothing is reported exactly when all names are distinct |
| Dedup.DeduplicateVenues | deduplicate_venues.py:10-79 | with no duplicates the input is returned and nothing is saved; otherwise the first venue of each name is kept and saved; either way the names are distinct and all input names survive |
| Statistics.CountIfMatching | check_progress_berlin.py:17-22 | each count is the number of positions whose venue has that field truthy |
| Statistics.AllTags | check_progress_berlin.py:26-35 | a tag is collected exactly when some venue has it |
| Statistics.AllDistricts | check_progress_berlin.py:27-36 | a district is collected exactly when some venue has it as a truthy district |
| Statistics.AnalyzeVenues | check_progress_berlin.py:13-38 | total is the number of venues; each field count is the number of venues carrying that field; the distinct counts are the sizes of the union of tags and of the set of districts; distinct districts are at most the venues with a district; an empty input gives all zeros |
| Statistics.DistrictsBounded | check_progress_berlin.py:22-36 | there are no more distinct districts than venues with a district |
| Statistics.NoTaggedVenuesNoTags | check_progress_berlin.py:20-35 | no venue has tags exactly when no tag is collected |
| Statistics.AnalyzeAppend | check_progress_berlin.py:13-38 | the statistics of a concatenation add up, and its tag and district sets are the unions |

## Left out

- HTTP: sessions, `get_page`, the Nominatim requests and their status codes. They are parameters: `Web.getPage` (the body of a 200 response or `None`) and the geocoder `lookup` (a match, no match, or an exception).
- The `asyncio.sleep` rate-limit pauses: wall-clock time only.
- HTML parsing with BeautifulSoup. This covers the container cascade in `parse_venues_clean`, the address-paragraph and tag-span cascades in `extract_venue_from_container`, and the About/website scraping in `get_venue_details`. A container is given by the texts those selectors pick, and a detail page by the two texts scraped from it.
- JSON files: loading and saving progress, milestone and output files, file names with timestamps, `Path.exists`, `unlink`, the glob-based input-file search, and the `main` functions. Loaded progress is a parameter; each save is recorded as the snapshot it writes.
- Logging, printing, the percentage lines, the post-deduplication statistics printout, `format_file_info`, `check_progress`, and the argparse command lines.
- `serve.py`: a static file server with a browser-opening thread, which is I/O and concurrency only.
- Float parsing of `lat`/`lon`: coordinates are reals. A non-numeric or missing value is an exception reply.
- Nondeterminism of the services: the web and the geocoder are fixed functions, so asking twice gives the same answer. The idempotence and resume lemmas depend on this.
- In-place mutation: `get_venue_details` and the enricher update the venue dicts in place, which also changes the caller's list. The model returns new records instead.
- A missing dict key and a key holding `null` are both `None`. A venue without an `address` key makes `geocode_venue` raise before any query; the model treats it as a null address, which sends the query "None, Berlin, Germany".
- Tag order: the scraper stores `list(set(tags))`, whose order is arbitrary. Tags are a set here.
- Text.IsWordChar: approximates Python's Unicode `\w` by ASCII letters, digits and `_`, Latin-1 letters and digits, and U+0100–U+024F. Other scripts are treated as non-word characters.
- Geocoding.EnhanceVenuesBatch: requires a positive batch size and a non-negative start index. A zero step makes Python's `range` raise, a negative one counts down, and negative indices slice from the end; none of these is modelled.
- Batches.BatchLoop: the same positive-batch-size requirement.
- Text.SplitLast: the contract says the result has no separator and is the whole string or follows an occurrence. For a separator that overlaps itself (the merchant marker begins and ends with "/") this leaves more than one candidate. The body follows Python's left-to-right scan for non-overlapping occurrences, which fixes the answer, but no ensures states that choice.
- District.ExtractDistrict: component values are strings. Non-string values in the geocoder's breakdown are not modelled.
- The postcode table is copied exactly as the source text spells it: the umlauts of "Schöneberg" and "Neukölln" appear there as the two characters U+221A U+2202.
- A failed geocoding stores `None` for coordinates and district; coordinates can be stored while the district stays `None`.
- Venues.Venue: the name is a plain string, always present and never null. In Python a venue without a `name` key raises `KeyError` when deduplicating (deduplicate_venues.py:25, :44) or when geocoding logs it (geocoding_enhancer.py:150), and a `null` name is counted and kept as the key `None`; neither case is modelled.
