/** The AutoTrader scraper (trackers/autotraderTracker.py): one result page per search variation,
    elements filtered against the original term, ids deduplicated across all variations. */
module AutotraderTracker {
  import opened Text
  import opened Basics
  import opened Records
  import opened Dicts
  import opened ListingBuilder
  import opened RelevantMatch
  import opened SearchVariations
  import opened PercentEncoding

  const Source: string := "AutoTrader"
  const BaseUrl: string := "https://www.autotrader.co.za/bikes-for-sale"
  const Site: string := "https://www.autotrader.co.za"
  /** `f"{SOURCE.lower()}_"` */
  const IdPrefix: string := "autotrader_"
  /** The exception `model_parts[1]` raises for a variation with nothing after its first word. */
  const IndexError: string := "IndexError: list index out of range"
  const Nbsp: char := '\U{00A0}'
  const ConditionWords: set<string> := {"used", "new", "demo"}

  /** What the loop reads from one result tile: the stripped texts of the title, price and suburb
      elements (`None` when the element is absent), the stripped texts of the specification tags
      (`None` when there is no specification container), and the `href` ("" when absent). */
  datatype AutotraderElement = AutotraderElement(
    title: Option<string>, price: Option<string>, specs: Option<seq<string>>,
    location: Option<string>, href: string)

  /** A text that is present and non-empty, so that `not text` is false. */
  predicate Present(t: Option<string>) {
    t.Some? && t.value != ""
  }

  // ---------------------------------------------------------------- specifications

  predicate IsKilometerText(text: string) {
    Contains(Lower(text), "km")
  }

  predicate IsConditionText(text: string) {
    !IsKilometerText(text) && Lower(text) in ConditionWords
  }

  /** The kilometer reading after the spec loop: the last tag mentioning "km", NBSP made a space. */
  function Kilometers(tags: seq<string>): string {
    if tags == [] then NotAvailable
    else
      var last := tags[|tags| - 1];
      if IsKilometerText(last) then ReplaceChar(last, Nbsp, ' ') else Kilometers(tags[..|tags| - 1])
  }

  /** The condition after the spec loop: the last tag that is "used", "new" or "demo" in any case. */
  function Condition(tags: seq<string>): string {
    if tags == [] then NotAvailable
    else
      var last := tags[|tags| - 1];
      if IsConditionText(last) then last else Condition(tags[..|tags| - 1])
  }

  /** The loop over the specification tags, which overwrites `kilometers` and `condition`. */
  method ReadSpecs(tags: seq<string>) returns (kilometers: string, condition: string)
    ensures kilometers == Kilometers(tags) && condition == Condition(tags)
  {
    condition, kilometers := NotAvailable, NotAvailable;
    for i := 0 to |tags|
      invariant kilometers == Kilometers(tags[..i]) && condition == Condition(tags[..i])
    {
      assert tags[..i + 1][..i] == tags[..i];
      var text := tags[i];
      var textLower := Lower(text);
      if Contains(textLower, "km") {
        kilometers := ReplaceChar(text, Nbsp, ' ');
      } else if textLower in ConditionWords {
        condition := text;
      }
    }
    assert tags[..|tags|] == tags;
  }

  /** The reading is "N/A" exactly when no tag mentions "km"; otherwise it comes from a tag that
      mentions "km" and after which no tag does. */
  lemma {:induction false} KilometersIsLast(tags: seq<string>)
    ensures || (Kilometers(tags) == NotAvailable && forall i :: 0 <= i < |tags| ==> !IsKilometerText(tags[i]))
            || exists i :: 0 <= i < |tags| && IsKilometerText(tags[i]) && Kilometers(tags) == ReplaceChar(tags[i], Nbsp, ' ')
                           && forall j :: i < j < |tags| ==> !IsKilometerText(tags[j])
  {
    if tags != [] {
      var init := tags[..|tags| - 1];
      var n := |tags| - 1;
      if !IsKilometerText(tags[n]) {
        KilometersIsLast(init);
        if exists i :: 0 <= i < |init| && IsKilometerText(init[i]) && Kilometers(init) == ReplaceChar(init[i], Nbsp, ' ')
                       && forall j :: i < j < |init| ==> !IsKilometerText(init[j]) {
          var i :| 0 <= i < |init| && IsKilometerText(init[i]) && Kilometers(init) == ReplaceChar(init[i], Nbsp, ' ')
                   && forall j :: i < j < |init| ==> !IsKilometerText(init[j]);
          assert tags[i] == init[i];
          assert forall j :: i < j < |tags| ==> !IsKilometerText(tags[j]) by {
            forall j | i < j < |tags| ensures !IsKilometerText(tags[j]) {
              if j < n {
                assert tags[j] == init[j];
              }
            }
          }
        } else {
          assert forall i :: 0 <= i < |tags| ==> !IsKilometerText(tags[i]) by {
            forall i | 0 <= i < |tags| ensures !IsKilometerText(tags[i]) {
              if i < n {
                assert tags[i] == init[i];
              }
            }
          }
        }
      }
    }
  }

  /** The condition is "N/A" exactly when no tag is a condition word; otherwise it is the last
      tag that is one. */
  lemma {:induction false} ConditionIsLast(tags: seq<string>)
    ensures || (Condition(tags) == NotAvailable && forall i :: 0 <= i < |tags| ==> !IsConditionText(tags[i]))
            || exists i :: 0 <= i < |tags| && IsConditionText(tags[i]) && Condition(tags) == tags[i]
                           && forall j :: i < j < |tags| ==> !IsConditionText(tags[j])
  {
    if tags != [] {
      var init := tags[..|tags| - 1];
      var n := |tags| - 1;
      if !IsConditionText(tags[n]) {
        ConditionIsLast(init);
        if exists i :: 0 <= i < |init| && IsConditionText(init[i]) && Condition(init) == init[i]
                       && forall j :: i < j < |init| ==> !IsConditionText(init[j]) {
          var i :| 0 <= i < |init| && IsConditionText(init[i]) && Condition(init) == init[i]
                   && forall j :: i < j < |init| ==> !IsConditionText(init[j]);
          assert tags[i] == init[i];
          assert forall j :: i < j < |tags| ==> !IsConditionText(tags[j]) by {
            forall j | i < j < |tags| ensures !IsConditionText(tags[j]) {
              if j < n {
                assert tags[j] == init[j];
              }
            }
          }
        } else {
          assert forall i :: 0 <= i < |tags| ==> !IsConditionText(tags[i]) by {
            forall i | 0 <= i < |tags| ensures !IsConditionText(tags[i]) {
              if i < n {
                assert tags[i] == init[i];
              }
            }
          }
        }
      }
    }
  }

  // ---------------------------------------------------------------- ids and urls

  /** `href.split("/")[-1].split("?")[0]` */
  function HrefSegment(href: string): string {
    var pieces := SplitOn(href, '/');
    SplitOn(pieces[|pieces| - 1], '?')[0]
  }

  function ListingIdOf(href: string): string {
    IdPrefix + HrefSegment(href)
  }

  /** The id segment is the text after the last "/" of the `href`, up to its first "?". */
  lemma HrefSegmentShape(href: string)
    ensures var last := SplitOn(href, '/')[|SplitOn(href, '/')| - 1];
            var seg := HrefSegment(href);
            && '/' !in seg && '?' !in seg
            && (href == last || exists head :: href == head + "/" + last)
            && (last == seg || exists tail :: last == seg + "?" + tail)
  {
    var ps := SplitOn(href, '/');
    var last := ps[|ps| - 1];
    LastPiece(href, '/');
    FirstPiece(last, '?');
    var seg := HrefSegment(href);
    if |ps| >= 2 {
      assert href == Join(ps[..|ps| - 1], "/") + "/" + last;
    }
    var qs := SplitOn(last, '?');
    if |qs| >= 2 {
      assert last == seg + "?" + Join(qs[1..], "?");
      assert forall x :: x in seg ==> x in last;
    }
  }

  predicate HasModel(variation: string) {
    |SplitMax1(variation)| >= 2
  }

  /** What follows a variation's first word (`variation.split(maxsplit=1)[1]`); "" stands in for
      the `IndexError` of a variation without one, which the scraper raises before using it. */
  function ModelOf(variation: string): string {
    var parts := SplitMax1(variation);
    if |parts| >= 2 then parts[1] else ""
  }

  /** `f"{AUTOTRADER_BASE_URL}/{brand}/{quote(model, safe='')}"` */
  function VariationUrl(brand: string, variation: string): string {
    BaseUrl + "/" + brand + "/" + PercentEncode(ModelOf(variation))
  }

  // ---------------------------------------------------------------- elements

  /** The element passes every check of the loop, in the order it makes them. */
  predicate Keeps(e: AutotraderElement, searchTerm: string) {
    && Present(e.title) && e.title.value != "undefined"
    && IsRelevantAutotraderMatch(e.title.value, searchTerm)
    && Present(e.price)
    && e.href != ""
  }

  function SpecTags(e: AutotraderElement): seq<string> {
    if e.specs.Some? then e.specs.value else []
  }

  function LocationOf(e: AutotraderElement): string {
    if e.location.Some? then e.location.value else NotAvailable
  }

  /** The record stored for a kept element: `build_listing(...)` and then the three extra fields. */
  function AutotraderListing(e: AutotraderElement, searchTerm: string, now: string): Record
    requires e.title.Some? && e.price.Some?
  {
    var tags := SpecTags(e);
    ElementRecord(ListingIdOf(e.href), e.title.value, e.price.value, e.href, Kilometers(tags), Condition(tags),
                  LocationOf(e), searchTerm, now)
  }

  /** `build_listing(...)` for an element's texts, then `kilometers`, `condition` and `location`
      set on the stored record. */
  function ElementRecord(listingId: string, title: string, price: string, href: string, kilometers: string,
                         condition: string, location: string, searchTerm: string, now: string): Record
  {
    BuildListing(listingId, Str(title), Str(price), Str(Site + href), searchTerm, Source, map[], now)
      ["kilometers" := Str(kilometers)]["condition" := Str(condition)]["location" := Str(location)]
  }

  /** A stored listing has the standard fields and the three AutoTrader ones. */
  lemma AutotraderListingKeys(e: AutotraderElement, searchTerm: string, now: string)
    requires e.title.Some? && e.price.Some?
    ensures AutotraderListing(e, searchTerm, now).Keys == StandardFields + {"kilometers", "condition", "location"}
  {
  }

  /** Setting the three AutoTrader fields leaves every other field as it was. */
  lemma SpecsKeepField(base: Record, kilometers: string, condition: string, location: string, k: string)
    requires k in base && k != "kilometers" && k != "condition" && k != "location"
    ensures var r := base["kilometers" := Str(kilometers)]["condition" := Str(condition)]["location" := Str(location)];
            k in r && r[k] == base[k]
  {
  }

  /** A stored listing holds the id taken from the `href` and the site address before it. */
  lemma AutotraderListingLink(e: AutotraderElement, searchTerm: string, now: string)
    requires e.title.Some? && e.price.Some?
    ensures var r := AutotraderListing(e, searchTerm, now);
            && "id" in r && r["id"] == Str(ListingIdOf(e.href))
            && "url" in r && r["url"] == Str(Site + e.href)
  {
    var tags := SpecTags(e);
    var base := BuildListing(ListingIdOf(e.href), Str(e.title.value), Str(e.price.value), Str(Site + e.href),
                             searchTerm, Source, map[], now);
    SpecsKeepField(base, Kilometers(tags), Condition(tags), LocationOf(e), "id");
    SpecsKeepField(base, Kilometers(tags), Condition(tags), LocationOf(e), "url");
  }

  /** A stored listing holds the original search term and source "AutoTrader". */
  lemma AutotraderListingOrigin(e: AutotraderElement, searchTerm: string, now: string)
    requires e.title.Some? && e.price.Some?
    ensures var r := AutotraderListing(e, searchTerm, now);
            && "search_term" in r && r["search_term"] == Str(searchTerm)
            && "source" in r && r["source"] == Str(Source)
  {
    var tags := SpecTags(e);
    var base := BuildListing(ListingIdOf(e.href), Str(e.title.value), Str(e.price.value), Str(Site + e.href),
                             searchTerm, Source, map[], now);
    SpecsKeepField(base, Kilometers(tags), Condition(tags), LocationOf(e), "search_term");
    SpecsKeepField(base, Kilometers(tags), Condition(tags), LocationOf(e), "source");
  }

  /** A stored listing holds the specification and suburb fields the loop read, or "N/A". */
  lemma AutotraderListingSpecs(e: AutotraderElement, searchTerm: string, now: string)
    requires e.title.Some? && e.price.Some?
    ensures var r := AutotraderListing(e, searchTerm, now);
            && "kilometers" in r && r["kilometers"] == Str(Kilometers(SpecTags(e)))
            && "condition" in r && r["condition"] == Str(Condition(SpecTags(e)))
            && "location" in r && r["location"] == Str(LocationOf(e))
  {
    var tags := SpecTags(e);
    ElementRecordSpecs(ListingIdOf(e.href), e.title.value, e.price.value, e.href, Kilometers(tags), Condition(tags),
                       LocationOf(e), searchTerm, now);
  }

  lemma ElementRecordSpecs(listingId: string, title: string, price: string, href: string, kilometers: string,
                           condition: string, location: string, searchTerm: string, now: string)
    ensures var r := ElementRecord(listingId, title, price, href, kilometers, condition, location, searchTerm, now);
            && "kilometers" in r && r["kilometers"] == Str(kilometers)
            && "condition" in r && r["condition"] == Str(condition)
            && "location" in r && r["location"] == Str(location)
  {
  }

  /** The (id, listing) pairs a page offers: its kept elements, in page order. */
  function PageOffers(els: seq<AutotraderElement>, searchTerm: string, now: string): seq<(string, Record)> {
    if els == [] then []
    else
      var e := els[|els| - 1];
      PageOffers(els[..|els| - 1], searchTerm, now)
        + (if Keeps(e, searchTerm) then [(ListingIdOf(e.href), AutotraderListing(e, searchTerm, now))] else [])
  }

  /** What `page_at(url)` yields: the elements, or none when the page could not be fetched. */
  function PageAt(fetch: string -> Option<seq<AutotraderElement>>, url: string): seq<AutotraderElement> {
    match fetch(url)
    case None => []
    case Some(els) => els
  }

  /** The pairs offered by all variations, in variation order and then page order. */
  function VariationOffers(vs: seq<string>, brand: string, fetch: string -> Option<seq<AutotraderElement>>,
                           searchTerm: string, now: string): seq<(string, Record)>
  {
    if vs == [] then []
    else
      VariationOffers(vs[..|vs| - 1], brand, fetch, searchTerm, now)
        + PageOffers(PageAt(fetch, VariationUrl(brand, vs[|vs| - 1])), searchTerm, now)
  }

  /** The result of `scrape_autotrader(search_term)`, with `fetch` standing for the page download:
      nothing for a blank or one-word term, the `IndexError` when a variation has no model, and
      otherwise every offered listing whose id was not offered before. */
  function Scrape(searchTerm: string, fetch: string -> Option<seq<AutotraderElement>>, now: string)
    : Result<Dict<string, Record>, string>
  {
    var parts := SplitMax1(searchTerm);
    if Strip(searchTerm) == [] || |parts| < 2 then Success(Empty())
    else RunVariations(Dedup(Candidates(searchTerm)), Brand(searchTerm), fetch, searchTerm, now)
  }

  /** The variation loop over `vs`: the `IndexError` when one of them has no model, and
      otherwise every offered listing whose id was not offered before. */
  function RunVariations(vs: seq<string>, brand: string, fetch: string -> Option<seq<AutotraderElement>>,
                         searchTerm: string, now: string): Result<Dict<string, Record>, string>
  {
    if exists j :: 0 <= j < |vs| && !HasModel(vs[j]) then Failure(IndexError)
    else Success(InsertAll(Empty(), VariationOffers(vs, brand, fetch, searchTerm, now)))
  }

  /** `parts[0].lower()`: the term's first word, lower-cased, which every URL uses. */
  function Brand(searchTerm: string): string
    requires |SplitMax1(searchTerm)| >= 1
  {
    Lower(SplitMax1(searchTerm)[0])
  }

  // ---------------------------------------------------------------- the loops

  /** What the element loop has stored after the first `i` elements of a page. */
  function PageSelected(d: Dict<string, Record>, els: seq<AutotraderElement>, i: nat, searchTerm: string, now: string)
    : (r: Dict<string, Record>)
    requires Valid(d) && i <= |els|
    ensures Valid(r)
  {
    InsertAll(d, PageOffers(els[..i], searchTerm, now))
  }

  lemma SkipElement(d: Dict<string, Record>, els: seq<AutotraderElement>, i: nat, searchTerm: string, now: string)
    requires Valid(d) && i < |els| && !Keeps(els[i], searchTerm)
    ensures PageSelected(d, els, i + 1, searchTerm, now) == PageSelected(d, els, i, searchTerm, now)
  {
    assert els[..i + 1][..i] == els[..i];
    assert PageOffers(els[..i + 1], searchTerm, now) == PageOffers(els[..i], searchTerm, now);
  }

  lemma TakeElement(d: Dict<string, Record>, els: seq<AutotraderElement>, i: nat, searchTerm: string, now: string)
    requires Valid(d) && i < |els| && Keeps(els[i], searchTerm)
    ensures PageSelected(d, els, i + 1, searchTerm, now)
              == InsertNew(PageSelected(d, els, i, searchTerm, now), ListingIdOf(els[i].href),
                           AutotraderListing(els[i], searchTerm, now))
  {
    var e := els[i];
    var id, r := ListingIdOf(e.href), AutotraderListing(e, searchTerm, now);
    assert els[..i + 1][..i] == els[..i] && els[..i + 1][i] == e;
    var o := PageOffers(els[..i], searchTerm, now);
    assert PageOffers(els[..i + 1], searchTerm, now) == o + [(id, r)];
    InsertAllSnoc(d, o, id, r);
  }

  /** The body of the element loop (its `try` block): the checks in order, `continue` on the
      first that fails, then the `seen_ids` test and the new record. */
  method ProcessElement(listings0: Dict<string, Record>, seen0: set<string>, e: AutotraderElement,
                        searchTerm: string, now: string)
    returns (listings: Dict<string, Record>, seen: set<string>)
    requires Valid(listings0) && seen0 == listings0.entries.Keys
    ensures Keeps(e, searchTerm) ==>
              listings == InsertNew(listings0, ListingIdOf(e.href), AutotraderListing(e, searchTerm, now))
    ensures !Keeps(e, searchTerm) ==> listings == listings0
    ensures seen == listings.entries.Keys
  {
    listings, seen := listings0, seen0;
    if !Present(e.title) || e.title.value == "undefined" {
      return;
    }
    var title := e.title.value;
    if !IsRelevantAutotraderMatch(title, searchTerm) {
      return;
    }
    if !Present(e.price) {
      return;
    }
    if e.href == "" {
      return;
    }
    listings, seen := StoreElement(listings0, seen0, e, searchTerm, now);
  }

  /** The rest of the `try` block for an element with a title and a price: read its specs and
      location, then store the new record unless its id is in `seen_ids`. (The specs are read
      before the `href` test in the source; reading them changes nothing.) */
  method StoreElement(listings0: Dict<string, Record>, seen0: set<string>, e: AutotraderElement,
                      searchTerm: string, now: string)
    returns (listings: Dict<string, Record>, seen: set<string>)
    requires Valid(listings0) && seen0 == listings0.entries.Keys
    requires e.title.Some? && e.price.Some?
    ensures listings == InsertNew(listings0, ListingIdOf(e.href), AutotraderListing(e, searchTerm, now))
    ensures seen == listings.entries.Keys
  {
    listings, seen := listings0, seen0;
    var title, price := e.title.value, e.price.value;
    var kilometers, condition := ReadSpecs(SpecTags(e));
    var location := LocationOf(e);
    var listingId := ListingIdOf(e.href);
    if listingId in seen {
      return;
    }
    var record := ElementRecord(listingId, title, price, e.href, kilometers, condition, location, searchTerm, now);
    ElementRecordOf(e, searchTerm, now, kilometers, condition, location);
    listings, seen := AddNew(listings0, seen0, listingId, record);
  }

  lemma ElementRecordOf(e: AutotraderElement, searchTerm: string, now: string, kilometers: string, condition: string, location: string)
    requires e.title.Some? && e.price.Some?
    requires kilometers == Kilometers(SpecTags(e)) && condition == Condition(SpecTags(e)) && location == LocationOf(e)
    ensures ElementRecord(ListingIdOf(e.href), e.title.value, e.price.value, e.href, kilometers, condition, location, searchTerm, now)
            == AutotraderListing(e, searchTerm, now)
  {
  }

  /** The loop over one page's elements, adding to `listings` and `seen_ids`. */
  method CollectPage(listings0: Dict<string, Record>, seen0: set<string>, els: seq<AutotraderElement>,
                     searchTerm: string, now: string)
    returns (listings: Dict<string, Record>, seen: set<string>)
    requires Valid(listings0) && seen0 == listings0.entries.Keys
    ensures listings == InsertAll(listings0, PageOffers(els, searchTerm, now))
    ensures seen == listings.entries.Keys
  {
    listings, seen := listings0, seen0;
    assert els[..0] == [];
    for i := 0 to |els|
      invariant listings == PageSelected(listings0, els, i, searchTerm, now)
      invariant seen == listings.entries.Keys
    {
      listings, seen := ProcessElement(listings, seen, els[i], searchTerm, now);
      if Keeps(els[i], searchTerm) {
        TakeElement(listings0, els, i, searchTerm, now);
      } else {
        SkipElement(listings0, els, i, searchTerm, now);
      }
    }
    assert els[..|els|] == els;
  }

  /** What the variation loop has stored after the first `i` variations. */
  function Selected(vs: seq<string>, i: nat, brand: string, fetch: string -> Option<seq<AutotraderElement>>,
                    searchTerm: string, now: string): (r: Dict<string, Record>)
    requires i <= |vs|
    ensures Valid(r)
  {
    InsertAll(Empty(), VariationOffers(vs[..i], brand, fetch, searchTerm, now))
  }

  lemma VariationStep(vs: seq<string>, i: nat, brand: string, fetch: string -> Option<seq<AutotraderElement>>,
                      searchTerm: string, now: string)
    requires i < |vs|
    ensures Selected(vs, i + 1, brand, fetch, searchTerm, now)
              == InsertAll(Selected(vs, i, brand, fetch, searchTerm, now),
                           PageOffers(PageAt(fetch, VariationUrl(brand, vs[i])), searchTerm, now))
  {
    assert vs[..i + 1][..i] == vs[..i];
    InsertAllConcat(Empty<string, Record>(), VariationOffers(vs[..i], brand, fetch, searchTerm, now),
                    PageOffers(PageAt(fetch, VariationUrl(brand, vs[i])), searchTerm, now));
  }

  lemma SelectedAll(vs: seq<string>, brand: string, fetch: string -> Option<seq<AutotraderElement>>,
                    searchTerm: string, now: string)
    ensures Selected(vs, |vs|, brand, fetch, searchTerm, now)
              == InsertAll(Empty(), VariationOffers(vs, brand, fetch, searchTerm, now))
  {
    assert vs[..|vs|] == vs;
  }

  /** Every variation before the `i`-th has a model. */
  predicate ModelsBefore(vs: seq<string>, i: nat) {
    forall j :: 0 <= j < i && j < |vs| ==> HasModel(vs[j])
  }

  lemma ModelsBeforeStep(vs: seq<string>, i: nat)
    requires i < |vs| && ModelsBefore(vs, i) && HasModel(vs[i])
    ensures ModelsBefore(vs, i + 1)
  {
  }

  /** One pass of the variation loop for a variation with a model: build the URL, fetch the
      page, and run the element loop over it unless it is missing or empty. */
  method CollectVariation(listings0: Dict<string, Record>, seen0: set<string>, brand: string, variation: string,
                          fetch: string -> Option<seq<AutotraderElement>>, searchTerm: string, now: string)
    returns (listings: Dict<string, Record>, seen: set<string>)
    requires Valid(listings0) && seen0 == listings0.entries.Keys
    requires HasModel(variation)
    ensures listings == InsertAll(listings0, PageOffers(PageAt(fetch, VariationUrl(brand, variation)), searchTerm, now))
    ensures seen == listings.entries.Keys
  {
    var modelParts := SplitMax1(variation);
    var model := modelParts[1];
    var url := BaseUrl + "/" + brand + "/" + PercentEncode(model);
    var els := PageAt(fetch, url);
    if els == [] {
      return listings0, seen0;
    }
    listings, seen := CollectPage(listings0, seen0, els, searchTerm, now);
  }

  /** `scrape_autotrader(search_term)`; `fetch(url)` is the page's result tiles, or `None` when
      the download failed. */
  method ScrapeAutotrader(searchTerm: string, fetch: string -> Option<seq<AutotraderElement>>, now: string)
    returns (r: Result<Dict<string, Record>, string>)
    ensures r == Scrape(searchTerm, fetch, now)
  {
    if searchTerm == [] || Strip(searchTerm) == [] {
      return Success(Empty());
    }
    var parts := SplitMax1(searchTerm);
    if |parts| < 2 {
      return Success(Empty());
    }
    var brand := Lower(parts[0]);
    var variations := GenerateSearchVariations(searchTerm);
    r := LoopVariations(variations, brand, fetch, searchTerm, now);
  }

  /** The `for variation in search_variations` loop, with the listings and ids shared by all
      variations. */
  method LoopVariations(variations: seq<string>, brand: string, fetch: string -> Option<seq<AutotraderElement>>,
                        searchTerm: string, now: string)
    returns (r: Result<Dict<string, Record>, string>)
    ensures r == RunVariations(variations, brand, fetch, searchTerm, now)
  {
    var listings: Dict<string, Record> := Empty();
    var seen: set<string> := {};
    assert variations[..0] == [];
    for i := 0 to |variations|
      invariant ModelsBefore(variations, i)
      invariant listings == Selected(variations, i, brand, fetch, searchTerm, now)
      invariant seen == listings.entries.Keys
    {
      if !HasModel(variations[i]) {
        return Failure(IndexError);
      }
      VariationStep(variations, i, brand, fetch, searchTerm, now);
      ModelsBeforeStep(variations, i);
      listings, seen := CollectVariation(listings, seen, brand, variations[i], fetch, searchTerm, now);
    }
    SelectedAll(variations, brand, fetch, searchTerm, now);
    return Success(listings);
  }

  // ---------------------------------------------------------------- properties

  /** A blank term, or one of a single word, is skipped before any page is fetched. */
  lemma ScrapeNeedsTwoWords(searchTerm: string, fetch: string -> Option<seq<AutotraderElement>>, now: string)
    requires Strip(searchTerm) == [] || |Split(searchTerm)| < 2
    ensures Scrape(searchTerm, fetch, now) == Success(Empty())
  {
    SplitMax1Count(searchTerm);
  }

  /** A model made only of hyphens makes rule 1 produce the brand and a bare space, a variation
      with no second word: the loop raises `IndexError` before fetching anything else. */
  lemma HyphenOnlyTermFails(brand: string, hyphens: string, fetch: string -> Option<seq<AutotraderElement>>,
                            now: string)
    requires IsToken(brand) && IsToken(hyphens) && forall i :: 0 <= i < |hyphens| ==> hyphens[i] == '-'
    ensures Scrape(brand + " " + hyphens, fetch, now) == Failure(IndexError)
  {
    var term := brand + " " + hyphens;
    HyphenVariations(brand, hyphens);
    BareBrandHasNoModel(brand);
    assert !HasModel([term, brand + " "][1]);
    TwoWordTerm(brand, hyphens);
  }

  /** Brand and hyphens give exactly two variations: the term and the brand with a bare space. */
  lemma HyphenVariations(brand: string, hyphens: string)
    requires IsToken(brand) && IsToken(hyphens) && forall i :: 0 <= i < |hyphens| ==> hyphens[i] == '-'
    ensures Dedup(Candidates(brand + " " + hyphens)) == [brand + " " + hyphens, brand + " "]
  {
    var term := brand + " " + hyphens;
    var bare := brand + " ";
    HyphenOnlyModel(brand, hyphens);
    KeepsBothSpellings(term, bare);
  }

  /** Two strings of different lengths are both kept by the de-duplication. */
  lemma KeepsBothSpellings(a: string, b: string)
    requires |a| != |b|
    ensures Dedup([a, b]) == [a, b]
  {
    assert [a, b][..1] == [a];
    assert [a][..0] == [];
    assert Dedup([a]) == [a];
    assert LowerSet([a]) == {Lower(a)} by {
      forall y | y in LowerSet([a]) ensures y == Lower(a) {
        var i :| 0 <= i < 1 && y == Lower([a][i]);
      }
      assert Lower([a][0]) in LowerSet([a]);
    }
  }

  /** The brand and a space has one word. */
  lemma BareBrandHasNoModel(brand: string)
    requires IsToken(brand)
    ensures !HasModel(brand + " ")
  {
    var bare := brand + " ";
    WordLenOfTokenThenSpace(brand, "");
    assert bare == brand + " " + "";
    assert bare[..|brand|] == brand && bare[|brand|..] == " ";
    assert Split(" ") == [];
    assert Split(bare) == [brand];
    SplitMax1Count(bare);
  }

  /** Two words joined by a space are neither blank nor a single word. */
  lemma TwoWordTerm(brand: string, model: string)
    requires IsToken(brand) && IsToken(model)
    ensures Strip(brand + " " + model) != [] && |SplitMax1(brand + " " + model)| == 2
  {
    var term := brand + " " + model;
    SplitJoin([brand, model]);
    assert Join([brand, model], " ") == term;
    SplitMax1Count(term);
    assert !IsSpace(term[0]);
    StripEmptyIffBlank(term);
  }

  /** A pair a page offers comes from a kept element of that page. */
  lemma {:induction false} PageOfferFrom(els: seq<AutotraderElement>, searchTerm: string, now: string,
                                         k: string, v: Record)
    requires (k, v) in PageOffers(els, searchTerm, now)
    ensures exists e :: e in els && Keeps(e, searchTerm) && k == ListingIdOf(e.href)
                        && v == AutotraderListing(e, searchTerm, now)
  {
    var init, e := els[..|els| - 1], els[|els| - 1];
    if (k, v) in PageOffers(init, searchTerm, now) {
      PageOfferFrom(init, searchTerm, now, k, v);
      var e' :| e' in init && Keeps(e', searchTerm) && k == ListingIdOf(e'.href)
                && v == AutotraderListing(e', searchTerm, now);
      assert e' in els;
    } else {
      assert e in els;
    }
  }

  /** A pair the variations offer comes from a kept element of one variation's page. */
  lemma {:induction false} VariationOfferFrom(vs: seq<string>, brand: string,
                                              fetch: string -> Option<seq<AutotraderElement>>,
                                              searchTerm: string, now: string, k: string, v: Record)
    requires (k, v) in VariationOffers(vs, brand, fetch, searchTerm, now)
    ensures exists i, e :: 0 <= i < |vs| && e in PageAt(fetch, VariationUrl(brand, vs[i]))
                           && Keeps(e, searchTerm) && k == ListingIdOf(e.href)
                           && v == AutotraderListing(e, searchTerm, now)
  {
    var init := vs[..|vs| - 1];
    var page := PageAt(fetch, VariationUrl(brand, vs[|vs| - 1]));
    if (k, v) in VariationOffers(init, brand, fetch, searchTerm, now) {
      VariationOfferFrom(init, brand, fetch, searchTerm, now, k, v);
      var i, e :| 0 <= i < |init| && e in PageAt(fetch, VariationUrl(brand, init[i]))
                  && Keeps(e, searchTerm) && k == ListingIdOf(e.href)
                  && v == AutotraderListing(e, searchTerm, now);
      assert vs[i] == init[i];
    } else {
      PageOfferFrom(page, searchTerm, now, k, v);
    }
  }

  /** Every listing the variation loop stores comes from an element some variation's page
      showed that passed the checks against the original term, under the id taken from its
      `href`. */
  lemma RunListingsKept(vs: seq<string>, brand: string, fetch: string -> Option<seq<AutotraderElement>>,
                        searchTerm: string, now: string)
    requires RunVariations(vs, brand, fetch, searchTerm, now).Success?
    ensures var d := RunVariations(vs, brand, fetch, searchTerm, now).value;
            forall k :: k in d.entries ==>
              exists i, e :: (&& 0 <= i < |vs| && e in PageAt(fetch, VariationUrl(brand, vs[i]))
                              && Keeps(e, searchTerm) && k == ListingIdOf(e.href)
                              && d.entries[k] == AutotraderListing(e, searchTerm, now))
  {
    var offers := VariationOffers(vs, brand, fetch, searchTerm, now);
    var d := RunVariations(vs, brand, fetch, searchTerm, now).value;
    assert d == InsertAll(Empty(), offers);
    InsertAllValues(Empty<string, Record>(), offers);
    forall k | k in d.entries
      ensures exists i, e :: (&& 0 <= i < |vs| && e in PageAt(fetch, VariationUrl(brand, vs[i]))
                              && Keeps(e, searchTerm) && k == ListingIdOf(e.href)
                              && d.entries[k] == AutotraderListing(e, searchTerm, now))
    {
      VariationOfferFrom(vs, brand, fetch, searchTerm, now, k, d.entries[k]);
    }
  }

  /** A scrape that stores anything ran the variation loop over the term's variations. */
  lemma ScrapeRuns(searchTerm: string, fetch: string -> Option<seq<AutotraderElement>>, now: string)
    requires Scrape(searchTerm, fetch, now) != Success(Empty())
    ensures Strip(searchTerm) != [] && |SplitMax1(searchTerm)| == 2
    ensures Scrape(searchTerm, fetch, now)
              == RunVariations(Dedup(Candidates(searchTerm)), Brand(searchTerm), fetch, searchTerm, now)
  {
  }

  /** Across all variations the first offer of an id is the one stored: a later page showing the
      same listing does not replace it. */
  lemma RunFirstOfferWins(vs: seq<string>, brand: string, fetch: string -> Option<seq<AutotraderElement>>,
                          searchTerm: string, now: string, i: nat)
    requires RunVariations(vs, brand, fetch, searchTerm, now).Success?
    requires i < |VariationOffers(vs, brand, fetch, searchTerm, now)|
    requires forall j :: 0 <= j < i ==>
               VariationOffers(vs, brand, fetch, searchTerm, now)[j].0 != VariationOffers(vs, brand, fetch, searchTerm, now)[i].0
    ensures var d, o := RunVariations(vs, brand, fetch, searchTerm, now).value, VariationOffers(vs, brand, fetch, searchTerm, now)[i];
            o.0 in d.entries && d.entries[o.0] == o.1
  {
    InsertAllFirstWins(Empty<string, Record>(), VariationOffers(vs, brand, fetch, searchTerm, now), i);
  }
}
