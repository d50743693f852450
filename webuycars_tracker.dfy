/** The WeBuyCars search over the local cache (trackers/webuycarsTracker.py): the make/model
    prefilter, the display formats of price and mileage, and the selection loops over the search
    variations and the cached listings. */
module WebuycarsTracker {
  import opened Text
  import opened Basics
  import opened Records
  import opened Dicts
  import opened ListingBuilder
  import opened RelevantMatch
  import opened SearchVariations
  import Config

  const Source: string := "WeBuyCars"

  // ---------------------------------------------------------------- is_relevant_listing

  /** `f"{make} {model}".strip().lower()` */
  function FullName(make: Value, model: Value): string
    requires IsScalar(make) && IsScalar(model)
  {
    Lower(Strip(Render(make) + " " + Render(model)))
  }

  /** The make/model prefilter: at least 60% of the lower-cased search words occur in the full
      name (`matching_parts / len(search_parts) < 0.6` rejects), and a term without words passes. */
  predicate PassesPrefilter(make: Value, model: Value, searchTerm: string)
    requires IsScalar(make) && IsScalar(model)
  {
    var parts := Split(Lower(searchTerm));
    !(|parts| > 0 && (CountContained(parts, FullName(make, model)) as real) / (|parts| as real) < 0.6)
  }

  /** `is_relevant_listing(title, make, model, search_term)` for a title that is text: the
      prefilter, then `is_relevant_match(title, search_term, 0.4575)` with the title given as the
      search term and the search term as the title. */
  predicate IsRelevantListing(title: string, make: Value, model: Value, searchTerm: string, sc: Scorer)
    requires IsScalar(make) && IsScalar(model) && sc.Valid()
  {
    PassesPrefilter(make, model, searchTerm) && IsRelevantMatch(title, searchTerm, Config.WebuycarsThreshold, sc)
  }

  /** The prefilter in whole numbers: a term of n > 0 words passes exactly when 5 times the number
      of words found is at least 3n. */
  lemma PrefilterCount(make: Value, model: Value, searchTerm: string)
    requires IsScalar(make) && IsScalar(model)
    ensures var parts := Split(Lower(searchTerm));
            PassesPrefilter(make, model, searchTerm) <==>
              (|parts| == 0 || 5 * CountContained(parts, FullName(make, model)) >= 3 * |parts|)
  {
    var parts := Split(Lower(searchTerm));
    if |parts| > 0 {
      RatioBelow(CountContained(parts, FullName(make, model)), |parts|);
    }
  }

  lemma RatioBelow(m: nat, n: nat)
    requires n > 0
    ensures (m as real) / (n as real) < 0.6 <==> 5 * m < 3 * n
  {
    var x, y := m as real, n as real;
    MulDiv(x, y);
    ScaleLess(x / y, 0.6, y);
    assert (5 * m) as real == 5.0 * x && (3 * n) as real == 3.0 * y;
  }

  lemma MulDiv(x: real, y: real)
    requires y > 0.0
    ensures (x / y) * y == x
  {
  }

  lemma ScaleLess(a: real, b: real, y: real)
    requires y > 0.0
    ensures a < b <==> a * y < b * y
  {
    if a < b {
      assert (b - a) * y > 0.0;
    }
    if a * y < b * y {
      assert (b - a) * y > 0.0;
    }
  }

  /** When every search word occurs in the make and model, the decision is the fuzzy test alone,
      with the arguments swapped. */
  lemma PrefilterPassedDecidesByTitle(title: string, make: Value, model: Value, searchTerm: string, sc: Scorer)
    requires IsScalar(make) && IsScalar(model) && sc.Valid()
    requires forall p :: p in Split(Lower(searchTerm)) ==> Contains(FullName(make, model), p)
    ensures IsRelevantListing(title, make, model, searchTerm, sc) <==>
              FuzzyMatchScore(title, searchTerm, sc) >= Config.WebuycarsThreshold
  {
    AllContained(Split(Lower(searchTerm)), FullName(make, model));
    PrefilterCount(make, model, searchTerm);
  }

  lemma {:induction false} AllContained(words: seq<string>, hay: string)
    requires forall p :: p in words ==> Contains(hay, p)
    ensures CountContained(words, hay) == |words|
  {
    if words != [] {
      AllContained(words[1..], hay);
    }
  }

  /** A listing whose make and model hold under 60% of the search words is rejected whatever
      its title. */
  lemma PrefilterRejects(title: string, make: Value, model: Value, searchTerm: string, sc: Scorer)
    requires IsScalar(make) && IsScalar(model) && sc.Valid()
    requires var parts := Split(Lower(searchTerm));
             5 * CountContained(parts, FullName(make, model)) < 3 * |parts|
    ensures !IsRelevantListing(title, make, model, searchTerm, sc)
  {
    PrefilterCount(make, model, searchTerm);
  }

  // ---------------------------------------------------------------- display formats

  /** `f"{n:,.0f}"` for an integer: its digits in groups of three, after a minus sign when negative. */
  function GroupedInt(n: int): string {
    if n < 0 then "-" + Grouped(-n) else Grouped(n)
  }

  /** `format_price(price)`: numbers (booleans among them, as Python counts them as integers)
      get "R " and grouped digits, other strings than "N/A" get "R ", anything else is kept. */
  function FormatPrice(price: Value): (r: Value)
    ensures price.Int? ==> r == Str("R " + GroupedInt(price.i))
    ensures price.Bool? ==> r == Str("R " + (if price.b then "1" else "0"))
    ensures price.Str? && price.s != NotAvailable ==> r == Str("R " + price.s)
    ensures !price.Int? && !price.Bool? && !(price.Str? && price.s != NotAvailable) ==> r == price
  {
    match price
    case Int(i) => Str("R " + GroupedInt(i))
    case Bool(b) => Str("R " + GroupedInt(if b then 1 else 0))
    case Str(s) => if s != NotAvailable then Str("R " + s) else price
    case _ => price
  }

  /** `format_kilometers(km)`: numbers get grouped digits and " km", other strings than "N/A"
      get " km", anything else is kept. */
  function FormatKilometers(km: Value): (r: Value)
    ensures km.Int? ==> r == Str(GroupedInt(km.i) + " km")
    ensures km.Bool? ==> r == Str((if km.b then "1" else "0") + " km")
    ensures km.Str? && km.s != NotAvailable ==> r == Str(km.s + " km")
    ensures !km.Int? && !km.Bool? && !(km.Str? && km.s != NotAvailable) ==> r == km
  {
    match km
    case Int(i) => Str(GroupedInt(i) + " km")
    case Bool(b) => Str(GroupedInt(if b then 1 else 0) + " km")
    case Str(s) => if s != NotAvailable then Str(s + " km") else km
    case _ => km
  }

  /** The grouped digits of a non-negative number read back as that number once the commas are
      removed, so a formatted price or mileage loses no information. */
  lemma GroupedIntDigits(n: int)
    requires n >= 0
    ensures IsDigits(RemoveChar(GroupedInt(n), ',')) && ParseDigits(RemoveChar(GroupedInt(n), ',')) == n
  {
    GroupedDigits(n);
  }

  /** A formatted price is text whenever the cached value is a JSON scalar, so `build_listing`
      can strip it. */
  lemma FormattedPriceIsText(price: Value)
    requires IsScalar(price)
    ensures TextOf(FormatPrice(price)).Some?
  {
  }

  // ---------------------------------------------------------------- the cache search

  /** A cached listing as the cache file holds it: every field a JSON scalar. */
  predicate IsCacheRecord(l: Record) {
    forall k :: k in l ==> IsScalar(l[k])
  }

  function Title(l: Record): Value {
    Records.Get(l, "title", Str(""))
  }

  /** The `try` block decides to store the listing: the prefilter passes on the make and model,
      and the title is text (a truthy title of another type raises inside `normalize_text`, which
      the `except` turns into a skip) that the fuzzy test accepts against the variation. */
  predicate Matches(l: Record, variation: string, sc: Scorer)
    requires IsCacheRecord(l) && sc.Valid()
    ensures Matches(l, variation, sc) ==> TextOf(Title(l)).Some?
  {
    var make, model := Records.Get(l, "make", Str("")), Records.Get(l, "model", Str(""));
    && PassesPrefilter(make, model, variation)
    && TextOf(Title(l)).Some?
    && IsRelevantListing(TextOf(Title(l)).value, make, model, variation, sc)
  }

  /** The record stored for a matching cached listing, under the ORIGINAL (stripped) term. */
  function WebuycarsListing(id: string, l: Record, searchTerm: string, now: string): Record
    requires IsCacheRecord(l) && TextOf(Title(l)).Some?
  {
    FormattedPriceIsText(Records.Get(l, "price", Str(NotAvailable)));
    BuildListing(id, Title(l), FormatPrice(Records.Get(l, "price", Str(NotAvailable))), Records.Get(l, "url", Str("")),
                 searchTerm, Source, WebuycarsExtras(l), now)
  }

  /** The extra fields: the formatted mileage and the location, "N/A" when absent. */
  function WebuycarsExtras(l: Record): (r: Record)
    ensures r.Keys == {"kilometers", "location"}
  {
    map["kilometers" := FormatKilometers(Records.Get(l, "kilometers", Str(NotAvailable))),
        "location" := Records.Get(l, "location", Str(NotAvailable))]
  }

  /** Every cached listing is a JSON scalar record. */
  predicate IsCache(cache: Dict<string, Record>) {
    Valid(cache) && forall id :: id in cache.entries ==> IsCacheRecord(cache.entries[id])
  }

  /** Whether the cached listing under an id matches the variation. */
  function Hit(cache: Dict<string, Record>, variation: string, sc: Scorer): string -> bool
    requires IsCache(cache) && sc.Valid()
  {
    id => id in cache.entries && Matches(cache.entries[id], variation, sc)
  }

  /** The listing stored for a cached id whose title is text (and an empty record otherwise). */
  function Built(cache: Dict<string, Record>, searchTerm: string, now: string): string -> Record
    requires IsCache(cache)
  {
    id => if id in cache.entries && TextOf(Title(cache.entries[id])).Some?
          then WebuycarsListing(id, cache.entries[id], searchTerm, now)
          else map[]
  }

  /** The (id, listing) pairs the first `n` cached listings offer to one variation, in cache order. */
  function PassOffers(cache: Dict<string, Record>, n: nat, variation: string, searchTerm: string, now: string,
                      sc: Scorer): seq<(string, Record)>
    requires IsCache(cache) && n <= |cache.keys| && sc.Valid()
  {
    Offered(cache.keys[..n], Hit(cache, variation, sc), Built(cache, searchTerm, now))
  }

  /** One more cached listing offers itself exactly when it matches. */
  lemma PassOffersSnoc(cache: Dict<string, Record>, n: nat, variation: string, searchTerm: string, now: string,
                       sc: Scorer)
    requires IsCache(cache) && n < |cache.keys| && sc.Valid()
    ensures var id := cache.keys[n];
            PassOffers(cache, n + 1, variation, searchTerm, now, sc)
              == PassOffers(cache, n, variation, searchTerm, now, sc)
                 + (if Matches(cache.entries[id], variation, sc)
                    then [(id, WebuycarsListing(id, cache.entries[id], searchTerm, now))] else [])
  {
    var id := cache.keys[n];
    OfferedSnoc(cache.keys, Hit(cache, variation, sc), Built(cache, searchTerm, now), n);
    HitBuilt(cache, id, variation, searchTerm, now, sc);
  }

  lemma HitBuilt(cache: Dict<string, Record>, id: string, variation: string, searchTerm: string, now: string,
                 sc: Scorer)
    requires IsCache(cache) && sc.Valid() && id in cache.entries
    ensures Hit(cache, variation, sc)(id) == Matches(cache.entries[id], variation, sc)
    ensures Matches(cache.entries[id], variation, sc) ==>
              Built(cache, searchTerm, now)(id) == WebuycarsListing(id, cache.entries[id], searchTerm, now)
  {
  }

  /** The pairs offered by all variations, variation by variation. */
  function CacheOffers(cache: Dict<string, Record>, vs: seq<string>, searchTerm: string, now: string, sc: Scorer)
    : seq<(string, Record)>
    requires IsCache(cache) && sc.Valid()
  {
    if vs == [] then []
    else
      CacheOffers(cache, vs[..|vs| - 1], searchTerm, now, sc)
        + PassOffers(cache, |cache.keys|, vs[|vs| - 1], searchTerm, now, sc)
  }

  /** The result of `scrape_webuycars_cached(search_term)` over the loaded cache: nothing for a
      blank term or an empty cache, and otherwise every cached listing some variation of the
      stripped term matches, stored the first time one does. */
  function ScrapeCached(searchTerm: string, cache: Dict<string, Record>, now: string, sc: Scorer)
    : (r: Dict<string, Record>)
    requires IsCache(cache) && sc.Valid()
    ensures Valid(r)
  {
    var term := Strip(searchTerm);
    if term == [] || cache.entries == map[] then Empty()
    else InsertAll(Empty(), CacheOffers(cache, Dedup(Candidates(term)), term, now, sc))
  }

  // ---------------------------------------------------------------- the loops

  /** What one pass has stored after the first `n` cached listings. */
  function PassSelected(d: Dict<string, Record>, cache: Dict<string, Record>, n: nat, variation: string,
                        searchTerm: string, now: string, sc: Scorer): (r: Dict<string, Record>)
    requires Valid(d) && IsCache(cache) && n <= |cache.keys| && sc.Valid()
    ensures Valid(r)
  {
    InsertAll(d, PassOffers(cache, n, variation, searchTerm, now, sc))
  }

  /** A cached listing that does not match stores nothing. */
  lemma PassSkip(d: Dict<string, Record>, cache: Dict<string, Record>, n: nat, variation: string,
                 searchTerm: string, now: string, sc: Scorer)
    requires Valid(d) && IsCache(cache) && n < |cache.keys| && sc.Valid()
    requires !Matches(cache.entries[cache.keys[n]], variation, sc)
    ensures PassSelected(d, cache, n + 1, variation, searchTerm, now, sc)
              == PassSelected(d, cache, n, variation, searchTerm, now, sc)
  {
    PassOffersSnoc(cache, n, variation, searchTerm, now, sc);
    var o := PassOffers(cache, n, variation, searchTerm, now, sc);
    assert PassOffers(cache, n + 1, variation, searchTerm, now, sc) == o + [];
    assert o + [] == o;
  }

  /** A matching cached listing is stored unless its id already is. */
  lemma PassTake(d: Dict<string, Record>, cache: Dict<string, Record>, n: nat, variation: string,
                 searchTerm: string, now: string, sc: Scorer)
    requires Valid(d) && IsCache(cache) && n < |cache.keys| && sc.Valid()
    requires Matches(cache.entries[cache.keys[n]], variation, sc)
    ensures var id := cache.keys[n];
            PassSelected(d, cache, n + 1, variation, searchTerm, now, sc)
              == InsertNew(PassSelected(d, cache, n, variation, searchTerm, now, sc), id,
                           WebuycarsListing(id, cache.entries[id], searchTerm, now))
  {
    var id := cache.keys[n];
    PassOffersSnoc(cache, n, variation, searchTerm, now, sc);
    InsertAllSnoc(d, PassOffers(cache, n, variation, searchTerm, now, sc), id,
                  WebuycarsListing(id, cache.entries[id], searchTerm, now));
  }

  /** The body of the inner loop for one cached listing: skip a listing already stored, and
      otherwise store it when it matches the variation. */
  method CheckListing(listings0: Dict<string, Record>, seen0: set<string>, id: string, l: Record,
                      variation: string, searchTerm: string, now: string, sc: Scorer)
    returns (listings: Dict<string, Record>, seen: set<string>)
    requires Valid(listings0) && seen0 == listings0.entries.Keys
    requires IsCacheRecord(l) && sc.Valid()
    ensures Matches(l, variation, sc) ==> listings == InsertNew(listings0, id, WebuycarsListing(id, l, searchTerm, now))
    ensures !Matches(l, variation, sc) ==> listings == listings0
    ensures seen == listings.entries.Keys
  {
    listings, seen := listings0, seen0;
    if id in seen {
      return;
    }
    var title := Title(l);
    var make := Records.Get(l, "make", Str(""));
    var model := Records.Get(l, "model", Str(""));
    if !PassesPrefilter(make, model, variation) {
      return;
    }
    if TextOf(title).None? {
      return;
    }
    if !IsRelevantMatch(TextOf(title).value, variation, Config.WebuycarsThreshold, sc) {
      return;
    }
    seen := seen + {id};
    listings := Set(listings, id, WebuycarsListing(id, l, searchTerm, now));
  }

  /** The inner loop: one variation against every cached listing, in cache order. */
  method SearchPass(listings0: Dict<string, Record>, seen0: set<string>, cache: Dict<string, Record>,
                    variation: string, searchTerm: string, now: string, sc: Scorer)
    returns (listings: Dict<string, Record>, seen: set<string>)
    requires Valid(listings0) && seen0 == listings0.entries.Keys
    requires IsCache(cache) && sc.Valid()
    ensures listings == InsertAll(listings0, PassOffers(cache, |cache.keys|, variation, searchTerm, now, sc))
    ensures seen == listings.entries.Keys
  {
    listings, seen := listings0, seen0;
    for n := 0 to |cache.keys|
      invariant listings == PassSelected(listings0, cache, n, variation, searchTerm, now, sc)
      invariant seen == listings.entries.Keys
    {
      var id := cache.keys[n];
      listings, seen := CheckListing(listings, seen, id, cache.entries[id], variation, searchTerm, now, sc);
      if Matches(cache.entries[id], variation, sc) {
        PassTake(listings0, cache, n, variation, searchTerm, now, sc);
      } else {
        PassSkip(listings0, cache, n, variation, searchTerm, now, sc);
      }
    }
  }

  /** What the outer loop has stored after the first `i` variations. */
  function Selected(cache: Dict<string, Record>, vs: seq<string>, i: nat, searchTerm: string, now: string,
                    sc: Scorer): (r: Dict<string, Record>)
    requires IsCache(cache) && i <= |vs| && sc.Valid()
    ensures Valid(r)
  {
    InsertAll(Empty(), CacheOffers(cache, vs[..i], searchTerm, now, sc))
  }

  lemma VariationStep(cache: Dict<string, Record>, vs: seq<string>, i: nat, searchTerm: string, now: string,
                      sc: Scorer)
    requires IsCache(cache) && i < |vs| && sc.Valid()
    ensures Selected(cache, vs, i + 1, searchTerm, now, sc)
              == InsertAll(Selected(cache, vs, i, searchTerm, now, sc),
                           PassOffers(cache, |cache.keys|, vs[i], searchTerm, now, sc))
  {
    assert vs[..i + 1][..i] == vs[..i];
    InsertAllConcat(Empty<string, Record>(), CacheOffers(cache, vs[..i], searchTerm, now, sc),
                    PassOffers(cache, |cache.keys|, vs[i], searchTerm, now, sc));
  }

  lemma SelectedAll(cache: Dict<string, Record>, vs: seq<string>, searchTerm: string, now: string, sc: Scorer)
    requires IsCache(cache) && sc.Valid()
    ensures Selected(cache, vs, |vs|, searchTerm, now, sc) == InsertAll(Empty(), CacheOffers(cache, vs, searchTerm, now, sc))
  {
    assert vs[..|vs|] == vs;
  }

  /** The outer loop over the variations, sharing the listings and ids. */
  method VariationLoop(cache: Dict<string, Record>, variations: seq<string>, searchTerm: string, now: string,
                          sc: Scorer)
    returns (listings: Dict<string, Record>)
    requires IsCache(cache) && sc.Valid()
    ensures listings == InsertAll(Empty(), CacheOffers(cache, variations, searchTerm, now, sc))
  {
    listings := Empty();
    var seen: set<string> := {};
    assert variations[..0] == [];
    for i := 0 to |variations|
      invariant listings == Selected(cache, variations, i, searchTerm, now, sc)
      invariant seen == listings.entries.Keys
    {
      VariationStep(cache, variations, i, searchTerm, now, sc);
      listings, seen := SearchPass(listings, seen, cache, variations[i], searchTerm, now, sc);
    }
    SelectedAll(cache, variations, searchTerm, now, sc);
  }

  /** `scrape_webuycars_cached(search_term)`, with `cache` the listings `load_cache()` returned. */
  method ScrapeWebuycarsCached(searchTerm: string, cache: Dict<string, Record>, now: string, sc: Scorer)
    returns (listings: Dict<string, Record>)
    requires IsCache(cache) && sc.Valid()
    ensures listings == ScrapeCached(searchTerm, cache, now, sc)
  {
    if searchTerm == [] || Strip(searchTerm) == [] {
      return Empty();
    }
    var term := Strip(searchTerm);
    if cache.entries == map[] {
      return Empty();
    }
    var variations := GenerateSearchVariations(term);
    listings := VariationLoop(cache, variations, term, now, sc);
  }

  // ---------------------------------------------------------------- properties

  /** A blank term or an empty cache gives no listings. */
  lemma BlankTermOrEmptyCache(searchTerm: string, cache: Dict<string, Record>, now: string, sc: Scorer)
    requires IsCache(cache) && sc.Valid()
    requires Strip(searchTerm) == [] || cache.keys == []
    ensures ScrapeCached(searchTerm, cache, now, sc) == Empty()
  {
  }

  /** A stored listing has the cached id, the term it is given and source "WeBuyCars". */
  lemma WebuycarsListingOrigin(id: string, l: Record, searchTerm: string, now: string)
    requires IsCacheRecord(l) && TextOf(Title(l)).Some?
    ensures var r := WebuycarsListing(id, l, searchTerm, now);
            && "id" in r && r["id"] == Str(id)
            && "search_term" in r && r["search_term"] == Str(searchTerm)
            && "source" in r && r["source"] == Str(Source)
  {
    var extras := WebuycarsExtras(l);
    assert "id" !in extras && "search_term" !in extras && "source" !in extras;
  }

  /** A stored listing holds the formatted mileage and the location (or "N/A") of the cached
      listing. */
  lemma WebuycarsListingSpecs(id: string, l: Record, searchTerm: string, now: string)
    requires IsCacheRecord(l) && TextOf(Title(l)).Some?
    ensures var r := WebuycarsListing(id, l, searchTerm, now);
            && "kilometers" in r && r["kilometers"] == FormatKilometers(Records.Get(l, "kilometers", Str(NotAvailable)))
            && "location" in r && r["location"] == Records.Get(l, "location", Str(NotAvailable))
  {
    var extras := WebuycarsExtras(l);
    assert "kilometers" in extras && extras["kilometers"] == FormatKilometers(Records.Get(l, "kilometers", Str(NotAvailable)));
    assert "location" in extras && extras["location"] == Records.Get(l, "location", Str(NotAvailable));
  }

  /** A listing one pass offers is a cached one that matches, with the listing built from it. */
  lemma PassOfferFrom(cache: Dict<string, Record>, n: nat, variation: string,
                      searchTerm: string, now: string, sc: Scorer, k: string, w: Record)
    requires IsCache(cache) && n <= |cache.keys| && sc.Valid()
    requires (k, w) in PassOffers(cache, n, variation, searchTerm, now, sc)
    ensures k in cache.entries && Matches(cache.entries[k], variation, sc)
    ensures w == WebuycarsListing(k, cache.entries[k], searchTerm, now)
  {
    OfferedFrom(cache.keys[..n], Hit(cache, variation, sc), Built(cache, searchTerm, now), k, w);
    assert Hit(cache, variation, sc)(k);
  }

  /** Every cached listing among the first `n` that matches is offered by the pass. */
  lemma PassOffersMatch(cache: Dict<string, Record>, n: nat, variation: string,
                        searchTerm: string, now: string, sc: Scorer, j: nat)
    requires IsCache(cache) && j < n <= |cache.keys| && sc.Valid()
    requires Matches(cache.entries[cache.keys[j]], variation, sc)
    ensures var k := cache.keys[j];
            (k, WebuycarsListing(k, cache.entries[k], searchTerm, now)) in PassOffers(cache, n, variation, searchTerm, now, sc)
  {
    var ks := cache.keys[..n];
    assert ks[j] == cache.keys[j];
    OfferedHas(ks, Hit(cache, variation, sc), Built(cache, searchTerm, now), j);
  }

  /** A listing any variation offers is a cached one that some variation matches. */
  lemma {:induction false} CacheOfferFrom(cache: Dict<string, Record>, vs: seq<string>, searchTerm: string,
                                          now: string, sc: Scorer, k: string, w: Record)
    requires IsCache(cache) && sc.Valid()
    requires (k, w) in CacheOffers(cache, vs, searchTerm, now, sc)
    ensures k in cache.entries && exists i :: 0 <= i < |vs| && Matches(cache.entries[k], vs[i], sc)
    ensures k in cache.entries && TextOf(Title(cache.entries[k])).Some?
    ensures w == WebuycarsListing(k, cache.entries[k], searchTerm, now)
  {
    var init := vs[..|vs| - 1];
    if (k, w) in CacheOffers(cache, init, searchTerm, now, sc) {
      CacheOfferFrom(cache, init, searchTerm, now, sc, k, w);
      var i :| 0 <= i < |init| && Matches(cache.entries[k], init[i], sc);
      assert vs[i] == init[i];
    } else {
      PassOfferFrom(cache, |cache.keys|, vs[|vs| - 1], searchTerm, now, sc, k, w);
    }
  }

  /** Every cached listing that some variation matches is offered. */
  lemma {:induction false} CacheOffersMatch(cache: Dict<string, Record>, vs: seq<string>, searchTerm: string,
                                            now: string, sc: Scorer, i: nat, k: string)
    requires IsCache(cache) && sc.Valid() && i < |vs|
    requires k in cache.entries && Matches(cache.entries[k], vs[i], sc)
    ensures (k, WebuycarsListing(k, cache.entries[k], searchTerm, now)) in CacheOffers(cache, vs, searchTerm, now, sc)
  {
    var init := vs[..|vs| - 1];
    if i < |init| {
      assert init[i] == vs[i];
      CacheOffersMatch(cache, init, searchTerm, now, sc, i, k);
    } else {
      var j :| 0 <= j < |cache.keys| && cache.keys[j] == k;
      PassOffersMatch(cache, |cache.keys|, vs[i], searchTerm, now, sc, j);
    }
  }

  /** The ids found are exactly the cached ids whose listing one of the variations of the
      stripped term matches; each is stored once, with the listing built from its cached record
      under the stripped original term, whichever variation matched first. */
  lemma ScrapeCachedContents(searchTerm: string, cache: Dict<string, Record>, now: string, sc: Scorer)
    requires IsCache(cache) && sc.Valid() && Strip(searchTerm) != []
    ensures var r, vs := ScrapeCached(searchTerm, cache, now, sc), Dedup(Candidates(Strip(searchTerm)));
            forall k :: k in r.entries <==>
              k in cache.entries && exists i :: 0 <= i < |vs| && Matches(cache.entries[k], vs[i], sc)
    ensures var r := ScrapeCached(searchTerm, cache, now, sc);
            forall k :: k in r.entries ==>
              && k in cache.entries && TextOf(Title(cache.entries[k])).Some?
              && r.entries[k] == WebuycarsListing(k, cache.entries[k], Strip(searchTerm), now)
  {
    var term := Strip(searchTerm);
    var vs := Dedup(Candidates(term));
    if cache.entries != map[] {
      assert ScrapeCached(searchTerm, cache, now, sc) == InsertAll(Empty(), CacheOffers(cache, vs, term, now, sc));
      ScrapeContents(cache, vs, term, now, sc);
    }
  }

  lemma ScrapeContents(cache: Dict<string, Record>, vs: seq<string>, term: string, now: string, sc: Scorer)
    requires IsCache(cache) && sc.Valid()
    ensures var r := InsertAll(Empty(), CacheOffers(cache, vs, term, now, sc));
            forall k :: k in r.entries <==>
              k in cache.entries && exists i :: 0 <= i < |vs| && Matches(cache.entries[k], vs[i], sc)
    ensures var r := InsertAll(Empty(), CacheOffers(cache, vs, term, now, sc));
            forall k :: k in r.entries ==>
              && k in cache.entries && TextOf(Title(cache.entries[k])).Some?
              && r.entries[k] == WebuycarsListing(k, cache.entries[k], term, now)
  {
    var offers := CacheOffers(cache, vs, term, now, sc);
    var r := InsertAll(Empty(), offers);
    InsertAllKeys(Empty<string, Record>(), offers);
    InsertAllValues(Empty<string, Record>(), offers);
    forall k | k in r.entries
      ensures k in cache.entries && exists i :: 0 <= i < |vs| && Matches(cache.entries[k], vs[i], sc)
      ensures k in cache.entries && TextOf(Title(cache.entries[k])).Some?
      ensures r.entries[k] == WebuycarsListing(k, cache.entries[k], term, now)
    {
      CacheOfferFrom(cache, vs, term, now, sc, k, r.entries[k]);
    }
    forall k | k in cache.entries && exists i :: 0 <= i < |vs| && Matches(cache.entries[k], vs[i], sc)
      ensures k in r.entries
    {
      var i :| 0 <= i < |vs| && Matches(cache.entries[k], vs[i], sc);
      CacheOffersMatch(cache, vs, term, now, sc, i, k);
      var idx :| 0 <= idx < |offers| && offers[idx] == (k, WebuycarsListing(k, cache.entries[k], term, now));
      assert offers[idx].0 == k;
    }
  }
}
