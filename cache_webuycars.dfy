/** The WeBuyCars cache refresh (cache_webuycars.py): the response handler that turns intercepted
    API items into cache records, the page loop with its stop rule, and the decision whether to
    save. The browser is replaced by the responses each page produces. */
module CacheWebuycars {
  import opened Text
  import opened Basics
  import opened Records
  import opened Dicts
  import opened ListingBuilder
  import WebuycarsTracker

  /** The substring that marks a search API response. */
  const ApiKeyword: string := "website-elastic-backend/api/search"
  const CarPages: string := "https://www.webuycars.co.za/buy-a-car/"
  const Unknown: string := "Unknown"

  /** `f"{SOURCE.lower()}_"` */
  function IdPrefix(): string {
    Lower(WebuycarsTracker.Source) + "_"
  }

  /** An API item is a JSON object whose fields are scalars. */
  predicate IsItem(item: Record) {
    forall k :: k in item ==> IsScalar(item[k])
  }

  type Item = item: Record | IsItem(item) witness map[]

  /** One intercepted response: its URL, its status, and the `data` items of its JSON body
      (empty when the body has no `data`), or `None` when the body is not JSON. */
  datatype Response = Response(url: string, status: int, json: Option<seq<Item>>)

  /** The responses intercepted while page `p` loads. */
  function PageResponses(responses: nat -> seq<Response>, p: nat): seq<Response> {
    responses(p)
  }

  // ---------------------------------------------------------------- handle_response

  /** The `StockNumber` of an item, "N/A" when absent. */
  function StockNumber(item: Item): Value {
    Records.Get(item, "StockNumber", Str(NotAvailable))
  }

  /** The cache record of an item with a stock number. */
  function ItemRecord(item: Item): (r: Record)
  {
    var make := Records.Get(item, "Make", Str(Unknown));
    var model := Records.Get(item, "Model", Str(Unknown));
    var vid := StockNumber(item);
    map["vehicle_id" := vid,
        "title" := Records.Get(item, "OnlineDescription", Str(NotAvailable)),
        "price" := Records.Get(item, "Price", Records.Get(item, "BuyNowPrice", Str(NotAvailable))),
        "url" := Str(CarPages + Render(make) + "/" + Render(model) + "/" + Render(vid)),
        "make" := make,
        "model" := model,
        "source" := Str(WebuycarsTracker.Source),
        "kilometers" := Records.Get(item, "Mileage", Str(NotAvailable)),
        "location" := Records.Get(item, "DealerKey", Str(NotAvailable))]
  }

  /** The (id, record) pair an item stores, or nothing when it has no stock number. */
  function ItemOffer(item: Item): Option<(string, Record)>
  {
    if StockNumber(item) == Str(NotAvailable) then None
    else Some((IdPrefix() + Render(StockNumber(item)), ItemRecord(item)))
  }

  /** The pairs a list of items stores, in order. */
  function ItemOffers(items: seq<Item>): seq<(string, Record)>
  {
    Picked(items, ItemOffer)
  }

  /** The items a response contributes: none unless its URL holds the API keyword, its status
      is 200 and its body is JSON. */
  function ResponseItems(r: Response): seq<Item> {
    if !Contains(r.url, ApiKeyword) || r.status != 200 || r.json.None? then [] else r.json.value
  }

  function ResponseOffers(r: Response): seq<(string, Record)>
  {
    ItemOffers(ResponseItems(r))
  }

  /** The pairs the responses of one page store, response by response. */
  function PageOffers(rs: seq<Response>): seq<(string, Record)>
  {
    if rs == [] then [] else PageOffers(rs[..|rs| - 1]) + ResponseOffers(rs[|rs| - 1])
  }

  /** The state the `handle_response` closure shares with the page loop. */
  class ResponseHandler {
    var allListings: Dict<string, Record>
    var pageListings: Dict<string, Record>
    var apiResponseCount: nat

    constructor ()
      ensures allListings == Empty() && pageListings == Empty() && apiResponseCount == 0
    {
      allListings := Empty();
      pageListings := Empty();
      apiResponseCount := 0;
    }

    /** `page_listings.clear()` and the reset of the response counter before each page. */
    method StartPage()
      modifies this
      ensures pageListings == Empty() && apiResponseCount == 0 && allListings == old(allListings)
    {
      pageListings := Empty();
      apiResponseCount := 0;
    }

    /** `handle_response(response)`: count an API response, and store the record of every item of
        a good one under its id, in both dictionaries, a later item overwriting an earlier one. */
    method HandleResponse(r: Response)
      requires Valid(allListings) && Valid(pageListings)
      modifies this
      ensures allListings == SetAll(old(allListings), ResponseOffers(r))
      ensures pageListings == SetAll(old(pageListings), ResponseOffers(r))
      ensures apiResponseCount == old(apiResponseCount) + (if Contains(r.url, ApiKeyword) then 1 else 0)
    {
      if !Contains(r.url, ApiKeyword) || r.status != 200 || r.json.None? || r.json.value == [] {
        NothingStored(r);
        if Contains(r.url, ApiKeyword) {
          apiResponseCount := apiResponseCount + 1;
        }
        return;
      }
      apiResponseCount := apiResponseCount + 1;
      HandleItems(r.json.value);
    }

    /** The loop over the `data` items of a good response. */
    method HandleItems(data: seq<Item>)
      requires Valid(allListings) && Valid(pageListings)
      modifies this
      ensures allListings == SetAll(old(allListings), ItemOffers(data))
      ensures pageListings == SetAll(old(pageListings), ItemOffers(data))
      ensures apiResponseCount == old(apiResponseCount)
    {
      for i := 0 to |data|
        invariant allListings == SetAll(old(allListings), ItemOffers(data[..i]))
        invariant pageListings == SetAll(old(pageListings), ItemOffers(data[..i]))
        invariant apiResponseCount == old(apiResponseCount)
      {
        var o := ItemOffer(data[i]);
        StoreStep(old(allListings), data, i);
        StoreStep(old(pageListings), data, i);
        if o.Some? {
          Store(o.value.0, o.value.1);
        }
      }
      assert data[..|data|] == data;
    }

    /** `all_listings[listing_id] = listing_data` and `page_listings[listing_id] = listing_data` */
    method Store(id: string, record: Record)
      requires Valid(allListings) && Valid(pageListings)
      modifies this
      ensures allListings == Set(old(allListings), id, record)
      ensures pageListings == Set(old(pageListings), id, record)
      ensures apiResponseCount == old(apiResponseCount)
    {
      allListings := Set(allListings, id, record);
      pageListings := Set(pageListings, id, record);
    }

    /** The responses intercepted while one page loads, handled in order. */
    method HandlePage(rs: seq<Response>)
      requires Valid(allListings) && Valid(pageListings)
      modifies this
      ensures allListings == SetAll(old(allListings), PageOffers(rs))
      ensures pageListings == SetAll(old(pageListings), PageOffers(rs))
    {
      for i := 0 to |rs|
        invariant allListings == SetAll(old(allListings), PageOffers(rs[..i]))
        invariant pageListings == SetAll(old(pageListings), PageOffers(rs[..i]))
      {
        PageOffersStep(rs, i);
        SetAllConcat(old(allListings), PageOffers(rs[..i]), ResponseOffers(rs[i]));
        SetAllConcat(old(pageListings), PageOffers(rs[..i]), ResponseOffers(rs[i]));
        HandleResponse(rs[i]);
      }
      assert rs[..|rs|] == rs;
    }
  }

  /** A response that is not a good API response, or has no items, stores nothing. */
  lemma NothingStored(r: Response)
    requires !Contains(r.url, ApiKeyword) || r.status != 200 || r.json.None? || r.json.value == []
    ensures ResponseOffers(r) == []
    ensures forall d: Dict<string, Record> {:trigger SetAll(d, ResponseOffers(r))} :: Valid(d) ==> SetAll(d, ResponseOffers(r)) == d
  {
    assert ResponseItems(r) == [];
  }

  /** Storing one more item is one more assignment, or none when it has no stock number. */
  lemma StoreStep(d: Dict<string, Record>, items: seq<Item>, i: nat)
    requires Valid(d) && i < |items|
    ensures var before, o := SetAll(d, ItemOffers(items[..i])), ItemOffer(items[i]);
            SetAll(d, ItemOffers(items[..i + 1])) == if o.Some? then Set(before, o.value.0, o.value.1) else before
  {
    var o := ItemOffer(items[i]);
    var prev := ItemOffers(items[..i]);
    PickedSnoc(items, ItemOffer, i);
    if o.Some? {
      SetAllSnoc(d, prev, o.value);
    } else {
      assert ItemOffers(items[..i + 1]) == prev;
    }
  }

  lemma PageOffersStep(rs: seq<Response>, i: nat)
    requires i < |rs|
    ensures PageOffers(rs[..i + 1]) == PageOffers(rs[..i]) + ResponseOffers(rs[i])
  {
    assert rs[..i + 1][..i] == rs[..i];
  }

  // ---------------------------------------------------------------- fetch_all_listings

  /** What each of pages 1 to 100 would store: entry `p - 1` holds the pairs of page `p`. */
  function OffersByPage(responses: nat -> seq<Response>): (offers: seq<seq<(string, Record)>>)
    ensures |offers| == 100
  {
    seq(100, i requires 0 <= i < 100 => PageOffers(PageResponses(responses, i + 1)))
  }

  lemma OffersByPageAt(responses: nat -> seq<Response>, p: nat)
    requires 1 <= p <= 100
    ensures OffersByPage(responses)[p - 1] == PageOffers(PageResponses(responses, p))
  {
  }

  /** The page the loop stops at, from page `p` on with `empties` consecutive empty pages behind
      it: the second consecutive page that stores nothing, or the last page. */
  function StopPage(offers: seq<seq<(string, Record)>>, p: nat, empties: nat): (n: nat)
    requires 1 <= p
    ensures n <= |offers|
    decreases |offers| + 1 - p
  {
    if p > |offers| then |offers|
    else if offers[p - 1] == [] then
      if empties + 1 >= 2 then p else StopPage(offers, p + 1, empties + 1)
    else StopPage(offers, p + 1, 0)
  }

  /** The pairs pages 1 to `n` store, page after page. */
  function AllOffers(offers: seq<seq<(string, Record)>>, n: nat): seq<(string, Record)>
    requires n <= |offers|
  {
    if n == 0 then [] else AllOffers(offers, n - 1) + offers[n - 1]
  }

  /** `fetch_all_listings()`, with `responses(p)` the responses intercepted while page `p` loads;
      `pages` is the number of pages it fetched: the stop page. The listings hold every pair of
      pages 1 to `pages`, assigned in turn. */
  method FetchAllListings(responses: nat -> seq<Response>) returns (listings: Dict<string, Record>, pages: nat)
    ensures pages == StopPage(OffersByPage(responses), 1, 0)
    ensures listings == SetAll(Empty(), AllOffers(OffersByPage(responses), pages))
  {
    var h := new ResponseHandler();
    ghost var offers := OffersByPage(responses);
    forall p | 1 <= p <= 100 ensures offers[p - 1] == PageOffers(PageResponses(responses, p)) {
      OffersByPageAt(responses, p);
    }
    pages := FetchPages(h, responses, offers);
    listings := h.allListings;
  }

  /** The page loop of `fetch_all_listings()`, given what each page stores. */
  method FetchPages(h: ResponseHandler, responses: nat -> seq<Response>, ghost offers: seq<seq<(string, Record)>>)
      returns (pages: nat)
    requires |offers| == 100
    requires forall p :: 1 <= p <= 100 ==> offers[p - 1] == PageOffers(PageResponses(responses, p))
    requires h.allListings == Empty() && Valid(h.pageListings)
    modifies h
    ensures pages == StopPage(offers, 1, 0)
    ensures h.allListings == SetAll(Empty(), AllOffers(offers, pages))
  {
    var pageNum: nat := 1;
    var empties: nat := 0;
    ghost var stop := StopPage(offers, 1, 0);
    while pageNum <= 100
      invariant 1 <= pageNum <= 101
      invariant Valid(h.pageListings)
      invariant h.allListings == SetAll(Empty(), AllOffers(offers, pageNum - 1))
      invariant StopPage(offers, pageNum, empties) == stop
      decreases 101 - pageNum
    {
      SetAllConcat(Empty(), AllOffers(offers, pageNum - 1), offers[pageNum - 1]);
      var empty := FetchPage(h, PageResponses(responses, pageNum));
      assert h.allListings == SetAll(Empty(), AllOffers(offers, pageNum));
      if empty {
        empties := empties + 1;
        if empties >= 2 {
          return pageNum;
        }
      } else {
        empties := 0;
      }
      pageNum := pageNum + 1;
    }
    return 100;
  }

  /** One page: clear `page_listings`, handle the page's responses, and report whether the page
      stored nothing. */
  method FetchPage(h: ResponseHandler, rs: seq<Response>) returns (empty: bool)
    requires Valid(h.allListings) && Valid(h.pageListings)
    modifies h
    ensures Valid(h.allListings) && Valid(h.pageListings)
    ensures h.allListings == SetAll(old(h.allListings), PageOffers(rs))
    ensures empty <==> PageOffers(rs) == []
  {
    h.StartPage();
    h.HandlePage(rs);
    NoPageListings(PageOffers(rs));
    empty := h.pageListings.entries == map[];
  }

  /** `page_listings` is empty after a page exactly when the page stored nothing. */
  lemma NoPageListings(pairs: seq<(string, Record)>)
    ensures SetAll(Empty(), pairs).entries == map[] <==> pairs == []
  {
    SetAllKeys(Empty<string, Record>(), pairs);
    if pairs != [] {
      assert pairs[0].0 in KeysOf(pairs);
    }
  }

  // ---------------------------------------------------------------- properties

  /** An item without a stock number stores nothing; any other item stores its record under
      "webuycars_" and its stock number. */
  lemma ItemOfferOf(item: Item)
    ensures ItemOffer(item).None? <==> ("StockNumber" !in item || item["StockNumber"] == Str("N/A"))
    ensures ItemOffer(item).Some? ==>
              ItemOffer(item).value == ("webuycars_" + Render(item["StockNumber"]), ItemRecord(item))
  {
    assert IdPrefix() == "webuycars_";
  }

  /** The record copies the item's fields, with "N/A" or "Unknown" where one is missing, and the
      price falls back from `Price` to `BuyNowPrice` to "N/A". */
  lemma ItemRecordFields(item: Item)
    ensures var rec := ItemRecord(item);
            && rec.Keys == {"vehicle_id", "title", "price", "url", "make", "model", "source", "kilometers", "location"}
            && rec["vehicle_id"] == (if "StockNumber" in item then item["StockNumber"] else Str("N/A"))
            && rec["title"] == (if "OnlineDescription" in item then item["OnlineDescription"] else Str("N/A"))
            && rec["price"] == (if "Price" in item then item["Price"]
                                else if "BuyNowPrice" in item then item["BuyNowPrice"] else Str("N/A"))
            && rec["make"] == (if "Make" in item then item["Make"] else Str("Unknown"))
            && rec["model"] == (if "Model" in item then item["Model"] else Str("Unknown"))
            && rec["kilometers"] == (if "Mileage" in item then item["Mileage"] else Str("N/A"))
            && rec["location"] == (if "DealerKey" in item then item["DealerKey"] else Str("N/A"))
  {
  }

  /** The url is the car page of the make, the model and the stock number, and the source is
      "WeBuyCars". */
  lemma ItemRecordUrl(item: Item)
    ensures var rec := ItemRecord(item);
            && rec["url"] == Str("https://www.webuycars.co.za/buy-a-car/" + Render(rec["make"]) + "/"
                                 + Render(rec["model"]) + "/" + Render(rec["vehicle_id"]))
            && rec["source"] == Str("WeBuyCars")
  {
  }

  /** Within one response, the last item with a given id decides the record stored under it. */
  lemma ItemOffersLastWins(d: Dict<string, Record>, items: seq<Item>, j: nat)
    requires Valid(d)
    requires j < |items| && ItemOffer(items[j]).Some?
    requires forall i :: j < i < |items| && ItemOffer(items[i]).Some? ==>
               ItemOffer(items[i]).value.0 != ItemOffer(items[j]).value.0
    ensures ItemOffer(items[j]).value.0 in SetAll(d, ItemOffers(items)).entries
    ensures SetAll(d, ItemOffers(items)).entries[ItemOffer(items[j]).value.0] == ItemOffer(items[j]).value.1
  {
    SetAllPickedLastWins(d, items, ItemOffer, j);
  }

  /** A record the refresh stores: under "webuycars_" and its stock number (never "N/A"), with
      the nine cache fields, all of them scalars, and the source "WeBuyCars". */
  predicate StoredPair(p: (string, Record)) {
    && p.1.Keys == {"vehicle_id", "title", "price", "url", "make", "model", "source", "kilometers", "location"}
    && WebuycarsTracker.IsCacheRecord(p.1)
    && p.1["vehicle_id"] != Str("N/A")
    && p.0 == "webuycars_" + Render(p.1["vehicle_id"])
    && p.1["source"] == Str("WeBuyCars")
  }

  predicate AllStored(pairs: seq<(string, Record)>) {
    forall i :: 0 <= i < |pairs| ==> StoredPair(pairs[i])
  }

  lemma AllStoredConcat(a: seq<(string, Record)>, b: seq<(string, Record)>)
    requires AllStored(a) && AllStored(b)
    ensures AllStored(a + b)
  {
    forall i | 0 <= i < |a + b| ensures StoredPair((a + b)[i]) {
      if i >= |a| {
        assert (a + b)[i] == b[i - |a|];
      }
    }
  }

  /** The pair an item stores is a stored pair. */
  lemma ItemOfferStored(item: Item)
    ensures ItemOffer(item).Some? ==> StoredPair(ItemOffer(item).value)
  {
    if ItemOffer(item).Some? {
      ItemOfferOf(item);
      ItemRecordFields(item);
    }
  }

  lemma ItemOffersStored(items: seq<Item>)
    ensures AllStored(ItemOffers(items))
  {
    var pairs := ItemOffers(items);
    forall i | 0 <= i < |pairs| ensures StoredPair(pairs[i]) {
      PickedFrom(items, ItemOffer, pairs[i]);
      var j :| 0 <= j < |items| && ItemOffer(items[j]) == Some(pairs[i]);
      ItemOfferStored(items[j]);
    }
  }

  lemma {:induction false} PageOffersStored(rs: seq<Response>)
    ensures AllStored(PageOffers(rs))
  {
    if rs != [] {
      PageOffersStored(rs[..|rs| - 1]);
      ItemOffersStored(ResponseItems(rs[|rs| - 1]));
      AllStoredConcat(PageOffers(rs[..|rs| - 1]), ResponseOffers(rs[|rs| - 1]));
    }
  }

  lemma {:induction false} AllOffersStored(responses: nat -> seq<Response>, n: nat)
    requires n <= 100
    ensures AllStored(AllOffers(OffersByPage(responses), n))
  {
    if n > 0 {
      AllOffersStored(responses, n - 1);
      OffersByPageAt(responses, n);
      PageOffersStored(PageResponses(responses, n));
      AllStoredConcat(AllOffers(OffersByPage(responses), n - 1), OffersByPage(responses)[n - 1]);
    }
  }

  /** Pages `q` and `q + 1` both store nothing. */
  predicate TwoEmpty(offers: seq<seq<(string, Record)>>, q: nat)
    requires 1 <= q < |offers|
  {
    offers[q - 1] == [] && offers[q] == []
  }

  /** What the page loop has seen before page `p`: `empties` is 1 exactly when page `p - 1` stored
      nothing, and no two consecutive pages so far stored nothing. */
  predicate Before(offers: seq<seq<(string, Record)>>, p: nat, empties: nat) {
    && 1 <= p <= |offers| + 1 && empties <= 1
    && (empties == 1 <==> (p >= 2 && offers[p - 2] == []))
    && (forall q :: 1 <= q && q + 1 < p ==> !TwoEmpty(offers, q))
  }

  /** The stop rule: the loop ends at the last page or at the first page that follows another
      empty page while storing nothing itself. */
  lemma {:induction false} StopPageRule(offers: seq<seq<(string, Record)>>, p: nat, empties: nat)
    requires Before(offers, p, empties)
    ensures var n := StopPage(offers, p, empties);
            && (p <= |offers| ==> p <= n)
            && (n == |offers| || (n >= 2 && TwoEmpty(offers, n - 1)))
            && (forall q :: 1 <= q && q + 1 < n ==> !TwoEmpty(offers, q))
    decreases |offers| + 1 - p
  {
    if p <= |offers| {
      if offers[p - 1] == [] {
        if empties + 1 < 2 {
          StopPageRule(offers, p + 1, 1);
        }
      } else {
        StopPageRule(offers, p + 1, 0);
      }
    }
  }

  /** `fetch_all_listings()` fetches between 1 and 100 pages and stops after the first two
      consecutive pages that store nothing; a page of repeated ids still counts as not empty. */
  lemma FetchAllPages(responses: nat -> seq<Response>)
    ensures var offers := OffersByPage(responses);
            var n := StopPage(offers, 1, 0);
            && 1 <= n <= 100
            && (n == 100 || (n >= 2 && TwoEmpty(offers, n - 1)))
            && (forall q :: 1 <= q && q + 1 < n ==> !TwoEmpty(offers, q))
  {
    StopPageRule(OffersByPage(responses), 1, 0);
  }

  /** Every record the loop has stored after any number of pages sits under "webuycars_" and its
      stock number, and the listings form a cache the WeBuyCars scraper can search. */
  lemma FetchedRecords(responses: nat -> seq<Response>, n: nat)
    requires n <= 100
    ensures var listings := SetAll(Empty(), AllOffers(OffersByPage(responses), n));
            && WebuycarsTracker.IsCache(listings)
            && forall k :: k in listings.entries ==> StoredPair((k, listings.entries[k]))
  {
    var pairs := AllOffers(OffersByPage(responses), n);
    var listings := SetAll(Empty(), pairs);
    AllOffersStored(responses, n);
    forall k | k in listings.entries ensures StoredPair((k, listings.entries[k])) {
      SetAllValues(Empty(), pairs, k);
      var i :| 0 <= i < |pairs| && pairs[i] == (k, listings.entries[k]);
    }
  }

  // ---------------------------------------------------------------- main

  /** What `main()` does with the fetched listings: whether it saves the cache and what it
      returns, given whether saving succeeds. */
  datatype Outcome = Outcome(saves: bool, result: bool)

  function Refresh(fetched: Dict<string, Record>, saveSucceeds: bool): (o: Outcome)
    ensures fetched.entries == map[] ==> o == Outcome(false, false)
    ensures fetched.entries != map[] ==> o.saves && o.result == saveSucceeds
  {
    if fetched.entries == map[] then Outcome(false, false) else Outcome(true, saveSucceeds)
  }
}
