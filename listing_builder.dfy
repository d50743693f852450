/** The standard listing dictionary every scraper produces (utils/listing_builder.py). */
module ListingBuilder {
  import opened Text
  import opened Basics
  import opened Records

  const NotAvailable: string := "N/A"

  /** The fields `build_listing` always sets, before `extra_fields` are merged in. */
  const StandardFields: set<string> :=
    {"id", "title", "price", "price_history", "url", "search_term", "source", "found_date"}

  /** `price.strip() if price else "N/A"`, for a price that is a string or falsy. */
  function CleanListingPrice(price: Value): (r: string)
    requires TextOf(price).Some?
    ensures !Truthy(price) ==> r == NotAvailable
    ensures Truthy(price) ==> r == Strip(price.s)
    ensures r == [] || (!IsSpace(r[0]) && !IsSpace(r[|r| - 1]))
  {
    if Truthy(price) then Strip(price.s) else NotAvailable
  }

  /** `build_listing(listing_id, title, price, url, search_term, source, **extra_fields)` with the
      clock reading `now` (formatted `%d-%m-%Y %H:%M:%S`). `title` and `price` must be strings or
      falsy, as `.strip()` is applied to them otherwise; the extra fields override the standard ones. */
  function BuildListing(listingId: string, title: Value, price: Value, url: Value, searchTerm: string,
                        source: string, extras: Record, now: string): (r: Record)
    requires TextOf(title).Some? && TextOf(price).Some?
    ensures r.Keys == StandardFields + extras.Keys
    ensures forall k :: k in extras ==> r[k] == extras[k]
    ensures "id" !in extras ==> r["id"] == Str(listingId)
    ensures "title" !in extras ==> r["title"] == Str(Strip(TextOf(title).value))
    ensures "price" !in extras ==> r["price"] == Str(CleanListingPrice(price))
    ensures "url" !in extras ==> r["url"] == url
    ensures "search_term" !in extras ==> r["search_term"] == Str(searchTerm)
    ensures "source" !in extras ==> r["source"] == Str(source)
    ensures "found_date" !in extras ==> r["found_date"] == Str(now)
    ensures "price_history" !in extras ==>
              r["price_history"] == History([PriceEntry(now, Str(CleanListingPrice(price)))])
  {
    var p := CleanListingPrice(price);
    var base := map[
      "id" := Str(listingId),
      "title" := Str(Strip(TextOf(title).value)),
      "price" := Str(p),
      "price_history" := History([PriceEntry(now, Str(p))]),
      "url" := url,
      "search_term" := Str(searchTerm),
      "source" := Str(source),
      "found_date" := Str(now)];
    base + extras
  }

  /** Unless the extra fields replace them, a new listing's history is one entry that records
      its current price on the date it was found. */
  lemma NewListingHistory(listingId: string, title: Value, price: Value, url: Value, searchTerm: string,
                          source: string, extras: Record, now: string)
    requires TextOf(title).Some? && TextOf(price).Some?
    requires "price" !in extras && "price_history" !in extras && "found_date" !in extras
    ensures var r := BuildListing(listingId, title, price, url, searchTerm, source, extras, now);
            r["price_history"] == History([PriceEntry(r["found_date"].s, r["price"])])
  {
  }

  /** A price made of whitespace only is stored as the empty string, not as "N/A". */
  lemma BlankPriceIsEmpty(price: string)
    requires price != [] && forall i :: 0 <= i < |price| ==> IsSpace(price[i])
    ensures CleanListingPrice(Str(price)) == []
  {
    StripEmptyIffBlank(price);
  }

  /** A price without surrounding whitespace is stored unchanged. */
  lemma UnpaddedPriceIsKept(price: string)
    requires price != [] && !IsSpace(price[0]) && !IsSpace(price[|price| - 1])
    ensures CleanListingPrice(Str(price)) == price
  {
    StripUnpadded(price);
  }
}
