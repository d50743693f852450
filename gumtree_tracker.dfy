/** The Gumtree scraper's selection loop (trackers/gumtreeTracker.py), over elements already read
    from the result page. */
module GumtreeTracker {
  import opened Basics
  import opened Records
  import opened Dicts
  import opened BaseTracker

  const Source: string := "Gumtree"
  const Site: string := "https://www.gumtree.co.za"
  const IdPrefix: string := "gt_"

  /** What the loop reads from one `span.related-item` element: its `data-adid` attribute ("" when
      absent), the stripped texts of the title and price elements (`None` when the element is
      absent) and the link's `href` ("" when absent). */
  datatype GumtreeElement = GumtreeElement(adId: string, title: Option<string>, price: Option<string>, href: string)

  /** A text that is present and non-empty, so that `not text` is false. */
  predicate Present(t: Option<string>) {
    t.Some? && t.value != ""
  }

  /** An element the loop stores: it has an id, a title, a price and a link. */
  predicate IsComplete(e: GumtreeElement) {
    e.adId != "" && Present(e.title) && Present(e.price) && e.href != ""
  }

  function ListingId(e: GumtreeElement): string {
    IdPrefix + e.adId
  }

  /** The record `create_listing` builds for a complete element. */
  function GumtreeListing(e: GumtreeElement, searchTerm: string, now: string): Record
    requires IsComplete(e)
  {
    CreateListing(Str(ListingId(e)), Str(e.title.value), Str(e.price.value), Str(Site + e.href),
                  Str(searchTerm), Str(Source), now)
  }

  /** A Gumtree listing carries the element's id, title and price, the site address before the
      `href`, the search term as given and source "Gumtree". */
  lemma GumtreeListingOf(e: GumtreeElement, searchTerm: string, now: string)
    requires IsComplete(e)
    ensures var r := GumtreeListing(e, searchTerm, now);
            && r.Keys == CreatedFields
            && r["id"] == Str(ListingId(e)) && r["title"] == Str(e.title.value) && r["price"] == Str(e.price.value)
            && r["url"] == Str(Site + e.href) && r["search_term"] == Str(searchTerm) && r["source"] == Str(Source)
  {
  }

  /** The (id, listing) pairs the complete elements offer, in page order. */
  function Offers(els: seq<GumtreeElement>, searchTerm: string, now: string): seq<(string, Record)> {
    if els == [] then []
    else
      var e := els[|els| - 1];
      Offers(els[..|els| - 1], searchTerm, now)
        + (if IsComplete(e) then [(ListingId(e), GumtreeListing(e, searchTerm, now))] else [])
  }

  /** `scrape_gumtree(search_term)`: `page` is the list of result elements, or `None` when the
      page could not be fetched. */
  method ScrapeGumtree(searchTerm: string, page: Option<seq<GumtreeElement>>, now: string)
    returns (listings: Dict<string, Record>)
    ensures Valid(listings)
    ensures page.None? ==> listings == Empty()
    ensures page.Some? ==> listings == InsertAll(Empty(), Offers(page.value, searchTerm, now))
  {
    if page.None? {
      return Empty();
    }
    var els := page.value;
    if els == [] {
      return Empty();
    }
    listings := Empty();
    var seen: set<string> := {};
    for i := 0 to |els|
      invariant listings == Selected(els, i, searchTerm, now)
      invariant seen == listings.entries.Keys
    {
      var e := els[i];
      if e.adId == "" {
        SkipStep(els, i, searchTerm, now);
        continue;
      }
      var id := IdPrefix + e.adId;
      if id in seen {
        if IsComplete(e) {
          TakeStep(els, i, searchTerm, now);
        } else {
          SkipStep(els, i, searchTerm, now);
        }
        continue;
      }
      if !Present(e.title) || !Present(e.price) || e.href == "" {
        SkipStep(els, i, searchTerm, now);
        continue;
      }
      TakeStep(els, i, searchTerm, now);
      seen := seen + {id};
      listings := Set(listings, id, GumtreeListing(e, searchTerm, now));
    }
    assert els[..|els|] == els;
    assert listings == InsertAll(Empty(), Offers(els, searchTerm, now));
  }

  /** What the loop has stored after its first `i` elements. */
  function Selected(els: seq<GumtreeElement>, i: nat, searchTerm: string, now: string): (d: Dict<string, Record>)
    requires i <= |els|
    ensures Valid(d)
  {
    InsertAll(Empty(), Offers(els[..i], searchTerm, now))
  }

  /** An incomplete element stores nothing. */
  lemma SkipStep(els: seq<GumtreeElement>, i: nat, searchTerm: string, now: string)
    requires i < |els| && !IsComplete(els[i])
    ensures Selected(els, i + 1, searchTerm, now) == Selected(els, i, searchTerm, now)
  {
    assert els[..i + 1][..i] == els[..i];
    assert Offers(els[..i + 1], searchTerm, now) == Offers(els[..i], searchTerm, now);
  }

  /** A complete element is stored unless its id already is. */
  lemma TakeStep(els: seq<GumtreeElement>, i: nat, searchTerm: string, now: string)
    requires i < |els| && IsComplete(els[i])
    ensures Selected(els, i + 1, searchTerm, now)
              == InsertNew(Selected(els, i, searchTerm, now), ListingId(els[i]), GumtreeListing(els[i], searchTerm, now))
  {
    var e := els[i];
    assert els[..i + 1][..i] == els[..i];
    var o := Offers(els[..i], searchTerm, now);
    assert Offers(els[..i + 1], searchTerm, now) == o + [(ListingId(e), GumtreeListing(e, searchTerm, now))];
    InsertAllSnoc(Empty(), o, ListingId(e), GumtreeListing(e, searchTerm, now));
  }

  // ---------------------------------------------------------------- properties

  lemma {:induction false} OffersConcat(a: seq<GumtreeElement>, b: seq<GumtreeElement>, searchTerm: string, now: string)
    ensures Offers(a + b, searchTerm, now) == Offers(a, searchTerm, now) + Offers(b, searchTerm, now)
    decreases |b|
  {
    if b == [] {
      assert a + b == a;
    } else {
      var b' := b[..|b| - 1];
      assert (a + b)[..|a + b| - 1] == a + b';
      assert (a + b)[|a + b| - 1] == b[|b| - 1];
      OffersConcat(a, b', searchTerm, now);
    }
  }

  /** The keys the offers carry are the ids of the complete elements. */
  lemma {:induction false} OfferKeys(els: seq<GumtreeElement>, searchTerm: string, now: string)
    ensures KeysOf(Offers(els, searchTerm, now)) == set e | e in els && IsComplete(e) :: ListingId(e)
  {
    if els != [] {
      var init, e := els[..|els| - 1], els[|els| - 1];
      assert els == init + [e];
      OfferKeys(init, searchTerm, now);
      var o := Offers(els, searchTerm, now);
      if o != [] {
        KeysOfSnoc(o);
      }
      if IsComplete(e) {
        assert o[..|o| - 1] == Offers(init, searchTerm, now);
      } else {
        assert o == Offers(init, searchTerm, now);
      }
    }
  }

  /** The stored ids are exactly those of the complete elements: each is "gt_" and a non-empty
      `data-adid`, and no complete element is filtered out for relevance. */
  lemma GumtreeKeys(els: seq<GumtreeElement>, searchTerm: string, now: string)
    ensures var r := InsertAll(Empty(), Offers(els, searchTerm, now));
            r.entries.Keys == set e | e in els && IsComplete(e) :: ListingId(e)
    ensures forall e :: e in els && IsComplete(e) ==> |ListingId(e)| > |IdPrefix| && ListingId(e)[..|IdPrefix|] == IdPrefix
  {
    InsertAllKeys(Empty<string, Record>(), Offers(els, searchTerm, now));
    OfferKeys(els, searchTerm, now);
  }

  /** The first complete element with a given id is the one stored, even when an incomplete
      element with that id came before it. */
  lemma GumtreeFirstCompleteWins(els: seq<GumtreeElement>, i: nat, searchTerm: string, now: string)
    requires i < |els| && IsComplete(els[i])
    requires forall j :: 0 <= j < i && IsComplete(els[j]) ==> ListingId(els[j]) != ListingId(els[i])
    ensures var r := InsertAll(Empty(), Offers(els, searchTerm, now));
            ListingId(els[i]) in r.entries && r.entries[ListingId(els[i])] == GumtreeListing(els[i], searchTerm, now)
  {
    var id := ListingId(els[i]);
    NotYetStored(els, i, searchTerm, now);
    TakeStep(els, i, searchTerm, now);
    SelectedKeepsOld(els, i + 1, searchTerm, now);
    assert els[..|els|] == els;
  }

  /** Whatever the loop has stored stays stored until the end. */
  lemma SelectedKeepsOld(els: seq<GumtreeElement>, i: nat, searchTerm: string, now: string)
    requires i <= |els|
    ensures forall k :: k in Selected(els, i, searchTerm, now).entries ==>
              k in Selected(els, |els|, searchTerm, now).entries &&
              Selected(els, |els|, searchTerm, now).entries[k] == Selected(els, i, searchTerm, now).entries[k]
  {
    assert els[..|els|] == els[..i] + els[i..];
    OffersConcat(els[..i], els[i..], searchTerm, now);
    InsertAllConcat(Empty<string, Record>(), Offers(els[..i], searchTerm, now), Offers(els[i..], searchTerm, now));
    InsertAllKeepsOld(Selected(els, i, searchTerm, now), Offers(els[i..], searchTerm, now));
  }

  /** An id no earlier complete element carries is not yet stored. */
  lemma NotYetStored(els: seq<GumtreeElement>, i: nat, searchTerm: string, now: string)
    requires i < |els|
    requires forall j :: 0 <= j < i && IsComplete(els[j]) ==> ListingId(els[j]) != ListingId(els[i])
    ensures ListingId(els[i]) !in Selected(els, i, searchTerm, now).entries
  {
    var before := els[..i];
    OfferKeys(before, searchTerm, now);
    InsertAllKeys(Empty<string, Record>(), Offers(before, searchTerm, now));
    forall e | e in before && IsComplete(e) ensures ListingId(e) != ListingId(els[i]) {
      var j :| 0 <= j < |before| && before[j] == e;
      assert els[j] == e;
    }
  }

  /** Every stored listing came from a complete element and the search term as given:
      source "Gumtree", the site prefix before the `href`. */
  lemma GumtreeListingFields(els: seq<GumtreeElement>, searchTerm: string, now: string)
    ensures var r := InsertAll(Empty(), Offers(els, searchTerm, now));
            forall k :: k in r.entries ==>
              exists e :: e in els && IsComplete(e) && k == ListingId(e) && r.entries[k] == GumtreeListing(e, searchTerm, now)
  {
    var r := InsertAll(Empty(), Offers(els, searchTerm, now));
    InsertAllValues(Empty<string, Record>(), Offers(els, searchTerm, now));
    forall k | k in r.entries
      ensures exists e :: e in els && IsComplete(e) && k == ListingId(e) && r.entries[k] == GumtreeListing(e, searchTerm, now)
    {
      OfferFrom(els, searchTerm, now, k, r.entries[k]);
    }
  }

  lemma {:induction false} OfferFrom(els: seq<GumtreeElement>, searchTerm: string, now: string, k: string, v: Record)
    requires (k, v) in Offers(els, searchTerm, now)
    ensures exists e :: e in els && IsComplete(e) && k == ListingId(e) && v == GumtreeListing(e, searchTerm, now)
  {
    var init, e := els[..|els| - 1], els[|els| - 1];
    if (k, v) in Offers(init, searchTerm, now) {
      OfferFrom(init, searchTerm, now, k, v);
      var e' :| e' in init && IsComplete(e') && k == ListingId(e') && v == GumtreeListing(e', searchTerm, now);
      assert e' in els;
    } else {
      assert e in els;
    }
  }
}
