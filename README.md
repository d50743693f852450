# Motorcycle listing tracker: a verified model of its matching and tracking core

The tracker searches three South African classified sites for a list of motorcycles. The sites are
AutoTrader, Gumtree, and WeBuyCars (searched through a local cache of that site's API). It then
compares each run's listings with the previous run to report new listings and price drops.

This project models the deterministic heart of the system in Dafny:

- **Title relevance.** Text normalisation, word tokens, the blended fuzzy score with its
  containment shortcut and brand and model-number gates, the threshold test, and the
  AutoTrader-specific test.
- **Search-variation generation.** Five rewrite rules and a case-insensitive, order-preserving
  deduplication.
- **Per-site selection.** For each site: the element or item filters, listing-id derivation,
  "first wins" and "last wins" deduplication, and the cache refresh's response handling and
  pagination stop rule.
- **Run-to-run tracking.** `clean_price`, and `process_listings`, which finds new listings and
  price changes. It updates the current listings in place and appends to price-history lists
  shared with the previous run.
- **Small builders and checks.** `build_listing`, `create_listing`, `validate_search_term`,
  the bike-list line filter, and the display formats of prices and mileages.
- **The threshold tuner.** Its confusion counts, its metrics, and its choice of threshold.

## Conventions

- **Types.** Strings are ASCII `seq<char>`. Scores and metrics are `real`. A Python
  dictionary is a `Dicts.Dict`: a map together with its insertion order, because the loops
  iterate in that order, and that order decides which entry wins.
- **The clock.** Each operation that reads the clock takes the reading as a parameter `now`.
- **Opaque inputs.** Pages, scraped elements, API responses and file contents are inputs.
  `difflib`'s ratio and the choice of `list(set)[0]` are fields of a `Scorer` value, whose
  `Valid()` keeps the ratio in [0, 1] and the brand inside the term's token set.
- **State.** Where the source updates state in place, the model does too:
  - `Listing` and `PriceHistory` in `PriceTracking` are classes. A Python list shared between
    two listings is one `PriceHistory` object shared between two `Listing` objects.
  - `ResponseHandler` in `CacheWebuycars` is a class holding the closure's state.
  - Loops are methods proved against functions of their inputs.

Where the code and a natural reading of it disagree, the model follows the code:

- **The AutoTrader word test is substring containment.** "bmw gs 310" finds "g" and "310" inside
  "bmw g 310", so `("2021 bmw GS 310", "BMW G 310")` is accepted.
  `RelevantMatch.AutotraderWordRatio` states the rule.
- **Rule 1 has no empty guard.** A hyphen-only model yields the variation `"<brand> "`, and the
  AutoTrader scraper then fails with the `IndexError` of `model_parts[1]`.
  `SearchVariations.HyphenOnlyModel` and `AutotraderTracker.HyphenOnlyTermFails` state this.
- **Containment comes first.** An empty normalized string is contained in every string, so an
  empty term or a punctuation-only title scores 1.0.
- **WeBuyCars passes the listing title in the search-term position** of `is_relevant_match`.

## Model

| member | source | states |
|---|---|---|
| RelevantMatch.DropPunctuation | utils/relevant_match.py:14 | every character kept comes from the input and is a word character or whitespace |
| RelevantMatch.DropPunctuationKeeps | utils/relevant_match.py:14 | a string of word characters and whitespace passes through unchanged |
| RelevantMatch.NormalizeText | utils/relevant_match.py:9-16 | the result is normalized: lower-case words of word characters, joined by single spaces, with no leading or trailing space ("" for empty input) |
| RelevantMatch.JoinSplitNormalized | utils/relevant_match.py:13-16 | splitting a normalized string and joining it with single spaces gives the same string back |
| RelevantMatch.NormalizeIdempotent | utils/relevant_match.py:9-16 | normalizing twice gives the same text as normalizing once |
| RelevantMatch.GetWordTokens | utils/relevant_match.py:19-23 | definition of the token set: the words of the normalized text longer than one character; its meaning is stated by TokensAreWords and TokensOfNormalized |
| RelevantMatch.TokensAreWords | utils/relevant_match.py:19-23 | every token is a lower-case word of at least two characters that occurs in the normalized text |
| RelevantMatch.TokensOfNormalized | utils/relevant_match.py:19-23 | the tokens of an already normalized text are the tokens of the raw text |
| RelevantMatch.DigitRunLen | utils/relevant_match.py:49-50 | the run of digits starting at a position is maximal: all digits, followed by the end or a non-digit |
| RelevantMatch.ShortNumbers | utils/relevant_match.py:49-50 | definition of the set of `\b\d{2,4}\b` matches, scanned left to right; ShortNumbersAreWords states which words they are |
| RelevantMatch.ShortNumbersAreWords | utils/relevant_match.py:49-50 | on normalized text, the matches of `\b\d{2,4}\b` are exactly the words made of 2 to 4 digits |
| RelevantMatch.Jaccard | utils/relevant_match.py:56-58 | the Jaccard index lies in [0, 1] |
| RelevantMatch.GatedScore | utils/relevant_match.py:38-63 | the score after the containment check lies in [0, 1] whenever the sequence ratio does |
| RelevantMatch.FuzzyMatchScore | utils/relevant_match.py:26-63 | the fuzzy score lies in [0, 1] |
| RelevantMatch.ContainmentScoresOne | utils/relevant_match.py:28-33 | the score is exactly 1.0 when either normalized string is empty or contains the other |
| RelevantMatch.SameTextScoresOne | utils/relevant_match.py:28-33 | two texts that normalize to the same string score 1.0 |
| RelevantMatch.NoSearchTokensScoresZero | utils/relevant_match.py:36-39 | past the containment check, a term without tokens scores 0.0 |
| RelevantMatch.DisjointTokensScoreBrandMismatch | utils/relevant_match.py:42-46 | past the containment check, a term none of whose tokens is among the title tokens scores 0.1 |
| RelevantMatch.SubsetPassesBrandGate | utils/relevant_match.py:42-63 | when every term token is a title token, the brand gate does not fire: the score is 0.15 or the blend with Jaccard index \|S\|/\|T\| |
| RelevantMatch.NumberGate | utils/relevant_match.py:49-53 | past the brand gate, a term with 2–4-digit words none of which is a word of the title scores exactly 0.15 |
| RelevantMatch.GatesPassedBlend | utils/relevant_match.py:56-63 | past both gates, the score is 0.6 times the Jaccard index plus 0.4 times the sequence ratio |
| RelevantMatch.IsRelevantMatch | utils/relevant_match.py:66-69 | definition: the fuzzy score reaches the threshold; GatesDecideAbove and GatesDecideAtConfiguredThresholds state which titles it accepts and rejects |
| RelevantMatch.GatesDecideAbove | utils/relevant_match.py:66-69 | at any threshold above 0.15 and up to 1.0, containment always matches, a score of at most 0.15 never does, and disjoint tokens never do |
| RelevantMatch.GatesDecideAtConfiguredThresholds | config/config.py:55-59 | at the default threshold 0.435 (utils/relevant_match.py:66) and the WeBuyCars threshold 0.4575 (trackers/webuycarsTracker.py:45), a contained title is accepted and a title that fails a gate (score 0.0, 0.1 or 0.15) or shares no token with the search term is rejected |
| RelevantMatch.IsRelevantAutotraderMatch | utils/relevant_match.py:72-113 | definition: a term without a model accepts every title; otherwise the number gate, then the share of model words found in the lower-cased title against 0.50; the AutotraderBrandOnlyAccepts, AutotraderNumberGate and AutotraderWordRatio rows state its cases |
| RelevantMatch.AutotraderBrandOnlyAccepts | utils/relevant_match.py:85-87 | a term with fewer than two words is accepted for every title |
| RelevantMatch.AutotraderNumberGate | utils/relevant_match.py:95-106 | when a model word is all digits after removing ',' and '.', and the model and title share no digit run, the title is rejected |
| RelevantMatch.NumberWordHasDigitRun | utils/relevant_match.py:97-101 | a model with an all-digit word has at least one digit run |
| RelevantMatch.WordRatioHalf | utils/relevant_match.py:110-113 | the ratio test accepts exactly when at least half of the model words are substrings of the title |
| RelevantMatch.AutotraderWordRatio | utils/relevant_match.py:85-113 | past the number gate, a two-word-or-longer term is accepted iff at least half of its model words occur as substrings of the lower-cased title |
| SearchVariations.Rule1 | utils/search_variation_generator.py:21-24 | definition of rule 1: the brand and the model without hyphens, only when the model had a hyphen; HyphensRemoved and HyphenOnlyModel state its output |
| SearchVariations.Rule2 | utils/search_variation_generator.py:26-28 | definition of rule 2: the brand and the first model word, only when the model has several words |
| SearchVariations.Rule3 | utils/search_variation_generator.py:30-34 | definition of rule 3: the brand and the first model word holding a digit, located by FirstDigitIndex |
| SearchVariations.Rule4 | utils/search_variation_generator.py:36-39 | definition of rule 4: the brand and the model without filler words, unless that leaves nothing or changes nothing; Rule4Guard states the guard |
| SearchVariations.Rule5 | utils/search_variation_generator.py:41-46 | definition of rule 5: the brand and the model words run together, for a model of two or more words one of which is a number, unless that changes nothing; Rule5Fires states when it fires |
| SearchVariations.DropFillers | utils/search_variation_generator.py:37 | the trimmed tokens are tokens of the model that are not among SX, GS, X, SE, ABS in any case |
| SearchVariations.FirstDigitIndex | utils/search_variation_generator.py:31-34 | rule 3 picks the first model token that contains a digit, or none when no token does |
| SearchVariations.Candidates | utils/search_variation_generator.py:11-46 | the candidate list starts with the term as given and has at most six entries |
| SearchVariations.Dedup | utils/search_variation_generator.py:48-55 | never longer than its input; DedupCovers, DedupDistinct and DedupFirst state that it keeps the first spelling of each lower-cased form, in order |
| SearchVariations.DedupStep | utils/search_variation_generator.py:51-55 | one step of the dedup loop keeps a variation exactly when no earlier one has the same lower-case form |
| SearchVariations.DedupCovers | utils/search_variation_generator.py:49-55 | dedup loses no lower-case form |
| SearchVariations.DedupDistinct | utils/search_variation_generator.py:49-55 | no two results are equal ignoring case |
| SearchVariations.DedupFirst | utils/search_variation_generator.py:49-55 | the first candidate survives in first place, and every later survivor is a later candidate |
| SearchVariations.KeepFirstSpellings | utils/search_variation_generator.py:49-57 | the dedup loop computes the order-preserving, case-insensitive dedup of its input |
| SearchVariations.GenerateSearchVariations | utils/search_variation_generator.py:1-57 | the generator returns the deduplicated candidates |
| SearchVariations.OriginalFirst | utils/search_variation_generator.py:11-55 | the first variation is the search term exactly as given |
| SearchVariations.SingleWordTerm | utils/search_variation_generator.py:13-15 | a term with fewer than two words gives exactly `[search_term]` |
| SearchVariations.VariationsBounded | utils/search_variation_generator.py:11-57 | there are at most six variations, pairwise distinct ignoring case |
| SearchVariations.VariantHasBrandPrefix | utils/search_variation_generator.py:24 | `f"{brand} {model}"` starts with the brand followed by one space |
| SearchVariations.RulesHaveBrandPrefix | utils/search_variation_generator.py:17-46 | every rule's output is the verbatim first word, a space, and a rewritten model |
| SearchVariations.VariantsStartWithBrand | utils/search_variation_generator.py:17-57 | every variation after the first starts with the term's first word and a space |
| SearchVariations.DropFillersKeepsPlain | utils/search_variation_generator.py:37 | a model without suffix tokens is not trimmed |
| SearchVariations.DropFillersAll | utils/search_variation_generator.py:37 | a model made only of suffix tokens trims to nothing |
| SearchVariations.Rule4Guard | utils/search_variation_generator.py:37-39 | rule 4 adds nothing when trimming leaves the model unchanged or empty |
| SearchVariations.ConcatHasNoSpace | utils/search_variation_generator.py:44 | joining tokens with no separator produces no space |
| SearchVariations.JoinedDiffersFromConcat | utils/search_variation_generator.py:44-45 | for two or more tokens, the unseparated join differs from the space-separated model |
| SearchVariations.Rule5Fires | utils/search_variation_generator.py:43-46 | rule 5 adds a variation iff the model has at least two tokens and one of them is all digits |
| SearchVariations.HyphensRemoved | utils/search_variation_generator.py:22 | removing hyphens from a hyphen-only string leaves the empty string |
| SearchVariations.HyphenOnlyModel | utils/search_variation_generator.py:22-24 | a hyphen-only model makes rule 1 emit `"<brand> "`, and the candidates are the term and that string |
| SearchVariations.OneWordRules | utils/search_variation_generator.py:27-46 | a single model word without digits or suffixes triggers none of rules 2 to 5 |
| WebuycarsTracker.PassesPrefilter | trackers/webuycarsTracker.py:48-59 | definition of the make/model prefilter: a term without words passes, otherwise at least 60% of its lower-cased words must occur in the full name; PrefilterCount restates it in whole numbers |
| WebuycarsTracker.IsRelevantListing | trackers/webuycarsTracker.py:40-70 | definition: the prefilter, then `is_relevant_match` at 0.4575 with the title in the search-term position; PrefilterPassedDecidesByTitle and PrefilterRejects state its cases |
| WebuycarsTracker.PrefilterCount | trackers/webuycarsTracker.py:48-59 | the prefilter passes iff there are no search words or at least 60% of them are substrings of the lower-cased "make model" |
| WebuycarsTracker.RatioBelow | trackers/webuycarsTracker.py:58 | `m/n < 0.6` is the integer comparison `5m < 3n` |
| WebuycarsTracker.PrefilterPassedDecidesByTitle | trackers/webuycarsTracker.py:40-70 | once every search word is in "make model", relevance is the fuzzy score of (title, term) — title in the search-term slot — at the 0.4575 threshold |
| WebuycarsTracker.AllContained | trackers/webuycarsTracker.py:55 | when every word is contained, the count is the number of words |
| WebuycarsTracker.PrefilterRejects | trackers/webuycarsTracker.py:58-59 | fewer than 60% of search words in "make model" rejects whatever the title |
| WebuycarsTracker.FormatPrice | trackers/webuycarsTracker.py:72-81 | an integer (or bool) gives "R " and comma-grouped digits, a string other than "N/A" gets "R " prefixed, anything else is returned unchanged |
| WebuycarsTracker.FormatKilometers | trackers/webuycarsTracker.py:83-92 | an integer (or bool) gives comma-grouped digits and " km", a string other than "N/A" gets " km" appended, anything else is returned unchanged |
| WebuycarsTracker.GroupedIntDigits | trackers/webuycarsTracker.py:76 | removing the commas of a grouped non-negative integer gives its decimal digits back |
| WebuycarsTracker.FormattedPriceIsText | trackers/webuycarsTracker.py:140-143 | a formatted scalar price is always text or falsy, so `build_listing` can strip it |
| WebuycarsTracker.WebuycarsExtras | trackers/webuycarsTracker.py:147-148 | the extra fields are exactly kilometers and location |
| WebuycarsTracker.PassOffersSnoc | trackers/webuycarsTracker.py:124-149 | one more cached listing offers its built record exactly when it matches the variation |
| WebuycarsTracker.HitBuilt | trackers/webuycarsTracker.py:136-149 | the per-id test and builder used by the selection agree with `is_relevant_listing` and `build_listing` |
| WebuycarsTracker.Matches | trackers/webuycarsTracker.py:128-153 | a cached listing matches only when its title is text: a truthy title of another type raises in `normalize_text` and the `except` skips the listing |
| WebuycarsTracker.PassSkip | trackers/webuycarsTracker.py:126-136 | a cached listing that does not match leaves the result unchanged |
| WebuycarsTracker.PassTake | trackers/webuycarsTracker.py:126-149 | a matching cached listing is stored unless its id was already taken |
| WebuycarsTracker.CheckListing | trackers/webuycarsTracker.py:126-149 | the loop body stores a matching listing under a new id, skips the rest, and keeps `seen_ids` equal to the stored keys |
| WebuycarsTracker.SearchPass | trackers/webuycarsTracker.py:124-153 | the inner loop inserts the matches of one variation, first occurrence winning, and keeps `seen_ids` equal to the stored keys |
| WebuycarsTracker.VariationStep | trackers/webuycarsTracker.py:123-153 | one more variation inserts its pass's matches into what the earlier variations stored |
| WebuycarsTracker.SelectedAll | trackers/webuycarsTracker.py:123-153 | after all variations, the result is the first-wins insertion of all offers in variation order |
| WebuycarsTracker.VariationLoop | trackers/webuycarsTracker.py:120-154 | the nested loops compute the first-wins insertion of every variation's matches in generator order |
| WebuycarsTracker.ScrapeWebuycarsCached | trackers/webuycarsTracker.py:94-156 | the method computes the selection of the cache for the stripped term |
| WebuycarsTracker.BlankTermOrEmptyCache | trackers/webuycarsTracker.py:101-112 | a blank term or an empty cache gives {} |
| WebuycarsTracker.WebuycarsListing | trackers/webuycarsTracker.py:139-148 | definition of the stored record: `build_listing` of the cached title, the formatted price and the url, with the formatted mileage and the location; WebuycarsListingOrigin and WebuycarsListingSpecs state its fields |
| WebuycarsTracker.WebuycarsListingOrigin | trackers/webuycarsTracker.py:139-146 | a stored listing keeps its cache id, the term it was given, and source "WeBuyCars" |
| WebuycarsTracker.WebuycarsListingSpecs | trackers/webuycarsTracker.py:147-148 | a stored listing's kilometers is the formatted mileage and its location the cached one or "N/A" |
| WebuycarsTracker.PassOfferFrom | trackers/webuycarsTracker.py:124-149 | every pair a pass offers comes from a cached listing that matches the variation |
| WebuycarsTracker.PassOffersMatch | trackers/webuycarsTracker.py:124-149 | every matching cached listing is offered by the pass |
| WebuycarsTracker.CacheOffers | trackers/webuycarsTracker.py:122-149 | definition of the pairs all variations offer, variation after variation; CacheOfferFrom and CacheOffersMatch state which pairs they are |
| WebuycarsTracker.CacheOfferFrom | trackers/webuycarsTracker.py:123-149 | every offered pair comes from a cached listing that matches some variation |
| WebuycarsTracker.CacheOffersMatch | trackers/webuycarsTracker.py:123-149 | a cached listing matching some variation is offered |
| WebuycarsTracker.ScrapeCached | trackers/webuycarsTracker.py:94-156 | the result is a well-formed dictionary: nothing for a blank term or an empty cache, otherwise the first pair offered for each id; ScrapeContents and ScrapeCachedContents state its keys and records |
| WebuycarsTracker.ScrapeContents | trackers/webuycarsTracker.py:120-149 | the output ids are exactly the cached ids matching some variation, each stored with the listing built from its cache record |
| WebuycarsTracker.ScrapeCachedContents | trackers/webuycarsTracker.py:105-149 | for a non-blank term, output keys are the cache keys that match a variation, and each listing stores the stripped original term |
| PriceTracking.CleanPrice | main.py:36-39 | a parsed price comes from a string of digits, 'R', ',' and whitespace containing at least one digit |
| PriceTracking.CleanedFrom | main.py:38 | the cleaned string holds exactly the input's characters other than 'R', ',' and the stripped whitespace |
| PriceTracking.NoLetterInGrouped | main.py:38 | a comma-grouped integer contains neither 'R' nor a space |
| PriceTracking.CleanFormattedPrice | main.py:36-39 | reading back a price formatted as "R " plus grouped digits gives the integer back ("R 65,000" gives 65000) |
| PriceTracking.CleanDecimal | main.py:36-39 | a plain decimal numeral parses to its value |
| PriceTracking.PlaceholdersDoNotParse | main.py:36-39 | "N/A" and "" do not parse |
| PriceTracking.PriceOf | main.py:114-115 | definition of `clean_price(listing.get('price', ''))`, reading a price that is not text as unparsable |
| PriceTracking.Changed | main.py:117 | definition: both prices parse and differ |
| PriceTracking.Dropped | main.py:117-125 | definition: both prices parse and the current one is lower |
| PriceTracking.Flagged | main.py:111-112 | definition of the two flags: `price_dropped`, and `old_price` the previous price on a drop and None otherwise (main.py:132-133) |
| PriceTracking.EntryIf | main.py:117-122 | definition of the history entry: the current price ("N/A" when absent) dated `now`, only for a change |
| PriceTracking.PriceHistory.constructor | main.py:110 | a new history list holds the given entries |
| PriceTracking.PriceHistory.Append | main.py:119-122 | appending adds exactly one entry at the end |
| PriceTracking.FlagsReset | main.py:110-112 | resetting the flags and then setting them gives the same record as setting them once, and keeps the price |
| PriceTracking.CarriedFlags | main.py:108-134 | a carried-over listing has `price_dropped` true iff both prices parse and the new one is lower; `old_price` is then the previous price, else None; no other field changes |
| PriceTracking.AppendedExactly | main.py:114-125 | at most one history entry is added; one is added iff both prices parse and differ; it holds `now` and the current price; a drop always appends, and a rise appends without a drop |
| PriceTracking.BikeTasks | main.py:88-93 | the tasks of one bike are its listings in iteration order, each paired with the previous listing of the same id if any |
| PriceTracking.TaskAt | main.py:88-93 | the task of the j-th listing of the m-th bike sits at the bike's offset plus j |
| PriceTracking.BikeSlots | main.py:88-93 | one bike's listings occupy consecutive tasks starting at that bike's offset |
| PriceTracking.NewOfMembers | main.py:93-96 | the new listings are exactly the current listings with no previous listing of the same id |
| PriceTracking.DropsOfMembers | main.py:125-134 | the drops are exactly the carried-over listings whose parsed price fell |
| PriceTracking.NewOfWitness | main.py:93-96 | every new listing is the listing of a task without a previous listing |
| PriceTracking.NotAmongDrops | main.py:106-107 | a listing without a previous listing is never among the drops |
| PriceTracking.NewNotDropped | main.py:106-107 | no new listing is a price drop |
| PriceTracking.UnlistedIsNew | main.py:88-96 | a listing whose id is missing from the bike's previous listings (or whose bike is missing) is new; otherwise it is paired with the previous listing of that id |
| PriceTracking.CarriedOverView | main.py:108-134 | after the pass, a carried-over listing has the flags of `CarriedFlags` and the previous history extended by at most the one entry |
| PriceTracking.ComparePrices | main.py:114-125 | the comparison reports a change iff both prices parse and differ, and a drop iff the new one is lower |
| PriceTracking.CarryOver | main.py:108-134 | a carried-over listing gets the previous list object (a fresh one when there was none), the reset and then updated flags, and an entry appended iff the price changed |
| PriceTracking.CollectNew | main.py:93-96 | the new-listings loop appends the bike's unlisted listings in order |
| PriceTracking.TreatedKept | main.py:106-134 | updating one listing and its history keeps every earlier listing's finished state |
| PriceTracking.UntouchedKept | main.py:106-134 | updating one listing leaves every later listing and history as it was |
| PriceTracking.PriceStep | main.py:106-134 | one step of the price loop handles the listing and reports a drop exactly for a carried-over listing whose price fell |
| PriceTracking.DropsNext | main.py:132-134 | appending a dropped listing extends the drops to the next position |
| PriceTracking.CollectDrops | main.py:106-134 | the price loop over one bike treats every listing and collects its drops in order |
| PriceTracking.ProcessBike | main.py:88-134 | one bike's two loops extend the new listings and drops by that bike's |
| PriceTracking.ProcessListings | main.py:84-139 | returns exactly the new listings and the drops in iteration order, and leaves every listing updated as the price pass prescribes |
| PriceTracking.HistoriesShared | main.py:110-119 | after the pass, every carried-over listing shares its previous listing's history list, so the appended entry is also seen through `previous` |
| ListingBuilder.CleanListingPrice | utils/listing_builder.py:53 | a falsy price becomes "N/A"; otherwise the result is the stripped price, with no surrounding whitespace |
| ListingBuilder.BuildListing | utils/listing_builder.py:10-73 | the keys are the standard fields plus the extras; extras win; otherwise id, url, search term and source are copied, title and price stripped, and the history holds one entry with the price and `now` |
| ListingBuilder.NewListingHistory | utils/listing_builder.py:53-67 | the single history entry holds the listing's own price and found date |
| ListingBuilder.BlankPriceIsEmpty | utils/listing_builder.py:53 | a whitespace-only price becomes "" |
| ListingBuilder.UnpaddedPriceIsKept | utils/listing_builder.py:53 | a price with no surrounding whitespace is kept as is |
| ValidateSearchTerm.Validate | utils/validate_search_term.py:1-20 | valid iff the term is not blank and, under "Brand Model", has two words; the message is absent iff valid, is "Search term is empty" for a blank term and quotes the term otherwise |
| ValidateSearchTerm.DefaultFormatSkipsWordCount | utils/validate_search_term.py:1-20 | under the default format a one-word term such as "Honda" is valid |
| ValidateSearchTerm.FormatMessage | utils/validate_search_term.py:18 | definition of the format error message; FormatMessageQuotesTerm states that it quotes the term |
| ValidateSearchTerm.FormatMessageQuotesTerm | utils/validate_search_term.py:18 | the format message contains the term in quotes |
| BaseTracker.CreateListing | trackers/baseTracker.py:29-39 | the keys are exactly the seven fields; the arguments are stored unchanged and the found date is `now` |
| BaseTracker.LoadBikeList | trackers/baseTracker.py:42-54 | a missing file gives []; otherwise the loop returns the filtered lines |
| BaseTracker.BikeLines | trackers/baseTracker.py:48-54 | never more bikes than lines; BikeLinesConcat, BikesAreStripped and BikeLinesMembers state which lines are kept |
| BaseTracker.BikeLinesConcat | trackers/baseTracker.py:49-54 | the line filter works line by line, so file order is preserved |
| BaseTracker.BikesAreStripped | trackers/baseTracker.py:50-53 | every entry is stripped, non-empty and does not start with '#' |
| BaseTracker.BikeLinesMembers | trackers/baseTracker.py:50-53 | an entry is kept iff it is a stripped line that is non-empty and not a comment, so indented comments are dropped |
| GumtreeTracker.IsComplete | trackers/gumtreeTracker.py:28-47 | definition: the element has a data-adid, a title, a price and an href |
| GumtreeTracker.GumtreeListing | trackers/gumtreeTracker.py:51-58 | definition of `create_listing` for a complete element; GumtreeListingOf states its fields |
| GumtreeTracker.Offers | trackers/gumtreeTracker.py:27-58 | definition of the (id, listing) pairs of the complete elements, in page order; OfferKeys and OfferFrom state which they are |
| GumtreeTracker.GumtreeListingOf | trackers/gumtreeTracker.py:51-58 | a stored element has the `gt_` id, its title and price, the site URL plus href, the term as given and source "Gumtree" |
| GumtreeTracker.ScrapeGumtree | trackers/gumtreeTracker.py:7-62 | a failed fetch gives {}; otherwise the loop stores every complete element under a new id, first wins |
| GumtreeTracker.SkipStep | trackers/gumtreeTracker.py:28-47 | an element without an ad id, title, price or href is skipped and its id is not marked seen |
| GumtreeTracker.TakeStep | trackers/gumtreeTracker.py:34-58 | a complete element is stored unless its id was stored before |
| GumtreeTracker.OfferKeys | trackers/gumtreeTracker.py:27-49 | the offered ids are exactly the ids of complete elements |
| GumtreeTracker.GumtreeKeys | trackers/gumtreeTracker.py:27-49 | the stored ids are exactly the complete elements' ids, and each is "gt_" plus a non-empty ad id, so there is no relevance filter |
| GumtreeTracker.GumtreeFirstCompleteWins | trackers/gumtreeTracker.py:34-49 | the first complete element for an id is stored, even after incomplete elements with that id |
| GumtreeTracker.SelectedKeepsOld | trackers/gumtreeTracker.py:34-35 | a stored listing is never overwritten |
| GumtreeTracker.NotYetStored | trackers/gumtreeTracker.py:34-49 | an id no earlier complete element had is not yet stored |
| GumtreeTracker.GumtreeListingFields | trackers/gumtreeTracker.py:27-58 | every stored listing is built from a complete element with that id |
| GumtreeTracker.OfferFrom | trackers/gumtreeTracker.py:27-58 | every offered pair comes from a complete element |
| AutotraderTracker.Kilometers | trackers/autotraderTracker.py:102-111 | definition: the last spec tag mentioning "km", with NBSP made a space, or "N/A"; KilometersIsLast states it |
| AutotraderTracker.Condition | trackers/autotraderTracker.py:102-113 | definition: the last spec tag that is "used", "new" or "demo" and does not mention "km", or "N/A"; ConditionIsLast states it |
| AutotraderTracker.ReadSpecs | trackers/autotraderTracker.py:102-113 | the spec loop leaves the last kilometer reading and the last condition |
| AutotraderTracker.KilometersIsLast | trackers/autotraderTracker.py:103-111 | kilometers is "N/A" when no tag mentions "km" in any case, else the last such tag with NBSP made a space |
| AutotraderTracker.ConditionIsLast | trackers/autotraderTracker.py:102-113 | condition is "N/A" when no tag is used/new/demo in any case, else the last such tag |
| AutotraderTracker.HrefSegment | trackers/autotraderTracker.py:126 | definition of `href.split("/")[-1].split("?")[0]`; HrefSegmentShape states its shape |
| AutotraderTracker.HrefSegmentShape | trackers/autotraderTracker.py:126 | the id segment is the text after the href's last "/", cut at its first "?" |
| AutotraderTracker.AutotraderListingKeys | trackers/autotraderTracker.py:138-149 | a stored listing has the standard fields plus kilometers, condition and location |
| AutotraderTracker.SpecsKeepField | trackers/autotraderTracker.py:147-149 | setting the three extra fields keeps every other field |
| AutotraderTracker.AutotraderListingLink | trackers/autotraderTracker.py:126-142 | the id is "autotrader_" plus the href segment, and the url is the site plus the href |
| AutotraderTracker.AutotraderListingOrigin | trackers/autotraderTracker.py:138-145 | a stored listing has the original search term and source "AutoTrader" |
| AutotraderTracker.AutotraderListingSpecs | trackers/autotraderTracker.py:102-149 | a stored listing's kilometers and condition come from the spec tags, and its location is the suburb or "N/A" |
| AutotraderTracker.ElementRecordSpecs | trackers/autotraderTracker.py:147-149 | the record holds the three values set after `build_listing` |
| AutotraderTracker.Keeps | trackers/autotraderTracker.py:79-123 | definition of the element checks in loop order: a title that is not "undefined", relevance to the original term, a price and an href |
| AutotraderTracker.ElementRecord | trackers/autotraderTracker.py:136-149 | definition of `build_listing` for the element texts with the site address before the href, then `kilometers`, `condition` and `location`; ElementRecordSpecs and AutotraderListingKeys state its fields |
| AutotraderTracker.SkipElement | trackers/autotraderTracker.py:81-123 | an element failing a check (title, relevance to the original term, price, href) changes nothing |
| AutotraderTracker.TakeElement | trackers/autotraderTracker.py:125-149 | an element passing every check is stored unless its id was seen |
| AutotraderTracker.ProcessElement | trackers/autotraderTracker.py:76-149 | the loop body stores a kept element under a new id, skips the rest, and keeps `seen_ids` equal to the stored keys |
| AutotraderTracker.StoreElement | trackers/autotraderTracker.py:100-149 | a kept element is read and stored under its id when new |
| AutotraderTracker.ElementRecordOf | trackers/autotraderTracker.py:100-149 | the record built from the spec loop's values is the element's listing |
| AutotraderTracker.CollectPage | trackers/autotraderTracker.py:75-158 | the element loop inserts the page's kept elements, first id wins |
| AutotraderTracker.VariationStep | trackers/autotraderTracker.py:51-158 | one more variation inserts the kept elements of its page |
| AutotraderTracker.SelectedAll | trackers/autotraderTracker.py:51-158 | after all variations, the result is the first-wins insertion of all offers in variation order |
| AutotraderTracker.CollectVariation | trackers/autotraderTracker.py:51-158 | one variation fetches its URL (base, lower-cased brand, percent-encoded model) and inserts the kept elements; a failed fetch adds nothing |
| AutotraderTracker.ScrapeAutotrader | trackers/autotraderTracker.py:20-164 | the method computes the scrape: {} for a blank or one-word term, the `IndexError` for a variation without a model, and otherwise the listings |
| AutotraderTracker.LoopVariations | trackers/autotraderTracker.py:51-158 | the variation loop fails exactly when a variation lacks a model, and otherwise stores every kept element, first id wins |
| AutotraderTracker.Scrape | trackers/autotraderTracker.py:31-51 | definition of the result: nothing for a blank or one-word term, otherwise the variation loop; ScrapeNeedsTwoWords and ScrapeRuns state its cases |
| AutotraderTracker.RunVariations | trackers/autotraderTracker.py:51-158 | definition of the variation loop's result: `IndexError` when a variation has no model, otherwise the first offered listing for each id; RunListingsKept and RunFirstOfferWins state its contents |
| AutotraderTracker.ScrapeNeedsTwoWords | trackers/autotraderTracker.py:31-40 | a blank or one-word term gives {} before any fetch |
| AutotraderTracker.HyphenOnlyTermFails | trackers/autotraderTracker.py:51-53 | a term whose model is only hyphens raises `IndexError` |
| AutotraderTracker.HyphenVariations | utils/search_variation_generator.py:22-55 | a hyphen-only model keeps both the term and `"<brand> "` after dedup |
| AutotraderTracker.KeepsBothSpellings | utils/search_variation_generator.py:49-55 | strings of different lengths both survive dedup |
| AutotraderTracker.ModelOf | trackers/autotraderTracker.py:52-53 | definition of `variation.split(maxsplit=1)[1]`, "" where the code raises `IndexError`, which RunVariations models |
| AutotraderTracker.VariationUrl | trackers/autotraderTracker.py:54-55 | definition of the search URL: the base URL, the brand and the percent-encoded model |
| AutotraderTracker.BareBrandHasNoModel | trackers/autotraderTracker.py:52-53 | `"<brand> "` has no second part after `split(maxsplit=1)` |
| AutotraderTracker.TwoWordTerm | trackers/autotraderTracker.py:32-38 | a term of two words passes the input checks |
| AutotraderTracker.PageOfferFrom | trackers/autotraderTracker.py:81-138 | every pair a page offers comes from a kept element with that id |
| AutotraderTracker.VariationOfferFrom | trackers/autotraderTracker.py:51-138 | every offered pair comes from a kept element of some variation's page |
| AutotraderTracker.RunListingsKept | trackers/autotraderTracker.py:51-149 | every stored listing is built from a kept element of some variation's page, relevant to the original term |
| AutotraderTracker.ScrapeRuns | trackers/autotraderTracker.py:31-51 | any result beyond {} comes from running all variations of a non-blank two-part term |
| AutotraderTracker.RunFirstOfferWins | trackers/autotraderTracker.py:129-138 | the first element offering an id is the one stored, never overwritten |
| PercentEncoding.PercentEncode | trackers/autotraderTracker.py:54 | definition of `quote(model, safe="")`: unreserved characters kept, every other character as the `%XY` octets of its UTF-8 form; EncodedAlphabet and DecodeEncodeAscii state its output and inverse |
| PercentEncoding.HexRoundTrip | trackers/autotraderTracker.py:54 | decoding a hex digit gives its value back |
| PercentEncoding.Utf8 | trackers/autotraderTracker.py:54 | a character's UTF-8 form has one to four octets, and exactly one (the character itself) for ASCII |
| PercentEncoding.EncodedAlphabet | trackers/autotraderTracker.py:54 | the encoded model contains only unreserved characters and '%' |
| PercentEncoding.DecodeEncodeAscii | trackers/autotraderTracker.py:54 | percent-decoding the encoding of an ASCII string gives it back |
| CacheWebuycars.ResponseHandler.constructor | cache_webuycars.py:27-43 | the handler starts with no listings and no responses counted |
| CacheWebuycars.ResponseHandler.StartPage | cache_webuycars.py:123-125 | a new page clears the page listings and the response count, and keeps all listings |
| CacheWebuycars.ResponseHandler.HandleResponse | cache_webuycars.py:45-111 | a response counts iff its URL holds the API keyword, and stores its items in both dictionaries, later items overwriting earlier ones |
| CacheWebuycars.ResponseHandler.HandleItems | cache_webuycars.py:72-111 | the item loop stores every item with a stock number in both dictionaries |
| CacheWebuycars.ResponseHandler.Store | cache_webuycars.py:106-107 | one record is set under its id in both dictionaries |
| CacheWebuycars.ResponseHandler.HandlePage | cache_webuycars.py:45-111 | all the responses of a page store their items in order |
| CacheWebuycars.ResponseItems | cache_webuycars.py:49-68 | definition: no items unless the URL holds the API keyword, the status is 200 and the body is JSON; NothingStored states that such a response stores nothing |
| CacheWebuycars.NothingStored | cache_webuycars.py:49-68 | a non-API URL, a status other than 200, unparsable JSON or empty data adds nothing |
| CacheWebuycars.StoreStep | cache_webuycars.py:72-107 | one item either sets its record or, without a stock number, changes nothing |
| CacheWebuycars.PageOffersStep | cache_webuycars.py:45-111 | one more response adds its items after the earlier ones |
| CacheWebuycars.OffersByPageAt | cache_webuycars.py:119-140 | page p's contribution is what its intercepted responses store |
| CacheWebuycars.FetchPage | cache_webuycars.py:123-150 | loading one page adds its responses' records; the page counts as empty iff it stored nothing |
| CacheWebuycars.FetchPages | cache_webuycars.py:117-152 | the page loop stops where the stop rule says and has stored every page's records up to there |
| CacheWebuycars.FetchAllListings | cache_webuycars.py:19-162 | the result is every record stored by the pages before the stop |
| CacheWebuycars.NoPageListings | cache_webuycars.py:140 | a page's listings are empty iff it stored no pair, so a page of repeated ids still counts as non-empty |
| CacheWebuycars.ItemRecord | cache_webuycars.py:74-104 | definition of the cache record of an item; ItemRecordFields and ItemRecordUrl state its fields |
| CacheWebuycars.ItemOffer | cache_webuycars.py:74-107 | definition: nothing for an item without a stock number, otherwise the prefixed id and the item record; ItemOfferOf states it |
| CacheWebuycars.ItemOfferOf | cache_webuycars.py:76-91 | an item is skipped iff its stock number is missing or "N/A"; otherwise its id is "webuycars_" plus the stock number |
| CacheWebuycars.ItemRecordFields | cache_webuycars.py:74-104 | the record has exactly the nine fields; price is Price, else BuyNowPrice, else "N/A"; make and model default to "Unknown" |
| CacheWebuycars.ItemRecordUrl | cache_webuycars.py:88-101 | the url is the buy-a-car path of make, model and stock number; source is "WeBuyCars" |
| CacheWebuycars.ItemOffersLastWins | cache_webuycars.py:106-107 | the last item with an id is the one stored |
| CacheWebuycars.ItemOffersStored | cache_webuycars.py:72-107 | every stored pair has the "webuycars_" id of its record's stock number |
| CacheWebuycars.StopPage | cache_webuycars.py:117-152 | the page the loop stops at never passes the last page; StopPageRule states that it is the second consecutive page storing nothing, or the last page |
| CacheWebuycars.StopPageRule | cache_webuycars.py:117-152 | the loop stops at the limit or right after two consecutive pages that stored nothing, and never earlier |
| CacheWebuycars.FetchAllPages | cache_webuycars.py:117-152 | starting from page 1, at most 100 pages are loaded and the stop is at the limit or after the first two consecutive empty pages |
| CacheWebuycars.FetchedRecords | cache_webuycars.py:19-162 | the fetched dictionary is a valid cache for the WeBuyCars search, each record under its own id |
| CacheWebuycars.Refresh | cache_webuycars.py:206-213 | an empty fetch saves nothing and returns False; otherwise the cache is saved and the result is whether saving succeeded |
| TuneMatchRatio.VerdictOf | tune_match_ratio.py:77-89 | definition of a case's verdict: matched or not at the threshold, against whether it should match |
| TuneMatchRatio.Count | tune_match_ratio.py:97-99 | definition of the number of cases with one verdict, the `sum(1 for ...)` counts; CountsPartition and FilterCount state its properties |
| TuneMatchRatio.Filter | tune_match_ratio.py:86-89 | definition of the cases with one verdict in order, the `false_positives` and `false_negatives` lists; FilterCount states what they hold |
| TuneMatchRatio.CountStep | tune_match_ratio.py:75-89 | one more case raises exactly the count of its own verdict |
| TuneMatchRatio.FilterCount | tune_match_ratio.py:86-89 | the cases of a verdict are listed exactly once each, and the list's length is their count |
| TuneMatchRatio.CountsPartition | tune_match_ratio.py:79-89 | every case has exactly one verdict, so the four counts sum to the number of cases |
| TuneMatchRatio.MatchesShrink | tune_match_ratio.py:97-98 | raising the threshold never adds a true or a false positive |
| TuneMatchRatio.Share | tune_match_ratio.py:101-102 | precision and recall lie in [0, 1], are 0 exactly without hits (including the empty denominator), and 1 exactly without misses |
| TuneMatchRatio.F1Between | tune_match_ratio.py:103 | F1 lies between the smaller and the larger of precision and recall |
| TuneMatchRatio.F1OfCounts | tune_match_ratio.py:97-103 | F1 is 0 without true positives and otherwise 2tp/(2tp+fp+fn) |
| TuneMatchRatio.Percent | tune_match_ratio.py:95 | a percentage of a part lies in [0, 100] |
| TuneMatchRatio.Evaluate | tune_match_ratio.py:95-103 | definition of the report for one threshold; EvaluateMeaning states its accuracy and ranges |
| TuneMatchRatio.EvaluateMeaning | tune_match_ratio.py:95-130 | false positives and false negatives are at most the cases; accuracy is 100 times the correct share and lies in [0, 100]; F1 lies in [0, 1] |
| TuneMatchRatio.TestThreshold | tune_match_ratio.py:63-130 | the loop computes the report: counters, the two lists, accuracy, precision, recall and F1 |
| TuneMatchRatio.FirstBest | tune_match_ratio.py:148 | the chosen result has the highest F1, and every earlier result has a strictly lower one |
| TuneMatchRatio.FindBestThreshold | tune_match_ratio.py:133-170 | returns the first tested threshold whose report has maximal F1 |
| TuneScoring.ScoredVerdicts | tune_match_ratio.py:75-77 | on cases scored by `fuzzy_match_score`, a case would match at a threshold exactly when `is_relevant_match` accepts it there, and every score lies in [0, 1] |
| TuneScoring.NothingMatchesAboveOne | tune_match_ratio.py:75-89 | at a threshold above 1.0 no scored case matches: no true and no false positives |
| Dicts.InsertAllFirstWins | trackers/gumtreeTracker.py:34-49 | under "skip seen ids", the first candidate for a key is the one stored |
| Dicts.SetAllLastWins | cache_webuycars.py:106-107 | under plain assignment, the last pair for a key is the one stored |
| Dicts.AddNew | trackers/webuycarsTracker.py:137-140 | adding an unseen id stores it and adds it to the seen set |
| Text.GroupedDigits | trackers/webuycarsTracker.py:76 | `{:,}` grouping only inserts commas into the decimal digits |
| Text.SplitJoin | utils/search_variation_generator.py:19 | splitting a space-joined list of tokens gives the tokens back |
| Text.StripEmptyIffBlank | trackers/webuycarsTracker.py:101 | `strip()` gives "" iff the string is all whitespace |
| Records.TextOf | utils/listing_builder.py:53-58 | a value usable with `strip()` after the truthiness test is a string or falsy, and a falsy one reads as "" |

## Left out

- Network and browser I/O is outside the model: `fetch_page`, BeautifulSoup selectors, Playwright's launch, navigation, wait loop and sleeps, and `time.sleep`. Pages, elements and intercepted responses are inputs. A response's JSON body is given as its parsed `data` items or as "not JSON".
- File and JSON persistence is outside the model: `load_cache`/`save_cache` and `load_previous_listings`/`save_listings`. The bike file's lines, the cache and the previous listings are inputs, and whether saving succeeds is a parameter of `CacheWebuycars.Refresh`.
- Printing and logging are left out. That includes the `print` calls in `process_listings` that read `listing['source']` and `listing['title']`: they could raise `KeyError` on a listing without those keys. `new_for_bike` is used only by these prints.
- The clocks (`datetime.now()` in three formats) are the parameter `now`. `PriceTracking.ProcessListings` takes one `now` for the whole pass; the source reads the clock once per appended history entry.
- `difflib.SequenceMatcher(...).ratio()` is the `seqRatio` field of `Scorer`, which is trusted to lie in [0, 1]. `list(set)[0]` is its `brandOf` field, trusted to pick a member of the token set when the set is non-empty.
- Python's Unicode behaviour of `\w`, `\s`, `isdigit`, `lower` and `upper` is narrowed to ASCII. `quote` is modelled for the unreserved set and UTF-8. `quote_plus` for the Gumtree URL is left out, since only the listings are modelled and the URL is an input of the fetch.
- Floating point is modelled as exact reals. `{:,.0f}` of a float and the rounding of huge integers are left out: WebuycarsTracker.FormatPrice and FormatKilometers take JSON scalars without floats, so a cache value that is a float, list or object is not modelled.
- CacheWebuycars.IsItem: an API item is modelled as a flat JSON object whose every field is a scalar (null, boolean, integer or string), not only the eight fields `handle_response` reads. An item with a float, array or object in any field is outside the model. The code copies such a value into the cache unchanged when it sits in a field it reads, and ignores it otherwise.
- Concurrency is left out: the thread pool and `asyncio.gather` of `main.py`, and the merging of the three scrapers' results into `current`.
- `main()`, `clean_stale_listings` (defined in no file of the repository), both HTML generators, the Excel generator, `tracker.py`, `scraper.py`, `test_price_tracking.py`, the logger, and `config.py`'s directory creation are not part of this model. The configuration contributes only its three thresholds.
- `scrape_webuycars` is only a call of `scrape_webuycars_cached`, so it has no member of its own.
- The AutoTrader element handlers (`except AttributeError`/`Exception`, trackers/autotraderTracker.py:151-158) are left out, because the modelled element records cannot raise inside that `try`; the Gumtree loop has no handler. The WeBuyCars handler (trackers/webuycarsTracker.py:151-153) is modelled: a cached listing whose title is truthy but not text makes `normalize_text` raise, and `WebuycarsTracker.Matches` skips that listing as the `continue` does. The `IndexError` of the AutoTrader variation loop is modelled, because it escapes every handler.
- TuneMatchRatio.TestThreshold and TuneMatchRatio.Evaluate require a non-empty case list, and TuneMatchRatio.FindBestThreshold a non-empty threshold list. On empty input Python raises `ZeroDivisionError` or `ValueError` instead. The cases carry their fuzzy scores; `TuneScoring.Scored` states that each is `fuzzy_match_score` of its own strings, as `test_threshold` computes it. The thresholds of `np.arange(0.35, 0.60, 0.005)` are an input.
- PriceTracking.ProcessListings: the current dictionaries are required to list an entry for each key in their order (`Dicts.Present`) without the separate claim that the order has no repeats, which no step relies on. It is also required that the current and previous listing objects and history lists are distinct objects, except that histories are shared as the loaded data shares them (`Separate`). Aliasing between two current listings is not modelled.
- PriceTracking.CleanPrice: a price that is not text (`old_listing.get('price', '')` returning a number or None, which would make `replace` raise) is read as unparsable.
- The model follows the code where a plain description of the behaviour differs. AutoTrader's word test is substring containment. Rule 1 can produce `"<brand> "`, which makes the AutoTrader scraper raise `IndexError`.
