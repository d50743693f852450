/** The run-to-run tracking of `main.py`: reading a displayed price back as a number, and the
    pass over one run's listings that finds the new ones and the price changes since the
    previous run. */
module PriceTracking {
  import opened Text
  import opened Basics
  import opened Records
  import opened Dicts
  import WebuycarsTracker

  // ---------------------------------------------------------------- clean_price

  /** The characters a price text that `clean_price` accepts is made of. */
  predicate IsPriceChar(c: char) {
    IsDigit(c) || c == 'R' || c == ',' || IsSpace(c)
  }

  /** `clean_price(price_str)`: drop every "R" and ",", strip, and read what is left as a number
      when it is a non-empty run of digits. */
  function CleanPrice(priceStr: string): (r: Option<nat>)
    ensures r.Some? ==> forall i :: 0 <= i < |priceStr| ==> IsPriceChar(priceStr[i])
    ensures r.Some? ==> exists c :: c in priceStr && IsDigit(c)
  {
    var noR := RemoveChar(priceStr, 'R');
    var cleaned := Strip(RemoveChar(noR, ','));
    if IsDigits(cleaned) then
      CleanedFrom(priceStr);
      assert cleaned[0] in cleaned;
      Some(ParseDigits(cleaned))
    else
      None
  }

  /** Every character of the cleaned text comes from the input, and every input character that
      is neither "R", "," nor whitespace is still in the cleaned text. */
  lemma CleanedFrom(priceStr: string)
    ensures var cleaned := Strip(RemoveChar(RemoveChar(priceStr, 'R'), ','));
            && (forall c :: c in cleaned ==> c in priceStr)
            && (forall i :: 0 <= i < |priceStr| ==> priceStr[i] in cleaned || priceStr[i] == 'R'
                                                     || priceStr[i] == ',' || IsSpace(priceStr[i]))
  {
    var noR := RemoveChar(priceStr, 'R');
    var noComma := RemoveChar(noR, ',');
    RemoveCharMembers(priceStr, 'R');
    RemoveCharMembers(noR, ',');
    StripMembers(noComma);
    StripFrom(noComma);
  }

  /** `{:,}` writes only digits and commas. */
  lemma NoLetterInGrouped(n: nat)
    ensures 'R' !in Grouped(n) && ' ' !in Grouped(n)
  {
    GroupedDigits(n);
    RemoveCharMembers(Grouped(n), ',');
  }

  /** A price shown the way the WeBuyCars tracker shows a whole number, "R " and the digits in
      groups of three, reads back as that number. */
  lemma {:induction false} CleanFormattedPrice(n: nat)
    ensures WebuycarsTracker.FormatPrice(Int(n)) == Str("R " + Grouped(n))
    ensures CleanPrice("R " + Grouped(n)) == Some(n)
  {
    var g := Grouped(n);
    NoLetterInGrouped(n);
    RemoveCharConcat("R ", g, 'R');
    RemoveCharAbsent(g, 'R');
    assert RemoveChar("R ", 'R') == " ";
    RemoveCharConcat(" ", g, ',');
    assert RemoveChar(" ", ',') == " ";
    var d := RemoveChar(g, ',');
    GroupedDigits(n);
    assert RemoveChar(RemoveChar("R " + g, 'R'), ',') == " " + d;
    assert LStrip(" " + d) == LStrip(d) by {
      assert (" " + d)[1..] == d;
    }
    assert !IsSpace(d[0]) && !IsSpace(d[|d| - 1]);
    StripUnpadded(d);
  }

  /** A plain run of digits reads back as its number. */
  lemma CleanDecimal(n: nat)
    ensures CleanPrice(Decimal(n)) == Some(n)
  {
    var d := Decimal(n);
    RemoveCharAbsent(d, 'R');
    RemoveCharAbsent(d, ',');
    StripUnpadded(d);
    ParseDecimal(n);
  }

  /** "N/A", the placeholder price, and a missing price ("") never parse. */
  lemma PlaceholdersDoNotParse()
    ensures CleanPrice("N/A") == None
    ensures CleanPrice("") == None
  {
    assert !IsPriceChar('N');
  }

  // ---------------------------------------------------------------- listings of a run

  /** The list object under a listing's `price_history` key. */
  class PriceHistory {
    var entries: seq<PriceEntry>

    constructor (entries: seq<PriceEntry>)
      ensures this.entries == entries
    {
      this.entries := entries;
    }

    /** `list.append(entry)` */
    method Append(entry: PriceEntry)
      modifies this
      ensures entries == old(entries) + [entry]
    {
      entries := entries + [entry];
    }
  }

  /** A listing dictionary. Its `price_history` list is an object that two listings can come to
      share, so it is held apart from the other entries, as a reference that is null when the
      key is absent. */
  class Listing {
    var fields: Record
    var history: PriceHistory?
  }

  function Entries(h: PriceHistory?): seq<PriceEntry>
    reads h
  {
    if h == null then [] else h.entries
  }

  /** `clean_price(listing.get('price', ''))`. A price that is not text, on which `clean_price`
      would raise, counts as one that does not parse. */
  function PriceOf(f: Record): Option<nat> {
    if "price" !in f then CleanPrice("")
    else if f["price"].Str? then CleanPrice(f["price"].s)
    else None
  }

  /** Both prices parse and differ: the case that adds a history entry. */
  predicate Changed(cur: Record, prior: Record) {
    PriceOf(prior).Some? && PriceOf(cur).Some? && PriceOf(prior) != PriceOf(cur)
  }

  /** The price parses lower than it did in the previous run. */
  predicate Dropped(cur: Record, prior: Record) {
    Changed(cur, prior) && PriceOf(cur).value < PriceOf(prior).value
  }

  /** The two flags the price loop sets: `price_dropped` and, on a drop, `old_price` the
      previous price, None otherwise. */
  function Flagged(f: Record, prior: Record, dropped: bool): Record {
    f["price_dropped" := Bool(dropped)]["old_price" := if dropped then Records.Get(prior, "price", Null) else Null]
  }

  /** The history entry for a changed price: the current price (or "N/A"), dated `now`. */
  function EntryIf(f: Record, changed: bool, now: string): seq<PriceEntry> {
    if changed then [PriceEntry(now, Records.Get(f, "price", Str("N/A")))] else []
  }

  /** The history entries the comparison adds. */
  function Appended(cur: Record, prior: Record, now: string): seq<PriceEntry> {
    EntryIf(cur, Changed(cur, prior), now)
  }

  /** The entries of a carried-over listing once compared. */
  function Carried(cur: Record, prior: Record): Record {
    Flagged(cur, prior, Dropped(cur, prior))
  }

  /** Resetting the flags first changes neither the price nor the flags set afterwards. */
  lemma FlagsReset(f: Record, prior: Record)
    ensures Flagged(Flagged(f, prior, false), prior, true) == Flagged(f, prior, true)
    ensures Records.Get(Flagged(f, prior, false), "price", Str("N/A")) == Records.Get(f, "price", Str("N/A"))
    ensures PriceOf(Flagged(f, prior, false)) == PriceOf(f)
  {
  }

  /** The carried-over listing keeps every entry except the two flags, which it always holds:
      `price_dropped` is True and `old_price` the previous price exactly when the price fell,
      and otherwise they are False and None. */
  lemma CarriedFlags(cur: Record, prior: Record)
    ensures var r := Carried(cur, prior);
            var fell := PriceOf(prior).Some? && PriceOf(cur).Some? && PriceOf(cur).value < PriceOf(prior).value;
            && "price_dropped" in r && "old_price" in r
            && (r["price_dropped"] == Bool(true) <==> fell)
            && (r["price_dropped"] == Bool(false) <==> !fell)
            && r["old_price"] == (if fell then Records.Get(prior, "price", Null) else Null)
            && r.Keys == cur.Keys + {"price_dropped", "old_price"}
            && (forall k :: k in cur && k != "price_dropped" && k != "old_price" ==> r[k] == cur[k])
  {
  }

  /** An entry is added exactly when both prices parse and differ, and it holds the current
      price; a rise adds the entry without marking a drop. */
  lemma AppendedExactly(cur: Record, prior: Record, now: string)
    ensures |Appended(cur, prior, now)| <= 1
    ensures |Appended(cur, prior, now)| == 1 <==>
              PriceOf(prior).Some? && PriceOf(cur).Some? && PriceOf(prior).value != PriceOf(cur).value
    ensures |Appended(cur, prior, now)| == 1 ==>
              Appended(cur, prior, now)[0].date == now && "price" in cur && Appended(cur, prior, now)[0].price == cur["price"]
    ensures Dropped(cur, prior) ==> |Appended(cur, prior, now)| == 1
    ensures PriceOf(prior).Some? && PriceOf(cur).Some? && PriceOf(cur).value > PriceOf(prior).value ==>
              |Appended(cur, prior, now)| == 1 && !Dropped(cur, prior)
  {
  }

  // ---------------------------------------------------------------- the pass over a run

  /** One listing of the price pass: a current listing and, when its id was listed for the same
      bike in the previous run, that earlier listing. */
  datatype Task = Task(cur: Listing, prior: Option<Listing>)

  /** `previous.get(bike, {})` */
  function PreviousFor(previous: map<string, map<string, Listing>>, bike: string): map<string, Listing> {
    if bike in previous then previous[bike] else map[]
  }

  function TaskOf(bl: Dict<string, Listing>, prevs: map<string, Listing>, id: string): Task
    requires id in bl.entries
  {
    Task(bl.entries[id], if id in prevs then Some(prevs[id]) else None)
  }

  /** The tasks of a bike's first `n` listings, in iteration order. */
  function BikeTasks(bl: Dict<string, Listing>, prevs: map<string, Listing>, n: nat): (ts: seq<Task>)
    requires Present(bl) && n <= |bl.keys|
    ensures |ts| == n
    ensures forall j :: 0 <= j < n ==> ts[j] == TaskOf(bl, prevs, bl.keys[j])
  {
    if n == 0 then [] else BikeTasks(bl, prevs, n - 1) + [TaskOf(bl, prevs, bl.keys[n - 1])]
  }

  /** `current` maps each bike to its listings by id, both in iteration order. */
  predicate Nested(current: Dict<string, Dict<string, Listing>>) {
    Present(current) && forall b {:trigger Present(current.entries[b])} :: b in current.entries ==> Present(current.entries[b])
  }

  function BikeAt(current: Dict<string, Dict<string, Listing>>, previous: map<string, map<string, Listing>>, m: nat)
    : seq<Task>
    requires Nested(current) && m < |current.keys|
  {
    var bike := current.keys[m];
    BikeTasks(current.entries[bike], PreviousFor(previous, bike), |current.entries[bike].keys|)
  }

  /** The tasks of the bikes from the `m`-th on, bike by bike. */
  function TasksFrom(current: Dict<string, Dict<string, Listing>>, previous: map<string, map<string, Listing>>, m: nat)
    : seq<Task>
    requires Nested(current) && m <= |current.keys|
    decreases |current.keys| - m
  {
    if m == |current.keys| then [] else BikeAt(current, previous, m) + TasksFrom(current, previous, m + 1)
  }

  /** Every listing of the run, in the order of the two nested loops. */
  function Tasks(current: Dict<string, Dict<string, Listing>>, previous: map<string, map<string, Listing>>): seq<Task>
    requires Nested(current)
  {
    TasksFrom(current, previous, 0)
  }

  /** The number of listings of the bikes before the `m`-th: where the tasks of bike `m` start. */
  function Start(current: Dict<string, Dict<string, Listing>>, m: nat): nat
    requires Nested(current) && m <= |current.keys|
  {
    if m == 0 then 0 else Start(current, m - 1) + |current.entries[current.keys[m - 1]].keys|
  }

  lemma {:induction false} StartMonotone(current: Dict<string, Dict<string, Listing>>, m: nat, m': nat)
    requires Nested(current) && m <= m' <= |current.keys|
    ensures Start(current, m) <= Start(current, m')
    decreases m' - m
  {
    if m < m' {
      StartMonotone(current, m, m' - 1);
    }
  }

  lemma {:induction false} TasksFromLength(current: Dict<string, Dict<string, Listing>>,
                                           previous: map<string, map<string, Listing>>, m: nat)
    requires Nested(current) && m <= |current.keys|
    ensures Start(current, m) + |TasksFrom(current, previous, m)| == Start(current, |current.keys|)
    decreases |current.keys| - m
  {
    if m < |current.keys| {
      TasksFromLength(current, previous, m + 1);
    }
  }

  lemma {:induction false} TasksFromAt(current: Dict<string, Dict<string, Listing>>,
                                       previous: map<string, map<string, Listing>>, m0: nat, m: nat, j: nat)
    requires Nested(current) && m0 <= m < |current.keys| && j < |current.entries[current.keys[m]].keys|
    ensures Start(current, m0) <= Start(current, m)
    ensures Start(current, m) - Start(current, m0) + j < |TasksFrom(current, previous, m0)|
    ensures TasksFrom(current, previous, m0)[Start(current, m) - Start(current, m0) + j] == BikeAt(current, previous, m)[j]
    decreases m - m0
  {
    StartMonotone(current, m0, m);
    if m0 < m {
      TasksFromAt(current, previous, m0 + 1, m, j);
    }
  }

  /** The tasks of the listings of `bl`, whose earlier listings are `prevs`, sit in `ts` from
      `k` on. */
  predicate Slots(ts: seq<Task>, bl: Dict<string, Listing>, prevs: map<string, Listing>, k: nat) {
    && Present(bl) && k + |bl.keys| <= |ts|
    && forall j :: 0 <= j < |bl.keys| ==> ts[k + j] == TaskOf(bl, prevs, bl.keys[j])
  }

  /** The `j`-th task of bike `m` is the `Start(current, m) + j`-th of the run. */
  lemma TaskAt(current: Dict<string, Dict<string, Listing>>, previous: map<string, map<string, Listing>>,
               m: nat, j: nat)
    requires Nested(current) && m < |current.keys| && j < |current.entries[current.keys[m]].keys|
    ensures Present(current.entries[current.keys[m]]) && Start(current, m) + j < |Tasks(current, previous)|
    ensures Tasks(current, previous)[Start(current, m) + j]
              == TaskOf(current.entries[current.keys[m]], PreviousFor(previous, current.keys[m]),
                        current.entries[current.keys[m]].keys[j])
  {
    TasksFromAt(current, previous, 0, m, j);
  }

  /** The tasks of bike `m` sit in `Tasks(current, previous)` from `Start(current, m)` on. */
  lemma BikeSlots(current: Dict<string, Dict<string, Listing>>, previous: map<string, map<string, Listing>>, m: nat)
    requires Nested(current) && m < |current.keys|
    ensures Slots(Tasks(current, previous), current.entries[current.keys[m]],
                  PreviousFor(previous, current.keys[m]), Start(current, m))
  {
    var bl := current.entries[current.keys[m]];
    if |bl.keys| == 0 {
      TasksFromLength(current, previous, 0);
      StartMonotone(current, m, |current.keys|);
    } else {
      TaskAt(current, previous, m, |bl.keys| - 1);
    }
    forall j | 0 <= j < |bl.keys|
      ensures Tasks(current, previous)[Start(current, m) + j]
                == TaskOf(bl, PreviousFor(previous, current.keys[m]), bl.keys[j])
    {
      TaskAt(current, previous, m, j);
    }
  }

  /** `all_new_listings` after the first `n` tasks: the current listings without an earlier
      listing, in order. */
  function NewOf(ts: seq<Task>, n: nat): seq<Listing>
    requires n <= |ts|
  {
    if n == 0 then [] else NewOf(ts, n - 1) + (if ts[n - 1].prior.None? then [ts[n - 1].cur] else [])
  }

  /** What the pass sees of one listing: its entries, its `price_history` list object and the
      items of that list. */
  datatype View = View(fields: Record, history: PriceHistory?, entries: seq<PriceEntry>)

  function ViewOf(l: Listing): View
    reads l, l.history
  {
    View(l.fields, l.history, Entries(l.history))
  }

  /** What the pass reads of a task before it runs: the current listing and the earlier one
      (an empty view when there is none), and the verdicts of comparing their prices. */
  datatype Snap = Snap(cur: View, prior: View, changed: bool, dropped: bool)

  /** `s` shows the listings of `t` as they are now. */
  predicate Seen(t: Task, s: Snap)
    reads t.cur, t.cur.history, if t.prior.Some? then {t.prior.value, t.prior.value.history} else {}
  {
    && s.cur == ViewOf(t.cur)
    && s.prior == if t.prior.Some? then ViewOf(t.prior.value) else View(map[], null, [])
  }

  /** The verdicts of `s` are those of its two prices. */
  predicate Judged(s: Snap) {
    s.changed == Changed(s.cur.fields, s.prior.fields) && s.dropped == Dropped(s.cur.fields, s.prior.fields)
  }

  function Curs(ts: seq<Task>): set<Listing> {
    set t | t in ts :: t.cur
  }

  /** The list objects of the previous run's listings. */
  function Shared(before: seq<Snap>): set<PriceHistory> {
    set i | 0 <= i < |before| && before[i].prior.history != null :: before[i].prior.history
  }

  /** `all_price_drops` after the first `n` tasks: the carried-over listings whose price fell,
      in order. */
  function DropsOf(ts: seq<Task>, before: seq<Snap>, n: nat): seq<Listing>
    requires n <= |ts| <= |before|
  {
    if n == 0 then []
    else DropsOf(ts, before, n - 1) + (if ts[n - 1].prior.Some? && before[n - 1].dropped then [ts[n - 1].cur] else [])
  }

  /** No two tasks share their current listing. */
  predicate Distinct(ts: seq<Task>) {
    forall i, j :: 0 <= i < j < |ts| ==> ts[i].cur != ts[j].cur
  }

  /** The listings of the run are distinct objects, none of them a listing of the previous run,
      the previous run's lists are distinct objects, and no current listing holds one of them:
      the situation of a run compared with the file the previous run saved. */
  predicate Separate(ts: seq<Task>, before: seq<Snap>) {
    && |before| == |ts|
    && Distinct(ts)
    && (forall i, j :: 0 <= i < |ts| && 0 <= j < |ts| && ts[j].prior.Some? ==> ts[i].cur != ts[j].prior.value)
    && (forall i, j :: 0 <= i < j < |ts| && before[i].prior.history != null ==> before[i].prior.history != before[j].prior.history)
    && (forall i :: 0 <= i < |ts| ==> before[i].cur.history !in Shared(before))
  }

  /** `all_new_listings` holds exactly the current listings of the tasks without an earlier
      listing, and never more of them than there are tasks. */
  lemma {:induction false} NewOfMembers(ts: seq<Task>, n: nat)
    requires n <= |ts|
    ensures |NewOf(ts, n)| <= n
    ensures forall l :: l in NewOf(ts, n) <==> exists i :: 0 <= i < n && ts[i].prior.None? && ts[i].cur == l
  {
    if n > 0 {
      NewOfMembers(ts, n - 1);
    }
  }

  /** `all_price_drops` holds exactly the current listings of the carried-over tasks whose price
      fell. */
  lemma {:induction false} DropsOfMembers(ts: seq<Task>, before: seq<Snap>, n: nat)
    requires n <= |ts| <= |before|
    requires Compared(before)
    ensures |DropsOf(ts, before, n)| <= n
    ensures forall l :: l in DropsOf(ts, before, n) <==>
              exists i :: 0 <= i < n && ts[i].prior.Some? && Dropped(before[i].cur.fields, before[i].prior.fields)
                          && ts[i].cur == l
  {
    if n > 0 {
      DropsOfMembers(ts, before, n - 1);
      assert Judged(before[n - 1]);
    }
  }

  /** A listing in `all_new_listings` is the current listing of a task without an earlier one. */
  lemma {:induction false} NewOfWitness(ts: seq<Task>, n: nat, l: Listing) returns (i: nat)
    requires n <= |ts| && l in NewOf(ts, n)
    ensures i < n && ts[i].prior.None? && ts[i].cur == l
  {
    if l in NewOf(ts, n - 1) {
      i := NewOfWitness(ts, n - 1, l);
    } else {
      i := n - 1;
    }
  }

  /** The listing of a task without an earlier listing is never appended to `all_price_drops`. */
  lemma {:induction false} NotAmongDrops(ts: seq<Task>, before: seq<Snap>, n: nat, i: nat)
    requires Distinct(ts) && n <= |ts| <= |before| && i < |ts| && ts[i].prior.None?
    ensures ts[i].cur !in DropsOf(ts, before, n)
  {
    if n > 0 {
      NotAmongDrops(ts, before, n - 1, i);
      if ts[n - 1].prior.Some? {
        assert n - 1 != i;
        assert ts[n - 1].cur != ts[i].cur by {
          if n - 1 < i {
            assert ts[n - 1].cur != ts[i].cur;
          } else {
            assert ts[i].cur != ts[n - 1].cur;
          }
        }
      }
    }
  }

  /** No listing is reported both as new and as a price drop. */
  lemma NewNotDropped(ts: seq<Task>, before: seq<Snap>)
    requires Distinct(ts) && |ts| <= |before|
    ensures forall l :: l in NewOf(ts, |ts|) ==> l !in DropsOf(ts, before, |ts|)
  {
    forall l | l in NewOf(ts, |ts|)
      ensures l !in DropsOf(ts, before, |ts|)
    {
      var i := NewOfWitness(ts, |ts|, l);
      NotAmongDrops(ts, before, |ts|, i);
    }
  }

  /** A listing of the run is reported new exactly when the previous run did not list its id
      for the same bike; otherwise its task carries the earlier listing. */
  lemma UnlistedIsNew(current: Dict<string, Dict<string, Listing>>, previous: map<string, map<string, Listing>>,
                      m: nat, j: nat)
    requires Nested(current) && m < |current.keys| && j < |current.entries[current.keys[m]].keys|
    ensures var bike := current.keys[m];
            var bl := current.entries[bike];
            var ts := Tasks(current, previous);
            && Present(bl) && Start(current, m) + j < |ts|
            && (bl.keys[j] !in PreviousFor(previous, bike) ==> bl.entries[bl.keys[j]] in NewOf(ts, |ts|))
            && (bl.keys[j] in PreviousFor(previous, bike) ==>
                  ts[Start(current, m) + j] == Task(bl.entries[bl.keys[j]], Some(previous[bike][bl.keys[j]])))
  {
    TaskAt(current, previous, m, j);
    NewOfMembers(Tasks(current, previous), |Tasks(current, previous)|);
  }

  /** `v`, the view of a task's listing once the pass is done with it, given `s`, the view
      before. A new listing is untouched. A carried-over one holds the compared flags and the
      previous run's list object (or, when the previous listing had none, a list that no
      previous listing holds), with the entry for a changed price appended. */
  predicate Done(t: Task, s: Snap, v: View, shared: set<PriceHistory>, now: string) {
    match t.prior
    case None => v == s.cur
    case Some(_) =>
      && v.fields == Flagged(s.cur.fields, s.prior.fields, s.dropped)
      && v.history != null
      && (if s.prior.history != null then v.history == s.prior.history else v.history !in shared)
      && v.entries == s.prior.entries + EntryIf(s.cur.fields, s.changed, now)
  }

  /** What `Done` means for a carried-over listing whose verdicts are its prices': the entries
      are the compared ones, with `price_dropped` True and `old_price` the previous price
      exactly when the price fell, and the history grows by one entry exactly when both prices
      parse and differ. */
  lemma CarriedOverView(t: Task, s: Snap, v: View, shared: set<PriceHistory>, now: string)
    requires Judged(s) && t.prior.Some? && Done(t, s, v, shared, now)
    ensures v.fields == Carried(s.cur.fields, s.prior.fields)
    ensures var cp, pp := PriceOf(s.cur.fields), PriceOf(s.prior.fields);
            var fell := pp.Some? && cp.Some? && cp.value < pp.value;
            && "price_dropped" in v.fields && "old_price" in v.fields
            && (v.fields["price_dropped"] == Bool(true) <==> fell)
            && v.fields["old_price"] == (if fell then Records.Get(s.prior.fields, "price", Null) else Null)
            && |v.entries| == |s.prior.entries| + (if pp.Some? && cp.Some? && pp.value != cp.value then 1 else 0)
            && v.entries[..|s.prior.entries|] == s.prior.entries
  {
    CarriedFlags(s.cur.fields, s.prior.fields);
    AppendedExactly(s.cur.fields, s.prior.fields, now);
    assert v.entries == s.prior.entries + Appended(s.cur.fields, s.prior.fields, now);
  }

  function Priors(ts: seq<Task>): set<Listing> {
    set t | t in ts && t.prior.Some? :: t.prior.value
  }

  /** Every object the views of the tasks read: the listings of both runs and their lists. */
  function Objects(ts: seq<Task>): set<object>
    reads Curs(ts), Priors(ts)
  {
    (set t | t in ts :: t.cur as object)
      + (set t | t in ts && t.prior.Some? :: t.prior.value as object)
      + (set t | t in ts && t.cur.history != null :: t.cur.history as object)
      + (set t | t in ts && t.prior.Some? && t.prior.value.history != null :: t.prior.value.history as object)
  }

  /** The pass is done with the tasks before `k`. */
  predicate Treated(ts: seq<Task>, before: seq<Snap>, k: nat, now: string)
    requires k <= |ts| <= |before|
    reads Objects(ts)
  {
    forall i {:trigger Done(ts[i], before[i], ViewOf(ts[i].cur), Shared(before), now)} :: 0 <= i < k ==>
      Done(ts[i], before[i], ViewOf(ts[i].cur), Shared(before), now)
  }

  /** The pass has not yet touched the tasks from `k` on. */
  predicate Untouched(ts: seq<Task>, before: seq<Snap>, k: nat)
    requires k <= |ts| <= |before|
    reads Objects(ts)
  {
    forall i {:trigger Seen(ts[i], before[i])} :: k <= i < |ts| ==> Seen(ts[i], before[i])
  }

  /** The second loop after its first `k` tasks: `all_price_drops` holds what those tasks
      contribute, the pass is done with them and has not touched the others. */
  predicate Pass(ts: seq<Task>, before: seq<Snap>, k: nat, now: string, drops: seq<Listing>)
    reads Objects(ts)
  {
    && k <= |ts| <= |before|
    && drops == DropsOf(ts, before, k)
    && Treated(ts, before, k, now) && Untouched(ts, before, k)
  }

  /** The pass after its first `k` tasks: besides `Pass`, `all_new_listings` holds what those
      tasks contribute. */
  predicate Progress(ts: seq<Task>, before: seq<Snap>, k: nat, now: string,
                     newListings: seq<Listing>, drops: seq<Listing>)
    reads Objects(ts)
  {
    Pass(ts, before, k, now, drops) && newListings == NewOf(ts, k)
  }

  /** Every verdict read before the pass is that of its two prices. */
  predicate Compared(before: seq<Snap>) {
    forall i {:trigger Judged(before[i])} :: 0 <= i < |before| ==> Judged(before[i])
  }

  /** `old_p` and `new_p` compared: both parse and differ, and the new one is lower. */
  method ComparePrices(cur: Record, prior: Record) returns (changed: bool, dropped: bool)
    ensures changed == Changed(cur, prior) && dropped == Dropped(cur, prior)
  {
    var oldP := PriceOf(prior);
    var newP := PriceOf(cur);
    changed := oldP.Some? && newP.Some? && oldP != newP;
    dropped := changed && newP.value < oldP.value;
  }

  /** The body of the price loop for a listing listed before: take over the previous history
      list, reset the flags, and compare the two prices. */
  method CarryOver(cur: Listing, prior: Listing, now: string, ghost s: Snap, ghost shared: set<PriceHistory>)
    returns (changed: bool, dropped: bool)
    requires cur != prior && Judged(s) && s.cur.fields == cur.fields && s.prior == ViewOf(prior)
    requires prior.history != null ==> prior.history in shared
    modifies cur, prior.history
    ensures changed == s.changed && dropped == s.dropped
    ensures cur.fields == Flagged(old(cur.fields), prior.fields, dropped)
    ensures prior.history != null ==> cur.history == prior.history
    ensures prior.history == null ==> fresh(cur.history)
    ensures cur.history != null && cur.history.entries == old(Entries(prior.history)) + EntryIf(old(cur.fields), changed, now)
    ensures Done(Task(cur, Some(prior)), s, ViewOf(cur), shared, now)
  {
    ghost var f0, pf := cur.fields, prior.fields;
    if prior.history != null {
      cur.history := prior.history;
    } else {
      cur.history := new PriceHistory([]);
    }
    cur.fields := Flagged(cur.fields, prior.fields, false);
    FlagsReset(f0, prior.fields);
    changed, dropped := ComparePrices(cur.fields, prior.fields);
    if changed {
      cur.history.Append(PriceEntry(now, Records.Get(cur.fields, "price", Str("N/A"))));
    }
    if dropped {
      cur.fields := Flagged(cur.fields, prior.fields, true);
    }
    assert prior.fields == pf && cur.fields == Flagged(f0, pf, dropped);
  }

  /** The first loop over a bike's listings, whose tasks are `ts[k..k + |bl.keys|]`: append
      every listing whose id the previous run did not list for the bike. */
  method CollectNew(bl: Dict<string, Listing>, prevs: map<string, Listing>, newListings0: seq<Listing>,
                    ghost ts: seq<Task>, ghost k: nat)
    returns (newListings: seq<Listing>)
    requires Slots(ts, bl, prevs, k)
    requires newListings0 == NewOf(ts, k)
    ensures newListings == NewOf(ts, k + |bl.keys|)
  {
    newListings := newListings0;
    var j := 0;
    while j < |bl.keys|
      invariant 0 <= j <= |bl.keys|
      invariant newListings == NewOf(ts, k + j)
    {
      var id := bl.keys[j];
      if id !in prevs {
        newListings := newListings + [bl.entries[id]];
      }
      j := j + 1;
    }
  }

  /** Step `i` of a pass: its tasks, what it read of them before it ran, the task it is at,
      and the time. */
  datatype Step = Step(ts: seq<Task>, before: seq<Snap>, i: nat, now: string)

  /** A step on task `ts[i]` that changes only its listing and the previous run's list, and
      leaves that task done, keeps the earlier tasks done. */
  twostate lemma TreatedKept(p: Step)
    requires Separate(p.ts, p.before) && p.i < |p.ts| && old(Treated(p.ts, p.before, p.i, p.now))
    requires forall o :: o in old(Objects(p.ts)) && o != p.ts[p.i].cur && o != p.before[p.i].prior.history ==> unchanged(o)
    requires Done(p.ts[p.i], p.before[p.i], ViewOf(p.ts[p.i].cur), Shared(p.before), p.now)
    ensures Treated(p.ts, p.before, p.i + 1, p.now)
  {
    var ts, before, i, now := p.ts, p.before, p.i, p.now;
    var h := before[i].prior.history;
    assert h != null ==> h in Shared(before);
    forall i' | 0 <= i' < i
      ensures Done(ts[i'], before[i'], ViewOf(ts[i'].cur), Shared(before), now)
    {
      var c := ts[i'].cur;
      assert old(Done(ts[i'], before[i'], ViewOf(c), Shared(before), now));
      assert c in old(Objects(ts)) && c != ts[i].cur;
      assert unchanged(c);
      if c.history != null {
        assert c.history in old(Objects(ts)) && c.history != h;
        assert unchanged(c.history);
      }
    }
  }

  /** A step on task `ts[i]` that changes only its listing and the previous run's list leaves
      the later tasks untouched. */
  twostate lemma UntouchedKept(p: Step)
    requires Separate(p.ts, p.before) && p.i < |p.ts| && old(Untouched(p.ts, p.before, p.i))
    requires forall o :: o in old(Objects(p.ts)) && o != p.ts[p.i].cur && o != p.before[p.i].prior.history ==> unchanged(o)
    ensures Untouched(p.ts, p.before, p.i + 1)
  {
    var ts, before, i := p.ts, p.before, p.i;
    var h := before[i].prior.history;
    assert h != null ==> h in Shared(before);
    forall i' | i < i' < |ts|
      ensures Seen(ts[i'], before[i'])
    {
      var t := ts[i'];
      assert old(Seen(t, before[i']));
      assert t.cur in old(Objects(ts)) && t.cur != ts[i].cur;
      assert unchanged(t.cur);
      if t.cur.history != null {
        assert t.cur.history in old(Objects(ts)) && t.cur.history != h;
        assert unchanged(t.cur.history);
      }
      if t.prior.Some? {
        var q := t.prior.value;
        assert q in old(Objects(ts)) && q != ts[i].cur;
        assert unchanged(q);
        if q.history != null {
          assert q.history in old(Objects(ts)) && q.history != h;
          assert unchanged(q.history);
        }
      }
    }
  }

  /** One pass of the second loop, on task `ts[i]`: a listing listed before is carried over,
      and appended to the drops when its price fell. */
  method PriceStep(cur: Listing, prior: Option<Listing>, now: string,
                   ghost ts: seq<Task>, ghost before: seq<Snap>, ghost i: nat)
    returns (dropped: bool, ghost i': nat)
    requires Separate(ts, before) && i < |ts| && ts[i] == Task(cur, prior) && Judged(before[i])
    requires Treated(ts, before, i, now) && Untouched(ts, before, i)
    modifies Curs(ts), Shared(before)
    ensures i' == i + 1 && dropped == (prior.Some? && before[i].dropped)
    ensures Treated(ts, before, i', now) && Untouched(ts, before, i')
  {
    dropped, i' := false, i + 1;
    assert Seen(ts[i], before[i]);
    if prior.Some? {
      var p := prior.value;
      assert cur in Curs(ts);
      assert p.history != null ==> p.history in Shared(before);
      var changed;
      changed, dropped := CarryOver(cur, p, now, before[i], Shared(before));
      TreatedKept(Step(ts, before, i, now));
      UntouchedKept(Step(ts, before, i, now));
    }
  }

  /** `all_price_drops` after task `i` is the one before it, with the task's listing appended
      when its price fell. */
  lemma DropsNext(ts: seq<Task>, before: seq<Snap>, i: nat, i': nat, drops: seq<Listing>, cur: Listing,
                   dropped: bool)
    requires i < |ts| <= |before| && i' == i + 1 && drops == DropsOf(ts, before, i) && ts[i].cur == cur
    requires dropped == (ts[i].prior.Some? && before[i].dropped)
    ensures (if dropped then drops + [cur] else drops) == DropsOf(ts, before, i')
  {
  }

  /** The second loop over a bike's listings, whose tasks are `ts[k..k + |bl.keys|]`. */
  method CollectDrops(bl: Dict<string, Listing>, prevs: map<string, Listing>, now: string, drops0: seq<Listing>,
                      ghost ts: seq<Task>, ghost before: seq<Snap>, ghost k: nat)
    returns (drops: seq<Listing>, ghost k': nat)
    requires Slots(ts, bl, prevs, k) && Separate(ts, before)
    requires Compared(before) && Pass(ts, before, k, now, drops0)
    modifies Curs(ts), Shared(before)
    ensures k' == k + |bl.keys| && Pass(ts, before, k', now, drops)
  {
    drops, k' := drops0, k;
    var j := 0;
    while j < |bl.keys|
      invariant 0 <= j <= |bl.keys| && k' == k + j
      invariant Pass(ts, before, k', now, drops)
    {
      var id := bl.keys[j];
      var prior := if id in prevs then Some(prevs[id]) else None;
      ghost var i := k';
      var cur := bl.entries[id];
      var dropped;
      dropped, k' := PriceStep(cur, prior, now, ts, before, i);
      DropsNext(ts, before, i, k', drops, cur, dropped);
      drops := if dropped then drops + [cur] else drops;
      j := j + 1;
    }
  }

  /** One turn of the loop over the bikes, on the listings `bl` of a bike and the listings
      `prevs` the previous run saved for it, whose tasks are those of `ts` from `k` on: both
      loops over the listings. */
  method ProcessBike(bl: Dict<string, Listing>, prevs: map<string, Listing>, now: string,
                     newListings0: seq<Listing>, drops0: seq<Listing>,
                     ghost ts: seq<Task>, ghost before: seq<Snap>, ghost k: nat)
    returns (newListings: seq<Listing>, drops: seq<Listing>, ghost k': nat)
    requires Slots(ts, bl, prevs, k) && Separate(ts, before) && Compared(before)
    requires Progress(ts, before, k, now, newListings0, drops0)
    modifies Curs(ts), Shared(before)
    ensures k' == k + |bl.keys|
    ensures Progress(ts, before, k', now, newListings, drops)
  {
    newListings := CollectNew(bl, prevs, newListings0, ts, k);
    drops, k' := CollectDrops(bl, prevs, now, drops0, ts, before, k);
  }

  /** `process_listings(current, previous)`: the listings of the run without an earlier listing
      and those whose price fell, each in iteration order, with every carried-over listing
      updated in place. */
  method ProcessListings(current: Dict<string, Dict<string, Listing>>, previous: map<string, map<string, Listing>>,
                         now: string, ghost ts: seq<Task>, ghost before: seq<Snap>)
    returns (newListings: seq<Listing>, drops: seq<Listing>)
    requires Nested(current) && ts == Tasks(current, previous) && Separate(ts, before)
    requires Untouched(ts, before, 0) && Compared(before)
    modifies Curs(ts), Shared(before)
    ensures newListings == NewOf(ts, |ts|) && drops == DropsOf(ts, before, |ts|)
    ensures Treated(ts, before, |ts|, now)
  {
    TasksFromLength(current, previous, 0);
    newListings, drops := [], [];
    ghost var k := 0;
    var m := 0;
    while m < |current.keys|
      invariant 0 <= m <= |current.keys| && k == Start(current, m)
      invariant Progress(ts, before, k, now, newListings, drops)
    {
      var bike := current.keys[m];
      var bl := current.entries[bike];
      BikeSlots(current, previous, m);
      newListings, drops, k := ProcessBike(bl, PreviousFor(previous, bike), now, newListings, drops, ts, before, k);
      m := m + 1;
    }
  }

  /** The state `ProcessListings` leaves: once the pass is done with every task, and changed
      nothing but the current listings and the previous run's lists, each carried-over listing
      holds the very list object of its earlier listing, when that had one, so that an entry
      appended for the one is in the history of both. */
  twostate lemma HistoriesShared(p: Step)
    requires Separate(p.ts, p.before) && p.i == |p.ts| && old(Untouched(p.ts, p.before, 0))
    requires Treated(p.ts, p.before, p.i, p.now)
    requires forall o :: o in old(Objects(p.ts)) && o !in Curs(p.ts) && o !in Shared(p.before) ==> unchanged(o)
    ensures forall i :: 0 <= i < |p.ts| && p.ts[i].prior.Some? && p.ts[i].prior.value.history != null ==>
              p.ts[i].cur.history == p.ts[i].prior.value.history
  {
    var ts, before := p.ts, p.before;
    forall i | 0 <= i < |ts| && ts[i].prior.Some? && ts[i].prior.value.history != null
      ensures ts[i].cur.history == ts[i].prior.value.history
    {
      var q := ts[i].prior.value;
      assert q in old(Objects(ts)) && q !in Curs(ts);
      assert unchanged(q) && old(Seen(ts[i], before[i]));
      assert Done(ts[i], before[i], ViewOf(ts[i].cur), Shared(before), p.now);
    }
  }
}
