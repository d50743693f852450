/** The match-ratio tuner (tune_match_ratio.py): score every labelled test case, count the
    outcomes at one threshold, derive accuracy, precision, recall and F1, and pick the first
    threshold with the highest F1. */
module TuneMatchRatio {
  /** One entry of `TEST_CASES`, a search term, a listing title, and whether the title should
      match, together with `fuzzy_match_score(search_term, listing_title)`, which the caller
      computes. */
  datatype Case = Case(searchTerm: string, title: string, score: real, shouldMatch: bool)

  /** The dictionary `test_threshold` returns. */
  datatype Report = Report(threshold: real, accuracy: real, precision: real, recall: real, f1: real,
                           falsePos: nat, falseNeg: nat)

  /** How a case fares at a threshold: matched as wanted, matched though unwanted, missed though
      wanted, or skipped as wanted. */
  datatype Verdict = TruePos | FalsePos | FalseNeg | TrueNeg

  /** `would_match`: the score reaches the threshold. */
  predicate Would(c: Case, t: real) {
    c.score >= t
  }

  function VerdictOf(c: Case, t: real): Verdict
  {
    if Would(c, t) then (if c.shouldMatch then TruePos else FalsePos)
    else (if c.shouldMatch then FalseNeg else TrueNeg)
  }

  /** The number of cases with verdict `v`: the `sum(1 for ...)` counts. */
  function Count(cases: seq<Case>, t: real, v: Verdict): nat
  {
    if cases == [] then 0
    else Count(cases[..|cases| - 1], t, v) + (if VerdictOf(cases[|cases| - 1], t) == v then 1 else 0)
  }

  /** The cases with verdict `v`, in order: the `false_positives` and `false_negatives` lists. */
  function Filter(cases: seq<Case>, t: real, v: Verdict): seq<Case>
  {
    if cases == [] then []
    else Filter(cases[..|cases| - 1], t, v) + (if VerdictOf(cases[|cases| - 1], t) == v then [cases[|cases| - 1]] else [])
  }

  /** One more case adds its own verdict to the counts and lists of the cases before it. */
  lemma CountStep(cases: seq<Case>, t: real, i: nat)
    requires i < |cases|
    ensures forall v ::
              Count(cases[..i + 1], t, v) == Count(cases[..i], t, v) + (if VerdictOf(cases[i], t) == v then 1 else 0)
    ensures forall v ::
              Filter(cases[..i + 1], t, v) == Filter(cases[..i], t, v) + (if VerdictOf(cases[i], t) == v then [cases[i]] else [])
  {
    assert cases[..i + 1][..i] == cases[..i];
  }

  /** A list of cases holds exactly the cases with its verdict, as many as are counted. */
  lemma {:induction false} FilterCount(cases: seq<Case>, t: real, v: Verdict)
    ensures |Filter(cases, t, v)| == Count(cases, t, v)
    ensures forall c :: c in Filter(cases, t, v) <==> c in cases && VerdictOf(c, t) == v
  {
    if cases != [] {
      var init := cases[..|cases| - 1];
      FilterCount(init, t, v);
      assert cases == init + [cases[|cases| - 1]];
    }
  }

  /** Every case has exactly one verdict: the four counts add up to the number of cases. */
  lemma {:induction false} CountsPartition(cases: seq<Case>, t: real)
    ensures Count(cases, t, TruePos) + Count(cases, t, FalsePos) + Count(cases, t, FalseNeg)
              + Count(cases, t, TrueNeg) == |cases|
  {
    if cases != [] {
      CountsPartition(cases[..|cases| - 1], t);
    }
  }

  /** Raising the threshold never adds a match: fewer or as many true and false positives. */
  lemma {:induction false} MatchesShrink(cases: seq<Case>, t: real, t': real)
    requires t <= t'
    ensures Count(cases, t', TruePos) <= Count(cases, t, TruePos)
    ensures Count(cases, t', FalsePos) <= Count(cases, t, FalsePos)
  {
    if cases != [] {
      MatchesShrink(cases[..|cases| - 1], t, t');
    }
  }

  /** `x / (x + y) if (x + y) else 0`: precision is `Share(tp, fp)`, recall `Share(tp, fn)`. */
  function Share(hits: nat, misses: nat): (r: real)
    ensures 0.0 <= r <= 1.0
    ensures r == 0.0 <==> hits == 0
    ensures r == 1.0 <==> hits > 0 && misses == 0
  {
    if hits + misses == 0 then 0.0 else (hits as real) / ((hits + misses) as real)
  }

  /** `2 * p * r / (p + r) if (p + r) else 0` */
  function F1(p: real, r: real): real {
    if p + r == 0.0 then 0.0 else 2.0 * p * r / (p + r)
  }

  /** A common non-zero factor cancels. */
  lemma MulCancel(u: real, v: real, c: real)
    requires c != 0.0 && u * c == v * c
    ensures u == v
  {
    assert (u - v) * c == 0.0;
  }

  /** A factor no smaller than 0 keeps an inequality. */
  lemma MulMono(u: real, v: real, c: real)
    requires 0.0 <= c && u <= v
    ensures u * c <= v * c
  {
    assert (v - u) * c >= 0.0;
  }

  /** Bounds on a quotient from bounds on its numerator. */
  lemma QuotientBetween(x: real, d: real, lo: real, hi: real)
    requires d > 0.0 && lo * d <= x <= hi * d
    ensures lo <= x / d <= hi
  {
    assert x / d * d == x;
  }

  /** F1 is the harmonic mean of precision and recall: it lies between the two. */
  lemma F1Between(p: real, r: real)
    requires 0.0 <= p && 0.0 <= r
    ensures (if p <= r then p else r) <= F1(p, r) <= (if p <= r then r else p)
  {
    if p + r != 0.0 {
      var lo, hi := if p <= r then p else r, if p <= r then r else p;
      MulMono(lo, hi, lo);
      MulMono(lo, hi, hi);
      assert lo * hi == p * r;
      assert lo * (p + r) == lo * lo + lo * hi;
      assert hi * (p + r) == lo * hi + hi * hi;
      QuotientBetween(2.0 * p * r, p + r, lo, hi);
    }
  }

  /** F1 from the counts: 0 without a true positive, else `2tp / (2tp + fp + fn)`. */
  lemma F1OfCounts(tp: nat, fp: nat, fn: nat)
    ensures tp == 0 ==> F1(Share(tp, fp), Share(tp, fn)) == 0.0
    ensures tp > 0 ==> F1(Share(tp, fp), Share(tp, fn)) == (2 * tp) as real / ((2 * tp + fp + fn) as real)
  {
    if tp > 0 {
      var x, a, b := tp as real, (tp + fp) as real, (tp + fn) as real;
      var p, r := Share(tp, fp), Share(tp, fn);
      assert p == x / a && r == x / b;
      assert p * a == x && r * b == x;
      var sum, g := p + r, 2.0 * x / (a + b);
      assert g * (a + b) == 2.0 * x;
      assert sum * (a * b) == x * (a + b);
      assert g * sum * (a * b) == 2.0 * x * x by {
        assert g * sum * (a * b) == g * (sum * (a * b));
      }
      assert 2.0 * p * r * (a * b) == 2.0 * x * x by {
        assert 2.0 * p * r * (a * b) == 2.0 * (p * a) * (r * b);
      }
      MulCancel(g * sum, 2.0 * p * r, a * b);
      assert sum != 0.0;
      MulCancel(2.0 * p * r / sum, g, sum);
      assert a + b == (2 * tp + fp + fn) as real;
    }
  }

  /** `(k / n) * 100` */
  function Percent(k: nat, n: nat): (r: real)
    requires n > 0
    ensures k <= n ==> 0.0 <= r <= 100.0
    ensures r == 100.0 * (k as real) / (n as real)
  {
    var q := k as real / n as real;
    assert k <= n ==> 0.0 <= q <= 1.0 by {
      if k <= n {
        QuotientBetween(k as real, n as real, 0.0, 1.0);
      }
    }
    q * 100.0
  }

  /** The report `test_threshold` returns for threshold `t`. */
  function Evaluate(cases: seq<Case>, t: real): Report
    requires |cases| > 0
  {
    var tp, fp, fn := Count(cases, t, TruePos), Count(cases, t, FalsePos), Count(cases, t, FalseNeg);
    var correct := tp + Count(cases, t, TrueNeg);
    var p, r := Share(tp, fp), Share(tp, fn);
    Report(t, Percent(correct, |cases|), p, r, F1(p, r), fp, fn)
  }

  /** What the report says: the accuracy is the share of cases that are neither a false positive
      nor a false negative, and every rate lies in its range. */
  lemma EvaluateMeaning(cases: seq<Case>, t: real)
    requires |cases| > 0
    ensures Evaluate(cases, t).falsePos + Evaluate(cases, t).falseNeg <= |cases|
    ensures Evaluate(cases, t).accuracy
              == 100.0 * ((|cases| - Evaluate(cases, t).falsePos - Evaluate(cases, t).falseNeg) as real)
                 / (|cases| as real)
    ensures 0.0 <= Evaluate(cases, t).accuracy <= 100.0
    ensures 0.0 <= Evaluate(cases, t).f1 <= 1.0
  {
    CountsPartition(cases, t);
    var r := Evaluate(cases, t);
    F1Between(r.precision, r.recall);
  }

  /** `test_threshold(min_ratio)`: one pass over the cases counts the correct and incorrect ones
      and collects the false positives and false negatives; the rates are then computed from the
      `sum` counts. */
  method TestThreshold(cases: seq<Case>, minRatio: real) returns (r: Report)
    requires |cases| > 0
    ensures r == Evaluate(cases, minRatio)
  {
    var correct, incorrect := 0, 0;
    var falsePositives, falseNegatives := [], [];
    for i := 0 to |cases|
      invariant correct == Count(cases[..i], minRatio, TruePos) + Count(cases[..i], minRatio, TrueNeg)
      invariant falsePositives == Filter(cases[..i], minRatio, FalsePos)
      invariant falseNegatives == Filter(cases[..i], minRatio, FalseNeg)
      invariant incorrect == |falsePositives| + |falseNegatives|
    {
      var c := cases[i];
      CountStep(cases, minRatio, i);
      var wouldMatch := c.score >= minRatio;
      if wouldMatch == c.shouldMatch {
        correct := correct + 1;
      } else {
        incorrect := incorrect + 1;
        if wouldMatch && !c.shouldMatch {
          falsePositives := falsePositives + [c];
        } else {
          falseNegatives := falseNegatives + [c];
        }
      }
    }
    assert cases[..|cases|] == cases;
    var accuracy := Percent(correct, |cases|);
    var tp, fp, fn := Count(cases, minRatio, TruePos), Count(cases, minRatio, FalsePos),
                      Count(cases, minRatio, FalseNeg);
    var precision := Share(tp, fp);
    var recall := Share(tp, fn);
    var f1 := F1(precision, recall);
    FilterCount(cases, minRatio, FalsePos);
    FilterCount(cases, minRatio, FalseNeg);
    r := Report(minRatio, accuracy, precision, recall, f1, |falsePositives|, |falseNegatives|);
  }

  /** `max(results, key=lambda x: x["f1"])`: the first report with the highest F1. */
  function FirstBest(results: seq<Report>): (i: nat)
    requires |results| > 0
    ensures i < |results|
    ensures forall j :: 0 <= j < |results| ==> results[j].f1 <= results[i].f1
    ensures forall j :: 0 <= j < i ==> results[j].f1 < results[i].f1
  {
    if |results| == 1 then 0
    else
      var k := FirstBest(results[..|results| - 1]);
      if results[|results| - 1].f1 > results[k].f1 then |results| - 1 else k
  }

  /** `thresholds[i]` has the highest F1 of all the thresholds, and every one before it a lower F1. */
  ghost predicate BestAt(cases: seq<Case>, thresholds: seq<real>, i: nat)
    requires |cases| > 0
  {
    && i < |thresholds|
    && (forall j :: 0 <= j < |thresholds| ==>
          Evaluate(cases, thresholds[j]).f1 <= Evaluate(cases, thresholds[i]).f1)
    && (forall j :: 0 <= j < i ==> Evaluate(cases, thresholds[j]).f1 < Evaluate(cases, thresholds[i]).f1)
  }

  /** `find_best_threshold()`: test every threshold in order and return the first one whose F1 is
      the highest. */
  method FindBestThreshold(cases: seq<Case>, thresholds: seq<real>) returns (best: real)
    requires |cases| > 0 && |thresholds| > 0
    ensures exists i: nat :: BestAt(cases, thresholds, i) && best == thresholds[i]
  {
    var results := [];
    for i := 0 to |thresholds|
      invariant |results| == i
      invariant forall j :: 0 <= j < i ==> results[j] == Evaluate(cases, thresholds[j])
    {
      var res := TestThreshold(cases, thresholds[i]);
      results := results + [res];
    }
    var k := FirstBest(results);
    best := results[k].threshold;
    assert BestAt(cases, thresholds, k);
  }
}

/** The tuner's cases scored by the matcher the trackers use: `test_threshold` computes every
    case's score with `fuzzy_match_score`, so each verdict is the verdict of `is_relevant_match`
    at the same threshold. */
module TuneScoring {
  import opened TuneMatchRatio
  import RelevantMatch

  /** Every case carries `fuzzy_match_score(search_term, listing_title)` of its own strings. */
  predicate Scored(cases: seq<Case>, sc: RelevantMatch.Scorer)
    requires sc.Valid()
  {
    forall i :: 0 <= i < |cases| ==>
      cases[i].score == RelevantMatch.FuzzyMatchScore(cases[i].searchTerm, cases[i].title, sc)
  }

  /** On scored cases, `would_match` is `is_relevant_match` at the tested threshold, and every
      score lies in [0, 1]. */
  lemma ScoredVerdicts(cases: seq<Case>, t: real, sc: RelevantMatch.Scorer)
    requires sc.Valid() && Scored(cases, sc)
    ensures forall i :: 0 <= i < |cases| ==>
              (Would(cases[i], t) <==> RelevantMatch.IsRelevantMatch(cases[i].searchTerm, cases[i].title, t, sc))
    ensures forall i :: 0 <= i < |cases| ==> 0.0 <= cases[i].score <= 1.0
  {
    forall i | 0 <= i < |cases|
      ensures 0.0 <= cases[i].score <= 1.0
    {
      var _ := RelevantMatch.FuzzyMatchScore(cases[i].searchTerm, cases[i].title, sc);
    }
  }

  /** Above 1.0 no scored case matches: every wanted case is a false negative and every other
      case a true negative. */
  lemma {:induction false} NothingMatchesAboveOne(cases: seq<Case>, t: real, sc: RelevantMatch.Scorer)
    requires sc.Valid() && Scored(cases, sc) && t > 1.0
    ensures Count(cases, t, TruePos) == 0 && Count(cases, t, FalsePos) == 0
  {
    if cases != [] {
      var init := cases[..|cases| - 1];
      assert Scored(init, sc) by {
        forall i | 0 <= i < |init| ensures init[i] == cases[i] { }
      }
      NothingMatchesAboveOne(init, t, sc);
      ScoredVerdicts(cases, t, sc);
      assert !Would(cases[|cases| - 1], t);
    }
  }
}
