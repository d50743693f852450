/** Title relevance scoring (utils/relevant_match.py): normalisation, word tokens, the blended
    fuzzy score with its containment shortcut and brand and model-number gates, the threshold
    test, and the brand-scoped AutoTrader test. */
module RelevantMatch {
  import opened Text
  import Config

  // ---------------------------------------------------------------- normalisation

  /** `re.sub(r'[^\w\s]', '', s)`: drop every character that is neither a word character nor whitespace. */
  function DropPunctuation(s: string): (r: string)
    ensures forall i :: 0 <= i < |r| ==> r[i] in s && (IsWordChar(r[i]) || IsSpace(r[i]))
  {
    if s == [] then []
    else (if IsWordChar(s[0]) || IsSpace(s[0]) then [s[0]] else []) + DropPunctuation(s[1..])
  }

  lemma {:induction false} DropPunctuationKeeps(s: string)
    requires forall i :: 0 <= i < |s| ==> IsWordChar(s[i]) || IsSpace(s[i])
    ensures DropPunctuation(s) == s
  {
    if s != [] {
      DropPunctuationKeeps(s[1..]);
    }
  }

  /** Lower-case word characters separated by single spaces, with no space at either end. */
  predicate IsNormalized(s: string) {
    && (forall i :: 0 <= i < |s| ==> s[i] == ' ' || (IsWordChar(s[i]) && !IsUpperChar(s[i])))
    && (s != [] ==> s[0] != ' ' && s[|s| - 1] != ' ')
    && (forall i :: 0 <= i < |s| - 1 && s[i] == ' ' ==> s[i + 1] != ' ')
  }

  /** A word made of lower-case word characters only. */
  predicate IsLowerWord(t: string) {
    |t| > 0 && forall i :: 0 <= i < |t| ==> IsWordChar(t[i]) && !IsUpperChar(t[i])
  }

  /** `normalize_text`: "" for falsy input; otherwise lower-case, punctuation removed,
      whitespace runs collapsed to one space, and trimmed. */
  function NormalizeText(text: string): (r: string)
    ensures IsNormalized(r)
  {
    if text == "" then ""
    else
      var kept := DropPunctuation(Lower(text));
      KeptIsClean(text);
      WordsAreLower(kept);
      JoinNormalized(Split(kept));
      Join(Split(kept), " ")
  }

  lemma KeptIsClean(text: string)
    ensures var kept := DropPunctuation(Lower(text));
            forall i :: 0 <= i < |kept| ==> !IsUpperChar(kept[i]) && (IsWordChar(kept[i]) || IsSpace(kept[i]))
  {
    var low := Lower(text);
    var kept := DropPunctuation(low);
    forall i | 0 <= i < |kept| ensures !IsUpperChar(kept[i]) {
      var j :| 0 <= j < |low| && low[j] == kept[i];
    }
  }

  lemma WordsAreLower(s: string)
    requires forall i :: 0 <= i < |s| ==> !IsUpperChar(s[i]) && (IsWordChar(s[i]) || IsSpace(s[i]))
    ensures forall t :: t in Split(s) ==> IsLowerWord(t)
  {
    SplitChars(s);
    forall t | t in Split(s) ensures IsLowerWord(t) {
      assert IsToken(t);
      forall i | 0 <= i < |t| ensures IsWordChar(t[i]) && !IsUpperChar(t[i]) {
        assert t[i] in t;
        var j :| 0 <= j < |s| && s[j] == t[i];
      }
    }
  }

  lemma {:induction false} JoinNormalized(ts: seq<string>)
    requires forall t :: t in ts ==> IsLowerWord(t)
    ensures IsNormalized(Join(ts, " "))
  {
    if |ts| > 1 {
      JoinNormalized(ts[1..]);
      var t, j := ts[0], Join(ts[1..], " ");
      assert ts[0] in ts && ts[1] in ts;
      assert ts[1..][0] == ts[1];
      assert j != [] && j[0] != ' ';
      var s := t + " " + j;
      assert Join(ts, " ") == s;
      assert s[0] == t[0];
      assert s[|s| - 1] == j[|j| - 1];
      forall i | 0 <= i < |s| ensures s[i] == ' ' || (IsWordChar(s[i]) && !IsUpperChar(s[i])) {
        if i < |t| {
          assert s[i] == t[i];
        } else if i > |t| {
          assert s[i] == j[i - |t| - 1];
        }
      }
      forall i | 0 <= i < |s| - 1 && s[i] == ' ' ensures s[i + 1] != ' ' {
        if i == |t| {
          assert s[i + 1] == j[0];
        } else if i > |t| {
          assert s[i] == j[i - |t| - 1];
          assert s[i + 1] == j[i - |t|];
        }
      }
    } else if |ts| == 1 {
      assert ts[0] in ts;
    }
  }

  /** A normalised text is the single-space join of its words. */
  lemma {:induction false} JoinSplitNormalized(n: string)
    requires IsNormalized(n)
    ensures Join(Split(n), " ") == n
    decreases |n|
  {
    if n != [] {
      var w := WordLen(n);
      if w == |n| {
        assert n[..w] == n;
        assert n[w..] == [];
      } else {
        var rest := n[w + 1..];
        NormalizedTail(n, w);
        JoinSplitNormalized(rest);
        JoinCons(n[..w], Split(rest));
      }
    }
  }

  /** After the first word of a normalised text come one space and a normalised, non-empty rest. */
  lemma NormalizedTail(n: string, w: nat)
    requires IsNormalized(n) && n != [] && w == WordLen(n) < |n|
    ensures var rest := n[w + 1..];
            IsNormalized(rest) && Split(rest) != [] &&
            Split(n) == [n[..w]] + Split(rest) && n == n[..w] + " " + rest
  {
    var rest := n[w + 1..];
    assert n[w] == ' ';
    assert n[w..] == " " + rest;
    SplitSpacePrefix(rest);
    assert rest != [] && rest[0] != ' ';
    assert IsNormalized(rest) by {
      forall i | 0 <= i < |rest| - 1 && rest[i] == ' ' ensures rest[i + 1] != ' ' {
        assert n[w + 1 + i] == ' ';
      }
    }
    assert Split(rest) != [];
  }

  lemma JoinCons(t: string, ws: seq<string>)
    requires ws != []
    ensures Join([t] + ws, " ") == t + " " + Join(ws, " ")
  {
    assert ([t] + ws)[1..] == ws;
  }

  /** Normalising twice is normalising once. */
  lemma NormalizeIdempotent(text: string)
    ensures NormalizeText(NormalizeText(text)) == NormalizeText(text)
  {
    var n := NormalizeText(text);
    if n != "" {
      LowerIdempotent(n);
      DropPunctuationKeeps(n);
      JoinSplitNormalized(n);
    }
  }

  // ---------------------------------------------------------------- word tokens

  /** `get_word_tokens`: the words of the normalised text that are at least two characters long. */
  function GetWordTokens(text: string): (r: set<string>)
  {
    set w | w in Split(NormalizeText(text)) && |w| > 1
  }

  /** Every token is a lower-case word of at least two characters occurring in the normalised text. */
  lemma TokensAreWords(text: string)
    ensures forall w :: w in GetWordTokens(text) ==> IsLowerWord(w) && |w| >= 2 && Contains(NormalizeText(text), w)
  {
    var n := NormalizeText(text);
    JoinSplitNormalized(n);
    forall w | w in GetWordTokens(text) ensures IsLowerWord(w) && Contains(n, w) {
      SplitIsLower(n);
      WordOfSplitIsContained(n, w);
    }
  }

  lemma SplitIsLower(n: string)
    requires IsNormalized(n)
    ensures forall t :: t in Split(n) ==> IsLowerWord(t)
  {
    WordsAreLower(n);
  }

  lemma {:induction false} WordOfSplitIsContained(s: string, w: string)
    requires w in Split(s)
    ensures Contains(s, w)
    decreases |s|
  {
    if IsSpace(s[0]) {
      WordOfSplitIsContained(s[1..], w);
      var i :| 0 <= i <= |s[1..]| && w <= s[1..][i..];
      assert s[1..][i..] == s[i + 1..];
    } else {
      var n := WordLen(s);
      if w == s[..n] {
        assert w <= s[0..];
      } else {
        WordOfSplitIsContained(s[n..], w);
        var i :| 0 <= i <= |s[n..]| && w <= s[n..][i..];
        assert s[n..][i..] == s[n + i..];
      }
    }
  }

  /** Tokens depend only on the normalised text. */
  lemma TokensOfNormalized(text: string)
    ensures GetWordTokens(NormalizeText(text)) == GetWordTokens(text)
  {
    NormalizeIdempotent(text);
  }

  // ---------------------------------------------------------------- number patterns

  /** Where `\b` matches: between a word character and a non-word character, or at an end next to a word character. */
  predicate Boundary(s: string, i: nat)
    requires i <= |s|
  {
    (i > 0 && IsWordChar(s[i - 1])) != (i < |s| && IsWordChar(s[i]))
  }

  /** Length of the run of ASCII digits that starts at position `i`. */
  function DigitRunLen(s: string, i: nat): (k: nat)
    requires i <= |s|
    ensures i + k <= |s|
    ensures forall j :: i <= j < i + k ==> IsDigit(s[j])
    ensures i + k < |s| ==> !IsDigit(s[i + k])
    decreases |s| - i
  {
    if i < |s| && IsDigit(s[i]) then 1 + DigitRunLen(s, i + 1) else 0
  }

  /** `re.findall(r'\b\d{2,4}\b', s[i:])` with `\b` judged against the whole of `s`: a run of two to
      four digits with a boundary before it and a non-word character or the end after it. */
  function ShortNumbersFrom(s: string, i: nat): seq<string>
    requires i <= |s|
    decreases |s| - i
  {
    if i == |s| then []
    else
      var k := DigitRunLen(s, i);
      if Boundary(s, i) && 2 <= k <= 4 && (i + k == |s| || !IsWordChar(s[i + k]))
      then [s[i..i + k]] + ShortNumbersFrom(s, i + k)
      else ShortNumbersFrom(s, i + 1)
  }

  /** `set(re.findall(r'\b\d{2,4}\b', s))` */
  function ShortNumbers(s: string): set<string> {
    set x | x in ShortNumbersFrom(s, 0)
  }

  /** `re.findall(r'\d+', s[i:])`: the maximal runs of digits. */
  function DigitRunsFrom(s: string, i: nat): (r: seq<string>)
    requires i <= |s|
    ensures forall x :: x in r ==> IsDigits(x)
    decreases |s| - i
  {
    if i == |s| then []
    else
      var k := DigitRunLen(s, i);
      if k > 0 then [s[i..i + k]] + DigitRunsFrom(s, i + k) else DigitRunsFrom(s, i + 1)
  }

  /** `set(re.findall(r'\d+', s))` */
  function DigitRuns(s: string): set<string> {
    set x | x in DigitRunsFrom(s, 0)
  }

  /** The words `\b\d{2,4}\b` can match as a whole: two to four digits. */
  predicate IsShortNumber(w: string) {
    IsDigits(w) && 2 <= |w| <= 4
  }

  /** The short numbers among a sequence of words, in order. */
  function ShortNumberWords(ws: seq<string>): seq<string> {
    if ws == [] then []
    else (if IsShortNumber(ws[0]) then [ws[0]] else []) + ShortNumberWords(ws[1..])
  }

  lemma {:induction false} ShortNumberWordsMembers(ws: seq<string>)
    ensures forall x :: x in ShortNumberWords(ws) <==> x in ws && IsShortNumber(x)
  {
    if ws != [] {
      ShortNumberWordsMembers(ws[1..]);
      assert ws == [ws[0]] + ws[1..];
    }
  }

  lemma ShortNumberWordsCons(x: string, xs: seq<string>)
    ensures ShortNumberWords([x] + xs) == (if IsShortNumber(x) then [x] else []) + ShortNumberWords(xs)
  {
    assert ([x] + xs)[1..] == xs;
  }

  /** Every character is a space or a word character. */
  predicate SpacedWords(n: string) {
    forall j :: 0 <= j < |n| ==> n[j] == ' ' || IsWordChar(n[j])
  }

  /** In a normalised text the matches of `\b\d{2,4}\b` are exactly its words of two to four digits. */
  lemma ShortNumbersAreWords(n: string)
    requires IsNormalized(n)
    ensures forall x :: x in ShortNumbers(n) <==> x in Split(n) && IsShortNumber(x)
  {
    ShortNumbersFromWords(n, 0);
    ShortNumberWordsMembers(Split(n));
    assert n[0..] == n;
  }

  /** From position `i` on, the scan reports the short-number words of the rest of the text. */
  predicate ScanAgrees(n: string, i: nat)
    requires i <= |n|
  {
    ShortNumbersFrom(n, i) == ShortNumberWords(Split(n[i..]))
  }

  /** From a position that starts a word or holds a space, the scan reports the short-number words that follow. */
  lemma {:induction false} ShortNumbersFromWords(n: string, i: nat)
    requires SpacedWords(n) && i <= |n|
    requires i == 0 || i == |n| || n[i - 1] == ' ' || n[i] == ' '
    ensures ScanAgrees(n, i)
    decreases |n| - i, 1
  {
    if i == |n| {
      assert n[i..] == [];
    } else if n[i] == ' ' {
      ScanFromSpace(n, i);
    } else {
      ScanFromWord(n, i);
    }
  }

  lemma {:induction false} ScanFromSpace(n: string, i: nat)
    requires SpacedWords(n) && i < |n| && n[i] == ' '
    ensures ScanAgrees(n, i)
    decreases |n| - i, 0
  {
    ScanAtSpace(n, i);
    ShortNumbersFromWords(n, i + 1);
  }

  lemma {:induction false} ScanFromWord(n: string, i: nat)
    requires SpacedWords(n) && i < |n| && n[i] != ' '
    requires i == 0 || n[i - 1] == ' '
    ensures ScanAgrees(n, i)
    decreases |n| - i, 0
  {
    var w := WordAt(n, i);
    ShortNumbersFromWords(n, i + w);
    ScanWordThenRest(n, i, w);
  }

  /** One word followed by what the scan reports after it. */
  lemma ScanWordThenRest(n: string, i: nat, w: nat)
    requires 0 < w && i + w <= |n|
    requires i == 0 || n[i - 1] == ' '
    requires forall j :: i <= j < i + w ==> IsWordChar(n[j])
    requires i + w == |n| || n[i + w] == ' '
    requires Split(n[i..]) == [n[i..i + w]] + Split(n[i + w..])
    requires ScanAgrees(n, i + w)
    ensures ScanAgrees(n, i)
  {
    ScanWord(n, i, w);
    ShortNumberWordsCons(n[i..i + w], Split(n[i + w..]));
  }

  /** The scan over one word: the word itself if it is a short number, then the rest. */
  lemma ScanWord(n: string, i: nat, w: nat)
    requires 0 < w && i + w <= |n|
    requires i == 0 || n[i - 1] == ' '
    requires forall j :: i <= j < i + w ==> IsWordChar(n[j])
    requires i + w == |n| || n[i + w] == ' '
    ensures ShortNumbersFrom(n, i) == (if IsShortNumber(n[i..i + w]) then [n[i..i + w]] else []) + ShortNumbersFrom(n, i + w)
  {
    if IsShortNumber(n[i..i + w]) {
      ScanAtShortNumber(n, i, w);
    } else {
      NoShortNumberInsideWord(n, i, w);
    }
  }

  /** A space neither matches nor changes the words that follow. */
  lemma ScanAtSpace(n: string, i: nat)
    requires i < |n| && n[i] == ' '
    ensures ShortNumbersFrom(n, i) == ShortNumbersFrom(n, i + 1)
    ensures Split(n[i..]) == Split(n[i + 1..])
  {
    assert DigitRunLen(n, i) == 0;
    assert n[i..][1..] == n[i + 1..];
  }

  /** The word of a normalised text that starts at `i`: its length, and the split it heads. */
  lemma WordAt(n: string, i: nat) returns (w: nat)
    requires SpacedWords(n) && i < |n| && n[i] != ' '
    ensures 0 < w && i + w <= |n|
    ensures forall j :: i <= j < i + w ==> IsWordChar(n[j])
    ensures i + w == |n| || n[i + w] == ' '
    ensures Split(n[i..]) == [n[i..i + w]] + Split(n[i + w..])
  {
    var t := n[i..];
    w := WordLen(t);
    assert t[..w] == n[i..i + w];
    assert t[w..] == n[i + w..];
    forall j | i <= j < i + w ensures IsWordChar(n[j]) {
      assert n[j] == t[j - i];
    }
    if i + w < |n| {
      assert n[i + w] == t[w];
    }
  }

  /** A whole word of two to four digits is reported, and the scan resumes after it. */
  lemma ScanAtShortNumber(n: string, i: nat, w: nat)
    requires i + w <= |n| && IsShortNumber(n[i..i + w])
    requires i == 0 || n[i - 1] == ' '
    requires i + w == |n| || n[i + w] == ' '
    ensures ShortNumbersFrom(n, i) == [n[i..i + w]] + ShortNumbersFrom(n, i + w)
  {
    forall j | i <= j < i + w ensures IsDigit(n[j]) {
      assert n[j] == n[i..i + w][j - i];
    }
    DigitRunCoversWord(n, i, w);
    assert Boundary(n, i);
  }

  lemma {:induction false} DigitRunCoversWord(n: string, i: nat, w: nat)
    requires i + w <= |n|
    requires forall j :: i <= j < i + w ==> IsDigit(n[j])
    requires i + w == |n| || n[i + w] == ' '
    ensures DigitRunLen(n, i) == w
    decreases w
  {
    if w > 0 {
      DigitRunCoversWord(n, i + 1, w - 1);
    }
  }

  /** A word that is not a short number yields no match, and no match starts inside it. */
  lemma NoShortNumberInsideWord(n: string, i: nat, w: nat)
    requires 0 < w && i + w <= |n|
    requires forall j :: i <= j < i + w ==> IsWordChar(n[j])
    requires i + w == |n| || n[i + w] == ' '
    requires !IsShortNumber(n[i..i + w])
    ensures ShortNumbersFrom(n, i) == ShortNumbersFrom(n, i + w)
  {
    var k := DigitRunLen(n, i);
    if k < w {
      assert IsWordChar(n[i + k]);
    } else if k == w {
      var word := n[i..i + w];
      forall j | 0 <= j < w ensures IsDigit(word[j]) {
        assert word[j] == n[i + j];
      }
      assert !(2 <= k <= 4);
    } else {
      assert false;
    }
    ScanSkips(n, i);
    InsideWordNoMatch(n, i + 1, i + w);
  }

  /** Where no match starts, the scan moves on by one character. */
  lemma ScanSkips(n: string, i: nat)
    requires i < |n|
    requires var k := DigitRunLen(n, i);
             !(2 <= k <= 4 && (i + k == |n| || !IsWordChar(n[i + k])))
    ensures ShortNumbersFrom(n, i) == ShortNumbersFrom(n, i + 1)
  {
  }

  lemma {:induction false} InsideWordNoMatch(n: string, j: nat, end: nat)
    requires 0 < j <= end <= |n|
    requires forall m :: j - 1 <= m < end ==> IsWordChar(n[m])
    ensures ShortNumbersFrom(n, j) == ShortNumbersFrom(n, end)
    decreases end - j
  {
    if j < end {
      assert !Boundary(n, j);
      assert ShortNumbersFrom(n, j) == ShortNumbersFrom(n, j + 1);
      InsideWordNoMatch(n, j + 1, end);
    }
  }

  // ---------------------------------------------------------------- the fuzzy score

  /** What the score cannot see inside: the element `list(set)[0]` that the code takes as the brand
      (a fixed but unspecified choice among the search term's tokens) and the `difflib` sequence ratio. */
  datatype Scorer = Scorer(brandOf: string -> string, seqRatio: (string, string) -> real) {
    ghost predicate Valid() {
      && (forall s :: GetWordTokens(s) != {} ==> brandOf(s) in GetWordTokens(s))
      && (forall a, b :: 0.0 <= seqRatio(a, b) <= 1.0)
    }
  }

  /** `|a & b| / |a | b|`, or 0 when both sets are empty. */
  function Jaccard(a: set<string>, b: set<string>): (r: real)
    ensures 0.0 <= r <= 1.0
  {
    if a + b == {} then 0.0
    else
      SubsetCard(a * b, a + b);
      (|a * b| as real) / (|a + b| as real)
  }

  lemma {:induction false} SubsetCard(x: set<string>, y: set<string>)
    requires x <= y
    ensures |x| <= |y|
    decreases |y|
  {
    if x != {} {
      var e :| e in x;
      SubsetCard(x - {e}, y - {e});
    }
  }

  /** `jaccard * 0.6 + sequence_ratio * 0.4` */
  function Blend(searchWords: set<string>, titleWords: set<string>, ratio: real): real {
    Jaccard(searchWords, titleWords) * 0.6 + ratio * 0.4
  }

  const BrandMismatch: real := 0.1
  const NumberMismatch: real := 0.15

  /** The gates of `fuzzy_match_score` after the containment shortcut, over the token sets, the
      chosen brand, the 2-4 digit numbers and the sequence ratio of the two normalised texts. */
  function GatedScore(sw: set<string>, tw: set<string>, brand: string, sNums: set<string>, tNums: set<string>, ratio: real): (r: real)
    requires 0.0 <= ratio <= 1.0
    ensures 0.0 <= r <= 1.0
  {
    if sw == {} then 0.0
    else if brand == "" || brand !in tw then BrandMismatch
    else if sNums != {} && sNums * tNums == {} then NumberMismatch
    else Blend(sw, tw, ratio)
  }

  /** `fuzzy_match_score(search_term, listing_title)` */
  function FuzzyMatchScore(searchTerm: string, title: string, sc: Scorer): (r: real)
    requires sc.Valid()
    ensures 0.0 <= r <= 1.0
  {
    var sn, tn := NormalizeText(searchTerm), NormalizeText(title);
    if Contains(tn, sn) || Contains(sn, tn) then 1.0
    else
      GatedScore(GetWordTokens(searchTerm), GetWordTokens(title), sc.brandOf(searchTerm),
                 ShortNumbers(sn), ShortNumbers(tn), sc.seqRatio(sn, tn))
  }

  /** Neither normalised string contains the other; the containment shortcut does not fire. */
  predicate NoContainment(searchTerm: string, title: string) {
    !Contains(NormalizeText(title), NormalizeText(searchTerm)) && !Contains(NormalizeText(searchTerm), NormalizeText(title))
  }

  /** Past the shortcut the score is decided by the gates. */
  lemma BeyondShortcut(searchTerm: string, title: string, sc: Scorer)
    requires sc.Valid() && NoContainment(searchTerm, title)
    ensures var sn, tn := NormalizeText(searchTerm), NormalizeText(title);
            FuzzyMatchScore(searchTerm, title, sc) ==
            GatedScore(GetWordTokens(searchTerm), GetWordTokens(title), sc.brandOf(searchTerm),
                       ShortNumbers(sn), ShortNumbers(tn), sc.seqRatio(sn, tn))
  {
  }

  /** The shortcut fires whenever one normalised text contains the other, including when either is
      empty, so an empty search term or a punctuation-only title scores 1.0. */
  lemma ContainmentScoresOne(searchTerm: string, title: string, sc: Scorer)
    requires sc.Valid()
    requires NormalizeText(searchTerm) == "" || NormalizeText(title) == "" || !NoContainment(searchTerm, title)
    ensures FuzzyMatchScore(searchTerm, title, sc) == 1.0
  {
    ContainsEmpty(NormalizeText(searchTerm));
    ContainsEmpty(NormalizeText(title));
  }

  /** A search term scores 1.0 against any title that repeats it up to case, punctuation and spacing. */
  lemma SameTextScoresOne(searchTerm: string, title: string, sc: Scorer)
    requires sc.Valid()
    requires NormalizeText(searchTerm) == NormalizeText(title)
    ensures FuzzyMatchScore(searchTerm, title, sc) == 1.0
  {
    ContainsSelf(NormalizeText(title));
  }

  /** Past the shortcut, a search term without tokens scores 0.0. */
  lemma NoSearchTokensScoresZero(searchTerm: string, title: string, sc: Scorer)
    requires sc.Valid() && NoContainment(searchTerm, title)
    requires GetWordTokens(searchTerm) == {}
    ensures FuzzyMatchScore(searchTerm, title, sc) == 0.0
  {
  }

  /** Past the shortcut, a title sharing no token with the search term fails the brand gate,
      whichever token the code takes as the brand. */
  lemma DisjointTokensScoreBrandMismatch(searchTerm: string, title: string, sc: Scorer)
    requires sc.Valid() && NoContainment(searchTerm, title)
    requires GetWordTokens(searchTerm) != {}
    requires GetWordTokens(searchTerm) * GetWordTokens(title) == {}
    ensures FuzzyMatchScore(searchTerm, title, sc) == BrandMismatch
  {
    BeyondShortcut(searchTerm, title, sc);
    var sw, tw := GetWordTokens(searchTerm), GetWordTokens(title);
    var brand := sc.brandOf(searchTerm);
    assert brand in sw;
    assert brand !in tw by {
      assert brand !in sw * tw;
    }
  }

  /** When every search token is a title token the brand gate cannot fire: the score is the number
      mismatch or the blend, and the blend's Jaccard part is |S| / |T|. */
  lemma SubsetPassesBrandGate(searchTerm: string, title: string, sc: Scorer)
    requires sc.Valid() && NoContainment(searchTerm, title)
    requires GetWordTokens(searchTerm) != {}
    requires GetWordTokens(searchTerm) <= GetWordTokens(title)
    ensures var sw, tw := GetWordTokens(searchTerm), GetWordTokens(title);
            var r := FuzzyMatchScore(searchTerm, title, sc);
            r == NumberMismatch ||
            r == (|sw| as real / |tw| as real) * 0.6 + sc.seqRatio(NormalizeText(searchTerm), NormalizeText(title)) * 0.4
  {
    BeyondShortcut(searchTerm, title, sc);
    var sw, tw := GetWordTokens(searchTerm), GetWordTokens(title);
    var brand := sc.brandOf(searchTerm);
    assert brand in sw;
    assert |brand| > 1;
    var sn, tn := NormalizeText(searchTerm), NormalizeText(title);
    GatedSubset(sw, tw, brand, ShortNumbers(sn), ShortNumbers(tn), sc.seqRatio(sn, tn));
  }

  lemma GatedSubset(sw: set<string>, tw: set<string>, brand: string, sNums: set<string>, tNums: set<string>, ratio: real)
    requires 0.0 <= ratio <= 1.0
    requires brand != "" && brand in sw && sw <= tw
    ensures var r := GatedScore(sw, tw, brand, sNums, tNums, ratio);
            r == NumberMismatch || r == (|sw| as real / |tw| as real) * 0.6 + ratio * 0.4
  {
    assert sw * tw == sw && sw + tw == tw;
  }

  /** With the brand among the title tokens, a search term whose 2-4 digit words all miss the
      title's 2-4 digit words scores exactly 0.15. */
  lemma NumberGate(searchTerm: string, title: string, sc: Scorer)
    requires sc.Valid() && NoContainment(searchTerm, title)
    requires GetWordTokens(searchTerm) != {} && sc.brandOf(searchTerm) in GetWordTokens(title)
    requires exists w :: w in Split(NormalizeText(searchTerm)) && IsShortNumber(w)
    requires forall w :: w in Split(NormalizeText(searchTerm)) && IsShortNumber(w) ==> w !in Split(NormalizeText(title))
    ensures FuzzyMatchScore(searchTerm, title, sc) == NumberMismatch
  {
    BeyondShortcut(searchTerm, title, sc);
    var sn, tn := NormalizeText(searchTerm), NormalizeText(title);
    ShortNumbersAreWords(sn);
    ShortNumbersAreWords(tn);
    var w :| w in Split(sn) && IsShortNumber(w);
    assert w in ShortNumbers(sn);
    assert ShortNumbers(sn) * ShortNumbers(tn) == {};
    var brand := sc.brandOf(searchTerm);
    assert brand in GetWordTokens(searchTerm);
    assert |brand| > 1;
  }

  /** When the gates pass, the score is 0.6 * Jaccard + 0.4 * ratio. */
  lemma GatesPassedBlend(searchTerm: string, title: string, sc: Scorer)
    requires sc.Valid() && NoContainment(searchTerm, title)
    requires GetWordTokens(searchTerm) != {} && sc.brandOf(searchTerm) in GetWordTokens(title)
    requires var sn, tn := ShortNumbers(NormalizeText(searchTerm)), ShortNumbers(NormalizeText(title));
             sn == {} || sn * tn != {}
    ensures FuzzyMatchScore(searchTerm, title, sc)
         == Jaccard(GetWordTokens(searchTerm), GetWordTokens(title)) * 0.6
          + sc.seqRatio(NormalizeText(searchTerm), NormalizeText(title)) * 0.4
  {
    BeyondShortcut(searchTerm, title, sc);
    var brand := sc.brandOf(searchTerm);
    assert brand in GetWordTokens(searchTerm);
    assert |brand| > 1;
  }

  // ---------------------------------------------------------------- the threshold test

  /** `is_relevant_match(search_term, listing_title, min_match_ratio)`; callers that omit the
      ratio pass `Config.GumtreeThreshold`, the code's default of 0.435. */
  function IsRelevantMatch(searchTerm: string, title: string, minMatchRatio: real, sc: Scorer): bool
    requires sc.Valid()
  {
    FuzzyMatchScore(searchTerm, title, sc) >= minMatchRatio
  }

  /** A title that fails a gate is rejected at every threshold above 0.15; a contained title is
      accepted at every threshold up to 1.0. */
  lemma GatesDecideAbove(searchTerm: string, title: string, m: real, sc: Scorer)
    requires sc.Valid() && NumberMismatch < m <= 1.0
    ensures !NoContainment(searchTerm, title) ==> IsRelevantMatch(searchTerm, title, m, sc)
    ensures FuzzyMatchScore(searchTerm, title, sc) <= NumberMismatch ==> !IsRelevantMatch(searchTerm, title, m, sc)
    ensures NoContainment(searchTerm, title) && GetWordTokens(searchTerm) * GetWordTokens(title) == {}
            ==> !IsRelevantMatch(searchTerm, title, m, sc)
  {
    if NoContainment(searchTerm, title) && GetWordTokens(searchTerm) * GetWordTokens(title) == {} {
      if GetWordTokens(searchTerm) != {} {
        DisjointTokensScoreBrandMismatch(searchTerm, title, sc);
      }
    }
  }

  /** The two thresholds the code hands to `is_relevant_match` (its default 0.435 and the WeBuyCars
      0.4575) both lie above the gate scores 0.0, 0.1 and 0.15: at either one a contained title is
      accepted, and a title that shares no token with the search term, or that fails any gate, is
      rejected. */
  lemma GatesDecideAtConfiguredThresholds(searchTerm: string, title: string, sc: Scorer)
    requires sc.Valid()
    ensures !NoContainment(searchTerm, title) ==>
              IsRelevantMatch(searchTerm, title, Config.GumtreeThreshold, sc) &&
              IsRelevantMatch(searchTerm, title, Config.WebuycarsThreshold, sc)
    ensures FuzzyMatchScore(searchTerm, title, sc) in {0.0, BrandMismatch, NumberMismatch} ==>
              !IsRelevantMatch(searchTerm, title, Config.GumtreeThreshold, sc) &&
              !IsRelevantMatch(searchTerm, title, Config.WebuycarsThreshold, sc)
    ensures NoContainment(searchTerm, title) && GetWordTokens(searchTerm) * GetWordTokens(title) == {} ==>
              !IsRelevantMatch(searchTerm, title, Config.GumtreeThreshold, sc) &&
              !IsRelevantMatch(searchTerm, title, Config.WebuycarsThreshold, sc)
  {
    GatesDecideAbove(searchTerm, title, Config.GumtreeThreshold, sc);
    GatesDecideAbove(searchTerm, title, Config.WebuycarsThreshold, sc);
  }

  // ---------------------------------------------------------------- the AutoTrader test

  /** `sum(1 for word in words if word in hay)` */
  function CountContained(words: seq<string>, hay: string): (n: nat)
    ensures n <= |words|
  {
    if words == [] then 0 else (if Contains(hay, words[0]) then 1 else 0) + CountContained(words[1..], hay)
  }

  /** `word.replace(',', '').replace('.', '').isdigit()` */
  predicate IsNumberWord(w: string) {
    IsDigits(RemoveChar(RemoveChar(w, ','), '.'))
  }

  /** `has_number`: some model word is a number once ',' and '.' are dropped. */
  predicate HasNumberWord(words: seq<string>) {
    exists i :: 0 <= i < |words| && IsNumberWord(words[i])
  }

  /** The number gate: the model has a number word and digits, none of whose digit runs occur in the title. */
  predicate AutotraderNumberMismatch(model: string, title: string) {
    HasNumberWord(Split(model)) && DigitRuns(model) != {} && DigitRuns(model) * DigitRuns(title) == {}
  }

  /** `matching_words / len(model_words) >= MATCH_THRESHOLDS['autotrader']`, 1.0 for no words. */
  predicate WordRatioAccepts(words: seq<string>, titleLower: string) {
    var ratio := if |words| > 0 then CountContained(words, titleLower) as real / |words| as real else 1.0;
    ratio >= Config.AutotraderThreshold
  }

  /** `is_relevant_autotrader_match(listing_title, search_term)` */
  function IsRelevantAutotraderMatch(title: string, searchTerm: string): bool {
    var parts := SplitMax1(searchTerm);
    if |parts| < 2 then true
    else
      var model := Lower(parts[1]);
      !AutotraderNumberMismatch(model, title) && WordRatioAccepts(Split(model), Lower(title))
  }

  /** The model part of a search term: everything after the brand, lower-cased. */
  function ModelPart(searchTerm: string): string {
    var parts := SplitMax1(searchTerm);
    if |parts| < 2 then "" else Lower(parts[1])
  }

  /** A term that is only a brand cannot be checked and is accepted. */
  lemma AutotraderBrandOnlyAccepts(title: string, searchTerm: string)
    requires |Split(searchTerm)| < 2
    ensures IsRelevantAutotraderMatch(title, searchTerm)
  {
    SplitMax1Count(searchTerm);
  }

  /** A model word that is a number (after dropping ',' and '.') obliges the title to share a
      digit run with the model; otherwise the title is rejected whatever its words. */
  lemma AutotraderNumberGate(title: string, searchTerm: string)
    requires |Split(searchTerm)| >= 2
    requires HasNumberWord(Split(ModelPart(searchTerm)))
    requires DigitRuns(ModelPart(searchTerm)) * DigitRuns(title) == {}
    ensures !IsRelevantAutotraderMatch(title, searchTerm)
  {
    SplitMax1Count(searchTerm);
    var model := ModelPart(searchTerm);
    var i :| 0 <= i < |Split(model)| && IsNumberWord(Split(model)[i]);
    NumberWordHasDigitRun(model, Split(model)[i]);
  }

  /** A number word of the model contributes a digit run of the model. */
  lemma NumberWordHasDigitRun(model: string, w: string)
    requires w in Split(model) && IsNumberWord(w)
    ensures DigitRuns(model) != {}
  {
    var d := RemoveChar(RemoveChar(w, ','), '.');
    RemoveCharMembers(w, ',');
    RemoveCharMembers(RemoveChar(w, ','), '.');
    assert d[0] in d;
    assert d[0] in w;
    SplitChars(model);
    assert d[0] in model;
    var p :| 0 <= p < |model| && model[p] == d[0];
    DigitRunsReach(model, 0, p);
    assert DigitRunsFrom(model, 0)[0] in DigitRuns(model);
  }

  /** A digit at or after position `i` starts or lies within some run that the scan reports. */
  lemma {:induction false} DigitRunsReach(s: string, i: nat, p: nat)
    requires i <= p < |s| && IsDigit(s[p])
    ensures DigitRunsFrom(s, i) != []
    decreases |s| - i
  {
    var k := DigitRunLen(s, i);
    if k == 0 {
      assert i != p;
      DigitRunsReach(s, i + 1, p);
    }
  }

  /** The ratio test accepts exactly when at least half of the words occur in the title. */
  lemma WordRatioHalf(words: seq<string>, titleLower: string)
    ensures WordRatioAccepts(words, titleLower) <==> 2 * CountContained(words, titleLower) >= |words|
  {
    if |words| > 0 {
      HalfRatio(CountContained(words, titleLower) as real, |words| as real);
    }
  }

  /** For a positive denominator, `c / n >= 0.5` is `2c >= n`. */
  lemma HalfRatio(c: real, n: real)
    requires n > 0.0
    ensures c / n >= 0.5 <==> 2.0 * c >= n
  {
    var q := c / n;
    assert q * n == c;
    if q >= 0.5 {
      ProductNonnegative(q - 0.5, n);
    } else {
      ProductNonnegative(0.5 - q, n);
      assert (0.5 - q) * n != 0.0;
    }
  }

  lemma ProductNonnegative(a: real, b: real)
    requires a >= 0.0 && b >= 0.0
    ensures a * b >= 0.0
  {
  }

  /** Past the number gate the title is accepted exactly when at least half of the model words occur
      in the lower-cased title as substrings (not necessarily as whole words). */
  lemma AutotraderWordRatio(title: string, searchTerm: string)
    requires |Split(searchTerm)| >= 2
    requires !AutotraderNumberMismatch(ModelPart(searchTerm), title)
    ensures var words := Split(ModelPart(searchTerm));
            IsRelevantAutotraderMatch(title, searchTerm) <==> 2 * CountContained(words, Lower(title)) >= |words|
  {
    SplitMax1Count(searchTerm);
    WordRatioHalf(Split(ModelPart(searchTerm)), Lower(title));
  }
}
