/** Alternative spellings of a "Brand Model" search term (utils/search_variation_generator.py). */
module SearchVariations {
  import opened Text
  import opened Basics

  // ---------------------------------------------------------------- the five rules

  /** Suffixes rule 4 removes, compared after `upper()`. */
  predicate IsFiller(p: string) {
    Upper(p) in {"SX", "GS", "X", "SE", "ABS"}
  }

  /** `[p for p in parts if p.upper() not in [...]]` */
  function DropFillers(parts: seq<string>): (r: seq<string>)
    ensures |r| <= |parts|
    ensures forall p :: p in r ==> p in parts && !IsFiller(p)
  {
    if parts == [] then []
    else (if IsFiller(parts[0]) then [] else [parts[0]]) + DropFillers(parts[1..])
  }

  /** Index of the first model token containing a digit: the token rule 3 picks. */
  function FirstDigitIndex(parts: seq<string>): (r: Option<nat>)
    ensures r.Some? ==> r.value < |parts| && HasDigit(parts[r.value]) &&
                        forall j :: 0 <= j < r.value ==> !HasDigit(parts[j])
    ensures r.None? ==> forall j :: 0 <= j < |parts| ==> !HasDigit(parts[j])
  {
    if parts == [] then None
    else if HasDigit(parts[0]) then Some(0)
    else match FirstDigitIndex(parts[1..])
      case None => None
      case Some(k) => Some(k + 1)
  }

  /** A candidate is the brand, one space, and a rewritten model. */
  function Variant(brand: string, model: string): string {
    brand + " " + model
  }

  /** Rule 1: the model without hyphens, when it had any. */
  function Rule1(brand: string, model: seq<string>): seq<string> {
    var noHyphens := RemoveChar(Join(model, " "), '-');
    if noHyphens != Join(model, " ") then [Variant(brand, noHyphens)] else []
  }

  /** Rule 2: the first model word alone, when there are several. */
  function Rule2(brand: string, model: seq<string>): seq<string> {
    if |model| > 1 then [Variant(brand, model[0])] else []
  }

  /** Rule 3: the first model word that contains a digit. */
  function Rule3(brand: string, model: seq<string>): seq<string> {
    match FirstDigitIndex(model)
    case None => []
    case Some(i) => [Variant(brand, model[i])]
  }

  /** Rule 4: the model without filler suffixes, unless nothing or everything was removed. */
  function Rule4(brand: string, model: seq<string>): seq<string> {
    var trimmed := Join(DropFillers(model), " ");
    if trimmed != "" && trimmed != Join(model, " ") then [Variant(brand, trimmed)] else []
  }

  /** Rule 5: the model words run together, when there are several and one is a number. */
  function Rule5(brand: string, model: seq<string>): seq<string> {
    if |model| >= 2 && (exists i :: 0 <= i < |model| && IsDigits(model[i])) then
      var combined := Concat(model);
      if combined != Join(model, " ") then [Variant(brand, combined)] else []
    else []
  }

  /** The list `variations` before de-duplication: the term itself, then rules 1 to 5. */
  function Candidates(searchTerm: string): (r: seq<string>)
    ensures |r| >= 1 && r[0] == searchTerm
    ensures |r| <= 6
  {
    var parts := Split(searchTerm);
    if |parts| < 2 then [searchTerm]
    else
      var brand, model := parts[0], parts[1..];
      [searchTerm] + Rule1(brand, model) + Rule2(brand, model) + Rule3(brand, model)
                   + Rule4(brand, model) + Rule5(brand, model)
  }

  // ---------------------------------------------------------------- de-duplication

  /** The lower-cased forms of a list of strings. */
  function LowerSet(xs: seq<string>): set<string> {
    set i | 0 <= i < |xs| :: Lower(xs[i])
  }

  /** Keep each string whose lower-cased form has not been kept before, in order. */
  function Dedup(xs: seq<string>): (r: seq<string>)
    ensures |r| <= |xs|
  {
    if xs == [] then []
    else
      var kept := Dedup(xs[..|xs| - 1]);
      var x := xs[|xs| - 1];
      if Lower(x) in LowerSet(kept) then kept else kept + [x]
  }

  lemma LowerSetSnoc(xs: seq<string>, x: string)
    ensures LowerSet(xs + [x]) == LowerSet(xs) + {Lower(x)}
  {
    var ys := xs + [x];
    forall y | y in LowerSet(ys) ensures y in LowerSet(xs) + {Lower(x)} {
      var i :| 0 <= i < |ys| && Lower(ys[i]) == y;
      if i < |xs| {
        assert ys[i] == xs[i];
      }
    }
    forall y | y in LowerSet(xs) ensures y in LowerSet(ys) {
      var i :| 0 <= i < |xs| && Lower(xs[i]) == y;
      assert ys[i] == xs[i];
    }
    assert ys[|xs|] == x;
  }

  /** De-duplication forgets no spelling: every lower-cased form of the input is kept once. */
  lemma {:induction false} DedupCovers(xs: seq<string>)
    ensures LowerSet(Dedup(xs)) == LowerSet(xs)
  {
    if xs != [] {
      var init, x := xs[..|xs| - 1], xs[|xs| - 1];
      assert xs == init + [x];
      DedupCovers(init);
      LowerSetSnoc(init, x);
      if Lower(x) !in LowerSet(Dedup(init)) {
        LowerSetSnoc(Dedup(init), x);
      }
    }
  }

  /** A string is kept exactly when no earlier string has the same lower-cased form. */
  lemma DedupStep(xs: seq<string>, x: string)
    ensures Dedup(xs + [x]) == Dedup(xs) + (if Lower(x) in LowerSet(xs) then [] else [x])
  {
    assert (xs + [x])[..|xs + [x]| - 1] == xs;
    DedupCovers(xs);
  }

  /** No two strings of `xs` are equal ignoring case. */
  predicate Distinct(xs: seq<string>) {
    forall i, j :: 0 <= i < j < |xs| ==> Lower(xs[i]) != Lower(xs[j])
  }

  /** No two kept strings are equal ignoring case. */
  lemma {:induction false} DedupDistinct(xs: seq<string>)
    ensures Distinct(Dedup(xs))
  {
    if xs != [] {
      var init := xs[..|xs| - 1];
      DedupDistinct(init);
      var kept := Dedup(init);
      var x := xs[|xs| - 1];
      if Lower(x) !in LowerSet(kept) {
        var r := kept + [x];
        assert Dedup(xs) == r;
        forall i, j | 0 <= i < j < |r| ensures Lower(r[i]) != Lower(r[j]) {
          assert r[i] == kept[i];
          if j == |kept| {
            assert r[j] == x;
            assert Lower(kept[i]) in LowerSet(kept);
          } else {
            assert r[j] == kept[j];
          }
        }
      }
    }
  }

  /** The first input is kept first, and every later kept string comes from the later inputs. */
  lemma {:induction false} DedupFirst(xs: seq<string>)
    requires xs != []
    ensures var r := Dedup(xs);
            r != [] && r[0] == xs[0] && forall k :: 1 <= k < |r| ==> r[k] in xs[1..]
  {
    var init, x := xs[..|xs| - 1], xs[|xs| - 1];
    var kept := Dedup(init);
    assert Dedup(xs) == kept || Dedup(xs) == kept + [x];
    if init == [] {
      assert kept == [];
      assert Lower(x) !in LowerSet(kept);
    } else {
      DedupFirst(init);
      var r := Dedup(xs);
      assert init[0] == xs[0];
      forall k | 1 <= k < |r| ensures r[k] in xs[1..] {
        if k < |kept| {
          assert r[k] in init[1..];
          var m :| 0 <= m < |init[1..]| && init[1..][m] == r[k];
          assert xs[1..][m] == r[k];
        } else {
          assert xs[1..][|xs| - 2] == r[k];
        }
      }
    }
  }

  // ---------------------------------------------------------------- the generator

  /** The de-duplication loop of `generate_search_variations`: a `seen` set of lower-cased
      spellings and the list of strings kept so far. */
  method KeepFirstSpellings(variations: seq<string>) returns (unique: seq<string>)
    ensures unique == Dedup(variations)
  {
    var seen: set<string> := {};
    unique := [];
    for k := 0 to |variations|
      invariant unique == Dedup(variations[..k])
      invariant seen == LowerSet(unique)
    {
      var v := variations[k];
      assert variations[..k + 1] == variations[..k] + [v];
      DedupStep(variations[..k], v);
      DedupCovers(variations[..k]);
      var vLower := Lower(v);
      if vLower !in seen {
        LowerSetSnoc(unique, v);
        seen := seen + {vLower};
        unique := unique + [v];
      }
    }
    assert variations[..|variations|] == variations;
    return unique;
  }

  /** `generate_search_variations(search_term)` */
  method GenerateSearchVariations(searchTerm: string) returns (r: seq<string>)
    ensures r == Dedup(Candidates(searchTerm))
  {
    var variations := [searchTerm];
    var parts := Split(searchTerm);
    if |parts| < 2 {
      return variations;
    }
    var brand, modelParts := parts[0], parts[1..];
    var modelStr := Join(modelParts, " ");

    var noHyphens := RemoveChar(modelStr, '-');
    if noHyphens != modelStr {
      variations := variations + [brand + " " + noHyphens];
    }
    assert variations == [searchTerm] + Rule1(brand, modelParts);

    if |modelParts| > 1 {
      variations := variations + [brand + " " + modelParts[0]];
    }
    assert variations == [searchTerm] + Rule1(brand, modelParts) + Rule2(brand, modelParts);

    ghost var beforeRule3 := variations;
    for i := 0 to |modelParts|
      invariant variations == beforeRule3
      invariant forall j :: 0 <= j < i ==> !HasDigit(modelParts[j])
    {
      if HasDigit(modelParts[i]) {
        variations := variations + [brand + " " + modelParts[i]];
        assert FirstDigitIndex(modelParts) == Some(i);
        break;
      }
    }
    assert variations == beforeRule3 + Rule3(brand, modelParts);

    var trimmed := Join(DropFillers(modelParts), " ");
    if trimmed != "" && trimmed != modelStr {
      variations := variations + [brand + " " + trimmed];
    }
    ghost var beforeRule5 := variations;
    assert beforeRule5 == beforeRule3 + Rule3(brand, modelParts) + Rule4(brand, modelParts);

    if |modelParts| >= 2 && (exists k :: 0 <= k < |modelParts| && IsDigits(modelParts[k])) {
      var combined := Concat(modelParts);
      if combined != modelStr {
        variations := variations + [brand + " " + combined];
      }
    }
    assert variations == beforeRule5 + Rule5(brand, modelParts);
    assert variations == Candidates(searchTerm);

    r := KeepFirstSpellings(variations);
  }

  // ---------------------------------------------------------------- properties

  /** The term itself comes first, unchanged. */
  lemma OriginalFirst(searchTerm: string)
    ensures var r := Dedup(Candidates(searchTerm));
            r != [] && r[0] == searchTerm
  {
    DedupFirst(Candidates(searchTerm));
  }

  /** A term of fewer than two words has no variations. */
  lemma SingleWordTerm(searchTerm: string)
    requires |Split(searchTerm)| < 2
    ensures Dedup(Candidates(searchTerm)) == [searchTerm]
  {
    assert [searchTerm][..0] == [];
  }

  /** At most six variations, none repeating another up to case. */
  lemma VariationsBounded(searchTerm: string)
    ensures var r := Dedup(Candidates(searchTerm));
            |r| <= 6 && Distinct(r)
  {
    DedupDistinct(Candidates(searchTerm));
  }

  /** `s` begins with `brand` and a space. */
  predicate HasBrandPrefix(brand: string, s: string) {
    |s| > |brand| && s[..|brand| + 1] == brand + " "
  }

  lemma VariantHasBrandPrefix(brand: string, model: string)
    ensures HasBrandPrefix(brand, Variant(brand, model))
  {
    assert Variant(brand, model)[..|brand| + 1] == brand + " ";
  }

  lemma {:induction false} RulesHaveBrandPrefix(brand: string, model: seq<string>)
    ensures var rest := Rule1(brand, model) + Rule2(brand, model) + Rule3(brand, model)
                        + Rule4(brand, model) + Rule5(brand, model);
            forall x :: x in rest ==> HasBrandPrefix(brand, x)
  {
    VariantHasBrandPrefix(brand, RemoveChar(Join(model, " "), '-'));
    if |model| > 1 {
      VariantHasBrandPrefix(brand, model[0]);
    }
    if FirstDigitIndex(model).Some? {
      VariantHasBrandPrefix(brand, model[FirstDigitIndex(model).value]);
    }
    VariantHasBrandPrefix(brand, Join(DropFillers(model), " "));
    VariantHasBrandPrefix(brand, Concat(model));
  }

  /** Every variation after the first is the term's first word, a space, and a rewritten model. */
  lemma VariantsStartWithBrand(searchTerm: string)
    requires |Split(searchTerm)| >= 2
    ensures var r, brand := Dedup(Candidates(searchTerm)), Split(searchTerm)[0];
            forall k :: 1 <= k < |r| ==> HasBrandPrefix(brand, r[k])
  {
    var c := Candidates(searchTerm);
    var parts := Split(searchTerm);
    DedupFirst(c);
    RulesHaveBrandPrefix(parts[0], parts[1..]);
  }

  /** Filtering keeps a model without filler words as it is. */
  lemma {:induction false} DropFillersKeepsPlain(model: seq<string>)
    requires forall p :: p in model ==> !IsFiller(p)
    ensures DropFillers(model) == model
  {
    if model != [] {
      assert model[0] in model;
      assert forall p :: p in model[1..] ==> p in model;
      DropFillersKeepsPlain(model[1..]);
    }
  }

  /** Rule 4 adds nothing for a model without filler words, nor for one made only of them. */
  lemma Rule4Guard(brand: string, model: seq<string>)
    requires (forall p :: p in model ==> !IsFiller(p)) || (forall p :: p in model ==> IsFiller(p))
    ensures Rule4(brand, model) == []
  {
    if forall p :: p in model ==> !IsFiller(p) {
      DropFillersKeepsPlain(model);
    } else {
      DropFillersAll(model);
    }
  }

  lemma {:induction false} DropFillersAll(model: seq<string>)
    requires forall p :: p in model ==> IsFiller(p)
    ensures DropFillers(model) == []
  {
    if model != [] {
      assert model[0] in model;
      assert forall p :: p in model[1..] ==> p in model;
      DropFillersAll(model[1..]);
    }
  }

  /** Joining two or more words with spaces leaves a space that joining them with nothing does not. */
  lemma JoinedDiffersFromConcat(ws: seq<string>)
    requires |ws| >= 2 && forall w :: w in ws ==> IsToken(w)
    ensures Concat(ws) != Join(ws, " ")
  {
    assert ws[0] in ws;
    var j := Join(ws, " ");
    assert j[|ws[0]|] == ' ';
    ConcatHasNoSpace(ws);
  }

  lemma {:induction false} ConcatHasNoSpace(ws: seq<string>)
    requires forall w :: w in ws ==> IsToken(w)
    ensures ' ' !in Concat(ws)
  {
    if ws != [] {
      assert ws[0] in ws;
      ConcatHasNoSpace(ws[1..]);
    }
  }

  /** Rule 5 contributes exactly when the model has two or more words and one of them is all digits. */
  lemma Rule5Fires(brand: string, model: seq<string>)
    requires forall w :: w in model ==> IsToken(w)
    ensures Rule5(brand, model) != [] <==> |model| >= 2 && exists i :: 0 <= i < |model| && IsDigits(model[i])
  {
    if |model| >= 2 {
      JoinedDiffersFromConcat(model);
    }
  }

  /** Rule 1 has no guard against an empty result: a model made of hyphens yields the brand and a
      bare space, and no other rule adds anything. */
  lemma HyphenOnlyModel(brand: string, hyphens: string)
    requires IsToken(brand) && IsToken(hyphens) && forall i :: 0 <= i < |hyphens| ==> hyphens[i] == '-'
    ensures Rule1(brand, [hyphens]) == [brand + " "]
    ensures Candidates(brand + " " + hyphens) == [brand + " " + hyphens, brand + " "]
  {
    HyphensRemoved(hyphens);
    assert Join([hyphens], " ") == hyphens;
    assert Variant(brand, []) == brand + " ";
    SplitJoin([brand, hyphens]);
    assert Join([brand, hyphens], " ") == brand + " " + hyphens;
    assert Split(brand + " " + hyphens)[1..] == [hyphens];
    assert !HasDigit(hyphens);
    assert Upper(hyphens)[0] == '-';
    OneWordRules(brand, hyphens);
  }

  /** A one-word model without digits that is not a filler gets nothing from rules 2 to 5. */
  lemma OneWordRules(brand: string, w: string)
    requires !HasDigit(w) && !IsFiller(w)
    ensures Rule2(brand, [w]) == [] && Rule3(brand, [w]) == [] && Rule4(brand, [w]) == [] && Rule5(brand, [w]) == []
  {
    assert FirstDigitIndex([w]) == None;
    DropFillersKeepsPlain([w]);
  }

  lemma {:induction false} HyphensRemoved(s: string)
    requires forall i :: 0 <= i < |s| ==> s[i] == '-'
    ensures RemoveChar(s, '-') == []
  {
    if s != [] {
      HyphensRemoved(s[1..]);
    }
  }
}
