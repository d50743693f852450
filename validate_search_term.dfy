/** Checking a search term before it is used (utils/validate_search_term.py). */
module ValidateSearchTerm {
  import opened Text
  import opened Basics
  import opened Records

  /** The pair `(is_valid, error_message)`. */
  datatype Verdict = Verdict(valid: bool, message: Option<string>)

  const EmptyMessage: string := "Search term is empty"

  /** The only `required_format` that triggers the word-count check. */
  const BrandModel: Value := Str("Brand Model")

  /** `'{term}'` */
  function Quoted(term: string): string {
    "'" + term + "'"
  }

  function FormatMessage(term: string): string {
    "Invalid format: " + Quoted(term) + " (Expected: Brand Model, e.g., 'Honda CB500X')"
  }

  /** A missing term (`None`), or one that is empty once stripped. */
  predicate IsBlankTerm(searchTerm: Option<string>) {
    searchTerm.None? || Strip(searchTerm.value) == []
  }

  /** `validate_search_term(search_term, required_format)`; the default format is `Bool(true)`. */
  function Validate(searchTerm: Option<string>, requiredFormat: Value): (r: Verdict)
    ensures r.valid <==> !IsBlankTerm(searchTerm) &&
                         (requiredFormat == BrandModel ==> |Split(Strip(searchTerm.value))| >= 2)
    ensures r.valid <==> r.message.None?
    ensures IsBlankTerm(searchTerm) ==> r.message == Some(EmptyMessage)
    ensures !IsBlankTerm(searchTerm) && !r.valid ==> r.message == Some(FormatMessage(searchTerm.value))
  {
    if searchTerm.None? || searchTerm.value == [] || Strip(searchTerm.value) == [] then
      Verdict(false, Some(EmptyMessage))
    else if requiredFormat == BrandModel && |SplitMax1(Strip(searchTerm.value))| < 2 then
      SplitMax1Count(Strip(searchTerm.value));
      Verdict(false, Some(FormatMessage(searchTerm.value)))
    else
      SplitMax1Count(Strip(searchTerm.value));
      Verdict(true, None)
  }

  /** Under the default format a single word such as "Honda" is valid. */
  lemma DefaultFormatSkipsWordCount(term: string)
    requires Strip(term) != []
    ensures Validate(Some(term), Bool(true)) == Verdict(true, None)
  {
  }

  /** The rejection message quotes the term as it was given, before stripping. */
  lemma FormatMessageQuotesTerm(term: string)
    ensures Contains(FormatMessage(term), Quoted(term))
  {
    var a, q, b := "Invalid format: ", Quoted(term), " (Expected: Brand Model, e.g., 'Honda CB500X')";
    assert (a + q + b)[|a|..] == q + b;
  }
}
