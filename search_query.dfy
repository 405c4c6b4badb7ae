/** The query string of the movie search endpoint and the attribute rules
    that model validation applies to it before the action runs. */
module SearchQuery {
  import opened Common
  import opened DataAnnotations

  /** `SearchMoviesRequestQueryDto` as bound from the query string; an absent parameter binds to null. */
  datatype SearchMoviesRequestQueryDto = SearchMoviesRequestQueryDto(searchTerm: Option<string>, language: Option<string>)

  /** `SearchMoviesRequestQueryModel`, what the action hands to the movie service. */
  datatype SearchMoviesRequestQueryModel = SearchMoviesRequestQueryModel(searchTerm: string, language: string)

  const SearchTermRequiredText := "Search term is required"
  const LanguageRequiredText := "Language is required"
  const LanguageNotAllowedText := "Language must be one of: en, fr"
  /** The values of `[AllowedValues("en", "fr")]`, compared ordinally. */
  const AllowedLanguages := ["en", "fr"]

  /** The messages model validation reports: every attribute of every
      property is evaluated on its own, in declaration order, so a blank or
      missing language fails both of its attributes. */
  function ValidationErrors(q: SearchMoviesRequestQueryDto): (errors: seq<string>)
    ensures SearchTermRequiredText in errors <==> IsNullOrWhiteSpace(q.searchTerm)
    ensures LanguageRequiredText in errors <==> IsNullOrWhiteSpace(q.language)
    ensures LanguageNotAllowedText in errors <==> q.language != Some("en") && q.language != Some("fr")
    ensures forall e :: e in errors ==> e in {SearchTermRequiredText, LanguageRequiredText, LanguageNotAllowedText}
  {
    (if RequiredHolds(q.searchTerm, false) then [] else [SearchTermRequiredText])
    + (if RequiredHolds(q.language, false) then [] else [LanguageRequiredText])
    + (if AllowedValuesHold(q.language, AllowedLanguages) then [] else [LanguageNotAllowedText])
  }

  /** The query the endpoint accepts: a search term that is neither empty nor
      whitespace, and a language that is exactly "en" or "fr". */
  predicate IsValid(q: SearchMoviesRequestQueryDto)
    ensures IsValid(q) <==> RequiredHolds(q.searchTerm, false) && AllowedValuesHold(q.language, AllowedLanguages)
  {
    && q.searchTerm.Some? && !IsBlank(q.searchTerm.value)
    && (q.language == Some("en") || q.language == Some("fr"))
  }

  /** Validation reports nothing exactly for the accepted queries. */
  lemma NoErrorsIffValid(q: SearchMoviesRequestQueryDto)
    ensures ValidationErrors(q) == [] <==> IsValid(q)
  {
    var errors := ValidationErrors(q);
    if IsValid(q) {
      var language := q.language.value;
      assert !IsWhiteSpace(language[0]);
      assert language in AllowedLanguages;
    }
  }

  /** An empty or whitespace-only term is rejected whatever the language. */
  lemma BlankTermRejected(term: string, language: Option<string>)
    requires IsBlank(term)
    ensures SearchTermRequiredText in ValidationErrors(SearchMoviesRequestQueryDto(Some(term), language))
    ensures !IsValid(SearchMoviesRequestQueryDto(Some(term), language))
  {
  }

  /** An empty language draws both of its attribute's messages. */
  lemma EmptyLanguageFailsBothRules(term: Option<string>)
    ensures var errors := ValidationErrors(SearchMoviesRequestQueryDto(term, Some("")));
      LanguageRequiredText in errors && LanguageNotAllowedText in errors
  {
  }

  /** The comparison is exact: case and surrounding spaces matter. */
  lemma LanguageComparedExactly(term: string)
    requires !IsBlank(term)
    ensures IsValid(SearchMoviesRequestQueryDto(Some(term), Some("en")))
    ensures IsValid(SearchMoviesRequestQueryDto(Some(term), Some("fr")))
    ensures !IsValid(SearchMoviesRequestQueryDto(Some(term), Some("EN")))
    ensures !IsValid(SearchMoviesRequestQueryDto(Some(term), Some("en ")))
  {
  }
}
