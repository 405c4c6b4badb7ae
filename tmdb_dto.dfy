/** The internal movie models, and their construction from the records the
    upstream movie database returns: a data-annotation validation gate, then
    a field-for-field copy in which an empty release date means "no date". */
module TmdbDto {
  import opened Common
  import opened Exceptions
  import opened DataAnnotations

  /** `MovieModel`: strings here are never null, having passed validation. */
  datatype MovieModel = MovieModel(
    id: int,
    originalLanguage: string,
    originalTitle: string,
    overview: string,
    popularity: Float64,
    releaseDate: Option<DateTime>,
    title: string,
    voteAverage: Float64,
    voteCount: int,
    posterPath: Option<string>)

  /** `SearchMoviesResultModel`. */
  datatype SearchMoviesResultModel = SearchMoviesResultModel(
    page: int, results: seq<MovieModel>, totalPages: int, totalResults: int)

  /** `TmdbMovieDto` as deserialized: a reference-typed field may hold null
      whatever its annotation says. Fields are in declaration order
      (`id`, `original_language`, ..., `poster_path`). */
  datatype TmdbMovieDto = TmdbMovieDto(
    id: int,
    originalLanguage: Option<string>,
    originalTitle: Option<string>,
    overview: Option<string>,
    popularity: Float64,
    releaseDate: Option<string>,
    title: Option<string>,
    voteAverage: Float64,
    voteCount: int,
    posterPath: Option<string>)

  /** `TmdbSearchMoviesResultDto`: the list, and each element of it, may be null. */
  datatype TmdbSearchMoviesResultDto = TmdbSearchMoviesResultDto(
    page: int, results: Option<seq<Option<TmdbMovieDto>>>, totalPages: int, totalResults: int)

  /** `DateTime.Parse`, left opaque: it gives a date or the text of the `FormatException` it throws. */
  type DateParser = string -> Result<DateTime, string>

  /** A DTO passes `Validator.ValidateObject`: the value-typed fields cannot
      fail `[Required]`, `poster_path` carries no attribute, and `overview`
      and `release_date` allow empty strings. */
  predicate IsValidMovie(d: TmdbMovieDto)
    ensures IsValidMovie(d) ==>
      && d.originalLanguage.Some? && d.originalTitle.Some? && d.title.Some?
      && d.overview.Some? && d.releaseDate.Some?
    ensures IsValidMovie(d) ==> |d.originalLanguage.value| > 0 && |d.originalTitle.value| > 0 && |d.title.value| > 0
    ensures d.overview == Some("") && d.releaseDate == Some("") ==>
      (IsValidMovie(d) <==> RequiredHolds(d.originalLanguage, false) && RequiredHolds(d.originalTitle, false) && RequiredHolds(d.title, false))
  {
    && RequiredHolds(d.originalLanguage, false)
    && RequiredHolds(d.originalTitle, false)
    && RequiredHolds(d.overview, true)
    && RequiredHolds(d.releaseDate, true)
    && RequiredHolds(d.title, false)
  }

  /** The error `ValidateObject` throws: that of the first failing property, in declaration order. */
  function MovieValidationError(d: TmdbMovieDto): (r: Option<Exception>)
    ensures r.None? <==> IsValidMovie(d)
    ensures r.Some? ==> r.value.Validation?
  {
    if !RequiredHolds(d.originalLanguage, false) then Some(Validation(RequiredMessage("original_language")))
    else if !RequiredHolds(d.originalTitle, false) then Some(Validation(RequiredMessage("original_title")))
    else if !RequiredHolds(d.overview, true) then Some(Validation(RequiredMessage("overview")))
    else if !RequiredHolds(d.releaseDate, true) then Some(Validation(RequiredMessage("release_date")))
    else if !RequiredHolds(d.title, false) then Some(Validation(RequiredMessage("title")))
    else None
  }

  /** The release date conversion: null or empty gives no date, anything else goes to the parser. */
  function ConvertReleaseDate(s: Option<string>, parse: DateParser): (r: Result<Option<DateTime>, Exception>)
    ensures IsNullOrEmpty(s) ==> r == Success(None)
    ensures !IsNullOrEmpty(s) && parse(s.value).Success? ==> r == Success(Some(parse(s.value).value))
    ensures !IsNullOrEmpty(s) && parse(s.value).Failure? ==> r == Failure(Format(parse(s.value).error))
  {
    if IsNullOrEmpty(s) then Success(None)
    else match parse(s.value)
      case Success(t) => Success(Some(t))
      case Failure(m) => Failure(Format(m))
  }

  /** `TmdbMovieDto.ToModel`: validate, then construct. */
  function MovieToModel(d: TmdbMovieDto, parse: DateParser): (r: Result<MovieModel, Exception>)
    ensures !IsValidMovie(d) ==> r.Failure? && r.error.Validation?
    ensures r.Success? <==> IsValidMovie(d) && ConvertReleaseDate(d.releaseDate, parse).Success?
  {
    match MovieValidationError(d)
    case Some(e) => Failure(e)
    case None =>
      match ConvertReleaseDate(d.releaseDate, parse)
      case Failure(e) => Failure(e)
      case Success(date) =>
        Success(MovieModel(
          id := d.id,
          originalLanguage := d.originalLanguage.value,
          originalTitle := d.originalTitle.value,
          overview := d.overview.value,
          popularity := d.popularity,
          releaseDate := date,
          title := d.title.value,
          voteAverage := d.voteAverage,
          voteCount := d.voteCount,
          posterPath := d.posterPath))
  }

  /** A converted movie keeps every field of the DTO but the release date, and `poster_path` null stays null. */
  lemma MovieToModelCopiesFields(d: TmdbMovieDto, parse: DateParser)
    requires MovieToModel(d, parse).Success?
    ensures var m := MovieToModel(d, parse).value;
      && d.originalLanguage == Some(m.originalLanguage) && d.originalTitle == Some(m.originalTitle)
      && d.overview == Some(m.overview) && d.title == Some(m.title)
      && m.id == d.id && m.popularity == d.popularity && m.voteAverage == d.voteAverage
      && m.voteCount == d.voteCount && m.posterPath == d.posterPath
  {
  }

  /** The release date of a converted movie is "no date" exactly when the DTO's string is empty. */
  lemma MovieToModelReleaseDate(d: TmdbMovieDto, parse: DateParser)
    requires MovieToModel(d, parse).Success?
    ensures MovieToModel(d, parse).value.releaseDate.None? <==> d.releaseDate == Some("")
    ensures d.releaseDate != Some("") ==>
      MovieToModel(d, parse).value.releaseDate == Some(parse(d.releaseDate.value).value)
  {
  }

  /** An empty overview and an empty release date pass; an empty language or title fails. */
  lemma EmptyFieldsAgainstValidation(d: TmdbMovieDto)
    ensures IsValidMovie(d.(overview := Some(""), releaseDate := Some(""))) <==>
      RequiredHolds(d.originalLanguage, false) && RequiredHolds(d.originalTitle, false) && RequiredHolds(d.title, false)
    ensures !IsValidMovie(d.(originalLanguage := Some("")))
    ensures !IsValidMovie(d.(originalTitle := Some("")))
    ensures !IsValidMovie(d.(title := Some("")))
  {
  }

  /** A release date that is whitespace but not empty passes validation
      wherever an empty one does (`AllowEmptyStrings` admits blank strings as
      well), and is then handed to the parser, which decides the outcome. */
  lemma BlankReleaseDateIsParsed(d: TmdbMovieDto, parse: DateParser)
    requires IsValidMovie(d.(releaseDate := Some(""))) && d.releaseDate == Some(" ")
    ensures IsValidMovie(d)
    ensures MovieToModel(d, parse).Success? <==> parse(" ").Success?
  {
  }

  /** `results.Select(m => m.ToModel()).ToList()`: converts in order and stops
      at the first element that throws, a null element throwing
      `NullReferenceException`. */
  function MoviesToModels(ds: seq<Option<TmdbMovieDto>>, parse: DateParser): (r: Result<seq<MovieModel>, Exception>)
    ensures r.Success? <==> forall i :: 0 <= i < |ds| ==> ElementToModel(ds[i], parse).Success?
    ensures r.Success? ==>
              && |r.value| == |ds|
              && forall i :: 0 <= i < |ds| ==> r.value[i] == ElementToModel(ds[i], parse).value
    ensures r.Failure? ==> exists k :: 0 <= k < |ds| && FirstFailureAt(ds, parse, k) && r.error == ElementToModel(ds[k], parse).error
  {
    if ds == [] then Success([])
    else match ElementToModel(ds[0], parse)
      case Failure(e) =>
        assert FirstFailureAt(ds, parse, 0);
        Failure(e)
      case Success(m) =>
        match MoviesToModels(ds[1..], parse)
        case Failure(e) =>
          assert exists k :: 0 <= k < |ds| && FirstFailureAt(ds, parse, k) && e == ElementToModel(ds[k], parse).error by {
            var k :| 0 <= k < |ds[1..]| && FirstFailureAt(ds[1..], parse, k) && e == ElementToModel(ds[1..][k], parse).error;
            assert FirstFailureAt(ds, parse, k + 1);
          }
          Failure(e)
        case Success(ms) =>
          assert forall i :: 1 <= i < |ds| ==> ds[i] == ds[1..][i - 1];
          Success([m] + ms)
  }

  /** One element of the list: null throws, anything else is converted. */
  function ElementToModel(d: Option<TmdbMovieDto>, parse: DateParser): (r: Result<MovieModel, Exception>)
    ensures d.None? ==> r == Failure(NullReference(NullReferenceText))
  {
    match d
    case None => Failure(NullReference(NullReferenceText))
    case Some(dto) => MovieToModel(dto, parse)
  }

  /** Element `k` is the first whose conversion fails. */
  ghost predicate FirstFailureAt(ds: seq<Option<TmdbMovieDto>>, parse: DateParser, k: int)
  {
    0 <= k < |ds| && ElementToModel(ds[k], parse).Failure?
    && forall j :: 0 <= j < k ==> ElementToModel(ds[j], parse).Success?
  }

  /** `TmdbSearchMoviesResultDto.ToModel`: a null list fails validation
      before any element is touched; otherwise the list is converted and the
      paging numbers are copied. */
  function SearchResultToModel(d: TmdbSearchMoviesResultDto, parse: DateParser): (r: Result<SearchMoviesResultModel, Exception>)
    ensures d.results.None? ==> r == Failure(Validation(RequiredMessage("results")))
    ensures r.Success? ==>
              && d.results.Some? && MoviesToModels(d.results.value, parse).Success?
              && r.value.page == d.page && r.value.totalPages == d.totalPages
              && r.value.totalResults == d.totalResults
              && r.value.results == MoviesToModels(d.results.value, parse).value
  {
    match d.results
    case None => Failure(Validation(RequiredMessage("results")))
    case Some(items) =>
      match MoviesToModels(items, parse)
      case Failure(e) => Failure(e)
      case Success(ms) => Success(SearchMoviesResultModel(d.page, ms, d.totalPages, d.totalResults))
  }

  /** The search conversion succeeds exactly when the list is present and
      every element converts; no partial list is ever returned. */
  lemma SearchResultAllOrNothing(d: TmdbSearchMoviesResultDto, parse: DateParser)
    ensures SearchResultToModel(d, parse).Success? <==>
      d.results.Some? && forall i :: 0 <= i < |d.results.value| ==> ElementToModel(d.results.value[i], parse).Success?
    ensures SearchResultToModel(d, parse).Success? ==>
      |SearchResultToModel(d, parse).value.results| == |d.results.value|
  {
  }
}
