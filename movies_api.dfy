/** The movies endpoints: search, which projects the service's models into
    response DTOs and turns every failure into its own 500, and movie
    details, which answers with the model itself. */
module MoviesApi {
  import opened Common
  import opened Exceptions
  import opened TmdbDto
  import opened SearchQuery

  /** `MovieDto`, the search result item. */
  datatype MovieDto = MovieDto(
    id: int,
    originalLanguage: string,
    originalTitle: string,
    overview: string,
    popularity: Float64,
    title: string,
    voteAverage: Float64,
    voteCount: int,
    releaseDate: Option<DateTime>,
    posterPath: Option<string>)

  /** `SearchMoviesResponseDto`. */
  datatype SearchMoviesResponseDto = SearchMoviesResponseDto(
    page: int, results: seq<MovieDto>, totalPages: int, totalResults: int)

  /** The bodies the actions answer with; `ValidationProblem` is the
      framework's automatic answer to a query that fails model validation. */
  datatype Body =
    | SearchResults(response: SearchMoviesResponseDto)
    | MovieDetails(movie: MovieModel)
    | Message(message: string)
    | ValidationProblem(errors: seq<string>)

  datatype Response = Response(status: int, body: Body)

  const SearchFailedText := "An error occurred while searching for movies"
  const RetrievalFailedText := "Error retrieving movie"

  /** The projection in `Search`: one `MovieDto` per model, which loses no field of it. */
  function ToMovieDto(m: MovieModel): (d: MovieDto)
    ensures FromMovieDto(d) == m
  {
    MovieDto(m.id, m.originalLanguage, m.originalTitle, m.overview, m.popularity,
             m.title, m.voteAverage, m.voteCount, m.releaseDate, m.posterPath)
  }

  /** Reading a model back from its DTO. */
  ghost function FromMovieDto(d: MovieDto): MovieModel
  {
    MovieModel(d.id, d.originalLanguage, d.originalTitle, d.overview, d.popularity,
               d.releaseDate, d.title, d.voteAverage, d.voteCount, d.posterPath)
  }

  /** The `Search` action body: 200 with the projected result, or, for any
      exception at all, 500 with a fixed message, so nothing reaches the
      middleware. */
  function SearchResponse(outcome: Result<SearchMoviesResultModel, Exception>): (r: Response)
    ensures r.status == 200 <==> outcome.Success?
    ensures outcome.Failure? ==> r == Response(500, Message(SearchFailedText))
    ensures outcome.Success? ==>
      && r.body.SearchResults?
      && r.body.response.page == outcome.value.page
      && r.body.response.totalPages == outcome.value.totalPages
      && r.body.response.totalResults == outcome.value.totalResults
      && |r.body.response.results| == |outcome.value.results|
      && forall i :: 0 <= i < |outcome.value.results| ==>
           FromMovieDto(r.body.response.results[i]) == outcome.value.results[i]
  {
    match outcome
    case Failure(_) => Response(500, Message(SearchFailedText))
    case Success(result) =>
      var items := seq(|result.results|, i requires 0 <= i < |result.results| => ToMovieDto(result.results[i]));
      Response(200, SearchResults(SearchMoviesResponseDto(result.page, items, result.totalPages, result.totalResults)))
  }

  /** `GET api/movies`: a query that fails validation is answered 400 with its
      messages before the action runs; otherwise the action passes the
      term and language to the movie service. */
  function Search(query: SearchMoviesRequestQueryDto,
                  service: SearchMoviesRequestQueryModel -> Result<SearchMoviesResultModel, Exception>): (r: Response)
    ensures r.status == 400 <==> !IsValid(query)
    ensures r.status in {200, 400, 500}
    ensures !IsValid(query) ==> r == Response(400, ValidationProblem(ValidationErrors(query))) && ValidationErrors(query) != []
    ensures IsValid(query) ==>
      r == SearchResponse(service(SearchMoviesRequestQueryModel(query.searchTerm.value, query.language.value)))
  {
    NoErrorsIffValid(query);
    if ValidationErrors(query) != [] then
      Response(400, ValidationProblem(ValidationErrors(query)))
    else
      SearchResponse(service(SearchMoviesRequestQueryModel(query.searchTerm.value, query.language.value)))
  }

  /** A rejected query never reaches the service: the answer is the same whatever the service would do. */
  lemma InvalidQueryNeverReachesService(query: SearchMoviesRequestQueryDto,
                                        s1: SearchMoviesRequestQueryModel -> Result<SearchMoviesResultModel, Exception>,
                                        s2: SearchMoviesRequestQueryModel -> Result<SearchMoviesResultModel, Exception>)
    requires !IsValid(query)
    ensures Search(query, s1) == Search(query, s2)
  {
  }

  /** Search over an upstream page: the answer is 200 exactly when the
      conversion of every record succeeds, and then item `i` is the projection
      of record `i`, in the upstream order. */
  lemma SearchOverUpstreamPage(page: TmdbSearchMoviesResultDto, parse: DateParser)
    ensures SearchResponse(SearchResultToModel(page, parse)).status == 200 <==>
      page.results.Some? && forall i :: 0 <= i < |page.results.value| ==> ElementToModel(page.results.value[i], parse).Success?
    ensures SearchResponse(SearchResultToModel(page, parse)).status == 200 ==>
      var items := SearchResponse(SearchResultToModel(page, parse)).body.response.results;
      && |items| == |page.results.value|
      && forall i :: 0 <= i < |items| ==> items[i] == ToMovieDto(ElementToModel(page.results.value[i], parse).value)
  {
  }

  /** `GET api/movies/{id}`: 200 with the model itself; a missing movie is
      404 with the exception's own message; any other exception is 500. */
  function GetMovieByIdResponse(outcome: Result<MovieModel, Exception>): (r: Response)
    ensures r.status == 200 <==> outcome.Success?
    ensures outcome.Success? ==> r.body == MovieDetails(outcome.value)
    ensures r.status == 404 <==> outcome.Failure? && outcome.error.MovieNotFound?
    ensures r.status == 404 ==> r.body == Message(outcome.error.message)
    ensures outcome.Failure? && !outcome.error.MovieNotFound? ==> r == Response(500, Message(RetrievalFailedText))
  {
    match outcome
    case Success(m) => Response(200, MovieDetails(m))
    case Failure(MovieNotFound(m)) => Response(404, Message(m))
    case Failure(_) => Response(500, Message(RetrievalFailedText))
  }

  /** Every failure other than a missing movie gives the same 500 answer, whatever its message. */
  lemma OtherFailuresIndistinguishable(e1: Exception, e2: Exception)
    requires !e1.MovieNotFound? && !e2.MovieNotFound?
    ensures GetMovieByIdResponse(Failure(e1)) == GetMovieByIdResponse(Failure(e2))
  {
  }
}
