/** The exception-handling middleware: it runs the rest of the pipeline and,
    when that throws, rewrites the response as a JSON error envelope whose
    status and text depend only on the class of the exception. */
module Middleware {
  import opened Common
  import opened Exceptions

  /** The JSON body `{ message, details }`. */
  datatype ErrorBody = ErrorBody(message: string, details: string)

  /** What the middleware writes: a status code and a body. */
  datatype ErrorResponse = ErrorResponse(status: int, body: ErrorBody)

  const JsonContentType := "application/json"
  /** The content type the JSON writer sets when it writes the body, replacing the one set before. */
  const JsonContentTypeWithCharset := "application/json; charset=utf-8"
  /** The placeholder message the handler starts from before the switch overwrites it. */
  const PlaceholderMessage := "An error occurred"
  /** The fixed details of the default arm, which never shows the exception's own message. */
  const GenericDetails := "An unexpected error occurred"

  /** The exceptions the switch has an arm for. `InvalidArgument` stands for
      `ArgumentException` and all of its subclasses, since `case
      ArgumentException ex` is a type pattern. */
  predicate IsClassified(e: Exception)
  {
    e.MovieNotFound? || e.PlaylistNotFound? || e.TmdbApi? || e.InvalidArgument?
  }

  /** HTTP 404 is chosen exactly for the two not-found classes, and for an
      upstream error that itself carried 404. */
  predicate IsNotFoundResponse(e: Exception)
  {
    e.MovieNotFound? || e.PlaylistNotFound? || (e.TmdbApi? && e.statusCode == Some(404))
  }

  /** The classification switch of the handler: first matching arm wins. */
  function Classify(e: Exception): (r: ErrorResponse)
    ensures r.body.details == if IsClassified(e) then e.message else GenericDetails
    ensures r.status == 404 <==> IsNotFoundResponse(e)
    ensures r.body.message != PlaceholderMessage
    ensures e.TmdbApi? ==> r.status == (if e.statusCode.Some? then e.statusCode.value else 503)
  {
    match e
    case MovieNotFound(m) => ErrorResponse(404, ErrorBody("Movie not found", m))
    case PlaylistNotFound(m) => ErrorResponse(404, ErrorBody("Playlist not found", m))
    case TmdbApi(m, code) =>
      ErrorResponse(match code case Some(c) => c case None => 503, ErrorBody("TMDB API error", m))
    case InvalidArgument(_, m) => ErrorResponse(400, ErrorBody("Invalid argument", m))
    case _ => ErrorResponse(500, ErrorBody("Internal server error", GenericDetails))
  }

  lemma MovieNotFoundIs404(m: string)
    ensures Classify(MovieNotFound(m)) == ErrorResponse(404, ErrorBody("Movie not found", m))
  {
  }

  lemma PlaylistNotFoundIs404(m: string)
    ensures Classify(PlaylistNotFound(m)) == ErrorResponse(404, ErrorBody("Playlist not found", m))
  {
  }

  lemma TmdbApiMirrorsUpstreamStatus(m: string, code: Option<int>)
    ensures Classify(TmdbApi(m, code)).status == (if code.Some? then code.value else 503)
    ensures Classify(TmdbApi(m, code)).body == ErrorBody("TMDB API error", m)
  {
  }

  /** Every subclass of `ArgumentException` takes the `ArgumentException` arm. */
  lemma EveryArgumentKindIs400(kind: ArgumentKind, m: string)
    ensures Classify(InvalidArgument(kind, m)) == ErrorResponse(400, ErrorBody("Invalid argument", m))
  {
  }

  /** The default arm answers 500 with the same body for every unclassified
      exception, whatever its message: the raw text never leaks. The
      repository's `KeyNotFoundException` and `HttpRequestException` are among them. */
  lemma UnclassifiedHidesMessage(e1: Exception, e2: Exception)
    requires !IsClassified(e1) && !IsClassified(e2)
    ensures Classify(e1) == Classify(e2) == ErrorResponse(500, ErrorBody("Internal server error", GenericDetails))
  {
  }

  /** The HTTP response the middleware can rewrite. */
  class HttpResponse {
    var statusCode: int
    var contentType: Option<string>
    /** The JSON error body written by the middleware, if any. */
    var body: Option<ErrorBody>

    /** A fresh response, as the host creates it: 200, no content type, nothing written. */
    constructor ()
      ensures statusCode == 200 && contentType == None && body == None
    {
      statusCode := 200;
      contentType := None;
      body := None;
    }
  }

  /** How the next stage of the pipeline ended. */
  datatype StageOutcome = Completed | Threw(error: Exception)

  /** `HandleExceptionAsync`: sets the content type, picks status and body by
      the switch, and writes the body as JSON. */
  method HandleException(response: HttpResponse, e: Exception)
    modifies response
    ensures response.contentType == Some(JsonContentTypeWithCharset) && JsonContentType <= response.contentType.value
    ensures response.statusCode == Classify(e).status
    ensures response.body == Some(Classify(e).body)
  {
    response.contentType := Some(JsonContentType);
    var body := ErrorBody(PlaceholderMessage, e.message);
    match e {
      case MovieNotFound(m) =>
        response.statusCode := 404;
        body := ErrorBody("Movie not found", m);
      case PlaylistNotFound(m) =>
        response.statusCode := 404;
        body := ErrorBody("Playlist not found", m);
      case TmdbApi(m, code) =>
        response.statusCode := if code.Some? then code.value else 503;
        body := ErrorBody("TMDB API error", m);
      case InvalidArgument(_, m) =>
        response.statusCode := 400;
        body := ErrorBody("Invalid argument", m);
      case _ =>
        response.statusCode := 500;
        body := ErrorBody("Internal server error", GenericDetails);
    }
    response.contentType := Some(JsonContentTypeWithCharset);
    response.body := Some(body);
  }

  /** `InvokeAsync`: when the next stage completes, the response is left as
      that stage made it; when it throws, the handler rewrites it. */
  method Invoke(response: HttpResponse, next: StageOutcome)
    modifies response
    ensures next.Completed? ==> unchanged(response)
    ensures next.Threw? ==>
      && response.contentType == Some(JsonContentTypeWithCharset)
      && response.statusCode == Classify(next.error).status
      && response.body == Some(Classify(next.error).body)
  {
    match next {
      case Completed =>
      case Threw(e) =>
        HandleException(response, e);
    }
  }

  /** A stage that throws `MovieNotFoundException("Movie not found!")` yields
      404, a content type starting with `application/json`, and the body
      `{"Movie not found", "Movie not found!"}`. */
  method MovieNotFoundThroughPipeline() returns (status: int, contentType: Option<string>, body: Option<ErrorBody>)
    ensures status == 404
    ensures contentType.Some? && JsonContentType <= contentType.value
    ensures body == Some(ErrorBody("Movie not found", "Movie not found!"))
  {
    var response := new HttpResponse();
    Invoke(response, Threw(MovieNotFound("Movie not found!")));
    status, contentType, body := response.statusCode, response.contentType, response.body;
  }
}
