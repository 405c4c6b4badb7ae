# MovieAppApi in Dafny

This project models the core of MovieAppApi, a small ASP.NET Core web API. The API proxies searches and movie lookups to The Movie Database (TMDB). It also keeps user playlists of movies in a two-table SQLite store.

The model covers:

- **`middleware.dfy`** (module `Middleware`): the exception-handling middleware. It has a total classification function from exception class to (status, message, details), and methods that run a pipeline stage and rewrite a response object when that stage throws. **`exceptions.dfy`** (module `Exceptions`) defines the exception classes as one closed datatype. `ArgumentException` and its subclasses share one constructor, because the middleware's `case ArgumentException` is a type pattern.
- **`playlist_store.dfy`** (module `PlaylistStore`): `PlaylistRepository` as a class over two tables. `playlists` is a map from id to row. `movies` is a sequence of playlist-movie rows in table order, each with a foreign key. The class also holds the two identity counters and an injected clock that replaces `DateTime.UtcNow`. Every read of the clock is later than the one before. All seven operations are methods or functions that preserve the invariant `Valid()`. `Valid()` covers referential integrity, ids below the counters, and ordered timestamps. Each method states its whole new state.
- **`playlists_api.dfy`** (module `PlaylistsApi`):
  - the outcome-to-response mapping of every playlists endpoint, as pure functions;
  - `MapToDto`;
  - a controller class that composes each mapping with the repository, so each endpoint's answer is stated against the store's state;
  - the create, add a movie, fetch round trip.
- **`movies_api.dfy`** (module `MoviesApi`):
  - the search action's projection into `MovieDto` and its catch-all 500;
  - the automatic 400 for a query that fails model validation;
  - the error mapping of the movie-details action.
- **`tmdb_dto.dfy`** (module `TmdbDto`): conversion of upstream records into models.
  - The data-annotation validation gate runs first. It reports the first failing property in declaration order. **`data_annotations.dfy`** (module `DataAnnotations`) gives `[Required]` and `[AllowedValues]`.
  - The field-for-field copy follows, in which a null or empty `release_date` means "no date".
  - A list conversion either converts every element or fails whole.
- **`search_query.dfy`** (module `SearchQuery`): the attribute rules of the search query string, as a validation function and a predicate.
- **`env_service.dfy`** (module `EnvConfig`):
  - `GetVariable` over an injected environment map;
  - the masking rule of its debug log line;
  - `LoadConfiguration` as a method assigning the service's two properties;
  - construction that fails when the API key is missing.
- **`common.dfy`** (module `Common`): nullable values and results. It also has the .NET string predicates the code relies on: `char.IsWhiteSpace`, `IsNullOrWhiteSpace`, `IsNullOrEmpty`, ordinal `Contains`, and integer formatting.

Points where the code's behaviour differs from how the system is usually described, modelled as the code does it:

- **Environment name.** The environment name never falls back to "Production". `GetVariable` returns the empty string, not null, for an unset or blank optional variable, so the `??` never fires. This is proved in `EnvConfig.ProductionFallbackNeverChosen`.
- **Create's timestamps.** A new playlist's `CreatedAt` and `UpdatedAt` come from two property initializers, which read the clock one after the other. They are therefore ordered (`createdAt <= updatedAt`) but not necessarily equal.
- **Update's response.** `UpdateAsync` loads the entity with `FindAsync`, which does not include the movies, and the database context is request-scoped. So the entity is returned with an empty `Movies` collection, and the `PUT` response always reports `movieCount` 0.
- **Content type.** The middleware sets `application/json`, but the JSON writer then replaces it with `application/json; charset=utf-8`. The model ends with the latter; it starts with `application/json`, which is what the middleware test checks.
- **GetAll order.** `GetAllAsync` orders by `CreatedAt` descending. With a strictly increasing clock, creation times grow with the id, so that order is unique. The model lists playlists by decreasing id and proves the list is sorted strictly by decreasing `createdAt`.
- **Search query errors.** Model validation evaluates every attribute on its own. A blank or missing `language` therefore draws both "Language is required" and "Language must be one of: en, fr".

## Model

| member | source | states |
|---|---|---|
| Common.Contains | MovieAppApi/Src/Core/Services/Environment/EnvService.cs:94 | ordinal `string.Contains`: true exactly when the needle occurs at some position |
| Common.IntToString | MovieAppApi/Src/Core/Repositories/PlaylistRepository.cs:76 | the interpolated id is an optional '-' (present exactly for a negative id) followed by decimal digits with no leading zero, and reads back as that id |
| Exceptions.PlaylistKeyNotFound | MovieAppApi/Src/Core/Repositories/PlaylistRepository.cs:76 | the repository's not-found error is a `KeyNotFoundException` whose message is "Playlist ", then the id's canonical decimal text (`IntToString`), then " not found" |
| Middleware.Classify | MovieAppApi/Src/Middlewares/ExceptionHandlingMiddleware.cs:58-84 | details are the exception's message for the four handled classes and the fixed generic text otherwise; status is 404 exactly for the two not-found classes and an upstream 404; an upstream error carries its own status or 503; the placeholder message never survives |
| Middleware.MovieNotFoundIs404 | MovieAppApi/Src/Middlewares/ExceptionHandlingMiddleware.cs:60-63 | a missing movie gives 404 "Movie not found" with the message as details |
| Middleware.PlaylistNotFoundIs404 | MovieAppApi/Src/Middlewares/ExceptionHandlingMiddleware.cs:65-68 | a missing playlist gives 404 "Playlist not found" with the message as details |
| Middleware.TmdbApiMirrorsUpstreamStatus | MovieAppApi/Src/Middlewares/ExceptionHandlingMiddleware.cs:70-73 | an upstream error answers its carried status, or 503 without one, with "TMDB API error" |
| Middleware.EveryArgumentKindIs400 | MovieAppApi/Src/Middlewares/ExceptionHandlingMiddleware.cs:75-78 | every `ArgumentException` subclass gives 400 "Invalid argument" with its message |
| Middleware.UnclassifiedHidesMessage | MovieAppApi/Src/Middlewares/ExceptionHandlingMiddleware.cs:80-83 | any two unhandled exceptions, whatever their messages, give the same 500 body with the generic details |
| Middleware.HandleException | MovieAppApi/Src/Middlewares/ExceptionHandlingMiddleware.cs:53-87 | the response ends with a JSON content type, the classified status and the classified body |
| Middleware.Invoke | MovieAppApi/Src/Middlewares/ExceptionHandlingMiddleware.cs:33-44 | a stage that completes leaves the response untouched; a stage that throws gets the classified JSON error |
| Middleware.MovieNotFoundThroughPipeline | MovieAppApi.Tests/MiddlewareTests.cs:26-44 | a stage throwing "Movie not found!" yields 404, a content type starting with `application/json`, and `{"Movie not found", "Movie not found!"}` |
| TmdbDto.IsValidMovie | MovieAppApi/Src/Core/Services/Fetch/TmdbMovieDto.cs:20-51 | a valid record has all five string properties non-null, and its language and both titles non-empty; with empty overview and release date it is valid exactly when the three strict `[Required]` properties hold |
| TmdbDto.MovieValidationError | MovieAppApi/Src/Core/Services/Fetch/TmdbMovieDto.cs:20-51 | validation reports nothing exactly for a valid record, and otherwise a validation error |
| TmdbDto.ConvertReleaseDate | MovieAppApi/Src/Core/Services/Fetch/TmdbMovieDto.cs:85 | null or empty gives no date; otherwise the parser's date, or its format error |
| TmdbDto.MovieToModel | MovieAppApi/Src/Core/Services/Fetch/TmdbMovieDto.cs:75-91 | an invalid record never produces a model; conversion succeeds exactly when the record is valid and its date converts |
| TmdbDto.MovieToModelCopiesFields | MovieAppApi/Src/Core/Services/Fetch/TmdbMovieDto.cs:79-90 | a model keeps the record's id, languages, titles, overview, popularity, votes and poster path (null included) |
| TmdbDto.MovieToModelReleaseDate | MovieAppApi/Src/Core/Services/Fetch/TmdbMovieDto.cs:85 | a converted release date is absent exactly for an empty string, and otherwise the parsed date |
| TmdbDto.EmptyFieldsAgainstValidation | MovieAppApi/Src/Core/Services/Fetch/TmdbMovieDto.cs:20-51 | empty overview and release date pass; an empty original language, original title or title fails |
| TmdbDto.BlankReleaseDateIsParsed | MovieAppApi/Src/Core/Services/Fetch/TmdbMovieDto.cs:44-45 | a record that is valid with an empty release date stays valid with a whitespace one, and then the parser alone decides the outcome |
| TmdbDto.MoviesToModels | MovieAppApi/Src/Core/Services/Fetch/TmdbSearchMoviesResultDto.cs:46 | success exactly when every element converts, with the same length and element i converted from element i; otherwise the error of the first failing element |
| TmdbDto.ElementToModel | MovieAppApi/Src/Core/Services/Fetch/TmdbSearchMoviesResultDto.cs:46 | a null element throws a null-reference error |
| TmdbDto.SearchResultToModel | MovieAppApi/Src/Core/Services/Fetch/TmdbSearchMoviesResultDto.cs:40-50 | a null list fails validation before any element; success copies page, total pages and total results and carries the converted list |
| TmdbDto.SearchResultAllOrNothing | MovieAppApi/Src/Core/Services/Fetch/TmdbSearchMoviesResultDto.cs:46 | the conversion succeeds exactly when the list is present and every element converts; no partial list |
| PlaylistStore.MoviesOf | MovieAppApi/Src/Core/Repositories/PlaylistRepository.cs:48-50 | the included movies are exactly the rows whose foreign key is the playlist's id |
| PlaylistStore.WithoutPlaylist | MovieAppApi/Src/Core/Database/AppDbContext.cs:30-34 | the cascade keeps exactly the rows of other playlists, in order, with ascending ids |
| PlaylistStore.CascadeRemovesItsRows | MovieAppApi/Src/Core/Database/AppDbContext.cs:30-34 | the cascade removes as many rows as the deleted playlist held |
| PlaylistStore.MoviesOfAppend | MovieAppApi/Src/Core/Repositories/PlaylistRepository.cs:78-79 | an inserted row joins its own playlist's movies, at the end, and no other playlist's |
| PlaylistStore.FindMovie | MovieAppApi/Src/Core/Repositories/PlaylistRepository.cs:110-111 | `FirstOrDefault`: the first row matching playlist and movie, and none exactly when no row matches |
| PlaylistStore.RemoveAt | MovieAppApi/Src/Core/Repositories/PlaylistRepository.cs:114 | removing a row keeps every other row in order |
| PlaylistStore.Clock.UtcNow | MovieAppApi/Src/Core/Database/Entities/PlaylistEntity.cs:29-34 | each reading of the clock is later than the previous one |
| PlaylistStore.PlaylistRepository.constructor | MovieAppApi/Src/Core/Repositories/PlaylistRepository.cs:22-26 | an empty database satisfies the store invariant |
| PlaylistStore.PlaylistRepository.WithMovies | MovieAppApi/Src/Core/Repositories/PlaylistRepository.cs:36 | the playlist with exactly its own movie rows attached |
| PlaylistStore.PlaylistRepository.GetById | MovieAppApi/Src/Core/Repositories/PlaylistRepository.cs:46-51 | present exactly for a stored id, and then that row with its movies |
| PlaylistStore.PlaylistRepository.ListDown | MovieAppApi/Src/Core/Repositories/PlaylistRepository.cs:33-39 | the stored playlists with ids up to k, each exactly once, by decreasing id |
| PlaylistStore.PlaylistRepository.ListDownStep | MovieAppApi/Src/Core/Repositories/PlaylistRepository.cs:33-39 | putting playlist k in front of the listing below k lists everything up to k |
| PlaylistStore.PlaylistRepository.GetAll | MovieAppApi/Src/Core/Repositories/PlaylistRepository.cs:33-39 | every stored playlist appears, each with its movies, sorted by strictly decreasing creation time |
| PlaylistStore.PlaylistRepository.Create | MovieAppApi/Src/Core/Repositories/PlaylistRepository.cs:58-64 | the playlist is stored under a fresh positive id with its name unchanged, timestamps read from the clock, and nothing else changed |
| PlaylistStore.PlaylistRepository.AddMovie | MovieAppApi/Src/Core/Repositories/PlaylistRepository.cs:73-84 | a missing playlist fails with the not-found error and writes nothing; otherwise one row is appended with its playlist id forced, and only that playlist's update time is refreshed |
| PlaylistStore.PlaylistRepository.RemoveMovie | MovieAppApi/Src/Core/Repositories/PlaylistRepository.cs:108-125 | true exactly when a row matches; no match changes nothing; a match removes the first matching row and refreshes its playlist |
| PlaylistStore.PlaylistRepository.Update | MovieAppApi/Src/Core/Repositories/PlaylistRepository.cs:135-146 | a missing playlist fails and writes nothing; otherwise the name is replaced and the update time becomes strictly later; the returned entity has no movies |
| PlaylistStore.PlaylistRepository.Delete | MovieAppApi/Src/Core/Repositories/PlaylistRepository.cs:91-99 | true exactly for a stored id; then the playlist and all its movie rows are gone and no orphan row remains |
| PlaylistsApi.MovieToDto | MovieAppApi/Src/Controllers/PlaylistsController.cs:173-179 | the movie entry keeps every column of the row except its playlist foreign key |
| PlaylistsApi.MapToDto | MovieAppApi/Src/Controllers/PlaylistsController.cs:166-181 | id, name and creation time copied; one movie entry per movie, in order; the movie count equals the number of movies |
| PlaylistsApi.GetAllResponse | MovieAppApi/Src/Controllers/PlaylistsController.cs:38-40 | 200 with one DTO per playlist, in the repository's order |
| PlaylistsApi.GetByIdResponse | MovieAppApi/Src/Controllers/PlaylistsController.cs:53-55 | 200 exactly for a found playlist, with its DTO; otherwise 404 "Playlist not found" |
| PlaylistsApi.CreateResponse | MovieAppApi/Src/Controllers/PlaylistsController.cs:68-70 | 201 whose route value and body both carry the new playlist's id |
| PlaylistsApi.AddMovieResponse | MovieAppApi/Src/Controllers/PlaylistsController.cs:84-99 | success gives 200 "Movie added successfully", a not-found gives 404 "Playlist not found", and exactly the other failures propagate unchanged |
| PlaylistsApi.UpdateResponse | MovieAppApi/Src/Controllers/PlaylistsController.cs:114-122 | success gives 200 with the updated DTO, a not-found gives 404, and exactly the other failures propagate unchanged |
| PlaylistsApi.DeleteResponse | MovieAppApi/Src/Controllers/PlaylistsController.cs:135-137 | 204 with no body exactly when deleted, else 404 "Playlist not found" |
| PlaylistsApi.RemoveMovieResponse | MovieAppApi/Src/Controllers/PlaylistsController.cs:152-158 | 204 with no body exactly when removed, else 404 "Movie not found in playlist" |
| PlaylistsApi.DtoListsExactlyTheStoredMovies | MovieAppApi/Src/Controllers/PlaylistsController.cs:173-179 | a movie row's entry appears in a stored playlist's DTO exactly when the row belongs to that playlist |
| PlaylistsApi.NoMoviesUnderUnknownId | MovieAppApi/Src/Controllers/PlaylistsController.cs:68-70 | a playlist that no row references has no movies |
| PlaylistsApi.PlaylistsController.constructor | MovieAppApi/Src/Controllers/PlaylistsController.cs:24-27 | the controller holds the injected repository |
| PlaylistsApi.PlaylistsController.GetAll | MovieAppApi/Src/Controllers/PlaylistsController.cs:35-41 | 200 listing every stored playlist exactly once, newest first, each entry being `MapToDto` of that stored playlist with its movies |
| PlaylistsApi.PlaylistsController.GetById | MovieAppApi/Src/Controllers/PlaylistsController.cs:51-56 | 200 exactly for a stored id, with its name, creation time and its movie rows in table order; otherwise 404 |
| PlaylistsApi.PlaylistsController.Create | MovieAppApi/Src/Controllers/PlaylistsController.cs:66-71 | 201 with a fresh id, and fetching that id gives back exactly the body returned, with no movies |
| PlaylistsApi.PlaylistsController.AddMovie | MovieAppApi/Src/Controllers/PlaylistsController.cs:82-100 | 404 exactly for an unknown playlist, with no write; otherwise 200, and the new last row carries the request's movie, the playlist's id and a time before the playlist's refreshed update time |
| PlaylistsApi.PlaylistsController.Update | MovieAppApi/Src/Controllers/PlaylistsController.cs:111-123 | 404 exactly for an unknown playlist, with no write; otherwise 200 with the new name, the original creation time and no movies |
| PlaylistsApi.PlaylistsController.Delete | MovieAppApi/Src/Controllers/PlaylistsController.cs:133-138 | 204 with no body exactly for a stored id, which is then removed with exactly its rows; otherwise 404 "Playlist not found" and both tables unchanged |
| PlaylistsApi.PlaylistsController.RemoveMovie | MovieAppApi/Src/Controllers/PlaylistsController.cs:149-159 | 204 with no body exactly when the playlist lists that movie, and then its first matching row is removed and the name kept; otherwise 404 "Movie not found in playlist" and both tables unchanged |
| PlaylistsApi.CreateAddAndFetch | MovieAppApi/Src/Controllers/PlaylistsController.cs:51-100 | create, add a movie and fetch answers 200 with the created name and exactly that one movie |
| MoviesApi.ToMovieDto | MovieAppApi/Src/Controllers/MoviesController.cs:55-67 | the search item keeps every field of the movie model: the model is recoverable from it |
| MoviesApi.SearchResponse | MovieAppApi/Src/Controllers/MoviesController.cs:48-79 | 200 exactly for a service success, with paging copied and item i the projection of result i; any failure is 500 "An error occurred while searching for movies" and never propagates |
| MoviesApi.Search | MovieAppApi/Src/Controllers/MoviesController.cs:40-80 | 400 with the validation messages exactly for an invalid query; only 200, 400 or 500 are possible; a valid query passes its term and language to the service |
| MoviesApi.InvalidQueryNeverReachesService | MovieAppApi/Src/Controllers/MoviesController.cs:40 | the answer to an invalid query does not depend on the service |
| MoviesApi.SearchOverUpstreamPage | MovieAppApi/Src/Controllers/MoviesController.cs:51-67 | over an upstream page, the search answers 200 exactly when every record converts, and then item i is the projection of record i |
| MoviesApi.GetMovieByIdResponse | MovieAppApi/Src/Controllers/MoviesController.cs:96-112 | 200 with the model itself exactly on success; 404 with the exception's own message exactly for a missing movie; any other failure is 500 "Error retrieving movie" |
| MoviesApi.OtherFailuresIndistinguishable | MovieAppApi/Src/Controllers/MoviesController.cs:107-111 | every failure other than a missing movie gives the same answer |
| SearchQuery.ValidationErrors | MovieAppApi/Src/Views/DTO/SearchMovies/SearchMoviesRequestQueryDto.cs:13-21 | "Search term is required" exactly for a null or blank term; "Language is required" exactly for a null or blank language; "Language must be one of: en, fr" exactly for a language other than "en" or "fr" |
| SearchQuery.IsValid | MovieAppApi/Src/Views/DTO/SearchMovies/SearchMoviesRequestQueryDto.cs:13-21 | a query is accepted exactly when the term's `[Required]` and the language's `[AllowedValues("en", "fr")]` hold |
| SearchQuery.NoErrorsIffValid | MovieAppApi/Src/Views/DTO/SearchMovies/SearchMoviesRequestQueryDto.cs:13-21 | a query passes exactly when its term is not blank and its language is "en" or "fr" |
| SearchQuery.BlankTermRejected | MovieAppApi/Src/Views/DTO/SearchMovies/SearchMoviesRequestQueryDto.cs:13-14 | an empty or whitespace term is rejected with "Search term is required" |
| SearchQuery.EmptyLanguageFailsBothRules | MovieAppApi/Src/Views/DTO/SearchMovies/SearchMoviesRequestQueryDto.cs:19-20 | an empty language draws both language messages |
| SearchQuery.LanguageComparedExactly | MovieAppApi/Src/Views/DTO/SearchMovies/SearchMoviesRequestQueryDto.cs:20 | "en" and "fr" with a non-blank term are accepted; "EN" and "en " are not |
| EnvConfig.GetVariable | MovieAppApi/Src/Core/Services/Environment/EnvService.cs:79-100 | fails exactly for a required variable that is unset, empty or whitespace, naming the key; an optional one then reads as ""; any other value is returned untrimmed |
| EnvConfig.MissingVariable | MovieAppApi/Src/Core/Services/Environment/EnvService.cs:87 | the error for a missing required variable is an `InvalidOperationException` whose message names the key |
| EnvConfig.IsSecretKey | MovieAppApi/Src/Core/Services/Environment/EnvService.cs:94 | a key is secret exactly when "KEY" or "SECRET" occurs in it at some position |
| EnvConfig.LoggedValue | MovieAppApi/Src/Core/Services/Environment/EnvService.cs:94-97 | the value is masked exactly when the key contains "KEY" or "SECRET" |
| EnvConfig.ApiKeyIsMasked | MovieAppApi/Src/Core/Services/Environment/EnvService.cs:94-95 | the API key's value is never shown in the log |
| EnvConfig.Coalesce | MovieAppApi/Src/Core/Services/Environment/EnvService.cs:61 | `??` substitutes the fallback only for null |
| EnvConfig.LoadedConfiguration | MovieAppApi/Src/Core/Services/Environment/EnvService.cs:59-61 | fails exactly when the API key is unset or blank; otherwise the key is the variable's exact value |
| EnvConfig.ProductionFallbackNeverChosen | MovieAppApi/Src/Core/Services/Environment/EnvService.cs:61 | the environment name is the set value, or "" when unset or blank; it is "Production" only when so set |
| EnvConfig.EnvService.constructor | MovieAppApi/Src/Core/Services/Environment/EnvService.cs:17-23 | both properties start empty |
| EnvConfig.EnvService.LoadConfiguration | MovieAppApi/Src/Core/Services/Environment/EnvService.cs:41-69 | on success the properties equal the loaded configuration; a missing key fails with its error and assigns nothing |
| EnvConfig.NewEnvService | MovieAppApi/Src/Core/Services/Environment/EnvService.cs:30-34 | construction fails exactly when the API key is missing; otherwise the new service holds the loaded configuration |

## Left out

- HTTP transport, JSON serialization and routing are left out. Responses are modelled as a status plus a body value. The `Location` header of `CreatedAtAction` is modelled only as the route id.
- TmdbService (`MovieAppApi/Src/Core/Services/FetchMovies/Tmdb/TmdbService.cs`) is not part of this model: its HTTP calls, URL building and JSON deserialization are network I/O and library code. Its results enter the model as an abstract service outcome, or as an already deserialized upstream page.
- MovieService delegates without a rule of its own, so the controllers take its outcome directly. `GetMovieById`'s `language` parameter, which only passes through to it, is not modelled.
- Program.cs (dependency injection, CORS, pipeline setup) and HealthController are not part of this model.
- Logging is left out everywhere. The only modelled piece is the decision whether the environment service masks a value (`LoggedValue`).
- EF Core and SQLite mechanics are replaced by two tables and two counters, with each operation modelled as one atomic step. These mechanics are asynchronous calls, transactions, change tracking and identity generation.
- Database failures other than the repository's own not-found error are not produced by the store model. The controller mappings still let such failures propagate.
- Concurrent requests and last-write-wins races are left out: the model is sequential.
- The identity columns are 32-bit integers in the source; the model does not bound them and does not model overflow after 2^31 - 1 rows.
- `DateTime.UtcNow` is an injected clock that always advances. Real clock resolution could give equal readings; the model does not capture that.
- `DateTime.Parse` is an opaque parser parameter.
- Common.IntToString: string interpolation formats with the current culture; the model fixes a culture whose negative sign is '-' and whose digits are ASCII.
- The `double` fields are opaque bit patterns carried through unchanged.
- The `MaxLength` annotations of the entities are schema metadata that the repository never checks, so the store accepts any name and title.
- The `[Required][MinLength(1)]` rule on the playlist request bodies is not modelled. The repository and the controller accept any name they are given, and the framework's automatic 400 for those bodies is not modelled.
- Loading the `.env` file is file I/O. The injected environment map stands for the process environment after that file has been loaded.
- The automatic 400 answer for an invalid search query is modelled as the list of messages in declaration order. The framework's answer groups them per property.
- EnvConfig.ApiKeyIsMasked: states only that the API key's value is masked. It does not state that the environment name is logged unmasked.
