/** The playlists endpoints: each action calls the repository once and maps
    its outcome to an HTTP answer. The mappings are pure functions of that
    outcome; the controller class composes them with the repository. */
module PlaylistsApi {
  import opened Common
  import opened Exceptions
  import opened PlaylistStore

  /** `PlaylistMovieResponseDto`. */
  datatype PlaylistMovieResponseDto = PlaylistMovieResponseDto(id: int, tmdbId: int, title: string, addedAt: DateTime)

  /** `PlaylistResponseDto`: it carries no `UpdatedAt`. */
  datatype PlaylistResponseDto = PlaylistResponseDto(id: int, name: string, createdAt: DateTime, movies: seq<PlaylistMovieResponseDto>)
  {
    /** `MovieCount`, computed from the list it accompanies. */
    function MovieCount(): nat
    {
      |movies|
    }
  }

  /** `CreatePlaylistRequestDto` and `UpdatePlaylistRequestDto`. */
  datatype PlaylistNameRequestDto = PlaylistNameRequestDto(name: string)

  /** `AddMovieToPlaylistRequestDto`. */
  datatype AddMovieToPlaylistRequestDto = AddMovieToPlaylistRequestDto(tmdbId: int, title: string)

  /** The bodies the actions answer with. `Created` is `CreatedAtAction`:
      the route value `id` of `GetById`, and the created playlist. */
  datatype Body =
    | NoBody
    | Message(message: string)
    | One(playlist: PlaylistResponseDto)
    | Many(playlists: seq<PlaylistResponseDto>)
    | Created(routeId: int, created: PlaylistResponseDto)

  datatype Response = Response(status: int, body: Body)

  const PlaylistNotFoundText := "Playlist not found"
  const MovieAddedText := "Movie added successfully"
  const MovieNotInPlaylistText := "Movie not found in playlist"

  /** The element mapping inside `MapToDto`: every column of the row except
      its foreign key. */
  function MovieToDto(m: MovieRow): (d: PlaylistMovieResponseDto)
    ensures MovieRow(d.id, d.tmdbId, d.title, d.addedAt, m.playlistId) == m
  {
    PlaylistMovieResponseDto(m.id, m.tmdbId, m.title, m.addedAt)
  }

  /** `MapToDto`: identity, name and creation time, and one entry per movie in the entity's order. */
  function MapToDto(p: Playlist): (r: PlaylistResponseDto)
    ensures r.id == p.id && r.name == p.name && r.createdAt == p.createdAt
    ensures r.MovieCount() == |p.movies|
    ensures forall i :: 0 <= i < |p.movies| ==> r.movies[i] == MovieToDto(p.movies[i])
  {
    PlaylistResponseDto(p.id, p.name, p.createdAt, seq(|p.movies|, i requires 0 <= i < |p.movies| => MovieToDto(p.movies[i])))
  }

  /** `GetAll`: 200 with one DTO per playlist, in the repository's order. */
  function GetAllResponse(playlists: seq<Playlist>): (r: Response)
    ensures r.status == 200 && r.body.Many? && |r.body.playlists| == |playlists|
    ensures forall i :: 0 <= i < |playlists| ==> r.body.playlists[i] == MapToDto(playlists[i])
  {
    Response(200, Many(seq(|playlists|, i requires 0 <= i < |playlists| => MapToDto(playlists[i]))))
  }

  /** `GetById`: 404 for null, else 200 with the DTO. */
  function GetByIdResponse(found: Option<Playlist>): (r: Response)
    ensures r.status == 200 <==> found.Some?
    ensures found.None? ==> r == Response(404, Message(PlaylistNotFoundText))
    ensures found.Some? ==> r.body == One(MapToDto(found.value))
  {
    match found
    case None => Response(404, Message(PlaylistNotFoundText))
    case Some(p) => Response(200, One(MapToDto(p)))
  }

  /** `Create`: 201, the route value is the new id and the body its DTO. */
  function CreateResponse(created: Playlist): (r: Response)
    ensures r.status == 201 && r.body.Created? && r.body.routeId == created.id == r.body.created.id
    ensures r.body.created == MapToDto(created)
  {
    Response(201, Created(created.id, MapToDto(created)))
  }

  /** `AddMovie`: the `catch (KeyNotFoundException)` turns that one failure
      into 404; every other failure propagates to the middleware. */
  function AddMovieResponse(outcome: Result<(), Exception>): (r: Result<Response, Exception>)
    ensures r.Failure? <==> outcome.Failure? && !outcome.error.KeyNotFound?
    ensures r.Failure? ==> r.error == outcome.error
    ensures outcome.Success? ==> r == Success(Response(200, Message(MovieAddedText)))
    ensures outcome.Failure? && outcome.error.KeyNotFound? ==> r == Success(Response(404, Message(PlaylistNotFoundText)))
  {
    match outcome
    case Success(_) => Success(Response(200, Message(MovieAddedText)))
    case Failure(KeyNotFound(_)) => Success(Response(404, Message(PlaylistNotFoundText)))
    case Failure(e) => Failure(e)
  }

  /** `Update`: as `AddMovie`, with the updated entity's DTO on success. */
  function UpdateResponse(outcome: Result<Playlist, Exception>): (r: Result<Response, Exception>)
    ensures r.Failure? <==> outcome.Failure? && !outcome.error.KeyNotFound?
    ensures r.Failure? ==> r.error == outcome.error
    ensures outcome.Success? ==> r == Success(Response(200, One(MapToDto(outcome.value))))
    ensures outcome.Failure? && outcome.error.KeyNotFound? ==> r == Success(Response(404, Message(PlaylistNotFoundText)))
  {
    match outcome
    case Success(p) => Success(Response(200, One(MapToDto(p))))
    case Failure(KeyNotFound(_)) => Success(Response(404, Message(PlaylistNotFoundText)))
    case Failure(e) => Failure(e)
  }

  /** `Delete`: 204 with no body, or 404. */
  function DeleteResponse(deleted: bool): (r: Response)
    ensures r.status == 204 <==> deleted
    ensures r.status == 204 ==> r.body == NoBody
    ensures !deleted ==> r == Response(404, Message(PlaylistNotFoundText))
  {
    if deleted then Response(204, NoBody) else Response(404, Message(PlaylistNotFoundText))
  }

  /** `RemoveMovie`: 204 with no body, or 404 naming the movie rather than the playlist. */
  function RemoveMovieResponse(removed: bool): (r: Response)
    ensures r.status == 204 <==> removed
    ensures r.status == 204 ==> r.body == NoBody
    ensures !removed ==> r == Response(404, Message(MovieNotInPlaylistText))
  {
    if removed then Response(204, NoBody) else Response(404, Message(MovieNotInPlaylistText))
  }

  /** A row's DTO appears in a stored playlist's DTO exactly when the row
      belongs to that playlist: movie ids are unique, so no row of another
      playlist can produce the same entry. */
  lemma DtoListsExactlyTheStoredMovies(repository: PlaylistRepository, id: int)
    requires repository.Valid() && id in repository.playlists
    ensures forall m :: m in repository.movies ==>
      (MovieToDto(m) in MapToDto(repository.GetById(id).value).movies <==> m.playlistId == id)
  {
  }

  /** Rows that all reference other playlists leave playlist `id` with no movies. */
  lemma {:induction false} NoMoviesUnderUnknownId(rows: seq<MovieRow>, id: int)
    requires forall i :: 0 <= i < |rows| ==> rows[i].playlistId != id
    ensures MoviesOf(rows, id) == []
  {
    if rows != [] {
      NoMoviesUnderUnknownId(rows[1..], id);
    }
  }

  /** `PlaylistsController` over its injected repository. */
  class PlaylistsController {
    const repository: PlaylistRepository

    constructor (repository: PlaylistRepository)
      ensures this.repository == repository
    {
      this.repository := repository;
    }

    /** `GET api/playlists`: every stored playlist exactly once, newest first. */
    method GetAll() returns (r: Response)
      requires repository.Valid()
      ensures r.status == 200 && r.body.Many?
      ensures forall id :: id in repository.playlists <==> exists i :: 0 <= i < |r.body.playlists| && r.body.playlists[i].id == id
      ensures forall i, j :: 0 <= i < j < |r.body.playlists| ==> r.body.playlists[i].createdAt > r.body.playlists[j].createdAt
      ensures forall i :: 0 <= i < |r.body.playlists| ==>
        r.body.playlists[i].MovieCount() == |MoviesOf(repository.movies, r.body.playlists[i].id)|
      ensures forall i :: 0 <= i < |r.body.playlists| ==>
        r.body.playlists[i].id in repository.playlists
        && r.body.playlists[i] == MapToDto(repository.WithMovies(repository.playlists[r.body.playlists[i].id]))
    {
      var playlists := repository.GetAll();
      r := GetAllResponse(playlists);
    }

    /** `GET api/playlists/{id}`: 200 exactly for a stored id, with its name and movies. */
    method GetById(id: int) returns (r: Response)
      requires repository.Valid()
      ensures r.status == 200 <==> id in repository.playlists
      ensures id !in repository.playlists ==> r == Response(404, Message(PlaylistNotFoundText))
      ensures id in repository.playlists ==>
        && r.body.One? && r.body.playlist.id == id
        && r.body.playlist.name == repository.playlists[id].name
        && r.body.playlist.createdAt == repository.playlists[id].createdAt
        && r.body.playlist.MovieCount() == |MoviesOf(repository.movies, id)|
        && forall i :: 0 <= i < |MoviesOf(repository.movies, id)| ==>
             r.body.playlist.movies[i] == MovieToDto(MoviesOf(repository.movies, id)[i])
    {
      var found := repository.GetById(id);
      r := GetByIdResponse(found);
    }

    /** `POST api/playlists`: 201, and the route value names a playlist whose
        representation is the body just returned, with no movies. */
    method Create(request: PlaylistNameRequestDto) returns (r: Response)
      requires repository.Valid()
      modifies repository, repository.clock
      ensures repository.Valid()
      ensures r.status == 201 && r.body.Created?
      ensures r.body.routeId == old(repository.nextPlaylistId) && r.body.routeId !in old(repository.playlists)
      ensures r.body.created.name == request.name && r.body.created.MovieCount() == 0
      ensures r.body.routeId in repository.playlists && repository.playlists[r.body.routeId].name == request.name
      ensures repository.movies == old(repository.movies)
      ensures forall i :: 0 <= i < |repository.movies| ==> repository.movies[i].playlistId != r.body.routeId
      ensures repository.GetById(r.body.routeId).Some?
      ensures GetByIdResponse(repository.GetById(r.body.routeId)).body == One(r.body.created)
    {
      var created := repository.Create(request.name);
      r := CreateResponse(created);
      NoMoviesUnderUnknownId(repository.movies, created.id);
    }

    /** `POST api/playlists/{id}/movies`: 404 and no write for an unknown
        playlist; otherwise 200, and the movie is now listed under the
        playlist, stamped before the playlist's refreshed `UpdatedAt`. */
    method AddMovie(id: int, request: AddMovieToPlaylistRequestDto) returns (r: Result<Response, Exception>)
      requires repository.Valid()
      modifies repository, repository.clock
      ensures repository.Valid()
      ensures r.Success?
      ensures r.value.status == 404 <==> id !in old(repository.playlists)
      ensures id !in old(repository.playlists) ==>
        r.value.body == Message(PlaylistNotFoundText)
        && repository.playlists == old(repository.playlists) && repository.movies == old(repository.movies)
      ensures id in old(repository.playlists) ==>
        && r.value == Response(200, Message(MovieAddedText))
        && id in repository.playlists && repository.playlists[id].name == old(repository.playlists[id].name)
        && |repository.movies| == |old(repository.movies)| + 1
        && repository.movies[..|old(repository.movies)|] == old(repository.movies)
        && var m := repository.movies[|repository.movies| - 1];
           m.tmdbId == request.tmdbId && m.title == request.title && m.playlistId == id
           && old(repository.clock.now) < m.addedAt < repository.playlists[id].updatedAt
    {
      var addedAt := repository.clock.UtcNow();
      var outcome := repository.AddMovie(id, NewMovie(request.tmdbId, request.title, addedAt, id));
      r := AddMovieResponse(outcome);
    }

    /** `PUT api/playlists/{id}`: 404 and no write for an unknown playlist;
        otherwise 200 with the new name. The entity it maps was found without
        its movies, so the body always lists none. */
    method Update(id: int, request: PlaylistNameRequestDto) returns (r: Result<Response, Exception>)
      requires repository.Valid()
      modifies repository, repository.clock
      ensures repository.Valid()
      ensures r.Success?
      ensures r.value.status == 404 <==> id !in old(repository.playlists)
      ensures id !in old(repository.playlists) ==>
        r.value.body == Message(PlaylistNotFoundText)
        && repository.playlists == old(repository.playlists) && repository.movies == old(repository.movies)
      ensures id in old(repository.playlists) ==>
        && r.value.status == 200 && r.value.body.One?
        && r.value.body.playlist == PlaylistResponseDto(id, request.name, old(repository.playlists[id].createdAt), [])
        && id in repository.playlists && repository.playlists[id].name == request.name
        && repository.movies == old(repository.movies)
    {
      var outcome := repository.Update(id, request.name);
      r := UpdateResponse(outcome);
    }

    /** `DELETE api/playlists/{id}`: 204 exactly for a stored id; afterwards
        the id is unknown and no movie row references it. */
    method Delete(id: int) returns (r: Response)
      requires repository.Valid()
      modifies repository
      ensures repository.Valid()
      ensures r.status == 204 <==> id in old(repository.playlists)
      ensures r.status != 204 ==>
        && r == Response(404, Message(PlaylistNotFoundText))
        && repository.playlists == old(repository.playlists) && repository.movies == old(repository.movies)
      ensures r.status == 204 ==>
        && r.body == NoBody
        && repository.playlists == old(repository.playlists) - {id}
        && repository.movies == WithoutPlaylist(old(repository.movies), id)
        && |repository.movies| == |old(repository.movies)| - |MoviesOf(old(repository.movies), id)|
      ensures repository.GetById(id).None?
      ensures forall i :: 0 <= i < |repository.movies| ==> repository.movies[i].playlistId != id
    {
      var deleted := repository.Delete(id);
      r := DeleteResponse(deleted);
    }

    /** `DELETE api/playlists/{id}/movies/{tmdbId}`: 204 exactly when the
        playlist lists that movie, and then one row fewer. */
    method RemoveMovie(id: int, tmdbId: int) returns (r: Response)
      requires repository.Valid()
      modifies repository, repository.clock
      ensures repository.Valid()
      ensures r.status == 204 <==> exists i :: 0 <= i < |old(repository.movies)| && IsMatch(old(repository.movies)[i], id, tmdbId)
      ensures r.status != 204 ==>
        && r == Response(404, Message(MovieNotInPlaylistText))
        && repository.playlists == old(repository.playlists) && repository.movies == old(repository.movies)
      ensures r.status == 204 ==>
        && r.body == NoBody
        && FindMovie(old(repository.movies), id, tmdbId).Some?
        && repository.movies == RemoveAt(old(repository.movies), FindMovie(old(repository.movies), id, tmdbId).value)
        && |repository.movies| == |old(repository.movies)| - 1
        && id in repository.playlists && repository.playlists[id].name == old(repository.playlists[id].name)
    {
      var removed := repository.RemoveMovie(id, tmdbId);
      r := RemoveMovieResponse(removed);
    }
  }

  /** Creating a playlist, adding a movie to it and fetching it by id
      answers 200 with that playlist listing exactly that movie. */
  method CreateAddAndFetch(controller: PlaylistsController, name: string, request: AddMovieToPlaylistRequestDto)
    returns (fetched: Response)
    requires controller.repository.Valid()
    modifies controller.repository, controller.repository.clock
    ensures controller.repository.Valid()
    ensures fetched.status == 200 && fetched.body.One?
    ensures fetched.body.playlist.name == name
    ensures fetched.body.playlist.MovieCount() == 1
    ensures fetched.body.playlist.movies[0].tmdbId == request.tmdbId
    ensures fetched.body.playlist.movies[0].title == request.title
  {
    var repository := controller.repository;
    var created := controller.Create(PlaylistNameRequestDto(name));
    var id := created.body.routeId;
    ghost var before := repository.movies;
    var added := controller.AddMovie(id, request);
    var m := repository.movies[|repository.movies| - 1];
    assert repository.movies == before + [m];
    MoviesOfAppend(before, m, id);
    NoMoviesUnderUnknownId(before, id);
    assert MoviesOf(repository.movies, id) == [m];
    fetched := controller.GetById(id);
  }
}
