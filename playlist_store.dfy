/** The playlist repository over its two tables: playlists keyed by id, and
    playlist-movie rows pointing at their playlist by a foreign key with
    cascade delete. Identity columns become counters, and `DateTime.UtcNow`
    becomes an injected clock. */
module PlaylistStore {
  import opened Common
  import opened Exceptions

  /** A row of the `Playlists` table. */
  datatype PlaylistRow = PlaylistRow(id: int, name: string, createdAt: DateTime, updatedAt: DateTime)

  /** A row of the `PlaylistMovies` table; `playlistId` is the foreign key. */
  datatype MovieRow = MovieRow(id: int, tmdbId: int, title: string, addedAt: DateTime, playlistId: int)

  /** A playlist entity together with its `Movies` collection as a query hands it out. */
  datatype Playlist = Playlist(id: int, name: string, createdAt: DateTime, updatedAt: DateTime, movies: seq<MovieRow>)

  /** The movie entity a caller builds for `AddMovieAsync`: the store assigns its id. */
  datatype NewMovie = NewMovie(tmdbId: int, title: string, addedAt: DateTime, playlistId: int)

  /** The rows that belong to playlist `playlistId`, in table order. */
  function MoviesOf(rows: seq<MovieRow>, playlistId: int): (r: seq<MovieRow>)
    ensures forall m :: m in r <==> m in rows && m.playlistId == playlistId
    ensures |r| <= |rows|
  {
    if rows == [] then []
    else (if rows[0].playlistId == playlistId then [rows[0]] else []) + MoviesOf(rows[1..], playlistId)
  }

  /** Movie ids increase along the table. */
  ghost predicate IdsAscending(rows: seq<MovieRow>)
  {
    forall i, j :: 0 <= i < j < |rows| ==> rows[i].id < rows[j].id
  }

  /** What the cascade leaves of the movie table when playlist `playlistId`
      is deleted: every other row, in the same order. */
  function WithoutPlaylist(rows: seq<MovieRow>, playlistId: int): (r: seq<MovieRow>)
    ensures forall m :: m in r <==> m in rows && m.playlistId != playlistId
    ensures IdsAscending(rows) ==> IdsAscending(r)
  {
    if rows == [] then []
    else
      var rest := WithoutPlaylist(rows[1..], playlistId);
      if rows[0].playlistId == playlistId then rest
      else
        assert IdsAscending(rows) ==> IdsAscending([rows[0]] + rest) by {
          if IdsAscending(rows) {
            forall m | m in rest ensures rows[0].id < m.id {
              var j :| 0 <= j < |rows[1..]| && rows[1..][j] == m;
              assert rows[j + 1] == m;
            }
          }
        }
        [rows[0]] + rest
  }

  /** The cascade removes exactly the rows of the deleted playlist: one row
      fewer for each movie the playlist held. */
  lemma {:induction false} CascadeRemovesItsRows(rows: seq<MovieRow>, playlistId: int)
    ensures |WithoutPlaylist(rows, playlistId)| == |rows| - |MoviesOf(rows, playlistId)|
  {
    if rows != [] {
      CascadeRemovesItsRows(rows[1..], playlistId);
    }
  }

  /** Appending a row extends the movies of its own playlist by that row and no other playlist's. */
  lemma {:induction false} MoviesOfAppend(rows: seq<MovieRow>, m: MovieRow, playlistId: int)
    ensures MoviesOf(rows + [m], playlistId) == MoviesOf(rows, playlistId) + (if m.playlistId == playlistId then [m] else [])
  {
    if rows == [] {
      assert rows + [m] == [m];
    } else {
      assert (rows + [m])[1..] == rows[1..] + [m];
      MoviesOfAppend(rows[1..], m, playlistId);
    }
  }

  /** Row `m` is one for movie `tmdbId` in playlist `playlistId`. */
  predicate IsMatch(m: MovieRow, playlistId: int, tmdbId: int)
  {
    m.playlistId == playlistId && m.tmdbId == tmdbId
  }

  /** `FirstOrDefault(m => m.PlaylistId == playlistId && m.TmdbId == tmdbId)`:
      the index of the first matching row in table order. */
  function FindMovie(rows: seq<MovieRow>, playlistId: int, tmdbId: int): (r: Option<nat>)
    ensures r.Some? ==> r.value < |rows| && IsMatch(rows[r.value], playlistId, tmdbId)
    ensures r.Some? ==> forall j :: 0 <= j < r.value ==> !IsMatch(rows[j], playlistId, tmdbId)
    ensures r.None? <==> forall j :: 0 <= j < |rows| ==> !IsMatch(rows[j], playlistId, tmdbId)
  {
    if rows == [] then None
    else if IsMatch(rows[0], playlistId, tmdbId) then Some(0)
    else
      match FindMovie(rows[1..], playlistId, tmdbId)
      case None =>
        assert forall j :: 1 <= j < |rows| ==> rows[j] == rows[1..][j - 1];
        None
      case Some(k) => Some(k + 1)
  }

  /** The table without row `i`. */
  function RemoveAt(rows: seq<MovieRow>, i: nat): (r: seq<MovieRow>)
    requires i < |rows|
    ensures |r| == |rows| - 1
    ensures forall j :: 0 <= j < i ==> r[j] == rows[j]
    ensures forall j :: i <= j < |r| ==> r[j] == rows[j + 1]
  {
    rows[..i] + rows[i + 1..]
  }

  /** The injected replacement for `DateTime.UtcNow`: every reading is later than the one before. */
  class Clock {
    var now: DateTime

    constructor (start: DateTime)
      ensures now == start
    {
      now := start;
    }

    method UtcNow() returns (t: DateTime)
      modifies this
      ensures old(now) < t && now == t
    {
      now := now + 1;
      t := now;
    }
  }

  class PlaylistRepository {
    /** The `Playlists` table, keyed by id. */
    var playlists: map<int, PlaylistRow>
    /** The `PlaylistMovies` table, in store order. */
    var movies: seq<MovieRow>
    /** The next value of each identity column; ids are never reused. */
    var nextPlaylistId: int
    var nextMovieId: int
    const clock: Clock

    /** The store's invariant: keys match ids and are below the counter,
        timestamps are ordered and not in the future, creation times grow
        with the id, and every movie row references an existing playlist. */
    ghost predicate Valid()
      reads this, clock
    {
      && 1 <= nextPlaylistId && 1 <= nextMovieId
      && (forall id :: id in playlists ==> 0 < id < nextPlaylistId && playlists[id].id == id)
      && (forall id :: id in playlists ==> playlists[id].createdAt <= playlists[id].updatedAt <= clock.now)
      && (forall id1, id2 :: id1 in playlists && id2 in playlists && id1 < id2 ==>
            playlists[id1].createdAt < playlists[id2].createdAt)
      && (forall i :: 0 <= i < |movies| ==> movies[i].playlistId in playlists)
      && (forall i :: 0 <= i < |movies| ==> 0 < movies[i].id < nextMovieId)
      && IdsAscending(movies)
    }

    /** A repository over an empty database. */
    constructor (clock: Clock)
      ensures Valid() && this.clock == clock
      ensures playlists == map[] && movies == []
    {
      playlists := map[];
      movies := [];
      nextPlaylistId := 1;
      nextMovieId := 1;
      this.clock := clock;
    }

    /** A playlist row with its movies attached (`Include(p => p.Movies)`). */
    function WithMovies(row: PlaylistRow): (p: Playlist)
      reads this
      ensures p.id == row.id && p.name == row.name && p.createdAt == row.createdAt && p.updatedAt == row.updatedAt
      ensures forall m :: m in p.movies <==> m in movies && m.playlistId == row.id
    {
      Playlist(row.id, row.name, row.createdAt, row.updatedAt, MoviesOf(movies, row.id))
    }

    /** `GetByIdAsync`: the playlist with its movies, or null. */
    function GetById(id: int): (r: Option<Playlist>)
      reads this, clock
      requires Valid()
      ensures r.Some? <==> id in playlists
      ensures r.Some? ==> r.value.id == id && r.value == WithMovies(playlists[id])
    {
      if id in playlists then Some(WithMovies(playlists[id])) else None
    }

    /** `r` lists stored playlists with their movies, with ids at most `k`, by decreasing id. */
    ghost predicate ListedDown(r: seq<Playlist>, k: int)
      reads this
    {
      && (forall i :: 0 <= i < |r| ==> r[i].id in playlists && r[i].id <= k && r[i] == WithMovies(playlists[r[i].id]))
      && (forall i, j :: 0 <= i < j < |r| ==> r[i].id > r[j].id)
    }

    /** Every stored playlist with id at most `k` occurs in `r`. */
    ghost predicate CoversUpTo(r: seq<Playlist>, k: int)
      reads this
    {
      forall id :: id in playlists && id <= k ==> exists i :: 0 <= i < |r| && r[i].id == id
    }

    /** The playlists with ids in `1..k`, by decreasing id. */
    function ListDown(k: int): (r: seq<Playlist>)
      reads this, clock
      requires Valid()
      decreases k
      ensures ListedDown(r, k) && CoversUpTo(r, k)
    {
      if k <= 0 then []
      else
        var rest := ListDown(k - 1);
        if k in playlists then
          ListDownStep(rest, k);
          [WithMovies(playlists[k])] + rest
        else
          rest
    }

    /** Putting playlist `k` in front of the listing up to `k - 1` gives the listing up to `k`. */
    lemma ListDownStep(rest: seq<Playlist>, k: int)
      requires Valid() && k in playlists
      requires ListedDown(rest, k - 1) && CoversUpTo(rest, k - 1)
      ensures ListedDown([WithMovies(playlists[k])] + rest, k) && CoversUpTo([WithMovies(playlists[k])] + rest, k)
    {
      var head := WithMovies(playlists[k]);
      assert head.id == k;
      var r := [head] + rest;
      forall i | 0 <= i < |r| ensures r[i].id in playlists && r[i].id <= k && r[i] == WithMovies(playlists[r[i].id]) {
        if i > 0 {
          assert r[i] == rest[i - 1];
        }
      }
      forall i, j | 0 <= i < j < |r| ensures r[i].id > r[j].id {
        assert r[j] == rest[j - 1];
        if i > 0 {
          assert r[i] == rest[i - 1];
        }
      }
      forall id | id in playlists && id <= k ensures exists i :: 0 <= i < |r| && r[i].id == id {
        if id == k {
          assert r[0].id == id;
        } else {
          var i :| 0 <= i < |rest| && rest[i].id == id;
          assert r[i + 1].id == id;
        }
      }
    }

    /** `GetAllAsync`: every playlist with its movies, newest first. Creation
        times are distinct, so this order is the only one `OrderByDescending`
        can produce. */
    function GetAll(): (r: seq<Playlist>)
      reads this, clock
      requires Valid()
      ensures forall i :: 0 <= i < |r| ==> r[i].id in playlists && r[i] == WithMovies(playlists[r[i].id])
      ensures forall id :: id in playlists ==> exists i :: 0 <= i < |r| && r[i].id == id
      ensures forall i, j :: 0 <= i < j < |r| ==> r[i].createdAt > r[j].createdAt
    {
      ListDown(nextPlaylistId - 1)
    }

    /** `CreateAsync` on a fresh entity: the entity's initializers read the
        clock for `CreatedAt` and then for `UpdatedAt`, and the store assigns
        the next id. */
    method Create(name: string) returns (created: Playlist)
      requires Valid()
      modifies this, clock
      ensures Valid()
      ensures created.id == old(nextPlaylistId) && created.id > 0 && created.id !in old(playlists)
      ensures created.name == name && created.movies == []
      ensures old(clock.now) < created.createdAt <= created.updatedAt == clock.now
      ensures playlists == old(playlists)[created.id := PlaylistRow(created.id, name, created.createdAt, created.updatedAt)]
      ensures movies == old(movies) && nextMovieId == old(nextMovieId) && nextPlaylistId == old(nextPlaylistId) + 1
    {
      var createdAt := clock.UtcNow();
      var updatedAt := clock.UtcNow();
      var id := nextPlaylistId;
      playlists := playlists[id := PlaylistRow(id, name, createdAt, updatedAt)];
      nextPlaylistId := nextPlaylistId + 1;
      created := Playlist(id, name, createdAt, updatedAt, []);
    }

    /** `AddMovieAsync`: a missing playlist throws and nothing is written;
        otherwise the row is inserted under that playlist and the playlist's
        `UpdatedAt` is refreshed in the same commit. */
    method AddMovie(playlistId: int, movie: NewMovie) returns (outcome: Result<(), Exception>)
      requires Valid()
      modifies this, clock
      ensures Valid()
      ensures playlistId !in old(playlists) ==>
        outcome == Failure(PlaylistKeyNotFound(playlistId)) && unchanged(this) && unchanged(clock)
      ensures playlistId in old(playlists) ==>
        && outcome == Success(())
        && movies == old(movies) + [MovieRow(old(nextMovieId), movie.tmdbId, movie.title, movie.addedAt, playlistId)]
        && old(clock.now) < clock.now
        && playlists == old(playlists)[playlistId := old(playlists)[playlistId].(updatedAt := clock.now)]
        && nextMovieId == old(nextMovieId) + 1 && nextPlaylistId == old(nextPlaylistId)
    {
      if playlistId !in playlists {
        return Failure(PlaylistKeyNotFound(playlistId));
      }
      var row := MovieRow(nextMovieId, movie.tmdbId, movie.title, movie.addedAt, playlistId);
      movies := movies + [row];
      nextMovieId := nextMovieId + 1;
      var now := clock.UtcNow();
      playlists := playlists[playlistId := playlists[playlistId].(updatedAt := now)];
      outcome := Success(());
    }

    /** `RemoveMovieAsync`: no matching row gives false and no write; a match
        removes the first matching row and refreshes its playlist. */
    method RemoveMovie(playlistId: int, tmdbId: int) returns (removed: bool)
      requires Valid()
      modifies this, clock
      ensures Valid()
      ensures removed <==> exists i :: 0 <= i < |old(movies)| && IsMatch(old(movies)[i], playlistId, tmdbId)
      ensures !removed ==> unchanged(this) && unchanged(clock)
      ensures removed ==>
        && FindMovie(old(movies), playlistId, tmdbId).Some?
        && movies == RemoveAt(old(movies), FindMovie(old(movies), playlistId, tmdbId).value)
        && playlistId in old(playlists) && old(clock.now) < clock.now
        && playlists == old(playlists)[playlistId := old(playlists)[playlistId].(updatedAt := clock.now)]
        && nextMovieId == old(nextMovieId) && nextPlaylistId == old(nextPlaylistId)
    {
      var found := FindMovie(movies, playlistId, tmdbId);
      if found.None? {
        return false;
      }
      var i := found.value;
      ghost var parentExists := movies[i].playlistId in playlists;
      movies := RemoveAt(movies, i);
      if playlistId in playlists {
        var now := clock.UtcNow();
        playlists := playlists[playlistId := playlists[playlistId].(updatedAt := now)];
      }
      removed := true;
      assert IdsAscending(movies) by {
        forall a, b | 0 <= a < b < |movies| ensures movies[a].id < movies[b].id {
          var a', b' := if a < i then a else a + 1, if b < i then b else b + 1;
          assert movies[a] == old(movies)[a'] && movies[b] == old(movies)[b'];
        }
      }
    }

    /** `UpdateAsync`: a missing playlist throws; otherwise the name is
        replaced and `UpdatedAt` refreshed, so it ends strictly later than
        before. The entity comes from `FindAsync`, which loads no movies. */
    method Update(id: int, newName: string) returns (r: Result<Playlist, Exception>)
      requires Valid()
      modifies this, clock
      ensures Valid()
      ensures id !in old(playlists) ==> r == Failure(PlaylistKeyNotFound(id)) && unchanged(this) && unchanged(clock)
      ensures id in old(playlists) ==>
        && r == Success(Playlist(id, newName, old(playlists[id].createdAt), clock.now, []))
        && old(playlists[id].updatedAt) < clock.now
        && playlists == old(playlists)[id := PlaylistRow(id, newName, old(playlists[id].createdAt), clock.now)]
        && movies == old(movies) && nextMovieId == old(nextMovieId) && nextPlaylistId == old(nextPlaylistId)
    {
      if id !in playlists {
        return Failure(PlaylistKeyNotFound(id));
      }
      var now := clock.UtcNow();
      var row := playlists[id].(name := newName, updatedAt := now);
      playlists := playlists[id := row];
      r := Success(Playlist(row.id, row.name, row.createdAt, row.updatedAt, []));
    }

    /** `DeleteAsync`: a missing playlist gives false; otherwise the playlist
        goes and the cascade removes every movie row that referenced it. */
    method Delete(id: int) returns (deleted: bool)
      requires Valid()
      modifies this
      ensures Valid()
      ensures deleted <==> id in old(playlists)
      ensures !deleted ==> unchanged(this)
      ensures deleted ==>
        && playlists == old(playlists) - {id}
        && movies == WithoutPlaylist(old(movies), id)
        && |movies| == |old(movies)| - |MoviesOf(old(movies), id)|
        && nextMovieId == old(nextMovieId) && nextPlaylistId == old(nextPlaylistId)
      ensures forall i :: 0 <= i < |movies| ==> movies[i].playlistId != id
    {
      if id !in playlists {
        return false;
      }
      playlists := playlists - {id};
      CascadeRemovesItsRows(movies, id);
      movies := WithoutPlaylist(movies, id);
      deleted := true;
    }
  }
}
