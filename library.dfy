/**
 * The music library's database as a mutable object, and the three views that
 * change it as methods.  Each method is proved to do what the corresponding
 * function of `Views` describes, so the properties proved there hold of it.
 */
module MusicLibrary {
  import opened Models
  import opened FileType
  import opened Views

  class Library {
    var albums: set<AlbumId>
    var songs: map<SongId, Song>
    var fileTypes: set<string>
    var nextId: SongId

    /** The contents of the database as a value. */
    function State(): Store
      reads this
    {
      Store(albums, songs, fileTypes, nextId)
    }

    /**
     * The database constraints.  Unique titles within an album are not part of
     * it: the database does not enforce them, so each method only keeps them.
     */
    ghost predicate Valid()
      reads this
    {
      WellFormed(State())
    }

    /** A database holding the given albums and whitelist names and no songs. */
    constructor (albums: set<AlbumId>, fileTypes: set<string>)
      ensures Valid() && TitlesUnique(State())
      ensures State() == Store(albums, map[], fileTypes, 0)
    {
      this.albums := albums;
      this.songs := map[];
      this.fileTypes := fileTypes;
      this.nextId := 0;
    }

    /** `favorite`: toggle one song's `is_favorite` and save only that field. */
    method Favorite(songId: SongId, saveRaises: bool) returns (r: Response)
      requires Valid()
      modifies this
      ensures Valid()
      ensures old(TitlesUnique(State())) ==> TitlesUnique(State())
      ensures Step(State(), r) == FavoriteStep(old(State()), songId, saveRaises)
    {
      if songId !in songs {
        return NotFound;
      }
      var song := songs[songId];
      song := song.(isFavorite := !song.isFavorite);
      if saveRaises {
        return Json(false);
      }
      // save(update_fields=('is_favorite',)) writes that one column
      songs := songs[songId := songs[songId].(isFavorite := song.isFavorite)];
      r := Json(true);
    }

    /**
     * `DeleteView.post`: delete a song found among the given album's songs.
     * The view as written asks for `album.song_set`, which the related name
     * 'songs' does not provide (see `Views.DeleteStepAsWritten`); this method
     * does the intended lookup through the album's songs.
     */
    method DeleteSong(albumId: AlbumId, songId: SongId) returns (r: Response)
      requires Valid()
      modifies this
      ensures Valid()
      ensures old(TitlesUnique(State())) ==> TitlesUnique(State())
      ensures Step(State(), r) == DeleteStep(old(State()), albumId, songId)
    {
      if albumId !in albums {
        return NotFound;
      }
      if songId !in songs || songs[songId].album != albumId {
        return Raised(DoesNotExist);
      }
      songs := songs - {songId};
      r := DetailPage;
    }

    /** The duplicate scan of `CreateSongView.post`: does some song of the album have exactly this title? */
    method AlbumHasTitle(albumId: AlbumId, title: string) returns (found: bool)
      ensures found <==> HasTitle(State(), albumId, title)
    {
      var pending := AlbumSongs(State(), albumId);
      while pending != {}
        invariant pending <= AlbumSongs(State(), albumId)
        invariant forall id :: id in AlbumSongs(State(), albumId) && id !in pending ==> songs[id].title != title
        decreases pending
      {
        var id :| id in pending;
        if songs[id].title == title {
          return true;
        }
        pending := pending - {id};
      }
      return false;
    }

    /**
     * `CreateSongView.post`: check the form, then the album's titles, then
     * the file's extension against the whitelist, and only then save.
     */
    method CreateSong(albumId: AlbumId, form: SongForm) returns (r: Response)
      requires Valid()
      modifies this
      ensures Valid()
      ensures old(TitlesUnique(State())) ==> TitlesUnique(State())
      ensures Step(State(), r) == CreateStep(old(State()), albumId, form)
    {
      if albumId !in albums {
        return NotFound;
      }
      if !form.isValid {
        return FormPage(InvalidFields);
      }
      var duplicate := AlbumHasTitle(albumId, form.title);
      if duplicate {
        return FormPage(DuplicateTitle);
      }
      var song := Song(albumId, form.title, form.audioFileUrl, false);
      var fileType := Extension(song.audioFileUrl);
      if fileType !in fileTypes {
        return FormPage(BadAudioFormat);
      }
      songs := songs[nextId := song];
      nextId := nextId + 1;
      r := DetailPage;
    }
  }
}
