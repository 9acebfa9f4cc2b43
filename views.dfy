/**
 * The state-changing views of the music library as functions from the store
 * before the request to the store after it and the response, with the
 * properties the views promise proved about them.  `MusicLibrary.Library`
 * runs these views in place and is proved to agree with them.
 */
module Views {
  import opened Models
  import opened FileType

  /** The store after a request, and the response to it. */
  datatype Step = Step(store: Store, response: Response)

  // ---------------------------------------------------------------- favorite

  /**
   * `favorite`: look the song up (404 when absent), negate `is_favorite` and
   * save only that field.  `saveRaises` stands for the save raising KeyError
   * or Song.DoesNotExist, which the view turns into `{'success': False}`.
   */
  function FavoriteStep(st: Store, songId: SongId, saveRaises: bool): (r: Step)
    ensures r.response == NotFound <==> songId !in st.songs
    ensures r.response == Json(true) <==> songId in st.songs && !saveRaises
    ensures r.response == Json(false) <==> songId in st.songs && saveRaises
    ensures r.response != Json(true) ==> r.store == st
    ensures r.store.albums == st.albums && r.store.fileTypes == st.fileTypes && r.store.nextId == st.nextId
  {
    if songId !in st.songs then Step(st, NotFound)
    else if saveRaises then Step(st, Json(false))
    else
      var song := st.songs[songId];
      Step(st.(songs := st.songs[songId := song.(isFavorite := !song.isFavorite)]), Json(true))
  }

  /** A successful toggle negates that song's flag and changes no other field and no other song. */
  lemma FavoriteChangesOnlyTheFlag(st: Store, songId: SongId)
    requires songId in st.songs
    ensures var after := FavoriteStep(st, songId, false).store;
      after.songs.Keys == st.songs.Keys &&
      after.songs[songId].isFavorite == !st.songs[songId].isFavorite &&
      after.songs[songId].album == st.songs[songId].album &&
      after.songs[songId].title == st.songs[songId].title &&
      after.songs[songId].audioFileUrl == st.songs[songId].audioFileUrl &&
      forall id :: id in st.songs && id != songId ==> after.songs[id] == st.songs[id]
  {
  }

  /** Toggling the same song twice restores the store. */
  lemma FavoriteTwiceRestores(st: Store, songId: SongId)
    ensures FavoriteStep(FavoriteStep(st, songId, false).store, songId, false).store == st
  {
  }

  /** Toggling keeps the database constraints and the unique-titles rule. */
  lemma FavoritePreservesInvariants(st: Store, songId: SongId, saveRaises: bool)
    ensures WellFormed(st) ==> WellFormed(FavoriteStep(st, songId, saveRaises).store)
    ensures TitlesUnique(st) ==> TitlesUnique(FavoriteStep(st, songId, saveRaises).store)
  {
  }

  // ------------------------------------------------------------- delete song

  /**
   * `DeleteView.post`: look the album up (404 when absent), look the song up
   * among that album's songs, and delete it.  A song that is missing or
   * belongs to another album makes the lookup raise DoesNotExist, which the
   * view does not catch.
   */
  function DeleteStep(st: Store, albumId: AlbumId, songId: SongId): (r: Step)
    ensures r.response == NotFound <==> albumId !in st.albums
    ensures r.response == DetailPage <==> albumId in st.albums && songId in AlbumSongs(st, albumId)
    ensures albumId in st.albums && songId !in AlbumSongs(st, albumId) ==> r.response == Raised(DoesNotExist)
    ensures r.response != DetailPage ==> r.store == st
    ensures r.response == DetailPage ==> r.store.songs.Keys == st.songs.Keys - {songId}
    ensures r.store.albums == st.albums && r.store.fileTypes == st.fileTypes && r.store.nextId == st.nextId
  {
    if albumId !in st.albums then Step(st, NotFound)
    else if songId !in AlbumSongs(st, albumId) then Step(st, Raised(DoesNotExist))
    else Step(st.(songs := st.songs - {songId}), DetailPage)
  }

  /** A song of another album is not found through this album, and nothing is deleted. */
  lemma DeleteForeignSongFails(st: Store, albumId: AlbumId, songId: SongId)
    requires albumId in st.albums
    requires songId in st.songs && st.songs[songId].album != albumId
    ensures DeleteStep(st, albumId, songId) == Step(st, Raised(DoesNotExist))
  {
  }

  /** A deletion removes that one song; every other song is kept unchanged, and the album has one song fewer. */
  lemma DeleteRemovesOnlyThatSong(st: Store, albumId: AlbumId, songId: SongId)
    requires albumId in st.albums && songId in AlbumSongs(st, albumId)
    ensures var after := DeleteStep(st, albumId, songId).store;
      songId !in after.songs &&
      (forall id :: id in st.songs && id != songId ==> id in after.songs && after.songs[id] == st.songs[id]) &&
      AlbumSongs(after, albumId) == AlbumSongs(st, albumId) - {songId} &&
      |AlbumSongs(after, albumId)| == |AlbumSongs(st, albumId)| - 1 &&
      forall other :: other != albumId ==> AlbumSongs(after, other) == AlbumSongs(st, other)
  {
  }

  /** Deleting keeps the database constraints and the unique-titles rule. */
  lemma DeletePreservesInvariants(st: Store, albumId: AlbumId, songId: SongId)
    ensures WellFormed(st) ==> WellFormed(DeleteStep(st, albumId, songId).store)
    ensures TitlesUnique(st) ==> TitlesUnique(DeleteStep(st, albumId, songId).store)
  {
  }

  /**
   * `DeleteView.post` as written reads `album.song_set`, but the foreign key
   * declares `related_name='songs'`, so that attribute does not exist: every
   * request for an existing album raises AttributeError and deletes nothing.
   */
  function DeleteStepAsWritten(st: Store, albumId: AlbumId, songId: SongId): (r: Step)
    ensures r.store == st
    ensures r.response == NotFound <==> albumId !in st.albums
    ensures albumId in st.albums ==> r.response == Raised(AttributeError)
  {
    if albumId !in st.albums then Step(st, NotFound) else Step(st, Raised(AttributeError))
  }

  /** For every song of an existing album, the view as written keeps it while the corrected view deletes it. */
  lemma DeleteAsWrittenNeverDeletes(st: Store, albumId: AlbumId, songId: SongId)
    requires albumId in st.albums && songId in AlbumSongs(st, albumId)
    ensures songId in DeleteStepAsWritten(st, albumId, songId).store.songs
    ensures songId !in DeleteStep(st, albumId, songId).store.songs
  {
  }

  /** Illustration of `DeleteAsWrittenNeverDeletes` on an album holding one song: the view as written does not delete it, the corrected one does. */
  lemma DeleteAsWrittenKeepsSong()
    ensures var st := Store({1}, map[0 := Song(1, "Intro", "intro.mp3", false)], {"mp3"}, 1);
      DeleteStepAsWritten(st, 1, 0).response == Raised(AttributeError) &&
      0 in DeleteStepAsWritten(st, 1, 0).store.songs &&
      DeleteStep(st, 1, 0).response == DetailPage &&
      0 !in DeleteStep(st, 1, 0).store.songs
  {
  }

  // ------------------------------------------------------------- create song

  /**
   * `CreateSongView.post`: look the album up (404 when absent), then reject
   * an invalid form, then a title some song of the album already has, then a
   * file whose extension is not a whitelisted AudioFileType name, and only
   * then save the new song under the next primary key.
   */
  function CreateStep(st: Store, albumId: AlbumId, form: SongForm): (r: Step)
    ensures r.response == NotFound <==> albumId !in st.albums
    ensures r.response == DetailPage <==>
      albumId in st.albums && form.isValid && !HasTitle(st, albumId, form.title) &&
      Extension(form.audioFileUrl) in st.fileTypes
    ensures r.response != DetailPage ==> r.store == st
    ensures r.response.NotFound? || r.response.FormPage? || r.response.DetailPage?
    ensures r.store.albums == st.albums && r.store.fileTypes == st.fileTypes
    ensures r.store.nextId == if r.response == DetailPage then st.nextId + 1 else st.nextId
  {
    if albumId !in st.albums then Step(st, NotFound)
    else if !form.isValid then Step(st, FormPage(InvalidFields))
    else if HasTitle(st, albumId, form.title) then Step(st, FormPage(DuplicateTitle))
    else if Extension(form.audioFileUrl) !in st.fileTypes then Step(st, FormPage(BadAudioFormat))
    else
      var song := Song(albumId, form.title, form.audioFileUrl, false);
      Step(st.(songs := st.songs[st.nextId := song], nextId := st.nextId + 1), DetailPage)
  }

  /** An invalid form is re-rendered before any other rule runs, and nothing is saved. */
  lemma CreateInvalidFormRejected(st: Store, albumId: AlbumId, form: SongForm)
    requires albumId in st.albums && !form.isValid
    ensures CreateStep(st, albumId, form) == Step(st, FormPage(InvalidFields))
  {
  }

  /**
   * A title the album already has is rejected whatever the file is, since the
   * duplicate scan runs before the extension check; nothing is saved.
   */
  lemma CreateDuplicateRejected(st: Store, albumId: AlbumId, form: SongForm, url: string)
    requires albumId in st.albums && form.isValid
    requires exists id :: id in st.songs && st.songs[id].album == albumId && st.songs[id].title == form.title
    ensures CreateStep(st, albumId, form.(audioFileUrl := url)) == Step(st, FormPage(DuplicateTitle))
  {
  }

  /** A file whose extension is not a whitelist name is rejected, and nothing is saved. */
  lemma CreateBadFormatRejected(st: Store, albumId: AlbumId, form: SongForm)
    requires albumId in st.albums && form.isValid && !HasTitle(st, albumId, form.title)
    requires Extension(form.audioFileUrl) !in st.fileTypes
    ensures CreateStep(st, albumId, form) == Step(st, FormPage(BadAudioFormat))
  {
  }

  /** Upper-case whitelist names are never matched, since the extension is lower-cased and compared as stored. */
  lemma CreateIgnoresUpperCaseFileTypes(st: Store, albumId: AlbumId, form: SongForm)
    requires forall name :: name in st.fileTypes ==> exists k :: 0 <= k < |name| && IsUpper(name[k])
    ensures CreateStep(st, albumId, form).response != DetailPage
    ensures CreateStep(st, albumId, form).store == st
  {
  }

  /**
   * A successful creation adds exactly one song, under a fresh primary key,
   * attached to the album with the submitted title and file and not a
   * favorite; the album gains one song, and no other song or album changes.
   */
  lemma CreateAddsExactlyOneSong(st: Store, albumId: AlbumId, form: SongForm)
    requires WellFormed(st)
    requires CreateStep(st, albumId, form).response == DetailPage
    ensures var after := CreateStep(st, albumId, form).store;
      var id := st.nextId;
      id !in st.songs &&
      after.albums == st.albums && after.fileTypes == st.fileTypes && after.nextId == id + 1 &&
      after.songs.Keys == st.songs.Keys + {id} &&
      after.songs[id] == Song(albumId, form.title, form.audioFileUrl, false) &&
      (forall k :: k in st.songs ==> after.songs[k] == st.songs[k]) &&
      AlbumSongs(after, albumId) == AlbumSongs(st, albumId) + {id} &&
      |AlbumSongs(after, albumId)| == |AlbumSongs(st, albumId)| + 1 &&
      forall other :: other != albumId ==> AlbumSongs(after, other) == AlbumSongs(st, other)
  {
  }

  /** Creating keeps the database constraints and the unique-titles rule. */
  lemma CreatePreservesInvariants(st: Store, albumId: AlbumId, form: SongForm)
    requires WellFormed(st)
    ensures WellFormed(CreateStep(st, albumId, form).store)
    ensures TitlesUnique(st) ==> TitlesUnique(CreateStep(st, albumId, form).store)
  {
  }
}
