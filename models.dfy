/**
 * The records of the music library as plain values: Song rows keyed by
 * primary key, the ids of the Album rows, and the names in the AudioFileType
 * whitelist.  Artists and album titles and logos play no part in any rule
 * and are not represented.
 */
module Models {

  type AlbumId = nat
  type SongId = nat

  /** A Song row: the album it belongs to, its title, the URL of its audio file and its favorite flag. */
  datatype Song = Song(album: AlbumId, title: string, audioFileUrl: string, isFavorite: bool)

  /**
   * The store: album ids, Song rows by primary key, the `name` column of
   * AudioFileType, and the primary key the next saved Song receives.
   */
  datatype Store = Store(
    albums: set<AlbumId>,
    songs: map<SongId, Song>,
    fileTypes: set<string>,
    nextId: SongId)

  /** A bound SongForm: whether it validated, and its cleaned `title` and `audio_file` (as the URL storage gives it). */
  datatype SongForm = SongForm(isValid: bool, title: string, audioFileUrl: string)

  /** The message shown when the form is re-rendered. */
  datatype FormError = InvalidFields | DuplicateTitle | BadAudioFormat

  /** Exceptions a view lets escape to the framework. */
  datatype Exception = DoesNotExist | AttributeError

  /** What a view answers with. */
  datatype Response =
    | NotFound                  // get_object_or_404 found no row
    | Json(success: bool)       // JsonResponse({'success': ...})
    | FormPage(error: FormError) // create_song.html re-rendered
    | DetailPage                // detail.html for the album
    | Raised(exception: Exception)

  /**
   * The `error_message` in the context of the answer `FormPage(e)`: a
   * DuplicateTitle rejection carries the "already added this song" message,
   * a BadAudioFormat rejection the "invalid audio file format" message, and
   * a form that did not validate carries none and shows its field errors.
   */
  function ErrorMessage(e: FormError): (message: string)
    ensures message == "" <==> e == InvalidFields
  {
    match e
    case InvalidFields => ""
    case DuplicateTitle => "Вы уже добавляли эту песню"
    case BadAudioFormat => "Неверный формат аудио-файла"
  }

  /** The two rejections carry different messages, so the user can tell them apart. */
  lemma RejectionMessagesDiffer()
    ensures ErrorMessage(DuplicateTitle) != ErrorMessage(BadAudioFormat)
    ensures ErrorMessage(DuplicateTitle) != "" && ErrorMessage(BadAudioFormat) != ""
  {
  }

  /**
   * What the database itself guarantees: every song's album exists (foreign
   * key) and every primary key is below the next one to be handed out.
   */
  ghost predicate WellFormed(st: Store)
  {
    forall id :: id in st.songs ==> st.songs[id].album in st.albums && id < st.nextId
  }

  /** The application-level rule that song titles are unique within an album. */
  ghost predicate TitlesUnique(st: Store)
  {
    forall i, j ::
      i in st.songs && j in st.songs && i != j && st.songs[i].album == st.songs[j].album ==>
        st.songs[i].title != st.songs[j].title
  }

  /** The primary keys of `album.songs.all()`. */
  function AlbumSongs(st: Store, album: AlbumId): set<SongId>
  {
    set id | id in st.songs && st.songs[id].album == album
  }

  /** Some song of the album has exactly this title. */
  predicate HasTitle(st: Store, album: AlbumId, title: string)
  {
    exists id :: id in AlbumSongs(st, album) && st.songs[id].title == title
  }
}
