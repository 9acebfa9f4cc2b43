# Music library: song views

A model of the song-management views of a small music-library web
application. Users favorite songs, delete a song from an album, and upload
a new song to an album. An upload is accepted only when the form is valid,
no song of the album already has that exact title, and the file's extension
is a name in the AudioFileType whitelist.

The database is replaced by an explicit in-memory store:

- `Models`: the Song row, the `Store` value (album ids, Song rows by primary key, whitelist names, next primary key), the responses, and the invariants (`WellFormed`: foreign keys hold and keys are below the next key; `TitlesUnique`: the application rule that titles are unique within an album).
- `FileType`: the extension rule `url.split('.')[-1].lower()`. Python's `split` is modelled by `Split` and proved to be the unique decomposition inverted by `Join`. `lower` is modelled by `Lower`.
- `Views`: each state-changing view as a function from the store before a request to the store after it and the response, with the promised properties proved as lemmas.
- `MusicLibrary.Library`: the database as a mutable object. Its methods run the views in place and are proved equal to the `Views` functions.

Inputs from outside the view are parameters. These are the bound form (`SongForm`: valid or not, cleaned title, the URL storage gives the uploaded file) and, for favorite, whether the save raised KeyError or DoesNotExist.

## Model

| member | source | states |
|---|---|---|
| `FileType.Split` | apps/main/views.py:232 | `split` on one separator character gives at least one piece, and no piece contains the separator |
| `FileType.JoinSplit` | apps/main/views.py:232 | joining the pieces of a split with the separator gives the original text |
| `FileType.SplitJoin` | apps/main/views.py:232 | splitting a join of separator-free pieces gives those pieces back, so the split is the only such decomposition |
| `FileType.LastSegmentShape` | apps/main/views.py:232 | `split('.')[-1]` is a suffix of the text without '.', and it is the whole text or is preceded by '.' |
| `FileType.LastSegmentUnique` | apps/main/views.py:232 | any '.'-free suffix that is the whole text or follows a '.' is the last piece |
| `FileType.LowerChar` | apps/main/views.py:233 | lower-casing a character yields no upper-case letter, leaves other characters alone, and maps A-Z onto a-z |
| `FileType.Lower` | apps/main/views.py:233 | lower-casing keeps the length, maps every A-Z letter to its a-z counterpart, and keeps every character that is not upper-case |
| `FileType.LowerIdempotent` | apps/main/views.py:233 | lower-casing twice is lower-casing once |
| `FileType.Extension` | apps/main/views.py:232-233 | the file type is no longer than the URL, contains no '.' and no upper-case letter |
| `FileType.ExtensionOfFileName` | apps/main/views.py:232-233 | the type of `name.ext`, for an `ext` without '.', is `ext` lower-cased, whatever dots `name` holds |
| `FileType.ExtensionWithoutDot` | apps/main/views.py:232-233 | a URL without '.' yields the whole URL, lower-cased |
| `FileType.ExtensionIdempotent` | apps/main/views.py:232-233 | the type of a type is itself |
| `FileType.UpperCaseNameNeverMatches` | apps/main/views.py:232-241 | a whitelist name holding an upper-case letter is never equal to a derived type, because names are compared as stored |
| `Models.ErrorMessage` | apps/main/views.py:205-250 | only the duplicate and format rejections carry a message; an invalid form shows its field errors |
| `Models.RejectionMessagesDiffer` | apps/main/views.py:218-249 | the duplicate-title and bad-format rejections carry different, non-empty messages |
| `Views.FavoriteStep` | apps/main/views.py:103-119 | the answer is 404 exactly when the song is missing; `success: True` exactly when it exists and the save did not raise; `success: False` exactly when the save raised KeyError or Song.DoesNotExist; nothing changes unless it succeeded |
| `Views.FavoriteChangesOnlyTheFlag` | apps/main/views.py:112-113 | a successful toggle negates that song's flag, keeps its album, title and file, and leaves every other song as it was |
| `Views.FavoriteTwiceRestores` | apps/main/views.py:112-113 | toggling one song twice restores the whole store |
| `Views.FavoritePreservesInvariants` | apps/main/views.py:112-113 | toggling keeps the foreign keys and the unique-titles rule |
| `Views.DeleteStep` | apps/main/views.py:139-153 | 404 exactly when the album is missing; the song is deleted exactly when it is one of that album's songs, and only its key disappears; a song id that is missing or belongs to another album raises DoesNotExist; otherwise nothing changes |
| `Views.DeleteForeignSongFails` | apps/main/views.py:147-152 | a song of another album is not found through this album (DoesNotExist) and no row is deleted |
| `Views.DeleteRemovesOnlyThatSong` | apps/main/views.py:150-153 | a deletion removes that song only, the album has one song fewer, and every other song and album is untouched |
| `Views.DeletePreservesInvariants` | apps/main/views.py:153 | deleting keeps the foreign keys and the unique-titles rule |
| `Views.DeleteStepAsWritten` | apps/main/views.py:147-153 | as written, the view never changes the store: 404 for a missing album, AttributeError for every existing one |
| `Views.DeleteAsWrittenNeverDeletes` | apps/main/views.py:147-153 | for every song of an existing album, the view as written keeps the song while the corrected view deletes it |
| `Views.DeleteAsWrittenKeepsSong` | apps/main/views.py:150-153 | for an album holding one song, the view as written keeps the song while the corrected view deletes it |
| `Views.CreateStep` | apps/main/views.py:191-252 | 404 exactly when the album is missing; a song is saved exactly when the album exists, the form is valid, no song of the album has the title and the extension is a whitelist name; every other outcome leaves the store unchanged; albums and whitelist never change, and the next key advances by one exactly on success |
| `Views.CreateInvalidFormRejected` | apps/main/views.py:205-213 | an invalid form is re-rendered before any other rule and nothing is saved |
| `Views.CreateDuplicateRejected` | apps/main/views.py:215-226 | a title equal to one of the album's song titles is rejected with the duplicate message whatever the file is, so this check precedes the format check; nothing is saved |
| `Views.CreateBadFormatRejected` | apps/main/views.py:232-250 | a unique title with an extension outside the whitelist is rejected with the format message and nothing is saved |
| `Views.CreateIgnoresUpperCaseFileTypes` | apps/main/views.py:232-241 | when every whitelist name holds an upper-case letter, no upload is ever saved |
| `Views.CreateAddsExactlyOneSong` | apps/main/views.py:228-252 | a successful creation adds one song under a fresh key, attached to the album with the submitted title and file and not a favorite; the album gains exactly one song; no other song changes, and the album set and the whitelist stay the same |
| `Views.CreatePreservesInvariants` | apps/main/views.py:215-252 | creating keeps the foreign keys, and keeps titles unique within each album |
| `MusicLibrary.Library.Favorite` | apps/main/views.py:103-119 | the toggle in place gives the response and new state of `Views.FavoriteStep`, writing only the flag column, keeps the database constraints, and keeps titles unique per album when they were unique before |
| `MusicLibrary.Library.DeleteSong` | apps/main/views.py:139-159 | the deletion in place gives the response and new state of `Views.DeleteStep`, keeps the database constraints, and keeps titles unique per album when they were unique before |
| `MusicLibrary.Library.AlbumHasTitle` | apps/main/views.py:215-226 | the scan over the album's songs, with early return, finds a song exactly when one has that exact title |
| `MusicLibrary.Library.CreateSong` | apps/main/views.py:191-258 | the creation in place gives the response and new state of `Views.CreateStep`, keeps the database constraints, and keeps titles unique per album when they were unique before |

## Left out

- `IndexView`, `DetailView` and `CreateSongView.get`: read-only lookups with no rule of their own.
- Template rendering, request objects and HTTP status codes. Each view's answer is the `Response` datatype.
- `get_object_or_404` comes from a helper module that is not part of this model. Only its effect is modelled: a missing id gives `NotFound`.
- Form validation of `SongForm` is an input flag. The form declares only its `title` and `audio_file` fields. `AlbumForm` is used by no view.
- URL routing, migrations and the Artist and album title and logo columns. Cascade deletion of an album's songs has no operation, because no view deletes albums.
- File storage, upload streaming and how storage turns the uploaded file into a URL. The URL is a given string. Whether the file is written before the format check is outside the model.
- `FileType.Lower`: lower-cases ASCII letters only. Python's `str.lower` also folds non-ASCII letters, and Unicode case mapping is not modelled.
- `Views.FavoriteStep`: the view flips with `True if song.is_favorite is False else False`, which is plain negation for the non-null boolean column. Concurrent toggles, with their last-write-wins race, are not modelled.
- The order in which `album.songs.all()` yields songs is left open: `AlbumHasTitle` picks them in any order, and the answer does not depend on it.
- A song that is missing or belongs to another album makes `DeleteView.post` raise DoesNotExist, which the view does not catch. The model answers `Raised(DoesNotExist)` rather than a 404, as the code does.
- Requests are modelled one at a time. The duplicate scan and the `song.save()` in `CreateSongView.post` are not atomic: no lock, transaction or database constraint joins them. So two concurrent uploads of one title to one album can both be saved. `TitlesUnique` is therefore not part of `MusicLibrary.Library.Valid()`; each method keeps it only when it held before, and it holds only for sequential requests.

## Findings

| source | as written | input that shows it | evidently intended | confidence | as-written member | corrected member |
|---|---|---|---|---|---|---|
| apps/main/views.py:150 | the song is looked up through `album.song_set`, but the foreign key declares `related_name='songs'` (apps/main/migrations/0004_alter_song_album.py:17), which removes `song_set`; `CreateSongView` at line 215 already uses `album.songs` | a delete request for any existing album and one of its songs, e.g. album 1 and its only song 0 | look the song up among `album.songs` and delete it | high; not executed | `Views.DeleteStepAsWritten`, `Views.DeleteAsWrittenNeverDeletes` | `Views.DeleteStep`, `Views.DeleteRemovesOnlyThatSong` |
