/**
 * The song record the C tools fill (old_c_code/song.h): every field is a
 * char* that calloc leaves NULL, modelled as None, or the C string it
 * points at, modelled as Some(text).
 */
module CSong {
  import opened Wrappers

  /** The song-info and id3-info fields of a song, as the tag readers leave them. */
  datatype Tags = Tags(title: Option<string>, artist: Option<string>, album: Option<string>,
                       year: Option<string>, track: Option<string>, maxTracks: Option<string>,
                       genre: Option<string>)

  /** A freshly calloc'ed song: every pointer NULL. */
  const NoTags := Tags(None, None, None, None, None, None, None)

  class Song {
    var file: Option<string>
    var folder: Option<string>
    var title: Option<string>
    var artist: Option<string>
    var album: Option<string>
    var year: Option<string>
    var track: Option<string>
    var maxTracks: Option<string>
    var genre: Option<string>

    function Fields(): Tags
      reads this
    {
      Tags(title, artist, album, year, track, maxTracks, genre)
    }

    /** calloc(1, sizeof(song)). */
    constructor ()
      ensures Fields() == NoTags && file.None? && folder.None?
    {
      file, folder := None, None;
      title, artist, album, year := None, None, None, None;
      track, maxTracks, genre := None, None, None;
    }

    /** Stores every song-info and id3-info field at once; file and folder stay. */
    method SetFields(t: Tags)
      modifies this
      ensures Fields() == t && file == old(file) && folder == old(folder)
    {
      title, artist, album, year := t.title, t.artist, t.album, t.year;
      track, maxTracks, genre := t.track, t.maxTracks, t.genre;
    }
  }
}
