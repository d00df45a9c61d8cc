/**
 * FilePathParser.py: a track record read off the file's path — artist and
 * album from the two enclosing folders, year from a "[yyyy] " album prefix,
 * track and title from the cleaned file name.
 */
module FilePathParser {
  import opened Wrappers
  import opened PyStr
  import opened TrackData

  /** filename_split[0] on a cleaned name with no words raises IndexError. */
  datatype Error = NoFileNameWords

  /** re.match(r'\[\d\d\d\d\] ', s): a bracketed four-digit year and a space open s. */
  predicate YearTagged(s: string) {
    |s| >= 7 && s[0] == '[' && IsDigits(s[1..5]) && s[5] == ']' && s[6] == ' '
  }

  /** The album folder name split into the album and, when tagged, the year. */
  function AlbumAndYear(candidate: string): (r: (string, Option<int>))
    ensures YearTagged(candidate) ==> r.0 == candidate[7..] && r.1 == Some(DigitsValue(candidate[1..5]))
    ensures !YearTagged(candidate) ==> r == (candidate, None)
    ensures r.1.Some? ==> 0 <= r.1.value <= 9999
  {
    if YearTagged(candidate) then
      FourDigitsBelow(candidate[1..5]);
      (candidate[7..], Some(DigitsValue(candidate[1..5]) as int))
    else (candidate, None)
  }

  lemma {:induction false} FourDigitsBelow(d: string)
    requires |d| == 4 && AllDigits(d)
    ensures DigitsValue(d) <= 9999
  {
    assert d[..3][..2] == d[..2] && d[..2][..1] == d[..1] && d[..1][..0] == [];
    assert DigitsValue(d[..1]) <= 9;
    assert DigitsValue(d[..2]) <= 99;
    assert DigitsValue(d[..3]) <= 999;
  }

  /** The title: the words joined by single spaces, cut at the first '.'. */
  function TitleOf(words: seq<string>): (t: string)
    ensures '.' !in t
  {
    SplitOn(Join(" ", words), '.')[0]
  }

  /** The record read off the two enclosing folders alone. */
  function FolderFields(filePath: string): (r: TrackRecord)
    ensures r.genre == None && r.track == None && r.title == None
    ensures |SplitOn(filePath, '/')| < 3 ==> r.album == None && r.artist == None && r.year == None
    ensures |SplitOn(filePath, '/')| >= 3 ==>
      var parts := SplitOn(filePath, '/');
      var ay := AlbumAndYear(Cleaned(parts[|parts| - 2], false));
      r.artist == Some(Cleaned(parts[|parts| - 3], false)) && r.album == Some(ay.0) && r.year == ay.1
  {
    var parts := SplitOn(filePath, '/');
    if |parts| >= 3 then
      var ay := AlbumAndYear(Cleaned(parts[|parts| - 2], false));
      TrackRecord(None, Some(ay.0), Some(Cleaned(parts[|parts| - 3], false)), None, ay.1, None)
    else Blank
  }

  /** read_file_path_data(file_path, cleaned_filename). */
  function ReadFilePathData(filePath: string, cleanedFilename: string): (r: Result<TrackRecord, Error>)
    ensures r.Failure? <==> Split(cleanedFilename) == []
    ensures r.Success? ==> r.value.genre == None && r.value.title.Some? && '.' !in r.value.title.value
    ensures r.Success? && |SplitOn(filePath, '/')| < 3 ==>
      r.value.album == None && r.value.artist == None && r.value.year == None
    ensures r.Success? && |SplitOn(filePath, '/')| >= 3 ==>
      var parts := SplitOn(filePath, '/');
      var ay := AlbumAndYear(Cleaned(parts[|parts| - 2], false));
      r.value.artist == Some(Cleaned(parts[|parts| - 3], false)) && r.value.album == Some(ay.0) && r.value.year == ay.1
    ensures r.Success? ==>
      var words := Split(cleanedFilename);
      if IsDigits(words[0]) then r.value.track == Some(DigitsValue(words[0]) as int) && r.value.title == Some(TitleOf(words[1..]))
      else r.value.track == None && r.value.title == Some(TitleOf(words))
  {
    var fromFolders := FolderFields(filePath);
    var words := Split(cleanedFilename);
    if words == [] then Failure(NoFileNameWords)
    else if IsDigits(words[0]) then
      Success(fromFolders.(track := Some(DigitsValue(words[0]) as int), title := Some(TitleOf(words[1..]))))
    else
      Success(fromFolders.(title := Some(TitleOf(words))))
  }

  // ---------------------------------------------------------------------
  // Partners: what the reader recovers from the names the collection writes

  /** str(n) has four digits for a four-digit n. */
  lemma {:induction false} NatToStringLength(n: nat)
    requires 1000 <= n <= 9999
    ensures |NatToString(n)| == 4
  {
    assert NatToString(n) == NatToString(n / 10) + [DigitChar(n % 10)];
    assert NatToString(n / 10) == NatToString(n / 100) + [DigitChar(n / 10 % 10)];
    assert NatToString(n / 100) == NatToString(n / 1000) + [DigitChar(n / 100 % 10)];
  }

  /** Joining words after w adds w and a space in front. */
  lemma {:induction false} JoinExtendLast(ws: seq<string>, ext: string)
    requires ws != []
    ensures Join(" ", ws[..|ws| - 1] + [ws[|ws| - 1] + ext]) == Join(" ", ws) + ext
    decreases |ws|
  {
    var ws' := ws[..|ws| - 1] + [ws[|ws| - 1] + ext];
    if |ws| > 1 {
      var tail := ws[1..];
      assert ws'[1..] == tail[..|tail| - 1] + [tail[|tail| - 1] + ext];
      JoinExtendLast(tail, ext);
      assert Join(" ", ws') == ws[0] + " " + Join(" ", ws'[1..]);
      ConcatAssoc(ws[0] + " ", Join(" ", tail), ext);
    }
  }

  /** A normalised title with the extension appended splits into its words, the last carrying the extension. */
  lemma ExtendedWords(title: string, ext: string) returns (ws': seq<string>)
    requires Normalised(title) && title != [] && ext != [] && NoSpace(ext)
    ensures AreWords(ws') && ws' != [] && Join(" ", ws') == title + ext
  {
    var ws := Split(title);
    SplitAreWords(title);
    assert ws != [];
    ws' := ws[..|ws| - 1] + [ws[|ws| - 1] + ext];
    JoinExtendLast(ws, ext);
    forall i | 0 <= i < |ws'|
      ensures ws'[i] != [] && NoSpace(ws'[i])
    {
      if i == |ws| - 1 {
        var w := ws[|ws| - 1];
        assert ws'[i] == w + ext;
        assert forall k | 0 <= k < |w + ext| :: (w + ext)[k] == if k < |w| then w[k] else ext[k - |w|];
      } else {
        assert ws'[i] == ws[i];
      }
    }
  }

  /** The zero-padded track opens the name as two digits reading back as the track, then a space. */
  lemma SongFileNameDigits(track: int, title: string)
    requires 0 <= track <= 99
    ensures var name := ZeroPad(track, 2) + " " + title + ".mp3";
      |name| >= 3 && name == name[..2] + " " + (title + ".mp3") &&
      IsDigits(name[..2]) && NoSpace(name[..2]) && DigitsValue(name[..2]) == track
  {
    var p := ZeroPad(track, 2);
    if track < 10 {
      assert NatToString(track) == [DigitChar(track)];
      assert p == ['0', DigitChar(track)];
    } else {
      assert NatToString(track) == NatToString(track / 10) + [DigitChar(track % 10)];
      assert NatToString(track / 10) == [DigitChar(track / 10)];
      assert p == [DigitChar(track / 10), DigitChar(track % 10)];
    }
    assert DigitsValue(p) == DigitsValue(p[..1]) * 10 + DigitValue(p[1]);
    assert p[..1][..0] == [];
    var name := p + " " + title + ".mp3";
    assert name[..2] == p;
  }
}
