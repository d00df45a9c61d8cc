/**
 * extractID3v1 of the C tools (old_c_code/id3v1.c, and the same reader in
 * even_older_c_code/mp3.c): the last 128 bytes of the file are checked for
 * "TAG" and the fields are copied into a fresh song. Each text field is
 * trimmed of trailing spaces only; strncpy then stops at the first NUL.
 *
 * The 256-byte buffer is an array parameter; opening and seeking the file
 * are not modelled.
 */
module CId3v1 {
  import opened Wrappers
  import opened PyStr
  import opened CCommon
  import opened CSong
  import ID3v1
  import TrackData

  /** The length a field keeps once its trailing spaces are dropped. */
  function TrimEnd(field: seq<char>): (n: nat)
    ensures n <= |field|
    ensures forall i | n <= i < |field| :: field[i] == ' '
    ensures n > 0 ==> field[n - 1] != ' '
    decreases |field|
  {
    if field == [] || field[|field| - 1] != ' ' then |field| else TrimEnd(field[..|field| - 1])
  }

  /** A field and its trim end are the same thing: the ensures of TrimEnd pin n down. */
  lemma TrimEndUnique(field: seq<char>, n: nat)
    requires n <= |field| && (forall i | n <= i < |field| :: field[i] == ' ')
    requires n > 0 ==> field[n - 1] != ' '
    ensures TrimEnd(field) == n
  {
  }

  /**
   * A text field: NULL when it is all spaces, otherwise the C string in its
   * first TrimEnd bytes.
   */
  function FieldText(b: seq<char>, start: nat, width: nat): (r: Option<string>)
    requires start + width <= |b|
    ensures r.None? <==> forall i | start <= i < start + width :: b[i] == ' '
    ensures r.Some? ==> Nul !in r.value && |r.value| <= width
  {
    var n := TrimEnd(b[start..start + width]);
    if n == 0 then None
    else
      assert b[start..start + width][n - 1] == b[start + n - 1];
      Some(CStr(b[start..start + n]))
  }

  /** The track sprintf should write: the unsigned byte in decimal. */
  function TrackText(c: char): (r: string)
    ensures |r| <= 3 && IsDigits(r)
  {
    DecimalBound(Ord(c));
    NatToString(Ord(c))
  }

  lemma {:induction false} DecimalBound(n: nat)
    requires n < 1000
    ensures |NatToString(n)| <= 3
  {
    if n >= 10 {
      DecimalBound(n / 10);
      if n < 100 {
        assert |NatToString(n / 10)| == 1;
      } else {
        assert n / 10 >= 10 && n / 100 < 10;
        assert |NatToString(n / 10 / 10)| == 1;
      }
    }
  }

  /** The fields the reader gives for a 128-byte tag, or None (NULL) without "TAG". */
  function ID3v1Fields(b: seq<char>): (r: Option<Tags>)
    requires |b| >= 128
    ensures r.Some? <==> b[..3] == "TAG"
    ensures r.Some? ==> r.value.maxTracks.None? && r.value.year.Some? && r.value.genre == Some([b[127]])
    ensures r.Some? ==> (r.value.track.Some? <==> b[125] == Nul)
  {
    if b[..3] != "TAG" then None
    else
      Some(Tags(FieldText(b, 3, 30), FieldText(b, 33, 30), FieldText(b, 63, 30),
                Some(CStr(b[93..97])),
                if b[125] == Nul then Some(TrackText(b[126])) else None,
                None,
                Some([b[127]])))
  }

  /** str_len walks back from the field's width over trailing spaces. */
  method TrimmedLength(buffer: array<char>, start: nat, width: nat) returns (len: nat)
    requires start + width <= buffer.Length
    ensures len == TrimEnd(buffer[start..start + width])
  {
    ghost var field := buffer[start..start + width];
    len := width;
    while len > 0 && buffer[start + len - 1] == ' '
      invariant len <= width
      invariant forall i | len <= i < width :: field[i] == ' '
    {
      len := len - 1;
    }
    TrimEndUnique(field, len);
  }

  /** strncpy(out, in, n) plus the terminator: the C string in the first n bytes. */
  method StrNCopy(buffer: array<char>, start: nat, n: nat) returns (s: string)
    requires start + n <= buffer.Length
    ensures s == CStr(buffer[start..start + n])
  {
    ghost var field := buffer[start..start + n];
    s := [];
    var i := 0;
    while i < n && buffer[start + i] != Nul
      invariant i <= n && s == field[..i] && Nul !in s
    {
      s := s + [buffer[start + i]];
      i := i + 1;
    }
    if i < n {
      CLenAt(field, i);
    } else {
      assert field[..i] == field;
    }
  }

  /** One text field: trim the trailing spaces, then copy what is left if anything is. */
  method ReadField(buffer: array<char>, start: nat) returns (f: Option<string>)
    requires start + 30 <= buffer.Length
    ensures f == FieldText(buffer[..], start, 30)
  {
    var len := TrimmedLength(buffer, start, 30);
    assert buffer[..][start..start + 30] == buffer[start..start + 30];
    if len > 0 {
      var s := StrNCopy(buffer, start, len);
      assert buffer[..][start..start + len] == buffer[start..start + len];
      f := Some(s);
    } else {
      f := None;
    }
  }

  /**
   * extractID3v1 on the bytes read from the end of the file: NULL without
   * the "TAG" marker, otherwise a fresh song holding ID3v1Fields.
   */
  method ExtractID3v1(buffer: array<char>) returns (result: Song?)
    requires buffer.Length >= 128
    ensures result == null <==> ID3v1Fields(buffer[..]).None?
    ensures result != null ==> fresh(result) && Some(result.Fields()) == ID3v1Fields(buffer[..])
    ensures result != null ==> result.file.None? && result.folder.None?
  {
    assert buffer[..][..3] == [buffer[0], buffer[1], buffer[2]];
    if buffer[0] != 'T' || buffer[1] != 'A' || buffer[2] != 'G' {
      return null;
    }
    var title := ReadField(buffer, 3);
    var artist := ReadField(buffer, 33);
    var album := ReadField(buffer, 63);
    var year := StrNCopy(buffer, 93, 4);
    assert buffer[..][93..97] == buffer[93..97];
    var track := None;
    if buffer[125] == Nul {
      track := Some(TrackText(buffer[126]));
    }
    var tags := Tags(title, artist, album, Some(year), track, None, Some([buffer[127]]));
    assert Some(tags) == ID3v1Fields(buffer[..]);
    result := new Song();
    result.SetFields(tags);
  }

  // ---------------------------------------------------------------------
  // The tag the Python writer creates, as the C reader sees it

  /** A packed field reads back as its text: the NUL padding ends both the trim and the copy. */
  lemma {:induction false} PackedFieldText(b: seq<char>, start: nat, t: Option<string>)
    requires t.None? || (|t.value| <= 29 && Nul !in t.value)
    requires start + 30 <= |b| && b[start..start + 30] == ID3v1.PackNullBytes(t, 30)
    ensures FieldText(b, start, 30) == Some(ID3v1.TextOf(t))
  {
    var field := b[start..start + 30];
    var s := ID3v1.TextOf(t);
    ID3v1.PackedField(t);
    assert field[29] == Nul;
    TrimEndUnique(field, 30);
    assert b[start..start + 30] == field;
    assert field[|s|] == Nul && field[..|s|] == s;
    CLenAt(field, |s|);
  }

  /**
   * The C reader on a tag written by create_id3v1_tag_string: the text
   * fields come back as written ("" for a missing one, trailing spaces
   * kept), the year as the C string of its four bytes, the track in
   * decimal and the genre as its byte.
   */
  lemma {:induction false} ReadsCreatedTag(d: TrackData.TrackRecord)
    requires ID3v1.CreateTagString(d).Success? && |ID3v1.YearString(d.year)| == 4
    requires d.title.None? || (|d.title.value| <= 29 && Nul !in d.title.value)
    requires d.artist.None? || (|d.artist.value| <= 29 && Nul !in d.artist.value)
    requires d.album.None? || (|d.album.value| <= 29 && Nul !in d.album.value)
    ensures var t := ID3v1.CreateTagString(d).value;
      ID3v1Fields(t) == Some(Tags(Some(ID3v1.TextOf(d.title)), Some(ID3v1.TextOf(d.artist)),
                                  Some(ID3v1.TextOf(d.album)), Some(CStr(ID3v1.YearString(d.year))),
                                  Some(NatToString(d.track.value)), None,
                                  Some([Chr(d.genre.value)])))
  {
    var t := ID3v1.CreateTagString(d).value;
    ID3v1.CreatedTagLayout(d);
    PackedFieldText(t, 3, d.title);
    PackedFieldText(t, 33, d.artist);
    PackedFieldText(t, 63, d.album);
    assert t[127] == Chr(d.genre.value);
  }

  /** A written year of four digits comes back unchanged; a missing year comes back as "". */
  lemma {:induction false} ReadsCreatedYear(year: Option<int>)
    requires |ID3v1.YearString(year)| == 4
    ensures year.Some? && year.value != 0 ==> CStr(ID3v1.YearString(year)) == IntToString(year.value)
    ensures year.None? || year.value == 0 ==> CStr(ID3v1.YearString(year)) == ""
  {
    var y := ID3v1.YearString(year);
    if year.Some? && year.value != 0 {
      assert Nul !in y by {
        forall i | 0 <= i < |y| ensures y[i] != Nul {
          assert y[i] == '-' || IsDigit(y[i]);
        }
      }
      assert CLen(y) == |y|;
    } else {
      CLenAt(y, 0);
    }
  }

  // ---------------------------------------------------------------------
  // The track byte as written: sprintf("%d") of a plain (signed) char

  /** What sprintf(track, "%d", buffer[126]) writes, buffer being a char array. */
  function TrackTextAsWritten(c: char): string {
    IntToString(SignedChar(c))
  }

  /**
   * Track 200 (0xC8) is printed as "-56": three characters and a NUL, four
   * bytes, into the three bytes calloc gave the track.
   */
  lemma TrackAsWrittenOverflows()
    ensures TrackTextAsWritten(Chr(200)) == "-56" && |TrackTextAsWritten(Chr(200))| + 1 > 3
    ensures TrackText(Chr(200)) == "200"
  {
    assert SignedChar(Chr(200)) == -56;
    assert NatToString(56) == NatToString(5) + [DigitChar(6)];
    assert NatToString(200) == NatToString(20) + [DigitChar(0)];
    assert NatToString(20) == NatToString(2) + [DigitChar(0)];
  }

  /** Below 128 the two readings agree. */
  lemma TrackTextAgrees(c: char)
    requires Ord(c) < 128
    ensures TrackTextAsWritten(c) == TrackText(c)
  {
  }
}
