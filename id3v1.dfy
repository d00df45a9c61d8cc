/**
 * ID3v1Parser.py: the fixed 128-byte ID3v1/ID3v1.1 trailer, the 227-byte
 * "TAG+" block in front of it, and the writer of an ID3v1.1 trailer.
 * The file is its contents as a byte string; seek and read become slices.
 */
module ID3v1 {
  import opened Wrappers
  import opened PyStr
  import TrackData

  datatype Error =
    | ShortFile   // seek to 355 bytes before the end of a shorter file raises IOError
    | NotAByte    // chr() of a track or genre that is None or outside 0..255

  const Nul: char := '\0'

  /** data.replace("\0", ""): the bytes of s other than NUL, in order. */
  function RemoveNul(s: string): (r: string)
    ensures Nul !in r && |r| <= |s|
    ensures Nul !in s ==> r == s
    decreases |s|
  {
    if s == [] then [] else (if s[0] == Nul then [] else [s[0]]) + RemoveNul(s[1..])
  }

  lemma {:induction false} RemoveNulAppend(a: string, b: string)
    ensures RemoveNul(a + b) == RemoveNul(a) + RemoveNul(b)
    decreases |a|
  {
    if a != [] {
      assert (a + b)[1..] == a[1..] + b;
      RemoveNulAppend(a[1..], b);
    } else {
      assert a + b == b;
    }
  }

  lemma {:induction false} RemoveNulOfNuls(n: nat)
    ensures RemoveNul(Repeat(Nul, n)) == []
    decreases n
  {
    if n > 0 {
      assert Repeat(Nul, n)[1..] == Repeat(Nul, n - 1);
      RemoveNulOfNuls(n - 1);
    }
  }

  /** strip() keeps a subsequence of its input, so a byte the input lacks stays absent. */
  lemma {:induction false} StripLacks(s: string, c: char)
    requires c !in s
    ensures c !in Strip(s)
  {
    var r := StripRight(s);
    var l := StripLeft(r);
    StripRightShape(s);
    assert forall i | 0 <= i < |r| :: r[i] == s[i];
    StripLeftShape(r);
    assert forall i | 0 <= i < |l| :: l[i] == r[|r| - |l| + i];
  }

  /** A string with no whitespace at either end is its own strip(). */
  lemma {:induction false} StripOfStripped(t: string)
    requires t == [] || (!IsSpace(t[0]) && !IsSpace(t[|t| - 1]))
    ensures Strip(t) == t
  {
    assert StripRight(t) == t;
  }

  /** strip_null_bytes(): no NUL survives and no whitespace is left at either end. */
  function StripNullBytes(s: string): (r: string)
    ensures Nul !in r
    ensures r == [] || (!IsSpace(r[0]) && !IsSpace(r[|r| - 1]))
  {
    StripLacks(RemoveNul(s), Nul);
    Strip(RemoveNul(s))
  }

  /**
   * pack_null_bytes(): a non-empty string is cut to length - 1 bytes (Python's
   * string[:length-1], which for length 0 drops the last byte) and gets a NUL,
   * or is padded with NULs to length; None or "" gives length NULs.
   */
  function PackNullBytes(s: Option<string>, length: nat): (r: string)
    ensures length >= 1 ==> |r| == length && r[length - 1] == Nul
    ensures s.None? || s.value == [] ==> r == Repeat(Nul, length)
    ensures length >= 1 && s.Some? ==>
      var k := if |s.value| < length - 1 then |s.value| else length - 1;
      r[..k] == s.value[..k] && forall i | k <= i < length :: r[i] == Nul
  {
    if s.Some? && s.value != [] then
      if |s.value| >= length - 1 then
        (if length >= 1 then s.value[..length - 1] else s.value[..|s.value| - 1]) + [Nul]
      else s.value + Repeat(Nul, length - |s.value|)
    else Repeat(Nul, length)
  }

  /** A text field the writer can store: at most 29 bytes, no NUL, nothing for strip() to remove. */
  predicate Fits(t: Option<string>) {
    t.None? ||
    (|t.value| <= 29 && Nul !in t.value && (t.value == [] || (!IsSpace(t.value[0]) && !IsSpace(t.value[|t.value| - 1]))))
  }

  function TextOf(t: Option<string>): string {
    if t.Some? then t.value else ""
  }

  /** Packing a field that fits into 30 bytes and stripping it again gives the field back. */
  lemma {:induction false} PackStripRoundTrip(t: Option<string>)
    requires Fits(t)
    ensures StripNullBytes(PackNullBytes(t, 30)) == TextOf(t)
  {
    PackedFieldNuls(t);
    StripOfStripped(TextOf(t));
  }

  /** Removing the NULs from a packed field that fits leaves the field. */
  lemma {:induction false} PackedFieldNuls(t: Option<string>)
    requires t.None? || (|t.value| <= 29 && Nul !in t.value)
    ensures RemoveNul(PackNullBytes(t, 30)) == TextOf(t)
  {
    var s := TextOf(t);
    var pad := Repeat(Nul, 30 - |s|);
    calc {
      RemoveNul(PackNullBytes(t, 30));
    == { PackedField(t); }
      RemoveNul(s + pad);
    == { RemoveNulAppend(s, pad); }
      RemoveNul(s) + RemoveNul(pad);
    == { RemoveNulOfNuls(30 - |s|); }
      RemoveNul(s) + [];
    == { assert RemoveNul(s) + [] == RemoveNul(s); }
      s;
    }
  }

  /** A field of at most 29 bytes is packed into 30 as itself followed by NULs. */
  lemma {:induction false} PackedField(t: Option<string>)
    requires t.None? || |t.value| <= 29
    ensures PackNullBytes(t, 30) == TextOf(t) + Repeat(Nul, 30 - |TextOf(t)|)
  {
    var s := TextOf(t);
    if s == [] {
      assert s + Repeat(Nul, 30) == Repeat(Nul, 30);
    } else if |s| == 29 {
      assert s[..29] == s;
      assert [Nul] == Repeat(Nul, 1);
    }
  }

  // ---------------------------------------------------------------------
  // read_id3v1_tag_data

  /**
   * The fields the reader assigns from the 128-byte trailer and the 227 bytes
   * before it, before data.clean(False).
   */
  function RawFields(tag: string, tagx: string): (r: TrackData.TrackRecord)
    requires |tag| == 128 && |tagx| == 227
  {
    if tag[..3] != "TAG" then TrackData.Blank else Extended(BaseFields(tag), tagx)
  }

  /** An ID3v1.0 or ID3v1.1 trailer that has the marker; the track only under ID3v1.1. */
  function BaseFields(tag: string): (r: TrackData.TrackRecord)
    requires |tag| == 128
    ensures r.title.Some? && r.album.Some? && r.artist.Some?
  {
    TrackData.TrackRecord(
      title := Some(StripNullBytes(tag[3..33])),
      album := Some(StripNullBytes(tag[63..93])),
      artist := Some(StripNullBytes(tag[33..63])),
      track := if Ord(tag[125]) == 0 && Ord(tag[126]) != 0 then Some(Ord(tag[126])) else None,
      year := YearField(tag[93..97]),
      genre := Some(Ord(tag[127])))
  }

  /** The year bytes: None when all four are NUL, else mint() of the stripped bytes. */
  function YearField(y: string): Option<int> {
    if y != [Nul, Nul, Nul, Nul] then TrackData.Mint(StripNullBytes(y)) else None
  }

  /** The record with the "TAG+" fields appended when the block has its marker. */
  function Extended(d: TrackData.TrackRecord, tagx: string): TrackData.TrackRecord
    requires |tagx| == 227 && d.title.Some? && d.album.Some? && d.artist.Some?
  {
    if tagx[..4] == "TAG+" then WithExtension(d, tagx) else d
  }

  /** The "TAG+" fields appended to title, artist and album; nothing else changes. */
  function WithExtension(d: TrackData.TrackRecord, tagx: string): (r: TrackData.TrackRecord)
    requires |tagx| == 227 && d.title.Some? && d.album.Some? && d.artist.Some?
    ensures r.(title := d.title, artist := d.artist, album := d.album) == d
    ensures r.title.Some? && StartsWith(r.title.value, d.title.value)
    ensures r.artist.Some? && StartsWith(r.artist.value, d.artist.value)
    ensures r.album.Some? && StartsWith(r.album.value, d.album.value)
  {
    d.(title := Some(d.title.value + StripNullBytes(tagx[4..64])),
       artist := Some(d.artist.value + StripNullBytes(tagx[64..124])),
       album := Some(d.album.value + StripNullBytes(tagx[124..184])))
  }

  /** What the reader returns for a file: the raw fields cleaned, or the seek error. */
  function ReadRecord(f: string): Result<TrackData.TrackRecord, Error> {
    if |f| < 355 then Failure(ShortFile)
    else Success(TrackData.CleanRecord(RawFields(f[|f| - 128..], f[|f| - 355..|f| - 128]), false))
  }

  /** Without the "TAG" marker every field stays None; with it the genre is byte 127. */
  lemma {:induction false} RawFieldsMarker(tag: string, tagx: string)
    requires |tag| == 128 && |tagx| == 227
    ensures tag[..3] != "TAG" ==> RawFields(tag, tagx) == TrackData.Blank
    ensures tag[..3] == "TAG" ==>
      && RawFields(tag, tagx).genre == Some(Ord(tag[127]))
      && RawFields(tag, tagx).title.Some? && RawFields(tag, tagx).album.Some? && RawFields(tag, tagx).artist.Some?
    ensures RawFields(tag, tagx).track.Some? <==> tag[..3] == "TAG" && Ord(tag[125]) == 0 && Ord(tag[126]) != 0
    ensures RawFields(tag, tagx).track.Some? ==> 0 < RawFields(tag, tagx).track.value < 256
    ensures tag[..3] == "TAG" && tag[93..97] == Repeat(Nul, 4) ==> RawFields(tag, tagx).year == None
  {
    assert [Nul, Nul, Nul, Nul] == Repeat(Nul, 4);
  }

  /** read_id3v1_tag_data() over the file's bytes: fills a fresh TrackData in place. */
  method ReadTagData(f: string) returns (r: Result<TrackData.TrackData, Error>)
    ensures r.Failure? <==> ReadRecord(f).Failure?
    ensures r.Failure? ==> r.error == ReadRecord(f).error
    ensures r.Success? ==> fresh(r.value) && r.value.Record() == ReadRecord(f).value
  {
    var data := new TrackData.TrackData();
    if |f| < 355 {
      return Failure(ShortFile);
    }
    var tagx := f[|f| - 355..|f| - 128];
    var tag := f[|f| - 128..];
    if tag[..3] == "TAG" {
      AssignFields(data, tag, tagx);
      data.Clean(false);
    }
    return Success(data);
  }

  /** The assignments of a tag that has the "TAG" marker, then the "TAG+" fields appended with +=. */
  method AssignFields(data: TrackData.TrackData, tag: string, tagx: string)
    requires |tag| == 128 && |tagx| == 227 && tag[..3] == "TAG"
    requires data.Record() == TrackData.Blank
    modifies data
    ensures data.Record() == RawFields(tag, tagx)
  {
    AssignBase(data, tag);
    if tagx[..4] == "TAG+" {
      AppendExtension(data, tagx);
    }
  }

  /** The three += of a "TAG+" block. */
  method AppendExtension(data: TrackData.TrackData, tagx: string)
    requires |tagx| == 227 && data.title.Some? && data.album.Some? && data.artist.Some?
    modifies data
    ensures data.Record() == WithExtension(old(data.Record()), tagx)
  {
    data.title := Some(data.title.value + StripNullBytes(tagx[4..64]));
    data.artist := Some(data.artist.value + StripNullBytes(tagx[64..124]));
    data.album := Some(data.album.value + StripNullBytes(tagx[124..184]));
  }

  /** The ID3v1.0/ID3v1.1 assignments into a fresh TrackData. */
  method AssignBase(data: TrackData.TrackData, tag: string)
    requires |tag| == 128
    requires data.Record() == TrackData.Blank
    modifies data
    ensures data.Record() == BaseFields(tag)
  {
    data.title := Some(StripNullBytes(tag[3..33]));
    data.artist := Some(StripNullBytes(tag[33..63]));
    data.album := Some(StripNullBytes(tag[63..93]));
    data.year := YearField(tag[93..97]);
    data.genre := Some(Ord(tag[127]));
    if Ord(tag[125]) == 0 && Ord(tag[126]) != 0 {
      data.track := Some(Ord(tag[126]));
    }
  }

  // ---------------------------------------------------------------------
  // create_id3v1_tag_string

  /** The year bytes: str(year) when the year is truthy, else four NULs. */
  function YearString(year: Option<int>): string {
    if year.Some? && year.value != 0 then IntToString(year.value) else Repeat(Nul, 4)
  }

  predicate IsByte(v: Option<int>) {
    v.Some? && 0 <= v.value < 256
  }

  /** create_id3v1_tag_string(): chr() raises unless track and genre are both 0..255. */
  function CreateTagString(d: TrackData.TrackRecord): (r: Result<string, Error>)
    ensures r.Success? <==> IsByte(d.track) && IsByte(d.genre)
    ensures r.Success? ==> |r.value| == 124 + |YearString(d.year)|
  {
    if !IsByte(d.track) || !IsByte(d.genre) then Failure(NotAByte)
    else
      Success("TAG" + PackNullBytes(d.title, 30) + PackNullBytes(d.artist, 30) + PackNullBytes(d.album, 30)
              + YearString(d.year) + Repeat(Nul, 28) + [Nul] + [Chr(d.track.value)] + [Chr(d.genre.value)])
  }

  /** Where each field lands in a written tag whose year renders as four bytes. */
  lemma {:induction false} CreatedTagLayout(d: TrackData.TrackRecord)
    requires CreateTagString(d).Success? && |YearString(d.year)| == 4
    ensures var t := CreateTagString(d).value;
      && |t| == 128 && t[..3] == "TAG"
      && t[3..33] == PackNullBytes(d.title, 30)
      && t[33..63] == PackNullBytes(d.artist, 30)
      && t[63..93] == PackNullBytes(d.album, 30)
      && t[93..97] == YearString(d.year)
      && t[97..125] == Repeat(Nul, 28) && t[125] == Nul
      && Ord(t[126]) == d.track.value && Ord(t[127]) == d.genre.value
  {
    var t := CreateTagString(d).value;
    var a := "TAG";
    var p1 := PackNullBytes(d.title, 30);
    var p2 := PackNullBytes(d.artist, 30);
    var p3 := PackNullBytes(d.album, 30);
    var y := YearString(d.year);
    var tail := Repeat(Nul, 28) + [Nul] + [Chr(d.track.value)] + [Chr(d.genre.value)];
    assert t == a + p1 + p2 + p3 + y + tail;
    assert t[..3] == a;
    assert t[3..33] == p1;
    assert t[33..63] == p2;
    assert t[63..93] == p3;
    assert t[93..97] == y;
    assert t[97..] == tail;
  }

  /** The year field of a written tag reads back as the year, or None for a missing or zero year. */
  lemma {:induction false} YearReadBack(year: Option<int>)
    requires |YearString(year)| == 4
    ensures var y := YearString(year);
      (if y != [Nul, Nul, Nul, Nul] then TrackData.Mint(StripNullBytes(y)) else None)
      == (if year.Some? && year.value != 0 then year else None)
  {
    var y := YearString(year);
    if year.Some? && year.value != 0 {
      assert y[0] != Nul by {
        assert y[0] == '-' || IsDigit(y[0]);
      }
      assert Nul !in y by {
        forall i | 0 <= i < |y| ensures y[i] != Nul {
          assert y[i] == '-' || IsDigit(y[i]);
        }
      }
      assert StripNullBytes(y) == y;
      TrackData.MintOfIntToString(year.value);
    } else {
      assert y == [Nul, Nul, Nul, Nul];
    }
  }

  /**
   * Reading back a written tag: every text field that fits comes back as it was
   * ("" for None), the track when it is 1..255, the year when it is non-zero and
   * renders as four bytes, and the genre.
   */
  lemma {:induction false} CreatedTagReadsBack(d: TrackData.TrackRecord, tagx: string)
    requires CreateTagString(d).Success? && |YearString(d.year)| == 4
    requires Fits(d.title) && Fits(d.artist) && Fits(d.album)
    requires |tagx| == 227 && tagx[..4] != "TAG+"
    ensures var r := RawFields(CreateTagString(d).value, tagx);
      && r.title == Some(TextOf(d.title))
      && r.artist == Some(TextOf(d.artist))
      && r.album == Some(TextOf(d.album))
      && r.track == (if d.track.value == 0 then None else d.track)
      && r.year == (if d.year.Some? && d.year.value != 0 then d.year else None)
      && r.genre == d.genre
  {
    var t := CreateTagString(d).value;
    CreatedTagLayout(d);
    PackStripRoundTrip(d.title);
    PackStripRoundTrip(d.artist);
    PackStripRoundTrip(d.album);
    YearReadBack(d.year);
    assert Ord(t[125]) == 0;
  }

  /** A file that ends in a written tag: the reader sees that tag and the 227 bytes before it. */
  lemma {:induction false} ReadRecordOfAppended(body: string, tag: string)
    requires |tag| == 128 && |body| >= 227
    ensures ReadRecord(body + tag) ==
      Success(TrackData.CleanRecord(RawFields(tag, body[|body| - 227..]), false))
  {
    var f := body + tag;
    assert f[|f| - 128..] == tag;
    assert f[|f| - 355..|f| - 128] == body[|body| - 227..];
  }
}
