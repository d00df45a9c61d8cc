/**
 * extractID3v2 of the C tools (old_c_code/id3v2.c, and the same reader in
 * even_older_c_code/mp3.c): after the ten-byte "ID3" header, frames are read
 * one after another until the tag size is used up, a frame cannot be read
 * whole or a frame size is 0. Seven text frames are copied into the song.
 *
 * The file is a Stream over its bytes; fread returns fewer bytes at its end.
 * Frame texts are stored as charCopy is meant to copy them (FrameText), and a
 * TRCK text is split at its '/' (TrackParts); the copies as written are
 * CCommon.CharCopy and TrackPartsAsWritten, whose faults the lemmas at the
 * end of this module exhibit.
 */
module CId3v2 {
  import opened Wrappers
  import opened PyStr
  import opened CCommon
  import opened CSong
  import ID3v2
  import TrackData

  const Two32 := 0x1_0000_0000

  /** A FILE* opened for reading: the file's bytes and the read position. */
  class Stream {
    const data: string
    var pos: nat

    ghost predicate Valid()
      reads this
    {
      pos <= |data|
    }

    constructor (data: string)
      ensures this.data == data && pos == 0 && Valid()
    {
      this.data := data;
      pos := 0;
    }

    /** fread(buf, 1, n, f): the next n bytes, or all that is left when fewer remain. */
    method Read(n: nat) returns (got: string)
      requires Valid()
      modifies this
      ensures Valid() && old(pos) <= pos && got == data[old(pos)..pos]
      ensures |got| == if n <= |data| - old(pos) then n else |data| - old(pos)
    {
      var m := if n <= |data| - pos then n else |data| - pos;
      got := data[pos..pos + m];
      pos := pos + m;
    }
  }

  // ---------------------------------------------------------------------
  // Sizes

  /**
   * tag_size: bytes 6-9 of the header read as plain (signed) chars, 7 bits
   * apart, their int sum stored in an unsigned int.
   */
  function TagSize(h: string): (n: nat)
    requires |h| == 10
    ensures n < Two32
  {
    (SignedChar(h[6]) * 0x20_0000 + SignedChar(h[7]) * 0x4000 + SignedChar(h[8]) * 0x80 + SignedChar(h[9])) % Two32
  }

  /** On a syncsafe size the C sum is the ID3v2 syncsafe integer. */
  lemma TagSizeSyncsafe(h: string)
    requires |h| == 10 && ID3v2.SyncsafeBytes(h[6..10])
    ensures TagSize(h) == ID3v2.ReadSyncsafe32(h[6..10]).value
  {
    assert Ord(h[6..10][0]) < 0x80 && Ord(h[6..10][1]) < 0x80;
    assert Ord(h[6..10][2]) < 0x80 && Ord(h[6..10][3]) < 0x80;
  }

  /** A size byte with its top bit set is sign-extended: 0xFF in byte 9 makes the tag 2^32 - 1 bytes long. */
  lemma TagSizeSignExtends(h: string)
    requires |h| == 10 && Ord(h[6]) == 0 && Ord(h[7]) == 0 && Ord(h[8]) == 0 && Ord(h[9]) == 0xFF
    ensures TagSize(h) == Two32 - 1
    ensures ID3v2.ReadSyncsafe32(h[6..10]).Failure?
  {
    assert Ord(h[6..10][3]) == 0xFF;
  }

  /** The header the Python writer emits announces its body size to the C reader as well. */
  lemma TagSizeOfWritten(n: nat)
    requires n < 0x1000_0000
    ensures TagSize(ID3v2.WrittenHeader(n)) == n
  {
    var h := ID3v2.WrittenHeader(n);
    assert h[6..10] == ID3v2.SyncsafeString(n);
    ID3v2.SyncsafeRoundTrip(n);
    TagSizeSyncsafe(h);
  }

  /**
   * frame_size: bytes 4-7 of a frame header, each masked to a byte,
   * big-endian; the ID3v2.3.0 frame size.
   */
  function FrameSize(h: string): (n: nat)
    requires |h| == 10
    ensures n < Two32
  {
    ID3v2.ReadPlain32(h[4..8])
  }

  // ---------------------------------------------------------------------
  // Frame texts

  /** The text of a frame body: what follows its leading NULs, up to its end or its next NUL. */
  function FrameText(b: string): (r: string)
    ensures Nul !in r && |r| <= |b|
    ensures Nul !in b ==> r == b
  {
    CStr(b[LeadingNuls(b)..])
  }

  /** An ISO-8859-1 frame as the writer makes it, selector 0, text, NUL, reads back as its text. */
  lemma FrameTextOfWritten(content: string)
    requires Nul !in content
    ensures FrameText([Nul] + content + [Nul]) == content
  {
    var b := [Nul] + content + [Nul];
    if content == [] {
      assert LeadingNuls(b) == 2 by {
        assert LeadingNuls(b[1..]) == 1 + LeadingNuls(b[2..]);
      }
    } else {
      assert b[1..] == content + [Nul];
      assert LeadingNuls(b[1..]) == 0;
      CLenAt(b[1..], |content|);
      assert (content + [Nul])[..|content|] == content;
    }
  }

  /**
   * The copy charCopy was meant to make, len being the body's length less
   * the NULs it steps over, stays inside the body and its C string is FrameText.
   */
  lemma FrameTextIsCopy(b: string, len: int)
    requires LeadingNuls(b) < |b| && len == |b| - LeadingNuls(b)
    ensures LeadingNuls(b) + Natural(len) <= |b|
    ensures CStr(Copied(b, len)) == FrameText(b)
  {
    assert Copied(b, len) == b[LeadingNuls(b)..];
  }

  /** A TRCK text split at its first '/': the track and, after it, the track count. */
  function TrackParts(text: string): (r: (string, Option<string>))
    ensures '/' !in text ==> r == (text, None)
    ensures '/' in text ==> r.1.Some? && '/' !in r.0 && r.0 + "/" + r.1.value == text
  {
    if '/' in text then
      var i := IndexOf(text, '/');
      assert text[..i] + "/" + text[i + 1..] == text;
      (text[..i], Some(text[i + 1..]))
    else (text, None)
  }

  /** How one frame changes the song: TPE1 and TPE2 only fill an empty artist; other IDs change nothing. */
  function Store(t: Tags, id: string, text: string): (r: Tags)
    ensures (id != "TIT2" && id != "TPE1" && id != "TPE2" && id != "TALB" && id != "TYER" &&
             id != "TRCK" && id != "TCON") ==> r == t
    ensures (id == "TPE1" || id == "TPE2") ==> r.artist == if t.artist.None? then Some(text) else t.artist
  {
    if id == "TIT2" then t.(title := Some(text))
    else if id == "TPE1" || id == "TPE2" then
      (if t.artist.None? then t.(artist := Some(text)) else t)
    else if id == "TALB" then t.(album := Some(text))
    else if id == "TYER" then t.(year := Some(text))
    else if id == "TRCK" then
      var p := TrackParts(text);
      t.(track := Some(p.0), maxTracks := if p.1.Some? then p.1 else t.maxTracks)
    else if id == "TCON" then t.(genre := Some(text))
    else t
  }

  // ---------------------------------------------------------------------
  // The frame loop

  /**
   * The frames the loop reads from pos on, as (ID, body) pairs, bytes_read
   * being read: none once the tag size is used up, fewer than ten bytes
   * remain, a frame size is 0 or the body is cut short. bytes_read is an
   * unsigned int and wraps.
   */
  function Frames(data: string, pos: nat, read: nat, tagSize: nat): seq<(string, string)>
    requires pos <= |data|
    decreases |data| - pos
  {
    if read >= tagSize || |data| - pos < 10 then []
    else
      var h := data[pos..pos + 10];
      var size := FrameSize(h);
      if size < 1 || |data| - (pos + 10) < size then []
      else [(h[..4], data[pos + 10..pos + 10 + size])] + Frames(data, pos + 10 + size, ReadAfter(read, size), tagSize)
  }

  /** bytes_read after a frame header and a body of size bytes, in unsigned int arithmetic. */
  function ReadAfter(read: nat, size: nat): (r: nat)
    ensures r < Two32
    ensures read + 10 + size < Two32 ==> r == read + 10 + size
  {
    ((read + 10) % Two32 + size) % Two32
  }

  /** The song after storing the text of each (ID, body) frame in turn. */
  function Stored(t: Tags, fs: seq<(string, string)>): Tags
    decreases |fs|
  {
    if fs == [] then t else Stored(Store(t, fs[0].0, FrameText(fs[0].1)), fs[1..])
  }

  /** The ten header bytes in h after fread: those the file has, then what h held before. */
  function HeaderRead(data: string, stale: string): (h: string)
    requires |stale| == 10
    ensures |h| == 10 && (|data| >= 10 ==> h == data[..10])
  {
    var n := if |data| < 10 then |data| else 10;
    data[..n] + stale[n..]
  }

  /** What extractID3v2 returns for a file: NULL without "ID3", otherwise the frames stored into an empty song. */
  function ID3v2Fields(data: string, stale: string): Option<Tags>
    requires |stale| == 10
  {
    var h := HeaderRead(data, stale);
    if h[..3] != "ID3" then None
    else Some(Stored(NoTags, Frames(data, if |data| < 10 then |data| else 10, 0, TagSize(h))))
  }

  /** The body of the loop for one of the seven frame IDs. */
  method StoreFrame(song: Song, id: string, text: string)
    modifies song
    ensures song.Fields() == Store(old(song.Fields()), id, text)
  {
    if id == "TIT2" {
      song.title := Some(text);
    } else if id == "TPE1" || id == "TPE2" {
      if song.artist.None? {
        song.artist := Some(text);
      }
    } else if id == "TALB" {
      song.album := Some(text);
    } else if id == "TYER" {
      song.year := Some(text);
    } else if id == "TRCK" {
      var p := TrackParts(text);
      song.track := Some(p.0);
      if p.1.Some? {
        song.maxTracks := p.1;
      }
    } else if id == "TCON" {
      song.genre := Some(text);
    }
  }

  /**
   * extractID3v2 on an open file, stale being what h holds before the first
   * fread: NULL without the "ID3" marker, otherwise a fresh song holding
   * the frames read, stored in order.
   */
  method ExtractID3v2(f: Stream, stale: string) returns (result: Song?)
    requires f.Valid() && f.pos == 0 && |stale| == 10
    modifies f
    ensures result == null <==> ID3v2Fields(f.data, stale).None?
    ensures result != null ==> fresh(result) && Some(result.Fields()) == ID3v2Fields(f.data, stale)
  {
    var h := f.Read(10);
    h := h + stale[|h|..];
    assert h == HeaderRead(f.data, stale);
    if h[0] != 'I' || h[1] != 'D' || h[2] != '3' {
      assert h[..3] != "ID3" by {
        assert h[..3] == [h[0], h[1], h[2]];
      }
      return null;
    }
    assert h[..3] == "ID3";
    var tagSize := TagSize(h);
    result := new Song();
    var bytesRead: nat := 0;
    ghost var goal := Stored(NoTags, Frames(f.data, f.pos, 0, tagSize));
    while bytesRead < tagSize
      invariant f.Valid() && bytesRead < Two32
      invariant Stored(result.Fields(), Frames(f.data, f.pos, bytesRead, tagSize)) == goal
      decreases |f.data| - f.pos
    {
      var more;
      bytesRead, more := NextFrame(f, result, bytesRead, tagSize);
      if !more {
        break;
      }
    }
  }

  /**
   * One pass of the frame loop: read a frame header and its body, store the
   * frame's text, and report whether the loop goes on (false where it breaks).
   */
  method NextFrame(f: Stream, song: Song, read: nat, tagSize: nat) returns (read': nat, more: bool)
    requires f.Valid() && read < tagSize
    modifies f, song
    ensures f.Valid() && read' < Two32 && old(f.pos) <= f.pos
    ensures more ==> old(f.pos) < f.pos
    ensures more ==> Stored(song.Fields(), Frames(f.data, f.pos, read', tagSize)) ==
                     Stored(old(song.Fields()), Frames(f.data, old(f.pos), read, tagSize))
    ensures !more ==> song.Fields() == Stored(old(song.Fields()), Frames(f.data, old(f.pos), read, tagSize))
  {
    ghost var pos := f.pos;
    ghost var t := song.Fields();
    var fh := f.Read(10);
    if |fh| < 10 {
      return 0, false;
    }
    var size := FrameSize(fh);
    if size < 1 {
      return 0, false;
    }
    var b := f.Read(size);
    if |b| < size {
      return 0, false;
    }
    read' := ReadAfter(read, size);
    assert fh == f.data[pos..pos + 10] && b == f.data[pos + 10..pos + 10 + size];
    ghost var rest := Frames(f.data, f.pos, read', tagSize);
    assert Frames(f.data, pos, read, tagSize) == [(fh[..4], b)] + rest;
    StoreFrame(song, fh[..4], FrameText(b));
    StoredCons(t, (fh[..4], b), rest);
    more := true;
  }

  /** Storing a first frame, then the rest. */
  lemma StoredCons(t: Tags, x: (string, string), fs: seq<(string, string)>)
    ensures Stored(t, [x] + fs) == Stored(Store(t, x.0, FrameText(x.1)), fs)
  {
    assert ([x] + fs)[1..] == fs;
  }

  // ---------------------------------------------------------------------
  // Properties of the walk

  /** Storing a + b is storing a, then b. */
  lemma {:induction false} StoredAppend(t: Tags, a: seq<(string, string)>, b: seq<(string, string)>)
    ensures Stored(t, a + b) == Stored(Stored(t, a), b)
    decreases |a|
  {
    if a == [] {
      assert a + b == b;
    } else {
      assert (a + b)[1..] == a[1..] + b;
      StoredAppend(Store(t, a[0].0, FrameText(a[0].1)), a[1..], b);
    }
  }

  /** The first TPE1 or TPE2 frame decides the artist: later frames leave it as it is. */
  lemma {:induction false} StoredKeepsArtist(t: Tags, fs: seq<(string, string)>)
    requires t.artist.Some?
    ensures Stored(t, fs).artist == t.artist
    decreases |fs|
  {
    if fs != [] {
      StoredKeepsArtist(Store(t, fs[0].0, FrameText(fs[0].1)), fs[1..]);
    }
  }

  /** A frame header whose size bytes are NUL, as in the padding, ends the loop where it stands. */
  lemma PaddingEndsFrames(data: string, pos: nat, read: nat, tagSize: nat)
    requires pos + 10 <= |data| && forall i | pos + 4 <= i < pos + 8 :: data[i] == Nul
    ensures Frames(data, pos, read, tagSize) == []
  {
    SliceOfSlice(data, pos, pos + 10, 4, 8);
    var q := data[pos + 4..pos + 8];
    forall k | 0 <= k < 4
      ensures q[k] == Nul
    {
      assert q[k] == data[pos + 4 + k];
    }
    assert q == [Nul, Nul, Nul, Nul];
  }

  /** One step of the frame loop, where a whole frame is there to read. */
  lemma FramesStep(data: string, pos: nat, read: nat, tagSize: nat)
    requires read < tagSize && pos + 10 <= |data|
    requires 1 <= FrameSize(data[pos..pos + 10]) <= |data| - (pos + 10)
    ensures var size := FrameSize(data[pos..pos + 10]);
            Frames(data, pos, read, tagSize) ==
            [(data[pos..pos + 4], data[pos + 10..pos + 10 + size])] +
            Frames(data, pos + 10 + size, ReadAfter(read, size), tagSize)
  {
    SliceOfSlice(data, pos, pos + 10, 0, 4);
  }

  /** A slice of a slice is a slice of the whole. */
  lemma SliceOfSlice(s: string, a: nat, b: nat, i: nat, j: nat)
    requires a <= b <= |s| && i <= j <= b - a
    ensures s[a..b][i..j] == s[a + i..a + j]
  {
    assert forall k | 0 <= k < j - i :: s[a..b][i..j][k] == s[a + i + k];
  }

  /**
   * The frames of fs laid one after another from pos: each a four-byte ID,
   * a size equal to the length of its body, two bytes of flags and the body.
   */
  ghost predicate Laid(data: string, pos: nat, fs: seq<(string, string)>)
    decreases |fs|
  {
    fs == [] ||
    (var size := |fs[0].1|;
     && 1 <= size && pos + 10 + size <= |data|
     && data[pos..pos + 4] == fs[0].0 && FrameSize(data[pos..pos + 10]) == size
     && data[pos + 10..pos + 10 + size] == fs[0].1
     && Laid(data, pos + 10 + size, fs[1..]))
  }

  /** How many bytes the frames of fs take. */
  function LaidLength(fs: seq<(string, string)>): nat
    decreases |fs|
  {
    if fs == [] then 0 else 10 + |fs[0].1| + LaidLength(fs[1..])
  }

  /** Laid-out frames within the tag size are read back one by one, as they were laid. */
  lemma {:induction false} LaidFramesRead(data: string, pos: nat, read: nat, tagSize: nat, fs: seq<(string, string)>,
                                          end: nat, endRead: nat)
    requires pos <= |data| && Laid(data, pos, fs)
    requires end == pos + LaidLength(fs) && endRead == read + LaidLength(fs) && endRead <= tagSize < Two32
    ensures end <= |data|
    ensures Frames(data, pos, read, tagSize) == fs + Frames(data, end, endRead, tagSize)
    decreases |fs|
  {
    if fs == [] {
      assert fs + Frames(data, pos, read, tagSize) == Frames(data, pos, read, tagSize);
    } else {
      var size := |fs[0].1|;
      var next, nextRead := pos + 10 + size, read + 10 + size;
      LaidHead(data, pos, read, tagSize, fs);
      LaidFramesRead(data, next, nextRead, tagSize, fs[1..], end, endRead);
      ConsAppend(fs, Frames(data, end, endRead, tagSize));
    }
  }

  /** The first laid-out frame is read as it was laid, and the rest are laid after it. */
  lemma LaidHead(data: string, pos: nat, read: nat, tagSize: nat, fs: seq<(string, string)>)
    requires pos <= |data| && fs != [] && Laid(data, pos, fs)
    requires read + 10 + |fs[0].1| <= tagSize < Two32
    ensures pos + 10 + |fs[0].1| <= |data| && Laid(data, pos + 10 + |fs[0].1|, fs[1..])
    ensures Frames(data, pos, read, tagSize) ==
            [fs[0]] + Frames(data, pos + 10 + |fs[0].1|, read + 10 + |fs[0].1|, tagSize)
  {
    var size := |fs[0].1|;
    FramesStep(data, pos, read, tagSize);
    assert ReadAfter(read, size) == read + 10 + size;
  }

  lemma ConsAppend<T>(a: seq<T>, b: seq<T>)
    requires a != []
    ensures a + b == [a[0]] + (a[1..] + b)
  {
  }

  // ---------------------------------------------------------------------
  // Reading back what the Python writer wrote

  /** The (ID, body) frames of the writer's (ID, text) pairs: each text between two NULs. */
  function Bodies(ps: seq<(string, string)>): (fs: seq<(string, string)>)
    ensures |fs| == |ps|
    decreases |ps|
  {
    if ps == [] then [] else [(ps[0].0, [Nul] + ps[0].1 + [Nul])] + Bodies(ps[1..])
  }

  /** One text frame of the writer, found at pos, has its ID, its body's length as size, and its body. */
  lemma TextFrameLaid(data: string, pos: nat, id: string, content: string)
    requires |id| == 4 && 12 + |content| < Two32
    requires pos + 12 + |content| <= |data|
    requires data[pos..pos + 12 + |content|] == ID3v2.TextFrame(id, content)
    ensures data[pos..pos + 4] == id && FrameSize(data[pos..pos + 10]) == |content| + 2
    ensures data[pos + 10..pos + 12 + |content|] == [Nul] + content + [Nul]
  {
    var end := pos + 12 + |content|;
    ID3v2.TextFrameFields(id, content);
    SliceOfSlice(data, pos, end, 0, 4);
    SliceOfSlice(data, pos, end, 4, 8);
    SliceOfSlice(data, pos, pos + 10, 4, 8);
    SliceOfSlice(data, pos, end, 10, end - pos);
  }

  /** The writer's text frames, found at pos, are their bodies laid out one after another. */
  lemma {:induction false} TextFramesLaid(data: string, pos: nat, ps: seq<(string, string)>)
    requires forall p | p in ps :: |p.0| == 4
    requires pos + |ID3v2.TextFrames(ps)| <= |data| && |ID3v2.TextFrames(ps)| < Two32
    requires data[pos..pos + |ID3v2.TextFrames(ps)|] == ID3v2.TextFrames(ps)
    ensures Laid(data, pos, Bodies(ps)) && LaidLength(Bodies(ps)) == |ID3v2.TextFrames(ps)|
    decreases |ps|
  {
    if ps != [] {
      var id, content := ps[0].0, ps[0].1;
      var fr := ID3v2.TextFrame(id, content);
      var rest := ID3v2.TextFrames(ps[1..]);
      var all := ID3v2.TextFrames(ps);
      assert all == fr + rest;
      var mid := pos + |fr|;
      SplitSlice(data, pos, fr, rest);
      TextFrameLaid(data, pos, id, content);
      assert forall p | p in ps[1..] :: p in ps;
      TextFramesLaid(data, mid, ps[1..]);
      var body := [Nul] + content + [Nul];
      assert mid == pos + 10 + |body| && |body| == |content| + 2;
      LaidCons(data, pos, (id, body), Bodies(ps[1..]));
    }
  }

  /** Where a + b lies in s, a and b lie one after the other. */
  lemma SplitSlice(s: string, pos: nat, a: string, b: string)
    requires pos + |a + b| <= |s| && s[pos..pos + |a + b|] == a + b
    ensures s[pos..pos + |a|] == a && s[pos + |a|..pos + |a| + |b|] == b
  {
    var end := pos + |a + b|;
    SliceOfSlice(s, pos, end, 0, |a|);
    SliceOfSlice(s, pos, end, |a|, |a + b|);
    assert (a + b)[..|a|] == a && (a + b)[|a|..] == b;
  }

  /** A frame laid at pos, followed by laid-out frames. */
  lemma LaidCons(data: string, pos: nat, f: (string, string), fs: seq<(string, string)>)
    requires 1 <= |f.1| && pos + 10 + |f.1| <= |data|
    requires data[pos..pos + 4] == f.0 && FrameSize(data[pos..pos + 10]) == |f.1|
    requires data[pos + 10..pos + 10 + |f.1|] == f.1
    requires Laid(data, pos + 10 + |f.1|, fs)
    ensures Laid(data, pos, [f] + fs) && LaidLength([f] + fs) == 10 + |f.1| + LaidLength(fs)
  {
    assert ([f] + fs)[0] == f && ([f] + fs)[1..] == fs;
  }

  /** Storing the body of a writer's frame stores its text, when the text has no NUL. */
  lemma StoredBodiesCons(t: Tags, p: (string, string), ps: seq<(string, string)>)
    requires Nul !in p.1
    ensures Stored(t, Bodies([p] + ps)) == Stored(Store(t, p.0, p.1), Bodies(ps))
  {
    assert ([p] + ps)[0] == p && ([p] + ps)[1..] == ps;
    FrameTextOfWritten(p.1);
    StoredCons(t, (p.0, [Nul] + p.1 + [Nul]), Bodies(ps));
  }

  /** The fields the writer's frames leave in an empty song. */
  lemma StoredNewFrames(d: TrackData.TrackRecord)
    requires d.title.Some? && d.album.Some? && d.artist.Some?
    requires Nul !in d.title.value && Nul !in d.album.value && Nul !in d.artist.value
    ensures Stored(NoTags, Bodies(ID3v2.NewFrameTexts(d))) ==
            Tags(d.title, d.artist, d.album,
                 if ID3v2.Positive(d.year) then Some(IntToString(d.year.value)) else None,
                 if ID3v2.Positive(d.track) then Some(IntToString(d.track.value)) else None,
                 None, None)
  {
    var a, b, c := ("TIT2", d.title.value), ("TALB", d.album.value), ("TPE1", d.artist.value);
    var rest := NumberTexts(d);
    assert ID3v2.NewFrameTexts(d) == [a] + ([b] + ([c] + rest));
    var t1 := Store(NoTags, a.0, a.1);
    var t2 := Store(t1, b.0, b.1);
    StoredBodiesCons(NoTags, a, [b] + ([c] + rest));
    StoredBodiesCons(t1, b, [c] + rest);
    StoredBodiesCons(t2, c, rest);
    StoredNames(d);
    StoredNumbers(Tags(d.title, d.artist, d.album, None, None, None, None), d);
  }

  /** The TRCK and TYER frames of the writer, for a positive track and year. */
  function NumberTexts(d: TrackData.TrackRecord): seq<(string, string)>
  {
    (if ID3v2.Positive(d.track) then [("TRCK", IntToString(d.track.value))] else []) +
    (if ID3v2.Positive(d.year) then [("TYER", IntToString(d.year.value))] else [])
  }

  /** TIT2, TALB and TPE1 fill the title, album and artist of an empty song. */
  lemma StoredNames(d: TrackData.TrackRecord)
    requires d.title.Some? && d.album.Some? && d.artist.Some?
    ensures Store(Store(Store(NoTags, "TIT2", d.title.value), "TALB", d.album.value), "TPE1", d.artist.value) ==
            Tags(d.title, d.artist, d.album, None, None, None, None)
  {
  }

  /** The TRCK and TYER frames set the track and the year. */
  lemma StoredNumbers(t: Tags, d: TrackData.TrackRecord)
    ensures Stored(t, Bodies(NumberTexts(d))) ==
            t.(track := if ID3v2.Positive(d.track) then Some(IntToString(d.track.value)) else t.track,
               year := if ID3v2.Positive(d.year) then Some(IntToString(d.year.value)) else t.year)
  {
    var ty := if ID3v2.Positive(d.year) then [("TYER", IntToString(d.year.value))] else [];
    var t4 := if ID3v2.Positive(d.track) then t.(track := Some(IntToString(d.track.value))) else t;
    assert Stored(t, Bodies(NumberTexts(d))) == Stored(t4, Bodies(ty)) by {
      if ID3v2.Positive(d.track) {
        var s := IntToString(d.track.value);
        ID3v2.NatDigitsHaveNoSlash(d.track.value);
        IntToStringNoNul(d.track.value);
        assert NumberTexts(d) == [("TRCK", s)] + ty;
        StoredBodiesCons(t, ("TRCK", s), ty);
      } else {
        assert NumberTexts(d) == ty;
      }
    }
    if ID3v2.Positive(d.year) {
      var s := IntToString(d.year.value);
      IntToStringNoNul(d.year.value);
      assert ty == [("TYER", s)] + [];
      StoredBodiesCons(t4, ("TYER", s), []);
    }
  }

  /** A decimal number has no NUL. */
  lemma IntToStringNoNul(n: int)
    ensures Nul !in IntToString(n)
  {
    var s := IntToString(n);
    forall i | 0 <= i < |s|
      ensures s[i] != Nul
    {
      assert s[i] == '-' || IsDigit(s[i]);
    }
  }

  /**
   * The C reader on a tag the Python writer assembled from a record alone:
   * the frames read are exactly the frames written, so title, artist and
   * album come back, and the track and year when they are positive; the
   * padding ends the loop.
   */
  lemma ReadsAssembledTag(d: TrackData.TrackRecord, audio: string, stale: string)
    requires ID3v2.NewFrames(d).Success? && |stale| == 10
    requires Nul !in d.title.value && Nul !in d.album.value && Nul !in d.artist.value
    requires |ID3v2.NewFrames(d).value| + 500 < 0x1000_0000
    ensures ID3v2Fields(ID3v2.Assembled(ID3v2.NewFrames(d).value) + audio, stale) ==
            Some(Tags(d.title, d.artist, d.album,
                      if ID3v2.Positive(d.year) then Some(IntToString(d.year.value)) else None,
                      if ID3v2.Positive(d.track) then Some(IntToString(d.track.value)) else None,
                      None, None))
  {
    ReadsAssembledFrames(ID3v2.NewFrameTexts(d), audio, stale);
    StoredNewFrames(d);
  }

  /** The C reader on a tag assembled from text frames stores each frame's body, in order. */
  lemma ReadsAssembledFrames(ps: seq<(string, string)>, audio: string, stale: string)
    requires forall p | p in ps :: |p.0| == 4
    requires |ID3v2.TextFrames(ps)| + 500 < 0x1000_0000 && |stale| == 10
    ensures ID3v2Fields(ID3v2.Assembled(ID3v2.TextFrames(ps)) + audio, stale) == Some(Stored(NoTags, Bodies(ps)))
  {
    var frames := ID3v2.TextFrames(ps);
    var data := ID3v2.Assembled(frames) + audio;
    AssembledHeader(frames, audio, stale);
    AssembledFramesRead(ps, audio, data, |frames| + 500);
    var h := HeaderRead(data, stale);
    assert |data| >= 10 && h[..3] == "ID3";
    assert ID3v2Fields(data, stale) == Some(Stored(NoTags, Frames(data, 10, 0, TagSize(h))));
    assert TagSize(h) == |frames| + 500;
    assert Frames(data, 10, 0, TagSize(h)) == Bodies(ps);
  }

  /** The loop reads the writer's text frames back from an assembled tag as their bodies, and stops at the padding. */
  lemma AssembledFramesRead(ps: seq<(string, string)>, audio: string, data: string, n: nat)
    requires forall p | p in ps :: |p.0| == 4
    requires n == |ID3v2.TextFrames(ps)| + 500 < 0x1000_0000
    requires data == ID3v2.Assembled(ID3v2.TextFrames(ps)) + audio
    ensures 10 <= |data| && Frames(data, 10, 0, n) == Bodies(ps)
  {
    var frames := ID3v2.TextFrames(ps);
    AssembledBody(frames, audio);
    TextFramesLaid(data, 10, ps);
    LaidFramesRead(data, 10, 0, n, Bodies(ps), 10 + |frames|, |frames|);
    PaddingEndsFrames(data, 10 + |frames|, |frames|, n);
    var tail := Frames(data, 10 + |frames|, |frames|, n);
    assert Bodies(ps) + tail == Bodies(ps);
  }

  /** The writer's header, as fread leaves it in h, announces the frames and the padding. */
  lemma AssembledHeader(frames: string, audio: string, stale: string)
    requires |frames| + 500 < 0x1000_0000 && |stale| == 10
    ensures var h := HeaderRead(ID3v2.Assembled(frames) + audio, stale);
      h[..3] == "ID3" && TagSize(h) == |frames| + 500
  {
    var tag := ID3v2.Assembled(frames);
    var n := |frames| + 500;
    assert HeaderRead(tag + audio, stale) == ID3v2.WrittenHeader(n) by {
      assert (tag + audio)[..10] == tag[..10];
    }
    assert ID3v2.WrittenHeader(n)[..3] == "ID3";
    TagSizeOfWritten(n);
  }

  /** Where the writer's frames and padding lie in the file it writes. */
  lemma AssembledBody(frames: string, audio: string)
    ensures var data := ID3v2.Assembled(frames) + audio;
      && 10 + |frames| + 500 <= |data| && data[10..10 + |frames|] == frames
      && forall i | 14 + |frames| <= i < 18 + |frames| :: data[i] == Nul
  {
    var tag := ID3v2.Assembled(frames);
    var data := tag + audio;
    var n := |frames| + 500;
    var end := 10 + |frames|;
    assert data[10..end] == frames && data[end..10 + n] == Repeat(Nul, 500) by {
      assert tag[10..] == frames + Repeat(Nul, 500);
      assert data[10..10 + n] == tag[10..];
    }
    forall i | end + 4 <= i < end + 8
      ensures data[i] == Nul
    {
      assert data[i] == data[end..10 + n][i - end];
    }
  }

  // ---------------------------------------------------------------------
  // The copies as written

  /**
   * charCopy(out, b, frame_size) on an ISO-8859-1 frame, selector 0 then the
   * text, steps over the selector and then copies frame_size bytes: one more
   * than the body has after it, so the precondition of CharCopy fails.
   */
  lemma CharCopyOverReads(s: string)
    requires s != [] && s[0] != Nul
    ensures var b := [Nul] + s; LeadingNuls(b) == 1 && LeadingNuls(b) + Natural(|b|) > |b|
  {
    var b := [Nul] + s;
    assert b[1..] == s;
  }

  /**
   * The TRCK copies as written, on a body b: the slash index is found in b
   * itself, the track is charCopy(.., b, slash - 1) and max_tracks is the
   * C string from the slash on. Defined where those copies stay inside b.
   */
  function TrackPartsAsWritten(b: string): (r: (string, Option<string>))
    requires '/' in b ==> 1 <= IndexOf(b, '/') && LeadingNuls(b) + IndexOf(b, '/') - 1 <= |b|
    requires '/' !in b ==> LeadingNuls(b) == 0
  {
    if '/' in b then
      var i := IndexOf(b, '/');
      (CStr(Copied(b, i - 1)), Some(CStr(b[i..])))
    else (CStr(Copied(b, |b|)), None)
  }

  /**
   * "3/12" after the selector byte: as written the count keeps its '/';
   * without a selector the track loses its last digit. Split at the '/'
   * of FrameText, both come out as "3" and "12".
   */
  lemma TrackPartsAsWrittenKeepsSlash()
    ensures TrackPartsAsWritten([Nul] + "3/12") == ("3", Some("/12"))
    ensures TrackPartsAsWritten("3/12") == ("", Some("/12"))
    ensures TrackParts(FrameText([Nul] + "3/12")) == ("3", Some("12"))
    ensures TrackParts(FrameText("3/12")) == ("3", Some("12"))
  {
    var t := "3/12";
    var b := [Nul] + t;
    assert Nul !in t;
    assert IndexOf(t, '/') == 1;
    assert TrackParts(t) == ("3", Some("12")) by {
      assert t[..1] == "3" && t[2..] == "12";
    }
    assert FrameText(b) == t by {
      FrameTextAfterSelector(t);
    }
    assert CStr(t[1..]) == "/12" by {
      assert Nul !in t[1..];
    }
    assert LeadingNuls(b) == 1 by {
      assert b[1..] == t;
    }
    assert IndexOf(b, '/') == 2 by {
      assert b[1..] == t;
    }
    assert CStr(Copied(b, 1)) == "3" by {
      assert Copied(b, 1) == "3";
      assert Nul !in "3";
    }
    assert CStr(b[2..]) == "/12" by {
      assert b[2..] == t[1..];
    }
    assert TrackPartsAsWritten(t) == ("", Some("/12")) by {
      assert LeadingNuls(t) == 0;
      assert Copied(t, 0) == "";
    }
  }

  /** A body made of a selector byte and a text with no NUL reads back as that text. */
  lemma FrameTextAfterSelector(t: string)
    requires t != [] && Nul !in t
    ensures FrameText([Nul] + t) == t
  {
    var b := [Nul] + t;
    assert b[1..] == t;
    assert LeadingNuls(t) == 0;
  }
}
