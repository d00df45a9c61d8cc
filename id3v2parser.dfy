/**
 * ID3v2Parser.py: the earlier ID3v2 reader and writer. The reader takes every
 * tag as ID3v2.3 (ten-byte frame headers, big-endian frame sizes) and fills a
 * TrackData in place; the writer is ID3v2.create_tag_string with its own header
 * check and the ID3v2.3.0 frame size in the copy loop.
 */
module ID3v2Parser {
  import opened Wrappers
  import opened PyStr
  import opened ID3v2
  import TrackData

  // ---------------------------------------------------------------------
  // assert_header_valid, calculate_tag_size, calculate_frame_size

  /** What assert_header_valid lets through: ten bytes, version at most 4, minor not 0xFF, no flag but 0x40, a syncsafe size. */
  predicate HeaderValid(h: string) {
    |h| >= 10 && Ord(h[3]) <= 4 && Ord(h[4]) != 0xFF && (Ord(h[5]) as bv8) & 0xBF == 0 &&
    SyncsafeBytes(h[6..10])
  }

  /** size_okay: the size bytes from k on, checked in order; the first with its top bit set ends the check. */
  function SizeOkay(h: string, k: nat): (r: Result<bool, Error>)
    requires 6 <= k <= 10 && |h| >= k
    ensures r.Failure? ==> r.error == Truncated && |h| < 10
    ensures r == Success(true) <==> |h| >= 10 && forall i | k <= i < 10 :: Ord(h[i]) < 0x80
    ensures |h| >= 10 ==> r.Success?
    decreases 10 - k
  {
    if k == 10 then Success(true)
    else if |h| <= k then Failure(Truncated)
    else if Ord(h[k]) >= 0x80 then Success(false)
    else SizeOkay(h, k + 1)
  }

  /**
   * assert_header_valid: the three tests are computed one after another (each
   * short-circuits inside itself), an index past the end raising IndexError,
   * and a failed test raising the writer's "corrupted tag" exception.
   */
  function AssertHeaderValid(h: string): (r: Result<(), Error>)
    ensures r.Success? <==> HeaderValid(h)
    ensures |h| >= 10 && !HeaderValid(h) ==> r == Failure(CorruptedHeader)
  {
    if |h| < 4 || (Ord(h[3]) <= 4 && |h| < 5) then Failure(Truncated)
    else
      var versionOkay := Ord(h[3]) <= 4 && Ord(h[4]) != 0xFF;
      if |h| < 6 then Failure(Truncated)
      else
        var flagsOkay := (Ord(h[5]) as bv8) & 0xBF == 0;
        var sizeOkay :- SizeOkay(h, 6);
        assert sizeOkay <==> |h| >= 10 && SyncsafeBytes(h[6..10]);
        if versionOkay && flagsOkay && sizeOkay then Success(()) else Failure(CorruptedHeader)
  }

  /** The writer's own header passes the check. */
  lemma {:induction false} WrittenHeaderValid(n: nat)
    ensures AssertHeaderValid(WrittenHeader(n)) == Success(())
  {
    var h := WrittenHeader(n);
    assert h[6..10] == SyncsafeString(n);
  }

  /** calculate_tag_size: the size bytes at seven bits each, with no test of the top bits. */
  function CalculateTagSize(h: string): (r: Result<nat, Error>)
    ensures |h| < 10 <==> r.Failure?
    ensures HeaderValid(h) ==> r == ReadSyncsafe32(h[6..10])
  {
    if |h| < 10 then Failure(Truncated)
    else Success(Ord(h[6]) * 0x20_0000 + Ord(h[7]) * 0x4000 + Ord(h[8]) * 0x80 + Ord(h[9]))
  }

  /** The size the writer's header announces reads back, modulo 2^28. */
  lemma {:induction false} WrittenTagSize(n: nat)
    ensures CalculateTagSize(WrittenHeader(n)) == Success(n % 0x1000_0000)
  {
    var h := WrittenHeader(n);
    assert h[6..10] == SyncsafeString(n);
    WrittenHeaderValid(n);
    SyncsafeRoundTrip(n);
  }

  /** calculate_frame_size: bytes 4 to 7, big-endian, as section 3.3.1 of ID3v2.3.0 defines the size. */
  function CalculateFrameSize(fd: string): (r: Result<nat, Error>)
    ensures |fd| < 8 <==> r.Failure?
    ensures r.Success? ==> r.value == ReadPlain32(fd[4..8])
  {
    if |fd| < 8 then Failure(Truncated) else Success(ReadPlain32(fd[4..8]))
  }

  /** It is the size the ID3v2 writer's corrected copy loop uses. */
  lemma {:induction false} CalculateFrameSizeIsPlain(fd: string)
    ensures CalculateFrameSize(fd) == FrameSize(Plain, fd)
  {
  }

  /** The size of a text frame the writer creates reads back as its text's length plus two. */
  lemma {:induction false} TextFrameSize(id: string, content: string)
    requires |id| == 4 && |content| + 2 < 0x1_0000_0000
    ensures CalculateFrameSize(TextFrame(id, content)) == Success(|content| + 2)
  {
    TextFrameFields(id, content);
  }

  // ---------------------------------------------------------------------
  // The frame loop of read_id3v2_tag_data

  /** How a frame's text is taken from its body. */
  datatype TextCut =
    | AsWritten  // the body without its first byte, NULs included
    | AtNul      // and then cut at the first NUL, as section 4.2 of ID3v2.3.0 says a reader should

  /** The text of a frame body: body[1:], and under AtNul only what comes before a NUL. */
  function BodyText(body: string, cut: TextCut): (r: string)
    ensures cut == AsWritten ==> r == Drop(body, 1)
    ensures cut == AtNul ==> '\0' !in r
    ensures cut == AtNul && '\0' !in Drop(body, 1) ==> r == Drop(body, 1)
  {
    var t := Drop(body, 1);
    if cut == AsWritten then t else SplitOn(t, '\0')[0]
  }

  /**
   * The if/elif chain on the frame ID: TALB, TIT2 and TPE1 take the text,
   * TRCK mint() of the text before the first '/', TYER mint() of the first
   * four bytes of the text; any other frame leaves the record as it is.
   */
  function Store(d: TrackData.TrackRecord, id: string, body: string, cut: TextCut): (r: TrackData.TrackRecord)
    ensures r.genre == d.genre
    ensures !Replaced(id) ==> r == d
  {
    var text := BodyText(body, cut);
    if id == "TALB" then d.(album := Some(text))
    else if id == "TIT2" then d.(title := Some(text))
    else if id == "TPE1" then d.(artist := Some(text))
    else if id == "TRCK" then d.(track := TrackData.Mint(SplitOn(text, '/')[0]))
    else if id == "TYER" then d.(year := TrackData.Mint(Take(text, 4)))
    else d
  }

  /** Which field each of the five frames sets, and how. */
  lemma {:induction false} StoreFields(d: TrackData.TrackRecord, id: string, body: string, cut: TextCut)
    ensures var r := Store(d, id, body, cut);
      && (id == "TALB" ==> r == d.(album := Some(BodyText(body, cut))))
      && (id == "TIT2" ==> r == d.(title := Some(BodyText(body, cut))))
      && (id == "TPE1" ==> r == d.(artist := Some(BodyText(body, cut))))
      && (id == "TRCK" ==> r == d.(track := TrackData.Mint(SplitOn(BodyText(body, cut), '/')[0])))
      && (id == "TYER" ==> r == d.(year := TrackData.Mint(Take(BodyText(body, cut), 4))))
  {
  }

  /**
   * The frames the loop visits from pos on, over a tag of total bytes, each as
   * its ID and body: it stops at the tag's end or at a NUL, else reads a
   * ten-byte header, its size, and the body that follows the header, and moves
   * on by 10 + size.
   */
  function FieldFrames(f: string, total: nat, pos: nat): Result<seq<(string, string)>, Error>
    decreases total - pos
  {
    if pos >= total then Success([])
    else
      var fd := ReadAt(f, pos, 10);
      if fd == [] then Failure(Truncated)
      else if fd[0] == '\0' then Success([])
      else
        var size :- CalculateFrameSize(fd);
        var rest :- FieldFrames(f, total, pos + 10 + size);
        Success([(fd[..4], ReadAt(f, pos + |fd|, size))] + rest)
  }

  /** The record after the loop has stored each frame in turn. */
  function StoreAll(d: TrackData.TrackRecord, frames: seq<(string, string)>, cut: TextCut): TrackData.TrackRecord
    decreases |frames|
  {
    if frames == [] then d
    else
      var last := frames[|frames| - 1];
      Store(StoreAll(d, frames[..|frames| - 1], cut), last.0, last.1, cut)
  }

  /** The record the frame loop leaves from pos on, or the exception it raises. */
  function ReadFields(f: string, total: nat, pos: nat, d: TrackData.TrackRecord, cut: TextCut): Result<TrackData.TrackRecord, Error> {
    var frames :- FieldFrames(f, total, pos);
    Success(StoreAll(d, frames, cut))
  }

  /** The record read_id3v2_tag_data returns, or the exception it raises. */
  function ParsedRecord(f: string, cut: TextCut): (r: Result<TrackData.TrackRecord, Error>)
    ensures ReadAt(f, 0, 3) != "ID3" ==> r == Success(TrackData.Blank)
    ensures ReadAt(f, 0, 3) == "ID3" && !HeaderValid(ReadAt(f, 0, 10)) ==> r.Failure?
    ensures r.Success? && ReadAt(f, 0, 3) == "ID3" ==> r.value.genre == None
  {
    var h := ReadAt(f, 0, 10);
    if ReadAt(f, 0, 3) != "ID3" then Success(TrackData.Blank)
    else
      var _ :- AssertHeaderValid(h);
      var tagSize := CalculateTagSize(h).value;
      var frames :- FieldFrames(f, tagSize + 10, 10);
      StoreAllKeepsGenre(TrackData.Blank, frames, cut);
      Success(TrackData.CleanRecord(StoreAll(TrackData.Blank, frames, cut), false))
  }

  /** One turn of the frame loop, read off FieldFrames. */
  lemma {:induction false} FieldFramesStep(f: string, total: nat, pos: nat, fd: string, size: nat,
                                           frame: (string, string), next: nat)
    requires pos < total && fd == ReadAt(f, pos, 10) && fd != [] && fd[0] != '\0'
    requires CalculateFrameSize(fd) == Success(size)
    requires frame == (fd[..4], ReadAt(f, pos + |fd|, size)) && next == pos + 10 + size
    ensures FieldFrames(f, total, pos) == Prefixed([frame], FieldFrames(f, total, next))
  {
    if FieldFrames(f, total, next).Success? {
    }
  }

  /** No frame the loop reads sets the genre. */
  lemma {:induction false} StoreAllKeepsGenre(d: TrackData.TrackRecord, frames: seq<(string, string)>, cut: TextCut)
    ensures StoreAll(d, frames, cut).genre == d.genre
    decreases |frames|
  {
    if frames != [] {
      StoreAllKeepsGenre(d, frames[..|frames| - 1], cut);
    }
  }

  /** One more frame read is stored on top of the record so far. */
  lemma {:induction false} StoreAllSnoc(d: TrackData.TrackRecord, frames: seq<(string, string)>, frame: (string, string), cut: TextCut)
    ensures StoreAll(d, frames + [frame], cut) == Store(StoreAll(d, frames, cut), frame.0, frame.1, cut)
  {
    assert (frames + [frame])[..|frames|] == frames;
  }

  /** Only the five text frames change the record: a tag of other frames leaves it as it was. */
  lemma {:induction false} StoreAllIgnores(d: TrackData.TrackRecord, frames: seq<(string, string)>, cut: TextCut)
    requires forall i | 0 <= i < |frames| :: !Replaced(frames[i].0)
    ensures StoreAll(d, frames, cut) == d
    decreases |frames|
  {
    if frames != [] {
      StoreAllIgnores(d, frames[..|frames| - 1], cut);
    }
  }

  /** Frames stored one after another: the record after both runs is the second run's on the first's. */
  lemma {:induction false} StoreAllAppend(d: TrackData.TrackRecord, a: seq<(string, string)>, b: seq<(string, string)>, cut: TextCut)
    ensures StoreAll(d, a + b, cut) == StoreAll(StoreAll(d, a, cut), b, cut)
    decreases |b|
  {
    if b == [] {
      assert a + b == a;
    } else {
      var init := b[..|b| - 1];
      assert (a + b)[..|a + b| - 1] == a + init;
      StoreAllAppend(d, a, init, cut);
    }
  }

  /** The if/elif chain of the loop, assigning one field of data. */
  method StoreInto(data: TrackData.TrackData, frameId: string, body: string)
    modifies data
    ensures data.Record() == Store(old(data.Record()), frameId, body, AsWritten)
  {
    StoreFields(data.Record(), frameId, body, AsWritten);
    if frameId == "TALB" {
      data.album := Some(Drop(body, 1));
    } else if frameId == "TIT2" {
      data.title := Some(Drop(body, 1));
    } else if frameId == "TPE1" {
      data.artist := Some(Drop(body, 1));
    } else if frameId == "TRCK" {
      data.track := TrackData.Mint(SplitOn(Drop(body, 1), '/')[0]);
    } else if frameId == "TYER" {
      assert Take(Drop(body, 1), 4) == Slice(body, 1, 5);
      data.year := TrackData.Mint(Slice(body, 1, 5));
    }
  }

  /** What the frame loop keeps true: the frames read so far, then those still to come, and the record holds the first. */
  ghost predicate FieldLoopInvariant(f: string, total: nat, start: TrackData.TrackRecord, pos: nat,
                                     done: seq<(string, string)>, d: TrackData.TrackRecord) {
    FieldFrames(f, total, 10) == Prefixed(done, FieldFrames(f, total, pos)) &&
    d == StoreAll(start, done, AsWritten)
  }

  lemma {:induction false} FieldLoopStarts(f: string, total: nat, start: TrackData.TrackRecord)
    ensures FieldLoopInvariant(f, total, start, 10, [], start)
  {
    var all := FieldFrames(f, total, 10);
    if all.Success? {
      assert [] + all.value == all.value;
    }
  }

  lemma {:induction false} FieldLoopStep(f: string, total: nat, start: TrackData.TrackRecord, pos: nat,
                                         done: seq<(string, string)>, d: TrackData.TrackRecord, fd: string, size: nat,
                                         next: nat, done': seq<(string, string)>, d': TrackData.TrackRecord)
    requires FieldLoopInvariant(f, total, start, pos, done, d)
    requires pos < total && fd == ReadAt(f, pos, 10) && fd != [] && fd[0] != '\0'
    requires CalculateFrameSize(fd) == Success(size)
    requires next == pos + 10 + size
    requires done' == done + [(fd[..4], ReadAt(f, pos + |fd|, size))]
    requires d' == Store(d, fd[..4], ReadAt(f, pos + |fd|, size), AsWritten)
    ensures FieldLoopInvariant(f, total, start, next, done', d')
  {
    FieldWalkStep(f, total, pos, done, fd, size, next, done');
    StoreAllSnoc(start, done, (fd[..4], ReadAt(f, pos + |fd|, size)), AsWritten);
  }

  /** The walk half of FieldLoopStep: the frame read moves from the frames to come to those read. */
  lemma {:induction false} FieldWalkStep(f: string, total: nat, pos: nat, done: seq<(string, string)>, fd: string, size: nat,
                                         next: nat, done': seq<(string, string)>)
    requires FieldFrames(f, total, 10) == Prefixed(done, FieldFrames(f, total, pos))
    requires pos < total && fd == ReadAt(f, pos, 10) && fd != [] && fd[0] != '\0'
    requires CalculateFrameSize(fd) == Success(size)
    requires next == pos + 10 + size
    requires done' == done + [(fd[..4], ReadAt(f, pos + |fd|, size))]
    ensures FieldFrames(f, total, 10) == Prefixed(done', FieldFrames(f, total, next))
  {
    var frame := (fd[..4], ReadAt(f, pos + |fd|, size));
    var rest := FieldFrames(f, total, next);
    FieldFramesStep(f, total, pos, fd, size, frame, next);
    PrefixedChain(FieldFrames(f, total, 10), done, FieldFrames(f, total, pos), frame, rest);
  }

  lemma {:induction false} FieldLoopStops(f: string, total: nat, start: TrackData.TrackRecord, pos: nat,
                                          done: seq<(string, string)>, d: TrackData.TrackRecord)
    requires FieldLoopInvariant(f, total, start, pos, done, d)
    requires pos >= total || (ReadAt(f, pos, 10) != [] && ReadAt(f, pos, 10)[0] == '\0')
    ensures ReadFields(f, total, 10, start, AsWritten) == Success(d)
  {
    assert FieldFrames(f, total, pos) == Success([]);
    assert done + [] == done;
  }

  lemma {:induction false} FieldLoopFails(f: string, total: nat, start: TrackData.TrackRecord, pos: nat,
                                          done: seq<(string, string)>, d: TrackData.TrackRecord)
    requires FieldLoopInvariant(f, total, start, pos, done, d)
    requires pos < total
    requires ReadAt(f, pos, 10) == [] || (ReadAt(f, pos, 10)[0] != '\0' && CalculateFrameSize(ReadAt(f, pos, 10)).Failure?)
    ensures ReadFields(f, total, 10, start, AsWritten) == Failure(Truncated)
  {
    assert FieldFrames(f, total, pos) == Failure(Truncated);
  }

  /** The frame loop of read_id3v2_tag_data, over a tag of total bytes, filling data in place. */
  method ReadFrameFields(f: string, total: nat, data: TrackData.TrackData) returns (r: Result<(), Error>)
    modifies data
    ensures var all := ReadFields(f, total, 10, old(data.Record()), AsWritten);
      (r.Failure? <==> all.Failure?) && (r.Success? ==> all.value == data.Record()) &&
      (r.Failure? ==> all == Failure(r.error))
  {
    ghost var start := data.Record();
    ghost var done: seq<(string, string)> := [];
    FieldLoopStarts(f, total, start);
    var pos := 10;
    while pos < total
      invariant FieldLoopInvariant(f, total, start, pos, done, data.Record())
      decreases total - pos
    {
      var fd := ReadAt(f, pos, 10);
      if fd == [] {
        FieldLoopFails(f, total, start, pos, done, data.Record());
        return Failure(Truncated);
      }
      if fd[0] == '\0' {
        FieldLoopStops(f, total, start, pos, done, data.Record());
        return Success(());
      }
      var frameSize := CalculateFrameSize(fd);
      if frameSize.Failure? {
        FieldLoopFails(f, total, start, pos, done, data.Record());
        return Failure(frameSize.error);
      }
      var frameId := fd[..4];
      ghost var pos0, done0, d0 := pos, done, data.Record();
      StoreInto(data, frameId, ReadAt(f, pos + |fd|, frameSize.value));
      done := done + [(frameId, ReadAt(f, pos + |fd|, frameSize.value))];
      pos := pos + 10 + frameSize.value;
      FieldLoopStep(f, total, start, pos0, done0, d0, fd, frameSize.value, pos, done, data.Record());
    }
    FieldLoopStops(f, total, start, pos, done, data.Record());
    return Success(());
  }

  /** read_id3v2_tag_data: a fresh TrackData whose fields the frame loop assigns, cleaned at the end. */
  method ReadTagData(f: string) returns (r: Result<TrackData.TrackData, Error>)
    ensures ParsedRecord(f, AsWritten).Failure? <==> r.Failure?
    ensures r.Failure? ==> r.error == ParsedRecord(f, AsWritten).error
    ensures r.Success? ==> fresh(r.value) && r.value.Record() == ParsedRecord(f, AsWritten).value
  {
    var data := new TrackData.TrackData();
    var h := ReadAt(f, 0, 10);
    if ReadAt(f, 0, 3) == "ID3" {
      var _ :- AssertHeaderValid(h);
      var tagSize := CalculateTagSize(h).value;
      var _ :- ReadFrameFields(f, tagSize + 10, data);
      data.Clean(false);
    }
    return Success(data);
  }

  // ---------------------------------------------------------------------
  // create_id3v2_tag_string

  /** The existing tag's bytes and total size, once the writer's header check has passed. */
  function CheckedTag(f: string): (r: Result<Option<(string, nat)>, Error>)
    ensures ReadAt(f, 0, 3) != "ID3" ==> r == Success(None)
    ensures ReadAt(f, 0, 3) == "ID3" ==> (r.Success? <==> HeaderValid(f)) && (r.Success? ==> r.value.Some?)
    ensures r.Success? && r.value.Some? ==>
      |f| >= 10 && r.value.value.1 == ReadSyncsafe32(f[6..10]).value + 10 &&
      r.value.value.0 == ReadAt(f, 0, r.value.value.1)
  {
    if ReadAt(f, 0, 3) != "ID3" then Success(None)
    else
      var _ :- AssertHeaderValid(f);
      var tagSize := CalculateTagSize(f).value;
      Success(Some((ReadAt(f, 0, tagSize + 10), tagSize + 10)))
  }

  /**
   * create_id3v2_tag_string: the header check, then the ID3v2 writer with the
   * ID3v2.3.0 frame size in the copy loop.
   */
  method CreateTagString(d: TrackData.TrackRecord, f: string) returns (r: Result<string, Error>)
    ensures ReadAt(f, 0, 3) == "ID3" && !HeaderValid(f) ==> r.Failure?
    ensures r == (var existing :- CheckedTag(f); TagWritten(d, existing, Plain))
  {
    var existing :- CheckedTag(f);
    r := WriteTag(d, existing, Plain);
  }

  /**
   * The output is the header, the new frames, the frames copied over and the
   * padding; the copied frames are the unreplaced frames of the walk, whole and
   * in their original order.
   */
  lemma {:induction false} WrittenTagLayout(d: TrackData.TrackRecord, tag: string, total: nat)
    requires TagWritten(d, Some((tag, total)), Plain).Success?
    ensures var t := TagWritten(d, Some((tag, total)), Plain).value;
      var walk := CopyWalk(tag, total, 10, Plain).value;
      && CopyWalk(tag, total, 10, Plain).Success?
      && t[10..] == NewFrames(d).value + Kept(tag, walk) + Repeat('\0', 500)
      && forall i | 0 <= i < |walk| ::
           Kept(tag, walk) == Kept(tag, walk[..i]) + Kept(tag, [walk[i]]) + Kept(tag, walk[i + 1..])
  {
    var walk := CopyWalk(tag, total, 10, Plain).value;
    forall i | 0 <= i < |walk|
      ensures Kept(tag, walk) == Kept(tag, walk[..i]) + Kept(tag, [walk[i]]) + Kept(tag, walk[i + 1..])
    {
      KeptAround(tag, walk, i);
    }
  }

  /** The kept bytes of a walk split around any one frame of it. */
  lemma {:induction false} KeptAround(tag: string, walk: seq<RawFrame>, i: nat)
    requires i < |walk|
    ensures Kept(tag, walk) == Kept(tag, walk[..i]) + Kept(tag, [walk[i]]) + Kept(tag, walk[i + 1..])
  {
    assert walk == walk[..i] + [walk[i]] + walk[i + 1..];
    KeptAppend(tag, walk[..i] + [walk[i]], walk[i + 1..]);
    KeptAppend(tag, walk[..i], [walk[i]]);
  }

  // ---------------------------------------------------------------------
  // Reading back what the writer wrote

  /** A NUL where a frame header would start ends the loop. */
  lemma {:induction false} FieldFramesStops(f: string, total: nat, pos: nat)
    requires pos < total && pos < |f| && f[pos] == '\0'
    ensures FieldFrames(f, total, pos) == Success([])
  {
    assert ReadAt(f, pos, 10)[0] == f[pos];
  }

  lemma {:induction false} SliceConcat(f: string, pos: nat, a: string, b: string)
    requires pos + |a| + |b| <= |f| && f[pos..pos + |a| + |b|] == a + b
    ensures f[pos..pos + |a|] == a && f[pos + |a|..pos + |a| + |b|] == b
  {
    assert f[pos..pos + |a|] == (a + b)[..|a|];
    assert f[pos + |a|..pos + |a| + |b|] == (a + b)[|a|..];
  }

  /** The ten-byte header of a text frame the writer builds: ID, size, no flags. */
  function WrittenFrameHeader(id: string, size: nat): (r: string)
    ensures |r| == |id| + 6
  {
    id + BigEndian32(size) + [Chr(0), Chr(0)]
  }

  /** Such a header has the ID first and reads back the size. */
  lemma {:induction false} WrittenFrameHeaderFields(id: string, size: nat)
    requires |id| == 4 && size < 0x1_0000_0000
    ensures WrittenFrameHeader(id, size)[..4] == id
    ensures CalculateFrameSize(WrittenFrameHeader(id, size)) == Success(size)
  {
    var h := WrittenFrameHeader(id, size);
    assert h[4..8] == BigEndian32(size);
    BigEndianRoundTrip(size);
  }

  /** What the loop's two reads at pos see of a text frame the writer built: its header, then its body. */
  predicate TextFrameAt(f: string, pos: nat, id: string, content: string) {
    ReadAt(f, pos, 10) == WrittenFrameHeader(id, |content| + 2) &&
    ReadAt(f, pos + 10, |content| + 2) == [Chr(0)] + content + [Chr(0)]
  }

  /** Where a text frame lies in f, the loop's two reads see its header and its body. */
  lemma {:induction false} WrittenFrameReads(f: string, pos: nat, id: string, content: string)
    requires |id| == 4
    requires pos + |TextFrame(id, content)| <= |f| && f[pos..pos + |TextFrame(id, content)|] == TextFrame(id, content)
    ensures TextFrameAt(f, pos, id, content)
  {
    var h := WrittenFrameHeader(id, |content| + 2);
    var body := [Chr(0)] + content + [Chr(0)];
    assert TextFrame(id, content) == h + body;
    SliceConcat(f, pos, h, body);
  }

  /** A text frame as the writer builds it, at pos, is read as its ID and the body the writer built. */
  lemma {:induction false} FieldFramesWrittenFrame(f: string, total: nat, pos: nat, id: string, content: string)
    requires |id| == 4 && id[0] != '\0' && |content| + 2 < 0x1_0000_0000 && pos < total
    requires TextFrameAt(f, pos, id, content)
    ensures FieldFrames(f, total, pos) ==
      Prefixed([(id, [Chr(0)] + content + [Chr(0)])], FieldFrames(f, total, pos + 12 + |content|))
  {
    var fd := WrittenFrameHeader(id, |content| + 2);
    WrittenFrameHeaderFields(id, |content| + 2);
    assert fd[0] == id[0];
    FieldFramesStep(f, total, pos, fd, |content| + 2, (id, [Chr(0)] + content + [Chr(0)]), pos + 12 + |content|);
  }
}
