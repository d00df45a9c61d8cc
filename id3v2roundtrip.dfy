/**
 * Reading back what the writer wrote: read_id3v2_tag_data (ID3v2Parser.py) on a
 * tag from create_id3v2_tag_string. The writer ends every text frame with a
 * NUL byte and the reader keeps it in the text, so mint() of a written track
 * number fails; a reader that cuts the text at the NUL gets it back.
 */
module ID3v2RoundTrip {
  import opened Wrappers
  import opened PyStr
  import TrackData
  import opened ID3v2
  import opened ID3v2Parser

  /** str() of an int holds only digits and a minus sign: no NUL and no slash. */
  lemma {:induction false} IntToStringPlain(n: int)
    ensures '\0' !in IntToString(n) && '/' !in IntToString(n)
  {
  }

  /** The text a reader takes from a body the writer built: the NUL kept as written, dropped when cut there. */
  lemma {:induction false} WrittenBodyText(content: string, cut: TextCut)
    requires '\0' !in content
    ensures BodyText([Chr(0)] + content + [Chr(0)], cut) == if cut == AsWritten then content + "\0" else content
  {
    var body := [Chr(0)] + content + [Chr(0)];
    assert Drop(body, 1) == content + "\0";
    if cut == AtNul {
      IndexOfAppend(content, "\0", '\0');
      assert (content + "\0")[..|content|] == content;
    }
  }

  /**
   * As written, the loop's store of a TRCK body the writer built sets the track
   * to None for any text without a slash, str() of every int among them.
   */
  lemma {:induction false} TrackBodyLost(d: TrackData.TrackRecord, s: string)
    requires '/' !in s
    ensures Store(d, "TRCK", [Chr(0)] + s + [Chr(0)], AsWritten) == d.(track := None)
  {
    StoreFields(d, "TRCK", [Chr(0)] + s + [Chr(0)], AsWritten);
    TrackTextKeepsNul(s);
    TrackData.MintRejectsNul(s + "\0");
  }

  /** The text before the first slash of such a body, as written, is the text and its NUL. */
  lemma {:induction false} TrackTextKeepsNul(s: string)
    requires '/' !in s
    ensures SplitOn(BodyText([Chr(0)] + s + [Chr(0)], AsWritten), '/')[0] == s + "\0"
  {
    assert Drop([Chr(0)] + s + [Chr(0)], 1) == s + "\0";
    assert '/' !in s + "\0";
  }

  /** Cut at the NUL, the store of the same body sets the track to n. */
  lemma {:induction false} TrackBodyReadBack(d: TrackData.TrackRecord, n: int)
    ensures Store(d, "TRCK", [Chr(0)] + IntToString(n) + [Chr(0)], AtNul) == d.(track := Some(n))
  {
    var s := IntToString(n);
    var body := [Chr(0)] + s + [Chr(0)];
    IntToStringPlain(n);
    StoreFields(d, "TRCK", body, AtNul);
    WrittenBodyText(s, AtNul);
    assert SplitOn(BodyText(body, AtNul), '/')[0] == s;
    TrackData.MintOfIntToString(n);
  }

  /** Frames other than TRCK leave the track as it is. */
  lemma {:induction false} StoreAllKeepsTrack(d: TrackData.TrackRecord, frames: seq<(string, string)>, cut: TextCut)
    requires forall i | 0 <= i < |frames| :: frames[i].0 != "TRCK"
    ensures StoreAll(d, frames, cut).track == d.track
    decreases |frames|
  {
    if frames != [] {
      var last := frames[|frames| - 1];
      StoreAllKeepsTrack(d, frames[..|frames| - 1], cut);
      StoreFields(StoreAll(d, frames[..|frames| - 1], cut), last.0, last.1, cut);
    }
  }

  /** The track a read sets when its first frame is a TRCK frame for n that the writer built, and no later frame is a TRCK. */
  lemma {:induction false} TrackFrameRead(f: string, total: nat, pos: nat, d: TrackData.TrackRecord, cut: TextCut, n: int, s: string)
    requires s == IntToString(n) && |s| + 2 < 0x1_0000_0000 && pos < total
    requires TextFrameAt(f, pos, "TRCK", s)
    requires var rest := FieldFrames(f, total, pos + 12 + |s|);
      rest.Success? && forall i | 0 <= i < |rest.value| :: rest.value[i].0 != "TRCK"
    ensures ReadFields(f, total, pos, d, cut).Success?
    ensures ReadFields(f, total, pos, d, cut).value.track == Store(d, "TRCK", [Chr(0)] + s + [Chr(0)], cut).track
  {
    var body := [Chr(0)] + s + [Chr(0)];
    var rest := FieldFrames(f, total, pos + 12 + |s|).value;
    FieldFramesWrittenFrame(f, total, pos, "TRCK", s);
    StoreAllAppend(d, [("TRCK", body)], rest, cut);
    assert StoreAll(d, [("TRCK", body)], cut) == Store(d, "TRCK", body, cut) by {
      assert [("TRCK", body)][..0] == [];
    }
    StoreAllKeepsTrack(Store(d, "TRCK", body, cut), rest, cut);
  }

  /**
   * As written: a TRCK frame the writer builds for a track n, read by the loop,
   * leaves the track None, because the text keeps the NUL and int() refuses it.
   */
  lemma {:induction false} WrittenTrackLost(f: string, total: nat, pos: nat, d: TrackData.TrackRecord, n: int, s: string)
    requires s == IntToString(n) && |s| + 2 < 0x1_0000_0000 && pos < total
    requires TextFrameAt(f, pos, "TRCK", s)
    requires var rest := FieldFrames(f, total, pos + 12 + |s|);
      rest.Success? && forall i | 0 <= i < |rest.value| :: rest.value[i].0 != "TRCK"
    ensures ReadFields(f, total, pos, d, AsWritten).Success?
    ensures ReadFields(f, total, pos, d, AsWritten).value.track == None
  {
    TrackFrameRead(f, total, pos, d, AsWritten, n, s);
    IntToStringPlain(n);
    TrackBodyLost(d, s);
  }

  /** Corrected: cutting the text at its NUL, the loop reads the track back. */
  lemma {:induction false} WrittenTrackReadBack(f: string, total: nat, pos: nat, d: TrackData.TrackRecord, n: int, s: string)
    requires s == IntToString(n) && |s| + 2 < 0x1_0000_0000 && pos < total
    requires TextFrameAt(f, pos, "TRCK", s)
    requires var rest := FieldFrames(f, total, pos + 12 + |s|);
      rest.Success? && forall i | 0 <= i < |rest.value| :: rest.value[i].0 != "TRCK"
    ensures ReadFields(f, total, pos, d, AtNul).Success?
    ensures ReadFields(f, total, pos, d, AtNul).value.track == Some(n)
  {
    TrackFrameRead(f, total, pos, d, AtNul, n, s);
    TrackBodyReadBack(d, n);
  }

  /** The record a title, album or artist frame sets: the field of id, to the text read. */
  function TextStored(d: TrackData.TrackRecord, id: string, read: string): TrackData.TrackRecord {
    if id == "TIT2" then d.(title := Some(read))
    else if id == "TALB" then d.(album := Some(read))
    else d.(artist := Some(read))
  }

  /** The store of a title, album or artist body the writer built: the text and its NUL, or the text. */
  lemma {:induction false} TextBodyStored(d: TrackData.TrackRecord, id: string, text: string, cut: TextCut)
    requires id == "TIT2" || id == "TALB" || id == "TPE1"
    requires '\0' !in text
    ensures Store(d, id, [Chr(0)] + text + [Chr(0)], cut) ==
      TextStored(d, id, if cut == AsWritten then text + "\0" else text)
  {
    StoreFields(d, id, [Chr(0)] + text + [Chr(0)], cut);
    WrittenBodyText(text, cut);
  }
}
