/**
 * TrackFile.py: one music file and the three readings of its tags (file path,
 * ID3v1, ID3v2), fused by finalise_str()/finalise_int() into the final record.
 * Levenshtein.distance is a foreign library: the model takes it as a
 * function-typed parameter and assumes nothing about it.
 */
module TrackFile {
  import opened Wrappers
  import opened PyStr
  import opened TrackData
  import FilePathParser
  import ID3v1
  import ID3v2
  import ID3v2Parser

  /** An edit distance between two byte strings. */
  type Distance = (string, string) -> nat

  const DistanceThreshold: nat := 3

  /** v1 may have been cut to the 30 bytes of an ID3v1 field. */
  const V1Width: nat := 30

  datatype Error =
    | EmptyPath            // the constructor's explicit check
    | UndefinedName        // the constructor's call of an undefined clean_string
    | NotLoaded            // finalise_data before load_all_data
    | NoReadableArguments  // finalise_str with no usable candidate
    | PathError(pathError: FilePathParser.Error)  // read_file_path_data raised
    | V1Error(v1Error: ID3v1.Error)                // read_id3v1_tag_data raised
    | V2Error(v2Error: ID3v2.Error)                // read_id3v2_tag_data raised

  /** Python truthiness of an optional string: present and non-empty. */
  predicate Given(s: Option<string>) {
    s.Some? && s.value != []
  }

  /** Python truthiness of an optional int: present and non-zero. */
  predicate GivenInt(n: Option<int>) {
    n.Some? && n.value != 0
  }

  // ---------------------------------------------------------------------
  // finalise_str

  /** fp lies within the threshold of v1 (fp cut to 30 bytes) or of v2. */
  predicate FpConfirmed(fp: Option<string>, v1: Option<string>, v2: Option<string>, dist: Distance) {
    Given(fp) &&
    ((Given(v1) && dist(Take(fp.value, V1Width), v1.value) < DistanceThreshold) ||
     (Given(v2) && dist(fp.value, v2.value) < DistanceThreshold))
  }

  /** The two tags lie within the threshold of each other (v2 cut to 30 bytes). */
  predicate TagsAgree(v1: Option<string>, v2: Option<string>, dist: Distance) {
    Given(v1) && Given(v2) && dist(v1.value, Take(v2.value, V1Width)) < DistanceThreshold
  }

  /** finalise_str(): a confirmed fp, else two agreeing tags' v2, else fp, v2, v1 in that order. */
  function FinaliseStr(fp: Option<string>, v1: Option<string>, v2: Option<string>, dist: Distance): (r: Result<string, Error>)
    ensures r.Failure? <==> !Given(fp) && !Given(v1) && !Given(v2)
    ensures r.Failure? ==> r.error == NoReadableArguments
    ensures r.Success? ==> r.value != []
  {
    if FpConfirmed(fp, v1, v2, dist) then Success(fp.value)
    else if TagsAgree(v1, v2, dist) then Success(v2.value)
    else if Given(fp) then Success(fp.value)
    else if Given(v2) then Success(v2.value)
    else if Given(v1) then Success(v1.value)
    else Failure(NoReadableArguments)
  }

  /** The result is always one of the given candidates, and v1 only when fp and v2 are both missing. */
  lemma FinaliseStrChoosesCandidate(fp: Option<string>, v1: Option<string>, v2: Option<string>, dist: Distance)
    requires FinaliseStr(fp, v1, v2, dist).Success?
    ensures var r := FinaliseStr(fp, v1, v2, dist).value;
      (Given(fp) && r == fp.value) || (Given(v2) && r == v2.value) || (Given(v1) && r == v1.value)
    ensures Given(fp) || Given(v2) ==>
      var r := FinaliseStr(fp, v1, v2, dist).value;
      (Given(fp) && r == fp.value) || (Given(v2) && r == v2.value)
    ensures !Given(fp) && !Given(v2) ==> FinaliseStr(fp, v1, v2, dist) == Success(v1.value)
  {
  }

  /** fp is favoured: a confirmed fp wins, and a given fp loses only to two tags that agree with each other. */
  lemma FinaliseStrFavoursFp(fp: Option<string>, v1: Option<string>, v2: Option<string>, dist: Distance)
    ensures FpConfirmed(fp, v1, v2, dist) ==> FinaliseStr(fp, v1, v2, dist) == Success(fp.value)
    ensures Given(fp) && FinaliseStr(fp, v1, v2, dist) != Success(fp.value) ==>
      TagsAgree(v1, v2, dist) && FinaliseStr(fp, v1, v2, dist) == Success(v2.value)
    ensures !FpConfirmed(fp, v1, v2, dist) && TagsAgree(v1, v2, dist) ==> FinaliseStr(fp, v1, v2, dist) == Success(v2.value)
  {
  }

  /** With at most one candidate given, the distance plays no part in the outcome. */
  lemma FinaliseStrAloneIgnoresDistance(fp: Option<string>, v1: Option<string>, v2: Option<string>, d1: Distance, d2: Distance)
    requires (if Given(fp) then 1 else 0) + (if Given(v1) then 1 else 0) + (if Given(v2) then 1 else 0) <= 1
    ensures FinaliseStr(fp, v1, v2, d1) == FinaliseStr(fp, v1, v2, d2)
  {
  }

  // ---------------------------------------------------------------------
  // finalise_int

  /** finalise_int(): fp when a tag confirms it, else v2 when the tags agree, else the first of fp, v2, v1 that is non-zero, else 0. */
  function FinaliseInt(fp: Option<int>, v1: Option<int>, v2: Option<int>): (r: int)
    ensures r == 0 <==> !GivenInt(fp) && !GivenInt(v1) && !GivenInt(v2)
  {
    if (GivenInt(fp) && GivenInt(v1) && fp.value == v1.value) || (GivenInt(fp) && GivenInt(v2) && fp.value == v2.value) then fp.value
    else if GivenInt(v1) && GivenInt(v2) && v1.value == v2.value then v2.value
    else if GivenInt(fp) then fp.value
    else if GivenInt(v2) then v2.value
    else if GivenInt(v1) then v1.value
    else 0
  }

  /** Any two sources holding the same non-zero value outvote the third. */
  lemma FinaliseIntMajority(fp: Option<int>, v1: Option<int>, v2: Option<int>, n: int)
    requires n != 0
    requires (fp == Some(n) && v1 == Some(n)) || (fp == Some(n) && v2 == Some(n)) || (v1 == Some(n) && v2 == Some(n))
    ensures FinaliseInt(fp, v1, v2) == n
  {
  }

  /** Without agreement the priority is fp, v2, v1: a later source is taken only when every earlier one is missing or 0. */
  lemma FinaliseIntPriority(fp: Option<int>, v1: Option<int>, v2: Option<int>)
    ensures var r := FinaliseInt(fp, v1, v2);
      (GivenInt(fp) ==> r == fp.value || (GivenInt(v1) && GivenInt(v2) && r == v1.value && v1.value == v2.value))
      && (!GivenInt(fp) && GivenInt(v2) ==> r == v2.value)
      && (!GivenInt(fp) && !GivenInt(v2) && GivenInt(v1) ==> r == v1.value)
  {
  }

  /** 0 and None are the same to finalise_int(). */
  lemma FinaliseIntZeroIsNone(fp: Option<int>, v1: Option<int>, v2: Option<int>)
    ensures FinaliseInt(fp, v1, v2) == FinaliseInt(Zeroed(fp), Zeroed(v1), Zeroed(v2))
    ensures FinaliseInt(Some(0), v1, v2) == FinaliseInt(None, v1, v2)
    ensures FinaliseInt(fp, Some(0), v2) == FinaliseInt(fp, None, v2)
    ensures FinaliseInt(fp, v1, Some(0)) == FinaliseInt(fp, v1, None)
  {
  }

  function Zeroed(n: Option<int>): Option<int> {
    if n.None? then Some(0) else n
  }

  // ---------------------------------------------------------------------
  // finalise_data

  /** A final record: every string field non-empty, every int field present. */
  predicate Complete(d: TrackRecord) {
    Given(d.title) && Given(d.album) && Given(d.artist) &&
    d.track.Some? && d.year.Some? && d.genre.Some?
  }

  /** The record finalise_data() builds from the three readings; genre is voted without fp. */
  function Fused(fp: TrackRecord, v1: TrackRecord, v2: TrackRecord, dist: Distance): (r: Result<TrackRecord, Error>)
    ensures r.Failure? <==>
      (!Given(fp.title) && !Given(v1.title) && !Given(v2.title)) ||
      (!Given(fp.album) && !Given(v1.album) && !Given(v2.album)) ||
      (!Given(fp.artist) && !Given(v1.artist) && !Given(v2.artist))
    ensures r.Success? ==> Complete(r.value)
    ensures r.Success? ==> r.value.genre == Some(FinaliseInt(None, v1.genre, v2.genre))
  {
    var title := FinaliseStr(fp.title, v1.title, v2.title, dist);
    var album := FinaliseStr(fp.album, v1.album, v2.album, dist);
    var artist := FinaliseStr(fp.artist, v1.artist, v2.artist, dist);
    if title.Failure? then Failure(title.error)
    else if album.Failure? then Failure(album.error)
    else if artist.Failure? then Failure(artist.error)
    else
      Success(TrackRecord(
        Some(title.value), Some(album.value), Some(artist.value),
        Some(FinaliseInt(fp.track, v1.track, v2.track)),
        Some(FinaliseInt(fp.year, v1.year, v2.year)),
        Some(FinaliseInt(None, v1.genre, v2.genre))))
  }

  /** Three identical readings fuse to that reading, for any distance that puts a string at 0 from itself. */
  lemma FusedOfAgreement(d: TrackRecord, dist: Distance)
    requires Given(d.title) && Given(d.album) && Given(d.artist)
    requires forall s :: dist(s, s) == 0
    ensures Fused(d, d, d, dist) == Success(d.(
      track := Some(FinaliseInt(d.track, d.track, d.track)),
      year := Some(FinaliseInt(d.year, d.year, d.year)),
      genre := Some(FinaliseInt(None, d.genre, d.genre))))
    ensures GivenInt(d.track) ==> FinaliseInt(d.track, d.track, d.track) == d.track.value
  {
    assert FpConfirmed(d.title, d.title, d.title, dist) by {
      assert dist(d.title.value, d.title.value) == 0;
    }
    assert FpConfirmed(d.album, d.album, d.album, dist) by {
      assert dist(d.album.value, d.album.value) == 0;
    }
    assert FpConfirmed(d.artist, d.artist, d.artist, dist) by {
      assert dist(d.artist.value, d.artist.value) == 0;
    }
  }

  /** The last component of a '/'-separated path. */
  function LastComponent(filePath: string): string {
    var parts := SplitOn(filePath, '/');
    parts[|parts| - 1]
  }

  /** The file name the constructor derives when none is given: the last path component, aggressively cleaned. */
  function DefaultName(filePath: string): string {
    Cleaned(LastComponent(filePath), true)
  }

  /** The derived name is normalised, has no '/' and none of the separators clean_string removes. */
  lemma DefaultNameNormalised(filePath: string)
    ensures var r := DefaultName(filePath);
      Normalised(r) && '-' !in r && '_' !in r
    ensures '/' !in LastComponent(filePath)
  {
    CleanedNormalised(LastComponent(filePath), true);
    CleanedHasNoSeparators(LastComponent(filePath), true);
  }

  /**
   * The constructor as written: the empty path is refused, and a missing
   * cleaned name calls clean_string, which TrackFile.py never defines, so
   * Python raises NameError.
   */
  function InitAsWritten(filePath: string, cleanedFilename: string): (r: Result<string, Error>)
    ensures r.Success? <==> filePath != [] && cleanedFilename != []
    ensures r.Success? ==> r.value == cleanedFilename
  {
    if filePath == [] then Failure(EmptyPath)
    else if cleanedFilename == [] then Failure(UndefinedName)
    else Success(cleanedFilename)
  }

  /** As written, a TrackFile can only be made with an explicit cleaned name: the default path always raises. */
  lemma InitAsWrittenNeedsName(filePath: string)
    requires filePath != []
    ensures InitAsWritten(filePath, []) == Failure(UndefinedName)
    ensures InitAsWritten("Artist/Album/01 Song.mp3", []).Failure?
  {
  }

  /** clean_string(file_path.split('/')[-1], True), with TrackData's clean_string. */
  method DeriveName(filePath: string) returns (name: string)
    ensures name == DefaultName(filePath)
  {
    var last := LastComponent(filePath);
    name := CleanString(last, true);
  }

  class TrackFile {
    var filePath: string
    var cleanedFilename: string
    var finalised: bool
    var fp: Option<TrackRecord>
    var v1: Option<TrackRecord>
    var v2: Option<TrackRecord>
    var final: Option<TrackRecord>

    /** The path is never empty, and a finalised file holds a complete final record. */
    predicate Valid()
      reads this
    {
      filePath != [] && (finalised ==> final.Some? && Complete(final.value))
    }

    constructor (filePath: string, cleanedFilename: string)
      requires filePath != []
      ensures Valid() && !finalised
      ensures this.filePath == filePath && this.cleanedFilename == cleanedFilename
      ensures fp.None? && v1.None? && v2.None? && final.None?
    {
      this.filePath := filePath;
      this.cleanedFilename := cleanedFilename;
      finalised := false;
      fp, v1, v2, final := None, None, None, None;
    }

    /**
     * __init__ with the evidently intended TrackData.clean_string: the empty
     * path is refused; a missing cleaned name is derived from the path.
     */
    static method Create(filePath: string, cleanedFilename: string) returns (r: Result<TrackFile, Error>)
      ensures r.Failure? <==> filePath == []
      ensures r.Failure? ==> r.error == EmptyPath
      ensures r.Success? ==> fresh(r.value) && r.value.Valid() && !r.value.finalised
      ensures r.Success? ==> r.value.filePath == filePath
      ensures r.Success? ==> r.value.cleanedFilename == if cleanedFilename == [] then DefaultName(filePath) else cleanedFilename
      ensures r.Success? ==> r.value.fp.None? && r.value.v1.None? && r.value.v2.None? && r.value.final.None?
    {
      if filePath == [] {
        return Failure(EmptyPath);
      }
      var name := cleanedFilename;
      if name == [] {
        name := DeriveName(filePath);
      }
      var t := new TrackFile(filePath, name);
      return Success(t);
    }

    /**
     * load_all_data(): the file-path reading of the path and cleaned name,
     * then the ID3v1 and the ID3v2 reader on the file's contents, handed in
     * as file. A reader that raises ends the call and leaves the readings
     * assigned before it in place.
     */
    method LoadAllData(file: string) returns (r: Result<(), Error>)
      modifies this
      ensures var p := FilePathParser.ReadFilePathData(filePath, cleanedFilename);
        var t1 := ID3v1.ReadRecord(file);
        var t2 := ID3v2Parser.ParsedRecord(file, ID3v2Parser.AsWritten);
        && (p.Failure? ==> r == Failure(PathError(p.error)) && fp == old(fp) && v1 == old(v1) && v2 == old(v2))
        && (p.Success? ==> fp == Some(p.value))
        && (p.Success? && t1.Failure? ==> r == Failure(V1Error(t1.error)) && v1 == old(v1) && v2 == old(v2))
        && (p.Success? && t1.Success? ==> v1 == Some(t1.value))
        && (p.Success? && t1.Success? && t2.Failure? ==> r == Failure(V2Error(t2.error)) && v2 == old(v2))
        && (p.Success? && t1.Success? && t2.Success? ==> r == Success(()) && v2 == Some(t2.value))
      ensures filePath == old(filePath) && cleanedFilename == old(cleanedFilename)
      ensures finalised == old(finalised) && final == old(final)
    {
      var p := FilePathParser.ReadFilePathData(filePath, cleanedFilename);
      if p.Failure? {
        return Failure(PathError(p.error));
      }
      fp := Some(p.value);
      var d1 := ID3v1.ReadTagData(file);
      if d1.Failure? {
        return Failure(V1Error(d1.error));
      }
      v1 := Some(d1.value.Record());
      var d2 := ID3v2Parser.ReadTagData(file);
      if d2.Failure? {
        return Failure(V2Error(d2.error));
      }
      v2 := Some(d2.value.Record());
      r := Success(());
    }

    /**
     * finalise_data(): on success the final record is the fusion of the three
     * readings and the file is finalised; on failure nothing changes.
     */
    method FinaliseData(dist: Distance) returns (r: Result<TrackRecord, Error>)
      requires Valid()
      modifies this
      ensures Valid()
      ensures old(fp.None? || v1.None? || v2.None?) ==> r == Failure(NotLoaded)
      ensures old(fp.Some? && v1.Some? && v2.Some?) ==> r == Fused(old(fp.value), old(v1.value), old(v2.value), dist)
      ensures r.Success? ==> finalised && final == Some(r.value)
      ensures r.Failure? ==> finalised == old(finalised) && final == old(final)
      ensures filePath == old(filePath) && cleanedFilename == old(cleanedFilename)
      ensures fp == old(fp) && v1 == old(v1) && v2 == old(v2)
    {
      if fp.None? || v1.None? || v2.None? {
        return Failure(NotLoaded);
      }
      r := Fused(fp.value, v1.value, v2.value, dist);
      if r.Success? {
        final := Some(r.value);
        finalised := true;
      }
    }
  }
}
