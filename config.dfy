/**
 * Config.py: the validators that turn configuration strings into values,
 * the enum parsers, and the substitution of track data into a naming
 * pattern. Reading the configuration file and the command line is not part
 * of this model.
 */
module Config {
  import opened Wrappers
  import opened PyStr
  import opened TrackData

  /** Each raise in the validators. */
  datatype Error =
    | NotInValidValues   // a parsed value outside valid_values
    | Unparsable         // no member or number matches the string
    | Negative           // _uint_from_string on a negative int
    | InvalidFileChar    // a path holding one of INVALID_FILE_CHARS
    | MissingField       // _format_track_data on a record with a None field

  /** INVALID_FILE_CHARS: the ten bytes a path or naming pattern may not hold. */
  const InvalidFileChars: seq<char> := ['\\', '/', ':', '*', '?', '"', '<', '>', '|', '\'']

  // ---------------------------------------------------------------------
  // Enums

  datatype ContinueBehaviour = Ignore | Stop | Parse

  /** The member names, as __members__ holds them. */
  function ContinueBehaviourName(b: ContinueBehaviour): (s: string)
    ensures s in ["ignore", "stop", "parse"]
  {
    match b
    case Ignore => "ignore"
    case Stop => "stop"
    case Parse => "parse"
  }

  /**
   * ContinueBehaviour.from_string(string, valid_values): a non-empty
   * valid_values list is checked first; then the member of that name.
   * None and [] are both falsy, so both are modelled by [].
   */
  function ContinueBehaviourFromString(s: string, validValues: seq<string>): (r: Result<ContinueBehaviour, Error>)
    ensures validValues != [] && s !in validValues ==> r == Failure(NotInValidValues)
    ensures r.Success? ==> ContinueBehaviourName(r.value) == s && (validValues == [] || s in validValues)
    ensures (validValues == [] || s in validValues) && s !in ["ignore", "stop", "parse"] ==> r == Failure(Unparsable)
  {
    if validValues != [] && s !in validValues then Failure(NotInValidValues)
    else if s == "ignore" then Success(Ignore)
    else if s == "stop" then Success(Stop)
    else if s == "parse" then Success(Parse)
    else Failure(Unparsable)
  }

  /** Every member parses back from its name, when its name is allowed. */
  lemma ContinueBehaviourRoundTrip(b: ContinueBehaviour, validValues: seq<string>)
    requires validValues == [] || ContinueBehaviourName(b) in validValues
    ensures ContinueBehaviourFromString(ContinueBehaviourName(b), validValues) == Success(b)
  {
  }

  /** A tri-state answer whose three spellings are given per setting. */
  datatype GenericState = No | Maybe | Yes

  /** An override counts only when it is given and non-empty (Python truthiness). */
  predicate Truthy(o: Option<string>) {
    o.Some? && o.value != []
  }

  /**
   * GenericState.from_string(string, no_val, maybe_val, yes_val): the first
   * truthy override equal to the string decides; otherwise it raises.
   */
  function GenericStateFromString(s: string, noVal: Option<string>, maybeVal: Option<string>, yesVal: Option<string>)
    : (r: Result<GenericState, Error>)
    ensures r == Success(No) ==> Truthy(noVal) && noVal.value == s
    ensures r == Success(Maybe) ==> Truthy(maybeVal) && maybeVal.value == s
    ensures r == Success(Yes) ==> Truthy(yesVal) && yesVal.value == s
    ensures r.Failure? <==> !(Truthy(noVal) && noVal.value == s) && !(Truthy(maybeVal) && maybeVal.value == s) && !(Truthy(yesVal) && yesVal.value == s)
    ensures r.Failure? ==> r.error == Unparsable
  {
    if Truthy(noVal) && s == noVal.value then Success(No)
    else if Truthy(maybeVal) && s == maybeVal.value then Success(Maybe)
    else if Truthy(yesVal) && s == yesVal.value then Success(Yes)
    else Failure(Unparsable)
  }

  /** With three distinct truthy spellings each parses to its own state. */
  lemma GenericStateRoundTrip(noVal: string, maybeVal: string, yesVal: string)
    requires noVal != [] && maybeVal != [] && yesVal != []
    requires noVal != maybeVal && noVal != yesVal && maybeVal != yesVal
    ensures GenericStateFromString(noVal, Some(noVal), Some(maybeVal), Some(yesVal)) == Success(No)
    ensures GenericStateFromString(maybeVal, Some(noVal), Some(maybeVal), Some(yesVal)) == Success(Maybe)
    ensures GenericStateFromString(yesVal, Some(noVal), Some(maybeVal), Some(yesVal)) == Success(Yes)
  {
  }

  datatype AlbumVariantStrategy = KeepBoth | KeepLargest | Merge

  function AlbumVariantStrategyName(v: AlbumVariantStrategy): string {
    match v
    case KeepBoth => "keep-both"
    case KeepLargest => "keep-largest"
    case Merge => "merge"
  }

  /** AlbumVariantStrategy.from_string: the three hyphenated spellings. */
  function AlbumVariantStrategyFromString(s: string): (r: Result<AlbumVariantStrategy, Error>)
    ensures r.Success? <==> s in ["keep-both", "keep-largest", "merge"]
    ensures r.Success? ==> AlbumVariantStrategyName(r.value) == s
    ensures r.Failure? ==> r.error == Unparsable
  {
    if s == "keep-both" then Success(KeepBoth)
    else if s == "keep-largest" then Success(KeepLargest)
    else if s == "merge" then Success(Merge)
    else Failure(Unparsable)
  }

  lemma AlbumVariantStrategyRoundTrip(v: AlbumVariantStrategy)
    ensures AlbumVariantStrategyFromString(AlbumVariantStrategyName(v)) == Success(v)
  {
  }

  datatype AlbumYearStrategy = Majority | Latest | IgnoreYears

  function AlbumYearStrategyName(y: AlbumYearStrategy): string {
    match y
    case Majority => "majority"
    case Latest => "latest"
    case IgnoreYears => "ignore"
  }

  /** AlbumYearStrategy.from_string. */
  function AlbumYearStrategyFromString(s: string): (r: Result<AlbumYearStrategy, Error>)
    ensures r.Success? <==> s in ["majority", "latest", "ignore"]
    ensures r.Success? ==> AlbumYearStrategyName(r.value) == s
    ensures r.Failure? ==> r.error == Unparsable
  {
    if s == "majority" then Success(Majority)
    else if s == "latest" then Success(Latest)
    else if s == "ignore" then Success(IgnoreYears)
    else Failure(Unparsable)
  }

  lemma AlbumYearStrategyRoundTrip(y: AlbumYearStrategy)
    ensures AlbumYearStrategyFromString(AlbumYearStrategyName(y)) == Success(y)
  {
  }

  // ---------------------------------------------------------------------
  // Number and path validators

  /** _int_from_string(string, valid_values): int(), then the optional membership check. */
  function IntFromString(s: string, validValues: seq<int>): (r: Result<int, Error>)
    ensures ParseInt(s).None? ==> r == Failure(Unparsable)
    ensures ParseInt(s).Some? && validValues != [] && ParseInt(s).value !in validValues ==> r == Failure(NotInValidValues)
    ensures r.Success? ==> Some(r.value) == ParseInt(s) && (validValues == [] || r.value in validValues)
  {
    match ParseInt(s)
    case None => Failure(Unparsable)
    case Some(i) => if validValues != [] && i !in validValues then Failure(NotInValidValues) else Success(i)
  }

  /** Every int reads back from its decimal text, when allowed. */
  lemma IntFromStringRoundTrip(n: int, validValues: seq<int>)
    requires validValues == [] || n in validValues
    ensures IntFromString(IntToString(n), validValues) == Success(n)
  {
    ParseIntToString(n);
  }

  /**
   * _uint_from_string(string, str_mappings, valid_values): a mapped string
   * wins outright, whatever its value; anything else must parse as an
   * allowed int that is not negative.
   */
  function UintFromString(s: string, strMappings: map<string, int>, validValues: seq<int>): (r: Result<int, Error>)
    ensures s in strMappings ==> r == Success(strMappings[s])
    ensures s !in strMappings && r.Success? ==> r.value >= 0 && IntFromString(s, validValues) == r
    ensures s !in strMappings && IntFromString(s, validValues).Success? && IntFromString(s, validValues).value < 0 ==>
      r == Failure(Negative)
    ensures s !in strMappings && IntFromString(s, validValues).Failure? ==> r == IntFromString(s, validValues)
  {
    if s in strMappings then Success(strMappings[s])
    else
      match IntFromString(s, validValues)
      case Failure(e) => Failure(e)
      case Success(i) => if i < 0 then Failure(Negative) else Success(i)
  }

  /** The id3v2-padding setting: 'smart' is -1, which the int route would refuse. */
  lemma PaddingSmartIsNegative()
    ensures UintFromString("smart", map["smart" := -1], []) == Success(-1)
    ensures UintFromString("-1", map["smart" := -1], []) == Failure(Negative)
  {
    ParseIntToString(-1);
    assert IntToString(-1) == "-1";
  }

  /** _file_path_from_string: the string itself, unless it holds one of the invalid bytes. */
  function FilePathFromString(s: string): (r: Result<string, Error>)
    ensures r.Success? <==> forall c | c in InvalidFileChars :: c !in s
    ensures r.Success? ==> r.value == s
    ensures r.Failure? ==> r.error == InvalidFileChar
  {
    if exists c | c in InvalidFileChars :: c in s then Failure(InvalidFileChar) else Success(s)
  }

  // ---------------------------------------------------------------------
  // Naming patterns

  /** '%04d' % year, last four bytes. */
  function LongYear(year: int): string {
    Last(ZeroPad(year, 4), 4)
  }

  /** '%02d' % year, last two bytes. */
  function ShortYear(year: int): string {
    Last(ZeroPad(year, 2), 2)
  }

  /**
   * _format_track_data(format_string, track_data): the ten placeholders
   * replaced in order @A @a @L @l @N @n @Y @y @T @t. A record with a None
   * among artist, album, title, year and track raises (the replacement
   * values cannot be built), whatever the pattern.
   */
  function FormatTrackData(format: string, d: TrackRecord): (r: Result<string, Error>)
    ensures r.Failure? <==> d.artist.None? || d.album.None? || d.title.None? || d.year.None? || d.track.None?
    ensures r.Success? && '@' !in format ==> r.value == format
  {
    if d.artist.None? || d.album.None? || d.title.None? || d.year.None? || d.track.None? then Failure(MissingField)
    else
      if '@' !in format then
        NoPlaceholders(format, d);
        Success(Substituted(format, d))
      else Success(Substituted(format, d))
  }

  /** The ten replacements, in the order they are applied: each placeholder and its value. */
  function Steps(d: TrackRecord): (steps: seq<(string, string)>)
    requires d.artist.Some? && d.album.Some? && d.title.Some? && d.year.Some? && d.track.Some?
    ensures |steps| == |Patterns| && forall i | 0 <= i < |steps| :: steps[i].0 == Patterns[i]
  {
    [("@A", d.artist.value), ("@a", Lower(d.artist.value)),
     ("@L", d.album.value), ("@l", Lower(d.album.value)),
     ("@N", d.title.value), ("@n", Lower(d.title.value)),
     ("@Y", LongYear(d.year.value)), ("@y", ShortYear(d.year.value)),
     ("@T", ZeroPad(d.track.value, 2)), ("@t", IntToString(d.track.value))]
  }

  /** A run of str.replace calls, the first applied first. */
  function Chain(s: string, steps: seq<(string, string)>): string
    requires forall i | 0 <= i < |steps| :: steps[i].0 != []
    decreases |steps|
  {
    if steps == [] then s else Chain(Replace(s, steps[0].0, steps[0].1), steps[1..])
  }

  /** The replacement chain itself, for a complete record. */
  function Substituted(format: string, d: TrackRecord): string
    requires d.artist.Some? && d.album.Some? && d.title.Some? && d.year.Some? && d.track.Some?
  {
    Chain(format, Steps(d))
  }

  /** Every step replaces a two-byte pattern that starts with '@'. */
  predicate Placeholders(steps: seq<(string, string)>) {
    forall i | 0 <= i < |steps| :: |steps[i].0| == 2 && steps[i].0[0] == '@'
  }

  /** Text without '@' goes through a chain of placeholder replacements unchanged. */
  lemma {:induction false} ChainAbsent(s: string, steps: seq<(string, string)>)
    requires Placeholders(steps) && '@' !in s
    ensures Chain(s, steps) == s
  {
    if steps != [] {
      ReplaceAbsent(s, steps[0].0, steps[0].1);
      ChainAbsent(s, steps[1..]);
    }
  }

  /**
   * The k-th placeholder on its own becomes its value, provided no earlier
   * step has the same pattern and the value holds no '@' for a later step
   * to replace.
   */
  lemma {:induction false} ChainLone(steps: seq<(string, string)>, k: nat)
    requires Placeholders(steps) && k < |steps|
    requires forall i | 0 <= i < k :: steps[i].0 != steps[k].0
    requires '@' !in steps[k].1
    ensures Chain(steps[k].0, steps) == steps[k].1
  {
    if k == 0 {
      PlaceholderReplaced(steps[0].0, steps[0].1);
      ChainAbsent(steps[0].1, steps[1..]);
    } else {
      PlaceholderUntouched(steps[k].0, steps[0].0, steps[0].1);
      assert steps[1..][k - 1] == steps[k];
      ChainLone(steps[1..], k - 1);
    }
  }

  /** A pattern without '@' passes through every replacement. */
  lemma NoPlaceholders(format: string, d: TrackRecord)
    requires d.artist.Some? && d.album.Some? && d.title.Some? && d.year.Some? && d.track.Some?
    requires '@' !in format
    ensures Substituted(format, d) == format
  {
    StepsArePlaceholders(d);
    ChainAbsent(format, Steps(d));
  }

  /**
   * Each of the ten placeholders, as the whole pattern, becomes its value
   * when the value holds no '@' (for "@A" the artist, for "@a" the artist
   * lower-cased, and so on down to "@t").
   */
  lemma PlaceholderAlone(d: TrackRecord, k: nat)
    requires d.artist.Some? && d.album.Some? && d.title.Some? && d.year.Some? && d.track.Some?
    requires k < 10 && '@' !in Steps(d)[k].1
    ensures FormatTrackData(Steps(d)[k].0, d) == Success(Steps(d)[k].1)
  {
    var steps := Steps(d);
    StepsArePlaceholders(d);
    ChainLone(steps, k);
  }

  /** The placeholder letters in the order the replacements run. */
  const Keys := "AaLlNnYyTt"

  /** The ten patterns, '@' and a letter each. */
  const Patterns: seq<string> := ["@A", "@a", "@L", "@l", "@N", "@n", "@Y", "@y", "@T", "@t"]

  /** The position of a placeholder letter in the replacement order. */
  function KeyIndex(c: char): int {
    match c
    case 'A' => 0 case 'a' => 1 case 'L' => 2 case 'l' => 3 case 'N' => 4
    case 'n' => 5 case 'Y' => 6 case 'y' => 7 case 'T' => 8 case 't' => 9
    case _ => -1
  }

  /** The ten patterns are distinct two-byte placeholders. */
  lemma StepsArePlaceholders(d: TrackRecord)
    requires d.artist.Some? && d.album.Some? && d.title.Some? && d.year.Some? && d.track.Some?
    ensures |Steps(d)| == 10 && Placeholders(Steps(d))
    ensures forall i, j | 0 <= i < j < 10 :: Steps(d)[i].0 != Steps(d)[j].0
  {
    forall i | 0 <= i < 10
      ensures Patterns[i] == ['@', Keys[i]] && KeyIndex(Keys[i]) == i
    {
    }
    forall i, j | 0 <= i < j < 10
      ensures Patterns[i] != Patterns[j]
    {
      assert KeyIndex(Patterns[i][1]) == i;
      assert KeyIndex(Patterns[j][1]) == j;
    }
  }

  /** Digits hold no '@'. */
  lemma DigitsNoAt(s: string)
    requires AllDigits(s)
    ensures '@' !in s
  {
  }

  /** The track placeholder alone gives the two-digit padded track. */
  lemma TrackPlaceholder(d: TrackRecord)
    requires d.artist.Some? && d.album.Some? && d.title.Some? && d.year.Some? && d.track.Some?
    requires d.track.value >= 0
    ensures FormatTrackData("@T", d) == Success(ZeroPad(d.track.value, 2))
    ensures |ZeroPad(d.track.value, 2)| >= 2 && IsDigits(ZeroPad(d.track.value, 2))
  {
    PadDigitsAreDigits(NatToString(d.track.value), 2);
    DigitsNoAt(ZeroPad(d.track.value, 2));
    PlaceholderAlone(d, 8);
  }

  /** The unpadded track placeholder alone gives str(track), which int() reads back as the track. */
  lemma UnpaddedTrackPlaceholder(d: TrackRecord)
    requires d.artist.Some? && d.album.Some? && d.title.Some? && d.year.Some? && d.track.Some?
    ensures FormatTrackData("@t", d) == Success(IntToString(d.track.value))
    ensures ParseInt(IntToString(d.track.value)) == Some(d.track.value)
  {
    var t := d.track.value;
    if t < 0 {
      DigitsNoAt(NatToString(-t));
      assert IntToString(t) == "-" + NatToString(-t);
    } else {
      DigitsNoAt(NatToString(t));
    }
    PlaceholderAlone(d, 9);
    ParseIntToString(t);
  }

  /** The long-year placeholder alone gives exactly four digits for a year that is not negative. */
  lemma YearPlaceholder(d: TrackRecord)
    requires d.artist.Some? && d.album.Some? && d.title.Some? && d.year.Some? && d.track.Some?
    requires d.year.value >= 0
    ensures FormatTrackData("@Y", d) == Success(LongYear(d.year.value))
    ensures |LongYear(d.year.value)| == 4 && IsDigits(LongYear(d.year.value))
  {
    var y := LongYear(d.year.value);
    PadDigitsAreDigits(NatToString(d.year.value), 4);
    DigitsNoAt(y);
    PlaceholderAlone(d, 6);
  }

  /** The short-year placeholder alone gives exactly two digits for a year that is not negative. */
  lemma ShortYearPlaceholder(d: TrackRecord)
    requires d.artist.Some? && d.album.Some? && d.title.Some? && d.year.Some? && d.track.Some?
    requires d.year.value >= 0
    ensures FormatTrackData("@y", d) == Success(ShortYear(d.year.value))
    ensures |ShortYear(d.year.value)| == 2 && IsDigits(ShortYear(d.year.value))
  {
    var y := ShortYear(d.year.value);
    PadDigitsAreDigits(NatToString(d.year.value), 2);
    DigitsNoAt(y);
    PlaceholderAlone(d, 7);
  }

  /** A two-byte placeholder is left alone by a replacement of another one. */
  lemma PlaceholderUntouched(p: string, q: string, rep: string)
    requires |p| == 2 && |q| == 2 && p != q
    ensures Replace(p, q, rep) == p
  {
    assert p[..2] == p;
    assert Replace(p[1..], q, rep) == p[1..];
    assert [p[0]] + p[1..] == p;
  }

  lemma PlaceholderReplaced(p: string, rep: string)
    requires |p| == 2
    ensures Replace(p, p, rep) == rep
  {
    assert p[..2] == p;
    assert p[2..] == [];
    assert rep + [] == rep;
  }

  /** Zero-padding digits gives digits. */
  lemma PadDigitsAreDigits(d: string, k: nat)
    requires IsDigits(d)
    ensures IsDigits(PadDigits(d, k)) && |PadDigits(d, k)| >= k
  {
    if |d| < k {
      var z := Repeat('0', k - |d|);
      assert forall i | 0 <= i < |z| :: z[i] == '0';
      assert forall i | 0 <= i < |z + d| :: (z + d)[i] == if i < |z| then z[i] else d[i - |z|];
    }
  }
}
