/**
 * TrackData.py: the per-source track record, mint() and clean_string().
 * The record is a value (TrackRecord) wherever the source builds one and hands
 * it on; the TrackData class is the object whose clean() rewrites its fields.
 */
module TrackData {
  import opened Wrappers
  import opened PyStr

  /** Title, album and artist are strings, track, year and genre ints; None is absent. */
  datatype TrackRecord = TrackRecord(
    title: Option<string>,
    album: Option<string>,
    artist: Option<string>,
    track: Option<int>,
    year: Option<int>,
    genre: Option<int>)

  /** A freshly constructed TrackData: every field None. */
  const Blank := TrackRecord(None, None, None, None, None, None)

  /** mint(): int(s), or None where int() raises ValueError. */
  function Mint(s: string): Option<int> {
    ParseInt(s)
  }

  /** mint() reads back every number that str() renders. */
  lemma {:induction false} MintOfIntToString(n: int)
    ensures Mint(IntToString(n)) == Some(n)
  {
    ParseIntToString(n);
  }

  /** A NUL byte anywhere makes int() raise, so mint() gives None. */
  lemma {:induction false} MintRejectsNul(s: string)
    requires '\0' in s
    ensures Mint(s) == None
  {
    StripKeepsNul(s);
    var t := Strip(s);
    NulIsNotDigits(t);
    if t != [] && (t[0] == '-' || t[0] == '+') {
      var i :| 0 <= i < |t| && t[i] == '\0';
      assert t[1..][i - 1] == '\0';
      StripLeftKeeps(t[1..], i - 1);
      NulIsNotDigits(StripLeft(t[1..]));
    }
  }

  lemma {:induction false} StripKeepsNul(s: string)
    requires '\0' in s
    ensures '\0' in Strip(s)
  {
    var k :| 0 <= k < |s| && s[k] == '\0';
    StripRightKeeps(s, k);
    var r := StripRight(s);
    var j :| 0 <= j < |r| && r[j] == '\0';
    StripLeftKeeps(r, j);
  }

  lemma {:induction false} NulIsNotDigits(x: string)
    requires '\0' in x
    ensures !IsDigits(x)
  {
  }

  lemma {:induction false} StripLeftKeeps(s: string, k: nat)
    requires k < |s| && !IsSpace(s[k])
    ensures s[k] in StripLeft(s)
  {
    var r := StripLeft(s);
    StripLeftShape(s);
    assert |s| - |r| <= k;
    assert r[k - (|s| - |r|)] == s[k];
  }

  lemma {:induction false} StripRightKeeps(s: string, k: nat)
    requires k < |s| && !IsSpace(s[k])
    ensures s[k] in StripRight(s)
  {
    var r := StripRight(s);
    StripRightShape(s);
    assert k < |r|;
    assert r[k] == s[k];
  }

  // ---------------------------------------------------------------------
  // clean_string

  const TitleCaseExceptions: seq<string> := ["and", "at", "of", "or", "the"]

  /** A name ending in ".mp3" has a '.' to keep. */
  lemma {:induction false} DotInMp3Name(s: string)
    requires EndsWith(s, ".mp3")
    ensures Count(s, '.') >= 1
  {
    CountAppend(s[..|s| - 4], ".mp3", '.');
    assert s == s[..|s| - 4] + ".mp3";
  }

  lemma {:induction false} CountAppend(a: string, b: string, c: char)
    ensures Count(a + b, c) == Count(a, c) + Count(b, c)
    decreases |a|
  {
    if a == [] {
      assert a + b == b;
    } else {
      assert (a + b)[1..] == a[1..] + b;
      CountAppend(a[1..], b, c);
    }
  }

  /** The '.' step: a ".mp3" name keeps only its last '.', any other name keeps none. */
  function DotsReplaced(s: string): (r: string)
    ensures |r| == |s|
  {
    if EndsWith(s, ".mp3") then
      DotInMp3Name(s);
      ReplaceFirst(s, '.', ' ', Count(s, '.') - 1)
    else ReplaceChar(s, '.', ' ')
  }

  lemma {:induction false} ReplaceFirstAll(p: string, q: string, a: char, b: char)
    requires a != b
    ensures ReplaceFirst(p + q, a, b, Count(p, a)) == ReplaceChar(p, a, b) + q
    decreases |p|
  {
    if p == [] {
      assert p + q == q;
      ReplaceFirstNone(q, a, b);
    } else {
      assert (p + q)[1..] == p[1..] + q;
      ReplaceFirstAll(p[1..], q, a, b);
      assert ReplaceChar(p, a, b) == [if p[0] == a then b else p[0]] + ReplaceChar(p[1..], a, b);
    }
  }

  lemma {:induction false} ReplaceFirstNone(q: string, a: char, b: char)
    ensures ReplaceFirst(q, a, b, 0) == q
    decreases |q|
  {
    if q != [] {
      ReplaceFirstNone(q[1..], a, b);
      assert [q[0]] + q[1..] == q;
    }
  }

  lemma {:induction false} CountReplaced(s: string, a: char, b: char)
    requires a != b
    ensures Count(ReplaceChar(s, a, b), a) == 0
    decreases |s|
  {
    if s != [] {
      assert ReplaceChar(s, a, b)[1..] == ReplaceChar(s[1..], a, b);
      CountReplaced(s[1..], a, b);
    }
  }

  lemma {:induction false} CountZero(s: string, c: char)
    requires Count(s, c) == 0
    ensures c !in s
  {
    if c in s {
      var k :| 0 <= k < |s| && s[k] == c;
      CountPositive(s, c, k);
    }
  }

  lemma {:induction false} CountPositive(s: string, c: char, k: nat)
    requires k < |s| && s[k] == c
    ensures Count(s, c) > 0
    decreases k
  {
    if k > 0 {
      CountPositive(s[1..], c, k - 1);
    }
  }

  /**
   * The '.' rule of clean_string: a ".mp3" name keeps exactly one '.', the one
   * of its extension; any other name keeps none.
   */
  lemma {:induction false} DotsReplacedKeepsExtensionDot(s: string)
    ensures EndsWith(s, ".mp3") ==> EndsWith(DotsReplaced(s), ".mp3") && Count(DotsReplaced(s), '.') == 1
    ensures !EndsWith(s, ".mp3") ==> '.' !in DotsReplaced(s)
  {
    if EndsWith(s, ".mp3") {
      var p := s[..|s| - 4];
      assert s == p + ".mp3";
      CountAppend(p, ".mp3", '.');
      assert Count(".mp3", '.') == 1;
      ReplaceFirstAll(p, ".mp3", '.', ' ');
      var r := DotsReplaced(s);
      assert r == ReplaceChar(p, '.', ' ') + ".mp3";
      CountAppend(ReplaceChar(p, '.', ' '), ".mp3", '.');
      CountReplaced(p, '.', ' ');
    } else {
      CountReplaced(s, '.', ' ');
      CountZero(DotsReplaced(s), '.');
    }
  }

  /** The separator step: '.', '-' and '_' become spaces. */
  function Separated(s: string): string {
    ReplaceChar(ReplaceChar(DotsReplaced(s), '-', ' '), '_', ' ')
  }

  function Capitalise(w: string): (r: string)
    ensures |r| == |w|
  {
    if w == [] then [] else [UpperChar(w[0])] + w[1..]
  }

  /** Word i after the title-case loop: capitalised if first or not an exception. */
  function TitleWord(i: nat, w: string): string {
    if i == 0 || w !in TitleCaseExceptions then Capitalise(w) else w
  }

  function TitleCased(ws: seq<string>): (r: seq<string>)
    ensures |r| == |ws| && forall i | 0 <= i < |ws| :: r[i] == TitleWord(i, ws[i])
  {
    seq(|ws|, i requires 0 <= i < |ws| => TitleWord(i, ws[i]))
  }

  /** Index of the ']' that closes a group opened at s[0], if the regex \[.*?\] matches there. */
  predicate GroupAt(s: string) {
    |s| > 0 && s[0] == '[' && ']' in s[1..] && '\n' !in s[1..1 + IndexOf(s[1..], ']')]
  }

  /**
   * re.split(r'\[.*?\]', s) joined again with ' ': every match of the
   * non-greedy bracket group, leftmost first, becomes one space.
   */
  function BracketsReplaced(s: string): string
    decreases |s|
  {
    if s == [] then []
    else if GroupAt(s) then " " + BracketsReplaced(s[2 + IndexOf(s[1..], ']')..])
    else [s[0]] + BracketsReplaced(s[1..])
  }

  /** clean_string(s, aggressive). */
  function Cleaned(s: string, aggressive: bool): string {
    var joined := Join(" ", TitleCased(Split(Lower(Separated(s)))));
    if aggressive then Join(" ", Split(BracketsReplaced(joined))) else joined
  }

  lemma {:induction false} TitleCasedAreWords(ws: seq<string>)
    requires AreWords(ws)
    ensures AreWords(TitleCased(ws))
  {
    forall i | 0 <= i < |ws| ensures TitleCased(ws)[i] != [] && NoSpace(TitleCased(ws)[i]) {
      var w := ws[i];
      assert w != [] && NoSpace(w);
      assert !IsSpace(w[0]);
    }
  }

  /** The result is words joined by single spaces: no leading, trailing or double space. */
  lemma {:induction false} CleanedNormalised(s: string, aggressive: bool)
    ensures Normalised(Cleaned(s, aggressive))
  {
    var ws := Split(Lower(Separated(s)));
    SplitAreWords(Lower(Separated(s)));
    TitleCasedAreWords(ws);
    JoinNormalised(TitleCased(ws));
    if aggressive {
      var joined := Join(" ", TitleCased(ws));
      SplitAreWords(BracketsReplaced(joined));
      JoinNormalised(Split(BracketsReplaced(joined)));
    }
  }

  /** Every byte of s has property P. */
  predicate All(s: string, P: char -> bool) {
    forall i | 0 <= i < |s| :: P(s[i])
  }

  lemma {:induction false} AllConcat(a: string, b: string, P: char -> bool)
    requires All(a, P) && All(b, P)
    ensures All(a + b, P)
  {
    forall i | 0 <= i < |a + b| ensures P((a + b)[i]) {
      if i < |a| { assert (a + b)[i] == a[i]; } else { assert (a + b)[i] == b[i - |a|]; }
    }
  }

  lemma {:induction false} SplitAll(s: string, P: char -> bool)
    requires All(s, P)
    ensures forall w | w in Split(s) :: All(w, P)
    decreases |s|
  {
    if s != [] {
      SplitAll(s[1..], P);
      if !IsSpace(s[0]) {
        var n := WordLength(s);
        SplitAll(s[n..], P);
      }
    }
  }

  lemma {:induction false} JoinAll(sep: string, ws: seq<string>, P: char -> bool)
    requires All(sep, P)
    requires forall w | w in ws :: All(w, P)
    ensures All(Join(sep, ws), P)
    decreases |ws|
  {
    if |ws| > 1 {
      JoinAll(sep, ws[1..], P);
      assert ws[0] in ws;
      AllConcat(ws[0], sep, P);
      AllConcat(ws[0] + sep, Join(sep, ws[1..]), P);
    } else if |ws| == 1 {
      assert ws[0] in ws;
    }
  }

  lemma {:induction false} BracketsReplacedAll(s: string, P: char -> bool)
    requires All(s, P) && P(' ')
    ensures All(BracketsReplaced(s), P)
    decreases |s|
  {
    if s != [] {
      if GroupAt(s) {
        BracketsReplacedAll(s[2 + IndexOf(s[1..], ']')..], P);
        AllConcat(" ", BracketsReplaced(s[2 + IndexOf(s[1..], ']')..]), P);
      } else {
        BracketsReplacedAll(s[1..], P);
        AllConcat([s[0]], BracketsReplaced(s[1..]), P);
      }
    }
  }

  predicate NotSeparator(c: char) { c != '-' && c != '_' }
  predicate NotSeparatorOrDot(c: char) { c != '-' && c != '_' && c != '.' }

  /** Capitalising the words keeps every byte that P accepts together with its upper case. */
  lemma {:induction false} TitleCasedAll(ws: seq<string>, P: char -> bool)
    requires forall w | w in ws :: All(w, P)
    requires forall c | P(c) :: P(UpperChar(c))
    ensures forall w | w in TitleCased(ws) :: All(w, P)
  {
    forall w | w in TitleCased(ws) ensures All(w, P) {
      var i :| 0 <= i < |ws| && TitleCased(ws)[i] == w;
      assert ws[i] in ws;
      if w != ws[i] {
        assert w == [UpperChar(ws[i][0])] + ws[i][1..];
        assert P(ws[i][0]);
        forall j | 0 <= j < |w| ensures P(w[j]) {
          if j > 0 { assert w[j] == ws[i][j]; }
        }
      }
    }
  }

  /** The cleaning steps after the separators, for any byte property P they keep. */
  lemma {:induction false} CleanedAll(s: string, aggressive: bool, P: char -> bool)
    requires All(Lower(Separated(s)), P) && P(' ')
    requires forall c | P(c) :: P(UpperChar(c))
    ensures All(Cleaned(s, aggressive), P)
  {
    var low := Lower(Separated(s));
    SplitAll(low, P);
    TitleCasedAll(Split(low), P);
    var ws := TitleCased(Split(low));
    JoinAll(" ", ws, P);
    if aggressive {
      var joined := Join(" ", ws);
      BracketsReplacedAll(joined, P);
      SplitAll(BracketsReplaced(joined), P);
      JoinAll(" ", Split(BracketsReplaced(joined)), P);
    }
  }

  /**
   * No '-' or '_' survives cleaning; neither does a '.' unless the name ends
   * in ".mp3".
   */
  lemma {:induction false} CleanedHasNoSeparators(s: string, aggressive: bool)
    ensures '-' !in Cleaned(s, aggressive) && '_' !in Cleaned(s, aggressive)
    ensures !EndsWith(s, ".mp3") ==> '.' !in Cleaned(s, aggressive)
  {
    DotsReplacedKeepsExtensionDot(s);
    var low := Lower(Separated(s));
    var r := Cleaned(s, aggressive);
    if EndsWith(s, ".mp3") {
      assert All(low, NotSeparator);
      CleanedAll(s, aggressive, NotSeparator);
      assert forall i | 0 <= i < |r| :: NotSeparator(r[i]);
    } else {
      assert All(low, NotSeparatorOrDot);
      CleanedAll(s, aggressive, NotSeparatorOrDot);
      assert forall i | 0 <= i < |r| :: NotSeparatorOrDot(r[i]);
    }
  }

  /** A word that starts with a lower-case letter. */
  predicate StartsLower(w: string) { w != [] && IsLower(w[0]) }

  /**
   * Title case without aggressive cleaning: the first word does not start with
   * a lower-case letter, a later one exactly when it is one of the exception
   * words, which stay lower-case, and no letter after the first of a word is
   * upper-case.
   */
  lemma {:induction false} CleanedTitleCase(s: string)
    ensures var ws := Split(Cleaned(s, false));
      (forall i, j | 0 <= i < |ws| && 0 < j < |ws[i]| :: !IsUpper(ws[i][j])) &&
      (|ws| > 0 ==> !StartsLower(ws[0])) &&
      (forall i | 0 < i < |ws| && StartsLower(ws[i]) :: ws[i] in TitleCaseExceptions) &&
      (forall i | 0 < i < |ws| && Lower(ws[i]) in TitleCaseExceptions :: ws[i] == Lower(ws[i]))
  {
    var low := Lower(Separated(s));
    var words := Split(low);
    SplitAreWords(low);
    TitleCasedAreWords(words);
    SplitJoin(TitleCased(words));
    assert All(low, c => !IsUpper(c));
    SplitAll(low, c => !IsUpper(c));
    var ws := TitleCased(words);
    forall i, j | 0 <= i < |ws| && 0 < j < |ws[i]| ensures !IsUpper(ws[i][j]) {
      assert words[i] in words;
      TitleWordTail(i, words[i], j);
    }
    forall i | 0 < i < |ws| && Lower(ws[i]) in TitleCaseExceptions
      ensures ws[i] == Lower(ws[i])
    {
      assert words[i] in words;
      LowerTitleWord(i, words[i]);
    }
  }

  /** Lower-casing a title-cased word of lower-case letters gives the word back. */
  lemma LowerTitleWord(i: nat, w: string)
    requires All(w, c => !IsUpper(c))
    ensures Lower(TitleWord(i, w)) == w
  {
    if w != [] && TitleWord(i, w) != w {
      assert !IsUpper(w[0]);
      assert LowerChar(UpperChar(w[0])) == w[0];
      assert Lower(TitleWord(i, w))[0] == w[0];
    }
  }

  /** Title-casing a word changes at most its first letter. */
  lemma {:induction false} TitleWordTail(i: nat, w: string, j: nat)
    requires 0 < j < |w|
    ensures |TitleWord(i, w)| == |w| && TitleWord(i, w)[j] == w[j]
  {
  }

  /** The title-case loop of clean_string(): it rewrites words[i] in place, capitalising the first word and every non-exception. */
  method TitleCaseWords(words: seq<string>) returns (r: seq<string>)
    requires AreWords(words)
    ensures r == TitleCased(words)
  {
    r := words;
    var i := 0;
    while i < |r|
      invariant 0 <= i <= |r| == |words|
      invariant forall k | 0 <= k < i :: r[k] == TitleWord(k, words[k])
      invariant forall k | i <= k < |r| :: r[k] == words[k]
    {
      if i == 0 || r[i] !in TitleCaseExceptions {
        r := r[i := [UpperChar(r[i][0])] + r[i][1..]];
      }
      i := i + 1;
    }
  }

  /** clean_string(): the separators become spaces, then the words are lower-cased and title-cased. */
  method CleanString(s: string, aggressive: bool) returns (r: string)
    ensures r == Cleaned(s, aggressive)
    ensures Normalised(r) && '-' !in r && '_' !in r
  {
    var words := Split(Lower(Separated(s)));
    SplitAreWords(Lower(Separated(s)));
    words := TitleCaseWords(words);
    r := Join(" ", words);
    if aggressive {
      var split := Split(BracketsReplaced(r));
      r := Join(" ", split);
    }
    CleanedNormalised(s, aggressive);
    CleanedHasNoSeparators(s, aggressive);
  }

  // ---------------------------------------------------------------------
  // TrackData.clean

  /** One string field after clean(): cleaned when non-empty, otherwise None. */
  function CleanField(f: Option<string>, aggressive: bool): (r: Option<string>)
    ensures r.Some? <==> f.Some? && f.value != ""
    ensures r.Some? ==> Normalised(r.value) && '-' !in r.value && '_' !in r.value
  {
    if f.Some? && f.value != "" then
      CleanedNormalised(f.value, aggressive);
      CleanedHasNoSeparators(f.value, aggressive);
      Some(Cleaned(f.value, aggressive))
    else None
  }

  /** The record after clean(): only title, album and artist change. */
  function CleanRecord(d: TrackRecord, aggressive: bool): (r: TrackRecord)
    ensures r.track == d.track && r.year == d.year && r.genre == d.genre
    ensures r.title.Some? <==> d.title.Some? && d.title.value != ""
    ensures r.album.Some? <==> d.album.Some? && d.album.value != ""
    ensures r.artist.Some? <==> d.artist.Some? && d.artist.value != ""
  {
    d.(title := CleanField(d.title, aggressive),
       album := CleanField(d.album, aggressive),
       artist := CleanField(d.artist, aggressive))
  }

  class TrackData {
    var title: Option<string>
    var album: Option<string>
    var artist: Option<string>
    var track: Option<int>
    var year: Option<int>
    var genre: Option<int>

    function Record(): TrackRecord
      reads this
    {
      TrackRecord(title, album, artist, track, year, genre)
    }

    constructor ()
      ensures Record() == Blank
    {
      title, album, artist := None, None, None;
      track, year, genre := None, None, None;
    }

    /** clean(): rewrites title, album and artist in place; nothing else changes. */
    method Clean(aggressive: bool)
      modifies this
      ensures Record() == CleanRecord(old(Record()), aggressive)
    {
      if title.Some? && title.value != "" {
        var t := CleanString(title.value, aggressive);
        title := Some(t);
      } else {
        title := None;
      }
      if album.Some? && album.value != "" {
        var a := CleanString(album.value, aggressive);
        album := Some(a);
      } else {
        album := None;
      }
      if artist.Some? && artist.value != "" {
        var a := CleanString(artist.value, aggressive);
        artist := Some(a);
      } else {
        artist := None;
      }
    }
  }
}
