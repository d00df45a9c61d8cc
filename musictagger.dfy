/**
 * music_tagger.py: the folder-level clean-up of file names — each name
 * cleaned, then the words that every name of the folder shares at the same
 * position removed (the artist or album name repeated in every file name).
 */
module MusicTagger {
  import opened Wrappers
  import opened PyStr
  import TD = TrackData

  /** Indexing word_list[0] of an empty list, or word_list[i][0] of a name without words. */
  datatype Error = IndexError

  // ---------------------------------------------------------------------
  // clean_string

  /**
   * clean_string(s): the same steps as TrackData's clean_string without
   * aggressive cleaning, with the exception words compared one by one.
   */
  method CleanString(s: string) returns (r: string)
    ensures r == TD.Cleaned(s, false)
    ensures Normalised(r) && '-' !in r && '_' !in r
    ensures var ws := Split(r); |ws| > 0 ==> !TD.StartsLower(ws[0])
  {
    r := TD.CleanString(s, false);
    TD.CleanedTitleCase(s);
  }

  // ---------------------------------------------------------------------
  // remove_common_words: specification

  /** word_list: every string split into its words. */
  function WordLists(strings: seq<string>): (wl: seq<seq<string>>)
    ensures |wl| == |strings| && forall k | 0 <= k < |wl| :: wl[k] == Split(strings[k])
  {
    seq(|strings|, k requires 0 <= k < |strings| => Split(strings[k]))
  }

  /** The number of words in the shortest list. */
  function Shortest(wl: seq<seq<string>>): nat
    requires wl != []
  {
    if |wl| == 1 then |wl[0]|
    else
      var m := Shortest(wl[..|wl| - 1]);
      if |wl[|wl| - 1]| < m then |wl[|wl| - 1]| else m
  }

  /** Shortest is the length of one of the lists and no list is shorter. */
  lemma {:induction false} ShortestIsMinimum(wl: seq<seq<string>>)
    requires wl != []
    ensures exists k | 0 <= k < |wl| :: |wl[k]| == Shortest(wl)
    ensures forall k | 0 <= k < |wl| :: Shortest(wl) <= |wl[k]|
  {
    if |wl| == 1 {
      assert |wl[0]| == Shortest(wl);
    } else {
      var init := wl[..|wl| - 1];
      ShortestIsMinimum(init);
      var k :| 0 <= k < |init| && |init[k]| == Shortest(init);
      assert wl[k] == init[k];
      assert forall j | 0 <= j < |init| :: wl[j] == init[j];
      if |wl[|wl| - 1]| < Shortest(init) {
        assert |wl[|wl| - 1]| == Shortest(wl);
      } else {
        assert |wl[k]| == Shortest(wl);
      }
    }
  }

  /** Every list has a word at position i and it is the word of the first list. */
  predicate AgreeAt(wl: seq<seq<string>>, i: nat) {
    wl != [] && i < |wl[0]| && forall j | 0 <= j < |wl| :: i < |wl[j]| && wl[j][i] == wl[0][i]
  }

  /**
   * Position i is blanked: all lists agree there, and the scan reached it —
   * every position from 1 up to i agrees too (a mismatch at position 0 does
   * not stop the scan; one at a later position does).
   */
  predicate BlankAt(wl: seq<seq<string>>, i: nat) {
    AgreeAt(wl, i) && forall p | 1 <= p < i :: AgreeAt(wl, p)
  }

  /** The word lists after the blanking loop. */
  function Blanked(wl: seq<seq<string>>): (b: seq<seq<string>>)
    ensures |b| == |wl|
    ensures forall k | 0 <= k < |wl| :: |b[k]| == |wl[k]|
  {
    seq(|wl|, k requires 0 <= k < |wl| =>
      seq(|wl[k]|, i requires 0 <= i < |wl[k]| => if BlankAt(wl, i) then "" else wl[k][i]))
  }

  /**
   * The recombination loop: the first word, then each later word preceded
   * by a space unless the word before it was blanked.
   */
  function Rejoined(w: seq<string>): string
    requires w != []
    decreases |w|
  {
    if |w| == 1 then w[0]
    else Rejoined(w[..|w| - 1]) + (if w[|w| - 2] == "" then "" else " ") + w[|w| - 1]
  }

  /** The words that were not blanked, in order. */
  function NonBlank(w: seq<string>): seq<string>
    decreases |w|
  {
    if w == [] then [] else NonBlank(w[..|w| - 1]) + (if w[|w| - 1] == "" then [] else [w[|w| - 1]])
  }

  /** The recombined lists, or IndexError when a list has no words. */
  function Recombined(b: seq<seq<string>>): (r: Result<seq<string>, Error>)
    ensures r.Failure? <==> exists k | 0 <= k < |b| :: b[k] == []
    ensures r.Success? ==> |r.value| == |b|
  {
    if exists k | 0 <= k < |b| :: b[k] == [] then Failure(IndexError)
    else Success(seq(|b|, k requires 0 <= k < |b| && b[k] != [] => Rejoined(b[k])))
  }

  /** remove_common_words(string_list). */
  function CommonWordsRemoved(strings: seq<string>): (r: Result<seq<string>, Error>)
    ensures r.Failure? <==> strings == [] || exists k | 0 <= k < |strings| :: Split(strings[k]) == []
    ensures r.Success? ==> |r.value| == |strings|
  {
    if strings == [] then Failure(IndexError)
    else
      var wl := WordLists(strings);
      var b := Blanked(wl);
      assert forall k | 0 <= k < |b| :: b[k] == [] <==> wl[k] == [];
      Recombined(b)
  }

  // ---------------------------------------------------------------------
  // remove_common_words: the loops

  /** The first loop: one split() per string, appended in order. */
  method SplitEach(strings: seq<string>) returns (wl: seq<seq<string>>)
    ensures wl == WordLists(strings)
  {
    wl := [];
    var i := 0;
    while i < |strings|
      invariant 0 <= i <= |strings| && |wl| == i
      invariant forall k | 0 <= k < i :: wl[k] == Split(strings[k])
    {
      wl := wl + [Split(strings[i])];
      i := i + 1;
    }
  }

  /** len_shortest_string. */
  method ShortestLength(wl: seq<seq<string>>) returns (m: nat)
    requires wl != []
    ensures m == Shortest(wl)
  {
    m := |wl[0]|;
    var i := 1;
    assert wl[..1] == [wl[0]];
    while i < |wl|
      invariant 1 <= i <= |wl|
      invariant m == Shortest(wl[..i])
    {
      assert wl[..i + 1][..i] == wl[..i];
      if |wl[i]| < m {
        m := |wl[i]|;
      }
      i := i + 1;
    }
    assert wl[..|wl|] == wl;
  }

  /** The comparison loop at position i, leaving early at the first mismatch. */
  method AgreesAt(wl: seq<seq<string>>, i: nat) returns (agree: bool)
    requires wl != [] && forall k | 0 <= k < |wl| :: i < |wl[k]|
    ensures agree == AgreeAt(wl, i)
  {
    agree := true;
    var j := 1;
    while j < |wl|
      invariant 1 <= j <= |wl|
      invariant forall k | 0 <= k < j :: wl[k][i] == wl[0][i]
    {
      if wl[0][i] != wl[j][i] {
        agree := false;
        break;
      }
      j := j + 1;
    }
  }

  /** Blanks position i in every list. */
  method BlankPosition(wl: seq<seq<string>>, i: nat) returns (out: seq<seq<string>>)
    requires forall k | 0 <= k < |wl| :: i < |wl[k]|
    ensures |out| == |wl|
    ensures forall k | 0 <= k < |wl| :: out[k] == wl[k][i := ""]
  {
    out := wl;
    var k := 0;
    while k < |wl|
      invariant 0 <= k <= |wl| && |out| == |wl|
      invariant forall p | 0 <= p < k :: out[p] == wl[p][i := ""]
      invariant forall p | k <= p < |wl| :: out[p] == wl[p]
    {
      out := out[k := out[k][i := ""]];
      k := k + 1;
    }
  }

  /** Past the scan: once a position from 1 on disagrees, no later position is blanked. */
  lemma {:induction false} StopsAtMismatch(wl: seq<seq<string>>, p: nat, i: nat)
    requires 1 <= p <= i && !AgreeAt(wl, p)
    ensures !BlankAt(wl, i)
  {
  }

  /** Beyond the shortest list no position is blanked. */
  lemma BlankWithinShortest(wl: seq<seq<string>>, i: nat)
    requires wl != [] && i >= Shortest(wl)
    ensures !BlankAt(wl, i)
  {
    ShortestIsMinimum(wl);
    var k :| 0 <= k < |wl| && |wl[k]| == Shortest(wl);
    assert !(i < |wl[k]|);
  }

  /** out holds wl with every blanked position below i emptied. */
  ghost predicate BlankedBelow(wl: seq<seq<string>>, out: seq<seq<string>>, i: nat) {
    |out| == |wl| && (forall k | 0 <= k < |wl| :: |out[k]| == |wl[k]|) &&
    forall k, p | 0 <= k < |wl| && 0 <= p < |wl[k]| :: out[k][p] == if p < i && BlankAt(wl, p) then "" else wl[k][p]
  }

  /** Once no position from i on is blanked, the loop's result is Blanked(wl). */
  lemma BlankedDone(wl: seq<seq<string>>, out: seq<seq<string>>, i: nat)
    requires BlankedBelow(wl, out, i) && forall p | p >= i :: !BlankAt(wl, p)
    ensures out == Blanked(wl)
  {
    var b := Blanked(wl);
    forall k | 0 <= k < |wl|
      ensures out[k] == b[k]
    {
      assert forall p | 0 <= p < |wl[k]| :: out[k][p] == b[k][p];
    }
  }

  /** Blanking an agreeing position i extends the blanked range to i + 1. */
  lemma BlankedStep(wl: seq<seq<string>>, out: seq<seq<string>>, out': seq<seq<string>>, i: nat)
    requires BlankedBelow(wl, out, i)
    requires BlankAt(wl, i)
    requires |out'| == |out| && forall k | 0 <= k < |out| :: i < |out[k]| && out'[k] == out[k][i := ""]
    ensures BlankedBelow(wl, out', i + 1)
  {
  }

  /** A position that is not blanked extends the blanked range unchanged. */
  lemma BlankedSkip(wl: seq<seq<string>>, out: seq<seq<string>>, i: nat)
    requires BlankedBelow(wl, out, i) && !BlankAt(wl, i)
    ensures BlankedBelow(wl, out, i + 1)
  {
  }

  /** The blanking loop: over the positions of the shortest list, stopping at the first mismatch after position 0. */
  method BlankCommonWords(wl: seq<seq<string>>) returns (out: seq<seq<string>>)
    requires wl != []
    ensures out == Blanked(wl)
  {
    var m := ShortestLength(wl);
    ShortestIsMinimum(wl);
    out := wl;
    var i := 0;
    while i < m
      invariant 0 <= i <= m
      invariant BlankedBelow(wl, out, i)
      invariant forall p | 1 <= p < i :: AgreeAt(wl, p)
    {
      var agree := AgreesAt(wl, i);
      if agree {
        ghost var before := out;
        out := BlankPosition(out, i);
        BlankedStep(wl, before, out, i);
      } else if i > 0 {
        forall p | p >= i
          ensures !BlankAt(wl, p)
        {
          StopsAtMismatch(wl, i, p);
        }
        break;
      } else {
        BlankedSkip(wl, out, i);
      }
      i := i + 1;
    }
    if i == m {
      forall p | p >= i
        ensures !BlankAt(wl, p)
      {
        BlankWithinShortest(wl, p);
      }
    }
    BlankedDone(wl, out, i);
  }

  /** The recombination loop for one list, with its previous_blank flag. */
  method Rejoin(w: seq<string>) returns (s: string)
    requires w != []
    ensures s == Rejoined(w)
  {
    s := w[0];
    var previousBlank := w[0] == "";
    var j := 1;
    assert w[..1] == [w[0]];
    while j < |w|
      invariant 1 <= j <= |w|
      invariant s == Rejoined(w[..j])
      invariant previousBlank <==> w[j - 1] == ""
    {
      assert w[..j + 1][..j] == w[..j];
      if !previousBlank {
        s := s + " ";
      }
      s := s + w[j];
      previousBlank := w[j] == "";
      j := j + 1;
    }
    assert w[..|w|] == w;
  }

  /** The recombination loop over all lists; word_list[i][0] raises on a list without words. */
  method RecombineAll(b: seq<seq<string>>) returns (r: Result<seq<string>, Error>)
    ensures r == Recombined(b)
  {
    var result: seq<string> := [];
    var i := 0;
    while i < |b|
      invariant 0 <= i <= |b| && |result| == i
      invariant forall k | 0 <= k < i :: b[k] != [] && result[k] == Rejoined(b[k])
    {
      if |b[i]| == 0 {
        assert b[i] == [];
        return Failure(IndexError);
      }
      var s := Rejoin(b[i]);
      result := result + [s];
      i := i + 1;
    }
    assert result == seq(|b|, k requires 0 <= k < |b| && b[k] != [] => Rejoined(b[k]));
    r := Success(result);
  }

  /** remove_common_words(string_list). */
  method RemoveCommonWords(strings: seq<string>) returns (r: Result<seq<string>, Error>)
    ensures r == CommonWordsRemoved(strings)
  {
    if |strings| == 0 {
      return Failure(IndexError);
    }
    var wl := SplitEach(strings);
    var b := BlankCommonWords(wl);
    r := RecombineAll(b);
  }

  // ---------------------------------------------------------------------
  // clean_folder

  /** clean_folder(file_list): every name cleaned, then common words removed when there is more than one. */
  function FolderCleaned(files: seq<string>): (r: Result<seq<string>, Error>)
    ensures |files| <= 1 ==> r.Success?
    ensures r.Success? ==> |r.value| == |files|
  {
    var cleaned := seq(|files|, i requires 0 <= i < |files| => TD.Cleaned(files[i], false));
    if |files| > 1 then CommonWordsRemoved(cleaned) else Success(cleaned)
  }

  method CleanFolder(files: seq<string>) returns (r: Result<seq<string>, Error>)
    ensures r == FolderCleaned(files)
  {
    ghost var want := seq(|files|, k requires 0 <= k < |files| => TD.Cleaned(files[k], false));
    var cleaned: seq<string> := [];
    var i := 0;
    while i < |files|
      invariant 0 <= i <= |files| && cleaned == want[..i]
    {
      var c := CleanString(files[i]);
      assert want[..i + 1] == want[..i] + [c];
      cleaned := cleaned + [c];
      i := i + 1;
    }
    assert cleaned == want;
    assert FolderCleaned(files) == if |files| > 1 then CommonWordsRemoved(want) else Success(want);
    if |files| > 1 {
      r := RemoveCommonWords(cleaned);
    } else {
      r := Success(cleaned);
    }
  }

  // ---------------------------------------------------------------------
  // Properties

  /** A word splits into itself; the empty string into nothing. */
  lemma SplitOfWord(w: string)
    requires NoSpace(w)
    ensures Split(w) == if w == "" then [] else [w]
  {
    if w != "" {
      assert Join(" ", [w]) == w;
      SplitJoin([w]);
    }
  }

  /** A run of non-space bytes is not lengthened by what follows a space. */
  lemma {:induction false} WordLengthAppend(a: string, r: string)
    requires r == [] || IsSpace(r[0])
    ensures WordLength(a + r) == WordLength(a)
    decreases |a|
  {
    if a == [] {
      assert a + r == r;
    } else if !IsSpace(a[0]) {
      assert (a + r)[1..] == a[1..] + r;
      WordLengthAppend(a[1..], r);
    }
  }

  /** split() of a + r is split(a) then split(r) when r starts with whitespace. */
  lemma {:induction false} SplitAppendSpaced(a: string, r: string)
    requires r == [] || IsSpace(r[0])
    ensures Split(a + r) == Split(a) + Split(r)
    decreases |a|
  {
    if a == [] {
      assert a + r == r;
    } else if IsSpace(a[0]) {
      assert (a + r)[1..] == a[1..] + r;
      SplitAppendSpaced(a[1..], r);
    } else {
      var n := WordLength(a);
      WordLengthAppend(a, r);
      assert (a + r)[..n] == a[..n];
      assert (a + r)[n..] == a[n..] + r;
      SplitAppendSpaced(a[n..], r);
    }
  }

  /** split() of a + r is split(a) then split(r) when a ends with whitespace. */
  lemma SplitAppendAfterSpace(a: string, r: string)
    requires a == [] || IsSpace(a[|a| - 1])
    ensures Split(a + r) == Split(a) + Split(r)
  {
    if a == [] {
      assert a + r == r;
    } else {
      var a' := a[..|a| - 1];
      var c := [a[|a| - 1]];
      assert a == a' + c;
      calc {
        Split(a + r);
        { assert a + r == a' + (c + r); }
        Split(a' + (c + r));
        { SplitAppendSpaced(a', c + r); }
        Split(a') + Split(c + r);
        { SplitSkipsSpaces(c, r); }
        Split(a') + Split(r);
      }
      calc {
        Split(a);
        Split(a' + c);
        { SplitAppendSpaced(a', c); }
        Split(a') + Split(c);
        { SplitSkipsSpaces(c, []); assert c + [] == c; }
        Split(a');
      }
    }
  }

  /** After a blanked last word the recombined text is empty or ends with a space. */
  lemma {:induction false} RejoinedAfterBlank(w: seq<string>)
    requires w != [] && w[|w| - 1] == ""
    ensures var s := Rejoined(w); s == [] || s[|s| - 1] == ' '
    decreases |w|
  {
    if |w| > 1 && w[|w| - 2] == "" {
      var init := w[..|w| - 1];
      assert init[|init| - 1] == w[|w| - 2];
      RejoinedAfterBlank(init);
      assert Rejoined(w) == Rejoined(init) + "" + "";
    }
  }

  /** A word appended after a blank adds itself, and nothing else, to the split. */
  lemma SplitAfterBlank(s: string, x: string)
    requires s == [] || IsSpace(s[|s| - 1])
    requires NoSpace(x)
    ensures Split(s + x) == Split(s) + (if x == "" then [] else [x])
  {
    SplitAppendAfterSpace(s, x);
    SplitOfWord(x);
  }

  /** A word appended after a space adds itself, and nothing else, to the split. */
  lemma SplitAfterSpace(s: string, x: string)
    requires NoSpace(x)
    ensures Split(s + " " + x) == Split(s) + (if x == "" then [] else [x])
  {
    assert s + " " + x == s + (" " + x);
    SplitAppendSpaced(s, " " + x);
    SplitSkipsSpaces(" ", x);
    SplitOfWord(x);
  }

  /**
   * The recombined text splits into exactly the words that were not blanked,
   * in their original order: no blank leaves a double space behind and no
   * two surviving words run together.
   */
  lemma {:induction false} RejoinedSplit(w: seq<string>)
    requires w != [] && forall i | 0 <= i < |w| :: NoSpace(w[i])
    ensures Split(Rejoined(w)) == NonBlank(w)
    decreases |w|
  {
    var x := w[|w| - 1];
    if |w| == 1 {
      SplitOfWord(x);
      assert NonBlank(w) == NonBlank([]) + (if x == "" then [] else [x]);
    } else {
      var init := w[..|w| - 1];
      assert forall i | 0 <= i < |init| :: init[i] == w[i];
      RejoinedSplit(init);
      assert NonBlank(w) == NonBlank(init) + (if x == "" then [] else [x]);
      if w[|w| - 2] == "" {
        RejoinedAfterBlank(init);
        assert Rejoined(w) == Rejoined(init) + x;
        SplitAfterBlank(Rejoined(init), x);
      } else {
        assert Rejoined(w) == Rejoined(init) + " " + x;
        SplitAfterSpace(Rejoined(init), x);
      }
    }
  }

  /** With no word blanked the recombination is the plain single-space join. */
  lemma {:induction false} RejoinedWithoutBlanks(w: seq<string>)
    requires w != [] && forall i | 0 <= i < |w| :: w[i] != ""
    ensures Rejoined(w) == Join(" ", w)
    decreases |w|
  {
    if |w| > 1 {
      var init := w[..|w| - 1];
      RejoinedWithoutBlanks(init);
      JoinSnoc(init, w[|w| - 1]);
      assert init + [w[|w| - 1]] == w;
    }
  }

  lemma {:induction false} JoinSnoc(ws: seq<string>, x: string)
    requires ws != []
    ensures Join(" ", ws + [x]) == Join(" ", ws) + " " + x
    decreases |ws|
  {
    if |ws| > 1 {
      assert (ws + [x])[1..] == ws[1..] + [x];
      JoinSnoc(ws[1..], x);
      ConcatAssoc(ws[0] + " ", Join(" ", ws[1..]), " " + x);
    } else {
      assert ws + [x] == [ws[0], x];
    }
  }

  /** A list of blanks recombines to the empty string. */
  lemma {:induction false} RejoinedBlanks(w: seq<string>)
    requires w != [] && forall i | 0 <= i < |w| :: w[i] == ""
    ensures Rejoined(w) == ""
    decreases |w|
  {
    if |w| > 1 {
      RejoinedBlanks(w[..|w| - 1]);
    }
  }

  /** Each result splits into the words of its input that were not blanked, in order. */
  lemma SurvivingWordsInOrder(strings: seq<string>, k: nat)
    requires CommonWordsRemoved(strings).Success? && k < |strings|
    ensures Split(CommonWordsRemoved(strings).value[k]) == NonBlank(Blanked(WordLists(strings))[k])
  {
    var wl := WordLists(strings);
    var b := Blanked(wl);
    SplitAreWords(strings[k]);
    assert forall i | 0 <= i < |b[k]| :: b[k][i] == "" || b[k][i] == wl[k][i];
    RejoinedSplit(b[k]);
  }

  /** When every string is the same non-empty text, every result is empty. */
  lemma IdenticalStringsVanish(strings: seq<string>)
    requires strings != [] && Split(strings[0]) != []
    requires forall k | 0 <= k < |strings| :: strings[k] == strings[0]
    ensures CommonWordsRemoved(strings) == Success(seq(|strings|, _ => ""))
  {
    var wl := WordLists(strings);
    var b := Blanked(wl);
    var ws := Split(strings[0]);
    assert forall k | 0 <= k < |wl| :: wl[k] == ws;
    forall p | 0 <= p < |ws|
      ensures BlankAt(wl, p)
    {
      assert AgreeAt(wl, p);
      assert forall q | 1 <= q < p :: AgreeAt(wl, q);
    }
    forall k | 0 <= k < |b|
      ensures b[k] != [] && Rejoined(b[k]) == ""
    {
      assert |b[k]| == |ws|;
      assert forall i | 0 <= i < |b[k]| :: b[k][i] == "";
      RejoinedBlanks(b[k]);
    }
    assert Recombined(b) == Success(seq(|b|, k requires 0 <= k < |b| && b[k] != [] => Rejoined(b[k])));
    assert seq(|b|, k requires 0 <= k < |b| && b[k] != [] => Rejoined(b[k])) == seq(|strings|, _ => "");
  }

  /** When even position 1 differs somewhere, only position 0 can go, and names without a common first word come back normalised. */
  lemma NoCommonWordsKeepsNames(strings: seq<string>)
    requires strings != [] && forall k | 0 <= k < |strings| :: Split(strings[k]) != []
    requires !AgreeAt(WordLists(strings), 0) && !AgreeAt(WordLists(strings), 1)
    ensures CommonWordsRemoved(strings).Success?
    ensures forall k | 0 <= k < |strings| :: CommonWordsRemoved(strings).value[k] == Join(" ", Split(strings[k]))
  {
    var wl := WordLists(strings);
    var b := Blanked(wl);
    forall p
      ensures !BlankAt(wl, p)
    {
      if p >= 1 {
        StopsAtMismatch(wl, 1, p);
      }
    }
    forall k | 0 <= k < |b|
      ensures b[k] == wl[k] && CommonWordsRemoved(strings).value[k] == Join(" ", Split(strings[k]))
    {
      SplitAreWords(strings[k]);
      RejoinedWithoutBlanks(wl[k]);
    }
  }
}
