/**
 * The Python 2 byte-string operations the tagger relies on: whitespace tests,
 * strip(), split(), join(), replace(), lower()/upper(), int() and str().
 * A Python 2 `str` is a string of bytes; in this model each char holds one byte.
 */
module PyStr {
  import opened Wrappers

  /** ord() of one byte of a byte string. */
  function Ord(c: char): (n: nat)
    ensures n < 256
    ensures (c as int) < 256 ==> n == c as int
  {
    (c as int) % 256
  }

  /** chr() of a byte value. */
  function Chr(n: nat): (c: char)
    requires n < 256
    ensures Ord(c) == n && (c as int) == n
  {
    n as char
  }

  predicate IsByteString(s: string) {
    forall i | 0 <= i < |s| :: (s[i] as int) < 256
  }

  /** isspace() on one byte in the C locale. */
  predicate IsSpace(c: char) {
    c == ' ' || c == '\t' || c == '\n' || c == '\r' || c == '\U{000B}' || c == '\U{000C}'
  }

  predicate NoSpace(w: string) {
    forall i | 0 <= i < |w| :: !IsSpace(w[i])
  }

  predicate IsDigit(c: char) { '0' <= c <= '9' }
  predicate IsUpper(c: char) { 'A' <= c <= 'Z' }
  predicate IsLower(c: char) { 'a' <= c <= 'z' }

  function LowerChar(c: char): (r: char)
    ensures !IsUpper(r)
    ensures IsSpace(r) <==> IsSpace(c)
    ensures !IsUpper(c) ==> r == c
  {
    if IsUpper(c) then (c as int + 32) as char else c
  }

  function UpperChar(c: char): (r: char)
    ensures !IsLower(r)
    ensures IsSpace(r) <==> IsSpace(c)
    ensures !IsLower(c) ==> r == c
  {
    if IsLower(c) then (c as int - 32) as char else c
  }

  /** str.lower(): ASCII letters only, as for a byte string in the C locale. */
  function Lower(s: string): (r: string)
    ensures |r| == |s|
    ensures forall i | 0 <= i < |s| :: r[i] == LowerChar(s[i])
  {
    seq(|s|, i requires 0 <= i < |s| => LowerChar(s[i]))
  }

  /** s[i:j] for non-negative bounds: clipped to the string, empty when j <= i. */
  function Slice(s: string, i: nat, j: nat): (r: string)
    ensures |r| <= |s|
    ensures i <= j <= |s| ==> r == s[i..j]
    ensures |r| == (if j <= i || i >= |s| then 0 else (if j < |s| then j else |s|) - i)
  {
    if i >= |s| || j <= i then [] else s[i..if j < |s| then j else |s|]
  }

  /** s[n:]: everything from index n on, empty past the end. */
  function Drop(s: string, n: nat): (r: string)
    ensures r == Slice(s, n, |s|)
  {
    if n >= |s| then [] else s[n..]
  }

  /** s[:n]: the first n characters, all of s when it is shorter. */
  function Take(s: string, n: nat): (r: string)
    ensures r == Slice(s, 0, n)
  {
    if n >= |s| then s else s[..n]
  }

  function Repeat(c: char, n: nat): (r: string)
    ensures |r| == n && forall i | 0 <= i < n :: r[i] == c
  {
    seq(n, _ => c)
  }

  predicate StartsWith(s: string, p: string) {
    |p| <= |s| && s[..|p|] == p
  }

  /** s[-k:] == p for k == len(p) > 0. */
  predicate EndsWith(s: string, p: string) {
    |p| <= |s| && s[|s| - |p|..] == p
  }

  function StripLeft(s: string): (r: string)
    ensures |r| <= |s|
    ensures r == [] || !IsSpace(r[0])
    decreases |s|
  {
    if s != [] && IsSpace(s[0]) then StripLeft(s[1..]) else s
  }

  function StripRight(s: string): (r: string)
    ensures |r| <= |s|
    ensures r == [] || !IsSpace(r[|r| - 1])
    decreases |s|
  {
    if s != [] && IsSpace(s[|s| - 1]) then StripRight(s[..|s| - 1]) else s
  }

  /** lstrip() removes a run of whitespace from the front and nothing else. */
  lemma {:induction false} StripLeftShape(s: string)
    ensures var r := StripLeft(s);
      r == s[|s| - |r|..] && forall i | 0 <= i < |s| - |r| :: IsSpace(s[i])
    decreases |s|
  {
    if s != [] && IsSpace(s[0]) {
      StripLeftShape(s[1..]);
    }
  }

  /** rstrip() removes a run of whitespace from the end and nothing else. */
  lemma {:induction false} StripRightShape(s: string)
    ensures var r := StripRight(s);
      r == s[..|r|] && forall i | |r| <= i < |s| :: IsSpace(s[i])
    decreases |s|
  {
    if s != [] && IsSpace(s[|s| - 1]) {
      StripRightShape(s[..|s| - 1]);
    }
  }

  /** str.strip() with no argument. */
  function Strip(s: string): (r: string)
    ensures r == [] || (!IsSpace(r[0]) && !IsSpace(r[|r| - 1]))
    ensures NoSpace(s) ==> r == s
  {
    StripRightShape(s);
    StripLeftShape(StripRight(s));
    StripLeft(StripRight(s))
  }

  /** Length of the run of non-whitespace bytes that starts s. */
  function WordLength(s: string): (n: nat)
    ensures n <= |s|
    ensures forall i | 0 <= i < n :: !IsSpace(s[i])
    ensures n == |s| || IsSpace(s[n])
  {
    if s == [] || IsSpace(s[0]) then 0 else 1 + WordLength(s[1..])
  }

  /** str.split() with no argument: the maximal runs of non-whitespace bytes. */
  function Split(s: string): (ws: seq<string>)
    ensures forall w | w in ws :: w != [] && NoSpace(w)
    decreases |s|
  {
    if s == [] then []
    else if IsSpace(s[0]) then Split(s[1..])
    else
      var n := WordLength(s);
      [s[..n]] + Split(s[n..])
  }

  /** sep.join(ws). */
  function Join(sep: string, ws: seq<string>): string {
    if ws == [] then "" else if |ws| == 1 then ws[0] else ws[0] + sep + Join(sep, ws[1..])
  }

  /** Words that split() can return: non-empty and without whitespace. */
  predicate AreWords(ws: seq<string>) {
    forall i | 0 <= i < |ws| :: ws[i] != [] && NoSpace(ws[i])
  }

  /** A string with no whitespace but single spaces between words. */
  predicate Normalised(s: string) {
    s == Join(" ", Split(s))
  }

  lemma {:induction false} SplitSkipsSpaces(pre: string, s: string)
    requires forall i | 0 <= i < |pre| :: IsSpace(pre[i])
    ensures Split(pre + s) == Split(s)
    decreases |pre|
  {
    if pre == [] {
      assert pre + s == s;
    } else {
      assert (pre + s)[0] == pre[0];
      assert (pre + s)[1..] == pre[1..] + s;
      SplitSkipsSpaces(pre[1..], s);
    }
  }

  lemma {:induction false} WordLengthOfWord(w: string, rest: string)
    requires w != [] && NoSpace(w)
    requires rest == [] || IsSpace(rest[0])
    ensures WordLength(w + rest) == |w|
    decreases |w|
  {
    assert (w + rest)[1..] == w[1..] + rest;
    if |w| > 1 {
      WordLengthOfWord(w[1..], rest);
    }
  }

  /** Splitting words joined by single spaces gives the words back. */
  lemma {:induction false} SplitJoin(ws: seq<string>)
    requires AreWords(ws)
    ensures Split(Join(" ", ws)) == ws
    decreases |ws|
  {
    if |ws| == 1 {
      WordLengthOfWord(ws[0], []);
      assert ws[0] + [] == ws[0];
      assert ws[0][|ws[0]|..] == [];
    } else if |ws| > 1 {
      var rest := Join(" ", ws[1..]);
      var s := ws[0] + " " + rest;
      assert s == ws[0] + (" " + rest);
      WordLengthOfWord(ws[0], " " + rest);
      assert s[..|ws[0]|] == ws[0];
      assert s[|ws[0]|..] == " " + rest;
      assert !IsSpace(s[0]);
      SplitSkipsSpaces(" ", rest);
      SplitJoin(ws[1..]);
    }
  }

  /** Joining split() words with single spaces always gives a normalised string. */
  lemma {:induction false} JoinNormalised(ws: seq<string>)
    requires AreWords(ws)
    ensures Normalised(Join(" ", ws))
  {
    SplitJoin(ws);
  }

  lemma {:induction false} SplitAreWords(s: string)
    ensures AreWords(Split(s))
  {
  }

  /** Index of the first occurrence of c. */
  function IndexOf(s: string, c: char): (i: nat)
    requires c in s
    ensures i < |s| && s[i] == c && c !in s[..i]
  {
    if s[0] == c then 0 else 1 + IndexOf(s[1..], c)
  }

  /** The first c of a + b lies in b when a has none. */
  lemma {:induction false} IndexOfAppend(a: string, b: string, c: char)
    requires c !in a && c in b
    ensures c in a + b && IndexOf(a + b, c) == |a| + IndexOf(b, c)
  {
    if a == [] {
      assert a + b == b;
    } else {
      assert (a + b)[1..] == a[1..] + b;
      IndexOfAppend(a[1..], b, c);
    }
  }

  /** The first c of a + b is the first c of a when a has one. */
  lemma {:induction false} IndexOfPrefix(a: string, b: string, c: char)
    requires c in a
    ensures c in a + b && IndexOf(a + b, c) == IndexOf(a, c)
  {
    if a[0] != c {
      assert (a + b)[1..] == a[1..] + b;
      IndexOfPrefix(a[1..], b, c);
    }
  }

  /** str.split(c) for a one-byte separator. */
  function SplitOn(s: string, c: char): (parts: seq<string>)
    ensures |parts| >= 1
    ensures forall p | p in parts :: c !in p
    ensures c !in s ==> parts == [s]
    ensures c in s ==> parts[0] == s[..IndexOf(s, c)]
    decreases |s|
  {
    if c !in s then [s]
    else
      var i := IndexOf(s, c);
      [s[..i]] + SplitOn(s[i + 1..], c)
  }

  /** Splitting at a c splits the two sides independently. */
  lemma {:induction false} SplitOnJoin(p: string, q: string, c: char)
    ensures SplitOn(p + [c] + q, c) == SplitOn(p, c) + SplitOn(q, c)
    decreases |p|, 1
  {
    if c !in p {
      SplitOnFirst(p, q, c);
    } else {
      SplitOnJoinAfter(p, q, c);
    }
  }

  /** SplitOnJoin when p holds a c: its first piece stays in front. */
  lemma {:induction false} SplitOnJoinAfter(p: string, q: string, c: char)
    requires c in p
    ensures SplitOn(p + [c] + q, c) == SplitOn(p, c) + SplitOn(q, c)
    decreases |p|, 0
  {
    var i := IndexOf(p, c);
    var a := p[i + 1..];
    SplitOnInside(p, q, c, i, a);
    SplitOnJoin(a, q, c);
    Regroup(p[..i], SplitOn(a, c), SplitOn(q, c), SplitOn(p + [c] + q, c), SplitOn(a + [c] + q, c), SplitOn(p, c));
  }

  lemma {:induction false} SplitOnFirst(p: string, q: string, c: char)
    requires c !in p
    ensures SplitOn(p + [c] + q, c) == [p] + SplitOn(q, c)
  {
    var s := p + [c] + q;
    assert p + ([c] + q) == s;
    IndexOfAppend(p, [c] + q, c);
    assert s[..|p|] == p && s[|p| + 1..] == q;
  }

  lemma {:induction false} SplitOnInside(p: string, q: string, c: char, i: nat, a: string)
    requires c in p && i == IndexOf(p, c) && a == p[i + 1..]
    ensures SplitOn(p + [c] + q, c) == [p[..i]] + SplitOn(a + [c] + q, c)
    ensures SplitOn(p, c) == [p[..i]] + SplitOn(a, c)
  {
    var s := p + [c] + q;
    assert p + ([c] + q) == s;
    IndexOfPrefix(p, [c] + q, c);
    assert s[..i] == p[..i];
    assert s[i + 1..] == a + [c] + q;
  }

  lemma Regroup<T>(x: T, a: seq<T>, b: seq<T>, whole: seq<T>, rest: seq<T>, left: seq<T>)
    requires whole == [x] + rest && rest == a + b && left == [x] + a
    ensures whole == left + b
  {
  }

  /** Joining the pieces of str.split(c) with c restores the string. */
  lemma {:induction false} JoinSplitOn(s: string, c: char)
    ensures Join([c], SplitOn(s, c)) == s
    decreases |s|
  {
    if c in s {
      var i := IndexOf(s, c);
      var rest := SplitOn(s[i + 1..], c);
      assert SplitOn(s, c) == [s[..i]] + rest;
      JoinCons([c], s[..i], rest);
      JoinSplitOn(s[i + 1..], c);
      SplitAround(s, i);
    }
  }

  lemma {:induction false} ConcatAssoc(x: string, y: string, z: string)
    ensures (x + y) + z == x + (y + z)
  {
  }

  lemma {:induction false} SplitAround(s: string, i: nat)
    requires i < |s|
    ensures s == s[..i] + [s[i]] + s[i + 1..]
  {
  }

  lemma {:induction false} JoinCons(sep: string, w: string, ws: seq<string>)
    requires ws != []
    ensures Join(sep, [w] + ws) == w + sep + Join(sep, ws)
  {
    assert ([w] + ws)[1..] == ws;
  }

  /** Occurrences of c in s. */
  function Count(s: string, c: char): nat {
    if s == [] then 0 else (if s[0] == c then 1 else 0) + Count(s[1..], c)
  }

  /** s.replace(a, b) for one-byte a and b: every occurrence. */
  function ReplaceChar(s: string, a: char, b: char): (r: string)
    ensures |r| == |s|
    ensures forall i | 0 <= i < |s| :: r[i] == if s[i] == a then b else s[i]
  {
    seq(|s|, i requires 0 <= i < |s| => if s[i] == a then b else s[i])
  }

  /** s.replace(a, b, n) for one-byte a and b: the first n occurrences. */
  function ReplaceFirst(s: string, a: char, b: char, n: nat): (r: string)
    ensures |r| == |s|
    decreases |s|
  {
    if s == [] then []
    else if s[0] == a && n > 0 then [b] + ReplaceFirst(s[1..], a, b, n - 1)
    else [s[0]] + ReplaceFirst(s[1..], a, b, n)
  }

  /** s.replace(pat, rep) for a non-empty pat: left to right, without overlap. */
  function Replace(s: string, pat: string, rep: string): string
    requires pat != []
    decreases |s|
  {
    if |s| < |pat| then s
    else if s[..|pat|] == pat then rep + Replace(s[|pat|..], pat, rep)
    else [s[0]] + Replace(s[1..], pat, rep)
  }

  /** A pattern whose first byte does not occur leaves the string unchanged. */
  lemma {:induction false} ReplaceAbsent(s: string, pat: string, rep: string)
    requires pat != [] && pat[0] !in s
    ensures Replace(s, pat, rep) == s
    decreases |s|
  {
    if |s| >= |pat| {
      assert s[..|pat|][0] == s[0];
      ReplaceAbsent(s[1..], pat, rep);
      assert [s[0]] + s[1..] == s;
    }
  }

  function DigitValue(c: char): (d: nat)
    requires IsDigit(c)
    ensures d < 10
  {
    c as int - '0' as int
  }

  function DigitChar(d: nat): (c: char)
    requires d < 10
    ensures IsDigit(c) && DigitValue(c) == d
  {
    ('0' as int + d) as char
  }

  /** str.isdigit(): non-empty and every byte a decimal digit. */
  predicate IsDigits(s: string) {
    s != [] && forall i | 0 <= i < |s| :: IsDigit(s[i])
  }

  predicate AllDigits(s: string) {
    forall i | 0 <= i < |s| :: IsDigit(s[i])
  }

  function DigitsValue(s: string): nat
    requires AllDigits(s)
  {
    if s == [] then 0 else DigitsValue(s[..|s| - 1]) * 10 + DigitValue(s[|s| - 1])
  }

  /** str(n) for n >= 0. */
  function NatToString(n: nat): (r: string)
    ensures IsDigits(r) && NoSpace(r)
  {
    if n < 10 then [DigitChar(n)] else NatToString(n / 10) + [DigitChar(n % 10)]
  }

  /** str(n) and '%d' % n. */
  function IntToString(n: int): (r: string)
    ensures r != [] && NoSpace(r)
  {
    if n < 0 then "-" + NatToString(-n) else NatToString(n)
  }

  /**
   * int(s) of a Python 2 byte string, None where int() raises ValueError:
   * whitespace, an optional sign, whitespace again (Python 2 skips it after
   * the sign), at least one decimal digit, then whitespace. A NUL byte is
   * neither whitespace nor a digit and so is refused, as Python 2 refuses it.
   */
  function ParseInt(s: string): Option<int> {
    var t := Strip(s);
    if t != [] && (t[0] == '-' || t[0] == '+') then
      match ParseDigits(StripLeft(t[1..]))
      case Some(n) =>
        var v: int := if t[0] == '-' then -(n as int) else n as int;
        Some(v)
      case None => None
    else ParseDigits(t)
  }

  /** The value of a non-empty run of decimal digits; None for anything else. */
  function ParseDigits(d: string): (r: Option<nat>)
    ensures r.Some? <==> IsDigits(d)
  {
    if IsDigits(d) then Some(DigitsValue(d)) else None
  }

  lemma {:induction false} NatToStringValue(n: nat)
    ensures DigitsValue(NatToString(n)) == n
  {
    if n >= 10 {
      var s := NatToString(n);
      assert s[..|s| - 1] == NatToString(n / 10);
      NatToStringValue(n / 10);
    }
  }

  /** int(str(n)) == n. */
  lemma {:induction false} ParseIntToString(n: int)
    ensures ParseInt(IntToString(n)) == Some(n)
  {
    var s := IntToString(n);
    assert Strip(s) == s;
    if n < 0 {
      var d := NatToString(-n);
      NatToStringValue(-n);
      assert s == "-" + d;
      assert s[1..] == d;
      assert StripLeft(d) == d;
      assert ParseDigits(d) == Some(-n);
    } else {
      NatToStringValue(n);
      assert s[0] != '-' && s[0] != '+';
      assert ParseDigits(s) == Some(n);
    }
  }

  /** Left-pads a digit string with '0' to at least k bytes. */
  function PadDigits(d: string, k: nat): (r: string)
    ensures |r| == if |d| < k then k else |d|
  {
    if |d| < k then Repeat('0', k - |d|) + d else d
  }

  /** '%0<width>d' % n: zero padding goes after the sign. */
  function ZeroPad(n: int, width: nat): (r: string)
    ensures r != []
  {
    if n < 0 then "-" + PadDigits(NatToString(-n), if width > 0 then width - 1 else 0)
    else PadDigits(NatToString(n), width)
  }

  /** s[-k:] for k > 0: the last k bytes, or all of s when it is shorter (s[-0:] would be all of s). */
  function Last(s: string, k: nat): (r: string)
    requires k > 0
    ensures |r| == if |s| < k then |s| else k
    ensures r == s[|s| - |r|..]
  {
    if |s| <= k then s else s[|s| - k..]
  }
}
