/**
 * common.c: the C renamer's routines on NUL-terminated names held in char
 * arrays (old/renamer.c and mp3.c carry identical copies). Each routine
 * works in place, as in C, and is proved against a function on the string's
 * content: the characters before its first NUL.
 */
module CCommon {
  import opened PyStr
  import TD = TrackData

  const Nul: char := '\0'

  function Natural(n: int): nat {
    if n < 0 then 0 else n
  }

  /** The value of a byte read through a plain char, which is signed. */
  function SignedChar(c: char): (v: int)
    ensures -128 <= v < 128
    ensures v < 0 <==> Ord(c) >= 128
    ensures v % 256 == Ord(c)
  {
    if Ord(c) < 128 then Ord(c) else Ord(c) - 256
  }

  /** strlen(): the index of the first NUL, or the whole length when there is none. */
  function CLen(t: seq<char>): (n: nat)
    ensures n <= |t| && Nul !in t[..n]
    ensures n < |t| ==> t[n] == Nul
    ensures Nul in t ==> n < |t|
  {
    if Nul in t then IndexOf(t, Nul) else |t|
  }

  /** The C string a char buffer holds: everything before its first NUL. */
  function CStr(t: seq<char>): (r: string)
    ensures Nul !in r
  {
    t[..CLen(t)]
  }

  /** A NUL at n with none before it is where strlen() stops. */
  lemma CLenAt(t: seq<char>, n: nat)
    requires n < |t| && t[n] == Nul && Nul !in t[..n]
    ensures CLen(t) == n
  {
    assert t[n] in t;
  }

  /** Rewriting characters before the terminator with non-NULs keeps strlen(). */
  lemma CLenKept(t: seq<char>, u: seq<char>)
    requires |u| == |t| && Nul in t
    requires forall k | 0 <= k < CLen(t) :: u[k] != Nul
    requires u[CLen(t)] == Nul
    ensures CLen(u) == CLen(t)
  {
    var n := CLen(t);
    assert forall k | 0 <= k < n :: u[..n][k] == u[k];
    CLenAt(u, n);
  }

  // ---------------------------------------------------------------------
  // containsCharacter and charCopy

  /** containsCharacter(s, c, len): the first index below len holding c, or -1 when there is none. */
  method ContainsCharacter(s: array<char>, c: char, len: int) returns (r: int)
    requires len <= s.Length
    ensures r == -1 <==> forall k | 0 <= k < len :: s[k] != c
    ensures r != -1 ==> 0 <= r < len && s[r] == c && forall k | 0 <= k < r :: s[k] != c
  {
    var i := 0;
    while i < len
      invariant 0 <= i <= Natural(len)
      invariant forall k | 0 <= k < i :: s[k] != c
    {
      if s[i] == c {
        return i;
      }
      i := i + 1;
    }
    return -1;
  }

  /** The NULs that open t, which charCopy steps over before copying. */
  function LeadingNuls(t: seq<char>): (k: nat)
    ensures k <= |t|
    ensures forall i | 0 <= i < k :: t[i] == Nul
    ensures k < |t| ==> t[k] != Nul
    decreases |t|
  {
    if t == [] || t[0] != Nul then 0 else 1 + LeadingNuls(t[1..])
  }

  /** What charCopy(out, in, len) puts before the terminator: len bytes of in after its leading NULs. */
  function Copied(t: seq<char>, len: int): seq<char>
    requires LeadingNuls(t) + Natural(len) <= |t|
  {
    t[LeadingNuls(t)..LeadingNuls(t) + Natural(len)]
  }

  /**
   * charCopy(out, in, len). The skip over leading NULs must meet a non-NUL
   * inside the buffer and the copy must stay inside both buffers; a
   * negative len copies nothing and still writes the terminator at out[0].
   */
  method CharCopy(out: array<char>, inp: array<char>, len: int)
    requires out != inp
    requires LeadingNuls(inp[..]) < inp.Length
    requires LeadingNuls(inp[..]) + Natural(len) <= inp.Length
    requires Natural(len) < out.Length
    modifies out
    ensures out[..Natural(len)] == Copied(inp[..], len)
    ensures out[Natural(len)] == Nul
    ensures out[Natural(len) + 1..] == old(out[Natural(len) + 1..])
  {
    var p := 0;
    while inp[p] == Nul
      invariant 0 <= p <= LeadingNuls(inp[..])
      decreases inp.Length - p
    {
      p := p + 1;
    }
    var i := 0;
    while i < len
      invariant 0 <= i <= Natural(len)
      invariant out[..i] == inp[p..p + i]
      invariant out[i..] == old(out[i..])
    {
      out[i] := inp[p + i];
      i := i + 1;
    }
    out[i] := Nul;
  }

  // ---------------------------------------------------------------------
  // replaceCharacter

  /** Mode 1: count the '.'s, then turn all but the last into spaces. */
  function DotsButLastReplaced(t: string): string {
    ReplaceFirst(t, '.', ' ', Natural(Count(t, '.') - 1))
  }

  /** The content replaceCharacter(s, c, allButLast) leaves. */
  function CharacterReplaced(t: string, c: char, allButLast: bool): string {
    if allButLast then DotsButLastReplaced(t) else ReplaceChar(t, c, ' ')
  }

  /**
   * replaceCharacter(s, c, mode): the content becomes CharacterReplaced of
   * the old content; strlen() and the bytes from the terminator on do not change.
   */
  method ReplaceCharacter(s: array<char>, c: char, allButLast: bool)
    requires Nul in s[..]
    modifies s
    ensures CLen(s[..]) == CLen(old(s[..]))
    ensures CStr(s[..]) == CharacterReplaced(CStr(old(s[..])), c, allButLast)
    ensures s[CLen(s[..])..] == old(s[CLen(s[..])..])
  {
    if allButLast {
      ReplaceDots(s);
    } else {
      ReplaceEvery(s, c);
    }
  }

  method ReplaceEvery(s: array<char>, c: char)
    requires Nul in s[..]
    modifies s
    ensures CLen(s[..]) == CLen(old(s[..]))
    ensures CStr(s[..]) == ReplaceChar(CStr(old(s[..])), c, ' ')
    ensures s[CLen(s[..])..] == old(s[CLen(s[..])..])
  {
    ghost var t := s[..];
    ghost var n := CLen(t);
    var i := 0;
    while i < CLen(s[..])
      invariant 0 <= i <= n && CLen(s[..]) == n
      invariant forall k | 0 <= k < i :: s[k] == if t[k] == c then ' ' else t[k]
      invariant forall k | i <= k < s.Length :: s[k] == t[k]
    {
      if s[i] == c {
        s[i] := ' ';
      }
      i := i + 1;
      CLenKept(t, s[..]);
    }
    assert CStr(s[..]) == ReplaceChar(CStr(t), c, ' ');
    assert s[n..] == t[n..];
  }

  method ReplaceDots(s: array<char>)
    requires Nul in s[..]
    modifies s
    ensures CLen(s[..]) == CLen(old(s[..]))
    ensures CStr(s[..]) == DotsButLastReplaced(CStr(old(s[..])))
    ensures s[CLen(s[..])..] == old(s[CLen(s[..])..])
  {
    var count := CountDots(s);
    ReplaceLeadingDots(s, count);
  }

  /** The first loop of mode 1: the number of '.'s in the content. */
  method CountDots(s: array<char>) returns (count: nat)
    requires Nul in s[..]
    ensures count == Count(CStr(s[..]), '.')
  {
    ghost var t := s[..];
    count := 0;
    var i := 0;
    while i < CLen(s[..])
      invariant 0 <= i <= CLen(t)
      invariant count == Count(t[..i], '.')
    {
      CountStep(t, i);
      if s[i] == '.' {
        count := count + 1;
      }
      i := i + 1;
    }
  }

  /** The second loop of mode 1: while more than one '.' is counted, blank the next one. */
  method ReplaceLeadingDots(s: array<char>, count0: nat)
    requires Nul in s[..]
    modifies s
    ensures CLen(s[..]) == CLen(old(s[..]))
    ensures CStr(s[..]) == ReplaceFirst(CStr(old(s[..])), '.', ' ', Natural(count0 - 1))
    ensures s[CLen(s[..])..] == old(s[CLen(s[..])..])
  {
    ghost var t := s[..];
    ghost var n := CLen(t);
    ghost var m := Natural(count0 - 1);
    ghost var b := ReplaceFirst(t[..n], '.', ' ', m);
    ReplaceFirstAt(t[..n], m);
    var count: int := count0;
    var i := 0;
    while i < CLen(s[..]) && count > 1
      invariant 0 <= i <= n && CLen(s[..]) == n && count <= count0
      invariant count0 >= 1 ==> count - 1 == m - Count(t[..i], '.')
      invariant forall k | 0 <= k < i :: s[k] == b[k]
      invariant forall k | i <= k < s.Length :: s[k] == t[k]
    {
      assert t[..n][..i] == t[..i];
      CountStep(t, i);
      if s[i] == '.' {
        s[i] := ' ';
        count := count - 1;
      }
      i := i + 1;
      CLenKept(t, s[..]);
    }
    forall k | i <= k < n
      ensures t[k] == b[k]
    {
      assert t[..n][..k] == t[..k];
      if count0 >= 1 {
        CountGrows(t, i, k);
      }
    }
    assert CStr(s[..]) == b;
    assert s[n..] == t[n..];
  }

  /** Character k once the first m '.'s have become spaces. */
  function BlankedBefore(t: string, m: nat, k: nat): char
    requires k < |t|
  {
    if t[k] == '.' && Count(t[..k], '.') < m then ' ' else t[k]
  }

  lemma {:induction false} ReplaceFirstAt(t: string, m: nat)
    ensures forall k | 0 <= k < |t| :: ReplaceFirst(t, '.', ' ', m)[k] == BlankedBefore(t, m, k)
    decreases |t|
  {
    if t != [] {
      var m' := if t[0] == '.' && m > 0 then m - 1 else m;
      ReplaceFirstAt(t[1..], m');
      forall k | 1 <= k < |t|
        ensures ReplaceFirst(t, '.', ' ', m)[k] == BlankedBefore(t, m, k)
      {
        assert t[..k] == [t[0]] + t[1..][..k - 1];
        TD.CountAppend([t[0]], t[1..][..k - 1], '.');
        assert [t[0]][1..] == [];
      }
      assert t[..0] == [];
    }
  }

  lemma CountGrows(t: string, i: nat, k: nat)
    requires i <= k <= |t|
    ensures Count(t[..i], '.') <= Count(t[..k], '.')
  {
    assert t[..k] == t[..i] + t[i..k];
    TD.CountAppend(t[..i], t[i..k], '.');
  }

  lemma CountStep(t: string, i: nat)
    requires i < |t|
    ensures Count(t[..i + 1], '.') == Count(t[..i], '.') + if t[i] == '.' then 1 else 0
  {
    assert t[..i + 1] == t[..i] + [t[i]];
    TD.CountAppend(t[..i], [t[i]], '.');
    assert [t[i]][1..] == [];
  }

  /** Mode 1 keeps the last '.' and what follows it, and blanks every '.' before it. */
  lemma LastDotKept(p: string, q: string)
    requires '.' !in q
    ensures DotsButLastReplaced(p + "." + q) == ReplaceChar(p, '.', ' ') + "." + q
  {
    CountAbsent(q, '.');
    TD.CountAppend(p, "." + q, '.');
    TD.CountAppend(".", q, '.');
    assert ("." + q)[1..] == q;
    assert p + "." + q == p + ("." + q);
    TD.ReplaceFirstAll(p, "." + q, '.', ' ');
  }

  lemma {:induction false} CountAbsent(s: string, c: char)
    requires c !in s
    ensures Count(s, c) == 0
    decreases |s|
  {
    if s != [] {
      assert s[1..] == s[1..] && forall k | 0 <= k < |s[1..]| :: s[1..][k] == s[k + 1];
      CountAbsent(s[1..], c);
    }
  }

  /**
   * For a ".mp3" name, renameFiles' three replaceCharacter calls ('.' in
   * mode 1, then '_' and '-') leave what clean_string's separator step does.
   */
  lemma RenameStepsMatchCleanString(t: string)
    requires EndsWith(t, ".mp3")
    ensures CharacterReplaced(CharacterReplaced(CharacterReplaced(t, '.', true), '_', false), '-', false) ==
      TD.Separated(t)
  {
    TD.DotInMp3Name(t);
    var d := DotsButLastReplaced(t);
    assert d == TD.DotsReplaced(t);
    var x := ReplaceChar(ReplaceChar(d, '_', ' '), '-', ' ');
    var y := ReplaceChar(ReplaceChar(d, '-', ' '), '_', ' ');
    assert forall k | 0 <= k < |d| :: x[k] == y[k];
  }

  // ---------------------------------------------------------------------
  // removeDuplicateSpaces

  /**
   * The scan of removeDuplicateSpaces with n spaces pending before r: a run
   * of spaces that a non-space follows becomes one space, a run at the end
   * stays as it is.
   */
  function CollapsedFrom(n: nat, r: string): string
    decreases |r|
  {
    if r == [] then Repeat(' ', n)
    else if r[0] == ' ' then CollapsedFrom(n + 1, r[1..])
    else (if n > 0 then " " else "") + [r[0]] + CollapsedFrom(0, r[1..])
  }

  function Collapsed(t: string): string {
    CollapsedFrom(0, t)
  }

  /**
   * removeDuplicateSpaces(s): the content becomes Collapsed of the old content.
   * Each time a run of spaces ends before a non-space, the rest of the string,
   * terminator included, is shifted left over the extra spaces.
   */
  method RemoveDuplicateSpaces(s: array<char>)
    requires Nul in s[..]
    modifies s
    ensures Nul in s[..]
    ensures CStr(s[..]) == Collapsed(CStr(old(s[..])))
  {
    ghost var o := CStr(s[..]);
    ghost var done: string := [];
    ghost var rest := o;
    var i := 0;
    var spaces := 0;
    while i < CLen(s[..])
      invariant Nul in s[..]
      invariant i == |done| + spaces
      invariant CStr(s[..]) == done + Repeat(' ', spaces) + rest
      invariant Collapsed(o) == done + CollapsedFrom(spaces, rest)
      decreases |rest|
    {
      ghost var x := rest[0];
      RestAt(done, spaces, rest, s[..]);
      if s[i] == ' ' {
        SpaceStep(done, spaces, rest, CStr(s[..]), Collapsed(o));
        spaces := spaces + 1;
        rest := rest[1..];
      } else {
        if spaces > 1 {
          ShiftPrep(done, spaces, rest, CStr(s[..]), Collapsed(o));
          ShiftLeft(s, i, spaces - 1, done + " ", rest);
          i := i - (spaces - 1);
          CharClosesRun(1, rest);
          CharStep(done, Repeat(' ', 1), rest, CStr(s[..]), Collapsed(o), CollapsedFrom(1, rest), CollapsedFrom(0, rest[1..]));
          done := done + " " + [x];
        } else {
          CharClosesRun(spaces, rest);
          CharStep(done, Repeat(' ', spaces), rest, CStr(s[..]), Collapsed(o), CollapsedFrom(spaces, rest), CollapsedFrom(0, rest[1..]));
          done := done + Repeat(' ', spaces) + [x];
        }
        spaces := 0;
        rest := rest[1..];
      }
      i := i + 1;
    }
  }

  /** The scan's current character is the first of the unscanned rest. */
  lemma RestAt(done: string, spaces: nat, rest: string, t: seq<char>)
    requires Nul in t && |done| + spaces < CLen(t)
    requires CStr(t) == done + Repeat(' ', spaces) + rest
    ensures rest != [] && t[|done| + spaces] == rest[0]
  {
    var i := |done| + spaces;
    assert CStr(t)[i] == rest[0];
  }

  /** A space lengthens the pending run. */
  lemma SpaceStep(done: string, spaces: nat, rest: string, c: string, col: string)
    requires rest != [] && rest[0] == ' '
    requires c == done + Repeat(' ', spaces) + rest
    requires col == done + CollapsedFrom(spaces, rest)
    ensures c == done + Repeat(' ', spaces + 1) + rest[1..]
    ensures col == done + CollapsedFrom(spaces + 1, rest[1..])
  {
    assert Repeat(' ', spaces + 1) == Repeat(' ', spaces) + [' '];
    assert rest == [' '] + rest[1..];
  }

  /**
   * A non-space x after the pending spaces p: p and x join the finished part,
   * given that the scan's result f from here is p, x and then q.
   */
  lemma CharStep(done: string, p: string, rest: string, c: string, col: string, f: string, q: string)
    requires rest != [] && c == done + p + rest
    requires col == done + f && f == p + [rest[0]] + q
    ensures c == done + p + [rest[0]] + Repeat(' ', 0) + rest[1..]
    ensures col == done + p + [rest[0]] + q
  {
    assert rest == [rest[0]] + rest[1..];
    assert Repeat(' ', 0) == [];
  }

  lemma CharClosesRun(spaces: nat, rest: string)
    requires spaces <= 1 && rest != [] && rest[0] != ' '
    ensures CollapsedFrom(spaces, rest) == Repeat(' ', spaces) + [rest[0]] + CollapsedFrom(0, rest[1..])
  {
    assert Repeat(' ', spaces) == if spaces > 0 then " " else "";
  }

  /** A non-space after a longer run: the run is cut to one space by a shift. */
  lemma ShiftPrep(done: string, spaces: nat, rest: string, c: string, col: string)
    requires spaces > 1 && rest != [] && rest[0] != ' '
    requires c == done + Repeat(' ', spaces) + rest
    requires col == done + CollapsedFrom(spaces, rest)
    ensures Repeat(' ', 1) == " "
    ensures c == (done + " ") + Repeat(' ', spaces - 1) + rest
    ensures col == done + CollapsedFrom(1, rest)
  {
    assert Repeat(' ', spaces) == " " + Repeat(' ', spaces - 1);
  }

  /**
   * The inner loop of removeDuplicateSpaces: s[j - d] := s[j] for j from i
   * up to the terminator, which moves the rest of the string d places left.
   */
  method ShiftLeft(s: array<char>, i: int, d: int, ghost kept: string, ghost rest: string)
    requires 1 <= d && i == |kept| + d
    requires Nul in s[..] && CStr(s[..]) == kept + Repeat(' ', d) + rest
    modifies s
    ensures Nul in s[..] && CStr(s[..]) == kept + rest
  {
    ghost var a := s[..];
    ghost var l := CLen(a);
    assert l == |kept| + d + |rest|;
    var j := i;
    while j < CLen(s[..]) + 1
      invariant i <= j <= l + 1
      invariant CLen(s[..]) == if j <= l then l else l - d
      invariant forall k | 0 <= k < i - d :: s[k] == a[k]
      invariant forall k | i - d <= k < j - d :: s[k] == a[k + d]
      invariant forall k | j - d <= k < s.Length :: s[k] == a[k]
      decreases l + 1 - j
    {
      s[j - d] := s[j];
      j := j + 1;
      ShiftedLen(s[..], a, i, d, j, l);
    }
    ShiftedContent(s[..], a, kept, rest, d);
  }

  /** While the shift runs, the terminator stays at l; once it has moved, it sits d places earlier. */
  lemma ShiftedLen(u: seq<char>, a: seq<char>, i: int, d: int, j: int, l: nat)
    requires 1 <= d <= i <= l && i <= j <= l + 1 && |u| == |a| && Nul in a && CLen(a) == l
    requires forall k | 0 <= k < i - d :: u[k] == a[k]
    requires forall k | i - d <= k < j - d :: u[k] == a[k + d]
    requires forall k | j - d <= k < |u| :: u[k] == a[k]
    ensures CLen(u) == if j <= l then l else l - d
  {
    var e: nat := if j <= l then l else l - d;
    assert a[l] == Nul;
    if j <= l {
      assert u[e] == a[l];
    } else {
      assert u[e] == a[e + d];
    }
    forall k | 0 <= k < e
      ensures u[k] != Nul
    {
      if k < i - d {
        assert u[k] == a[k] && a[k] in a[..l];
      } else if k < j - d {
        assert u[k] == a[k + d] && a[k + d] in a[..l];
      } else {
        assert u[k] == a[k] && a[k] in a[..l];
      }
    }
    CLenAt(u, e);
  }

  lemma ShiftedContent(u: seq<char>, a: seq<char>, kept: string, rest: string, d: int)
    requires 1 <= d && |u| == |a| && Nul in a
    requires CStr(a) == kept + Repeat(' ', d) + rest
    requires CLen(u) == CLen(a) - d
    requires forall k | 0 <= k < |kept| :: u[k] == a[k]
    requires forall k | |kept| <= k < CLen(a) - d :: u[k] == a[k + d]
    ensures CStr(u) == kept + rest
  {
    var c := CStr(a);
    forall k | 0 <= k < |kept| + |rest|
      ensures CStr(u)[k] == (kept + rest)[k]
    {
      if k < |kept| {
        assert u[k] == c[k];
      } else {
        assert u[k] == c[k + d];
      }
    }
  }

  // ---------------------------------------------------------------------
  // fixCapitals

  /** Whether t[i] opens a word: it is not a space and follows a space or the start. */
  predicate OpensWord(t: string, i: nat)
    requires i < |t|
  {
    t[i] != ' ' && (i == 0 || t[i - 1] == ' ')
  }

  /** fixCapitals on one character: a-z opening a word goes up, A-Z elsewhere goes down. */
  function CapitalChar(t: string, i: nat): char
    requires i < |t|
  {
    if OpensWord(t, i) then UpperChar(t[i]) else LowerChar(t[i])
  }

  function Capitalised(t: string): (r: string)
    ensures |r| == |t|
  {
    seq(|t|, i requires 0 <= i < |t| => CapitalChar(t, i))
  }

  /** fixCapitals(s): the content becomes Capitalised of the old content; nothing else changes. */
  method FixCapitals(s: array<char>)
    requires Nul in s[..]
    modifies s
    ensures CLen(s[..]) == CLen(old(s[..]))
    ensures CStr(s[..]) == Capitalised(CStr(old(s[..])))
    ensures s[CLen(s[..])..] == old(s[CLen(s[..])..])
  {
    ghost var t := s[..];
    ghost var n := CLen(t);
    ghost var content := t[..n];
    var i := 0;
    var newWord := true;
    while i < CLen(s[..])
      invariant 0 <= i <= n && CLen(s[..]) == n
      invariant newWord == (i == 0 || t[i - 1] == ' ')
      invariant forall k | 0 <= k < i :: s[k] == CapitalChar(content, k)
      invariant forall k | i <= k < s.Length :: s[k] == t[k]
    {
      if s[i] == ' ' {
        newWord := true;
      } else if newWord {
        if 'a' <= s[i] <= 'z' {
          s[i] := (s[i] as int - 32) as char;
        }
        newWord := false;
      } else {
        if 'A' <= s[i] <= 'Z' {
          s[i] := (s[i] as int + 32) as char;
        }
      }
      i := i + 1;
      CLenKept(t, s[..]);
    }
    assert CStr(s[..]) == Capitalised(content);
    assert s[n..] == t[n..];
  }

  /** Capitalising words joined by a space capitalises each side. */
  lemma CapitalisedAround(a: string, b: string)
    ensures Capitalised(a + " " + b) == Capitalised(a) + " " + Capitalised(b)
  {
    var t := a + " " + b;
    var r := Capitalised(a) + " " + Capitalised(b);
    forall k | 0 <= k < |t|
      ensures Capitalised(t)[k] == r[k]
    {
      if k < |a| {
        assert t[k] == a[k] && (k > 0 ==> t[k - 1] == a[k - 1]);
      } else if k > |a| {
        assert t[k] == b[k - |a| - 1];
        assert k - 1 > |a| ==> t[k - 1] == b[k - |a| - 2];
      }
    }
  }

  /** The capitalisation clean_string gives each word: upper first letter, lower rest. */
  function WordsCapitalised(ws: seq<string>): (r: seq<string>)
    ensures |r| == |ws|
  {
    seq(|ws|, i requires 0 <= i < |ws| => TD.Capitalise(Lower(ws[i])))
  }

  /**
   * fixCapitals on words joined by single spaces capitalises every word the
   * way clean_string does, without its and/at/of/or/the exceptions.
   */
  lemma {:induction false} CapitalisedJoin(ws: seq<string>)
    requires AreWords(ws)
    ensures Capitalised(Join(" ", ws)) == Join(" ", WordsCapitalised(ws))
    decreases |ws|
  {
    if |ws| == 1 {
      CapitalisedWord(ws[0]);
    } else if |ws| > 1 {
      var tail := ws[1..];
      CapitalisedWord(ws[0]);
      CapitalisedAround(ws[0], Join(" ", tail));
      CapitalisedJoin(tail);
      assert WordsCapitalised(ws)[1..] == WordsCapitalised(tail);
    }
  }

  lemma CapitalisedWord(w: string)
    requires w != [] && NoSpace(w)
    ensures Capitalised(w) == TD.Capitalise(Lower(w))
  {
    var r := TD.Capitalise(Lower(w));
    forall k | 0 <= k < |w|
      ensures Capitalised(w)[k] == r[k]
    {
      assert !IsSpace(w[k]);
      if k > 0 {
        assert !IsSpace(w[k - 1]);
      }
    }
  }

  // ---------------------------------------------------------------------
  // Partners of removeDuplicateSpaces

  /** The characters of t that are not spaces, in order. */
  function NonSpaces(t: string): string
    decreases |t|
  {
    if t == [] then []
    else if t[0] == ' ' then NonSpaces(t[1..])
    else [t[0]] + NonSpaces(t[1..])
  }

  /** Collapsing keeps every non-space character, in order. */
  lemma {:induction false} CollapsedKeepsNonSpaces(n: nat, r: string)
    ensures NonSpaces(CollapsedFrom(n, r)) == NonSpaces(r)
    decreases |r|
  {
    if r == [] {
      SpacesOnly(n);
    } else if r[0] == ' ' {
      CollapsedKeepsNonSpaces(n + 1, r[1..]);
    } else {
      CollapsedKeepsNonSpaces(0, r[1..]);
      var pre: string := if n > 0 then " " else "";
      NonSpacesAppend(pre + [r[0]], CollapsedFrom(0, r[1..]));
      NonSpacesAppend(pre, [r[0]]);
      assert NonSpaces(pre) == [];
    }
  }

  lemma {:induction false} SpacesOnly(n: nat)
    ensures NonSpaces(Repeat(' ', n)) == []
    decreases n
  {
    if n > 0 {
      assert Repeat(' ', n)[1..] == Repeat(' ', n - 1);
      SpacesOnly(n - 1);
    }
  }

  lemma {:induction false} NonSpacesAppend(a: string, b: string)
    ensures NonSpaces(a + b) == NonSpaces(a) + NonSpaces(b)
    decreases |a|
  {
    if a == [] {
      assert a + b == b;
    } else {
      assert (a + b)[1..] == a[1..] + b;
      NonSpacesAppend(a[1..], b);
    }
  }

  /** Every character of t from index k on is a space. */
  predicate SpacesFrom(t: string, k: nat) {
    forall m | k <= m < |t| :: t[m] == ' '
  }

  /** Two spaces in a row only inside the final run of spaces. */
  predicate SingleSpaced(t: string) {
    forall k: nat | k + 1 < |t| && t[k] == ' ' && t[k + 1] == ' ' :: SpacesFrom(t, k)
  }

  /** After removeDuplicateSpaces no two spaces are adjacent except in a trailing run. */
  lemma {:induction false} CollapsedSingleSpaced(n: nat, r: string)
    ensures SingleSpaced(CollapsedFrom(n, r))
    decreases |r|
  {
    if r != [] && r[0] == ' ' {
      CollapsedSingleSpaced(n + 1, r[1..]);
    } else if r != [] {
      CollapsedSingleSpaced(0, r[1..]);
      var tail := CollapsedFrom(0, r[1..]);
      var pre := (if n > 0 then " " else "") + [r[0]];
      var t := pre + tail;
      assert t == CollapsedFrom(n, r);
      forall k: nat | k + 1 < |t| && t[k] == ' ' && t[k + 1] == ' '
        ensures SpacesFrom(t, k)
      {
        assert k >= |pre|;
        assert tail[k - |pre|] == ' ' && tail[k - |pre| + 1] == ' ';
        assert SpacesFrom(tail, k - |pre|);
      }
    }
  }
}
