/**
 * ID3v2.py: the ID3v2 tag reader (ID3v2.2.0, ID3v2.3.0 and ID3v2.4.0) and the
 * ID3v2.3.0 tag writer. A file is the string of its bytes; reading n bytes at a
 * cursor is the clipped slice there, and every exception the source raises is
 * a Failure.
 */
module ID3v2 {
  import opened Wrappers
  import opened PyStr
  import opened ID3v2Ids
  import TrackData

  /** Why a read or a write raised. */
  datatype Error =
    | NotATag             // the data does not start with "ID3"
    | BadVersion          // major version outside 2..4, or minor version 0xFF
    | UnknownFlags        // a flag bit the version does not define is set
    | BadSyncsafe         // a byte of a syncsafe integer has its top bit set
    | ZeroSize            // the tag header gives a body size of 0
    | Truncated           // the data ends before a byte the source indexes
    | BadExtendedVersion  // an extended header on a version without one
    | BadFrameVersion     // a frame header of an unknown version
    | UnknownFrameId      // a frame ID the version does not define
    | MissingText         // a text field to write is None
    | BadText             // the frame text does not decode in its encoding
    | CorruptedHeader     // an existing tag header fails the writer's own check

  // ---------------------------------------------------------------------
  // Integers (section 6.2 of ID3v2.4.0 for the syncsafe form)

  predicate SyncsafeBytes(b: string)
    requires |b| == 4
  {
    forall i | 0 <= i < 4 :: Ord(b[i]) < 0x80
  }

  /** _read_32bit_syncsafe: 7 bits from each byte, refused when any top bit is set. */
  function ReadSyncsafe32(b: string): (r: Result<nat, Error>)
    requires |b| == 4
    ensures r.Success? <==> SyncsafeBytes(b)
    ensures r.Failure? ==> r.error == BadSyncsafe
    ensures r.Success? ==> r.value < 0x1000_0000
  {
    if !SyncsafeBytes(b) then Failure(BadSyncsafe)
    else Success(Ord(b[0]) * 0x20_0000 + Ord(b[1]) * 0x4000 + Ord(b[2]) * 0x80 + Ord(b[3]))
  }

  /** _read_32bit_nonsyncsafe: big-endian. */
  function ReadPlain32(b: string): (r: nat)
    requires |b| == 4
    ensures r < 0x1_0000_0000
  {
    Ord(b[0]) * 0x100_0000 + Ord(b[1]) * 0x1_0000 + Ord(b[2]) * 0x100 + Ord(b[3])
  }

  /** _read_24bit_nonsyncsafe: big-endian. */
  function Read24(b: string): (r: nat)
    requires |b| == 3
    ensures r < 0x100_0000
  {
    Ord(b[0]) * 0x1_0000 + Ord(b[1]) * 0x100 + Ord(b[2])
  }

  /** _read_16bit_nonsyncsafe: big-endian. */
  function Read16(b: string): (r: nat)
    requires |b| == 2
    ensures r < 0x1_0000
  {
    Ord(b[0]) * 0x100 + Ord(b[1])
  }

  /** The writer's size string: 7 bits per byte, most significant first, of n mod 2^28. */
  function SyncsafeString(n: nat): (r: string)
    ensures |r| == 4 && SyncsafeBytes(r) && IsByteString(r)
  {
    [Chr((n / 0x20_0000) % 0x80), Chr((n / 0x4000) % 0x80), Chr((n / 0x80) % 0x80), Chr(n % 0x80)]
  }

  /** The writer's big-endian size string of n mod 2^32. */
  function BigEndian32(n: nat): (r: string)
    ensures |r| == 4 && IsByteString(r)
  {
    [Chr((n / 0x100_0000) % 0x100), Chr((n / 0x1_0000) % 0x100), Chr((n / 0x100) % 0x100), Chr(n % 0x100)]
  }

  /** Splitting the digit at 2^21 off n modulo 2^28. */
  lemma {:induction false} Mod28Split(n: nat)
    ensures n % 0x1000_0000 == ((n / 0x20_0000) % 0x80) * 0x20_0000 + n % 0x20_0000
  {
    var q := n / 0x1000_0000;
    assert n == q * 0x1000_0000 + n % 0x1000_0000;
    var m := n % 0x1000_0000;
    assert m == (m / 0x20_0000) * 0x20_0000 + m % 0x20_0000 && m / 0x20_0000 < 0x80;
    assert n / 0x20_0000 == q * 0x80 + m / 0x20_0000;
    assert n % 0x20_0000 == m % 0x20_0000;
  }

  /** Splitting the digit at 2^14 off n modulo 2^21. */
  lemma {:induction false} Mod21Split(n: nat)
    ensures n % 0x20_0000 == ((n / 0x4000) % 0x80) * 0x4000 + n % 0x4000
  {
    var q := n / 0x20_0000;
    assert n == q * 0x20_0000 + n % 0x20_0000;
    var m := n % 0x20_0000;
    assert m == (m / 0x4000) * 0x4000 + m % 0x4000 && m / 0x4000 < 0x80;
    assert n / 0x4000 == q * 0x80 + m / 0x4000;
    assert n % 0x4000 == m % 0x4000;
  }

  /** Splitting the digit at 2^7 off n modulo 2^14. */
  lemma {:induction false} Mod14Split(n: nat)
    ensures n % 0x4000 == ((n / 0x80) % 0x80) * 0x80 + n % 0x80
  {
    var q := n / 0x4000;
    assert n == q * 0x4000 + n % 0x4000;
    var m := n % 0x4000;
    assert m == (m / 0x80) * 0x80 + m % 0x80 && m / 0x80 < 0x80;
    assert n / 0x80 == q * 0x80 + m / 0x80;
    assert n % 0x80 == m % 0x80;
  }

  /** Four base-128 digits of n make up n modulo 2^28. */
  lemma {:induction false} Base128Digits(n: nat)
    ensures n % 0x1000_0000 == ((n / 0x20_0000) % 0x80) * 0x20_0000 + ((n / 0x4000) % 0x80) * 0x4000
                               + ((n / 0x80) % 0x80) * 0x80 + n % 0x80
  {
    Mod28Split(n);
    Mod21Split(n);
    Mod14Split(n);
  }

  /** Reading back the writer's syncsafe size gives the size modulo 2^28. */
  lemma {:induction false} SyncsafeRoundTrip(n: nat)
    ensures ReadSyncsafe32(SyncsafeString(n)) == Success(n % 0x1000_0000)
  {
    var b := SyncsafeString(n);
    assert Ord(b[0]) == (n / 0x20_0000) % 0x80 && Ord(b[1]) == (n / 0x4000) % 0x80;
    assert Ord(b[2]) == (n / 0x80) % 0x80 && Ord(b[3]) == n % 0x80;
    Base128Digits(n);
  }

  /** Every valid syncsafe byte string is the writer's encoding of the value it reads as. */
  lemma {:induction false} SyncsafeCanonical(b: string)
    requires |b| == 4 && IsByteString(b) && SyncsafeBytes(b)
    ensures SyncsafeString(ReadSyncsafe32(b).value) == b
  {
    var n := ReadSyncsafe32(b).value;
    SevenBitDigits(Ord(b[0]), Ord(b[1]), Ord(b[2]), Ord(b[3]));
    assert SyncsafeString(n)[0] == b[0];
  }

  /** The four seven-bit digits of a syncsafe value are the bytes it was read from. */
  lemma {:induction false} SevenBitDigits(a: nat, b: nat, c: nat, d: nat)
    requires a < 0x80 && b < 0x80 && c < 0x80 && d < 0x80
    ensures var n := a * 0x20_0000 + b * 0x4000 + c * 0x80 + d;
      n % 0x80 == d && (n / 0x80) % 0x80 == c && (n / 0x4000) % 0x80 == b && (n / 0x20_0000) % 0x80 == a
  {
    var n := a * 0x20_0000 + b * 0x4000 + c * 0x80 + d;
    DivModDigit(a * 0x4000 + b * 0x80 + c, d);
    DivModDigit(a * 0x80 + b, c);
    DivModDigit(a, b);
    DivModDigit(0, a);
    assert n / 0x4000 == (n / 0x80) / 0x80;
    assert n / 0x20_0000 == ((n / 0x80) / 0x80) / 0x80;
  }

  lemma {:induction false} DivModDigit(q: nat, r: nat)
    requires r < 0x80
    ensures (q * 0x80 + r) / 0x80 == q && (q * 0x80 + r) % 0x80 == r
  {
  }

  /** Splitting the digit at 2^24 off n modulo 2^32. */
  lemma {:induction false} Mod32Split(n: nat)
    ensures n % 0x1_0000_0000 == ((n / 0x100_0000) % 0x100) * 0x100_0000 + n % 0x100_0000
  {
    var q := n / 0x1_0000_0000;
    assert n == q * 0x1_0000_0000 + n % 0x1_0000_0000;
    var m := n % 0x1_0000_0000;
    assert m == (m / 0x100_0000) * 0x100_0000 + m % 0x100_0000 && m / 0x100_0000 < 0x100;
    assert n / 0x100_0000 == q * 0x100 + m / 0x100_0000;
    assert n % 0x100_0000 == m % 0x100_0000;
  }

  /** Splitting the digit at 2^16 off n modulo 2^24. */
  lemma {:induction false} Mod24Split(n: nat)
    ensures n % 0x100_0000 == ((n / 0x1_0000) % 0x100) * 0x1_0000 + n % 0x1_0000
  {
    var q := n / 0x100_0000;
    assert n == q * 0x100_0000 + n % 0x100_0000;
    var m := n % 0x100_0000;
    assert m == (m / 0x1_0000) * 0x1_0000 + m % 0x1_0000 && m / 0x1_0000 < 0x100;
    assert n / 0x1_0000 == q * 0x100 + m / 0x1_0000;
    assert n % 0x1_0000 == m % 0x1_0000;
  }

  /** Splitting the digit at 2^8 off n modulo 2^16. */
  lemma {:induction false} Mod16Split(n: nat)
    ensures n % 0x1_0000 == ((n / 0x100) % 0x100) * 0x100 + n % 0x100
  {
    var q := n / 0x1_0000;
    assert n == q * 0x1_0000 + n % 0x1_0000;
    var m := n % 0x1_0000;
    assert m == (m / 0x100) * 0x100 + m % 0x100 && m / 0x100 < 0x100;
    assert n / 0x100 == q * 0x100 + m / 0x100;
    assert n % 0x100 == m % 0x100;
  }

  /** Four base-256 digits of n make up n modulo 2^32. */
  lemma {:induction false} Base256Digits(n: nat)
    ensures n % 0x1_0000_0000 == ((n / 0x100_0000) % 0x100) * 0x100_0000 + ((n / 0x1_0000) % 0x100) * 0x1_0000
                                 + ((n / 0x100) % 0x100) * 0x100 + n % 0x100
  {
    Mod32Split(n);
    Mod24Split(n);
    Mod16Split(n);
  }

  /** Reading back the writer's big-endian size gives the size modulo 2^32. */
  lemma {:induction false} BigEndianRoundTrip(n: nat)
    ensures ReadPlain32(BigEndian32(n)) == n % 0x1_0000_0000
  {
    var b := BigEndian32(n);
    assert Ord(b[0]) == (n / 0x100_0000) % 0x100 && Ord(b[1]) == (n / 0x1_0000) % 0x100;
    assert Ord(b[2]) == (n / 0x100) % 0x100 && Ord(b[3]) == n % 0x100;
    Base256Digits(n);
  }

  // ---------------------------------------------------------------------
  // Tag header (section 3.1 of ID3v2.3.0 and of ID3v2.4.0)

  /** The flag bits each version defines for the tag header. */
  function TagFlagMask(version: nat): bv8 {
    if version == 2 then 0xC0 else if version == 3 then 0xE0 else 0xF0
  }

  /** A decoded tag header; the header itself is always 10 bytes. */
  datatype TagHeader = TagHeader(version: nat, minor: nat, flags: bv8, bodySize: nat) {
    function ExtendedHeaderSize(): nat {
      if version == 2 then 0 else if version == 3 then 10 else 6
    }

    function FrameHeaderSize(): nat {
      if version == 2 then 6 else 10
    }

    /** Only ID3v2.3 and ID3v2.4 define the extended-header flag (0x40). */
    predicate HasExtendedHeader() {
      version != 2 && flags & 0x40 != 0
    }

    function TotalSize(): nat {
      10 + bodySize
    }
  }

  /** The ten header bytes the source accepts, stated field by field. */
  predicate ValidTagHeader(h: string) {
    |h| >= 10 && h[..3] == "ID3" && 2 <= Ord(h[3]) <= 4 && Ord(h[4]) != 0xFF &&
    (Ord(h[5]) as bv8) & !TagFlagMask(Ord(h[3])) == 0 &&
    SyncsafeBytes(h[6..10]) && ReadSyncsafe32(h[6..10]).value != 0
  }

  /** _TagHeader(): the checks in the source's order, each raising its own exception. */
  function ParseTagHeader(h: string): (r: Result<TagHeader, Error>)
    ensures Slice(h, 0, 3) != "ID3" ==> r == Failure(NotATag)
    ensures r.Success? <==> ValidTagHeader(h)
    ensures r.Success? ==>
      && r.value.version == Ord(h[3]) && r.value.minor == Ord(h[4])
      && r.value.flags == Ord(h[5]) as bv8 && r.value.bodySize == ReadSyncsafe32(h[6..10]).value
    ensures r.Success? ==> 2 <= r.value.version <= 4 && 0 < r.value.bodySize < 0x1000_0000
  {
    if Slice(h, 0, 3) != "ID3" then Failure(NotATag)
    else if |h| < 5 then Failure(Truncated)
    else if Ord(h[3]) < 2 || Ord(h[3]) > 4 || Ord(h[4]) == 0xFF then Failure(BadVersion)
    else if |h| < 6 then Failure(Truncated)
    else if (Ord(h[5]) as bv8) & !TagFlagMask(Ord(h[3])) != 0 then Failure(UnknownFlags)
    else if |h| < 10 then Failure(Truncated)
    else
      var size :- ReadSyncsafe32(h[6..10]);
      if size == 0 then Failure(ZeroSize)
      else Success(TagHeader(Ord(h[3]), Ord(h[4]), Ord(h[5]) as bv8, size))
  }

  /** The ten bytes the writer puts in front of an ID3v2.3.0 tag body of n bytes. */
  function WrittenHeader(n: nat): (r: string)
    ensures |r| == 10
  {
    "ID3" + [Chr(3), Chr(0), Chr(0)] + SyncsafeString(n)
  }

  /** The writer's header reads back as version 2.3.0, no flags, and the body size. */
  lemma {:induction false} WrittenHeaderParses(n: nat)
    requires 0 < n < 0x1000_0000
    ensures ParseTagHeader(WrittenHeader(n)) == Success(TagHeader(3, 0, 0, n))
  {
    var h := WrittenHeader(n);
    assert h[..3] == "ID3";
    assert h[6..10] == SyncsafeString(n);
    SyncsafeRoundTrip(n);
  }

  /** A header the source accepts is fully determined by its decoded fields. */
  lemma {:induction false} TagHeaderCanonical(h: string)
    requires IsByteString(h) && ParseTagHeader(h).Success?
    ensures var t := ParseTagHeader(h).value;
      h[..10] == "ID3" + [Chr(t.version), Chr(t.minor), Chr(t.flags as nat)] + SyncsafeString(t.bodySize)
  {
    var t := ParseTagHeader(h).value;
    SyncsafeCanonical(h[6..10]);
    assert (t.flags as nat) == Ord(h[5]);
    assert h[..10] == h[..3] + [h[3], h[4], h[5]] + h[6..10];
  }

  /** calculate_tag_size: the whole tag, header included; 0 when there is no tag. */
  function CalculateTagSize(f: string): (r: Result<nat, Error>)
    ensures Slice(f, 0, 3) != "ID3" ==> r == Success(0)
    ensures Slice(f, 0, 3) == "ID3" ==> (r.Success? <==> ValidTagHeader(f))
    ensures r.Success? && r.value != 0 ==> 10 < r.value < 0x1000_000A
  {
    var header := Slice(f, 0, 10);
    HeaderOfFile(f);
    if Slice(header, 0, 3) == "ID3" then
      var tag :- ParseTagHeader(header);
      Success(tag.TotalSize())
    else Success(0)
  }

  /** The first ten bytes of a file hold its tag header, and its first three bytes the marker. */
  lemma {:induction false} HeaderOfFile(f: string)
    ensures Slice(Slice(f, 0, 10), 0, 3) == Slice(f, 0, 3)
    ensures ValidTagHeader(Slice(f, 0, 10)) <==> ValidTagHeader(f)
  {
    var h := Slice(f, 0, 10);
    if |f| >= 10 {
      assert h[..3] == f[..3] && h[6..10] == f[6..10];
      assert h[3] == f[3] && h[4] == f[4] && h[5] == f[5];
    }
  }

  // ---------------------------------------------------------------------
  // Extended header (section 3.2 of ID3v2.3.0 and of ID3v2.4.0)

  /** A decoded extended header; bodySize is how far the reader then skips. */
  datatype ExtendedHeader = ExtendedHeader(headerSize: nat, bodySize: int, flags: nat)

  /** _TagExtendedHeader(): x is what was read, up to the version's extended-header size. */
  function ParseExtendedHeader(version: nat, x: string): (r: Result<ExtendedHeader, Error>)
    ensures version != 3 && version != 4 ==> r == Failure(BadExtendedVersion)
    ensures r.Success? ==> |x| >= 6
    ensures r.Success? && version == 3 ==>
      && r.value.headerSize == 10 && r.value.bodySize == ReadPlain32(x[..4])
      && r.value.flags == Read16(x[4..6]) && (r.value.flags as bv16) & !0x8000 == 0
    ensures version == 3 && |x| >= 6 && (Read16(x[4..6]) as bv16) & !0x8000 != 0 ==> r == Failure(UnknownFlags)
    ensures r.Success? && version == 4 ==>
      && r.value.headerSize == 6 && ReadSyncsafe32(x[..4]).Success?
      && r.value.bodySize == ReadSyncsafe32(x[..4]).value - 6
      && r.value.flags == Ord(x[5]) && (r.value.flags as bv8) & !0x70 == 0
    ensures version == 4 && |x| >= 6 && (Ord(x[5]) as bv8) & !0x70 != 0 ==> r.Failure?
    ensures r.Success? ==> r.value.bodySize >= -6
  {
    if version == 3 then
      if |x| < 6 then Failure(Truncated)
      else
        var flags := Read16(x[4..6]);
        if (flags as bv16) & !0x8000 != 0 then Failure(UnknownFlags)
        else Success(ExtendedHeader(10, ReadPlain32(x[..4]), flags))
    else if version == 4 then
      if |x| < 4 then Failure(Truncated)
      else
        var size :- ReadSyncsafe32(x[..4]);
        if |x| < 6 then Failure(Truncated)
        else if (Ord(x[5]) as bv8) & !0x70 != 0 then Failure(UnknownFlags)
        else Success(ExtendedHeader(6, size - 6, Ord(x[5])))
    else Failure(BadExtendedVersion)
  }

  // ---------------------------------------------------------------------
  // Frame headers (section 3.2 of ID3v2.2.0, section 3.3.1 of ID3v2.3.0 and
  // section 4.1 of ID3v2.4.0)

  /** The frame IDs each version defines. */
  function ValidIds(version: nat): seq<string> {
    if version == 2 then V22Ids else if version == 3 then V23Ids else V24Ids
  }

  /** An ID the version accepts as it is: experimental, or in the version's table. */
  predicate KnownId(version: nat, id: string) {
    IsExperimental(id) || id in ValidIds(version)
  }

  /**
   * The ID check of _FrameHeader(): a known ID is kept; an ID3v2.3 ID whose first
   * three bytes are an ID3v2.2 ID is renamed to that ID's ID3v2.3 form; any other
   * ID is refused (None).
   */
  function AcceptId(version: nat, id: string): (r: Option<string>)
    requires version == 3 ==> |id| >= 3
  {
    if KnownId(version, id) then Some(id)
    else if version == 3 && id[..3] in V22ToV23 then Some(V22ToV23[id[..3]])
    else None
  }

  /** An accepted ID is always one the version knows, and only ID3v2.3 renames. */
  lemma {:induction false} AcceptIdSound(version: nat, id: string)
    requires version == 3 ==> |id| >= 3
    ensures KnownId(version, id) ==> AcceptId(version, id) == Some(id)
    ensures AcceptId(version, id).Some? ==> KnownId(version, AcceptId(version, id).value)
    ensures AcceptId(version, id).Some? && AcceptId(version, id).value != id ==>
      version == 3 && id[..3] in V22Ids && AcceptId(version, id).value == V22ToV23[id[..3]]
    ensures AcceptId(version, id).None? <==>
      !KnownId(version, id) && !(version == 3 && id[..3] in V22Ids)
  {
    if !KnownId(version, id) && version == 3 {
      V22Renamable();
      RenamedIdsAreV23();
    }
  }

  /** The flag bits each version defines for a frame header; ID3v2.2 frames have none. */
  function FrameFlagMask(version: nat): bv16 {
    if version == 3 then 0xE0E0 else if version == 4 then 0x704F else 0
  }

  /** A decoded frame header: the (possibly renamed) ID, where the body starts and its size. */
  datatype FrameHeader = FrameHeader(id: string, bodyOffset: nat, headerSize: nat, bodySize: nat, flags: bv16)

  /** The raw ID bytes of a frame header. */
  function RawId(version: nat, h: string): string {
    Slice(h, 0, if version == 2 then 3 else 4)
  }

  /**
   * _FrameHeader(): the size first, then the ID check, then the flags. A body
   * size of 0 is accepted (the source only warns).
   */
  function ParseFrameHeader(version: nat, h: string, offset: nat): (r: Result<FrameHeader, Error>)
    ensures version !in {2, 3, 4} ==> r == Failure(BadFrameVersion)
    ensures r.Success? ==> |h| >= (if version == 2 then 6 else 10) && r.value.bodyOffset == offset
    ensures r.Success? ==> r.value.headerSize == (if version == 2 then 6 else 10)
    ensures r.Success? ==> AcceptId(version, RawId(version, h)) == Some(r.value.id)
    ensures r.Success? ==> r.value.flags & !FrameFlagMask(version) == 0
    ensures r.Success? && version == 2 ==> r.value.headerSize == 6 && r.value.bodySize == Read24(h[3..6])
    ensures r.Success? && version == 3 ==> r.value.headerSize == 10 && r.value.bodySize == ReadPlain32(h[4..8])
    ensures r.Success? && version == 4 ==>
      r.value.headerSize == 10 && ReadSyncsafe32(h[4..8]) == Success(r.value.bodySize)
    ensures
      && version in {2, 3, 4} && |h| >= (if version == 2 then 6 else 10)
      && (version == 4 ==> SyncsafeBytes(h[4..8]))
      ==>
      (r.Success? <==>
        && AcceptId(version, RawId(version, h)).Some?
        && (version == 2 || (Read16(h[8..10]) as bv16) & !FrameFlagMask(version) == 0))
  {
    if version == 2 then ParseV22FrameHeader(h, offset)
    else if version == 3 then ParseV23FrameHeader(h, offset)
    else if version == 4 then ParseV24FrameHeader(h, offset)
    else Failure(BadFrameVersion)
  }

  /** An ID3v2.2 frame header: a three-byte ID and a 24-bit size, no flags. */
  function ParseV22FrameHeader(h: string, offset: nat): (r: Result<FrameHeader, Error>)
    ensures r.Success? ==>
      && |h| >= 6 && AcceptId(2, RawId(2, h)) == Some(r.value.id)
      && r.value == FrameHeader(r.value.id, offset, 6, Read24(h[3..6]), 0)
    ensures |h| >= 6 ==> (r.Success? <==> AcceptId(2, RawId(2, h)).Some?)
  {
    if |h| < 6 then Failure(Truncated)
    else FrameHeaderChecks(2, RawId(2, h), FrameHeader(h[..3], offset, 6, Read24(h[3..6]), 0))
  }

  /** An ID3v2.3 frame header: a four-byte ID, a big-endian size and two flag bytes. */
  function ParseV23FrameHeader(h: string, offset: nat): (r: Result<FrameHeader, Error>)
    ensures r.Success? ==>
      && |h| >= 10 && AcceptId(3, RawId(3, h)) == Some(r.value.id)
      && r.value == FrameHeader(r.value.id, offset, 10, ReadPlain32(h[4..8]), Read16(h[8..10]) as bv16)
      && r.value.flags & !FrameFlagMask(3) == 0
    ensures |h| >= 10 ==>
      (r.Success? <==> AcceptId(3, RawId(3, h)).Some? && (Read16(h[8..10]) as bv16) & !FrameFlagMask(3) == 0)
  {
    if |h| < 10 then Failure(Truncated)
    else FrameHeaderChecks(3, RawId(3, h), FrameHeader(h[..4], offset, 10, ReadPlain32(h[4..8]), Read16(h[8..10]) as bv16))
  }

  /** An ID3v2.4 frame header: a four-byte ID, a syncsafe size and two flag bytes. */
  function ParseV24FrameHeader(h: string, offset: nat): (r: Result<FrameHeader, Error>)
    ensures r.Success? ==>
      && |h| >= 10 && AcceptId(4, RawId(4, h)) == Some(r.value.id)
      && ReadSyncsafe32(h[4..8]) == Success(r.value.bodySize)
      && r.value == FrameHeader(r.value.id, offset, 10, r.value.bodySize, Read16(h[8..10]) as bv16)
      && r.value.flags & !FrameFlagMask(4) == 0
    ensures |h| >= 10 && SyncsafeBytes(h[4..8]) ==>
      (r.Success? <==> AcceptId(4, RawId(4, h)).Some? && (Read16(h[8..10]) as bv16) & !FrameFlagMask(4) == 0)
  {
    if |h| < 8 then Failure(Truncated)
    else
      var size :- ReadSyncsafe32(h[4..8]);
      if |h| < 10 then Failure(Truncated)
      else FrameHeaderChecks(4, RawId(4, h), FrameHeader(h[..4], offset, 10, size, Read16(h[8..10]) as bv16))
  }

  /** The ID check, then the flag check, on a frame header whose fields are read. */
  function FrameHeaderChecks(version: nat, raw: string, fr: FrameHeader): (r: Result<FrameHeader, Error>)
    requires version in {2, 3, 4} && |raw| == (if version == 2 then 3 else 4)
    ensures r.Success? ==> AcceptId(version, raw) == Some(r.value.id)
    ensures r.Success? ==> r.value == fr.(id := r.value.id) && r.value.flags & !FrameFlagMask(version) == 0
    ensures r.Success? <==> AcceptId(version, raw).Some? && fr.flags & !FrameFlagMask(version) == 0
  {
    match AcceptId(version, raw)
    case None => Failure(UnknownFrameId)
    case Some(id) =>
      if fr.flags & !FrameFlagMask(version) != 0 then Failure(UnknownFlags)
      else Success(fr.(id := id))
  }

  // ---------------------------------------------------------------------
  // The tag: header, extended header and the frame loop of _Tag()

  /** file.read(n) with the cursor at pos: the bytes there, fewer at the end of the file. */
  function ReadAt(f: string, pos: nat, n: nat): (r: string)
    ensures |r| <= n && (r != [] ==> pos + |r| <= |f|)
    ensures pos + n <= |f| ==> r == f[pos..pos + n]
  {
    if pos + n <= |f| then f[pos..pos + n] else if pos <= |f| then f[pos..] else []
  }

  /** The parsed extended header, if any, and where the frames start. */
  function ExtendedOf(f: string, hdr: TagHeader): (r: Result<(Option<ExtendedHeader>, nat), Error>)
    ensures r.Success? && !hdr.HasExtendedHeader() ==> r.value == (None, 10)
    ensures r.Success? ==> r.value.1 >= 10
  {
    if hdr.HasExtendedHeader() then
      var x := ReadAt(f, 10, hdr.ExtendedHeaderSize());
      var xh :- ParseExtendedHeader(hdr.version, x);
      Success((Some(xh), (10 + |x| + xh.bodySize) as nat))
    else Success((None, 10))
  }

  /** The frame-header size of each version. */
  function FrameHeaderLength(version: nat): nat {
    if version == 2 then 6 else 10
  }

  /** A frame-header decoder: the header bytes and the offset of the body after them. */
  type HeaderParser = (string, nat) -> Result<FrameHeader, Error>

  /** The version's _FrameHeader(). */
  function HeaderParserOf(version: nat): (parse: HeaderParser)
    ensures ParsesHeaders(parse, FrameHeaderLength(version))
  {
    (h: string, offset: nat) => ParseFrameHeader(version, h, offset)
  }

  /**
   * What the frame loop relies on in a decoder: a header it accepts is at least
   * hs bytes long, hs bytes are its header, and its body starts at the offset given.
   */
  ghost predicate ParsesHeaders(parse: HeaderParser, hs: nat) {
    forall h: string, offset: nat | parse(h, offset).Success? ::
      |h| >= hs && parse(h, offset).value.headerSize == hs && parse(h, offset).value.bodyOffset == offset
  }

  /**
   * The frames _Tag() reads from pos on, in file order: it stops at the tag's
   * end or at a frame header whose first byte is NUL (the padding), reads a
   * header of hs bytes and skips the body.
   */
  function FrameList(f: string, hs: nat, parse: HeaderParser, total: nat, pos: nat): Result<seq<FrameHeader>, Error>
    requires ParsesHeaders(parse, hs)
    decreases total - pos
  {
    if pos >= total then Success([])
    else
      var h := ReadAt(f, pos, hs);
      if h == [] then Failure(Truncated)
      else if h[0] == '\0' then Success([])
      else
        var fr :- parse(h, pos + |h|);
        var rest :- FrameList(f, hs, parse, total, fr.bodyOffset + fr.bodySize);
        Success([fr] + rest)
  }

  /** Each frame's header starts inside the tag, after pos, and its body starts inside the file. */
  lemma {:induction false} FrameListBounds(f: string, hs: nat, parse: HeaderParser, total: nat, pos: nat)
    requires ParsesHeaders(parse, hs)
    requires FrameList(f, hs, parse, total, pos).Success?
    ensures forall fr | fr in FrameList(f, hs, parse, total, pos).value ::
      && pos < fr.bodyOffset && fr.bodyOffset - hs < total && fr.bodyOffset <= |f| && fr.headerSize == hs
    decreases total - pos
  {
    if pos < total {
      var h := ReadAt(f, pos, hs);
      if h != [] && h[0] != '\0' {
        var fr := parse(h, pos + |h|).value;
        var next := fr.bodyOffset + fr.bodySize;
        FrameListUncons(f, hs, parse, total, pos);
        FrameListBounds(f, hs, parse, total, next);
      }
    }
  }

  /** The frames lie one after another from pos on: each header right after the previous body. */
  lemma {:induction false} FrameListAdjacent(f: string, hs: nat, parse: HeaderParser, total: nat, pos: nat)
    requires ParsesHeaders(parse, hs)
    requires FrameList(f, hs, parse, total, pos).Success?
    ensures var l := FrameList(f, hs, parse, total, pos).value;
      && (l != [] ==> l[0].bodyOffset == pos + hs)
      && (forall i | 0 <= i < |l| - 1 :: l[i + 1].bodyOffset == l[i].bodyOffset + l[i].bodySize + hs)
    decreases total - pos
  {
    if pos < total {
      var h := ReadAt(f, pos, hs);
      if h != [] && h[0] != '\0' {
        var fr := parse(h, pos + |h|).value;
        var next := fr.bodyOffset + fr.bodySize;
        FrameListUncons(f, hs, parse, total, pos);
        FrameListAdjacent(f, hs, parse, total, next);
        AdjacentCons(fr, FrameList(f, hs, parse, total, next).value, hs);
      }
    }
  }

  /** A frame in front of adjacent frames that start right after its body: the list stays adjacent. */
  lemma {:induction false} AdjacentCons(fr: FrameHeader, rest: seq<FrameHeader>, hs: nat)
    requires rest != [] ==> rest[0].bodyOffset == fr.bodyOffset + fr.bodySize + hs
    requires forall i | 0 <= i < |rest| - 1 :: rest[i + 1].bodyOffset == rest[i].bodyOffset + rest[i].bodySize + hs
    ensures var l := [fr] + rest;
      forall i | 0 <= i < |l| - 1 :: l[i + 1].bodyOffset == l[i].bodyOffset + l[i].bodySize + hs
  {
    var l := [fr] + rest;
    assert forall i | 0 <= i < |l| - 1 :: l[i + 1] == rest[i];
  }

  /** self.frames: each frame under its ID, a later frame replacing an earlier one. */
  function IndexById(frames: seq<FrameHeader>): map<string, FrameHeader> {
    if frames == [] then map[]
    else
      var last := frames[|frames| - 1];
      IndexById(frames[..|frames| - 1])[last.id := last]
  }

  /** The dictionary holds an entry for exactly the IDs read, each under its own ID. */
  lemma {:induction false} IndexByIdKeys(frames: seq<FrameHeader>)
    ensures forall id | id in IndexById(frames) :: IndexById(frames)[id].id == id && IndexById(frames)[id] in frames
    ensures forall fr | fr in frames :: fr.id in IndexById(frames)
    decreases |frames|
  {
    if frames != [] {
      var init := frames[..|frames| - 1];
      IndexByIdKeys(init);
      assert frames == init + [frames[|frames| - 1]];
    }
  }

  /** The frame kept under an ID is the last frame read with that ID. */
  lemma {:induction false} IndexByIdLastWins(frames: seq<FrameHeader>, i: nat)
    requires i < |frames|
    requires forall j | i < j < |frames| :: frames[j].id != frames[i].id
    ensures frames[i].id in IndexById(frames) && IndexById(frames)[frames[i].id] == frames[i]
    decreases |frames|
  {
    if i < |frames| - 1 {
      var init := frames[..|frames| - 1];
      assert forall j | i < j < |init| :: init[j] == frames[j];
      IndexByIdLastWins(init, i);
    }
  }

  /** A parsed tag. */
  datatype Tag = Tag(header: TagHeader, extendedHeader: Option<ExtendedHeader>, frames: map<string, FrameHeader>)

  /** What _Tag() builds from a file, or the exception it raises. */
  function TagOf(f: string): Result<Tag, Error> {
    var hdr :- ParseTagHeader(ReadAt(f, 0, 10));
    var ext :- ExtendedOf(f, hdr);
    var frames :- FrameIndex(f, FrameHeaderLength(hdr.version), HeaderParserOf(hdr.version), hdr.TotalSize(), ext.1);
    Success(Tag(hdr, ext.0, frames))
  }

  /** done followed by the frames of r, or r's exception. */
  function Prefixed<T>(done: seq<T>, r: Result<seq<T>, Error>): Result<seq<T>, Error> {
    if r.Success? then Success(done + r.value) else r
  }

  /** The frame dictionary of the frames read from pos on, or the exception. */
  function FrameIndex(f: string, hs: nat, parse: HeaderParser, total: nat, pos: nat): Result<map<string, FrameHeader>, Error>
    requires ParsesHeaders(parse, hs)
  {
    var frames :- FrameList(f, hs, parse, total, pos);
    Success(IndexById(frames))
  }

  /** What the frame loop keeps true: the frames read so far, then those still to come. */
  ghost predicate FrameLoopInvariant(f: string, hs: nat, parse: HeaderParser, total: nat, start: nat, pos: nat,
                                     done: seq<FrameHeader>, frames: map<string, FrameHeader>)
    requires ParsesHeaders(parse, hs)
  {
    FrameList(f, hs, parse, total, start) == Prefixed(done, FrameList(f, hs, parse, total, pos)) &&
    frames == IndexById(done)
  }

  /** One turn of the frame loop, read off FrameList. */
  lemma {:induction false} FrameListStep(f: string, hs: nat, parse: HeaderParser, total: nat, pos: nat, h: string, fr: FrameHeader)
    requires ParsesHeaders(parse, hs)
    requires pos < total && h == ReadAt(f, pos, hs) && h != [] && h[0] != '\0'
    requires parse(h, pos + |h|) == Success(fr)
    ensures FrameList(f, hs, parse, total, pos) == Prefixed([fr], FrameList(f, hs, parse, total, fr.bodyOffset + fr.bodySize))
  {
  }

  /** A successful read that goes on at pos reads a header there, then the frames after its body. */
  lemma {:induction false} FrameListUncons(f: string, hs: nat, parse: HeaderParser, total: nat, pos: nat)
    requires ParsesHeaders(parse, hs)
    requires FrameList(f, hs, parse, total, pos).Success? && pos < total
    ensures var h := ReadAt(f, pos, hs);
      h != [] && (h[0] != '\0' ==>
        && parse(h, pos + |h|).Success?
        && var fr := parse(h, pos + |h|).value;
           && fr.bodyOffset == pos + |h| && |h| == hs
           && FrameList(f, hs, parse, total, fr.bodyOffset + fr.bodySize).Success?
           && FrameList(f, hs, parse, total, pos).value == [fr] + FrameList(f, hs, parse, total, fr.bodyOffset + fr.bodySize).value)
  {
    var h := ReadAt(f, pos, hs);
    if h[0] != '\0' {
      ParsedAt(parse, hs, h, pos + |h|);
    }
  }

  lemma {:induction false} PrefixedSnoc<T>(done: seq<T>, x: T, r: Result<seq<T>, Error>)
    ensures Prefixed(done, Prefixed([x], r)) == Prefixed(done + [x], r)
  {
    if r.Success? {
      assert done + ([x] + r.value) == (done + [x]) + r.value;
    }
  }

  /** A walk that reads done and then a, where a reads x and then b, reads done + [x] and then b. */
  lemma {:induction false} PrefixedChain<T>(all: Result<seq<T>, Error>, done: seq<T>, a: Result<seq<T>, Error>, x: T, b: Result<seq<T>, Error>)
    requires all == Prefixed(done, a) && a == Prefixed([x], b)
    ensures all == Prefixed(done + [x], b)
  {
    PrefixedSnoc(done, x, b);
  }

  /** Before the loop nothing is read and the dictionary is empty. */
  lemma {:induction false} FrameLoopStarts(f: string, hs: nat, parse: HeaderParser, total: nat, start: nat)
    requires ParsesHeaders(parse, hs)
    ensures FrameLoopInvariant(f, hs, parse, total, start, start, [], map[])
  {
    var all := FrameList(f, hs, parse, total, start);
    if all.Success? {
      assert [] + all.value == all.value;
    }
  }

  /** A turn of the loop that reads a frame header keeps the invariant. */
  lemma {:induction false} FrameLoopStep(f: string, hs: nat, parse: HeaderParser, total: nat, start: nat, pos: nat,
                      done: seq<FrameHeader>, frames: map<string, FrameHeader>, h: string, fr: FrameHeader,
                      next: nat, done': seq<FrameHeader>, frames': map<string, FrameHeader>)
    requires ParsesHeaders(parse, hs)
    requires FrameLoopInvariant(f, hs, parse, total, start, pos, done, frames)
    requires pos < total && h == ReadAt(f, pos, hs) && h != [] && h[0] != '\0'
    requires parse(h, pos + |h|) == Success(fr)
    requires next == pos + |h| + fr.bodySize && done' == done + [fr] && frames' == frames[fr.id := fr]
    ensures FrameLoopInvariant(f, hs, parse, total, start, next, done', frames')
  {
    FrameListStep(f, hs, parse, total, pos, h, fr);
    ParsedAt(parse, hs, h, pos + |h|);
    PrefixedSnoc(done, fr, FrameList(f, hs, parse, total, fr.bodyOffset + fr.bodySize));
    IndexByIdSnoc(done, fr);
  }

  /** What ParsesHeaders promises about one header the decoder accepts. */
  lemma {:induction false} ParsedAt(parse: HeaderParser, hs: nat, h: string, offset: nat)
    requires ParsesHeaders(parse, hs) && parse(h, offset).Success?
    ensures |h| >= hs && parse(h, offset).value.headerSize == hs && parse(h, offset).value.bodyOffset == offset
  {
  }

  /** Reading one more frame files it under its ID. */
  lemma {:induction false} IndexByIdSnoc(done: seq<FrameHeader>, fr: FrameHeader)
    ensures IndexById(done + [fr]) == IndexById(done)[fr.id := fr]
  {
    assert (done + [fr])[..|done|] == done;
  }

  /** A turn of the loop that raises ends the whole read with that exception. */
  lemma {:induction false} FrameLoopFails(f: string, hs: nat, parse: HeaderParser, total: nat, start: nat, pos: nat,
                       done: seq<FrameHeader>, frames: map<string, FrameHeader>, e: Error)
    requires ParsesHeaders(parse, hs)
    requires FrameLoopInvariant(f, hs, parse, total, start, pos, done, frames)
    requires FrameList(f, hs, parse, total, pos) == Failure(e)
    ensures FrameIndex(f, hs, parse, total, start) == Failure(e)
  {
  }

  /** Leaving the loop at the tag's end or at the padding gives the dictionary built so far. */
  lemma {:induction false} FrameLoopEnds(f: string, hs: nat, parse: HeaderParser, total: nat, start: nat, pos: nat,
                      done: seq<FrameHeader>, frames: map<string, FrameHeader>)
    requires ParsesHeaders(parse, hs)
    requires FrameLoopInvariant(f, hs, parse, total, start, pos, done, frames)
    requires FrameList(f, hs, parse, total, pos) == Success([])
    ensures FrameIndex(f, hs, parse, total, start) == Success(frames)
  {
    assert done + [] == done;
  }

  /** The frame loop of _Tag.__init__: advances the file cursor and fills the frame dictionary. */
  method ReadFrames(f: string, hs: nat, parse: HeaderParser, total: nat, start: nat)
    returns (r: Result<map<string, FrameHeader>, Error>)
    requires ParsesHeaders(parse, hs)
    ensures r == FrameIndex(f, hs, parse, total, start)
  {
    var pos := start;
    var frames: map<string, FrameHeader> := map[];
    ghost var done: seq<FrameHeader> := [];
    FrameLoopStarts(f, hs, parse, total, start);
    while pos < total
      invariant FrameLoopInvariant(f, hs, parse, total, start, pos, done, frames)
      decreases total - pos
    {
      var h := ReadAt(f, pos, hs);
      if h == [] {
        FrameLoopFails(f, hs, parse, total, start, pos, done, frames, Truncated);
        return Failure(Truncated);
      }
      if h[0] == '\0' {
        FrameLoopEnds(f, hs, parse, total, start, pos, done, frames);
        return Success(frames);
      }
      var p := parse(h, pos + |h|);
      if p.Failure? {
        FrameLoopFails(f, hs, parse, total, start, pos, done, frames, p.error);
        return Failure(p.error);
      }
      var fr := p.value;
      ghost var pos0, done0, frames0 := pos, done, frames;
      frames := frames[fr.id := fr];
      done := done + [fr];
      pos := pos + |h| + fr.bodySize;
      FrameLoopStep(f, hs, parse, total, start, pos0, done0, frames0, h, fr, pos, done, frames);
    }
    FrameLoopEnds(f, hs, parse, total, start, pos, done, frames);
    return Success(frames);
  }

  /** _Tag.__init__: the tag header, the extended header, then the frames. */
  method ReadTag(f: string) returns (r: Result<Tag, Error>)
    ensures r == TagOf(f)
  {
    var hdr :- ParseTagHeader(ReadAt(f, 0, 10));
    var ext :- ExtendedOf(f, hdr);
    var frames :- ReadFrames(f, FrameHeaderLength(hdr.version), HeaderParserOf(hdr.version), hdr.TotalSize(), ext.1);
    return Success(Tag(hdr, ext.0, frames));
  }

  // ---------------------------------------------------------------------
  // Reading the text fields (the getters of _Tag and _read_frame_text)

  /**
   * A text codec for encodings 1 (UTF-16), 2 (UTF-16BE) and 3 (UTF-8): the code
   * points the bytes decode to, or None where they do not decode.
   */
  type TextDecoder = (nat, string) -> Option<string>

  predicate IsAscii(s: string) {
    forall i | 0 <= i < |s| :: (s[i] as int) < 128
  }

  /** encode('ascii', 'replace'): every code point above 127 becomes '?'. */
  function AsciiReplace(u: string): (r: string)
    ensures |r| == |u| && IsAscii(r)
    ensures forall i | 0 <= i < |u| && (u[i] as int) < 128 :: r[i] == u[i]
    ensures IsAscii(u) ==> r == u
  {
    if u == [] then []
    else [if (u[0] as int) < 128 then u[0] else '?'] + AsciiReplace(u[1..])
  }

  /** decode('iso-8859-1'): each byte is the code point of the same value. */
  function Latin1(b: string): (u: string)
    ensures |u| == |b| && forall i | 0 <= i < |b| :: (u[i] as int) == Ord(b[i])
    ensures IsByteString(b) ==> u == b
  {
    if b == [] then []
    else [Chr(Ord(b[0]))] + Latin1(b[1..])
  }

  /**
   * _read_frame_text: the first byte selects the encoding; encodings 0 to 3 give
   * the rest as ASCII, any other selector gives the body unchanged.
   */
  function FrameText(body: string, decode: TextDecoder): (r: Result<string, Error>)
    ensures body == [] ==> r == Failure(Truncated)
    ensures r.Failure? ==> body == [] || 1 <= Ord(body[0]) <= 3
    ensures r.Success? && Ord(body[0]) <= 3 ==> IsAscii(r.value)
    ensures body != [] && Ord(body[0]) > 3 ==> r == Success(body)
  {
    if body == [] then Failure(Truncated)
    else
      var encoding := Ord(body[0]);
      if encoding == 0 then Success(AsciiReplace(Latin1(body[1..])))
      else if encoding <= 3 then
        match decode(encoding, body[1..])
        case None => Failure(BadText)
        case Some(u) => Success(AsciiReplace(u))
      else Success(body)
  }

  /** A body the writer produces (selector 0, ASCII text) reads back as its text. */
  lemma {:induction false} FrameTextLatin1(text: string, decode: TextDecoder)
    requires IsAscii(text)
    ensures FrameText([Chr(0)] + text, decode) == Success(text)
  {
    var body := [Chr(0)] + text;
    assert body[1..] == text;
    assert IsByteString(text);
  }

  /** The fields the getters read. */
  datatype Field = Artist | Album | Title | TrackNumber | Year

  /** The frame each version keeps a field in; None for a version the getters do not know. */
  function FieldFrameId(version: nat, field: Field): (r: Option<string>)
    ensures r.Some? <==> 2 <= version <= 4
    ensures r.Some? ==> |r.value| == (if version == 2 then 3 else 4)
  {
    if version == 2 then
      Some(match field
        case Artist => "TP1" case Album => "TAL" case Title => "TT2" case TrackNumber => "TRK" case Year => "TYE")
    else if version == 3 || version == 4 then
      Some(match field
        case Artist => "TPE1" case Album => "TALB" case Title => "TIT2" case TrackNumber => "TRCK" case Year => "TYER")
    else None
  }

  /** read_body: the frame's body bytes, fewer where the file ends first. */
  function FrameBody(f: string, fr: FrameHeader): (r: string)
    ensures fr.bodyOffset + fr.bodySize <= |f| ==> r == f[fr.bodyOffset..fr.bodyOffset + fr.bodySize]
  {
    ReadAt(f, fr.bodyOffset, fr.bodySize)
  }

  /** get_artist, get_album and get_title: the frame's text, or None without the frame. */
  function FieldText(f: string, tag: Tag, field: Field, decode: TextDecoder): (r: Result<Option<string>, Error>)
    ensures FieldFrameId(tag.header.version, field).None? ==> r == Success(None)
    ensures r.Success? && r.value.Some? ==>
      var id := FieldFrameId(tag.header.version, field).value;
      id in tag.frames && FrameText(FrameBody(f, tag.frames[id]), decode) == Success(r.value.value)
    ensures r == Success(None) ==>
      FieldFrameId(tag.header.version, field).None? || FieldFrameId(tag.header.version, field).value !in tag.frames
  {
    match FieldFrameId(tag.header.version, field)
    case None => Success(None)
    case Some(id) =>
      if id in tag.frames then
        var text :- FrameText(FrameBody(f, tag.frames[id]), decode);
        Success(Some(text))
      else Success(None)
  }

  /** get_track: mint() of the text before the first '/'. */
  function GetTrack(f: string, tag: Tag, decode: TextDecoder): (r: Result<Option<int>, Error>)
    ensures r.Success? ==> FieldText(f, tag, TrackNumber, decode).Success?
    ensures r.Success? ==> (r.value.Some? <==>
      FieldText(f, tag, TrackNumber, decode).value.Some? &&
      TrackData.Mint(SplitOn(FieldText(f, tag, TrackNumber, decode).value.value, '/')[0]).Some?)
  {
    var text :- FieldText(f, tag, TrackNumber, decode);
    if text.None? then Success(None) else Success(TrackData.Mint(SplitOn(text.value, '/')[0]))
  }

  /** "5/12" is track 5: the count after the '/' is ignored. */
  lemma {:induction false} TrackOfCount(f: string, tag: Tag, decode: TextDecoder, n: nat, count: string)
    requires FieldText(f, tag, TrackNumber, decode) == Success(Some(IntToString(n) + "/" + count))
    ensures GetTrack(f, tag, decode) == Success(Some(n))
  {
    var d := IntToString(n);
    var t := d + ("/" + count);
    assert t == IntToString(n) + "/" + count;
    NatDigitsHaveNoSlash(n);
    assert ("/" + count)[0] == '/';
    IndexOfAppend(d, "/" + count, '/');
    assert t[..|d|] == d;
    TrackData.MintOfIntToString(n);
  }

  lemma {:induction false} NatDigitsHaveNoSlash(n: nat)
    ensures '/' !in IntToString(n)
  {
    assert IsDigits(NatToString(n));
  }

  /** get_year: mint() of the first four characters. */
  function GetYear(f: string, tag: Tag, decode: TextDecoder): (r: Result<Option<int>, Error>)
    ensures r.Success? ==> FieldText(f, tag, Year, decode).Success?
    ensures r.Success? ==> (r.value.Some? <==>
      FieldText(f, tag, Year, decode).value.Some? &&
      TrackData.Mint(Slice(FieldText(f, tag, Year, decode).value.value, 0, 4)).Some?)
  {
    var text :- FieldText(f, tag, Year, decode);
    if text.None? then Success(None) else Success(TrackData.Mint(Slice(text.value, 0, 4)))
  }

  /** get_data: the five fields, read in the source's order; genre stays None. */
  function GetData(f: string, tag: Tag, decode: TextDecoder): (r: Result<TrackData.TrackRecord, Error>)
    ensures r.Success? ==> r.value.genre.None?
    ensures r.Success? ==>
      && Success(r.value.artist) == FieldText(f, tag, Artist, decode)
      && Success(r.value.album) == FieldText(f, tag, Album, decode)
      && Success(r.value.title) == FieldText(f, tag, Title, decode)
      && Success(r.value.track) == GetTrack(f, tag, decode)
      && Success(r.value.year) == GetYear(f, tag, decode)
  {
    var artist :- FieldText(f, tag, Artist, decode);
    var album :- FieldText(f, tag, Album, decode);
    var title :- FieldText(f, tag, Title, decode);
    var track :- GetTrack(f, tag, decode);
    var year :- GetYear(f, tag, decode);
    Success(TrackData.TrackRecord(title, album, artist, track, year, None))
  }

  /**
   * read_tag_data: None without the "ID3" magic; otherwise the tag's fields,
   * cleaned non-aggressively, or the exception parsing raised.
   */
  function ReadTagData(f: string, decode: TextDecoder): (r: Result<Option<TrackData.TrackRecord>, Error>)
    ensures ReadAt(f, 0, 3) != "ID3" <==> r == Success(None)
    ensures r.Success? && r.value.Some? ==>
      TagOf(f).Success? && GetData(f, TagOf(f).value, decode).Success? &&
      r.value.value == TrackData.CleanRecord(GetData(f, TagOf(f).value, decode).value, false)
  {
    if ReadAt(f, 0, 3) != "ID3" then Success(None)
    else
      var tag :- TagOf(f);
      var data :- GetData(f, tag, decode);
      Success(Some(TrackData.CleanRecord(data, false)))
  }

  // ---------------------------------------------------------------------
  // Writing an ID3v2.3.0 tag (create_tag_string)

  /**
   * create_id3v2_frame_string: the ID, the big-endian size of the content plus
   * two, two zero flag bytes, the ISO-8859-1 selector 0, the content and a NUL.
   */
  function TextFrame(id: string, content: string): (r: string)
    ensures |r| == |id| + 8 + |content|
  {
    id + BigEndian32(|content| + 2) + [Chr(0), Chr(0)] + ([Chr(0)] + content + [Chr(0)])
  }

  /** A text frame reads back as its ID, its size, no flags and the selector-0 body. */
  lemma {:induction false} TextFrameFields(id: string, content: string)
    requires |id| == 4 && |content| + 2 < 0x1_0000_0000
    ensures var r := TextFrame(id, content);
      && r[..4] == id && ReadPlain32(r[4..8]) == |content| + 2 && Read16(r[8..10]) == 0
      && r[10..] == [Chr(0)] + content + [Chr(0)]
  {
    var r := TextFrame(id, content);
    var size := BigEndian32(|content| + 2);
    var body := [Chr(0)] + content + [Chr(0)];
    assert r[..4] == id && r[4..8] == size && r[8..10] == [Chr(0), Chr(0)] && r[10..] == body;
    BigEndianRoundTrip(|content| + 2);
  }

  /** Python's data.track > 0, where None > 0 is False. */
  predicate Positive(n: Option<int>) {
    n.Some? && n.value > 0
  }

  /**
   * The frames the writer creates, as (ID, text) pairs in output order: TIT2,
   * TALB and TPE1 always, TRCK and TYER only for a positive number.
   */
  function NewFrameTexts(d: TrackData.TrackRecord): (ps: seq<(string, string)>)
    requires d.title.Some? && d.album.Some? && d.artist.Some?
    ensures 3 <= |ps| <= 5 && forall p | p in ps :: |p.0| == 4 && p.0[0] != '\0' && Replaced(p.0)
    ensures ps[..3] == [("TIT2", d.title.value), ("TALB", d.album.value), ("TPE1", d.artist.value)]
  {
    [("TIT2", d.title.value), ("TALB", d.album.value), ("TPE1", d.artist.value)] +
    (if Positive(d.track) then [("TRCK", IntToString(d.track.value))] else []) +
    (if Positive(d.year) then [("TYER", IntToString(d.year.value))] else [])
  }

  /** TRCK is written exactly for a positive track and TYER for a positive year, each as the number in decimal. */
  lemma NewFrameNumbers(d: TrackData.TrackRecord)
    requires d.title.Some? && d.album.Some? && d.artist.Some?
    ensures var ps := NewFrameTexts(d);
      && ((exists p | p in ps :: p.0 == "TRCK") <==> Positive(d.track))
      && ((exists p | p in ps :: p.0 == "TYER") <==> Positive(d.year))
      && (forall p | p in ps && p.0 == "TRCK" :: d.track.Some? && p.1 == IntToString(d.track.value))
      && (forall p | p in ps && p.0 == "TYER" :: d.year.Some? && p.1 == IntToString(d.year.value))
  {
    var ps := NewFrameTexts(d);
    var first := [("TIT2", d.title.value), ("TALB", d.album.value), ("TPE1", d.artist.value)];
    var tr := if Positive(d.track) then [("TRCK", IntToString(d.track.value))] else [];
    var ty := if Positive(d.year) then [("TYER", IntToString(d.year.value))] else [];
    assert ps == first + tr + ty;
    forall p | p in ps
      ensures p in first || p in tr || p in ty
    {
    }
    if Positive(d.track) {
      assert ps[3] in ps && ps[3].0 == "TRCK";
    }
    if Positive(d.year) {
      assert ps[|ps| - 1] in ps && ps[|ps| - 1].0 == "TYER";
    }
  }

  /** The text frames of ps, one after another. */
  function TextFrames(ps: seq<(string, string)>): (r: string)
    ensures ps == [] ==> r == []
  {
    if ps == [] then [] else TextFrame(ps[0].0, ps[0].1) + TextFrames(ps[1..])
  }

  /** The new frames, or the exception len() raises on a text field that is None. */
  function NewFrames(d: TrackData.TrackRecord): (r: Result<string, Error>)
    ensures r.Success? <==> d.title.Some? && d.album.Some? && d.artist.Some?
    ensures r.Failure? ==> r.error == MissingText
    ensures r.Success? ==> r.value == TextFrames(NewFrameTexts(d))
  {
    if d.title.None? || d.album.None? || d.artist.None? then Failure(MissingText)
    else Success(TextFrames(NewFrameTexts(d)))
  }

  /** How the copy loop decodes a frame's size: as written (syncsafe), or as ID3v2.3.0 defines it. */
  datatype SizeCoding = Syncsafe | Plain

  /** The size field of a frame header, fd being the up to ten bytes at the frame. */
  function FrameSize(coding: SizeCoding, fd: string): (r: Result<nat, Error>)
    ensures |fd| < 8 ==> r == Failure(Truncated)
    ensures |fd| >= 8 && coding == Plain ==> r == Success(ReadPlain32(fd[4..8]))
    ensures |fd| >= 8 && coding == Syncsafe ==> r == ReadSyncsafe32(fd[4..8])
  {
    if |fd| < 8 then Failure(Truncated)
    else if coding == Syncsafe then ReadSyncsafe32(fd[4..8])
    else Success(ReadPlain32(fd[4..8]))
  }

  /** A frame met by the copy loop: where it starts, its ID and its size with the header. */
  datatype RawFrame = RawFrame(start: nat, id: string, size: nat)

  /** The IDs of the frames the writer replaces. */
  predicate Replaced(id: string) {
    id == "TALB" || id == "TIT2" || id == "TPE1" || id == "TRCK" || id == "TYER"
  }

  /**
   * The frames the copy loop walks over from pos on: it stops at the tag's end
   * or at a NUL, and raises where the tag data ends first.
   */
  function CopyWalk(tag: string, total: nat, pos: nat, coding: SizeCoding): Result<seq<RawFrame>, Error>
    decreases total - pos
  {
    if pos >= total then Success([])
    else if pos >= |tag| then Failure(Truncated)
    else if tag[pos] == '\0' then Success([])
    else
      var fd := ReadAt(tag, pos, 10);
      var size :- FrameSize(coding, fd);
      var rest :- CopyWalk(tag, total, pos + size + 10, coding);
      Success([RawFrame(pos, fd[..4], size + 10)] + rest)
  }

  /** What the copy loop appends for one walked frame: nothing if it is replaced, else the whole frame. */
  function Piece(tag: string, fr: RawFrame): string {
    if Replaced(fr.id) then [] else ReadAt(tag, fr.start, fr.size)
  }

  /** The bytes of the walked frames that are not replaced, in order. */
  function Kept(tag: string, frames: seq<RawFrame>): string {
    if frames == [] then []
    else
      var last := frames[|frames| - 1];
      Kept(tag, frames[..|frames| - 1]) + Piece(tag, last)
  }

  /** Kept frames come whole and in order: those of a prefix, then those of the rest. */
  lemma {:induction false} KeptAppend(tag: string, a: seq<RawFrame>, b: seq<RawFrame>)
    ensures Kept(tag, a + b) == Kept(tag, a) + Kept(tag, b)
    decreases |b|
  {
    if b == [] {
      assert a + b == a;
    } else {
      var last := b[|b| - 1];
      var init := b[..|b| - 1];
      calc {
        Kept(tag, a + b);
        { assert a + b == (a + init) + [last]; }
        Kept(tag, (a + init) + [last]);
        { KeptSnoc(tag, a + init, last); }
        Kept(tag, a + init) + Piece(tag, last);
        { KeptAppend(tag, a, init); }
        (Kept(tag, a) + Kept(tag, init)) + Piece(tag, last);
        { ConcatAssoc(Kept(tag, a), Kept(tag, init), Piece(tag, last)); }
        Kept(tag, a) + (Kept(tag, init) + Piece(tag, last));
        { KeptSnoc(tag, init, last); assert init + [last] == b; }
        Kept(tag, a) + Kept(tag, b);
      }
    }
  }

  /** One more frame walked adds its bytes, unless it is replaced. */
  lemma {:induction false} KeptSnoc(tag: string, frames: seq<RawFrame>, fr: RawFrame)
    ensures Kept(tag, frames + [fr]) == Kept(tag, frames) + Piece(tag, fr)
  {
    assert (frames + [fr])[..|frames|] == frames;
  }

  /** A replaced frame contributes nothing; any other frame contributes its bytes. */
  lemma {:induction false} KeptOne(tag: string, fr: RawFrame)
    ensures Kept(tag, [fr]) == if Replaced(fr.id) then [] else ReadAt(tag, fr.start, fr.size)
  {
    assert [fr][..0] == [];
  }

  /** What the copy loop appends, or the exception it raises. */
  function Copied(tag: string, total: nat, coding: SizeCoding): Result<string, Error> {
    var frames :- CopyWalk(tag, total, 10, coding);
    Success(Kept(tag, frames))
  }

  /** What the copy loop keeps true: the bytes kept so far are those of the frames walked so far. */
  ghost predicate CopyLoopInvariant(tag: string, total: nat, coding: SizeCoding, pos: nat, done: seq<RawFrame>, acc: string) {
    CopyWalk(tag, total, 10, coding) == Prefixed(done, CopyWalk(tag, total, pos, coding)) &&
    acc == Kept(tag, done)
  }

  lemma {:induction false} CopyLoopStarts(tag: string, total: nat, coding: SizeCoding)
    ensures CopyLoopInvariant(tag, total, coding, 10, [], [])
  {
    var all := CopyWalk(tag, total, 10, coding);
    if all.Success? {
      assert [] + all.value == all.value;
    }
  }

  lemma {:induction false} CopyLoopStep(tag: string, total: nat, coding: SizeCoding, pos: nat, done: seq<RawFrame>, acc: string,
                     fd: string, size: nat, next: nat, done': seq<RawFrame>, acc': string)
    requires CopyLoopInvariant(tag, total, coding, pos, done, acc)
    requires pos < total && pos < |tag| && tag[pos] != '\0'
    requires fd == ReadAt(tag, pos, 10) && FrameSize(coding, fd) == Success(size)
    requires next == pos + size + 10
    requires done' == done + [RawFrame(pos, fd[..4], size + 10)]
    requires acc' == acc + Piece(tag, RawFrame(pos, fd[..4], size + 10))
    ensures CopyLoopInvariant(tag, total, coding, next, done', acc')
  {
    var fr := RawFrame(pos, fd[..4], size + 10);
    var rest := CopyWalk(tag, total, next, coding);
    assert CopyWalk(tag, total, pos, coding) == Prefixed([fr], rest);
    PrefixedSnoc(done, fr, rest);
    KeptSnoc(tag, done, fr);
  }

  lemma {:induction false} CopyLoopFails(tag: string, total: nat, coding: SizeCoding, pos: nat, done: seq<RawFrame>, acc: string, e: Error)
    requires CopyLoopInvariant(tag, total, coding, pos, done, acc)
    requires CopyWalk(tag, total, pos, coding) == Failure(e)
    ensures Copied(tag, total, coding) == Failure(e)
  {
  }

  lemma {:induction false} CopyLoopEnds(tag: string, total: nat, coding: SizeCoding, pos: nat, done: seq<RawFrame>, acc: string)
    requires CopyLoopInvariant(tag, total, coding, pos, done, acc)
    requires CopyWalk(tag, total, pos, coding) == Success([])
    ensures Copied(tag, total, coding) == Success(acc)
  {
    assert done + [] == done;
  }

  /** The copy loop of create_tag_string: appends every frame that is not replaced. */
  method CopyFrames(tag: string, total: nat, coding: SizeCoding) returns (r: Result<string, Error>)
    ensures r == Copied(tag, total, coding)
  {
    var newFrames := "";
    var pos := 10;
    ghost var done: seq<RawFrame> := [];
    CopyLoopStarts(tag, total, coding);
    while pos < total
      invariant CopyLoopInvariant(tag, total, coding, pos, done, newFrames)
      decreases total - pos
    {
      if pos >= |tag| {
        CopyLoopFails(tag, total, coding, pos, done, newFrames, Truncated);
        return Failure(Truncated);
      }
      if tag[pos] == '\0' {
        CopyLoopEnds(tag, total, coding, pos, done, newFrames);
        return Success(newFrames);
      }
      var fd := ReadAt(tag, pos, 10);
      var size := FrameSize(coding, fd);
      if size.Failure? {
        CopyLoopFails(tag, total, coding, pos, done, newFrames, size.error);
        return Failure(size.error);
      }
      var frameId := fd[..4];
      ghost var pos0, done0, acc0 := pos, done, newFrames;
      ghost var frame := RawFrame(pos, frameId, size.value + 10);
      if !Replaced(frameId) {
        newFrames := newFrames + ReadAt(tag, pos, size.value + 10);
      }
      done := done + [frame];
      pos := pos + size.value + 10;
      CopyLoopStep(tag, total, coding, pos0, done0, acc0, fd, size.value, pos, done, newFrames);
    }
    CopyLoopEnds(tag, total, coding, pos, done, newFrames);
    return Success(newFrames);
  }

  /** The existing tag's bytes and its total size, when the file starts with "ID3". */
  function ExistingTag(f: string): (r: Result<Option<(string, nat)>, Error>)
    ensures ReadAt(f, 0, 3) != "ID3" ==> r == Success(None)
    ensures r.Success? && r.value.Some? ==>
      ParseTagHeader(f).Success? && r.value.value.1 == ParseTagHeader(f).value.TotalSize() &&
      r.value.value.0 == ReadAt(f, 0, r.value.value.1)
  {
    if ReadAt(f, 0, 3) != "ID3" then Success(None)
    else
      var hdr :- ParseTagHeader(f);
      Success(Some((ReadAt(f, 0, hdr.TotalSize()), hdr.TotalSize())))
  }

  /** The new tag: the header, the new frames, the frames copied over, 500 NULs of padding. */
  function TagWritten(d: TrackData.TrackRecord, existing: Option<(string, nat)>, coding: SizeCoding): (r: Result<string, Error>)
    ensures r.Success? ==> NewFrames(d).Success? && |r.value| >= 510 + |NewFrames(d).value|
  {
    var frames :- NewFrames(d);
    var copied :- if existing.None? then Success("") else Copied(existing.value.0, existing.value.1, coding);
    Success(Assembled(frames + copied))
  }

  /** The header for a body of the frames followed by 500 NULs of padding, then that body. */
  function Assembled(frames: string): (r: string)
    ensures |r| == |frames| + 510 && r[10..] == frames + Repeat('\0', 500)
    ensures r[..10] == WrittenHeader(|frames| + 500)
  {
    var body := frames + Repeat('\0', 500);
    WrittenHeader(|body|) + body
  }

  /** The header the writer emits parses as an ID3v2.3 header announcing exactly the body after it. */
  lemma {:induction false} AssembledHeader(frames: string)
    requires |Assembled(frames)| < 0x1000_000A
    ensures ParseTagHeader(Assembled(frames)) == Success(TagHeader(3, 0, 0, |Assembled(frames)| - 10))
  {
    var t := Assembled(frames);
    WrittenHeaderParses(|frames| + 500);
    ParseTagHeaderPrefix(t, WrittenHeader(|frames| + 500));
  }

  /** Only the first ten bytes matter to the tag-header parse. */
  lemma {:induction false} ParseTagHeaderPrefix(h: string, p: string)
    requires |p| == 10 && |h| >= 10 && h[..10] == p
    ensures ParseTagHeader(h) == ParseTagHeader(p)
  {
    assert h[..3] == p[..3];
    assert h[6..10] == p[6..10];
    assert Slice(h, 0, 3) == Slice(p, 0, 3);
  }

  /** The body the writer puts after the header, the padding included. */
  method WriteTag(d: TrackData.TrackRecord, existing: Option<(string, nat)>, coding: SizeCoding) returns (r: Result<string, Error>)
    ensures r == TagWritten(d, existing, coding)
  {
    var newFrames :- NewFrames(d);
    if existing.Some? {
      var copied :- CopyFrames(existing.value.0, existing.value.1, coding);
      newFrames := newFrames + copied;
    } else {
      assert newFrames + "" == newFrames;
    }
    return Success(Assembled(newFrames));
  }

  /** create_tag_string as written: the copy loop reads frame sizes as syncsafe. */
  method CreateTagString(d: TrackData.TrackRecord, f: string) returns (r: Result<string, Error>)
    ensures r == (var existing :- ExistingTag(f); TagWritten(d, existing, Syncsafe))
  {
    var existing :- ExistingTag(f);
    r := WriteTag(d, existing, Syncsafe);
  }

  /** create_tag_string with the ID3v2.3.0 frame size: the copy loop reads it as plain big-endian. */
  method CreateTagStringCorrected(d: TrackData.TrackRecord, f: string) returns (r: Result<string, Error>)
    ensures r == (var existing :- ExistingTag(f); TagWritten(d, existing, Plain))
  {
    var existing :- ExistingTag(f);
    r := WriteTag(d, existing, Plain);
  }

  // ---------------------------------------------------------------------
  // The copy loop's frame size

  /**
   * Read as syncsafe, the big-endian size of a frame of 128 bytes or more is
   * either refused or a smaller number than the frame's size.
   */
  lemma {:induction false} SyncsafeMisreadsSize(n: nat)
    requires 0x80 <= n < 0x1_0000_0000
    ensures ReadSyncsafe32(BigEndian32(n)) != Success(n)
    ensures ReadSyncsafe32(BigEndian32(n)).Success? ==> ReadSyncsafe32(BigEndian32(n)).value < n
  {
    var b := BigEndian32(n);
    BigEndianRoundTrip(n);
    assert n == Ord(b[0]) * 0x100_0000 + Ord(b[1]) * 0x1_0000 + Ord(b[2]) * 0x100 + Ord(b[3]);
    if SyncsafeBytes(b) {
      assert Ord(b[3]) < 0x80;
      assert Ord(b[0]) + Ord(b[1]) + Ord(b[2]) > 0;
    }
  }

  /** A one-frame ID3v2.3.0 tag: the writer's header, a frame header with no flags, the body. */
  function OneFrameTag(id: string, body: string): (t: string)
    requires |id| == 4
    ensures |t| == 20 + |body|
  {
    WrittenHeader(10 + |body|) + id + BigEndian32(|body|) + [Chr(0), Chr(0)] + body
  }

  /** Its frame header, the ID first and then the big-endian size, follows the tag header. */
  lemma {:induction false} OneFrameTagHeader(id: string, body: string)
    requires |id| == 4
    ensures var t := OneFrameTag(id, body);
      ReadAt(t, 10, 10) == t[10..20] && t[10..20][..4] == id && t[10..20][4..8] == BigEndian32(|body|)
  {
    var t := OneFrameTag(id, body);
    var fh := id + BigEndian32(|body|) + [Chr(0), Chr(0)];
    assert t == WrittenHeader(10 + |body|) + fh + body;
    assert t[10..20] == fh;
  }

  /**
   * As written, the copy loop raises on a tag holding one frame of 200 bytes,
   * whose size ID3v2.3.0 and the reader take to be 200.
   */
  lemma {:induction false} SyncsafeCopyRejectsFrame(id: string, body: string)
    requires |id| == 4 && id[0] != '\0' && |body| == 200
    ensures var t := OneFrameTag(id, body);
      ReadPlain32(t[14..18]) == 200 && Copied(t, |t|, Syncsafe) == Failure(BadSyncsafe)
  {
    var t := OneFrameTag(id, body);
    OneFrameTagHeader(id, body);
    assert t[10] == id[0];
    assert t[14..18] == BigEndian32(200);
    BigEndianRoundTrip(200);
    assert Ord(BigEndian32(200)[3]) == 200;
  }

  /** With the ID3v2.3.0 size, the same tag's frame is copied whole (unless it is replaced). */
  lemma {:induction false} PlainCopyKeepsFrame(id: string, body: string)
    requires |id| == 4 && id[0] != '\0' && |body| == 200
    ensures var t := OneFrameTag(id, body);
      Copied(t, |t|, Plain) == Success(if Replaced(id) then [] else t[10..])
  {
    var t := OneFrameTag(id, body);
    var fd := ReadAt(t, 10, 10);
    var fr := RawFrame(10, id, 210);
    assert CopyWalk(t, |t|, 10, Plain) == Success([fr]) by {
      OneFrameTagHeader(id, body);
      assert t[10] == id[0];
      BigEndianRoundTrip(200);
      assert FrameSize(Plain, fd) == Success(200);
      assert CopyWalk(t, |t|, 220, Plain) == Success([]);
      assert [RawFrame(10, fd[..4], 210)] + [] == [fr];
    }
    assert Kept(t, [fr]) == if Replaced(id) then [] else t[10..] by {
      KeptOne(t, fr);
      assert ReadAt(t, 10, 210) == t[10..];
    }
  }

  /** Reading from the clipped prefix of a file reads the file, inside the prefix. */
  lemma {:induction false} ReadAtPrefix(f: string, total: nat, pos: nat, n: nat)
    requires pos + n <= total
    ensures ReadAt(ReadAt(f, 0, total), pos, n) == ReadAt(f, pos, n)
  {
  }

  /**
   * What the copy walk relies on in an ID3v2.3 frame-header decoder: the body
   * size is the plain big-endian size field.
   */
  ghost predicate ReadsV23Headers(parse: HeaderParser) {
    forall h: string, offset: nat | parse(h, offset).Success? ::
      |h| >= 10 && parse(h, offset).value.bodySize == ReadPlain32(h[4..8])
  }

  /** What ReadsV23Headers promises about one header the decoder accepts. */
  lemma {:induction false} ReadV23At(parse: HeaderParser, h: string, offset: nat)
    requires ReadsV23Headers(parse) && parse(h, offset).Success?
    ensures |h| >= 10 && parse(h, offset).value.bodySize == ReadPlain32(h[4..8])
  {
  }

  /** _FrameHeader() for ID3v2.3 is such a decoder. */
  lemma {:induction false} V23ParserReadsHeaders()
    ensures ReadsV23Headers(HeaderParserOf(3))
  {
    forall h: string, offset: nat | HeaderParserOf(3)(h, offset).Success?
      ensures |h| >= 10 && HeaderParserOf(3)(h, offset).value.bodySize == ReadPlain32(h[4..8])
    {
    }
  }

  /** One frame of the reader is one step of the copy walk with the ID3v2.3.0 size, over the same bytes. */
  lemma {:induction false} PlainWalkStep(tag: string, parse: HeaderParser, total: nat, pos: nat, h: string, fr: FrameHeader)
    requires ParsesHeaders(parse, 10) && ReadsV23Headers(parse)
    requires pos < total && h == ReadAt(tag, pos, 10) && h != [] && h[0] != '\0'
    requires parse(h, pos + |h|) == Success(fr)
    ensures CopyWalk(tag, total, pos, Plain) ==
      Prefixed([RawFrame(pos, h[..4], fr.bodySize + 10)], CopyWalk(tag, total, fr.bodyOffset + fr.bodySize, Plain))
  {
    ParsedAt(parse, 10, h, pos + |h|);
    ReadV23At(parse, h, pos + |h|);
    assert tag[pos] == h[0];
  }

  /** The walked frame w is where the reader found frame fr: the same header start, and the same size. */
  predicate WalkedAs(w: RawFrame, fr: FrameHeader) {
    w.start + 10 == fr.bodyOffset && w.size == fr.bodySize + 10
  }

  /** The walk ws meets the reader's frames l one for one. */
  predicate Follows(ws: seq<RawFrame>, l: seq<FrameHeader>) {
    |ws| == |l| && forall i | 0 <= i < |l| :: WalkedAs(ws[i], l[i])
  }

  lemma {:induction false} FollowsCons(w: RawFrame, fr: FrameHeader, ws: seq<RawFrame>, l: seq<FrameHeader>)
    requires WalkedAs(w, fr) && Follows(ws, l)
    ensures Follows([w] + ws, [fr] + l)
  {
    forall i | 0 <= i < |l| + 1
      ensures WalkedAs(([w] + ws)[i], ([fr] + l)[i])
    {
      if i > 0 {
        assert ([w] + ws)[i] == ws[i - 1];
        assert ([fr] + l)[i] == l[i - 1];
      }
    }
  }

  /** Every frame header of l ends inside a tag of total bytes. */
  predicate HeadersInside(l: seq<FrameHeader>, total: nat) {
    forall i | 0 <= i < |l| :: l[i].bodyOffset <= total
  }

  lemma {:induction false} HeadersInsideTail(fr: FrameHeader, l: seq<FrameHeader>, total: nat)
    requires HeadersInside([fr] + l, total)
    ensures fr.bodyOffset <= total && HeadersInside(l, total)
  {
    assert ([fr] + l)[0] == fr;
    assert forall i | 0 <= i < |l| :: l[i] == ([fr] + l)[i + 1];
  }

  /**
   * With the ID3v2.3.0 frame size, the copy loop walks over exactly the frames
   * the reader reads from the same bytes.
   */
  lemma {:induction false} PlainWalkFollowsReader(tag: string, parse: HeaderParser, total: nat, pos: nat)
    requires ParsesHeaders(parse, 10) && ReadsV23Headers(parse)
    requires FrameList(tag, 10, parse, total, pos).Success?
    ensures var w := CopyWalk(tag, total, pos, Plain);
      w.Success? && Follows(w.value, FrameList(tag, 10, parse, total, pos).value)
    decreases total - pos
  {
    if pos < total {
      var h := ReadAt(tag, pos, 10);
      FrameListUncons(tag, 10, parse, total, pos);
      if h[0] != '\0' {
        var fr := parse(h, pos + |h|).value;
        var next := fr.bodyOffset + fr.bodySize;
        var l := FrameList(tag, 10, parse, total, next).value;
        var w := RawFrame(pos, h[..4], fr.bodySize + 10);
        PlainWalkFollowsReader(tag, parse, total, next);
        var ws := CopyWalk(tag, total, next, Plain).value;
        PlainWalkStep(tag, parse, total, pos, h, fr);
        ReadV23At(parse, h, pos + |h|);
        FollowsCons(w, fr, ws, l);
      } else {
        assert tag[pos] == h[0];
      }
    }
  }

  /** Inside the tag, where every frame header lies, the reader reads the tag's bytes as it reads the file. */
  lemma {:induction false} FrameListOfPrefix(f: string, hs: nat, parse: HeaderParser, total: nat, pos: nat)
    requires ParsesHeaders(parse, hs)
    requires FrameList(f, hs, parse, total, pos).Success?
    requires HeadersInside(FrameList(f, hs, parse, total, pos).value, total)
    ensures FrameList(ReadAt(f, 0, total), hs, parse, total, pos) == FrameList(f, hs, parse, total, pos)
    decreases total - pos
  {
    if pos < total {
      var h := FrameListHeader(f, hs, parse, total, pos);
      if h[0] != '\0' {
        var fr := FrameListHeadInside(f, hs, parse, total, pos);
        FrameListOfPrefix(f, hs, parse, total, fr.bodyOffset + fr.bodySize);
        FrameListPrefixStep(f, hs, parse, total, pos, fr);
      } else {
        FrameListPaddingPrefix(f, hs, parse, total, pos);
      }
    }
  }

  /** Where the reader succeeds inside the tag, a header's bytes are there to read. */
  lemma FrameListHeader(f: string, hs: nat, parse: HeaderParser, total: nat, pos: nat) returns (h: string)
    requires ParsesHeaders(parse, hs)
    requires FrameList(f, hs, parse, total, pos).Success? && pos < total
    ensures h == ReadAt(f, pos, hs) && h != []
  {
    h := ReadAt(f, pos, hs);
    FrameListUncons(f, hs, parse, total, pos);
  }

  /** The first frame header the reader finds inside the tag, and the walk after it. */
  lemma FrameListHeadInside(f: string, hs: nat, parse: HeaderParser, total: nat, pos: nat) returns (fr: FrameHeader)
    requires ParsesHeaders(parse, hs)
    requires FrameList(f, hs, parse, total, pos).Success? && pos < total
    requires HeadersInside(FrameList(f, hs, parse, total, pos).value, total)
    requires ReadAt(f, pos, hs) != [] && ReadAt(f, pos, hs)[0] != '\0'
    ensures pos + hs <= total && pos < fr.bodyOffset + fr.bodySize
    ensures parse(ReadAt(f, pos, hs), pos + |ReadAt(f, pos, hs)|) == Success(fr)
    ensures FrameList(f, hs, parse, total, fr.bodyOffset + fr.bodySize).Success?
    ensures HeadersInside(FrameList(f, hs, parse, total, fr.bodyOffset + fr.bodySize).value, total)
  {
    var h := ReadAt(f, pos, hs);
    FrameListUncons(f, hs, parse, total, pos);
    fr := parse(h, pos + |h|).value;
    var rest := FrameList(f, hs, parse, total, fr.bodyOffset + fr.bodySize).value;
    assert FrameList(f, hs, parse, total, pos).value == [fr] + rest;
    HeadersInsideTail(fr, rest, total);
  }

  /** The padding inside the tag ends the reader's walk on the tag as on the file. */
  lemma FrameListPaddingPrefix(f: string, hs: nat, parse: HeaderParser, total: nat, pos: nat)
    requires ParsesHeaders(parse, hs) && pos < total
    requires ReadAt(f, pos, hs) != [] && ReadAt(f, pos, hs)[0] == '\0'
    ensures FrameList(ReadAt(f, 0, total), hs, parse, total, pos) == FrameList(f, hs, parse, total, pos) == Success([])
  {
    var tag := ReadAt(f, 0, total);
    ReadAtPrefix(f, total, pos, 1);
    assert ReadAt(tag, pos, hs)[0] == ReadAt(tag, pos, 1)[0];
  }

  /** One header inside the tag: if the frames after it agree on the tag and the file, so do those from it. */
  lemma FrameListPrefixStep(f: string, hs: nat, parse: HeaderParser, total: nat, pos: nat, fr: FrameHeader)
    requires ParsesHeaders(parse, hs) && pos + hs <= total
    requires ReadAt(f, pos, hs) != [] && ReadAt(f, pos, hs)[0] != '\0'
    requires parse(ReadAt(f, pos, hs), pos + |ReadAt(f, pos, hs)|) == Success(fr)
    requires FrameList(ReadAt(f, 0, total), hs, parse, total, fr.bodyOffset + fr.bodySize) ==
             FrameList(f, hs, parse, total, fr.bodyOffset + fr.bodySize)
    ensures FrameList(ReadAt(f, 0, total), hs, parse, total, pos) == FrameList(f, hs, parse, total, pos)
  {
    var h := ReadAt(f, pos, hs);
    ReadAtPrefix(f, total, pos, hs);
    FrameListStep(ReadAt(f, 0, total), hs, parse, total, pos, h, fr);
    FrameListStep(f, hs, parse, total, pos, h, fr);
  }

  /**
   * The same, for the reader of ID3v2.3 tags itself on the file and the copy
   * loop on the tag read from it, while every frame header lies inside the tag.
   */
  lemma {:induction false} CopyWalkMatchesV23Reader(f: string, total: nat, pos: nat)
    requires FrameList(f, 10, HeaderParserOf(3), total, pos).Success?
    requires HeadersInside(FrameList(f, 10, HeaderParserOf(3), total, pos).value, total)
    ensures var w := CopyWalk(ReadAt(f, 0, total), total, pos, Plain);
      w.Success? && Follows(w.value, FrameList(f, 10, HeaderParserOf(3), total, pos).value)
  {
    V23ParserReadsHeaders();
    FrameListOfPrefix(f, 10, HeaderParserOf(3), total, pos);
    PlainWalkFollowsReader(ReadAt(f, 0, total), HeaderParserOf(3), total, pos);
  }
}
