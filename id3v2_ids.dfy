/**
 * The frame-ID tables of ID3v2.py: the frame IDs each of ID3v2.2.0, ID3v2.3.0
 * and ID3v2.4.0 defines, and the renaming of three-byte ID3v2.2 IDs to their
 * four-byte ID3v2.3 counterparts. The lists keep the source's entries in
 * the source's order; the renaming dictionary holds the source's entries
 * sorted by key. The long tables are written as a concatenation of rows of at
 * most sixteen entries, which keeps each literal small enough for the verifier
 * to reason about entry by entry.
 */
module ID3v2Ids {
  import opened PyStr

  /** Frame IDs of ID3v2.2.0 (section 4 of that standard). */
  const V22Ids: seq<string> := V22Row1 + V22Row2 + V22Row3 + V22Row4

  /** Frame IDs of ID3v2.3.0 (section 4 of that standard). */
  const V23Ids: seq<string> := V23Row1 + V23Row2 + V23Row3 + V23Row4 + V23Row5

  /** ID3v2.4.0 keeps every ID3v2.3.0 ID and adds the IDs of V24New. */
  const V24Ids: seq<string> := V23Ids + V24New

  /** Each ID3v2.2 ID and the ID3v2.3 ID that replaced it. */
  const V22ToV23: map<string, string> := Rename22Row1 + Rename22Row2 + Rename22Row3 + Rename22Row4

  const V22Row1: seq<string> := [
    "BUF", "CNT", "COM", "CRA", "CRM", "ETC", "EQU", "GEO", "IPL", "LNK", "MCI", "MLL",
    "PIC", "POP", "REV", "RVA"]
  const V22Row2: seq<string> := [
    "SLT", "STC", "TAL", "TBP", "TCM", "TCO", "TCR", "TDA", "TDY", "TEN", "TFT", "TIM",
    "TKE", "TLA", "TLE", "TMT"]
  const V22Row3: seq<string> := [
    "TOA", "TOF", "TOL", "TOR", "TOT", "TP1", "TP2", "TP3", "TP4", "TPA", "TPB", "TRC",
    "TRD", "TRK", "TSI", "TSS"]
  const V22Row4: seq<string> := [
    "TT1", "TT2", "TT3", "TXT", "TXX", "TYE", "UFI", "ULT", "WAF", "WAR", "WAS", "WCM",
    "WCP", "WPB", "WXX"]
  const V23Row1: seq<string> := [
    "AENC", "APIC", "COMM", "COMR", "ENCR", "EQUA", "ETCO", "GEOB", "GRID", "IPLS",
    "LINK", "MCDI", "MLLT", "OWNE", "PRIV"]
  const V23Row2: seq<string> := [
    "PCNT", "POPM", "POSS", "RBUF", "RVAD", "RVRB", "SYLT", "SYTC", "TALB", "TBPM",
    "TCOM", "TCON", "TCOP", "TDAT", "TDLY"]
  const V23Row3: seq<string> := [
    "TENC", "TEXT", "TFLT", "TIME", "TIT1", "TIT2", "TIT3", "TKEY", "TLAN", "TLEN",
    "TMED", "TOAL", "TOFN", "TOLY", "TOPE"]
  const V23Row4: seq<string> := [
    "TORY", "TOWN", "TPE1", "TPE2", "TPE3", "TPE4", "TPOS", "TPUB", "TRCK", "TRDA",
    "TRSN", "TRSO", "TSIZ", "TSRC", "TSSE"]
  const V23Row5: seq<string> := [
    "TYER", "TXXX", "UFID", "USER", "USLT", "WCOM", "WCOP", "WOAF", "WOAR", "WOAS",
    "WORS", "WPAY", "WPUB", "WXXX"]
  const V24New: seq<string> := [
    "ASPI", "EQU2", "RVA2", "SEEK", "SIGN", "TDEN", "TDOR", "TDRC", "TDRL", "TDTG",
    "TIPL", "TMCL", "TMOO", "TPRO", "TSOA", "TSOP", "TSOT", "TSST"]
  const Rename22Row1: map<string, string> := map[
    "BUF" := "RBUF", "CNT" := "PCNT", "COM" := "COMM", "CRA" := "AENC", "CRM" := "ENCR",
    "EQU" := "EQUA", "ETC" := "ETCO", "GEO" := "GEOB", "IPL" := "IPLS", "LNK" := "LINK",
    "MCI" := "MCDI", "MLL" := "MLLT", "PIC" := "APIC", "POP" := "POPM", "REV" := "RVRB",
    "RVA" := "RVAD"]
  const Rename22Row2: map<string, string> := map[
    "SLT" := "SYLT", "STC" := "SYTC", "TAL" := "TALB", "TBP" := "TBPM", "TCM" := "TCOM",
    "TCO" := "TCON", "TCR" := "TCOP", "TDA" := "TDAT", "TDY" := "TDLY", "TEN" := "TENC",
    "TFT" := "TFLT", "TIM" := "TIME", "TKE" := "TKEY", "TLA" := "TLAN", "TLE" := "TLEN",
    "TMT" := "TMED"]
  const Rename22Row3: map<string, string> := map[
    "TOA" := "TOPE", "TOF" := "TOFN", "TOL" := "TOLY", "TOR" := "TORY", "TOT" := "TOAL",
    "TP1" := "TPE1", "TP2" := "TPE2", "TP3" := "TPE3", "TP4" := "TPE4", "TPA" := "TPOS",
    "TPB" := "TPUB", "TRC" := "TSRC", "TRD" := "TRDA", "TRK" := "TRCK", "TSI" := "TSIZ",
    "TSS" := "TSSE"]
  const Rename22Row4: map<string, string> := map[
    "TT1" := "TIT1", "TT2" := "TIT2", "TT3" := "TIT3", "TXT" := "TEXT", "TXX" := "TXXX",
    "TYE" := "TYER", "UFI" := "UFID", "ULT" := "USLT", "WAF" := "WOAF", "WAR" := "WOAR",
    "WAS" := "WOAS", "WCM" := "WCOM", "WCP" := "WCOP", "WPB" := "WPUB", "WXX" := "WXXX"]
  /** The first four bytes of an ID, read as a big-endian number: orders IDs as strings. */
  function IdKey(id: string): (k: nat)
    ensures k < 0x1_0000_0000
  {
    (if |id| > 0 then Ord(id[0]) * 0x100_0000 else 0) + (if |id| > 1 then Ord(id[1]) * 0x1_0000 else 0) +
    (if |id| > 2 then Ord(id[2]) * 0x100 else 0) + (if |id| > 3 then Ord(id[3]) else 0)
  }

  /** Frame IDs starting with X, Y or Z are experimental and always accepted. */
  predicate IsExperimental(id: string) {
    id != [] && (id[0] == 'X' || id[0] == 'Y' || id[0] == 'Z')
  }

  lemma {:induction false} Rename22RowRange1()
    ensures forall k | k in Rename22Row1 :: IdKey(k) < 0x534C5400
  {
  }

  lemma {:induction false} Rename22RowRange2()
    ensures forall k | k in Rename22Row2 :: 0x534C5400 <= IdKey(k) && IdKey(k) < 0x544F4100
  {
  }

  lemma {:induction false} Rename22RowRange3()
    ensures forall k | k in Rename22Row3 :: 0x544F4100 <= IdKey(k) && IdKey(k) < 0x54543100
  {
  }

  lemma {:induction false} Rename22RowRange4()
    ensures forall k | k in Rename22Row4 :: 0x54543100 <= IdKey(k)
  {
  }

  lemma {:induction false} Rename22Lookup1()
    ensures forall k | k in Rename22Row1 :: k in V22ToV23 && V22ToV23[k] == Rename22Row1[k]
  {
    Rename22RowRange1(); Rename22RowRange2(); Rename22RowRange3(); Rename22RowRange4();
  }

  lemma {:induction false} Rename22Row1Facts()
    ensures forall k | k in Rename22Row1 :: k in V22Ids && Rename22Row1[k] in V23Ids
  {
  }

  lemma {:induction false} Rename22Lookup2()
    ensures forall k | k in Rename22Row2 :: k in V22ToV23 && V22ToV23[k] == Rename22Row2[k]
  {
    Rename22RowRange1(); Rename22RowRange2(); Rename22RowRange3(); Rename22RowRange4();
  }

  lemma {:induction false} Rename22Row2Facts()
    ensures forall k | k in Rename22Row2 :: k in V22Ids && Rename22Row2[k] in V23Ids
  {
  }

  lemma {:induction false} Rename22Lookup3()
    ensures forall k | k in Rename22Row3 :: k in V22ToV23 && V22ToV23[k] == Rename22Row3[k]
  {
    Rename22RowRange1(); Rename22RowRange2(); Rename22RowRange3(); Rename22RowRange4();
  }

  lemma {:induction false} Rename22Row3Facts()
    ensures forall k | k in Rename22Row3 :: k in V22Ids && Rename22Row3[k] in V23Ids
  {
  }

  lemma {:induction false} Rename22Lookup4()
    ensures forall k | k in Rename22Row4 :: k in V22ToV23 && V22ToV23[k] == Rename22Row4[k]
  {
    Rename22RowRange1(); Rename22RowRange2(); Rename22RowRange3(); Rename22RowRange4();
  }

  lemma {:induction false} Rename22Row4Facts()
    ensures forall k | k in Rename22Row4 :: k in V22Ids && Rename22Row4[k] in V23Ids
  {
  }

  /** Every ID3v2.2 ID is three bytes long. */
  lemma {:induction false} V22IdLengths()
    ensures forall id | id in V22Ids :: |id| == 3
  {
  }

  lemma {:induction false} V23Row1Lengths()
    ensures forall id | id in V23Row1 :: |id| == 4
  {
  }

  lemma {:induction false} V23Row2Lengths()
    ensures forall id | id in V23Row2 :: |id| == 4
  {
  }

  lemma {:induction false} V23Row3Lengths()
    ensures forall id | id in V23Row3 :: |id| == 4
  {
  }

  lemma {:induction false} V23Row4Lengths()
    ensures forall id | id in V23Row4 :: |id| == 4
  {
  }

  lemma {:induction false} V23Row5Lengths()
    ensures forall id | id in V23Row5 :: |id| == 4
  {
  }

  lemma {:induction false} V24NewLengths()
    ensures forall id | id in V24New :: |id| == 4
  {
  }

  /** Every ID3v2.3 and ID3v2.4 ID is four bytes long. */
  lemma {:induction false} V24IdLengths()
    ensures forall id | id in V24Ids :: |id| == 4
  {
    V23Row1Lengths(); V23Row2Lengths(); V23Row3Lengths(); V23Row4Lengths(); V23Row5Lengths(); V24NewLengths();
  }

  /** Every ID3v2.3 ID is an ID3v2.4 ID. */
  lemma {:induction false} V23InV24(id: string)
    requires id in V23Ids
    ensures id in V24Ids
  {
  }

  /** Every ID3v2.2 ID can be renamed. */
  lemma {:induction false} V22Renamable()
    ensures forall id | id in V22Ids :: id in V22ToV23
  {
  }

  /** Only ID3v2.2 IDs are renamed, and each becomes an ID3v2.3 ID. */
  lemma {:induction false} RenamedIdsAreV23()
    ensures forall id | id in V22ToV23 :: id in V22Ids && V22ToV23[id] in V23Ids
  {
    Rename22Lookup1(); Rename22Lookup2(); Rename22Lookup3(); Rename22Lookup4();
    Rename22Row1Facts(); Rename22Row2Facts(); Rename22Row3Facts(); Rename22Row4Facts();
  }
}
