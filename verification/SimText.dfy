/** Alpha fields of the SIM (home-item/util.c:1090-1270), coded as Annex A of ETSI
    TS 102 221 describes: what the reader makes of a field, what it accepts, and what
    survives being stored. */
module SimText {
  import opened Bits
  import opened GsmTableChecks
  import opened GsmTableData
  import opened GsmTables
  import opened GsmText
  import opened GsmConversions
  import Utf8

  const PADDING := 0xFF

  function DefaultTable(): (t: ConversionTable)
    ensures LockingConsistent(t) && Consistent(t) && |t.gsmLocking| == 128
  {
    AlphabetConsistent(Default);
    AlphabetLookup(Default)
  }

  // Ucs2 holds the bytes that are handed to g_convert
  datatype SimOutcome = Refused | Text(utf8: seq<octet>) | Ucs2Units(units: seq<octet>)

  ghost predicate IsUnits(t: seq<nat>) {
    forall i :: 0 <= i < |t| ==> t[i] < 0x10000
  }

  // ------------------------------------------- 0x81 and 0x82: one character

  // The character at the front of b, if the first pass lets it through; an escape
  // without an entry reads as GUND, which is not 0 and so passes
  function FrontChar(b: seq<octet>, base: nat, t: ConversionTable): nat
    requires b != [] && |t.gsmLocking| == 128 && (b[0] == ESCAPE ==> |b| >= 2)
  {
    if b[0] >= 0x80 then (b[0] % 0x80 + base) % 0x10000
    else if b[0] == ESCAPE then GsmSingleLookup(b[1], t)
    else GsmLockingLookup(b[0], t)
  }

  // Both its bytes and what it adds to the character count
  function FrontLength(b: seq<octet>): nat
    requires b != []
  {
    if b[0] == ESCAPE then 2 else 1
  }

  predicate FrontAllowed(b: seq<octet>, base: nat, t: ConversionTable)
    requires b != [] && |t.gsmLocking| == 128
  {
    if b[0] >= 0x80 then !(0xD800 <= FrontChar(b, base, t) < 0xE000)
    else b[0] == ESCAPE ==> |b| >= 2 && FrontChar(b, base, t) != 0
  }

  // ------------------------------------------------- 0x81 and 0x82: the field

  datatype Scan = Scanned(chars: seq<nat>, used: nat) | Bad

  function ScanCons(c: nat, n: nat, s: Scan): Scan {
    match s
    case Bad => Bad
    case Scanned(t, used) => Scanned([c] + t, n + used)
  }

  // Reads characters until `wanted` are counted or b ends
  function ScanChars(b: seq<octet>, wanted: int, base: nat, t: ConversionTable): Scan
    requires |t.gsmLocking| == 128
    decreases |b|
  {
    if b == [] || wanted <= 0 then if wanted == 0 then Scanned([], 0) else Bad
    else if !FrontAllowed(b, base, t) then Bad
    else ScanCons(FrontChar(b, base, t), FrontLength(b),
                  ScanChars(b[FrontLength(b)..], wanted - FrontLength(b), base, t))
  }

  predicate IsPadding(b: seq<octet>) {
    forall i :: 0 <= i < |b| ==> b[i] == PADDING
  }

  lemma {:induction false} ScannedUnits(b: seq<octet>, wanted: int, base: nat, t: ConversionTable)
    requires LockingConsistent(t) && Consistent(t) && ScanChars(b, wanted, base, t).Scanned?
    ensures IsUnits(ScanChars(b, wanted, base, t).chars) && ScanChars(b, wanted, base, t).used <= |b|
  {
    hide GsmSingleLookup;
    if b != [] && wanted > 0 {
      if b[0] == ESCAPE {
        GsmSingleComplete(b[1], t);
      }
      ScannedUnits(b[FrontLength(b)..], wanted - FrontLength(b), base, t);
    }
  }

  // The field behind its header
  function DecodeField(b: seq<octet>, wanted: nat, base: nat): SimOutcome {
    var s := ScanChars(b, wanted, base, DefaultTable());
    if s.Bad? then Refused
    else
      ScannedUnits(b, wanted, base, DefaultTable());
      if IsPadding(b[s.used..]) then Text(Utf8.EncodeAll(s.chars)) else Refused
  }

  // -------------------------------------------------------- the whole field

  // Up to the first padding octet
  function Unpadded(b: seq<octet>): (i: nat)
    ensures i <= |b| && (i < |b| ==> b[i] == PADDING) && forall k :: 0 <= k < i ==> b[k] != PADDING
  {
    if b == [] || b[0] == PADDING then 0 else 1 + Unpadded(b[1..])
  }

  // Up to the first padding unit
  function UnpaddedUnits(b: seq<octet>): (i: nat)
    ensures i <= |b|
  {
    if |b| < 2 || (b[0] == PADDING && b[1] == PADDING) then 0 else 2 + UnpaddedUnits(b[2..])
  }

  function DecodeGsmField(b: seq<octet>): SimOutcome {
    var d := DecodeText(b[..Unpadded(b)], DefaultTable(), DefaultTable());
    if d.Undecodable? then Refused
    else
      DecodedIsText(b[..Unpadded(b)], DefaultTable(), DefaultTable());
      Text(Utf8.EncodeAll(d.chars))
  }

  function DecodeUcs2Field(b: seq<octet>): SimOutcome {
    if |b| % 2 == 1 && b[|b| - 1] != PADDING then Refused
    else
      var whole := b[..|b| - |b| % 2];
      Ucs2Units(whole[..UnpaddedUnits(whole)])
  }

  // sim_string_to_utf8
  function SimDecode(b: seq<octet>): SimOutcome {
    if b == [] then Refused
    else if b[0] < 0x80 then DecodeGsmField(b)
    else if b[0] == 0x80 then DecodeUcs2Field(b[1..])
    else if b[0] == 0x81 then
      if |b| < 3 || b[1] > |b| - 3 then Refused else DecodeField(b[3..], b[1], Shl(b[2], 7))
    else if b[0] == 0x82 then
      if |b| < 4 || b[1] > |b| - 4 then Refused else DecodeField(b[4..], b[1], Unit(b[2], b[3]))
    else Refused
  }

  // ------------------------------------------ what 0x81 and 0x82 fields are

  type septet = x: int | 0 <= x < 128

  // The pieces of a field as the coding defines them
  datatype Piece = OffsetChar(v: septet) | GsmChar(plain: septet) | EscapedChar(code: octet)

  predicate IsPiece(p: Piece, base: nat) {
    match p
    case OffsetChar(v) => !(0xD800 <= (v + base) % 0x10000 < 0xE000)
    case GsmChar(k) => k != ESCAPE
    case EscapedChar(_) => true
  }

  function PieceBytes(p: Piece): seq<octet> {
    match p
    case OffsetChar(v) => [0x80 + v]
    case GsmChar(k) => [k]
    case EscapedChar(k) => [ESCAPE, k]
  }

  function PieceChar(p: Piece, base: nat, t: ConversionTable): nat
    requires |t.gsmLocking| == 128
  {
    match p
    case OffsetChar(v) => (v + base) % 0x10000
    case GsmChar(k) => GsmLockingLookup(k, t)
    case EscapedChar(k) => GsmSingleLookup(k, t)
  }

  ghost predicate ArePieces(ps: seq<Piece>, base: nat) {
    forall i :: 0 <= i < |ps| ==> IsPiece(ps[i], base)
  }

  function PiecesBytes(ps: seq<Piece>): seq<octet> {
    if ps == [] then [] else PieceBytes(ps[0]) + PiecesBytes(ps[1..])
  }

  function PiecesChars(ps: seq<Piece>, base: nat, t: ConversionTable): seq<nat>
    requires |t.gsmLocking| == 128
  {
    if ps == [] then [] else [PieceChar(ps[0], base, t)] + PiecesChars(ps[1..], base, t)
  }

  // No escape reads as U+0000
  lemma NeverNul(k: nat, t: ConversionTable)
    requires Consistent(t)
    ensures GsmSingleLookup(k, t) != 0
  {
    GsmSingleComplete(k, t);
  }

  lemma FrontIsPiece(p: Piece, rest: seq<octet>, base: nat, t: ConversionTable)
    requires LockingConsistent(t) && Consistent(t) && IsPiece(p, base)
    ensures var b := PieceBytes(p) + rest;
      && FrontAllowed(b, base, t) && FrontLength(b) == |PieceBytes(p)|
      && FrontChar(b, base, t) == PieceChar(p, base, t)
      && b[FrontLength(b)..] == rest
  {
    if p.EscapedChar? {
      NeverNul(p.code, t);
    }
  }

  /** The reader takes a field's pieces one by one, whatever follows them. */
  lemma {:induction false} ScanPieces(ps: seq<Piece>, rest: seq<octet>, base: nat, t: ConversionTable)
    requires LockingConsistent(t) && Consistent(t) && ArePieces(ps, base)
    ensures ScanChars(PiecesBytes(ps) + rest, |PiecesBytes(ps)|, base, t)
         == Scanned(PiecesChars(ps, base, t), |PiecesBytes(ps)|)
  {
    if ps != [] {
      var tail := PiecesBytes(ps[1..]) + rest;
      assert PiecesBytes(ps) + rest == PieceBytes(ps[0]) + tail;
      FrontIsPiece(ps[0], tail, base, t);
      ScanPieces(ps[1..], rest, base, t);
    }
  }

  function FrontPiece(b: seq<octet>): Piece
    requires b != [] && (b[0] == ESCAPE ==> |b| >= 2)
  {
    if b[0] >= 0x80 then OffsetChar(b[0] - 0x80)
    else if b[0] == ESCAPE then EscapedChar(b[1])
    else GsmChar(b[0])
  }

  /** Whatever the reader takes is pieces, and it takes exactly the counted bytes. */
  lemma {:induction false} ScannedIsPieces(b: seq<octet>, wanted: int, base: nat, t: ConversionTable)
    returns (ps: seq<Piece>)
    requires |t.gsmLocking| == 128 && ScanChars(b, wanted, base, t).Scanned?
    ensures ScanChars(b, wanted, base, t).used == wanted <= |b|
    ensures ArePieces(ps, base) && PiecesBytes(ps) == b[..wanted]
    decreases |b|
  {
    hide GsmSingleLookup, GsmLockingLookup;
    ps := [];
    if b != [] && wanted > 0 {
      var n := FrontLength(b);
      var tail := ScannedIsPieces(b[n..], wanted - n, base, t);
      ps := [FrontPiece(b)] + tail;
      assert ps[1..] == tail;
      assert b[..wanted] == b[..n] + b[n..][..wanted - n];
    }
  }

  /** A field is accepted exactly when the counted bytes are well-formed pieces (an escape
      counts two) and the rest is padding; its text is the pieces' characters. */
  lemma FieldAcceptance(b: seq<octet>, wanted: nat, base: nat, utf8: seq<octet>)
    ensures DecodeField(b, wanted, base) == Text(utf8) <==>
      && wanted <= |b| && IsPadding(b[wanted..])
      && exists ps ::
           && ArePieces(ps, base) && PiecesBytes(ps) == b[..wanted]
           && IsUnits(PiecesChars(ps, base, DefaultTable()))
           && utf8 == Utf8.EncodeAll(PiecesChars(ps, base, DefaultTable()))
  {
    hide DefaultTable, GsmSingleLookup;
    var t := DefaultTable();
    if ScanChars(b, wanted, base, t).Scanned? {
      var ps := ScannedIsPieces(b, wanted, base, t);
      assert b == PiecesBytes(ps) + b[wanted..];
      ScanPieces(ps, b[wanted..], base, t);
      ScannedUnits(b, wanted, base, t);
    }
    if exists ps :: wanted <= |b| && ArePieces(ps, base) && PiecesBytes(ps) == b[..wanted] {
      forall ps | wanted <= |b| && ArePieces(ps, base) && PiecesBytes(ps) == b[..wanted]
        ensures ScanChars(b, wanted, base, t) == Scanned(PiecesChars(ps, base, t), wanted)
      {
        assert b == PiecesBytes(ps) + b[wanted..];
        ScanPieces(ps, b[wanted..], base, t);
      }
    }
  }

  /** An escape without an entry is not refused: it reads as U+FFFF. */
  lemma UnknownEscapeReads(k: octet, high: octet)
    requires GsmSingleLookup(k, DefaultTable()) == GUND
    ensures SimDecode([0x81, 2, high, ESCAPE, k]) == Text([0xEF, 0xBF, 0xBF])
  {
    hide DefaultTable, GsmSingleLookup;
    var b: seq<octet>, ps := [ESCAPE, k], [EscapedChar(k)];
    var field: seq<octet> := [0x81, 2, high, ESCAPE, k];
    assert PiecesBytes(ps) == b[..2];
    assert PiecesChars(ps, Shl(high, 7), DefaultTable()) == [GUND];
    assert Utf8.EncodeAll([GUND]) == [0xEF, 0xBF, 0xBF];
    FieldAcceptance(b, 2, Shl(high, 7), [0xEF, 0xBF, 0xBF]);
    assert field[3..] == b;
  }

  // ------------------------------------------------------- storing a text

  // Drops 0x1B from the end
  function StripEscapes(s: seq<octet>): (r: seq<octet>)
    ensures r <= s && (r == [] || r[|r| - 1] != ESCAPE)
  {
    if s != [] && s[|s| - 1] == ESCAPE then StripEscapes(s[..|s| - 1]) else s
  }

  // What utf8_to_sim_string keeps of the septets
  function SimTruncate(s: seq<octet>, maxLength: nat): seq<octet> {
    if |s| > maxLength then StripEscapes(s[..maxLength]) else s
  }

  function PrefixSeptets(t: seq<nat>, k: nat, lt: ConversionTable, st: ConversionTable): seq<octet>
    requires k <= |t|
  {
    var e := EncodeText(t[..k], lt, st);
    if e.Encoded? then e.septets else []
  }

  // The encoding of the first k characters fits, and no longer one does
  ghost predicate LongestFit(t: seq<nat>, k: nat, max: nat, lt: ConversionTable, st: ConversionTable) {
    && k <= |t| && |PrefixSeptets(t, k, lt, st)| <= max
    && forall j :: k < j <= |t| ==> |PrefixSeptets(t, j, lt, st)| > max
  }

  lemma PrefixGrows(t: seq<nat>, j: nat, k: nat, lt: ConversionTable, st: ConversionTable)
    requires EncodeText(t, lt, st).Encoded? && j <= k <= |t|
    ensures PrefixSeptets(t, j, lt, st) <= PrefixSeptets(t, k, lt, st)
    ensures EncodeText(t[..k], lt, st).Encoded?
    ensures EncodeText(t[j..k], lt, st).Encoded?
    ensures PrefixSeptets(t, k, lt, st) == PrefixSeptets(t, j, lt, st) + EncodeText(t[j..k], lt, st).septets
  {
    assert t == t[..k] + t[k..];
    EncodeAppend(t[..k], t[k..], lt, st);
    assert t[..k] == t[..j] + t[j..k];
    EncodeAppend(t[..j], t[j..k], lt, st);
  }

  /** Some prefix is the longest that fits. */
  lemma {:induction false} FindLongestFit(t: seq<nat>, n: nat, max: nat, lt: ConversionTable, st: ConversionTable)
    returns (k: nat)
    requires EncodeText(t, lt, st).Encoded? && n <= |t|
    requires forall j :: n < j <= |t| ==> |PrefixSeptets(t, j, lt, st)| > max
    ensures LongestFit(t, k, max, lt, st)
    decreases n
  {
    if |PrefixSeptets(t, n, lt, st)| <= max {
      k := n;
    } else {
      assert n > 0 by {
        assert t[..0] == [];
      }
      k := FindLongestFit(t, n - 1, max, lt, st);
    }
  }

  lemma StripNothing(s: seq<octet>)
    requires s == [] || s[|s| - 1] != ESCAPE
    ensures StripEscapes(s) == s
    ensures StripEscapes(s + [ESCAPE]) == s
  {
    assert (s + [ESCAPE])[..|s|] == s;
  }

  // Cutting inside the character c that follows e
  lemma CutInside(s: seq<octet>, e: seq<octet>, c: seq<octet>, max: nat)
    requires e + c <= s && |e| <= max < |e| + |c|
    requires |c| <= 2 && (|c| == 2 ==> c[0] == ESCAPE)
    requires e == [] || e[|e| - 1] != ESCAPE
    ensures SimTruncate(s, max) == e
  {
    hide StripEscapes;
    StripNothing(e);
    if max == |e| {
      assert s[..max] == e;
    } else {
      assert s[max - 1] == (e + c)[max - 1] == ESCAPE;
      assert s[..max] == s[..max - 1] + [s[max - 1]];
      assert s[..max - 1] == e;
    }
  }

  /** Storing keeps the longest run of whole characters that fits. */
  lemma TruncationKeepsLongestFit(t: seq<nat>, k: nat, max: nat, lt: ConversionTable, st: ConversionTable)
    requires LockingConsistent(lt) && Consistent(st) && EncodeText(t, lt, st).Encoded?
    requires LongestFit(t, k, max, lt, st)
    ensures SimTruncate(EncodeText(t, lt, st).septets, max) == PrefixSeptets(t, k, lt, st)
  {
    hide EncodeText, LockingConsistent, Consistent;
    assert t[..|t|] == t;
    if k < |t| {
      PrefixGrows(t, k, k + 1, lt, st);
      PrefixGrows(t, k + 1, |t|, lt, st);
      assert t[k..k + 1] == [t[k]];
      OneEncoded(t[k], lt, st);
      PrefixEndsClean(t, k, lt, st);
      CutInside(EncodeText(t, lt, st).septets, PrefixSeptets(t, k, lt, st), EncodeText([t[k]], lt, st).septets, max);
    }
  }

  lemma PrefixEndsClean(t: seq<nat>, k: nat, lt: ConversionTable, st: ConversionTable)
    requires LockingConsistent(lt) && Consistent(st) && k <= |t|
    ensures var e := PrefixSeptets(t, k, lt, st); e == [] || e[|e| - 1] != ESCAPE
  {
    hide LockingConsistent, Consistent;
    var p := t[..k];
    if p != [] && EncodeText(p, lt, st).Encoded? {
      EncodedEndsClean(p, lt, st);
    }
  }

  /** A stored text, padded as the SIM pads it, is read back as the characters that fitted,
      with U+00A0 turned into a space. */
  lemma StoredTextReadsBack(t: seq<nat>, k: nat, max: nat, padding: seq<octet>)
    requires EncodeText(t, DefaultTable(), DefaultTable()).Encoded? && IsPadding(padding)
    requires LongestFit(t, k, max, DefaultTable(), DefaultTable())
    ensures
      var stored := SimTruncate(EncodeText(t, DefaultTable(), DefaultTable()).septets, max);
      && (stored == [] || stored[|stored| - 1] != ESCAPE)
      && |stored| <= max
      && (stored != [] ==>
            IsUnits(FoldAll(t[..k])) && SimDecode(stored + padding) == Text(Utf8.EncodeAll(FoldAll(t[..k]))))
  {
    hide EncodeText, LockingConsistent, Consistent, DefaultTable, DecodeText;
    var table := DefaultTable();
    var stored := PrefixSeptets(t, k, table, table);
    TruncationKeepsLongestFit(t, k, max, table, table);
    PrefixEndsClean(t, k, table, table);
    if stored != [] {
      EncodedIsSeptets(t[..k], table, table);
      TextRoundTrip(t[..k], stored, table, table);
      DecodedIsText(stored, table, table);
      UnpaddedAt(stored, padding);
    }
  }

  lemma UnpaddedAt(s: seq<octet>, padding: seq<octet>)
    requires IsPadding(padding) && forall i :: 0 <= i < |s| ==> s[i] < 128
    ensures Unpadded(s + padding) == |s| && (s + padding)[..|s|] == s
  {
    hide Unpadded;
    var b := s + padding;
    assert forall k :: 0 <= k < |s| ==> b[k] == s[k];
    assert padding != [] ==> b[|s|] == padding[0];
  }
}
