/** The formats of a SIM alpha field, header and all (home-item/util.c:1101-1152), as
    Annex A of ETSI TS 102 221 describes them: which octets say what. */
module SimFormats {
  import opened Bits
  import opened GsmTableChecks
  import opened GsmTableData
  import opened GsmTables
  import opened GsmText
  import opened GsmConversions
  import opened SimText
  import GsmAlphabet
  import Utf8

  lemma BaseOf81(p: octet)
    ensures Shl(p, 7) == 128 * p
  {
    Pow2Values();
    ShlIsProduct(p, 7);
  }

  lemma BaseOf82(hi: octet, lo: octet)
    ensures Unit(hi, lo) == 256 * hi + lo
  {
    Pow2Values();
    OrDisjoint(lo, hi, 8);
    ShlIsProduct(hi, 8);
  }

  // The octets behind a header, split where the count says
  ghost predicate IsField(b: seq<octet>, n: nat, base: nat, ps: seq<Piece>) {
    && n <= |b| && PiecesBytes(ps) == b[..n] && ArePieces(ps, base)
    && forall i :: n <= i < |b| ==> b[i] == 0xFF
  }

  /** A field that starts with 0x81 is text exactly when a count, a base and as many
      octets of pieces follow, and nothing else but 0xFF: offsets count from 128 times
      the base. */
  lemma Format81(b: seq<octet>, base: nat, utf8: seq<octet>)
    requires |b| >= 3 ==> base == 128 * (b[2] as int)
    requires b != [] && b[0] == 0x81
    ensures SimDecode(b) == Text(utf8) <==>
      && |b| >= 3
      && exists ps ::
           && IsField(b[3..], b[1], base, ps)
           && IsUnits(PiecesChars(ps, base, DefaultTable()))
           && utf8 == Utf8.EncodeAll(PiecesChars(ps, base, DefaultTable()))
  {
    hide DecodeField, DefaultTable, PiecesChars, PiecesBytes, ArePieces, Utf8.EncodeAll, Shl, IsUnits;
    if |b| >= 3 {
      BaseOf81(b[2]);
      FieldAcceptance(b[3..], b[1], base, utf8);
      TailPadding(b[3..], b[1]);
    }
  }

  /** The same for 0x82, whose base is a whole 16-bit code point. */
  lemma Format82(b: seq<octet>, base: nat, utf8: seq<octet>)
    requires |b| >= 4 ==> base == 256 * (b[2] as int) + b[3] as int
    requires b != [] && b[0] == 0x82
    ensures SimDecode(b) == Text(utf8) <==>
      && |b| >= 4
      && exists ps ::
           && IsField(b[4..], b[1], base, ps)
           && IsUnits(PiecesChars(ps, base, DefaultTable()))
           && utf8 == Utf8.EncodeAll(PiecesChars(ps, base, DefaultTable()))
  {
    hide DecodeField, DefaultTable, PiecesChars, PiecesBytes, ArePieces, Utf8.EncodeAll, Unit, IsUnits;
    if |b| >= 4 {
      BaseOf82(b[2], b[3]);
      FieldAcceptance(b[4..], b[1], base, utf8);
      TailPadding(b[4..], b[1]);
    }
  }

  lemma TailPadding(b: seq<octet>, n: nat)
    ensures n <= |b| ==> (IsPadding(b[n..]) <==> forall i :: n <= i < |b| ==> b[i] == 0xFF)
  {
    if n <= |b| {
      assert forall i :: n <= i < |b| ==> b[i] == b[n..][i - n];
      assert forall i :: 0 <= i < |b| - n ==> b[n..][i] == b[n + i];
    }
  }

  /** One octet with the top bit set, in a 0x81 field: the base counts in half-pages. */
  lemma OffsetOctet81(p: octet, v: septet, padding: seq<octet>)
    requires IsPadding(padding)
    ensures 128 * p + v < 0x10000
    ensures
      var b := [0x81, 1, p, 0x80 + v] + padding;
      SimDecode(b) == if 0xD800 <= 128 * p + v < 0xE000 then Refused else Text(Utf8.Encode(128 * p + v))
  {
    hide DecodeField, DefaultTable, Utf8.Encode, Shl;
    var b: seq<octet> := [0x81, 1, p, 0x80 + v] + padding;
    assert b[3..] == [0x80 + v] + padding;
    OneOffset(128 * p, v, padding);
    BaseOf81(p);
  }

  /** The same in a 0x82 field; a sum past U+FFFF starts again at 0. */
  lemma OffsetOctet82(hi: octet, lo: octet, v: septet, padding: seq<octet>)
    requires IsPadding(padding)
    ensures
      var b := [0x82, 1, hi, lo, 0x80 + v] + padding;
      var c := (256 * hi + lo + v) % 0x10000;
      SimDecode(b) == if 0xD800 <= c < 0xE000 then Refused else Text(Utf8.Encode(c))
  {
    var b: seq<octet> := [0x82, 1, hi, lo, 0x80 + v] + padding;
    assert b[4..] == [0x80 + v] + padding;
    OneOffset(256 * hi + lo, v, padding);
    hide DecodeField, DefaultTable, Utf8.Encode, Unit;
    BaseOf82(hi, lo);
  }

  lemma OneOffset(base: nat, v: septet, padding: seq<octet>)
    requires IsPadding(padding)
    ensures
      var c := (base + v) % 0x10000;
      DecodeField([0x80 + v] + padding, 1, base)
      == if 0xD800 <= c < 0xE000 then Refused else Text(Utf8.Encode(c))
  {
    hide DefaultTable, GsmSingleLookup, GsmLockingLookup;
    var b: seq<octet> := [0x80 + v] + padding;
    assert b[1..] == padding && padding[0..] == padding;
    OneScanned(b, base);
    OneEncodedAll((base + v) % 0x10000);
  }

  lemma OneScanned(b: seq<octet>, base: nat)
    requires b != [] && b[0] >= 0x80
    ensures
      var c := (b[0] - 0x80 + base) % 0x10000;
      ScanChars(b, 1, base, DefaultTable()) == if 0xD800 <= c < 0xE000 then Bad else Scanned([c], 1)
  {
    hide DefaultTable, GsmSingleLookup, GsmLockingLookup;
    assert ScanChars(b[1..], 0, base, DefaultTable()) == Scanned([], 0);
  }

  lemma OneEncodedAll(c: nat)
    requires c < 0x10000
    ensures Utf8.EncodeAll([c]) == Utf8.Encode(c)
  {
    hide Utf8.Encode;
    assert [c][1..] == [];
    assert Utf8.Encode(c) + [] == Utf8.Encode(c);
  }

  /** One octet without it, in either format: a character of the default alphabet. */
  lemma PlainOctet(p: octet, k: septet, padding: seq<octet>)
    requires IsPadding(padding) && k != ESCAPE
    ensures GsmAlphabet.LockingChar(Default, k) < 0x10000
    ensures SimDecode([0x81, 1, p, k] + padding) == Text(Utf8.Encode(GsmAlphabet.LockingChar(Default, k)))
    ensures SimDecode([0x82, 1, p, p, k] + padding) == Text(Utf8.Encode(GsmAlphabet.LockingChar(Default, k)))
  {
    var b: seq<octet>, b': seq<octet> := [0x81, 1, p, k] + padding, [0x82, 1, p, p, k] + padding;
    assert b[3..] == [k] + padding && b'[4..] == [k] + padding;
    OnePlain(Shl(p, 7), k, padding);
    OnePlain(Unit(p, p), k, padding);
    hide DecodeField, DefaultTable, Utf8.Encode, Shl, Unit;
  }

  lemma OnePlain(base: nat, k: septet, padding: seq<octet>)
    requires IsPadding(padding) && k != ESCAPE
    ensures GsmAlphabet.LockingChar(Default, k) < 0x10000
    ensures DecodeField([k] + padding, 1, base) == Text(Utf8.Encode(GsmAlphabet.LockingChar(Default, k)))
  {
    hide DefaultTable, GsmSingleLookup, GsmLockingLookup, GsmAlphabet.LockingChar, LockingConsistent;
    var b: seq<octet> := [k] + padding;
    assert b[1..] == padding && padding[0..] == padding;
    DefaultLocking(k);
    assert ScanChars(b[1..], 0, base, DefaultTable()) == Scanned([], 0);
    assert ScanChars(b, 1, base, DefaultTable()) == Scanned([GsmLockingLookup(k, DefaultTable())], 1);
    OneEncodedAll(GsmLockingLookup(k, DefaultTable()));
  }

  lemma DefaultLocking(k: septet)
    ensures |DefaultTable().gsmLocking| == 128
    ensures GsmLockingLookup(k, DefaultTable()) == GsmAlphabet.LockingChar(Default, k) < 0x10000
  {
    hide AlphabetLookup, GsmAlphabet.LockingChar;
    GsmAlphabet.LockingIsStandard(Default, k);
    assert LockingConsistent(DefaultTable());
  }

  /** An escape and its code, in either format: the character that the default single-shift
      table has there, or U+FFFF. */
  lemma EscapedOctets(p: octet, k: octet, padding: seq<octet>)
    requires IsPadding(padding)
    ensures GsmSingleLookup(k, AlphabetLookup(Default)) < 0x10000
    ensures
      var c := GsmSingleLookup(k, AlphabetLookup(Default));
      && SimDecode([0x81, 2, p, 0x1B, k] + padding) == Text(Utf8.Encode(c))
      && SimDecode([0x82, 2, p, p, 0x1B, k] + padding) == Text(Utf8.Encode(c))
  {
    hide DecodeField, AlphabetLookup, DefaultTable, Utf8.Encode, Shl, Unit, GsmSingleLookup;
    var b: seq<octet>, b': seq<octet> := [0x81, 2, p, 0x1B, k] + padding, [0x82, 2, p, p, 0x1B, k] + padding;
    assert b[3..] == [0x1B, k] + padding && b'[4..] == [0x1B, k] + padding;
    OneEscaped(Shl(p, 7), k, padding);
    OneEscaped(Unit(p, p), k, padding);
  }

  lemma OneEscaped(base: nat, k: octet, padding: seq<octet>)
    requires IsPadding(padding)
    ensures GsmSingleLookup(k, AlphabetLookup(Default)) < 0x10000
    ensures DecodeField([0x1B, k] + padding, 2, base) == Text(Utf8.Encode(GsmSingleLookup(k, AlphabetLookup(Default))))
  {
    hide AlphabetLookup, GsmSingleLookup, GsmLockingLookup, LockingConsistent, Consistent;
    var b: seq<octet> := [0x1B, k] + padding;
    assert b[2..] == padding && padding[0..] == padding;
    NeverNul(k, DefaultTable());
    GsmSingleComplete(k, DefaultTable());
    assert ScanChars(b[2..], 0, base, DefaultTable()) == Scanned([], 0);
    assert ScanChars(b, 2, base, DefaultTable()) == Scanned([GsmSingleLookup(k, DefaultTable())], 2);
    OneEncodedAll(GsmSingleLookup(k, DefaultTable()));
  }

  /** A field that starts below 0x80 is septets up to the first 0xFF, and text exactly
      when they all are decodable. */
  lemma FormatGsm(s: seq<octet>, rest: seq<octet>)
    requires s != [] && s[0] < 0x80 && 0xFF !in s && (rest == [] || rest[0] == 0xFF)
    ensures
      match DecodeText(s, DefaultTable(), DefaultTable())
      case Undecodable(_) => SimDecode(s + rest) == Refused
      case Decoded(t) => IsText(t) && SimDecode(s + rest) == Text(Utf8.EncodeAll(t))
  {
    hide DecodeText, DefaultTable, Utf8.EncodeAll, Unpadded;
    var b := s + rest;
    assert forall k :: 0 <= k < |s| ==> b[k] == s[k];
    assert rest != [] ==> b[|s|] == rest[0];
    assert Unpadded(b) == |s|;
    assert b[..|s|] == s;
    if DecodeText(s, DefaultTable(), DefaultTable()).Decoded? {
      DecodedIsText(s, DefaultTable(), DefaultTable());
    }
  }

  /** A field that starts with 0x80 hands over the 16-bit units before the first 0xFFFF. A
      stray last octet must be 0xFF. */
  lemma Format80(u: seq<octet>, rest: seq<octet>)
    requires |u| % 2 == 0
    requires forall i :: 0 <= i < |u| / 2 ==> !(u[2 * i] == 0xFF && u[2 * i + 1] == 0xFF)
    requires |rest| <= 1 || (rest[0] == 0xFF && rest[1] == 0xFF)
    ensures SimDecode([0x80] + u + rest)
      == if |rest| % 2 == 1 && rest[|rest| - 1] != 0xFF then Refused else Ucs2Units(u)
  {
    hide UnpaddedUnits;
    var b := [0x80] + u + rest;
    var f := u + rest;
    assert b[1..] == f;
    assert rest != [] ==> f[|f| - 1] == rest[|rest| - 1];
    var even := rest[..|rest| - |rest| % 2];
    assert f[..|f| - |f| % 2] == u + even;
    UnitsUntil(u, even);
    assert (u + even)[..|u|] == u;
  }

  lemma {:induction false} UnitsUntil(u: seq<octet>, rest: seq<octet>)
    requires |u| % 2 == 0
    requires forall i :: 0 <= i < |u| / 2 ==> !(u[2 * i] == 0xFF && u[2 * i + 1] == 0xFF)
    requires rest == [] || (|rest| >= 2 && rest[0] == 0xFF && rest[1] == 0xFF)
    ensures UnpaddedUnits(u + rest) == |u|
  {
    if u == [] {
      assert u + rest == rest;
    } else {
      var t := u[2..];
      assert !(u[2 * 0] == 0xFF && u[2 * 0 + 1] == 0xFF);
      forall i | 0 <= i < |t| / 2 ensures !(t[2 * i] == 0xFF && t[2 * i + 1] == 0xFF) {
        assert !(u[2 * (i + 1)] == 0xFF && u[2 * (i + 1) + 1] == 0xFF);
      }
      UnitsUntil(t, rest);
      assert (u + rest)[2..] == t + rest;
    }
  }

  /** Nothing else is a field. */
  lemma OtherFormats(b: seq<octet>)
    ensures SimDecode(b).Refused? <== b == [] || b[0] > 0x82
    ensures SimDecode(b).Ucs2Units? ==> b != [] && b[0] == 0x80
  {
    hide DecodeText, ScanChars, DefaultTable;
  }
}
