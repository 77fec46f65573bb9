/** Text in the GSM alphabet (home-item/util.c:540-734 and 1282-1367), as functions of a
    locking and a single-shift table, and what encoding and decoding promise together. */
module GsmText {
  import opened Bits
  import opened Options
  import opened GsmTableData
  import opened GsmTableChecks
  import opened GsmTables
  import Utf8

  // What one character is converted to: locking table first, then single shift
  function Converted(c: nat, lt: ConversionTable, st: ConversionTable): nat {
    var v := UnicodeLockingLookup(c, lt);
    if v == GUND then UnicodeSingleLookup(c, st) else v
  }

  predicate IsShifted(v: nat) {
    And(v, 0x1B00) != 0
  }

  // What is written for a converted character
  function Octets(v: nat): seq<octet> {
    if IsShifted(v) then [ESCAPE, v % 256] else [v % 256]
  }

  function EncodeChar(c: nat, lt: ConversionTable, st: ConversionTable): Option<seq<octet>> {
    var v := Converted(c, lt, st);
    if v == GUND then None else Some(Octets(v))
  }

  // ------------------------------------------------------ on code points

  datatype Encoding = Encoded(septets: seq<octet>) | Unencodable(at: nat)

  function EncodeText(t: seq<nat>, lt: ConversionTable, st: ConversionTable): Encoding {
    if t == [] then Encoded([])
    else
      match EncodeChar(t[0], lt, st)
      case None => Unencodable(0)
      case Some(e) =>
        match EncodeText(t[1..], lt, st)
        case Encoded(s) => Encoded(e + s)
        case Unencodable(k) => Unencodable(k + 1)
  }

  // `at` is where the measuring pass stops
  datatype Decoding = Decoded(chars: seq<nat>) | Undecodable(at: nat)

  function DecodeText(s: seq<octet>, lt: ConversionTable, st: ConversionTable): Decoding
    requires |lt.gsmLocking| == 128
  {
    if s == [] then Decoded([])
    else if s[0] > 0x7F then Undecodable(0)
    else if s[0] == ESCAPE then
      if |s| < 2 || GsmSingleLookup(s[1], st) == GUND then Undecodable(1)
      else Cons(GsmSingleLookup(s[1], st), 2, DecodeText(s[2..], lt, st))
    else Cons(GsmLockingLookup(s[0], lt), 1, DecodeText(s[1..], lt, st))
  }

  function Cons(c: nat, n: nat, d: Decoding): Decoding {
    match d
    case Decoded(t) => Decoded([c] + t)
    case Undecodable(k) => Undecodable(k + n)
  }

  function FoldAll(t: seq<nat>): (r: seq<nat>)
    ensures |r| == |t|
    ensures forall i :: 0 <= i < |t| ==> r[i] == if t[i] == 0xA0 then 0x20 else t[i]
  {
    if t == [] then [] else [Fold(t[0])] + FoldAll(t[1..])
  }

  // ---------------------------------------------------- facts about 0x1B00

  lemma NotShifted(v: nat)
    requires v < 128
    ensures !IsShifted(v)
  {
    Pow2Values();
    LowAnd(v, 54, 7);
    assert Shl(54, 7) == 0x1B00;
  }

  lemma {:induction false} LowAnd(x: nat, high: nat, n: nat)
    requires x < Pow2(n)
    ensures And(x, Shl(high, n)) == 0
  {
    if n > 0 {
      LowAnd(x / 2, high, n - 1);
    }
  }

  lemma Shifted(v: nat)
    requires 0x1B00 <= v < 0x1B80
    ensures IsShifted(v) && v % 256 == v - 0x1B00
  {
    Pow2Values();
    AndShr(v, 0x1B00, 8);
    SplitUnique(0x1B, v - 0x1B00, 8);
    SplitUnique(0x1B, 0, 8);
    assert Shl(0x1B, 8) == 0x1B00;
    assert And(0x1B, 0x1B) == 0x1B;
    if And(v, 0x1B00) == 0 {
      LowAll(0, 8);
    }
  }

  // ------------------------------------------------------- one character

  // An encoded character is a septet other than 0x1B that the locking table reads as
  // the character (U+00A0 as a space), or 0x1B and a septet other than 0x1B that the
  // single-shift table reads as the character
  ghost predicate ReadsBack(c: nat, e: seq<nat>, lt: ConversionTable, st: ConversionTable)
    requires |lt.gsmLocking| == 128
  {
    || (|e| == 1 && e[0] < 128 && e[0] != ESCAPE && GsmLockingLookup(e[0], lt) == Fold(c))
    || (|e| == 2 && e[0] == ESCAPE && e[1] < 128 && e[1] != ESCAPE
        && GsmSingleLookup(e[1], st) == Fold(c) && Fold(c) != GUND)
  }

  lemma LockingCharSound(c: nat, lt: ConversionTable, st: ConversionTable)
    requires LockingConsistent(lt) && UnicodeLockingLookup(c, lt) != GUND
    ensures EncodeChar(c, lt, st) == Some([UnicodeLockingLookup(c, lt)])
    ensures ReadsBack(c, [UnicodeLockingLookup(c, lt)], lt, st)
  {
    UnicodeLockingSound(c, lt);
    NotShifted(UnicodeLockingLookup(c, lt));
  }

  lemma SingleCharSound(c: nat, lt: ConversionTable, st: ConversionTable)
    requires LockingConsistent(lt) && Consistent(st)
    requires UnicodeLockingLookup(c, lt) == GUND && UnicodeSingleLookup(c, st) != GUND
    ensures 0x1B00 <= UnicodeSingleLookup(c, st)
    ensures EncodeChar(c, lt, st) == Some([ESCAPE, UnicodeSingleLookup(c, st) - 0x1B00])
    ensures ReadsBack(c, [ESCAPE, UnicodeSingleLookup(c, st) - 0x1B00], lt, st)
  {
    hide UnicodeSingleLookup, UnicodeLockingLookup, GsmSingleLookup, Consistent, Fold, And;
    UnicodeSingleSound(c, st);
    Shifted(UnicodeSingleLookup(c, st));
  }

  /** A character is unencodable when neither table has it, and what it is encoded as
      reads back; the locking table goes first. */
  lemma EncodeCharSound(c: nat, lt: ConversionTable, st: ConversionTable)
    requires LockingConsistent(lt) && Consistent(st)
    ensures
      match EncodeChar(c, lt, st)
      case None => UnicodeLockingLookup(c, lt) == GUND && UnicodeSingleLookup(c, st) == GUND
      case Some(e) => ReadsBack(c, e, lt, st) && (|e| == 1 <==> UnicodeLockingLookup(c, lt) != GUND)
  {
    if UnicodeLockingLookup(c, lt) != GUND {
      LockingCharSound(c, lt, st);
    } else if UnicodeSingleLookup(c, st) != GUND {
      SingleCharSound(c, lt, st);
    }
  }

  /** The space, and so U+00A0, is in every locking table. */
  lemma SpaceIsLocking(lt: ConversionTable)
    requires LockingConsistent(lt)
    ensures UnicodeLockingLookup(SPACE, lt) == SPACE
  {
    UnicodeLockingComplete(SPACE, lt);
  }

  // A decoded character that was not behind 0x1B goes back to the same septet
  lemma LockingGoesBack(k: nat, lt: ConversionTable, st: ConversionTable)
    requires LockingConsistent(lt) && k < 128 && k != ESCAPE
    ensures EncodeChar(GsmLockingLookup(k, lt), lt, st) == Some([k])
  {
    UnicodeLockingComplete(k, lt);
    NotShifted(k);
  }

  // A decoded character that was behind 0x1B is encodable; it goes back to the same
  // pair exactly when the locking table does not have it
  lemma SingleGoesBack(k: nat, lt: ConversionTable, st: ConversionTable)
    requires LockingConsistent(lt) && Consistent(st) && GsmSingleLookup(k, st) != GUND
    ensures
      var c := GsmSingleLookup(k, st);
      match EncodeChar(c, lt, st)
      case None => false
      case Some(e) =>
        if UnicodeLockingLookup(c, lt) == GUND then e == [ESCAPE, k]
        else |e| == 1 && e[0] != ESCAPE
  {
    var c := GsmSingleLookup(k, st);
    GsmSingleComplete(k, st);
    EncodeCharSound(c, lt, st);
    SpaceIsLocking(lt);
    if UnicodeLockingLookup(c, lt) == GUND {
      Shifted(0x1B00 + k);
    }
  }

  // ---------------------------------------------------------- whole texts

  /** Encoded text is septets. */
  lemma {:induction false} EncodedIsSeptets(t: seq<nat>, lt: ConversionTable, st: ConversionTable)
    requires LockingConsistent(lt) && Consistent(st) && EncodeText(t, lt, st).Encoded?
    ensures forall i :: 0 <= i < |EncodeText(t, lt, st).septets| ==> EncodeText(t, lt, st).septets[i] < 128
    ensures |t| <= |EncodeText(t, lt, st).septets|
  {
    if t != [] {
      EncodeCharSound(t[0], lt, st);
      EncodedIsSeptets(t[1..], lt, st);
    }
  }

  lemma DecodeFront(c: nat, e: seq<octet>, rest: seq<octet>, lt: ConversionTable, st: ConversionTable)
    requires |lt.gsmLocking| == 128 && ReadsBack(c, e, lt, st)
    ensures DecodeText(e + rest, lt, st) == Cons(Fold(c), |e|, DecodeText(rest, lt, st))
  {
    var s := e + rest;
    assert s[|e|..] == rest && s[0] == e[0] && (|e| == 2 ==> s[1] == e[1]);
  }

  /** Decoding what was encoded gives the text with U+00A0 turned into a space. */
  lemma {:induction false} TextRoundTrip(t: seq<nat>, s: seq<octet>, lt: ConversionTable, st: ConversionTable)
    requires LockingConsistent(lt) && Consistent(st) && EncodeText(t, lt, st) == Encoded(s)
    ensures DecodeText(s, lt, st) == Decoded(FoldAll(t))
  {
    if t != [] {
      var e := EncodeChar(t[0], lt, st).value;
      EncodeCharSound(t[0], lt, st);
      var rest: seq<octet> := s[|e|..];
      assert s == e + rest && EncodeText(t[1..], lt, st) == Encoded(rest);
      TextRoundTrip(t[1..], rest, lt, st);
      DecodeFront(t[0], e, rest, lt, st);
    }
  }

  // The character behind an escape is in the locking table as well, so that encoding
  // does not need the escape
  predicate IsShadowed(k: nat, lt: ConversionTable, st: ConversionTable) {
    UnicodeLockingLookup(GsmSingleLookup(k, st), lt) != GUND
  }

  // No escape pair of s, read from the front, is shadowed
  predicate NoShadowedEscape(s: seq<octet>, lt: ConversionTable, st: ConversionTable) {
    if s == [] then true
    else if s[0] == ESCAPE && |s| >= 2 then !IsShadowed(s[1], lt, st) && NoShadowedEscape(s[2..], lt, st)
    else NoShadowedEscape(s[1..], lt, st)
  }

  /** Encoding what was decoded always succeeds, and gives the same septets exactly when
      no escape pair stands for a character that the locking table has. */
  lemma {:induction false} SeptetRoundTrip(s: seq<octet>, lt: ConversionTable, st: ConversionTable)
    requires LockingConsistent(lt) && Consistent(st) && DecodeText(s, lt, st).Decoded?
    ensures
      var e := EncodeText(DecodeText(s, lt, st).chars, lt, st);
      e.Encoded? && (e.septets == s <==> NoShadowedEscape(s, lt, st))
  {
    hide EncodeChar, GsmSingleLookup, GsmLockingLookup, UnicodeLockingLookup, Consistent;
    if s != [] {
      var n := if s[0] == ESCAPE then 2 else 1;
      var t := DecodeText(s, lt, st).chars;
      SeptetRoundTrip(s[n..], lt, st);
      assert t[1..] == DecodeText(s[n..], lt, st).chars;
      if n == 2 {
        SingleGoesBack(s[1], lt, st);
      } else {
        LockingGoesBack(s[0], lt, st);
      }
      SameFront(EncodeChar(t[0], lt, st).value, EncodeText(t[1..], lt, st).septets, s, n);
    }
  }

  lemma SameFront(e: seq<nat>, rest: seq<nat>, s: seq<nat>, n: nat)
    requires 0 < n <= |s| && e != []
    requires e == s[..n] || e[0] != s[0]
    ensures e + rest == s <==> e == s[..n] && rest == s[n..]
  {
    if e + rest == s {
      assert (e + rest)[0] == e[0];
      assert (e + rest)[n..] == rest;
    }
    assert s == s[..n] + s[n..];
  }

  // s holds two 0x1B in a row
  ghost predicate HasDoubleEscape(s: seq<octet>) {
    exists i :: 0 <= i < |s| - 1 && s[i] == ESCAPE && s[i + 1] == ESCAPE
  }

  // 0x1B after 0x1B reads as a space, which every locking table has
  lemma DoubleEscapeShadowed(lt: ConversionTable, st: ConversionTable)
    requires LockingConsistent(lt) && Consistent(st)
    ensures GsmSingleLookup(ESCAPE, st) == SPACE && IsShadowed(ESCAPE, lt, st)
  {
    var position :| SingleConsistentVia(st, position);
    LookupCorrect(st.gsmSingle, ESCAPE);
    SpaceIsLocking(lt);
  }

  lemma {:induction false} NoShadowIffNoDoubleEscape(s: seq<octet>, lang: KnownDialect)
    requires lang != Portuguese
    requires DecodeText(s, AlphabetLookup(Default), AlphabetLookup(lang)).Decoded?
    ensures NoShadowedEscape(s, AlphabetLookup(Default), AlphabetLookup(lang)) <==> !HasDoubleEscape(s)
  {
    var lt, st := AlphabetLookup(Default), AlphabetLookup(lang);
    AlphabetConsistent(Default);
    AlphabetConsistent(lang);
    if s != [] {
      var n := if s[0] == ESCAPE then 2 else 1;
      NoShadowIffNoDoubleEscape(s[n..], lang);
      DoubleEscapeShadowed(lt, st);
      assert HasDoubleEscape(s) <==> (s[0] == ESCAPE && s[1] == ESCAPE) || HasDoubleEscape(s[n..]) by {
        DoubleEscapeFront(s, n);
      }
      if n == 2 && s[1] != ESCAPE {
        GsmSingleComplete(s[1], st);
        DefaultSinglesDisjoint(lang, GsmSingleLookup(s[1], st));
      }
    }
  }

  lemma DoubleEscapeFront(s: seq<octet>, n: nat)
    requires 0 < n <= |s| && n == if s[0] == ESCAPE then 2 else 1
    ensures HasDoubleEscape(s) <==> (s[0] == ESCAPE && s[1] == ESCAPE) || HasDoubleEscape(s[n..])
  {
    if HasDoubleEscape(s[n..]) {
      var i :| 0 <= i < |s[n..]| - 1 && s[n..][i] == ESCAPE && s[n..][i + 1] == ESCAPE;
      assert s[n + i] == ESCAPE && s[n + i + 1] == ESCAPE;
    }
    if HasDoubleEscape(s) && !(s[0] == ESCAPE && s[1] == ESCAPE) {
      var i :| 0 <= i < |s| - 1 && s[i] == ESCAPE && s[i + 1] == ESCAPE;
      assert s[n..][i - n] == ESCAPE && s[n..][i - n + 1] == ESCAPE;
    }
  }

  /** With the default locking table and the default, Turkish or Spanish single shift,
      the septets come back exactly when they hold no 0x1B 0x1B. */
  lemma DefaultSeptetRoundTrip(s: seq<octet>, lang: KnownDialect)
    requires lang != Portuguese
    requires DecodeText(s, AlphabetLookup(Default), AlphabetLookup(lang)).Decoded?
    ensures
      var lt, st := AlphabetLookup(Default), AlphabetLookup(lang);
      EncodeText(DecodeText(s, lt, st).chars, lt, st) == Encoded(s) <==> !HasDoubleEscape(s)
  {
    AlphabetConsistent(Default);
    AlphabetConsistent(lang);
    SeptetRoundTrip(s, AlphabetLookup(Default), AlphabetLookup(lang));
    NoShadowIffNoDoubleEscape(s, lang);
  }

  // --------------------------------------------------- all dialect pairs

  /** The text round trip in every pair of dialects. */
  lemma DialectTextRoundTrip(t: seq<nat>, s: seq<octet>, locking: KnownDialect, single: KnownDialect)
    requires EncodeText(t, AlphabetLookup(locking), AlphabetLookup(single)) == Encoded(s)
    ensures DecodeText(s, AlphabetLookup(locking), AlphabetLookup(single)) == Decoded(FoldAll(t))
  {
    AlphabetConsistent(locking);
    AlphabetConsistent(single);
    TextRoundTrip(t, s, AlphabetLookup(locking), AlphabetLookup(single));
  }

  /** Encoding stops at the first character that neither table has, and only there. */
  lemma {:induction false} StopsAtFirst(t: seq<nat>, lt: ConversionTable, st: ConversionTable)
    ensures
      match EncodeText(t, lt, st)
      case Encoded(_) => forall i :: 0 <= i < |t| ==> EncodeChar(t[i], lt, st).Some?
      case Unencodable(k) =>
        k < |t| && EncodeChar(t[k], lt, st).None? && forall i :: 0 <= i < k ==> EncodeChar(t[i], lt, st).Some?
  {
    if t != [] {
      StopsAtFirst(t[1..], lt, st);
      assert forall i :: 0 < i < |t| ==> t[i] == t[1..][i - 1];
    }
  }

  /** Decoding stops at the first octet above 0x7F, or behind the first escape that ends the
      input or has no entry; what stands before is decodable. */
  lemma {:induction false} DecodeStopsAt(s: seq<octet>, lt: ConversionTable, st: ConversionTable)
    returns (i: nat)
    requires |lt.gsmLocking| == 128 && DecodeText(s, lt, st).Undecodable?
    ensures i < |s| && DecodeText(s[..i], lt, st).Decoded?
    ensures
      var at := DecodeText(s, lt, st).at;
      if s[i] == 0x1B then at == i + 1 && (i + 1 == |s| || GsmSingleLookup(s[i + 1], st) == 0xFFFF)
      else at == i && s[i] > 0x7F
  {
    hide GsmSingleLookup, GsmLockingLookup;
    if s[0] > 0x7F || (s[0] == ESCAPE && (|s| < 2 || GsmSingleLookup(s[1], st) == GUND)) {
      i := 0;
    } else {
      var n := if s[0] == ESCAPE then 2 else 1;
      var j := DecodeStopsAt(s[n..], lt, st);
      i := j + n;
      assert s[..i][n..] == s[n..][..j];
      assert s[..i][0] == s[0] && (n == 2 ==> s[..i][1] == s[1]);
      assert s[n..][j] == s[i] && (i + 1 < |s| ==> s[n..][j + 1] == s[i + 1]);
    }
  }

  /** Whatever is decoded is text that UTF-8 can carry, without U+0000. */
  lemma {:induction false} DecodedIsText(s: seq<octet>, lt: ConversionTable, st: ConversionTable)
    requires LockingConsistent(lt) && Consistent(st) && DecodeText(s, lt, st).Decoded?
    ensures forall i :: 0 <= i < |DecodeText(s, lt, st).chars| ==> IsTextChar(DecodeText(s, lt, st).chars[i])
  {
    if s != [] {
      if s[0] == ESCAPE {
        GsmSingleComplete(s[1], st);
        DecodedIsText(s[2..], lt, st);
      } else {
        DecodedIsText(s[1..], lt, st);
      }
    }
  }

  /** Texts are encoded piece by piece. */
  lemma {:induction false} EncodeAppend(t: seq<nat>, u: seq<nat>, lt: ConversionTable, st: ConversionTable)
    requires EncodeText(t + u, lt, st).Encoded?
    ensures EncodeText(t, lt, st).Encoded? && EncodeText(u, lt, st).Encoded?
    ensures EncodeText(t + u, lt, st).septets == EncodeText(t, lt, st).septets + EncodeText(u, lt, st).septets
  {
    hide EncodeChar;
    if t == [] {
      assert t + u == u;
    } else {
      assert (t + u)[1..] == t[1..] + u;
      EncodeAppend(t[1..], u, lt, st);
    }
  }

  /** No encoding ends in 0x1B. */
  lemma EncodedEndsClean(t: seq<nat>, lt: ConversionTable, st: ConversionTable)
    requires LockingConsistent(lt) && Consistent(st) && EncodeText(t, lt, st).Encoded? && t != []
    ensures var s := EncodeText(t, lt, st).septets; s != [] && s[|s| - 1] != ESCAPE
  {
    hide LockingConsistent, Consistent, EncodeText;
    var n := |t| - 1;
    assert t == t[..n] + [t[n]];
    EncodeAppend(t[..n], [t[n]], lt, st);
    OneEncoded(t[n], lt, st);
  }

  lemma OneEncoded(c: nat, lt: ConversionTable, st: ConversionTable)
    requires LockingConsistent(lt) && Consistent(st) && EncodeText([c], lt, st).Encoded?
    ensures var s := EncodeText([c], lt, st).septets;
      && 1 <= |s| <= 2 && s[|s| - 1] != ESCAPE && (|s| == 2 ==> s[0] == ESCAPE)
  {
    hide EncodeChar, UnicodeLockingLookup, UnicodeSingleLookup, GsmSingleLookup, Fold, Consistent, Sorted;
    EncodeCharSound(c, lt, st);
    assert [c][1..] == [];
  }
}
