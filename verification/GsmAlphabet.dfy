/** The GSM alphabets as section 6.2.1 and Annex A of 3GPP TS 23.038 print them, and that
    the tables of home-item/util.c:86-461 are these alphabets.

    Consistency makes the two directions of a table agree with each other; this says
    what they agree on. */
module GsmAlphabet {
  import opened Bits
  import opened Options
  import opened GsmTableData
  import opened GsmTableChecks
  import opened GsmTables
  import opened GsmText

  // Sixteen characters in a row; U+00A0 stands at 0x1B, where the standard has the escape
  function DefaultRow(r: nat): (s: string)
    requires r < 8
    ensures |s| == 16
  {
    match r
    case 0 => "@£$¥èéùìòÇ\nØø\rÅå"
    case 1 => "Δ_ΦΓΛΩΠΨΣΘΞ\U{A0}ÆæßÉ"
    case 2 => " !\"#¤%&'()*+,-./"
    case 3 => "0123456789:;<=>?"
    case 4 => "¡ABCDEFGHIJKLMNO"
    case 5 => "PQRSTUVWXYZÄÖÑÜ§"
    case 6 => "¿abcdefghijklmno"
    case _ => "pqrstuvwxyzäöñüà"
  }

  // Turkish differs in the rows that hold its eight letters
  function TurkishRow(r: nat): (s: string)
    requires r < 8
    ensures |s| == 16
  {
    match r
    case 0 => "@£$¥€éùıòÇ\nĞğ\rÅå"
    case 1 => "Δ_ΦΓΛΩΠΨΣΘΞ\U{A0}ŞşßÉ"
    case 4 => "İABCDEFGHIJKLMNO"
    case 6 => "çabcdefghijklmno"
    case _ => DefaultRow(r)
  }

  function PortugueseRow(r: nat): (s: string)
    requires r < 8
    ensures |s| == 16
  {
    match r
    case 0 => "@£$¥êéúíóç\nÔô\rÁá"
    case 1 => "Δ_ªÇÀ∞^\\€Ó|\U{A0}ÂâÊÉ"
    case 2 => " !\"#º%&'()*+,-./"
    case 4 => "ÍABCDEFGHIJKLMNO"
    case 5 => "PQRSTUVWXYZÃÕÚÜ§"
    case 6 => "~abcdefghijklmno"
    case 7 => "pqrstuvwxyzãõ`üà"
    case _ => DefaultRow(3)
  }

  function LockingRow(lang: KnownDialect, r: nat): (s: string)
    requires r < 8
    ensures |s| == 16
  {
    match lang
    case Turkish => TurkishRow(r)
    case Portuguese => PortugueseRow(r)
    case Default => DefaultRow(r)
    case Spanish => DefaultRow(r)
  }

  // The character of a septet in a locking-shift table
  function LockingChar(lang: KnownDialect, k: nat): nat
    requires k < 128
  {
    LockingRow(lang, k / 16)[k % 16] as int
  }

  lemma DefaultRows0(r: nat, j: nat)
    requires 0 <= r < 2 && j < 16
    ensures DefGsm(16 * r + j) == DefaultRow(r)[j] as int
  {
  }

  lemma DefaultRows2(r: nat, j: nat)
    requires 2 <= r < 4 && j < 16
    ensures DefGsm(16 * r + j) == DefaultRow(r)[j] as int
  {
  }

  lemma DefaultRows4(r: nat, j: nat)
    requires 4 <= r < 6 && j < 16
    ensures DefGsm(16 * r + j) == DefaultRow(r)[j] as int
  {
  }

  lemma DefaultRows6(r: nat, j: nat)
    requires 6 <= r < 8 && j < 16
    ensures DefGsm(16 * r + j) == DefaultRow(r)[j] as int
  {
  }

  lemma TurkishRows0(r: nat, j: nat)
    requires 0 <= r < 2 && j < 16
    ensures TurGsm(16 * r + j) == TurkishRow(r)[j] as int
  {
  }

  lemma TurkishRows2(r: nat, j: nat)
    requires 2 <= r < 4 && j < 16
    ensures TurGsm(16 * r + j) == TurkishRow(r)[j] as int
  {
  }

  lemma TurkishRows4(r: nat, j: nat)
    requires 4 <= r < 6 && j < 16
    ensures TurGsm(16 * r + j) == TurkishRow(r)[j] as int
  {
  }

  lemma TurkishRows6(r: nat, j: nat)
    requires 6 <= r < 8 && j < 16
    ensures TurGsm(16 * r + j) == TurkishRow(r)[j] as int
  {
  }

  lemma PortugueseRows0(r: nat, j: nat)
    requires 0 <= r < 2 && j < 16
    ensures PorGsm(16 * r + j) == PortugueseRow(r)[j] as int
  {
  }

  lemma PortugueseRows2(r: nat, j: nat)
    requires 2 <= r < 4 && j < 16
    ensures PorGsm(16 * r + j) == PortugueseRow(r)[j] as int
  {
  }

  lemma PortugueseRows4(r: nat, j: nat)
    requires 4 <= r < 6 && j < 16
    ensures PorGsm(16 * r + j) == PortugueseRow(r)[j] as int
  {
  }

  lemma PortugueseRows6(r: nat, j: nat)
    requires 6 <= r < 8 && j < 16
    ensures PorGsm(16 * r + j) == PortugueseRow(r)[j] as int
  {
  }

  /** Every locking-shift table is the standard's alphabet, septet by septet. */
  lemma LockingIsStandard(lang: KnownDialect, k: nat)
    requires k < 128
    ensures |AlphabetLookup(lang).gsmLocking| == 128
    ensures GsmLockingLookup(k, AlphabetLookup(lang)) == LockingChar(lang, k)
  {
    hide DefGsm, TurGsm, PorGsm, DefaultRow, TurkishRow, PortugueseRow;
    var r, j := k / 16, k % 16;
    match lang
    case Default =>
      if r < 2 { DefaultRows0(r, j); } else if r < 4 { DefaultRows2(r, j); }
      else if r < 6 { DefaultRows4(r, j); } else { DefaultRows6(r, j); }
    case Spanish =>
      if r < 2 { DefaultRows0(r, j); } else if r < 4 { DefaultRows2(r, j); }
      else if r < 6 { DefaultRows4(r, j); } else { DefaultRows6(r, j); }
    case Turkish =>
      if r < 2 { TurkishRows0(r, j); } else if r < 4 { TurkishRows2(r, j); }
      else if r < 6 { TurkishRows4(r, j); } else { TurkishRows6(r, j); }
    case Portuguese =>
      if r < 2 { PortugueseRows0(r, j); } else if r < 4 { PortugueseRows2(r, j); }
      else if r < 6 { PortugueseRows4(r, j); } else { PortugueseRows6(r, j); }
  }

  // ------------------------------------------------------ behind the escape

  // The codes that stand for a character behind the escape, and these characters; the
  // escape itself stands for a space
  function ExtensionCodes(lang: KnownDialect): seq<nat> {
    match lang
    case Default =>
      [0x0A, 0x14, 0x1B, 0x28, 0x29, 0x2F, 0x3C, 0x3D, 0x3E, 0x40, 0x65]
    case Turkish =>
      [0x0A, 0x14, 0x1B, 0x28, 0x29, 0x2F, 0x3C, 0x3D, 0x3E, 0x40, 0x47, 0x49, 0x53, 0x63, 0x65, 0x67,
       0x69, 0x73]
    case Spanish =>
      [0x09, 0x0A, 0x14, 0x1B, 0x28, 0x29, 0x2F, 0x3C, 0x3D, 0x3E, 0x40, 0x41, 0x49, 0x4F, 0x55, 0x61,
       0x65, 0x69, 0x6F, 0x75]
    case Portuguese =>
      [0x05, 0x09, 0x0A, 0x0B, 0x0C, 0x0E, 0x0F, 0x12, 0x13, 0x14, 0x15, 0x16, 0x17, 0x18, 0x19, 0x1B,
       0x1F, 0x28, 0x29, 0x2F, 0x3C, 0x3D, 0x3E, 0x40, 0x41, 0x49, 0x4F, 0x55, 0x5B, 0x5C, 0x61, 0x65,
       0x69, 0x6F, 0x75, 0x7B, 0x7C, 0x7F]
  }

  function ExtensionChars(lang: KnownDialect): string {
    match lang
    case Default => "\U{0C}^ {}\\[~]|€"
    case Turkish => "\U{0C}^ {}\\[~]|ĞİŞç€ğış"
    case Spanish => "ç\U{0C}^ {}\\[~]|ÁÍÓÚá€íóú"
    case Portuguese => "êç\U{0C}ÔôÁáΦΓ^ΩΠΨΣΘ Ê{}\\[~]|ÀÍÓÚÃÕÂ€íóúãõâ"
  }

  lemma DefaultExtension()
    ensures |ExtensionCodes(Default)| == |ExtensionChars(Default)| == 11
    ensures forall i :: 0 <= i < 11 ==> DefExtGsm(i) == Cp(ExtensionCodes(Default)[i], ExtensionChars(Default)[i] as int)
  {
  }

  lemma TurkishExtension()
    ensures |ExtensionCodes(Turkish)| == |ExtensionChars(Turkish)| == 18
    ensures forall i :: 0 <= i < 18 ==> TurExtGsm(i) == Cp(ExtensionCodes(Turkish)[i], ExtensionChars(Turkish)[i] as int)
  {
  }

  lemma SpanishExtension()
    ensures |ExtensionCodes(Spanish)| == |ExtensionChars(Spanish)| == 20
    ensures forall i :: 0 <= i < 20 ==> SpaExtGsm(i) == Cp(ExtensionCodes(Spanish)[i], ExtensionChars(Spanish)[i] as int)
  {
  }

  lemma PortugueseExtension()
    ensures |ExtensionCodes(Portuguese)| == |ExtensionChars(Portuguese)| == 38
    ensures forall i :: 0 <= i < 38 ==>
      PorExtGsm(i) == Cp(ExtensionCodes(Portuguese)[i], ExtensionChars(Portuguese)[i] as int)
  {
  }

  lemma ExtensionEntries(lang: KnownDialect)
    ensures
      var t := AlphabetLookup(lang).gsmSingle;
      && |t| == |ExtensionCodes(lang)| == |ExtensionChars(lang)|
      && forall i :: 0 <= i < |t| ==> t[i] == Cp(ExtensionCodes(lang)[i], ExtensionChars(lang)[i] as int)
  {
    match lang
    case Default => DefaultExtension();
    case Turkish => TurkishExtension();
    case Spanish => SpanishExtension();
    case Portuguese => PortugueseExtension();
  }

  lemma SingleSorted(t: ConversionTable)
    requires Consistent(t)
    ensures Sorted(t.gsmSingle)
  {
  }

  /** Every single-shift table is the standard's, code by code, and holds nothing else. */
  lemma ExtensionIsStandard(lang: KnownDialect, k: nat)
    ensures |ExtensionCodes(lang)| == |ExtensionChars(lang)|
    ensures forall i :: 0 <= i < |ExtensionCodes(lang)| && ExtensionCodes(lang)[i] == k ==>
      GsmSingleLookup(k, AlphabetLookup(lang)) == ExtensionChars(lang)[i] as int
    ensures k !in ExtensionCodes(lang) ==> GsmSingleLookup(k, AlphabetLookup(lang)) == GUND
  {
    ExtensionEntries(lang);
    AlphabetConsistent(lang);
    hide ExtensionCodes, ExtensionChars, AlphabetLookup, Consistent;
    SingleSorted(AlphabetLookup(lang));
    LookupCorrect(AlphabetLookup(lang).gsmSingle, k);
  }

  // ------------------------------------------------ shared and different

  // Digits, letters and the marks that are where ASCII has them
  predicate IsPlain(c: nat) {
    0x20 <= c <= 0x23 || 0x25 <= c <= 0x3F || 0x41 <= c <= 0x5A || 0x61 <= c <= 0x7A
  }

  lemma PlainChar(lang: KnownDialect, c: nat)
    requires IsPlain(c)
    ensures c < 128 && LockingChar(lang, c) == c
  {
    hide DefaultRow, TurkishRow, PortugueseRow;
    var r, j := c / 16, c % 16;
    match lang
    case Default =>
      if r < 4 { PlainDefault2(r, j); } else if r < 6 { PlainDefault4(r, j); } else { PlainDefault6(r, j); }
    case Spanish =>
      if r < 4 { PlainDefault2(r, j); } else if r < 6 { PlainDefault4(r, j); } else { PlainDefault6(r, j); }
    case Turkish =>
      if r < 4 { PlainTurkish2(r, j); } else if r < 6 { PlainTurkish4(r, j); } else { PlainTurkish6(r, j); }
    case Portuguese =>
      if r < 4 { PlainPortuguese2(r, j); } else if r < 6 { PlainPortuguese4(r, j); } else { PlainPortuguese6(r, j); }
  }

  lemma PlainDefault2(r: nat, j: nat)
    requires 2 <= r < 4 && j < 16 && IsPlain(16 * r + j)
    ensures DefaultRow(r)[j] as int == 16 * r + j
  {
  }

  lemma PlainDefault4(r: nat, j: nat)
    requires 4 <= r < 6 && j < 16 && IsPlain(16 * r + j)
    ensures DefaultRow(r)[j] as int == 16 * r + j
  {
  }

  lemma PlainDefault6(r: nat, j: nat)
    requires 6 <= r < 8 && j < 16 && IsPlain(16 * r + j)
    ensures DefaultRow(r)[j] as int == 16 * r + j
  {
  }

  lemma PlainTurkish2(r: nat, j: nat)
    requires 2 <= r < 4 && j < 16 && IsPlain(16 * r + j)
    ensures TurkishRow(r)[j] as int == 16 * r + j
  {
  }

  lemma PlainTurkish4(r: nat, j: nat)
    requires 4 <= r < 6 && j < 16 && IsPlain(16 * r + j)
    ensures TurkishRow(r)[j] as int == 16 * r + j
  {
  }

  lemma PlainTurkish6(r: nat, j: nat)
    requires 6 <= r < 8 && j < 16 && IsPlain(16 * r + j)
    ensures TurkishRow(r)[j] as int == 16 * r + j
  {
  }

  lemma PlainPortuguese2(r: nat, j: nat)
    requires 2 <= r < 4 && j < 16 && IsPlain(16 * r + j)
    ensures PortugueseRow(r)[j] as int == 16 * r + j
  {
  }

  lemma PlainPortuguese4(r: nat, j: nat)
    requires 4 <= r < 6 && j < 16 && IsPlain(16 * r + j)
    ensures PortugueseRow(r)[j] as int == 16 * r + j
  {
  }

  lemma PlainPortuguese6(r: nat, j: nat)
    requires 6 <= r < 8 && j < 16 && IsPlain(16 * r + j)
    ensures PortugueseRow(r)[j] as int == 16 * r + j
  {
  }

  /** Digits, letters and common marks are their own septets, both ways, in every dialect. */
  lemma PlainIsItself(lang: KnownDialect, c: nat)
    requires IsPlain(c)
    ensures |AlphabetLookup(lang).gsmLocking| == 128
    ensures UnicodeLockingLookup(c, AlphabetLookup(lang)) == c == GsmLockingLookup(c, AlphabetLookup(lang))
  {
    hide LockingChar, AlphabetLookup, LockingConsistent, UnicodeLockingLookup;
    PlainChar(lang, c);
    LockingIsStandard(lang, c);
    AlphabetConsistent(lang);
    UnicodeLockingComplete(c, AlphabetLookup(lang));
  }

  /** So a text of them is sent and read as it stands, with any single-shift table. */
  lemma {:induction false} PlainTextUnchanged(t: seq<octet>, locking: KnownDialect, st: ConversionTable)
    requires forall i :: 0 <= i < |t| ==> IsPlain(t[i])
    ensures |AlphabetLookup(locking).gsmLocking| == 128
    ensures EncodeText(t, AlphabetLookup(locking), st) == Encoded(t)
    ensures DecodeText(t, AlphabetLookup(locking), st) == Decoded(t)
  {
    hide AlphabetLookup, UnicodeLockingLookup, GsmLockingLookup, GsmSingleLookup, IsPlain, EncodeChar;
    AlphabetConsistent(locking);
    if t != [] {
      assert t == [t[0]] + t[1..];
      PlainTextUnchanged(t[1..], locking, st);
      PlainIsItself(locking, t[0]);
      PlainChar(locking, t[0]);
      NotEscape(t[0]);
      StandardEncodes(locking, t[0], st);
    }
  }

  lemma NotEscape(c: nat)
    requires IsPlain(c)
    ensures c != ESCAPE && c <= 0x7F
  {
  }

  /** Every character of the standard's alphabet is encoded as its septet. */
  lemma StandardEncodes(lang: KnownDialect, k: nat, st: ConversionTable)
    requires k < 128 && k != ESCAPE
    ensures EncodeChar(LockingChar(lang, k), AlphabetLookup(lang), st) == Some([k])
  {
    hide LockingChar, AlphabetLookup, LockingConsistent, EncodeChar;
    LockingIsStandard(lang, k);
    AlphabetConsistent(lang);
    LockingGoesBack(k, AlphabetLookup(lang), st);
  }

  /** Every character behind the escape is encoded with its code there, unless the locking
      table has it. */
  lemma ExtensionEncodes(lang: KnownDialect, i: nat, locking: KnownDialect)
    requires i < |ExtensionCodes(lang)| && ExtensionCodes(lang)[i] != ESCAPE
    ensures |ExtensionChars(lang)| == |ExtensionCodes(lang)|
    ensures
      var c := ExtensionChars(lang)[i] as int;
      UnicodeLockingLookup(c, AlphabetLookup(locking)) == GUND ==>
        EncodeChar(c, AlphabetLookup(locking), AlphabetLookup(lang)) == Some([ESCAPE, ExtensionCodes(lang)[i]])
  {
    hide ExtensionCodes, ExtensionChars, AlphabetLookup, EncodeChar, UnicodeLockingLookup, GsmSingleLookup;
    ExtensionIsStandard(lang, ExtensionCodes(lang)[i]);
    ExtensionEntries(lang);
    NeverGund(lang, i);
    SingleEncodes(lang, ExtensionCodes(lang)[i], locking);
  }

  lemma SingleEncodes(lang: KnownDialect, k: nat, locking: KnownDialect)
    requires k != ESCAPE && GsmSingleLookup(k, AlphabetLookup(lang)) != GUND
    ensures k < 128
    ensures
      var c := GsmSingleLookup(k, AlphabetLookup(lang));
      UnicodeLockingLookup(c, AlphabetLookup(locking)) == GUND ==>
        EncodeChar(c, AlphabetLookup(locking), AlphabetLookup(lang)) == Some([ESCAPE, k])
  {
    hide AlphabetLookup, LockingConsistent, EncodeChar, UnicodeLockingLookup, GsmSingleLookup, Consistent;
    AlphabetConsistent(lang);
    AlphabetConsistent(locking);
    HasLocking(AlphabetLookup(locking));
    GsmSingleComplete(k, AlphabetLookup(lang));
    SingleGoesBack(k, AlphabetLookup(locking), AlphabetLookup(lang));
  }

  lemma HasLocking(t: ConversionTable)
    requires Consistent(t)
    ensures LockingConsistent(t)
  {
  }

  lemma NeverGund(lang: KnownDialect, i: nat)
    requires i < |AlphabetLookup(lang).gsmSingle|
    ensures AlphabetLookup(lang).gsmSingle[i].to != GUND
  {
    hide AlphabetLookup, LockingConsistent;
    AlphabetConsistent(lang);
    var t := AlphabetLookup(lang);
    var position :| SingleConsistentVia(t, position);
  }

  // The septets that a Turkish and a Portuguese text read differently
  predicate IsTurkish(k: nat) {
    k == 0x04 || k == 0x07 || 0x0B <= k <= 0x0C || 0x1C <= k <= 0x1D || k == 0x40 || k == 0x60
  }

  predicate IsPortuguese(k: nat) {
    || k == 0x04 || 0x06 <= k <= 0x09 || 0x0B <= k <= 0x0C || 0x0E <= k <= 0x0F
    || 0x12 <= k <= 0x1A || 0x1C <= k <= 0x1E || k == 0x24 || k == 0x40
    || 0x5B <= k <= 0x5D || k == 0x60 || 0x7B <= k <= 0x7D
  }

  /** The Spanish locking table is the default one; the Turkish differs in eight septets,
      the Portuguese in thirty. */
  lemma LockingDifferences(k: nat)
    requires k < 128
    ensures LockingChar(Spanish, k) == LockingChar(Default, k)
    ensures LockingChar(Turkish, k) != LockingChar(Default, k) <==> IsTurkish(k)
    ensures LockingChar(Portuguese, k) != LockingChar(Default, k) <==> IsPortuguese(k)
  {
    hide DefaultRow, TurkishRow, PortugueseRow, IsTurkish, IsPortuguese;
    var r, j := k / 16, k % 16;
    TurkishDiffers(r, j);
    if r < 1 { PortugueseDiffers0(r, j); } else if r < 2 { PortugueseDiffers1(r, j); }
    else if r < 5 { PortugueseDiffers2(r, j); } else { PortugueseDiffers5(r, j); }
  }

  lemma TurkishDiffers(r: nat, j: nat)
    requires r < 8 && j < 16
    ensures TurkishRow(r)[j] != DefaultRow(r)[j] <==> IsTurkish(16 * r + j)
  {
    hide DefaultRow, TurkishRow;
    if r < 2 { TurkishDiffers0(r, j); } else { TurkishDiffers2(r, j); }
  }

  lemma TurkishDiffers0(r: nat, j: nat)
    requires 0 <= r < 2 && j < 16
    ensures TurkishRow(r)[j] != DefaultRow(r)[j] <==> IsTurkish(16 * r + j)
  {
  }

  lemma TurkishDiffers2(r: nat, j: nat)
    requires 2 <= r < 8 && j < 16
    ensures TurkishRow(r)[j] != DefaultRow(r)[j] <==> IsTurkish(16 * r + j)
  {
  }

  lemma PortugueseDiffers0(r: nat, j: nat)
    requires 0 <= r < 1 && j < 16
    ensures PortugueseRow(r)[j] != DefaultRow(r)[j] <==> IsPortuguese(16 * r + j)
  {
  }

  lemma PortugueseDiffers1(r: nat, j: nat)
    requires 1 <= r < 2 && j < 16
    ensures PortugueseRow(r)[j] != DefaultRow(r)[j] <==> IsPortuguese(16 * r + j)
  {
  }

  lemma PortugueseDiffers2(r: nat, j: nat)
    requires 2 <= r < 5 && j < 16
    ensures PortugueseRow(r)[j] != DefaultRow(r)[j] <==> IsPortuguese(16 * r + j)
  {
  }

  lemma PortugueseDiffers5(r: nat, j: nat)
    requires 5 <= r < 8 && j < 16
    ensures PortugueseRow(r)[j] != DefaultRow(r)[j] <==> IsPortuguese(16 * r + j)
  {
  }

  const SHARED_CODES := [0x0A, 0x14, 0x28, 0x29, 0x2F, 0x3C, 0x3D, 0x3E, 0x40, 0x65]
  const SHARED_CHARS := "\U{0C}^{}\\[~]|€"

  lemma SharedEntries(lang: KnownDialect, i: nat) returns (j: nat)
    requires i < 10
    ensures j < |ExtensionCodes(lang)| && j < |ExtensionChars(lang)|
    ensures ExtensionCodes(lang)[j] == SHARED_CODES[i] && ExtensionChars(lang)[j] == SHARED_CHARS[i]
  {
    hide ExtensionCodes, ExtensionChars;
    match lang
    case Default => j := if i < 2 then i else i + 1; SharedDefault(i);
    case Turkish => j := if i < 2 then i else if i < 9 then i + 1 else 14; SharedTurkish(i);
    case Spanish => j := if i < 2 then i + 1 else if i < 9 then i + 2 else 16; SharedSpanish(i);
    case Portuguese =>
      j := if i < 1 then 2 else if i < 2 then 9 else if i < 9 then i + 15 else 31;
      if i < 2 { SharedPortuguese0(); } else if i < 9 { SharedPortuguese2(i); } else { SharedPortuguese9(i); }
  }

  lemma SharedDefault(i: nat)
    requires i < 10
    ensures
      var j := if i < 2 then i else i + 1;
      && j < |ExtensionCodes(Default)| && j < |ExtensionChars(Default)|
      && ExtensionCodes(Default)[j] == SHARED_CODES[i] && ExtensionChars(Default)[j] == SHARED_CHARS[i]
  {
  }

  lemma SharedTurkish(i: nat)
    requires i < 10
    ensures
      var j := if i < 2 then i else if i < 9 then i + 1 else 14;
      && j < |ExtensionCodes(Turkish)| && j < |ExtensionChars(Turkish)|
      && ExtensionCodes(Turkish)[j] == SHARED_CODES[i] && ExtensionChars(Turkish)[j] == SHARED_CHARS[i]
  {
  }

  lemma SharedSpanish(i: nat)
    requires i < 10
    ensures
      var j := if i < 2 then i + 1 else if i < 9 then i + 2 else 16;
      && j < |ExtensionCodes(Spanish)| && j < |ExtensionChars(Spanish)|
      && ExtensionCodes(Spanish)[j] == SHARED_CODES[i] && ExtensionChars(Spanish)[j] == SHARED_CHARS[i]
  {
  }

  lemma SharedPortuguese0()
    ensures |ExtensionCodes(Portuguese)| == |ExtensionChars(Portuguese)| == 38
    ensures ExtensionCodes(Portuguese)[2] == 0x0A && ExtensionChars(Portuguese)[2] == '\U{0C}'
    ensures ExtensionCodes(Portuguese)[9] == 0x14 && ExtensionChars(Portuguese)[9] == '^'
  {
  }

  lemma SharedPortuguese2(i: nat)
    requires 2 <= i < 9
    ensures
      var j := i + 15;
      && j < |ExtensionCodes(Portuguese)| && j < |ExtensionChars(Portuguese)|
      && ExtensionCodes(Portuguese)[j] == SHARED_CODES[i] && ExtensionChars(Portuguese)[j] == SHARED_CHARS[i]
  {
  }

  lemma SharedPortuguese9(i: nat)
    requires 9 <= i < 10
    ensures
      var j := 31;
      && j < |ExtensionCodes(Portuguese)| && j < |ExtensionChars(Portuguese)|
      && ExtensionCodes(Portuguese)[j] == SHARED_CODES[i] && ExtensionChars(Portuguese)[j] == SHARED_CHARS[i]
  {
  }

  /** All four single-shift tables share form feed, brackets, backslash, caret, tilde, bar
      and euro, at the same codes. */
  lemma ExtensionShared(lang: KnownDialect, i: nat)
    requires i < 10
    ensures |SHARED_CODES| == |SHARED_CHARS| == 10
    ensures GsmSingleLookup(SHARED_CODES[i], AlphabetLookup(lang)) == SHARED_CHARS[i] as int
  {
    var j := SharedEntries(lang, i);
    hide ExtensionCodes, ExtensionChars, AlphabetLookup, GsmSingleLookup;
    ExtensionIsStandard(lang, SHARED_CODES[i]);
  }
}
