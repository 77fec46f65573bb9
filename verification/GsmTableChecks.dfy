/** The entry-by-entry checks of the conversion tables: each lemma runs through every
    entry of one table. GsmTables builds its `Consistent` predicate from them. */
module GsmTableChecks {
  import opened GsmTableData

  const ESCAPE := 0x1B
  const SPACE := 0x20
  const NBSP := 0xA0

  // What a code point becomes after a trip through the alphabet
  function Fold(c: nat): nat {
    if c == NBSP then SPACE else c
  }

  // A character that UTF-8 can carry in one to three bytes and that is not U+0000
  predicate IsTextChar(c: nat) {
    1 <= c < 0xD800 || 0xE000 <= c < 0x10000
  }

  lemma DefGsmChars()
    ensures forall k :: 0 <= k < 128 ==> IsTextChar(DefGsm(k)) && DefGsm(k) != GUND
  {}

  lemma DefUnicodeAscends()
    ensures forall i :: 0 <= i < 127 ==> DefUnicode(i).from < DefUnicode(i + 1).from
  {}

  lemma DefUnicodeInverseLow()
    ensures forall i :: 0 <= i < 80 ==>
      var e := DefUnicode(i);
      e.to < 128 && e.to != ESCAPE && DefGsm(e.to) == Fold(e.from)
  {}

  lemma DefUnicodeInverseHigh()
    ensures forall i :: 80 <= i < 128 ==>
      var e := DefUnicode(i);
      e.to < 128 && e.to != ESCAPE && DefGsm(e.to) == Fold(e.from)
  {}

  lemma TurGsmChars()
    ensures forall k :: 0 <= k < 128 ==> IsTextChar(TurGsm(k)) && TurGsm(k) != GUND
  {}

  lemma TurUnicodeAscends()
    ensures forall i :: 0 <= i < 127 ==> TurUnicode(i).from < TurUnicode(i + 1).from
  {}

  lemma TurUnicodeInverseLow()
    ensures forall i :: 0 <= i < 80 ==>
      var e := TurUnicode(i);
      e.to < 128 && e.to != ESCAPE && TurGsm(e.to) == Fold(e.from)
  {}

  lemma TurUnicodeInverseHigh()
    ensures forall i :: 80 <= i < 128 ==>
      var e := TurUnicode(i);
      e.to < 128 && e.to != ESCAPE && TurGsm(e.to) == Fold(e.from)
  {}

  lemma PorGsmChars()
    ensures forall k :: 0 <= k < 128 ==> IsTextChar(PorGsm(k)) && PorGsm(k) != GUND
  {}

  lemma PorUnicodeAscends()
    ensures forall i :: 0 <= i < 127 ==> PorUnicode(i).from < PorUnicode(i + 1).from
  {}

  lemma PorUnicodeInverseLow()
    ensures forall i :: 0 <= i < 80 ==>
      var e := PorUnicode(i);
      e.to < 128 && e.to != ESCAPE && PorGsm(e.to) == Fold(e.from)
  {}

  lemma PorUnicodeInverseHigh()
    ensures forall i :: 80 <= i < 128 ==>
      var e := PorUnicode(i);
      e.to < 128 && e.to != ESCAPE && PorGsm(e.to) == Fold(e.from)
  {}

  lemma DefExtGsmEntries()
    ensures forall j :: 0 <= j < 10 ==> DefExtGsm(j).from < DefExtGsm(j + 1).from
    ensures forall j :: 0 <= j < 9 ==> DefExtUnicode(j).from < DefExtUnicode(j + 1).from
    ensures DefExtGsm(2) == Cp(ESCAPE, SPACE)
    ensures forall j :: 0 <= j < 11 ==>
      var e := DefExtGsm(j);
      e.from < 128 && IsTextChar(e.to) && e.to != GUND && e.to != NBSP
  {}

  lemma TurExtGsmEntries()
    ensures forall j :: 0 <= j < 17 ==> TurExtGsm(j).from < TurExtGsm(j + 1).from
    ensures forall j :: 0 <= j < 16 ==> TurExtUnicode(j).from < TurExtUnicode(j + 1).from
    ensures TurExtGsm(2) == Cp(ESCAPE, SPACE)
    ensures forall j :: 0 <= j < 18 ==>
      var e := TurExtGsm(j);
      e.from < 128 && IsTextChar(e.to) && e.to != GUND && e.to != NBSP
  {}

  lemma SpaExtGsmEntries()
    ensures forall j :: 0 <= j < 19 ==> SpaExtGsm(j).from < SpaExtGsm(j + 1).from
    ensures forall j :: 0 <= j < 18 ==> SpaExtUnicode(j).from < SpaExtUnicode(j + 1).from
    ensures SpaExtGsm(3) == Cp(ESCAPE, SPACE)
    ensures forall j :: 0 <= j < 20 ==>
      var e := SpaExtGsm(j);
      e.from < 128 && IsTextChar(e.to) && e.to != GUND && e.to != NBSP
  {}

  lemma PorExtGsmEntries()
    ensures forall j :: 0 <= j < 37 ==> PorExtGsm(j).from < PorExtGsm(j + 1).from
    ensures forall j :: 0 <= j < 36 ==> PorExtUnicode(j).from < PorExtUnicode(j + 1).from
    ensures PorExtGsm(15) == Cp(ESCAPE, SPACE)
    ensures forall j :: 0 <= j < 38 ==>
      var e := PorExtGsm(j);
      e.from < 128 && IsTextChar(e.to) && e.to != GUND && e.to != NBSP
  {}

  // Where DefExtGsm holds the inverse of DefExtUnicode(i)
  function DefExtPosition(i: int): nat {
    match i
    case 0 => 0 case 1 => 6 case 2 => 5 case 3 => 8 case 4 => 1 case 5 => 3 case 6 => 9 case 7 => 4 case 8 => 7 case 9 => 10
    case _ => 0
  }

  lemma DefExtUnicodeInverse()
    ensures forall i :: 0 <= i < 10 ==>
      var e := DefExtUnicode(i);
      && 0x1B00 <= e.to < 0x1B80 && e.to != 0x1B00 + ESCAPE
      && DefExtPosition(i) <= 10 && DefExtGsm(DefExtPosition(i)) == Cp(e.to - 0x1B00, e.from)
  {}

  // Where TurExtGsm holds the inverse of TurExtUnicode(i)
  function TurExtPosition(i: int): nat {
    match i
    case 0 => 0 case 1 => 6 case 2 => 5 case 3 => 8 case 4 => 1 case 5 => 3 case 6 => 9 case 7 => 4 case 8 => 7 case 9 => 13
    case 10 => 10 case 11 => 15 case 12 => 11 case 13 => 16 case 14 => 12 case 15 => 17 case 16 => 14
    case _ => 0
  }

  lemma TurExtUnicodeInverse()
    ensures forall i :: 0 <= i < 17 ==>
      var e := TurExtUnicode(i);
      && 0x1B00 <= e.to < 0x1B80 && e.to != 0x1B00 + ESCAPE
      && TurExtPosition(i) <= 17 && TurExtGsm(TurExtPosition(i)) == Cp(e.to - 0x1B00, e.from)
  {}

  // Where SpaExtGsm holds the inverse of SpaExtUnicode(i)
  function SpaExtPosition(i: int): nat {
    match i
    case 0 => 1 case 1 => 7 case 2 => 6 case 3 => 9 case 4 => 2 case 5 => 4 case 6 => 10 case 7 => 5 case 8 => 8 case 9 => 11
    case 10 => 12 case 11 => 13 case 12 => 14 case 13 => 15 case 14 => 0 case 15 => 17 case 16 => 18 case 17 => 19 case 18 => 16
    case _ => 0
  }

  lemma SpaExtUnicodeInverse()
    ensures forall i :: 0 <= i < 19 ==>
      var e := SpaExtUnicode(i);
      && 0x1B00 <= e.to < 0x1B80 && e.to != 0x1B00 + ESCAPE
      && SpaExtPosition(i) <= 19 && SpaExtGsm(SpaExtPosition(i)) == Cp(e.to - 0x1B00, e.from)
  {}

  // Where PorExtGsm holds the inverse of PorExtUnicode(i)
  function PorExtPosition(i: int): nat {
    match i
    case 0 => 2 case 1 => 20 case 2 => 19 case 3 => 22 case 4 => 9 case 5 => 17 case 6 => 23 case 7 => 18 case 8 => 21 case 9 => 24
    case 10 => 5 case 11 => 30 case 12 => 28 case 13 => 16 case 14 => 25 case 15 => 26 case 16 => 3 case 17 => 29 case 18 => 27 case 19 => 6
    case 20 => 37 case 21 => 35 case 22 => 1 case 23 => 0 case 24 => 32 case 25 => 33 case 26 => 4 case 27 => 36 case 28 => 34 case 29 => 8
    case 30 => 14 case 31 => 11 case 32 => 13 case 33 => 7 case 34 => 12 case 35 => 10 case 36 => 31
    case _ => 0
  }

  lemma PorExtUnicodeInverse()
    ensures forall i :: 0 <= i < 37 ==>
      var e := PorExtUnicode(i);
      && 0x1B00 <= e.to < 0x1B80 && e.to != 0x1B00 + ESCAPE
      && PorExtPosition(i) <= 37 && PorExtGsm(PorExtPosition(i)) == Cp(e.to - 0x1B00, e.from)
  {}

  lemma DefExtApart(j: int)
    requires 0 <= j < 10
    ensures forall i :: 0 <= i < 128 ==> DefUnicode(i).from != DefExtUnicode(j).from
  {}

  lemma TurExtApart(j: int)
    requires 0 <= j < 17
    ensures forall i :: 0 <= i < 128 ==> DefUnicode(i).from != TurExtUnicode(j).from
  {}

  lemma SpaExtApart(j: int)
    requires 0 <= j < 19
    ensures forall i :: 0 <= i < 128 ==> DefUnicode(i).from != SpaExtUnicode(j).from
  {}
}
