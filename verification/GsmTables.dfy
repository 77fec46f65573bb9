/** Lookups in the conversion tables, and what the tables guarantee about one another.

    alphabet_lookup[] of home-item/util.c is `AlphabetLookup`. Everything the text
    codecs need to know about the tables is the predicate `Consistent`; it is checked
    against the entries once per dialect, and the lemmas after it hold of any
    consistent table, so that the codec proofs never look at an entry again. */
module GsmTables {
  import opened GsmTableData
  import opened GsmTableChecks

  // enum gsm_dialect
  datatype Dialect = Default | Turkish | Spanish | Portuguese | Invalid

  type KnownDialect = d: Dialect | d != Invalid witness Default

  // struct alphabet_conversion_table: gsm* tables map septets to Unicode,
  // unicode* tables map Unicode to septets
  datatype ConversionTable = ConversionTable(
    gsmLocking: seq<nat>,
    gsmSingle: seq<Codepoint>,
    unicodeLocking: seq<Codepoint>,
    unicodeSingle: seq<Codepoint>)

  function AlphabetLookup(lang: KnownDialect): ConversionTable {
    match lang
    case Default =>
      ConversionTable(seq(128, i => DefGsm(i)), seq(11, i => DefExtGsm(i)),
                      seq(128, i => DefUnicode(i)), seq(10, i => DefExtUnicode(i)))
    case Turkish =>
      ConversionTable(seq(128, i => TurGsm(i)), seq(18, i => TurExtGsm(i)),
                      seq(128, i => TurUnicode(i)), seq(17, i => TurExtUnicode(i)))
    case Spanish =>
      ConversionTable(seq(128, i => DefGsm(i)), seq(20, i => SpaExtGsm(i)),
                      seq(128, i => DefUnicode(i)), seq(19, i => SpaExtUnicode(i)))
    case Portuguese =>
      ConversionTable(seq(128, i => PorGsm(i)), seq(38, i => PorExtGsm(i)),
                      seq(128, i => PorUnicode(i)), seq(37, i => PorExtUnicode(i)))
  }

  // ---------------------------------------------------------------- lookups

  ghost predicate Sorted(t: seq<Codepoint>) {
    forall i, j :: 0 <= i < j < |t| ==> t[i].from < t[j].from
  }

  // bsearch() over t[lo..hi], as codepoint_lookup uses it
  function Search(t: seq<Codepoint>, key: nat, lo: nat, hi: nat): nat
    requires lo <= hi <= |t|
    decreases hi - lo
  {
    if lo == hi then GUND
    else
      var mid := (lo + hi) / 2;
      if key < t[mid].from then Search(t, key, lo, mid)
      else if key > t[mid].from then Search(t, key, mid + 1, hi)
      else t[mid].to
  }

  function CodepointLookup(key: nat, t: seq<Codepoint>): nat {
    Search(t, key, 0, |t|)
  }

  lemma {:induction false} SearchCorrect(t: seq<Codepoint>, key: nat, lo: nat, hi: nat)
    requires Sorted(t) && lo <= hi <= |t|
    requires forall i :: 0 <= i < lo ==> t[i].from < key
    requires forall i :: hi <= i < |t| ==> key < t[i].from
    ensures forall i :: 0 <= i < |t| && t[i].from == key ==> Search(t, key, lo, hi) == t[i].to
    ensures (forall i :: 0 <= i < |t| ==> t[i].from != key) ==> Search(t, key, lo, hi) == GUND
    decreases hi - lo
  {
    if lo < hi {
      var mid := (lo + hi) / 2;
      if key < t[mid].from {
        SearchCorrect(t, key, lo, mid);
      } else if key > t[mid].from {
        SearchCorrect(t, key, mid + 1, hi);
      }
    }
  }

  /** The binary search is exact on a sorted table: an entry's value, or GUND when no
      entry has that key. */
  lemma LookupCorrect(t: seq<Codepoint>, key: nat)
    requires Sorted(t)
    ensures forall i :: 0 <= i < |t| && t[i].from == key ==> CodepointLookup(key, t) == t[i].to
    ensures (forall i :: 0 <= i < |t| ==> t[i].from != key) ==> CodepointLookup(key, t) == GUND
  {
    SearchCorrect(t, key, 0, |t|);
  }

  // ---------------------------------------------------------- table facts

  ghost predicate LockingConsistent(t: ConversionTable) {
    && |t.gsmLocking| == 128 && |t.unicodeLocking| == 128
    && Sorted(t.unicodeLocking)
    && t.gsmLocking[SPACE] == SPACE
    && (forall k :: 0 <= k < 128 ==> IsTextChar(t.gsmLocking[k]) && t.gsmLocking[k] != GUND)
    && (forall i :: 0 <= i < 128 ==>
          var e := t.unicodeLocking[i];
          e.to < 128 && e.to != ESCAPE && t.gsmLocking[e.to] == Fold(e.from))
  }

  // position[i] is where the inverse of unicodeSingle[i] sits in gsmSingle
  ghost predicate SingleConsistentVia(t: ConversionTable, position: seq<nat>) {
    && |t.gsmSingle| == |t.unicodeSingle| + 1 && |position| == |t.unicodeSingle|
    && Sorted(t.gsmSingle) && Sorted(t.unicodeSingle)
    && (exists j :: 0 <= j < |t.gsmSingle| && t.gsmSingle[j] == Cp(ESCAPE, SPACE))
    && (forall j :: 0 <= j < |t.gsmSingle| ==>
          var e := t.gsmSingle[j];
          e.from < 128 && IsTextChar(e.to) && e.to != GUND && e.to != NBSP)
    && (forall i :: 0 <= i < |t.unicodeSingle| ==>
          var e := t.unicodeSingle[i];
          && 0x1B00 <= e.to < 0x1B80 && e.to != 0x1B00 + ESCAPE
          && position[i] < |t.gsmSingle|
          && t.gsmSingle[position[i]] == Cp(e.to - 0x1B00, e.from))
  }

  ghost predicate Consistent(t: ConversionTable) {
    LockingConsistent(t) && exists position :: SingleConsistentVia(t, position)
  }

  // Adjacent entries in order make the whole table sorted
  lemma {:induction false} Ascending(t: seq<Codepoint>, i: nat, j: nat)
    requires forall k :: 0 <= k < |t| - 1 ==> t[k].from < t[k + 1].from
    requires i < j < |t|
    ensures t[i].from < t[j].from
    decreases j
  {
    if i + 1 < j {
      Ascending(t, i, j - 1);
    }
  }

  lemma AscendingSorted(t: seq<Codepoint>)
    requires forall k :: 0 <= k < |t| - 1 ==> t[k].from < t[k + 1].from
    ensures Sorted(t)
  {
    forall i, j | 0 <= i < j < |t| ensures t[i].from < t[j].from {
      Ascending(t, i, j);
    }
  }

  lemma DefaultLockingConsistent()
    ensures LockingConsistent(AlphabetLookup(Default))
    ensures LockingConsistent(AlphabetLookup(Spanish))
  {
    DefGsmChars();
    DefUnicodeAscends();
    DefUnicodeInverseLow();
    DefUnicodeInverseHigh();
    AscendingSorted(AlphabetLookup(Default).unicodeLocking);
  }

  lemma TurkishLockingConsistent()
    ensures LockingConsistent(AlphabetLookup(Turkish))
  {
    TurGsmChars();
    TurUnicodeAscends();
    TurUnicodeInverseLow();
    TurUnicodeInverseHigh();
    AscendingSorted(AlphabetLookup(Turkish).unicodeLocking);
  }

  lemma PortugueseLockingConsistent()
    ensures LockingConsistent(AlphabetLookup(Portuguese))
  {
    PorGsmChars();
    PorUnicodeAscends();
    PorUnicodeInverseLow();
    PorUnicodeInverseHigh();
    AscendingSorted(AlphabetLookup(Portuguese).unicodeLocking);
  }

  lemma DefaultSingleConsistent()
    ensures exists position :: SingleConsistentVia(AlphabetLookup(Default), position)
  {
    var t := AlphabetLookup(Default);
    DefExtGsmEntries();
    AscendingSorted(t.gsmSingle);
    AscendingSorted(t.unicodeSingle);
    DefExtUnicodeInverse();
    var position: seq<nat> := seq(10, i => DefExtPosition(i));
    assert t.gsmSingle[2] == Cp(ESCAPE, SPACE);
    assert SingleConsistentVia(t, position);
  }

  lemma TurkishSingleConsistent()
    ensures exists position :: SingleConsistentVia(AlphabetLookup(Turkish), position)
  {
    var t := AlphabetLookup(Turkish);
    TurExtGsmEntries();
    AscendingSorted(t.gsmSingle);
    AscendingSorted(t.unicodeSingle);
    TurExtUnicodeInverse();
    var position: seq<nat> := seq(17, i => TurExtPosition(i));
    assert t.gsmSingle[2] == Cp(ESCAPE, SPACE);
    assert SingleConsistentVia(t, position);
  }

  lemma SpanishSingleConsistent()
    ensures exists position :: SingleConsistentVia(AlphabetLookup(Spanish), position)
  {
    var t := AlphabetLookup(Spanish);
    SpaExtGsmEntries();
    AscendingSorted(t.gsmSingle);
    AscendingSorted(t.unicodeSingle);
    SpaExtUnicodeInverse();
    var position: seq<nat> := seq(19, i => SpaExtPosition(i));
    assert t.gsmSingle[3] == Cp(ESCAPE, SPACE);
    assert SingleConsistentVia(t, position);
  }

  lemma PortugueseSingleConsistent()
    ensures exists position :: SingleConsistentVia(AlphabetLookup(Portuguese), position)
  {
    var t := AlphabetLookup(Portuguese);
    PorExtGsmEntries();
    AscendingSorted(t.gsmSingle);
    AscendingSorted(t.unicodeSingle);
    PorExtUnicodeInverse();
    var position: seq<nat> := seq(37, i => PorExtPosition(i));
    assert t.gsmSingle[15] == Cp(ESCAPE, SPACE);
    assert SingleConsistentVia(t, position);
  }

  /** Every dialect's tables are sorted, invert one another up to U+00A0, keep 0x1B out
      of every encoding but its escape prefix, and name only non-surrogate characters. */
  lemma AlphabetConsistent(lang: KnownDialect)
    ensures Consistent(AlphabetLookup(lang))
  {
    match lang
    case Default => DefaultLockingConsistent(); DefaultSingleConsistent();
    case Turkish => TurkishLockingConsistent(); TurkishSingleConsistent();
    case Spanish => DefaultLockingConsistent(); SpanishSingleConsistent();
    case Portuguese => PortugueseLockingConsistent(); PortugueseSingleConsistent();
  }

  // ------------------------------------------- what consistent tables give

  // The four lookups of home-item/util.c:483-525, on one dialect's tables
  function GsmLockingLookup(k: nat, t: ConversionTable): nat
    requires k < |t.gsmLocking|
  {
    t.gsmLocking[k]
  }

  function GsmSingleLookup(k: nat, t: ConversionTable): nat {
    CodepointLookup(k, t.gsmSingle)
  }

  function UnicodeLockingLookup(c: nat, t: ConversionTable): nat {
    CodepointLookup(c, t.unicodeLocking)
  }

  function UnicodeSingleLookup(c: nat, t: ConversionTable): nat {
    CodepointLookup(c, t.unicodeSingle)
  }

  function Below(n: nat): (b: set<nat>)
    ensures |b| == n && forall x: nat :: x in b <==> x < n
  {
    if n == 0 then {} else Below(n - 1) + {n - 1}
  }

  function Members(s: seq<nat>): set<nat> {
    set x | x in s
  }

  lemma {:induction false} DistinctCount(s: seq<nat>)
    requires forall i, j :: 0 <= i < j < |s| ==> s[i] != s[j]
    ensures |Members(s)| == |s|
  {
    if s != [] {
      var n := |s| - 1;
      DistinctCount(s[..n]);
      assert s == s[..n] + [s[n]];
      assert Members(s) == Members(s[..n]) + {s[n]};
    }
  }

  lemma SubsetCount(a: set<nat>, b: set<nat>)
    requires a <= b
    ensures |a| <= |b|
  {
    assert a + (b - a) == b;
  }

  /** |s| distinct members below |s| leave none out. */
  lemma DistinctCovers(s: seq<nat>, k: nat)
    requires forall i :: 0 <= i < |s| ==> s[i] < |s|
    requires forall i, j :: 0 <= i < j < |s| ==> s[i] != s[j]
    requires k < |s|
    ensures k in s
  {
    DistinctCount(s);
    if k !in s {
      assert Members(s) <= Below(|s|) - {k};
      SubsetCount(Members(s), Below(|s|) - {k});
    }
  }

  /** A locking code point is a septet other than 0x1B that reads back as the character. */
  lemma UnicodeLockingSound(c: nat, t: ConversionTable)
    requires LockingConsistent(t)
    ensures var v := UnicodeLockingLookup(c, t);
      v == GUND || (v < 128 && v != ESCAPE && GsmLockingLookup(v, t) == Fold(c))
  {
    LookupCorrect(t.unicodeLocking, c);
  }

  /** Every septet but 0x1B is what its character is encoded as: the reverse table has
      no room to leave one out. */
  lemma UnicodeLockingComplete(k: nat, t: ConversionTable)
    requires LockingConsistent(t) && k < 128 && k != ESCAPE
    ensures UnicodeLockingLookup(GsmLockingLookup(k, t), t) == k
  {
    var u := t.unicodeLocking;
    var codes: seq<nat> := seq(128, i requires 0 <= i < 128 => if u[i].from == NBSP then ESCAPE else u[i].to);
    forall i, j | 0 <= i < j < 128 ensures codes[i] != codes[j] {
      assert u[i].from != u[j].from;
    }
    DistinctCovers(codes, k);
    var i :| 0 <= i < 128 && codes[i] == k;
    assert u[i].from == GsmLockingLookup(k, t);
    LookupCorrect(u, u[i].from);
  }

  /** U+00A0 is encoded as the space: it has the one entry that no septet accounts for. */
  lemma NbspIsSpace(t: ConversionTable)
    requires LockingConsistent(t)
    ensures UnicodeLockingLookup(NBSP, t) == SPACE == UnicodeLockingLookup(SPACE, t)
  {
    var u := t.unicodeLocking;
    var codes: seq<nat> := seq(128, i requires 0 <= i < 128 => if u[i].from == NBSP then ESCAPE else u[i].to);
    forall i, j | 0 <= i < j < 128 ensures codes[i] != codes[j] {
      assert u[i].from != u[j].from;
    }
    DistinctCovers(codes, ESCAPE);
    var i :| 0 <= i < 128 && codes[i] == ESCAPE;
    LookupCorrect(u, NBSP);
    UnicodeLockingComplete(u[i].to, t);
    UnicodeLockingComplete(SPACE, t);
  }

  /** A single-shift code point is 0x1B00 plus a septet, never 0x1B itself, that reads
      back as the character. */
  lemma UnicodeSingleSound(c: nat, t: ConversionTable)
    requires Consistent(t)
    ensures var v := UnicodeSingleLookup(c, t);
      v == GUND || (0x1B00 <= v < 0x1B80 && v != 0x1B00 + ESCAPE
                    && GsmSingleLookup(v - 0x1B00, t) == c == Fold(c) && c != GUND)
  {
    var position :| SingleConsistentVia(t, position);
    LookupCorrect(t.unicodeSingle, c);
    if i :| 0 <= i < |t.unicodeSingle| && t.unicodeSingle[i].from == c {
      LookupCorrect(t.gsmSingle, t.unicodeSingle[i].to - 0x1B00);
      assert t.gsmSingle[position[i]].from == t.unicodeSingle[i].to - 0x1B00;
    }
  }

  /** Every septet after 0x1B is what its character is encoded as, except 0x1B, which
      reads as a space. */
  lemma GsmSingleComplete(k: nat, t: ConversionTable)
    requires Consistent(t)
    ensures var c := GsmSingleLookup(k, t);
      c == GUND || (k < 128 && IsTextChar(c) && c != NBSP
                    && if k == ESCAPE then c == SPACE else UnicodeSingleLookup(c, t) == 0x1B00 + k)
  {
    var position :| SingleConsistentVia(t, position);
    LookupCorrect(t.gsmSingle, k);
    if j :| 0 <= j < |t.gsmSingle| && t.gsmSingle[j].from == k {
      var e :| 0 <= e < |t.gsmSingle| && t.gsmSingle[e] == Cp(ESCAPE, SPACE);
      SingleInverse(t, position, j, e);
    }
  }

  lemma SingleInverse(t: ConversionTable, position: seq<nat>, j: nat, e: nat)
    requires SingleConsistentVia(t, position)
    requires j < |t.gsmSingle| && e < |t.gsmSingle| && t.gsmSingle[e] == Cp(ESCAPE, SPACE)
    ensures var k, c := t.gsmSingle[j].from, t.gsmSingle[j].to;
      if k == ESCAPE then c == SPACE else UnicodeSingleLookup(c, t) == 0x1B00 + k
  {
    var u, g, all := t.unicodeSingle, t.gsmSingle, position + [e];
    if j != e {
      forall i, i' | 0 <= i < i' < |all| ensures all[i] != all[i'] {
        assert g[all[i]].from != ESCAPE;
        assert i' < |u| ==> u[i].from != u[i'].from;
      }
      DistinctCovers(all, j);
      var i :| 0 <= i < |all| && all[i] == j;
      LookupCorrect(u, u[i].from);
    }
  }

  // ---------------------------------------------- which alphabets overlap

  lemma ApartLookups(u: seq<Codepoint>, l: seq<Codepoint>, c: nat)
    requires Sorted(u) && Sorted(l)
    requires forall i, j :: 0 <= i < |u| && 0 <= j < |l| ==> l[j].from != u[i].from
    ensures CodepointLookup(c, u) == GUND || CodepointLookup(c, l) == GUND
  {
    LookupCorrect(u, c);
    LookupCorrect(l, c);
  }

  lemma DefaultSinglesApart(lang: KnownDialect, i: nat)
    requires lang != Portuguese && i < |AlphabetLookup(lang).unicodeSingle|
    ensures forall j :: 0 <= j < 128 ==>
      AlphabetLookup(Default).unicodeLocking[j].from != AlphabetLookup(lang).unicodeSingle[i].from
  {
    match lang
    case Default => DefExtApart(i);
    case Turkish => TurExtApart(i);
    case Spanish => SpaExtApart(i);
  }

  /** With the default locking table, the default, Turkish and Spanish single-shift
      tables hold no character that the locking table has too. */
  lemma DefaultSinglesDisjoint(lang: KnownDialect, c: nat)
    requires lang != Portuguese
    ensures UnicodeSingleLookup(c, AlphabetLookup(lang)) == GUND
         || UnicodeLockingLookup(c, AlphabetLookup(Default)) == GUND
  {
    var u, l := AlphabetLookup(lang).unicodeSingle, AlphabetLookup(Default).unicodeLocking;
    AlphabetConsistent(lang);
    AlphabetConsistent(Default);
    forall i, j | 0 <= i < |u| && 0 <= j < |l| ensures l[j].from != u[i].from {
      DefaultSinglesApart(lang, i);
    }
    ApartLookups(u, l, c);
  }
}
