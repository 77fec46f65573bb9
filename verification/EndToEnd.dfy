/** A text on its whole way: UTF-8, septets, packed octets, septets, UTF-8; and a text in
    a SIM field, there and back
    (home-item/util.c:540-1244). */
module EndToEnd {
  import opened Bits
  import opened Septets
  import opened GsmTableChecks
  import opened GsmTables
  import opened GsmText
  import opened GsmConversions
  import GsmAlphabet
  import SeptetRoundTrips
  import opened SimText
  import Utf8

  // The sender's and the receiver's half
  function Sent(t: seq<nat>, byteOffset: nat, lt: ConversionTable, st: ConversionTable): seq<nat>
    requires IsText(t) && FromUtf8(Utf8.EncodeAll(t), lt, st).Done?
  {
    Packed(FromUtf8(Utf8.EncodeAll(t), lt, st).septets, Fill(byteOffset), false)
  }

  function Received(octets: seq<nat>, count: nat, byteOffset: nat, lt: ConversionTable, st: ConversionTable): Decoding
    requires |lt.gsmLocking| == 128
  {
    var s := UnpackResult(octets, Fill(byteOffset), false, count);
    if forall i :: 0 <= i < |s| ==> s[i] < 256 then DecodeText(s, lt, st) else Undecodable(0)
  }

  /** Every text that a dialect pair can carry arrives, from any bit offset, with U+00A0
      turned into a space; every other text is refused before anything is packed, at the
      first byte of the first character that has no encoding. */
  lemma TextArrives(t: seq<nat>, byteOffset: nat, locking: KnownDialect, single: KnownDialect)
    requires IsText(t)
    ensures
      var lt, st := AlphabetLookup(locking), AlphabetLookup(single);
      match FromUtf8(Utf8.EncodeAll(t), lt, st)
      case Done(s, read, chars) =>
        && read == |Utf8.EncodeAll(t)| && chars == |t|
        && |Sent(t, byteOffset, lt, st)| == (7 * |s| + Fill(byteOffset) + 7) / 8
        && Received(Sent(t, byteOffset, lt, st), |s|, byteOffset, lt, st) == Decoded(FoldAll(t))
        && IsText(FoldAll(t))
      case Stopped(at) =>
        exists k :: 0 <= k < |t| && EncodeChar(t[k], lt, st).None? && at == |Utf8.EncodeAll(t[..k])|
  {
    hide EncodeText, DecodeText, LockingConsistent, Consistent, AlphabetLookup, EncodeChar;
    hide Utf8.EncodeAll, FoldAll, FromUtf8, UnpackResult, Packed;
    AlphabetConsistent(locking);
    AlphabetConsistent(single);
    var lt, st := AlphabetLookup(locking), AlphabetLookup(single);
    FromUtf8OfText(t, [], lt, st);
    assert Utf8.EncodeAll(t) + [] == Utf8.EncodeAll(t);
    match EncodeText(t, lt, st)
    case Encoded(s) =>
      EncodedIsSeptets(t, lt, st);
      TextRoundTrip(t, s, lt, st);
      DecodedIsText(s, lt, st);
      BytesOfPrefix(t, |t|);
      assert t[..|t|] == t;
      SeptetRoundTrips.RoundTrip(s, byteOffset);
      SeptetRoundTrips.PackedIsBaseConversion(s, Fill(byteOffset), false);
    case Unencodable(k) =>
      StopsAtFirst(t, lt, st);
      BytesOfPrefix(t, k);
  }

  /** A text written to a SIM field of max octets and read again: the longest run of
      whole characters that fits comes back, with U+00A0 turned into a space. */
  lemma FieldReadsBack(t: seq<nat>, max: nat, padding: seq<octet>) returns (k: nat)
    requires IsText(t) && IsPadding(padding)
    requires FromUtf8(Utf8.EncodeAll(t) + [0], DefaultTable(), DefaultTable()).Done?
    ensures LongestFit(t, k, max, DefaultTable(), DefaultTable())
    ensures
      var stored := SimTruncate(FromUtf8(Utf8.EncodeAll(t) + [0], DefaultTable(), DefaultTable()).septets, max);
      && |stored| <= max && (stored == [] || stored[|stored| - 1] != ESCAPE)
      && (stored != [] ==>
            IsUnits(FoldAll(t[..k])) && SimDecode(stored + padding) == Text(Utf8.EncodeAll(FoldAll(t[..k]))))
  {
    hide EncodeText, LockingConsistent, Consistent, DefaultTable, DecodeText, Utf8.EncodeAll, FoldAll, FromUtf8, SimDecode;
    FromUtf8OfText(t, [0], DefaultTable(), DefaultTable());
    k := FindLongestFit(t, |t|, max, DefaultTable(), DefaultTable());
    StoredTextReadsBack(t, k, max, padding);
  }

  /** Plain text is its own UTF-8 and its own septets, in every dialect pair. */
  lemma PlainUtf8(t: seq<octet>, locking: KnownDialect, single: KnownDialect)
    requires forall i :: 0 <= i < |t| ==> GsmAlphabet.IsPlain(t[i])
    ensures FromUtf8(t, AlphabetLookup(locking), AlphabetLookup(single)) == Done(t, |t|, |t|)
  {
    var lt, st := AlphabetLookup(locking), AlphabetLookup(single);
    PlainBytes(t);
    hide AlphabetLookup, FromUtf8, EncodeText, GsmAlphabet.IsPlain, Utf8.EncodeAll;
    GsmAlphabet.PlainTextUnchanged(t, locking, st);
    FromUtf8OfText(t, [], lt, st);
    assert Utf8.EncodeAll(t) + [] == t;
    BytesOfPrefix(t, |t|);
    assert t[..|t|] == t;
  }

  lemma {:induction false} PlainBytes(t: seq<octet>)
    requires forall i :: 0 <= i < |t| ==> GsmAlphabet.IsPlain(t[i])
    ensures IsText(t) && Utf8.EncodeAll(t) == t
  {
    if t != [] {
      PlainBytes(t[1..]);
      assert t == [t[0]] + t[1..];
      assert forall i :: 1 <= i < |t| ==> t[i] == t[1..][i - 1];
    }
  }
}
