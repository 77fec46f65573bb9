/** What packing and unpacking promise together: base conversion both ways, the exact
    round trip at any offset, and exactly when the USSD padding rule is transparent. */
module SeptetRoundTrips {
  import opened Bits
  import opened Septets

  // CR in the spare bits or in an octet of its own
  predicate PadsWithCr(s: seq<nat>, fill: nat, ussd: bool) {
    AddsOctet(s, fill, ussd) || FillsSpareBits(s, fill, ussd)
  }

  lemma PackedValBound(s: seq<nat>, fill: nat, ussd: bool)
    requires IsSeptets(s)
    ensures PackedVal(s, fill, ussd) < Pow2(8 * PackedSize(s, fill, ussd))
  {
    var total, size := TotalBits(|s|, fill), PackedSize(s, fill, ussd);
    Pow2Values();
    ValBound(s, 7);
    WidthValue(|s|);
    ShlBound(Val(s, 7), 7 * |s|, fill);
    if PadsWithCr(s, fill, ussd) {
      assert total + 4 <= 8 * size;
      ShlSum(1, CR, total);
      ShlMono(1 + CR, 16, total);
      ShlShl(1, 4, total);
      Pow2Mono(total + 4, 8 * size);
    } else {
      Pow2Mono(total, 8 * size);
    }
  }

  lemma {:induction false} Pow2Mono(m: nat, n: nat)
    requires m <= n
    ensures Pow2(m) <= Pow2(n)
  {
    ShlShl(1, m, n - m);
    ShlGrows(Pow2(m), n - m);
  }

  /** Packing is base conversion: the octets spell the septets' number shifted past the
      fill bits, plus 13 above the last septet in exactly the two USSD cases. */
  lemma PackedIsBaseConversion(s: seq<nat>, fill: nat, ussd: bool)
    requires IsSeptets(s)
    ensures Val(Packed(s, fill, ussd), 8)
         == Shl(Val(s, 7), fill) + (if PadsWithCr(s, fill, ussd) then Shl(CR, 7 * |s| + fill) else 0)
    ensures PadsWithCr(s, fill, ussd) <==>
      ussd && ((7 * |s| + fill) % 8 == 1 || ((7 * |s| + fill) % 8 == 0 && s != [] && s[|s| - 1] == 13))
    ensures |Packed(s, fill, ussd)| == (7 * |s| + fill + 7) / 8
      + (if ussd && (7 * |s| + fill) % 8 == 0 && s != [] && s[|s| - 1] == 13 then 1 else 0)
    ensures forall i :: 0 <= i < |Packed(s, fill, ussd)| ==> Packed(s, fill, ussd)[i] < 256
  {
    hide Digits, Val, Shl, Low, Pow2, Width;
    var size := PackedSize(s, fill, ussd);
    Pow2Values();
    PackedValBound(s, fill, ussd);
    WidthValue(size);
    DigitsExact(PackedVal(s, fill, ussd), size, 8);
  }

  // As many septets as there is room for behind the fill bits
  lemma WholeSeptets(len: nat, fill: nat)
    ensures
      var n := SeptetCount(len, fill);
      && (n > 0 ==> 7 * n + fill <= 8 * len)
      && 7 * (n + 1) + fill > 8 * len
  {
  }

  /** The fill bits take the first septet to the next septet boundary, and no further. */
  lemma FillAligns(byteOffset: nat)
    ensures Fill(byteOffset) < 7 && (8 * byteOffset + Fill(byteOffset)) % 7 == 0
  {
    assert 8 * byteOffset + Fill(byteOffset)
        == 7 * (byteOffset + byteOffset / 7 + if byteOffset % 7 == 0 then 0 else 1);
  }

  /** Unpacking is the inverse conversion, for any octets at all: it stops at the count
      that was asked for or when no whole septet is left, and not before. */
  lemma UnpackedIsBaseConversion(octets: seq<nat>, fill: nat, maxToUnpack: int)
    ensures
      var r := UnpackResult(octets, fill, false, maxToUnpack);
      && |r| == UnpackedCount(|octets|, fill, maxToUnpack)
      && IsSeptets(r)
      && Val(r, 7) == Low(Shr(Val(octets, 8), fill), 7 * |r|)
      && (maxToUnpack <= 0 ==> r == [])
      && (maxToUnpack > 0 ==>
            && |r| <= maxToUnpack
            && (r != [] ==> 7 * |r| + fill <= 8 * |octets|)
            && (|r| == maxToUnpack || 7 * (|r| + 1) + fill > 8 * |octets|))
  {
    var n := UnpackedCount(|octets|, fill, maxToUnpack);
    WholeSeptets(|octets|, fill);
    Pow2Values();
    ValOfDigits(Shr(Val(octets, 8), fill), n, 7);
    WidthValue(n);
  }

  /** In USSD mode every whole septet is taken, whatever was asked for, and then one CR is
      dropped if it is the last of a group of eight. */
  lemma UssdUnpacked(octets: seq<nat>, fill: nat, maxToUnpack: int)
    returns (u: seq<nat>)
    ensures IsSeptets(u) && Val(u, 7) == Low(Shr(Val(octets, 8), fill), 7 * |u|)
    ensures (u != [] ==> 7 * |u| + fill <= 8 * |octets|) && 7 * (|u| + 1) + fill > 8 * |octets|
    ensures
      var r := UnpackResult(octets, fill, true, maxToUnpack);
      if u != [] && |u| % 8 == 0 && u[|u| - 1] == 13 then r + [13] == u else r == u
  {
    var n := SeptetCount(|octets|, fill);
    u := Unpacked(octets, fill, n);
    Pow2Values();
    WholeSeptets(|octets|, fill);
    ValOfDigits(Shr(Val(octets, 8), fill), n, 7);
    WidthValue(n);
  }

  // What the receiver sees before it drops a final CR
  function Received(s: seq<nat>, fill: nat, ussd: bool): seq<nat> {
    if PadsWithCr(s, fill, ussd) then s + [CR] else s
  }

  lemma PackedBehindFill(s: seq<nat>, fill: nat, ussd: bool)
    requires IsSeptets(s)
    ensures Shr(Val(Packed(s, fill, ussd), 8), fill) == Val(Received(s, fill, ussd), 7)
  {
    var r := Received(s, fill, ussd);
    PackedIsBaseConversion(s, fill, ussd);
    if r != s {
      ValSnoc(s, CR, 7);
      WidthValue(|s|);
      ShlShl(CR, 7 * |s|, fill);
      ShlSum(Val(s, 7), Shl(CR, 7 * |s|), fill);
    }
    SplitUnique(Val(r, 7), 0, fill);
  }

  lemma UnpackPacked(s: seq<nat>, fill: nat, ussd: bool)
    requires IsSeptets(s)
    ensures var r := Received(s, fill, ussd); Unpacked(Packed(s, fill, ussd), fill, |r|) == r
  {
    Pow2Values();
    PackedBehindFill(s, fill, ussd);
    NumeralOfVal(Received(s, fill, ussd), 7);
  }

  /** Unpacking what was packed, at the same offset and with the original count, gives
      the septets back. */
  lemma RoundTrip(s: seq<nat>, byteOffset: nat)
    requires IsSeptets(s)
    ensures
      var fill := Fill(byteOffset);
      UnpackResult(Packed(s, fill, false), fill, false, |s|) == s
  {
    UnpackPacked(s, Fill(byteOffset), false);
    PackedIsBaseConversion(s, Fill(byteOffset), false);
  }

  /** The USSD round trip at any offset: the sender's text, with the padding CR if there
      was one, less a final CR that makes a group of eight. */
  lemma UssdRoundTrip(s: seq<nat>, byteOffset: nat, maxToUnpack: int)
    requires s != [] && IsSeptets(s)
    ensures
      var fill := Fill(byteOffset);
      && SeptetCount(|Packed(s, fill, true)|, fill) > 0
      && UnpackResult(Packed(s, fill, true), fill, true, maxToUnpack) == StripCr(Received(s, fill, true))
  {
    UnpackPacked(s, Fill(byteOffset), true);
    ReceivedLength(s, Fill(byteOffset));
  }

  lemma ReceivedLength(s: seq<nat>, fill: nat)
    requires s != [] && fill <= 6
    ensures SeptetCount(PackedSize(s, fill, true), fill) == |Received(s, fill, true)|
  {
  }

  lemma TotalBitsMod8(n: nat, fill: nat)
    requires fill <= 6
    ensures TotalBits(n, fill) % 8 == (8 + fill - n % 8) % 8
  {
    assert 7 * n + fill == 8 * (n - n / 8 - 1) + (8 + fill - n % 8);
  }

  lemma StrippedReceived(s: seq<nat>, fill: nat)
    requires s != [] && fill <= 6
    ensures StripCr(Received(s, fill, true)) == s <==> UssdTransparent(s, fill)
    ensures fill == 0 ==>
      StripCr(Received(s, fill, true)) == if |s| % 8 == 0 && EndsInCr(s) then s + [CR] else s
    ensures fill >= 2 && |s| % 8 == 0 && EndsInCr(s) ==> StripCr(Received(s, fill, true)) == s[..|s| - 1]
  {
    var t := s + [CR];
    assert t[..|s|] == s && |t| == |s| + 1 && EndsInCr(t);
    TotalBitsMod8(|s|, fill);
  }

  // Both sides can see this before sending: either a padding CR is added and the
  // receiver drops it, or none is added and the receiver finds nothing to drop
  predicate UssdTransparent(s: seq<nat>, fill: nat) {
    if PadsWithCr(s, fill, true) then (|s| + 1) % 8 == 0 else |s| % 8 != 0 || !EndsInCr(s)
  }

  lemma TransparentMeans(s: seq<nat>, fill: nat)
    requires s != []
    ensures UssdTransparent(s, fill) <==>
      if (7 * |s| + fill) % 8 == 1 || ((7 * |s| + fill) % 8 == 0 && s[|s| - 1] == 13) then |s| % 8 == 7
      else |s| % 8 != 0 || s[|s| - 1] != 13
  {
    assert (|s| + 1) % 8 == 0 <==> |s| % 8 == 7;
  }

  /** A USSD text survives exactly when it is transparent. */
  lemma UssdRoundTripIff(s: seq<nat>, byteOffset: nat, maxToUnpack: int)
    requires s != [] && IsSeptets(s)
    ensures
      var fill := Fill(byteOffset);
      && (UnpackResult(Packed(s, fill, true), fill, true, maxToUnpack) == s <==> UssdTransparent(s, fill))
      && (UssdTransparent(s, fill) <==>
            if (7 * |s| + fill) % 8 == 1 || ((7 * |s| + fill) % 8 == 0 && s[|s| - 1] == 13) then |s| % 8 == 7
            else |s| % 8 != 0 || s[|s| - 1] != 13)
  {
    TransparentMeans(s, Fill(byteOffset));
    hide UssdTransparent, UnpackResult, Packed, EndsInCr;
    UssdRoundTrip(s, byteOffset, maxToUnpack);
    StrippedReceived(s, Fill(byteOffset));
  }

  /** On a septet boundary only one family of texts changes: a multiple of eight septets
      that ends in CR gains one CR, as section 6.1.2.3.1 of TS 23.038 accepts. */
  lemma UssdRoundTripAligned(s: seq<nat>, byteOffset: nat, maxToUnpack: int)
    requires s != [] && IsSeptets(s) && byteOffset % 7 == 0
    ensures
      var fill := Fill(byteOffset);
      UnpackResult(Packed(s, fill, true), fill, true, maxToUnpack)
      == if |s| % 8 == 0 && EndsInCr(s) then s + [CR] else s
  {
    UssdRoundTrip(s, byteOffset, maxToUnpack);
    StrippedReceived(s, Fill(byteOffset));
  }

  /** With two or more fill bits the receiver counts septets where the rule counts
      octets: a multiple of eight septets that ends in CR loses that CR. */
  lemma UssdOffsetLosesCr(s: seq<nat>, byteOffset: nat, maxToUnpack: int)
    requires IsSeptets(s) && Fill(byteOffset) >= 2
    requires |s| % 8 == 0 && EndsInCr(s)
    ensures
      var fill := Fill(byteOffset);
      UnpackResult(Packed(s, fill, true), fill, true, maxToUnpack) == s[..|s| - 1]
  {
    UssdRoundTrip(s, byteOffset, maxToUnpack);
    StrippedReceived(s, Fill(byteOffset));
  }
}
