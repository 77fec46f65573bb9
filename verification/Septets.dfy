/** What packing septets into octets and back means (home-item/util.c:892-1088), for any
    bit offset and with the USSD padding rule of section 6.1.2.3.1 of 3GPP TS 23.038.

    The specification is conversion of numerals: septets are the digits of a number in
    base 128, octets the digits of one in base 256, and the fill bits shift it left. */
module Septets {
  import opened Bits
  import opened Options

  const CR := 13

  // Bits to skip so that the first septet starts on a septet boundary
  function Fill(byteOffset: nat): nat {
    if byteOffset % 7 == 0 then 0 else 7 - byteOffset % 7
  }

  ghost predicate IsSeptets(s: seq<nat>) {
    forall i :: 0 <= i < |s| ==> s[i] < 128
  }

  function TotalBits(n: nat, fill: nat): nat {
    7 * n + fill
  }

  predicate EndsInCr(s: seq<nat>) {
    s != [] && s[|s| - 1] == CR
  }

  // A whole octet is added for a final CR that ends on an octet boundary
  predicate AddsOctet(s: seq<nat>, fill: nat, ussd: bool) {
    ussd && TotalBits(|s|, fill) % 8 == 0 && EndsInCr(s)
  }

  // Seven spare bits are filled with CR
  predicate FillsSpareBits(s: seq<nat>, fill: nat, ussd: bool) {
    ussd && TotalBits(|s|, fill) % 8 == 1
  }

  function PackedSize(s: seq<nat>, fill: nat, ussd: bool): nat {
    (TotalBits(|s|, fill) + 7) / 8 + if AddsOctet(s, fill, ussd) then 1 else 0
  }

  function PackedVal(s: seq<nat>, fill: nat, ussd: bool): nat {
    Shl(Val(s, 7), fill)
    + if AddsOctet(s, fill, ussd) || FillsSpareBits(s, fill, ussd)
      then Shl(CR, TotalBits(|s|, fill)) else 0
  }

  function Packed(s: seq<nat>, fill: nat, ussd: bool): seq<nat> {
    Digits(PackedVal(s, fill, ussd), PackedSize(s, fill, ussd), 8)
  }

  // Whole septets in len octets behind fill bits
  function SeptetCount(len: nat, fill: nat): nat {
    if 8 * len < fill then 0 else (8 * len - fill) / 7
  }

  function Unpacked(octets: seq<nat>, fill: nat, n: nat): seq<nat> {
    Digits(Shr(Val(octets, 8), fill), n, 7)
  }

  function Min(a: int, b: int): int {
    if a < b then a else b
  }

  function UnpackedCount(len: nat, fill: nat, maxToUnpack: int): nat {
    if maxToUnpack <= 0 then 0 else Min(maxToUnpack, SeptetCount(len, fill))
  }

  // The receiver drops a final CR that ends an octet group
  function StripCr(s: seq<nat>): seq<nat> {
    if |s| % 8 == 0 && EndsInCr(s) then s[..|s| - 1] else s
  }

  function UnpackResult(octets: seq<nat>, fill: nat, ussd: bool, maxToUnpack: int): seq<nat> {
    if ussd then StripCr(Unpacked(octets, fill, SeptetCount(|octets|, fill)))
    else Unpacked(octets, fill, UnpackedCount(|octets|, fill, maxToUnpack))
  }
}
