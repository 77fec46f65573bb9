/** UTF-8 as section 3 of RFC 3629 defines it, for code points up to U+FFFF.

    `Decode` stands for GLib's validated read of one character, `Encode` for its
    inverse. A longer sequence is not read: the converters refuse a code point above
    U+FFFF at the same place as a malformed one. */
module Utf8 {
  import opened Bits
  import opened Options

  predicate IsScalar(c: nat) {
    c < 0xD800 || 0xE000 <= c < 0x10000
  }

  predicate IsContinuation(b: octet) {
    0x80 <= b < 0xC0
  }

  // The UTF8_LENGTH macro
  function Length(c: nat): nat {
    if c < 0x80 then 1 else if c < 0x800 then 2 else 3
  }

  function Encode(c: nat): (b: seq<octet>)
    requires c < 0x10000
    ensures |b| == Length(c)
  {
    if c < 0x80 then [c]
    else if c < 0x800 then [0xC0 + c / 64, 0x80 + c % 64]
    else [0xE0 + c / 4096, 0x80 + c / 64 % 64, 0x80 + c % 64]
  }

  // The character at the front and its length, if it is well formed
  function Decode(b: seq<octet>): (r: Option<(nat, nat)>)
    ensures r.Some? ==> 1 <= r.value.1 <= |b|
  {
    if b == [] then None
    else if b[0] < 0x80 then Some((b[0], 1))
    else if |b| >= 2 && 0xC2 <= b[0] < 0xE0 && IsContinuation(b[1]) then
      var x: int, y: int := b[0] - 0xC0, b[1] - 0x80;
      Some((x * 64 + y, 2))
    else if |b| >= 3 && 0xE0 <= b[0] < 0xF0 && IsContinuation(b[1]) && IsContinuation(b[2]) then
      var x: int, y: int, z: int := b[0] - 0xE0, b[1] - 0x80, b[2] - 0x80;
      var c := x * 4096 + y * 64 + z;
      if c >= 0x800 && IsScalar(c) then Some((c, 3)) else None
    else None
  }

  /** Reading back what was written. */
  lemma DecodeEncode(c: nat, rest: seq<octet>)
    requires IsScalar(c)
    ensures Decode(Encode(c) + rest) == Some((c, Length(c)))
  {
  }

  /** A character is read only from its one shortest form. */
  lemma EncodeDecode(b: seq<octet>)
    requires Decode(b).Some?
    ensures var (c, n) := Decode(b).value; IsScalar(c) && n == Length(c) && b[..n] == Encode(c)
    ensures Decode(b).value.0 == 0 ==> b[0] == 0
  {
    var (c, n) := Decode(b).value;
    if n == 3 {
      assert c / 4096 == b[0] - 0xE0 && c / 64 % 64 == b[1] - 0x80;
    }
  }

  function EncodeAll(t: seq<nat>): seq<octet>
    requires forall i :: 0 <= i < |t| ==> t[i] < 0x10000
  {
    if t == [] then [] else Encode(t[0]) + EncodeAll(t[1..])
  }

  /** One byte carries seven bits, two carry eleven behind 110 and 10, three carry sixteen
      behind 1110, 10 and 10; more significant bits come first. */
  lemma EncodeLayout(c: nat)
    requires c < 0x10000
    ensures
      var b := Encode(c);
      && (c < 0x80 ==> b == [c])
      && (0x80 <= c < 0x800 ==>
            |b| == 2 && 0xC0 <= b[0] < 0xE0 && 0x80 <= b[1] < 0xC0
            && c == (b[0] as int - 0xC0) * 64 + (b[1] as int - 0x80))
      && (0x800 <= c ==>
            |b| == 3 && 0xE0 <= b[0] < 0xF0 && 0x80 <= b[1] < 0xC0 && 0x80 <= b[2] < 0xC0
            && c == (b[0] as int - 0xE0) * 4096 + (b[1] as int - 0x80) * 64 + (b[2] as int - 0x80))
  {
  }
}
