/** The hexadecimal pair of home-item/util.c:747-890. */
module Hex {
  import opened Bits
  import opened Buffers
  import opened Options

  // toupper() in the C locale
  function ToUpper(c: octet): octet {
    if 'a' as int <= c <= 'z' as int then c - 32 else c
  }

  predicate IsHexDigit(c: octet) {
    '0' as int <= ToUpper(c) <= '9' as int || 'A' as int <= ToUpper(c) <= 'F' as int
  }

  function DigitValue(c: octet): nat
    requires IsHexDigit(c)
  {
    var u := ToUpper(c);
    if u <= '9' as int then u - '0' as int else 10 + u - 'A' as int
  }

  function HexDigit(v: nat): octet
    requires v < 16
  {
    if v <= 9 then '0' as int + v else 'A' as int + v - 10
  }

  ghost predicate IsHex(s: seq<octet>) {
    forall i :: 0 <= i < |s| ==> IsHexDigit(s[i])
  }

  // One octet as two digits, upper case
  function DigitPair(x: octet): (s: seq<octet>)
    ensures |s| == 2
  {
    [HexDigit(x / 16), HexDigit(x % 16)]
  }

  function PairValue(hi: octet, lo: octet): octet
    requires IsHexDigit(hi) && IsHexDigit(lo)
  {
    DigitValue(hi) * 16 + DigitValue(lo)
  }

  function Encode(b: seq<octet>): (s: seq<octet>)
    ensures |s| == 2 * |b|
  {
    if b == [] then [] else DigitPair(b[0]) + Encode(b[1..])
  }

  // Pairs of digits; an odd last one is not read
  function Decode(s: seq<octet>): Option<seq<octet>> {
    if |s| < 2 then Some([])
    else if !IsHexDigit(s[0]) || !IsHexDigit(s[1]) then None
    else Append([PairValue(s[0], s[1])], Decode(s[2..]))
  }

  function Append(done: seq<octet>, r: Option<seq<octet>>): Option<seq<octet>> {
    match r
    case None => None
    case Some(b) => Some(done + b)
  }

  function ToUpperAll(s: seq<octet>): seq<octet> {
    if s == [] then [] else [ToUpper(s[0])] + ToUpperAll(s[1..])
  }

  lemma PairOfOctet(x: octet)
    ensures var d := DigitPair(x); IsHexDigit(d[0]) && IsHexDigit(d[1]) && PairValue(d[0], d[1]) == x
  {
  }

  lemma OctetOfPair(hi: octet, lo: octet)
    requires IsHexDigit(hi) && IsHexDigit(lo)
    ensures DigitPair(PairValue(hi, lo)) == [ToUpper(hi), ToUpper(lo)]
  {
    var x := PairValue(hi, lo);
    assert x / 16 == DigitValue(hi) && x % 16 == DigitValue(lo);
  }

  // One step of each function
  lemma EncodeFront(x: octet, b: seq<octet>)
    ensures Encode([x] + b) == DigitPair(x) + Encode(b)
  {
    hide DigitPair;
    assert ([x] + b)[1..] == b;
  }

  lemma DecodeFront(hi: octet, lo: octet, s: seq<octet>)
    ensures Decode([hi, lo] + s)
         == if IsHexDigit(hi) && IsHexDigit(lo) then Append([PairValue(hi, lo)], Decode(s)) else None
  {
    hide IsHexDigit, PairValue;
    assert ([hi, lo] + s)[2..] == s;
  }

  lemma ToUpperFront(hi: octet, lo: octet, s: seq<octet>)
    ensures ToUpperAll([hi, lo] + s) == [ToUpper(hi), ToUpper(lo)] + ToUpperAll(s)
  {
    hide ToUpper;
    var t := [hi, lo] + s;
    assert t[1..][1..] == s;
  }

  const DIGITS := "0123456789ABCDEF"

  lemma DigitsAre(v: nat)
    requires v < 16
    ensures HexDigit(v) as char == DIGITS[v]
  {
  }

  /** Every octet is two digits, the high one first. */
  lemma {:induction false} EncodedDigits(b: seq<octet>, i: nat)
    requires i < |b|
    ensures Encode(b)[2 * i] as char == DIGITS[b[i] / 16] && Encode(b)[2 * i + 1] as char == DIGITS[b[i] % 16]
  {
    DigitsAre(b[i] / 16);
    DigitsAre(b[i] % 16);
    hide HexDigit;
    if i > 0 {
      EncodedDigits(b[1..], i - 1);
    }
  }

  /** A digit is one of the sixteen, or a lower-case letter among them. */
  lemma DigitsOnly(c: octet)
    ensures IsHexDigit(c) <==> c as char in DIGITS + "abcdef"
    ensures IsHexDigit(c) ==> DIGITS[DigitValue(c)] == ToUpper(c) as char
  {
    if IsHexDigit(c) {
      var v := DigitValue(c);
      assert DIGITS[v] == ToUpper(c) as char;
      assert "abcdef"[5] == 'f' && (DIGITS + "abcdef")[v] == DIGITS[v];
      if c >= 'a' as int {
        assert (DIGITS + "abcdef")[v + 6] == "abcdef"[v - 10];
      }
    }
  }

  /** Decoding an encoding is the identity on every byte string. */
  lemma {:induction false} DecodeEncode(b: seq<octet>)
    ensures Decode(Encode(b)) == Some(b)
  {
    hide Decode, IsHexDigit, PairValue, DigitPair;
    if b == [] {
      NothingToDecode();
    } else {
      var d := DigitPair(b[0]);
      DecodeEncode(b[1..]);
      PairOfOctet(b[0]);
      assert d == [d[0], d[1]];
      DecodeFront(d[0], d[1], Encode(b[1..]));
      assert b == [b[0]] + b[1..];
    }
  }

  lemma NothingToDecode()
    ensures Decode([]) == Some([])
  {
  }

  lemma {:induction false} DecodesHex(s: seq<octet>)
    requires |s| % 2 == 0
    ensures Decode(s).Some? <==> IsHex(s)
  {
    hide Decode, IsHexDigit, PairValue;
    if s == [] {
      NothingToDecode();
    } else {
      DecodesHex(s[2..]);
      assert s == [s[0], s[1]] + s[2..];
      DecodeFront(s[0], s[1], s[2..]);
      assert forall i :: 2 <= i < |s| ==> s[i] == s[2..][i - 2];
    }
  }

  /** Decoding succeeds exactly on hex digits, and encoding the result gives the input in
      upper case. */
  lemma {:induction false} EncodeDecode(s: seq<octet>)
    requires |s| % 2 == 0
    ensures Decode(s).Some? <==> IsHex(s)
    ensures Decode(s).Some? ==> |Decode(s).value| == |s| / 2 && Encode(Decode(s).value) == ToUpperAll(s)
  {
    hide Decode, Encode, ToUpperAll, IsHex, IsHexDigit, PairValue, DigitPair, ToUpper;
    DecodesHex(s);
    if s == [] {
      EmptyRoundTrip();
    } else {
      EncodeDecode(s[2..]);
      assert s == [s[0], s[1]] + s[2..];
      DecodeFront(s[0], s[1], s[2..]);
      if Decode(s).Some? {
        var b := Decode(s[2..]).value;
        OctetOfPair(s[0], s[1]);
        EncodeFront(PairValue(s[0], s[1]), b);
        ToUpperFront(s[0], s[1], s[2..]);
      }
    }
  }

  lemma EmptyRoundTrip()
    ensures Decode([]) == Some([]) && Encode([]) == ToUpperAll([])
  {
  }

  // ------------------------------------------------------------ decoding

  // What decode_hex reads: an even number of characters
  function Pairs(s: seq<octet>, len: int): (r: seq<octet>)
    requires len <= |s| && (len < 0 ==> 0 in s)
    ensures |r| % 2 == 0 && r <= Resolve(s, len, 0) && |Resolve(s, len, 0)| - |r| < 2
  {
    var r := Resolve(s, len, 0);
    r[..|r| - |r| % 2]
  }

  method ResolveLength(s: seq<octet>, len: int) returns (n: nat)
    requires len <= |s| && (len < 0 ==> 0 in s)
    ensures n <= |s| && s[..n] == Resolve(s, len, 0)
  {
    if len < 0 {
      n := FindTerminator(s, 0);
    } else {
      n := len;
    }
  }

  lemma DecodeFrom(s: seq<octet>, i: nat, done: seq<octet>)
    requires i + 2 <= |s|
    requires Decode(s) == Append(done, Decode(s[i..]))
    ensures
      if IsHexDigit(s[i]) && IsHexDigit(s[i + 1])
      then Decode(s) == Append(done + [PairValue(s[i], s[i + 1])], Decode(s[i + 2..]))
      else Decode(s) == None
  {
    hide Decode, IsHexDigit, PairValue;
    assert s[i..] == [s[i], s[i + 1]] + s[i + 2..];
    DecodeFront(s[i], s[i + 1], s[i + 2..]);
    if IsHexDigit(s[i]) && IsHexDigit(s[i + 1]) && Decode(s[i + 2..]).Some? {
      var d, b := PairValue(s[i], s[i + 1]), Decode(s[i + 2..]).value;
      assert done + ([d] + b) == (done + [d]) + b;
    }
  }

  lemma AppendNothing(s: seq<octet>)
    ensures Decode(s) == Append([], Decode(s[0..]))
    ensures Decode([]) == Some([])
  {
    assert s[0..] == s;
    if Decode(s).Some? {
      assert [] + Decode(s).value == Decode(s).value;
    }
  }

  lemma PairValueIs(hi: octet, lo: octet)
    requires IsHexDigit(hi) && IsHexDigit(lo)
    ensures DigitValue(hi) * 16 + DigitValue(lo) == PairValue(hi, lo)
  {
  }

  // One turn of the loop
  method DecodePair(s: seq<octet>, i: nat, buf: array<octet>, j: nat) returns (valid: bool)
    requires i + 2 <= |s| && j < buf.Length
    requires Decode(s) == Append(buf[..j], Decode(s[i..]))
    modifies buf
    ensures if valid then Decode(s) == Append(buf[..j + 1], Decode(s[i + 2..])) else Decode(s) == None
    ensures forall k :: j < k < buf.Length ==> buf[k] == old(buf[k])
  {
    hide IsHexDigit, DigitValue, PairValue, Decode, Append;
    ghost var done := buf[..j];
    DecodeFrom(s, i, done);
    valid := IsHexDigit(s[i]) && IsHexDigit(s[i + 1]);
    if valid {
      PairValueIs(s[i], s[i + 1]);
      buf[j] := DigitValue(s[i]) * 16 + DigitValue(s[i + 1]);
      assert buf[..j + 1] == done + [buf[j]];
    }
  }

  /** decode_hex_own_buf: all pairs of digits, or NULL at the first character that is not
      one. */
  method DecodeHexOwnBuf(input: seq<octet>, len: int, terminator: octet, buf: array<octet>)
    returns (ok: bool, itemsWritten: Option<nat>)
    requires len <= |input| && (len < 0 ==> 0 in input)
    requires |Pairs(input, len)| / 2 + (if terminator != 0 then 1 else 0) <= buf.Length
    modifies buf
    ensures
      match Decode(Pairs(input, len))
      case None => !ok && itemsWritten == None
      case Some(b) => ok && itemsWritten == Some(|b|) && b <= buf[..]
                      && (terminator != 0 ==> b + [terminator] <= buf[..])
    ensures forall k :: 0 <= k < buf.Length && |Pairs(input, len)| / 2 + 1 <= k ==> buf[k] == old(buf[k])
  {
    var n := ResolveLength(input, len);
    n := n - n % 2;
    var s := input[..n];
    assert s == Pairs(input, len);
    var i, j := 0, 0;
    hide IsHexDigit, DigitValue, Decode;
    AppendNothing(s);
    while i < n
      invariant 0 <= i <= n && i == 2 * j
      invariant Decode(s) == Append(buf[..j], Decode(s[i..]))
      invariant forall k :: n / 2 + 1 <= k < buf.Length ==> buf[k] == old(buf[k])
    {
      var valid := DecodePair(s, i, buf, j);
      if !valid {
        return false, None;
      }
      i, j := i + 2, j + 1;
    }
    assert s[i..] == [] && buf[..j] + [] == buf[..j];
    if terminator != 0 {
      buf[j] := terminator;
      assert buf[..j + 1] == buf[..j] + [terminator];
    }
    ok, itemsWritten := true, Some(j);
  }

  /** decode_hex: it validates first, so the inner call does not fail. g_new gives NULL
      for no octets at all, which is how an empty input without a terminator returns. */
  method DecodeHex(input: seq<octet>, len: int, terminator: octet)
    returns (buf: Option<array<octet>>, itemsWritten: Option<nat>)
    requires len <= |input| && (len < 0 ==> 0 in input)
    ensures buf.Some? ==> fresh(buf.value)
    ensures
      match Decode(Pairs(input, len))
      case None => buf == None && itemsWritten == None
      case Some(b) =>
        && itemsWritten == Some(|b|)
        && (if b == [] && terminator == 0 then buf == None
            else buf.Some? && buf.value[..] == b + if terminator != 0 then [terminator] else [])
  {
    var n := ResolveLength(input, len);
    n := n - n % 2;
    var s := input[..n];
    assert s == Pairs(input, len);
    EncodeDecode(s);
    for i := 0 to n
      invariant forall k :: 0 <= k < i ==> IsHexDigit(s[k])
    {
      if !IsHexDigit(s[i]) {
        return None, None;
      }
    }
    hide IsHexDigit, Decode;
    var size := n / 2 + if terminator != 0 then 1 else 0;
    var b := new octet[size](_ => 0);
    assert Pairs(input, n) == s;
    var ok;
    ok, itemsWritten := DecodeHexOwnBuf(input, n, terminator, b);
    buf := if ok && size > 0 then Some(b) else None;
  }

  // ------------------------------------------------------------ encoding

  lemma Nibbles(x: octet)
    ensures And(Shr(x, 4), 0xF) == x / 16 && And(x, 0xF) == x % 16
  {
    Pow2Values();
    ShrIsQuotient(x, 4);
    AndMask(x, 4);
    AndMask(x / 16, 4);
    LowAll(x / 16, 4);
  }

  lemma EncodeFrom(b: seq<octet>, i: nat)
    requires i < |b|
    ensures Encode(b[i..]) == DigitPair(b[i]) + Encode(b[i + 1..])
  {
    assert b[i..][1..] == b[i + 1..];
  }

  // The two digits of one octet
  method PutOctet(x: octet, j: nat, buf: array<octet>)
    requires j + 1 < buf.Length
    modifies buf
    ensures buf[..j + 2] == old(buf[..j]) + DigitPair(x)
    ensures forall k :: j + 2 <= k < buf.Length ==> buf[k] == old(buf[k])
  {
    hide HexDigit;
    Nibbles(x);
    buf[j] := HexDigit(And(Shr(x, 4), 0xF));
    buf[j + 1] := HexDigit(And(x, 0xF));
    assert buf[..j + 2] == buf[..j] + [buf[j], buf[j + 1]];
  }

  // One turn of the loop
  method EncodeOctet(b: seq<octet>, i: nat, buf: array<octet>)
    requires i < |b| && 2 * |b| < buf.Length
    requires Encode(b) == buf[..2 * i] + Encode(b[i..])
    modifies buf
    ensures Encode(b) == buf[..2 * (i + 1)] + Encode(b[i + 1..])
    ensures forall k :: 2 * i + 2 <= k < buf.Length ==> buf[k] == old(buf[k])
  {
    hide HexDigit, Encode;
    EncodeFrom(b, i);
    ghost var done := buf[..2 * i];
    PutOctet(b[i], 2 * i, buf);
    assert buf[..2 * i + 2] == done + DigitPair(b[i]);
  }

  /** encode_hex_own_buf: two upper-case digits for every octet, NUL-terminated. */
  method EncodeHexOwnBuf(input: seq<octet>, len: int, terminator: octet, buf: array<octet>)
    requires len <= |input| && (len < 0 ==> terminator in input)
    requires 2 * |Resolve(input, len, terminator)| < buf.Length
    modifies buf
    ensures Encode(Resolve(input, len, terminator)) + [0] <= buf[..]
    ensures forall k :: 2 * |Resolve(input, len, terminator)| < k < buf.Length ==> buf[k] == old(buf[k])
  {
    hide HexDigit, Encode;
    var n := len;
    if len < 0 {
      n := FindTerminator(input, terminator);
    }
    var b := input[..n];
    assert b == Resolve(input, len, terminator) && b[0..] == b && |Encode(b)| == 2 * n;
    assert Encode(b) == buf[..0] + Encode(b[0..]);
    for i := 0 to n
      invariant Encode(b) == buf[..2 * i] + Encode(b[i..])
      invariant forall k :: 2 * n < k < buf.Length ==> buf[k] == old(buf[k])
    {
      EncodeOctet(b, i, buf);
    }
    assert b[n..] == [] && Encode([]) == [];
    assert buf[..2 * n] == Encode(b);
    buf[2 * n] := 0;
    assert buf[..2 * n + 1] == buf[..2 * n] + [0];
  }

  /** encode_hex: its buffer is exactly filled. */
  method EncodeHex(input: seq<octet>, len: int, terminator: octet) returns (buf: array<octet>)
    requires len <= |input| && (len < 0 ==> terminator in input)
    ensures fresh(buf) && buf[..] == Encode(Resolve(input, len, terminator)) + [0]
  {
    var n := len;
    if len < 0 {
      n := FindTerminator(input, terminator);
    }
    buf := new octet[n * 2 + 1](_ => 0);
    EncodeHexOwnBuf(input, n, terminator, buf);
  }
}
