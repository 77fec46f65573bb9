/** pack_7bit_own_buf and pack_7bit (home-item/util.c:981-1088). */
module Packing {
  import opened Bits
  import opened Buffers
  import opened Options
  import opened Septets

  // One septet x, split between an octet c that holds b + 1 bits and its successor
  lemma SeptetParts(c: nat, x: nat, b: nat)
    requires b <= 7 && (b < 7 ==> c < Pow2(b + 1)) && x < 128
    ensures Shr(x, 7 - b) < Pow2(b) && Shr(x, 7 - b) < 128
    ensures b < 7 ==>
      Or(c, Shl(And(x, Mask(7 - b)), b + 1)) == c + Shl(Low(x, 7 - b), b + 1) < 256
  {
    Pow2Values();
    ShrBound(x, 7 - b, b);
    ShrShrinks(x, 7 - b);
    if b < 7 {
      AndMask(x, 7 - b);
      SplitAt(x, 7 - b);
      OrDisjoint(c, Low(x, 7 - b), b + 1);
      ShlBound(Low(x, 7 - b), 7 - b, b + 1);
    }
  }

  lemma PackStep(done: seq<nat>, c: nat, x: nat, b: nat)
    requires b < 7
    ensures Val(done + [c + Shl(Low(x, 7 - b), b + 1), Shr(x, 7 - b)], 8)
         == Val(done + [c], 8) + Shl(x, 8 * |done| + b + 1)
  {
    var low, high, c' := Low(x, 7 - b), Shr(x, 7 - b), c + Shl(Low(x, 7 - b), b + 1);
    SplitAt(x, 7 - b);
    ShlSum(low, Shl(high, 7 - b), b + 1);
    ShlShl(high, 7 - b, b + 1);
    assert c' + Shl(high, 8) == c + Shl(x, b + 1);
    ValTwo(c', high);
    ValAppend(done, [c', high], 8);
    ValSnoc(done, c, 8);
    WidthValue(|done|);
    ShlSum(c, Shl(x, b + 1), 8 * |done|);
    ShlShl(x, b + 1, 8 * |done|);
  }

  lemma ValTwo(a: nat, b: nat)
    ensures Val([a, b], 8) == a + Shl(b, 8)
  {
    ValSnoc([a], b, 8);
    ValSnoc([], a, 8);
    assert [] + [a] == [a] && [a] + [b] == [a, b];
  }

  // Appending a septet to the numeral that is being packed
  lemma ShiftedSnoc(s: seq<nat>, i: nat, fill: nat)
    requires i < |s|
    ensures Shl(Val(s[..i + 1], 7), fill) == Shl(Val(s[..i], 7), fill) + Shl(s[i], 7 * i + fill)
  {
    assert s[..i + 1] == s[..i] + [s[i]];
    ValSnoc(s[..i], s[i], 7);
    WidthValue(i);
    ShlSum(Val(s[..i], 7), Shl(s[i], 7 * i), fill);
    ShlShl(s[i], 7 * i, fill);
  }

  lemma SnocOctet(done: seq<nat>, x: nat)
    ensures Val(done + [x], 8) == Val(done, 8) + Shl(x, 8 * |done|)
  {
    ValSnoc(done, x, 8);
    WidthValue(|done|);
  }

  // The octets once septet x has joined `done`, whose last octet c holds b + 1 bits
  ghost function AfterSeptet(done: seq<nat>, c: nat, x: nat, b: nat): seq<nat>
    requires b <= 7
  {
    if b == 7 then done + [x]
    else
      var c' := c + Shl(Low(x, 7 - b), b + 1);
      if b == 0 then done + [c'] else done + [c', Shr(x, 7 - b)]
  }

  lemma PackedSeptet(done: seq<nat>, c: nat, x: nat, b: nat)
    requires b <= 7 && x < 128
    ensures Val(AfterSeptet(done, c, x, b), 8)
         == Val(if b == 7 then done else done + [c], 8)
            + Shl(x, 8 * |done| + if b == 7 then 0 else b + 1)
  {
    if b == 7 {
      SnocOctet(done, x);
    } else {
      PackStep(done, c, x, b);
      if b == 0 {
        var whole := AfterSeptet(done, c, x, b);
        Pow2Values();
        LowAll(x, 7);
        SnocOctet(whole, 0);
        ShlZero(8 * |whole|);
        assert whole + [0] == done + [c + Shl(Low(x, 7), 1), 0];
      }
    }
  }

  // The octets in use: the one being filled counts unless nothing is in it yet
  ghost function Used(buf: seq<octet>, out: nat, bits: nat): seq<octet>
    requires if bits == 7 then out <= |buf| else out < |buf|
  {
    if bits == 7 then buf[..out] else buf[..out + 1]
  }

  // The body of the packing loop: one septet into *out and its successor
  method PutSeptet(x: octet, bits: nat, out: nat, buf: array<octet>)
    returns (bits': nat, out': nat)
    requires x < 128 && bits <= 7
    requires out + (if 0 < bits < 7 then 1 else 0) < buf.Length
    requires bits != 7 ==> buf[out] < Pow2(bits + 1)
    modifies buf
    ensures bits' == (if bits == 0 then 7 else bits - 1)
    ensures out' == (if bits == 7 then out else out + 1)
    ensures buf[..out + if 0 < bits < 7 then 2 else 1]
         == AfterSeptet(old(buf[..out]), if bits == 7 then 0 else old(buf[out]), x, bits)
    ensures forall k :: out + (if 0 < bits < 7 then 2 else 1) <= k < buf.Length ==> buf[k] == old(buf[k])
    ensures bits' != 7 ==> out' < buf.Length && buf[out'] < Pow2(bits' + 1)
  {
    out' := out;
    ghost var done, c := buf[..out], if bits == 7 then 0 else buf[out];
    SeptetParts(c, x, bits);
    if bits != 7 {
      buf[out] := Or(buf[out], Shl(And(x, Mask(7 - bits)), bits + 1));
      assert buf[..out + 1] == done + [c + Shl(Low(x, 7 - bits), bits + 1)];
      out' := out' + 1;
    }
    // C keeps this from being a read past the buffer when bits == 0
    if bits != 0 {
      buf[out'] := Shr(x, 7 - bits);
      assert buf[..out' + 1] == buf[..out'] + [Shr(x, 7 - bits)];
    }
    bits' := if bits == 0 then 7 else bits - 1;
  }

  ghost predicate PackLoop(s: seq<nat>, fill: nat, i: nat, bits: nat, out: nat, buf: seq<octet>) {
    && i <= |s| && bits <= 7
    && 8 * out + (if bits == 7 then 0 else bits + 1) == 7 * i + fill
    && out + (if bits == 7 then 0 else 1) <= |buf|
    && (bits != 7 ==> buf[out] < Pow2(bits + 1))
    && Val(buf[..out + if bits == 7 then 0 else 1], 8) == Shl(Val(s[..i], 7), fill)
  }

  lemma PackLoopStep(s: seq<octet>, fill: nat, i: nat, bits: nat, out: nat, buf: seq<octet>,
                     bits': nat, out': nat, buf': seq<octet>)
    requires PackLoop(s, fill, i, bits, out, buf) && i < |s| && IsSeptets(s)
    requires |buf'| == |buf| && out + (if 0 < bits < 7 then 1 else 0) < |buf|
    requires bits' == (if bits == 0 then 7 else bits - 1)
    requires out' == (if bits == 7 then out else out + 1)
    requires buf'[..out + if 0 < bits < 7 then 2 else 1]
          == AfterSeptet(buf[..out], if bits == 7 then 0 else buf[out], s[i], bits)
    requires bits' != 7 ==> out' < |buf| && buf'[out'] < Pow2(bits' + 1)
    ensures PackLoop(s, fill, i + 1, bits', out', buf')
  {
    ShiftedSnoc(s, i, fill);
    var c := if bits == 7 then 0 else buf[out];
    PackedSeptet(buf[..out], c, s[i], bits);
    if bits != 7 {
      assert buf[..out + 1] == buf[..out] + [c];
    }
  }

  // What the padding rule leaves in the buffer once every septet is packed
  lemma PaddedVal(s: seq<octet>, fill: nat, ussd: bool, bits: nat, out: nat, buf: seq<octet>, done: seq<octet>)
    requires PackLoop(s, fill, |s|, bits, out, buf)
    requires
      if FillsSpareBits(s, fill, ussd) then done == buf[..out] + [buf[out] + 26]
      else if AddsOctet(s, fill, ussd) then done == buf[..out] + [CR]
      else done == buf[..out + if bits == 7 then 0 else 1]
    ensures done == Packed(s, fill, ussd)
  {
    assert s[..|s|] == s;
    if FillsSpareBits(s, fill, ussd) {
      assert buf[..out + 1] == buf[..out] + [buf[out]];
      SnocOctet(buf[..out], buf[out]);
      SnocOctet(buf[..out], buf[out] + 26);
      ShlSum(buf[out], 26, 8 * out);
      ShlShl(CR, 1, 8 * out);
    } else if AddsOctet(s, fill, ussd) {
      SnocOctet(buf[..out], CR);
    }
    assert Val(done, 8) == PackedVal(s, fill, ussd) && |done| == PackedSize(s, fill, ussd);
    NumeralOctets(done);
  }

  lemma NumeralOctets(s: seq<octet>)
    ensures IsNumeral(s, 8) && Digits(Val(s, 8), |s|, 8) == s
  {
    Pow2Values();
    NumeralOfVal(s, 8);
  }

  // The end of pack_7bit_own_buf: the padding rule and the last octet in use
  method PutPadding(s: seq<octet>, ghost fill: nat, totalBits: nat, ussd: bool,
                    bits: nat, out: nat, buf: array<octet>)
    returns (out': nat)
    requires s != [] && totalBits == TotalBits(|s|, fill) && PackLoop(s, fill, |s|, bits, out, buf[..])
    requires PackedSize(s, fill, ussd) <= buf.Length
    modifies buf
    ensures out' == PackedSize(s, fill, ussd) && buf[..out'] == Packed(s, fill, ussd)
    ensures forall k :: out' <= k < buf.Length ==> buf[k] == old(buf[k])
  {
    ghost var before := buf[..];
    out' := out;
    if ussd && totalBits % 8 == 1 {
      SpareBits(buf[out]);
      buf[out'] := Or(buf[out'], Shl(CR, 1));
    }
    if bits != 7 {
      out' := out' + 1;
    }
    if ussd && totalBits % 8 == 0 && s[|s| - 1] == CR {
      buf[out'] := CR;
      out' := out' + 1;
    }
    PaddedVal(s, fill, ussd, bits, out, before, buf[..out']);
  }

  lemma SpareBits(c: octet)
    requires c < 2
    ensures Or(c, Shl(CR, 1)) == c + 26
  {
    Pow2Values();
    OrDisjoint(c, CR, 1);
  }

  lemma PackLoopStart(s: seq<octet>, fill: nat, bits: nat, out: nat, buf: seq<octet>)
    requires out == 0 && fill <= 6
    requires if fill == 0 then bits == 7 else bits == fill - 1 && buf != [] && buf[0] == 0
    ensures PackLoop(s, fill, 0, bits, out, buf)
  {
    ShlZero(fill);
    ShlZero(8);
    assert s[..0] == [];
    if bits != 7 {
      assert buf[..1] == [0] && [0][1..] == [];
    }
  }

  // A septet always has room left
  lemma PackLoopRoom(s: seq<nat>, fill: nat, ussd: bool, i: nat, bits: nat, out: nat, buf: seq<octet>)
    requires PackLoop(s, fill, i, bits, out, buf) && i < |s|
    ensures out + (if 0 < bits < 7 then 2 else 1) <= PackedSize(s, fill, ussd)
  {
  }

  // pack_7bit_own_buf once the length is known
  method PackSeptets(s: seq<octet>, byteOffset: nat, ussd: bool, buf: array<octet>) returns (out: nat)
    requires s != [] && IsSeptets(s)
    requires PackedSize(s, Fill(byteOffset), ussd) <= buf.Length
    modifies buf
    ensures out == PackedSize(s, Fill(byteOffset), ussd)
    ensures buf[..out] == Packed(s, Fill(byteOffset), ussd)
    ensures forall k :: out <= k < buf.Length ==> buf[k] == old(buf[k])
  {
    var bits: nat := 7 - byteOffset % 7;
    ghost var fill, size := Fill(byteOffset), PackedSize(s, Fill(byteOffset), ussd);
    out := 0;
    var totalBits := |s| * 7;
    if bits != 7 {
      totalBits := totalBits + bits;
      bits := bits - 1;
      buf[out] := 0;
    }
    PackLoopStart(s, fill, bits, out, buf[..]);
    for i := 0 to |s|
      invariant PackLoop(s, fill, i, bits, out, buf[..])
      invariant forall k :: size <= k < buf.Length ==> buf[k] == old(buf[k])
    {
      ghost var bits0, out0, buf0 := bits, out, buf[..];
      PackLoopRoom(s, fill, ussd, i, bits, out, buf[..]);
      bits, out := PutSeptet(s[i], bits, out, buf);
      PackLoopStep(s, fill, i, bits0, out0, buf0, bits, out, buf[..]);
    }
    out := PutPadding(s, fill, totalBits, ussd, bits, out, buf);
  }

  /** pack_7bit_own_buf: the octets written are the base-256 digits of the shifted
      base-128 numeral, with CR in the spare bits or in an octet of its own where the
      USSD rule asks for it. Nothing behind them is touched. */
  method Pack7BitOwnBuf(input: seq<octet>, len: int, byteOffset: nat, ussd: bool,
                        terminator: octet, buf: array<octet>)
    returns (itemsWritten: Option<nat>)
    requires len <= |input| && (len < 0 ==> terminator in input)
    requires len != 0 ==> Resolve(input, len, terminator) != []
    requires IsSeptets(Resolve(input, len, terminator))
    requires PackedSize(Resolve(input, len, terminator), Fill(byteOffset), ussd) <= buf.Length
    modifies buf
    ensures len == 0 ==> itemsWritten == None && buf[..] == old(buf[..])
    ensures len != 0 ==>
      var s, fill := Resolve(input, len, terminator), Fill(byteOffset);
      && itemsWritten == Some(PackedSize(s, fill, ussd))
      && buf[..] == Packed(s, fill, ussd) + old(buf[PackedSize(s, fill, ussd)..])
  {
    if len == 0 {
      return None;
    }
    var n := len;
    if len < 0 {
      n := FindTerminator(input, terminator);
    }
    var out := PackSeptets(input[..n], byteOffset, ussd, buf);
    itemsWritten := Some(out);
  }

  // The size computed by pack_7bit
  function PackAllocation(s: seq<octet>, byteOffset: nat, ussd: bool): nat
    requires s != []
  {
    var bits := 7 - byteOffset % 7;
    var totalBits := |s| * 7 + if bits != 7 then bits else 0;
    if ussd && totalBits % 8 == 0 && s[|s| - 1] == CR then (totalBits + 14) / 8
    else (totalBits + 7) / 8
  }

  lemma PackAllocationExact(s: seq<octet>, byteOffset: nat, ussd: bool)
    requires s != []
    ensures PackAllocation(s, byteOffset, ussd) == PackedSize(s, Fill(byteOffset), ussd)
  {
    OneOctetMore(TotalBits(|s|, Fill(byteOffset)));
    assert 7 - byteOffset % 7 == 7 <==> byteOffset % 7 == 0;
  }

  lemma OneOctetMore(total: nat)
    ensures total % 8 == 0 ==> (total + 14) / 8 == (total + 7) / 8 + 1
  {
  }

  /** pack_7bit: the buffer it allocates is exactly as long as what is written. */
  method Pack7Bit(input: seq<octet>, len: int, byteOffset: nat, ussd: bool, terminator: octet)
    returns (buf: Option<array<octet>>, itemsWritten: Option<nat>)
    requires len <= |input| && (len < 0 ==> terminator in input)
    requires len != 0 ==> Resolve(input, len, terminator) != []
    requires IsSeptets(Resolve(input, len, terminator))
    ensures len == 0 ==> buf == None && itemsWritten == None
    ensures len != 0 ==>
      var s, fill := Resolve(input, len, terminator), Fill(byteOffset);
      && buf.Some? && fresh(buf.value)
      && itemsWritten == Some(buf.value.Length)
      && buf.value[..] == Packed(s, fill, ussd)
  {
    if len == 0 {
      return None, None;
    }
    var n := len;
    if len < 0 {
      n := FindTerminator(input, terminator);
    }
    PackAllocationExact(input[..n], byteOffset, ussd);
    var b := new octet[PackAllocation(input[..n], byteOffset, ussd)](_ => 0);
    ghost var s := Resolve(input, len, terminator);
    assert s == input[..n] == Resolve(input, n, terminator);
    itemsWritten := Pack7BitOwnBuf(input, n, byteOffset, ussd, terminator, b);
    assert b[..] == Packed(s, Fill(byteOffset), ussd);
    buf := Some(b);
  }
}
