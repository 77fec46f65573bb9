/** unpack_7bit_own_buf and unpack_7bit (home-item/util.c:892-979). */
module Unpacking {
  import opened Bits
  import opened Options
  import opened Septets

  // After i octets: `done` holds the complete septets, `rest` the 7 - bits left over
  ghost predicate UnpackLoop(octets: seq<octet>, fill: nat, i: nat, bits: nat, rest: nat, done: seq<nat>) {
    && i <= |octets| && 1 <= bits <= 7 && fill <= 6
    && (if i == 0 then done == [] && rest == 0 && bits == (if fill == 0 then 7 else fill)
        else 8 * i - fill == 7 * |done| + 7 - bits)
    && rest < Pow2(7 - bits) && IsSeptets(done)
    && Shr(Val(octets[..i], 8), fill) == Val(done, 7) + Shl(rest, 7 * |done|)
  }

  lemma UnpackLoopStart(octets: seq<octet>, byteOffset: nat)
    ensures UnpackLoop(octets, Fill(byteOffset), 0, 7 - byteOffset % 7, 0, [])
  {
    assert octets[..0] == [];
    ShlZero(0);
    LowAll(0, Fill(byteOffset));
  }

  // The septet that octet x completes
  function Joined(x: octet, bits: nat, rest: nat): nat
    requires 1 <= bits <= 7
  {
    Shl(Low(x, bits), 7 - bits) + rest
  }

  lemma JoinedBits(x: octet, bits: nat, rest: nat)
    requires 1 <= bits <= 7 && rest < Pow2(7 - bits)
    ensures Shl(And(x, Mask(bits)), 7 - bits) + rest == Joined(x, bits, rest) < 128
    ensures Or(Shl(And(x, Mask(bits)), 7 - bits), rest) == Joined(x, bits, rest)
  {
    AndMask(x, bits);
    JoinedBound(x, bits, rest);
    OrDisjoint(rest, Low(x, bits), 7 - bits);
  }

  lemma JoinedBound(x: octet, bits: nat, rest: nat)
    requires 1 <= bits <= 7 && rest < Pow2(7 - bits)
    ensures Joined(x, bits, rest) < 128
  {
    Pow2Values();
    SplitAt(x, bits);
    ShlBound(Low(x, bits), bits, 7 - bits);
  }

  lemma RestBits(x: octet, bits: nat)
    requires 1 <= bits <= 7
    ensures And(Shr(x, bits), Mask(8 - bits)) == Shr(x, bits) < Pow2(8 - bits)
    ensures Shr(x, bits) < 128
  {
    Pow2Values();
    ShrBound(x, bits, 8 - bits);
    AndMask(Shr(x, bits), 8 - bits);
    LowAll(Shr(x, bits), 8 - bits);
    ShrShrinks(x / 2, bits - 1);
  }

  // The value of one more octet: D and rest stand for the n bits below it
  lemma NextOctetVal(V: nat, D: nat, rest: nat, x: octet, bits: nat, fill: nat, n: nat)
    requires 1 <= bits <= 7 && Shr(V, fill) == D + Shl(rest, n)
    ensures Shr(V + Shl(x, fill + n + 7 - bits), fill)
         == D + Shl(Joined(x, bits, rest), n) + Shl(Shr(x, bits), n + 7)
  {
    ShrSum(V, x, fill, n + 7 - bits);
    SplitShifted(x, bits, 7 - bits + n);
    ShlSum(Shl(Low(x, bits), 7 - bits), rest, n);
    ShlShl(Low(x, bits), 7 - bits, n);
  }

  // The same in the middle of an iteration: octet i - 1 is in, bits is not updated yet
  ghost predicate OctetTaken(octets: seq<octet>, fill: nat, i: nat, bits: nat, rest: nat, done: seq<nat>) {
    && 0 < i <= |octets| && 1 <= bits <= 7 && fill <= 6
    && 8 * i - fill == 7 * |done| + 8 - bits
    && rest < Pow2(8 - bits) && IsSeptets(done)
    && Shr(Val(octets[..i], 8), fill) == Val(done, 7) + Shl(rest, 7 * |done|)
  }

  function Take(done: seq<nat>, x: octet, i: nat, bits: nat, rest: nat): seq<nat>
    requires 1 <= bits <= 7
  {
    if i != 0 || bits == 7 then done + [Joined(x, bits, rest)] else done
  }

  // The first octet, from which the fill bits are dropped
  lemma FirstOctet(octets: seq<octet>, fill: nat)
    requires octets != []
    ensures Shr(Val(octets[..1], 8), fill) == Val([], 7) + Shl(Shr(octets[0], fill), 7 * 0)
  {
    PrefixSnoc(octets, 0);
  }

  lemma OctetStep(octets: seq<octet>, fill: nat, i: nat, bits: nat, rest: nat, done: seq<nat>)
    requires UnpackLoop(octets, fill, i, bits, rest, done) && i < |octets|
    ensures OctetTaken(octets, fill, i + 1, bits, Shr(octets[i], bits), Take(done, octets[i], i, bits, rest))
  {
    hide Val, Shr, Shl, Joined;
    var x := octets[i];
    PrefixSnoc(octets, i);
    RestBits(x, bits);
    if i == 0 && bits != 7 {
      FirstOctet(octets, fill);
    } else {
      JoinedBound(x, bits, rest);
      SeptetSnoc(done, Joined(x, bits, rest));
      NextOctetVal(Val(octets[..i], 8), Val(done, 7), rest, x, bits, fill, 7 * |done|);
    }
  }

  // A remainder of seven bits is a septet of its own
  lemma RestStep(octets: seq<octet>, fill: nat, i: nat, bits: nat, rest: nat, done: seq<nat>)
    requires OctetTaken(octets, fill, i, bits, rest, done)
    ensures if bits == 1 then rest < 128 && UnpackLoop(octets, fill, i, 7, 0, done + [rest])
            else UnpackLoop(octets, fill, i, bits - 1, rest, done)
  {
    Pow2Values();
    if bits == 1 {
      SeptetSnoc(done, rest);
      ShlZero(7 * (|done| + 1));
    }
  }

  lemma PrefixSnoc(octets: seq<octet>, i: nat)
    requires i < |octets|
    ensures Val(octets[..i + 1], 8) == Val(octets[..i], 8) + Shl(octets[i], 8 * i)
  {
    assert octets[..i + 1] == octets[..i] + [octets[i]];
    ValSnoc(octets[..i], octets[i], 8);
    WidthValue(i);
  }

  lemma SeptetSnoc(done: seq<nat>, x: nat)
    ensures Val(done + [x], 7) == Val(done, 7) + Shl(x, 7 * |done|)
  {
    ValSnoc(done, x, 7);
    WidthValue(|done|);
  }

  // The septets so far are the low digits of the whole numeral
  lemma DoneIsUnpacked(octets: seq<octet>, fill: nat, i: nat, rest: nat, done: seq<nat>)
    requires 0 < i <= |octets| && 7 * |done| + fill <= 8 * i && IsSeptets(done)
    requires Shr(Val(octets[..i], 8), fill) == Val(done, 7) + Shl(rest, 7 * |done|)
    ensures done == Unpacked(octets, fill, |done|)
  {
    Pow2Values();
    WidthValue(i);
    WidthValue(|done|);
    ValSplit(octets, i, 8);
    DigitsOfPrefix(Val(octets[..i], 8), Val(octets[i..], 8), fill, rest,
                   8 * i - fill - 7 * |done|, done, 7);
  }

  // How many septets unpack_7bit_own_buf may write, terminator aside
  function Room(len: nat, ussd: bool, maxToUnpack: int): int {
    if ussd then len * 8 / 7 else Min(maxToUnpack, len * 8 / 7)
  }

  // The first half of the loop body: *out, rest and the new out
  method TakeOctet(x: octet, i: nat, bits: nat, rest: nat, out: nat, buf: array<octet>)
    returns (rest': nat, out': nat)
    requires 1 <= bits <= 7 && rest < Pow2(7 - bits) && out < buf.Length
    modifies buf
    ensures rest' == Shr(x, bits)
    ensures out' == out + (if i != 0 || bits == 7 then 1 else 0)
    ensures buf[..out'] == Take(old(buf[..out]), x, i, bits, rest)
    ensures forall k :: out < k < buf.Length ==> buf[k] == old(buf[k])
  {
    JoinedBits(x, bits, rest);
    RestBits(x, bits);
    buf[out] := Shl(And(x, Mask(bits)), 7 - bits);
    buf[out] := Or(buf[out], rest);
    rest' := And(Shr(x, bits), Mask(8 - bits));
    out' := out;
    if i != 0 || bits == 7 {
      out' := out' + 1;
      assert buf[..out'] == buf[..out] + [buf[out]];
    }
  }

  lemma LoopDone(octets: seq<octet>, fill: nat, i: nat, bits: nat, rest: nat, done: seq<nat>)
    requires UnpackLoop(octets, fill, i, bits, rest, done)
    ensures done == Unpacked(octets, fill, |done|)
    ensures done != [] ==> 7 * |done| <= 8 * i - fill
    ensures i == |octets| > 0 ==> |done| == SeptetCount(|octets|, fill)
    ensures i < |octets| ==> |done| < |octets| * 8 / 7
  {
    if i > 0 {
      DoneIsUnpacked(octets, fill, i, rest, done);
    }
  }

  lemma TakenDone(octets: seq<octet>, fill: nat, i: nat, bits: nat, rest: nat, done: seq<nat>)
    requires OctetTaken(octets, fill, i, bits, rest, done)
    ensures done == Unpacked(octets, fill, |done|)
    ensures |done| <= SeptetCount(|octets|, fill)
    ensures bits == 1 ==> |done| < |octets| * 8 / 7
  {
    DoneIsUnpacked(octets, fill, i, rest, done);
  }

  // One iteration; `stop` is the break on a full output
  method UnpackOctet(octets: seq<octet>, ghost fill: nat, i: nat, bits: nat, rest: nat, out: nat, limit: nat,
                     buf: array<octet>)
    returns (stop: bool, bits': nat, rest': nat, out': nat)
    requires i < |octets| && out < limit && Min(limit, |octets| * 8 / 7) <= buf.Length
    requires out <= buf.Length && UnpackLoop(octets, fill, i, bits, rest, buf[..out])
    modifies buf
    ensures out' <= limit && out' <= buf.Length
    ensures stop ==> out' == limit <= SeptetCount(|octets|, fill)
    ensures stop ==> buf[..out'] == Unpacked(octets, fill, out')
    ensures !stop ==> UnpackLoop(octets, fill, i + 1, bits', rest', buf[..out'])
    ensures forall k :: Min(limit, |octets| * 8 / 7) <= k < buf.Length ==> buf[k] == old(buf[k])
  {
    hide Val, Shr, Shl, Joined, Unpacked;
    LoopDone(octets, fill, i, bits, rest, buf[..out]);
    OctetStep(octets, fill, i, bits, rest, buf[..out]);
    rest', out' := TakeOctet(octets[i], i, bits, rest, out, buf);
    TakenDone(octets, fill, i + 1, bits, rest', buf[..out']);
    stop, bits' := out' == limit, bits;
    if !stop {
      RestStep(octets, fill, i + 1, bits, rest', buf[..out']);
      if bits == 1 {
        ghost var done := buf[..out'];
        buf[out'] := rest';
        out' := out' + 1;
        assert buf[..out'] == done + [rest'];
        bits' := 7;
        rest' := 0;
      } else {
        bits' := bits - 1;
      }
    }
  }

  method UnpackSeptets(octets: seq<octet>, byteOffset: nat, limit: int, buf: array<octet>)
    returns (out: nat)
    requires octets != [] && Min(limit, |octets| * 8 / 7) <= buf.Length
    modifies buf
    ensures out == UnpackedCount(|octets|, Fill(byteOffset), limit) <= buf.Length
    ensures buf[..out] == Unpacked(octets, Fill(byteOffset), out)
    ensures limit <= 0 ==> out == 0
    ensures limit > 0 ==>
      var fill := Fill(byteOffset);
      && out <= limit
      && (out > 0 ==> 7 * out + fill <= 8 * |octets|)
      && (out == limit || 7 * (out + 1) + fill > 8 * |octets|)
    ensures forall k :: 0 <= k < buf.Length && Min(limit, |octets| * 8 / 7) <= k ==> buf[k] == old(buf[k])
  {
    var rest, i := 0, 0;
    var bits: nat := 7 - byteOffset % 7;
    ghost var fill, room := Fill(byteOffset), Min(limit, |octets| * 8 / 7);
    out := 0;
    UnpackLoopStart(octets, byteOffset);
    while i < |octets| && out < limit
      invariant out <= buf.Length && (limit <= 0 ==> out == 0) && (limit > 0 ==> out <= limit)
      invariant UnpackLoop(octets, fill, i, bits, rest, buf[..out])
      invariant forall k :: 0 <= k < buf.Length && room <= k ==> buf[k] == old(buf[k])
    {
      var stop;
      stop, bits, rest, out := UnpackOctet(octets, fill, i, bits, rest, out, limit, buf);
      if stop {
        return;
      }
      i := i + 1;
    }
    LoopDone(octets, fill, i, bits, rest, buf[..out]);
  }

  /** unpack_7bit_own_buf: the septets written are the low base-128 digits of the octets
      read as one number, behind the fill bits. In USSD mode every whole septet is
      taken, and a final CR that ends a group of eight is dropped. The C reads
      out[-1] in USSD mode when there is no whole septet, so that case is the
      caller's to avoid. */
  method Unpack7BitOwnBuf(input: seq<octet>, len: int, byteOffset: nat, ussd: bool,
                          maxToUnpack: int, terminator: octet, buf: array<octet>)
    returns (itemsWritten: Option<nat>)
    requires len <= |input|
    requires len > 0 ==> Room(len, ussd, maxToUnpack) <= buf.Length
    requires len > 0 && terminator != 0 ==> buf.Length > 0 && buf.Length > Room(len, ussd, maxToUnpack)
    requires len > 0 && ussd ==> SeptetCount(len, Fill(byteOffset)) > 0
    modifies buf
    ensures len <= 0 ==> itemsWritten == None && buf[..] == old(buf[..])
    ensures len > 0 ==>
      var r := UnpackResult(input[..len], Fill(byteOffset), ussd, maxToUnpack);
      && itemsWritten == Some(|r|) && r <= buf[..]
      && (terminator != 0 ==> r + [terminator] <= buf[..])
    ensures len > 0 && !ussd && maxToUnpack > 0 ==>
      var n, fill := itemsWritten.value, Fill(byteOffset);
      && n <= maxToUnpack && (n > 0 ==> 7 * n + fill <= 8 * len)
      && (n == maxToUnpack || 7 * (n + 1) + fill > 8 * len)
  {
    if len <= 0 {
      return None;
    }
    var limit := if ussd then len * 8 / 7 else maxToUnpack;
    var out := UnpackSeptets(input[..len], byteOffset, limit, buf);
    ghost var r := UnpackResult(input[..len], Fill(byteOffset), ussd, maxToUnpack);
    if ussd && out % 8 == 0 && buf[out - 1] == CR {
      out := out - 1;
    }
    assert buf[..out] == r;
    if terminator != 0 {
      buf[out] := terminator;
      assert buf[..out + 1] == buf[..out] + [terminator];
    }
    itemsWritten := Some(out);
  }

  /** unpack_7bit: its buffer of len * 8 / 7 octets, and one for a terminator, holds
      every write. g_new gives NULL for no octets at all. */
  method Unpack7Bit(input: seq<octet>, len: nat, byteOffset: nat, ussd: bool,
                    maxToUnpack: int, terminator: octet)
    returns (buf: Option<array<octet>>, itemsWritten: Option<nat>)
    requires len <= |input|
    requires len > 0 && ussd ==> SeptetCount(len, Fill(byteOffset)) > 0
    ensures len == 0 ==> buf == None && itemsWritten == None
    ensures len > 0 ==>
      var r := UnpackResult(input[..len], Fill(byteOffset), ussd, maxToUnpack);
      && buf.Some? && fresh(buf.value)
      && buf.value.Length == len * 8 / 7 + (if terminator != 0 then 1 else 0)
      && itemsWritten == Some(|r|) && r <= buf.value[..]
      && (terminator != 0 ==> r + [terminator] <= buf.value[..])
    ensures len > 0 && !ussd && maxToUnpack > 0 ==>
      var n, fill := itemsWritten.value, Fill(byteOffset);
      && n <= maxToUnpack && (n > 0 ==> 7 * n + fill <= 8 * len)
      && (n == maxToUnpack || 7 * (n + 1) + fill > 8 * len)
  {
    var b := new octet[len * 8 / 7 + if terminator != 0 then 1 else 0](_ => 0);
    itemsWritten := Unpack7BitOwnBuf(input, len, byteOffset, ussd, maxToUnpack, terminator, b);
    buf := if itemsWritten.Some? then Some(b) else None;
  }
}
