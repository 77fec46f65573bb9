/** What the three text converters compute, on bytes, and how that follows from the
    conversion of texts in GsmText: the UTF-8 and UCS2 encoders agree, and both stop
    where the text does. */
module GsmConversions {
  import opened Bits
  import opened Options
  import opened GsmTableChecks
  import opened GsmTables
  import opened GsmText
  import Utf8

  // `read` counts the bytes that were read before the end or the failure
  datatype Conversion = Done(septets: seq<octet>, read: nat, chars: nat) | Stopped(read: nat)

  function Prepend(e: seq<octet>, n: nat, k: nat, r: Conversion): Conversion {
    match r
    case Done(s, read, chars) => Done(e + s, n + read, k + chars)
    case Stopped(read) => Stopped(n + read)
  }

  // One character c of n bytes, and what the rest of the input gave
  function Step(c: nat, n: nat, lt: ConversionTable, st: ConversionTable, rest: Conversion): Conversion {
    match EncodeChar(c, lt, st)
    case None => Stopped(0)
    case Some(e) => Prepend(e, n, 1, rest)
  }

  // UTF-8 up to a NUL or the end
  function FromUtf8(b: seq<octet>, lt: ConversionTable, st: ConversionTable): Conversion
    decreases |b|
  {
    if b == [] || b[0] == 0 then Done([], 0, 0)
    else
      match Utf8.Decode(b)
      case None => Stopped(0)
      case Some((c, n)) => Step(c, n, lt, st, FromUtf8(b[n..], lt, st))
  }

  // One big-endian 16-bit unit
  function Unit(hi: octet, lo: octet): nat {
    Or(Shl(hi, 8), lo)
  }

  // Pairs of octets up to the end
  function FromUcs2(b: seq<octet>, lt: ConversionTable, st: ConversionTable): Conversion
    decreases |b|
  {
    if |b| < 2 then Done([], 0, 0)
    else Step(Unit(b[0], b[1]), 2, lt, st, FromUcs2(b[2..], lt, st))
  }

  lemma PrependTwice(e: seq<octet>, n: nat, k: nat, e': seq<octet>, n': nat, k': nat, r: Conversion)
    ensures Prepend(e, n, k, Prepend(e', n', k', r)) == Prepend(e + e', n + n', k + k', r)
  {
    if r.Done? {
      assert e + (e' + r.septets) == (e + e') + r.septets;
    }
  }

  // ------------------------------------------------------- texts as bytes

  function Ucs2(t: seq<nat>): seq<octet>
    requires forall i :: 0 <= i < |t| ==> t[i] < 0x10000
  {
    if t == [] then [] else [t[0] / 256, t[0] % 256] + Ucs2(t[1..])
  }

  predicate IsText(t: seq<nat>) {
    forall i :: 0 <= i < |t| ==> IsTextChar(t[i])
  }

  // The conversion of a text, when the first n characters take `bytes(n)` bytes
  function OfText(t: seq<nat>, e: Encoding, read: nat): Conversion {
    match e
    case Encoded(s) => Done(s, read, |t|)
    case Unencodable(_) => Stopped(read)
  }

  // How many characters the encoder gets through
  function Reached(t: seq<nat>, e: Encoding): nat {
    match e
    case Encoded(_) => |t|
    case Unencodable(k) => if k <= |t| then k else |t|
  }

  lemma FromUtf8Front(c: nat, tail: seq<octet>, lt: ConversionTable, st: ConversionTable)
    requires IsTextChar(c)
    ensures FromUtf8(Utf8.Encode(c) + tail, lt, st) == Step(c, Utf8.Length(c), lt, st, FromUtf8(tail, lt, st))
  {
    var b := Utf8.Encode(c) + tail;
    Utf8.DecodeEncode(c, tail);
    assert b[0] == Utf8.Encode(c)[0] != 0;
    assert b[Utf8.Length(c)..] == tail;
  }

  // Bytes of the first n characters
  function Bytes(t: seq<nat>, n: nat): nat
    requires n <= |t| && IsText(t)
  {
    if n == 0 then 0 else Utf8.Length(t[0]) + Bytes(t[1..], n - 1)
  }

  lemma {:induction false} BytesOfPrefix(t: seq<nat>, n: nat)
    requires n <= |t| && IsText(t)
    ensures Bytes(t, n) == |Utf8.EncodeAll(t[..n])|
  {
    if n > 0 {
      BytesOfPrefix(t[1..], n - 1);
      assert t[..n][1..] == t[1..][..n - 1];
    }
  }

  function Utf8OfText(t: seq<nat>, lt: ConversionTable, st: ConversionTable): Conversion
    requires IsText(t)
  {
    var e := EncodeText(t, lt, st);
    OfText(t, e, Bytes(t, Reached(t, e)))
  }

  lemma Utf8OfTextFront(t: seq<nat>, lt: ConversionTable, st: ConversionTable)
    requires t != [] && IsText(t)
    ensures Utf8OfText(t, lt, st) == Step(t[0], Utf8.Length(t[0]), lt, st, Utf8OfText(t[1..], lt, st))
  {
  }

  lemma EncodeAllFront(t: seq<nat>, after: seq<octet>)
    requires t != [] && IsText(t)
    ensures Utf8.EncodeAll(t) + after == Utf8.Encode(t[0]) + (Utf8.EncodeAll(t[1..]) + after)
  {
  }

  /** Converting a text's UTF-8 form, NUL-terminated or not, is converting the text; a
      failure is reported at the byte offset of the first unencodable character. */
  lemma {:induction false} FromUtf8OfText(t: seq<nat>, after: seq<octet>, lt: ConversionTable, st: ConversionTable)
    requires IsText(t) && (after == [] || after[0] == 0)
    ensures FromUtf8(Utf8.EncodeAll(t) + after, lt, st) == Utf8OfText(t, lt, st)
  {
    if t == [] {
      assert Utf8.EncodeAll(t) + after == after;
    } else {
      EncodeAllFront(t, after);
      FromUtf8Front(t[0], Utf8.EncodeAll(t[1..]) + after, lt, st);
      FromUtf8OfText(t[1..], after, lt, st);
      Utf8OfTextFront(t, lt, st);
    }
  }

  /** The same for UCS2, two bytes a unit, whatever the units are. */
  lemma {:induction false} FromUcs2OfText(t: seq<nat>, lt: ConversionTable, st: ConversionTable)
    requires forall i :: 0 <= i < |t| ==> t[i] < 0x10000
    ensures |Ucs2(t)| == 2 * |t|
    ensures
      var e := EncodeText(t, lt, st);
      FromUcs2(Ucs2(t), lt, st) == OfText(t, e, 2 * Reached(t, e))
  {
    if t != [] {
      var b := Ucs2(t);
      FromUcs2OfText(t[1..], lt, st);
      assert b[2..] == Ucs2(t[1..]);
      UnitValue(t[0]);
    }
  }

  lemma UnitValue(c: nat)
    requires c < 0x10000
    ensures Unit(c / 256, c % 256) == c
  {
    Pow2Values();
    OrDisjoint(c % 256, c / 256, 8);
    ShlIsProduct(c / 256, 8);
  }

  /** The two encoders agree on every text: identical septets, or a failure at the same
      character. */
  lemma EncodersAgree(t: seq<nat>, lt: ConversionTable, st: ConversionTable)
    requires IsText(t)
    ensures |Ucs2(t)| == 2 * |t|
    ensures
      match FromUtf8(Utf8.EncodeAll(t), lt, st)
      case Done(s, _, n) => n == |t| && FromUcs2(Ucs2(t), lt, st) == Done(s, 2 * n, n)
      case Stopped(at) =>
        exists k :: 0 <= k < |t| && at == Bytes(t, k) && FromUcs2(Ucs2(t), lt, st) == Stopped(2 * k)
  {
    FromUtf8OfText(t, [], lt, st);
    FromUcs2OfText(t, lt, st);
    assert Utf8.EncodeAll(t) + [] == Utf8.EncodeAll(t);
    var e := EncodeText(t, lt, st);
    if e.Unencodable? {
      StopsAtFirst(t, lt, st);
      assert Bytes(t, Reached(t, e)) == Bytes(t, e.at);
    }
  }

  // --------------------------------------------------- any bytes at all

  /** Any even number of bytes is UCS2 of some units, the high byte first. */
  lemma {:induction false} Ucs2Units(b: seq<octet>) returns (t: seq<nat>)
    requires |b| % 2 == 0
    ensures |b| == 2 * |t| && forall i :: 0 <= i < |t| ==>
      t[i] < 0x10000 && t[i] == 256 * (b[2 * i] as int) + (b[2 * i + 1] as int)
    ensures Ucs2(t) == b
  {
    t := [];
    if b != [] {
      var u := Ucs2Units(b[2..]);
      t := [256 * (b[0] as int) + (b[1] as int)] + u;
      assert t[1..] == u;
      assert t[0] / 256 == b[0] && t[0] % 256 == b[1];
      assert b == [b[0], b[1]] + b[2..];
    }
  }

  /** What the UTF-8 converter makes of any bytes: it reads characters in their shortest
      forms, up to a NUL, the end, or the first that is malformed or unencodable, and
      converts exactly those. */
  lemma {:induction false} FromUtf8Reads(b: seq<octet>, lt: ConversionTable, st: ConversionTable)
    returns (t: seq<nat>, rest: seq<octet>)
    ensures IsText(t) && b == Utf8.EncodeAll(t) + rest && EncodeText(t, lt, st).Encoded?
    ensures
      match FromUtf8(b, lt, st)
      case Done(s, read, chars) =>
        && (rest == [] || rest[0] == 0) && s == EncodeText(t, lt, st).septets
        && read == |Utf8.EncodeAll(t)| && chars == |t|
      case Stopped(read) =>
        && rest != [] && rest[0] != 0 && read == |Utf8.EncodeAll(t)|
        && match Utf8.Decode(rest)
           case None => true
           case Some(p) => EncodeChar(p.0, lt, st).None?
    decreases |b|
  {
    hide EncodeChar, Utf8.Encode, Utf8.EncodeAll, IsTextChar, FromUtf8, Utf8.Decode;
    t, rest := [], b;
    NothingThere(b, lt, st);
    if b != [] && b[0] != 0 && Utf8.Decode(b).Some? {
      var (c, n) := Utf8.Decode(b).value;
      Utf8.EncodeDecode(b);
      ScalarIsText(c);
      if EncodeChar(c, lt, st).Some? {
        var u, r := FromUtf8Reads(b[n..], lt, st);
        t, rest := [c] + u, r;
        assert t[1..] == u;
        assert b == b[..n] + b[n..];
        EncodeAllFront(t, rest);
        EncodeAllFront(t, []);
      }
    }
  }

  // The ends of a conversion and of a text, and one step
  lemma NothingThere(b: seq<octet>, lt: ConversionTable, st: ConversionTable)
    ensures Utf8.EncodeAll([]) == [] && [] + b == b
    ensures b == [] || b[0] == 0 ==> FromUtf8(b, lt, st) == Done([], 0, 0)
    ensures b != [] && b[0] != 0 ==>
      match Utf8.Decode(b)
      case None => FromUtf8(b, lt, st) == Stopped(0)
      case Some(p) => FromUtf8(b, lt, st) == Step(p.0, p.1, lt, st, FromUtf8(b[p.1..], lt, st))
  {
    hide EncodeChar, Utf8.Decode;
  }

  lemma ScalarIsText(c: nat)
    requires Utf8.IsScalar(c) && c != 0
    ensures IsTextChar(c)
  {
  }
}
