/** The text converters of home-item/util.c as they run: a pass that measures and checks,
    an allocation of exactly the measured size, and a pass that writes.

    A request for no octets at all gives no buffer (g_try_malloc), so that an empty text
    without a terminator is reported as a failure; that is modelled. */
module GsmConverters {
  import opened Bits
  import opened Buffers
  import opened Options
  import opened GsmTableChecks
  import opened GsmTableData
  import opened GsmTables
  import opened GsmText
  import opened GsmConversions
  import Utf8

  // *out++ for one converted code point
  method PutConverted(v: nat, out: nat, buf: array<octet>) returns (out': nat)
    requires out + |Octets(v)| <= buf.Length
    modifies buf
    ensures out' == out + |Octets(v)| && buf[..out'] == old(buf[..out]) + Octets(v)
  {
    out' := out;
    if IsShifted(v) {
      buf[out'] := ESCAPE;
      out' := out' + 1;
    }
    buf[out'] := v % 256;
    out' := out' + 1;
    assert buf[..out'] == buf[..out] + buf[out..out'];
  }

  // What the conversion of b is, once `done` has come from its first pos bytes
  ghost predicate ReadSoFar(whole: Conversion, done: seq<octet>, pos: nat, chars: nat, rest: Conversion) {
    whole == Prepend(done, pos, chars, rest)
  }

  // ------------------------------------------------------ UTF-8 to GSM

  // One character further in the input, or the end of the conversion
  lemma NextUtf8(b: seq<octet>, pos: nat, whole: Conversion, done: seq<octet>, chars: nat,
                 lt: ConversionTable, st: ConversionTable)
    requires pos < |b| && b[pos] != 0
    requires ReadSoFar(whole, done, pos, chars, FromUtf8(b[pos..], lt, st))
    ensures
      match Utf8.Decode(b[pos..])
      case None => whole == Stopped(pos)
      case Some(p) =>
        var v := Converted(p.0, lt, st);
        if v == GUND then whole == Stopped(pos)
        else ReadSoFar(whole, done + Octets(v), pos + p.1, chars + 1, FromUtf8(b[pos + p.1..], lt, st))
  {
    hide Converted, Octets, Utf8.Decode;
    match Utf8.Decode(b[pos..])
    case None =>
    case Some(p) =>
      assert b[pos..][p.1..] == b[pos + p.1..];
      PrependTwice(done, pos, chars, Octets(Converted(p.0, lt, st)), p.1, 1, FromUtf8(b[pos + p.1..], lt, st));
  }

  // Before the first character and after the last
  lemma NothingRead(r: Conversion)
    ensures ReadSoFar(r, [], 0, 0, r)
  {
  }

  lemma AllRead(whole: Conversion, done: seq<octet>, pos: nat, chars: nat)
    requires ReadSoFar(whole, done, pos, chars, Done([], 0, 0))
    ensures whole == Done(done, pos, chars)
  {
  }

  lemma EndOfUtf8(b: seq<octet>, pos: nat, lt: ConversionTable, st: ConversionTable)
    requires pos <= |b|
    ensures b[0..] == b
    ensures pos == |b| || b[pos] == 0 ==> FromUtf8(b[pos..], lt, st) == Done([], 0, 0)
  {
  }

  method MeasureUtf8(b: seq<octet>, lt: ConversionTable, st: ConversionTable)
    returns (ok: bool, pos: nat, resLen: nat, nchars: nat)
    ensures
      match FromUtf8(b, lt, st)
      case Done(s, read, chars) => ok && pos == read && resLen == |s| && nchars == chars
      case Stopped(read) => !ok && pos == read
  {
    hide Converted, IsShifted, Utf8.Decode, FromUtf8, ReadSoFar;
    ghost var whole, done: seq<octet> := FromUtf8(b, lt, st), [];
    pos, resLen, nchars := 0, 0, 0;
    NothingRead(whole);
    EndOfUtf8(b, 0, lt, st);
    while pos < |b| && b[pos] != 0
      invariant pos <= |b| && resLen == |done|
      invariant ReadSoFar(whole, done, pos, nchars, FromUtf8(b[pos..], lt, st))
    {
      NextUtf8(b, pos, whole, done, nchars, lt, st);
      var c := Utf8.Decode(b[pos..]);
      if c.None? {
        return false, pos, resLen, nchars;
      }
      var converted := Converted(c.value.0, lt, st);
      if converted == GUND {
        return false, pos, resLen, nchars;
      }
      done := done + Octets(converted);
      resLen := resLen + if IsShifted(converted) then 2 else 1;
      pos := pos + c.value.1;
      nchars := nchars + 1;
    }
    EndOfUtf8(b, pos, lt, st);
    AllRead(whole, done, pos, nchars);
    ok := true;
  }

  lemma CharsLeft(b: seq<octet>, lt: ConversionTable, st: ConversionTable)
    requires FromUtf8(b, lt, st).Done?
    ensures FromUtf8(b, lt, st).chars == 0 ==> FromUtf8(b, lt, st) == Done([], 0, 0)
    ensures FromUtf8(b, lt, st).chars > 0 ==>
      && b != [] && b[0] != 0 && Utf8.Decode(b).Some?
      && Converted(Utf8.Decode(b).value.0, lt, st) != GUND
  {
  }

  method WriteUtf8(b: seq<octet>, nchars: nat, lt: ConversionTable, st: ConversionTable, buf: array<octet>)
    returns (pos: nat, out: nat)
    requires FromUtf8(b, lt, st).Done? && FromUtf8(b, lt, st).chars == nchars
    requires |FromUtf8(b, lt, st).septets| <= buf.Length
    modifies buf
    ensures pos == FromUtf8(b, lt, st).read && out == |FromUtf8(b, lt, st).septets|
    ensures buf[..out] == FromUtf8(b, lt, st).septets
  {
    hide Converted, Octets, Utf8.Decode;
    ghost var whole := FromUtf8(b, lt, st);
    pos, out := 0, 0;
    for i := 0 to nchars
      invariant pos <= |b| && out <= buf.Length
      invariant ReadSoFar(whole, buf[..out], pos, i, FromUtf8(b[pos..], lt, st))
    {
      CharsLeft(b[pos..], lt, st);
      NextUtf8(b, pos, whole, buf[..out], i, lt, st);
      var (c, n) := Utf8.Decode(b[pos..]).value;
      out := PutConverted(Converted(c, lt, st), out, buf);
      pos := pos + n;
    }
    CharsLeft(b[pos..], lt, st);
  }

  // What a converter has to report for a conversion
  ghost predicate Reports(r: Conversion, terminator: octet,
                          res: Option<seq<octet>>, itemsRead: Option<nat>, itemsWritten: Option<nat>) {
    && itemsRead == Some(r.read)
    && (if r.Stopped? || (r.septets == [] && terminator == 0)
        then res == None && itemsWritten == None
        else res == Some(r.septets + if terminator != 0 then [terminator] else [])
             && itemsWritten == Some(|r.septets|))
  }

  function Contents(res: Option<array<octet>>): Option<seq<octet>>
    reads if res.Some? then {res.value} else {}
  {
    match res
    case None => None
    case Some(a) => Some(a[..])
  }

  // The bytes a converter may look at
  function Input(text: seq<octet>, len: int): (r: seq<octet>)
    requires len <= |text|
    ensures r <= text && |r| == if len < 0 then |text| else len
  {
    if len < 0 then text else text[..len]
  }

  // convert_utf8_to_gsm_with_lang once the dialects are known
  method ConvertUtf8(b: seq<octet>, terminator: octet, lt: ConversionTable, st: ConversionTable)
    returns (res: Option<array<octet>>, itemsRead: Option<nat>, itemsWritten: Option<nat>)
    ensures res.Some? ==> fresh(res.value)
    ensures Reports(FromUtf8(b, lt, st), terminator, Contents(res), itemsRead, itemsWritten)
  {
    var ok, pos, resLen, nchars := MeasureUtf8(b, lt, st);
    var size := resLen + if terminator != 0 then 1 else 0;
    if !ok || size == 0 {
      return None, Some(pos), None;
    }
    var buf := new octet[size](_ => 0);
    var out;
    pos, out := WriteUtf8(b, nchars, lt, st, buf);
    if terminator != 0 {
      buf[out] := terminator;
    }
    assert buf[..] == buf[..out] + if terminator != 0 then [terminator] else [];
    res, itemsRead, itemsWritten := Some(buf), Some(pos), Some(out);
  }

  /** convert_utf8_to_gsm_with_lang: both passes read exactly what the conversion reads,
      the second writes exactly what the first measured, and a failure is reported at
      the first character that is malformed or unencodable. */
  method ConvertUtf8ToGsmWithLang(text: seq<octet>, len: int, terminator: octet,
                                  lockingLang: Dialect, singleLang: Dialect)
    returns (res: Option<array<octet>>, itemsRead: Option<nat>, itemsWritten: Option<nat>)
    requires len <= |text| && (len < 0 ==> 0 in text)
    ensures res.Some? ==> fresh(res.value)
    ensures lockingLang == Invalid || singleLang == Invalid ==> res == None && itemsRead == None && itemsWritten == None
    ensures lockingLang != Invalid && singleLang != Invalid ==>
      match FromUtf8(Input(text, len), AlphabetLookup(lockingLang), AlphabetLookup(singleLang))
      case Stopped(read) => res == None && itemsRead == Some(read) && itemsWritten == None
      case Done(s, read, _) =>
        && itemsRead == Some(read)
        && if s == [] && terminator == 0 then res == None && itemsWritten == None
           else res.Some? && itemsWritten == Some(|s|)
                && res.value[..] == s + if terminator != 0 then [terminator] else []
  {
    if lockingLang == Invalid || singleLang == Invalid {
      return None, None, None;
    }
    res, itemsRead, itemsWritten :=
      ConvertUtf8(Input(text, len), terminator, AlphabetLookup(lockingLang), AlphabetLookup(singleLang));
  }

  // -------------------------------------------------------- UCS2 to GSM

  // One unit further in the input, or the end of the conversion
  lemma NextUcs2(b: seq<octet>, i: nat, whole: Conversion, done: seq<octet>, chars: nat,
                 lt: ConversionTable, st: ConversionTable)
    requires i + 1 < |b|
    requires ReadSoFar(whole, done, i, chars, FromUcs2(b[i..], lt, st))
    ensures
      var v := Converted(Unit(b[i], b[i + 1]), lt, st);
      if v == GUND then whole == Stopped(i)
      else ReadSoFar(whole, done + Octets(v), i + 2, chars + 1, FromUcs2(b[i + 2..], lt, st))
  {
    assert b[i..][2..] == b[i + 2..];
    PrependTwice(done, i, chars, Octets(Converted(Unit(b[i], b[i + 1]), lt, st)), 2, 1, FromUcs2(b[i + 2..], lt, st));
  }

  lemma EndOfUcs2(b: seq<octet>, lt: ConversionTable, st: ConversionTable)
    ensures b[0..] == b && FromUcs2(b[|b|..], lt, st) == Done([], 0, 0)
  {
  }

  method MeasureUcs2(b: seq<octet>, lt: ConversionTable, st: ConversionTable)
    returns (ok: bool, i: nat, resLen: nat)
    requires |b| % 2 == 0
    ensures
      match FromUcs2(b, lt, st)
      case Done(s, read, _) => ok && i == read == |b| && resLen == |s|
      case Stopped(read) => !ok && i == read
  {
    hide Converted, Unit, IsShifted, FromUcs2, ReadSoFar;
    ghost var whole, done: seq<octet>, chars := FromUcs2(b, lt, st), [], 0;
    i, resLen := 0, 0;
    NothingRead(whole);
    EndOfUcs2(b, lt, st);
    while i < |b|
      invariant i <= |b| && i % 2 == 0 && resLen == |done|
      invariant ReadSoFar(whole, done, i, chars, FromUcs2(b[i..], lt, st))
    {
      NextUcs2(b, i, whole, done, chars, lt, st);
      var converted := Converted(Unit(b[i], b[i + 1]), lt, st);
      if converted == GUND {
        return false, i, resLen;
      }
      done := done + Octets(converted);
      chars := chars + 1;
      resLen := resLen + if IsShifted(converted) then 2 else 1;
      i := i + 2;
    }
    AllRead(whole, done, i, chars);
    ok := true;
  }

  lemma UnitsLeft(b: seq<octet>, lt: ConversionTable, st: ConversionTable)
    requires |b| >= 2 && FromUcs2(b, lt, st).Done?
    ensures Converted(Unit(b[0], b[1]), lt, st) != GUND && FromUcs2(b, lt, st).septets != []
  {
  }

  method WriteUcs2(b: seq<octet>, lt: ConversionTable, st: ConversionTable, buf: array<octet>)
    returns (out: nat)
    requires |b| % 2 == 0 && FromUcs2(b, lt, st).Done?
    requires |FromUcs2(b, lt, st).septets| <= buf.Length
    modifies buf
    ensures out == |FromUcs2(b, lt, st).septets|
    ensures buf[..out] == FromUcs2(b, lt, st).septets
  {
    hide Converted, Octets, Unit, FromUcs2;
    ghost var whole, chars := FromUcs2(b, lt, st), 0;
    var i := 0;
    out := 0;
    NothingRead(whole);
    EndOfUcs2(b, lt, st);
    while i < |b|
      invariant i <= |b| && i % 2 == 0 && out <= buf.Length
      invariant ReadSoFar(whole, buf[..out], i, chars, FromUcs2(b[i..], lt, st))
    {
      UnitsLeft(b[i..], lt, st);
      NextUcs2(b, i, whole, buf[..out], chars, lt, st);
      out := PutConverted(Converted(Unit(b[i], b[i + 1]), lt, st), out, buf);
      chars := chars + 1;
      i := i + 2;
    }
  }

  /** convert_ucs2_to_gsm_with_lang: an odd or empty input is refused unread; otherwise
      measuring and writing agree, and a failure is reported at the unencodable unit. */
  method ConvertUcs2ToGsmWithLang(text: seq<octet>, len: int, terminator: octet,
                                  lockingLang: Dialect, singleLang: Dialect)
    returns (res: Option<array<octet>>, itemsRead: Option<nat>, itemsWritten: Option<nat>)
    requires len <= |text|
    ensures res.Some? ==> fresh(res.value)
    ensures lockingLang == Invalid || singleLang == Invalid || len < 1 || len % 2 != 0 ==>
      res == None && itemsRead == None && itemsWritten == None
    ensures lockingLang != Invalid && singleLang != Invalid && len >= 1 && len % 2 == 0 ==>
      match FromUcs2(text[..len], AlphabetLookup(lockingLang), AlphabetLookup(singleLang))
      case Stopped(read) => res == None && itemsRead == Some(read) && itemsWritten == None
      case Done(s, read, _) =>
        && itemsRead == Some(read)
        && if s == [] && terminator == 0 then res == None && itemsWritten == None
           else res.Some? && itemsWritten == Some(|s|)
                && res.value[..] == s + if terminator != 0 then [terminator] else []
  {
    if lockingLang == Invalid || singleLang == Invalid || len < 1 || len % 2 != 0 {
      return None, None, None;
    }
    res, itemsRead, itemsWritten :=
      ConvertUcs2(text[..len], terminator, AlphabetLookup(lockingLang), AlphabetLookup(singleLang));
  }

  method ConvertUcs2(b: seq<octet>, terminator: octet, lt: ConversionTable, st: ConversionTable)
    returns (res: Option<array<octet>>, itemsRead: Option<nat>, itemsWritten: Option<nat>)
    requires |b| % 2 == 0 && b != []
    ensures res.Some? ==> fresh(res.value)
    ensures Reports(FromUcs2(b, lt, st), terminator, Contents(res), itemsRead, itemsWritten)
  {
    var ok, i, resLen := MeasureUcs2(b, lt, st);
    if !ok {
      return None, Some(i), None;
    }
    UnitsLeft(b, lt, st);
    var buf := new octet[resLen + if terminator != 0 then 1 else 0](_ => 0);
    var out := WriteUcs2(b, lt, st, buf);
    if terminator != 0 {
      buf[out] := terminator;
    }
    assert buf[..] == buf[..out] + if terminator != 0 then [terminator] else [];
    res, itemsRead, itemsWritten := Some(buf), Some(i), Some(out);
  }

  // -------------------------------------------------------- GSM to UTF-8

  function Lengths(t: seq<nat>): nat {
    if t == [] then 0 else Utf8.Length(t[0]) + Lengths(t[1..])
  }

  lemma {:induction false} LengthsSnoc(t: seq<nat>, c: nat)
    ensures Lengths(t + [c]) == Lengths(t) + Utf8.Length(c)
  {
    if t == [] {
      assert [] + [c] == [c] && [c][1..] == [];
    } else {
      assert (t + [c])[1..] == t[1..] + [c];
      LengthsSnoc(t[1..], c);
    }
  }

  lemma {:induction false} LengthsOfText(t: seq<nat>)
    requires IsText(t)
    ensures Lengths(t) == |Utf8.EncodeAll(t)|
  {
    if t != [] {
      LengthsOfText(t[1..]);
    }
  }

  function After(done: seq<nat>, n: nat, d: Decoding): Decoding {
    match d
    case Decoded(t) => Decoded(done + t)
    case Undecodable(k) => Undecodable(n + k)
  }

  lemma AfterOne(done: seq<nat>, n: nat, c: nat, k: nat, d: Decoding)
    ensures After(done, n, Cons(c, k, d)) == After(done + [c], n + k, d)
  {
    if d.Decoded? {
      assert done + ([c] + d.chars) == (done + [c]) + d.chars;
    }
  }

  // The first pass: i is where it stops
  method MeasureGsm(s: seq<octet>, lt: ConversionTable, st: ConversionTable)
    returns (ok: bool, i: nat, resLength: nat)
    requires |lt.gsmLocking| == 128
    ensures
      match DecodeText(s, lt, st)
      case Decoded(t) => ok && i == |s| && resLength == Lengths(t)
      case Undecodable(at) => !ok && i == at
  {
    ghost var done: seq<nat> := [];
    i, resLength := 0, 0;
    while i < |s|
      invariant i <= |s| && resLength == Lengths(done)
      invariant DecodeText(s, lt, st) == After(done, i, DecodeText(s[i..], lt, st))
    {
      var c;
      ghost var start := i;
      if s[i] > 0x7F {
        return false, i, resLength;
      }
      if s[i] == ESCAPE {
        i := i + 1;
        if i >= |s| {
          return false, i, resLength;
        }
        c := GsmSingleLookup(s[i], st);
        if c == GUND {
          return false, i, resLength;
        }
      } else {
        c := GsmLockingLookup(s[i], lt);
      }
      assert s[start..][i + 1 - start..] == s[i + 1..];
      AfterOne(done, start, c, i + 1 - start, DecodeText(s[i + 1..], lt, st));
      LengthsSnoc(done, c);
      done := done + [c];
      resLength := resLength + Utf8.Length(c);
      i := i + 1;
    }
    ok := true;
    assert done + [] == done;
  }

  // *out += g_unichar_to_utf8(c, out)
  method PutUtf8(c: nat, out: nat, buf: array<octet>) returns (out': nat)
    requires c < 0x10000 && out + Utf8.Length(c) <= buf.Length
    modifies buf
    ensures out' == out + Utf8.Length(c)
    ensures buf[..out'] == old(buf[..out]) + Utf8.Encode(c)
  {
    var e := Utf8.Encode(c);
    out' := out + |e|;
    forall k | 0 <= k < |e| {
      buf[out + k] := e[k];
    }
    assert buf[..out'] == buf[..out] + buf[out..out'];
  }

  // One character of the second pass, which checks nothing
  method NextGsm(s: seq<octet>, i: nat, lt: ConversionTable, st: ConversionTable) returns (c: nat, i': nat)
    requires |lt.gsmLocking| == 128 && i <= |s|
    requires DecodeText(s[i..], lt, st).Decoded? && DecodeText(s[i..], lt, st).chars != []
    ensures i < i' <= |s|
    ensures DecodeText(s[i'..], lt, st).Decoded?
    ensures DecodeText(s[i..], lt, st).chars == [c] + DecodeText(s[i'..], lt, st).chars
  {
    i' := i;
    if s[i'] == ESCAPE {
      i' := i' + 1;
      c := GsmSingleLookup(s[i'], st);
    } else {
      c := GsmLockingLookup(s[i'], lt);
    }
    i' := i' + 1;
    assert s[i..][i' - i..] == s[i'..];
  }

  // The second pass: it ends when the measured length is written
  method WriteGsm(s: seq<octet>, lt: ConversionTable, st: ConversionTable, resLength: nat, buf: array<octet>)
    returns (i: nat, out: nat)
    requires |lt.gsmLocking| == 128 && DecodeText(s, lt, st).Decoded? && IsText(DecodeText(s, lt, st).chars)
    requires resLength == |Utf8.EncodeAll(DecodeText(s, lt, st).chars)| <= buf.Length
    modifies buf
    ensures i == |s| && out == resLength
    ensures buf[..out] == Utf8.EncodeAll(DecodeText(s, lt, st).chars)
  {
    hide DecodeText, Utf8.Encode, Utf8.Length;
    ghost var rest := DecodeText(s, lt, st).chars;
    ghost var bytes := Utf8.EncodeAll(rest);
    i, out := 0, 0;
    assert s[0..] == s;
    while out < resLength
      invariant i <= |s| && out <= resLength
      invariant DecodeText(s[i..], lt, st) == Decoded(rest) && IsText(rest)
      invariant bytes == buf[..out] + Utf8.EncodeAll(rest)
      decreases |s| - i
    {
      var c;
      c, i := NextGsm(s, i, lt, st);
      assert c == rest[0];
      out := PutUtf8(c, out, buf);
      rest := rest[1..];
    }
    AllWritten(s[i..], lt, st);
  }

  lemma AllWritten(s: seq<octet>, lt: ConversionTable, st: ConversionTable)
    requires |lt.gsmLocking| == 128 && DecodeText(s, lt, st).Decoded? && IsText(DecodeText(s, lt, st).chars)
    requires Utf8.EncodeAll(DecodeText(s, lt, st).chars) == []
    ensures s == []
  {
  }

  /** convert_gsm_to_utf8_with_lang: the text the septets stand for, NUL-terminated, with
      the septets all read and the bytes counted; or, at the septet where measuring
      stopped, a failure. Without a length the terminator ends the input. */
  method ConvertGsmToUtf8WithLang(text: seq<octet>, len: int, terminator: octet,
                                  lockingLang: Dialect, singleLang: Dialect)
    returns (res: Option<array<octet>>, itemsRead: Option<nat>, itemsWritten: Option<nat>)
    requires len <= |text| && (len < 0 && terminator != 0 ==> terminator in text)
    ensures res.Some? ==> fresh(res.value)
    ensures lockingLang == Invalid || singleLang == Invalid ==> res == None && itemsRead == None && itemsWritten == None
    ensures lockingLang != Invalid && singleLang != Invalid && len < 0 && terminator == 0 ==>
      res == None && itemsRead == Some(0) && itemsWritten == None
    ensures lockingLang != Invalid && singleLang != Invalid && !(len < 0 && terminator == 0) ==>
      match DecodeText(Resolve(text, len, terminator), AlphabetLookup(lockingLang), AlphabetLookup(singleLang))
      case Undecodable(at) => res == None && itemsRead == Some(at) && itemsWritten == None
      case Decoded(t) =>
        && IsText(t) && res.Some? && res.value[..] == Utf8.EncodeAll(t) + [0]
        && itemsRead == Some(|Resolve(text, len, terminator)|) && itemsWritten == Some(|Utf8.EncodeAll(t)|)
  {
    if lockingLang == Invalid || singleLang == Invalid {
      return None, None, None;
    }
    if len < 0 && terminator == 0 {
      return None, Some(0), None;
    }
    var n := len;
    if len < 0 {
      n := FindTerminator(text, terminator);
    }
    AlphabetConsistent(lockingLang);
    AlphabetConsistent(singleLang);
    res, itemsRead, itemsWritten :=
      ConvertGsm(text[..n], AlphabetLookup(lockingLang), AlphabetLookup(singleLang));
  }

  // What a decoder has to report
  ghost predicate ReportsText(s: seq<octet>, lt: ConversionTable, st: ConversionTable,
                              res: Option<seq<octet>>, itemsRead: Option<nat>, itemsWritten: Option<nat>)
    requires |lt.gsmLocking| == 128
  {
    match DecodeText(s, lt, st)
    case Undecodable(at) => res == None && itemsRead == Some(at) && itemsWritten == None
    case Decoded(t) =>
      && IsText(t) && itemsRead == Some(|s|)
      && res == Some(Utf8.EncodeAll(t) + [0]) && itemsWritten == Some(|Utf8.EncodeAll(t)|)
  }

  method ConvertGsm(s: seq<octet>, lt: ConversionTable, st: ConversionTable)
    returns (res: Option<array<octet>>, itemsRead: Option<nat>, itemsWritten: Option<nat>)
    requires LockingConsistent(lt) && Consistent(st)
    ensures res.Some? ==> fresh(res.value)
    ensures ReportsText(s, lt, st, Contents(res), itemsRead, itemsWritten)
  {
    var ok, i, resLength := MeasureGsm(s, lt, st);
    if !ok {
      return None, Some(i), None;
    }
    DecodedIsText(s, lt, st);
    LengthsOfText(DecodeText(s, lt, st).chars);
    var buf := new octet[resLength + 1](_ => 0);
    var out;
    i, out := WriteGsm(s, lt, st, resLength, buf);
    buf[out] := 0;
    assert buf[..] == buf[..out] + [0];
    res, itemsRead, itemsWritten := Some(buf), Some(i), Some(out);
  }
}
