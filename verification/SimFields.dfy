/** sim_string_to_utf8 and utf8_to_sim_string as they run (home-item/util.c:1090-1270). */
module SimFields {
  import opened Bits
  import opened Options
  import opened GsmTableChecks
  import opened GsmTableData
  import opened GsmTables
  import opened GsmText
  import opened GsmConversions
  import opened GsmConverters
  import opened SimText
  import Utf8

  // ---------------------------------------------- 0x81 and 0x82, two passes

  // What remains to be scanned decides what the whole scan gives
  function ScanAfter(done: seq<nat>, n: nat, s: Scan): Scan {
    match s
    case Bad => Bad
    case Scanned(t, used) => Scanned(done + t, n + used)
  }

  lemma ScanOne(done: seq<nat>, n: nat, c: nat, k: nat, s: Scan)
    ensures ScanAfter(done, n, ScanCons(c, k, s)) == ScanAfter(done + [c], n + k, s)
  {
    if s.Scanned? {
      assert done + ([c] + s.chars) == (done + [c]) + s.chars;
    }
  }

  // One iteration of the first pass
  method CheckChar(b: seq<octet>, i: nat, base: nat, t: ConversionTable)
    returns (ok: bool, c: nat, i': nat, counted: nat)
    requires |t.gsmLocking| == 128 && i < |b|
    ensures ok == FrontAllowed(b[i..], base, t) && i < i'
    ensures ok ==> c == FrontChar(b[i..], base, t) && counted == FrontLength(b[i..]) && i' == i + counted <= |b|
  {
    hide GsmSingleLookup;
    i' := i + 1;
    if b[i] >= 0x80 {
      c := (b[i] % 0x80 + base) % 0x10000;
      return !(c >= 0xD800 && c < 0xE000), c, i', 1;
    }
    if b[i] == ESCAPE {
      if i' >= |b| {
        return false, 0, i', 0;
      }
      c := GsmSingleLookup(b[i'], t);
      return c != 0, c, i' + 1, 2;
    }
    return true, GsmLockingLookup(b[i], t), i', 1;
  }

  // The first pass: i is where it stops, j what it counted
  method MeasureSim(b: seq<octet>, offset: nat, numChars: nat, base: nat, t: ConversionTable)
    returns (ok: bool, i: nat, resLen: nat)
    requires |t.gsmLocking| == 128 && offset <= |b|
    ensures
      match ScanChars(b[offset..], numChars, base, t)
      case Bad => !ok
      case Scanned(chars, used) => ok && i == offset + used <= |b| && resLen == Lengths(chars)
  {
    hide FrontAllowed, FrontChar, FrontLength, Utf8.Length;
    ghost var whole, done: seq<nat> := ScanChars(b[offset..], numChars, base, t), [];
    var j: int := 0;
    i, resLen := offset, 0;
    while i < |b| && j < numChars
      invariant offset <= i <= |b| && resLen == Lengths(done)
      invariant whole == ScanAfter(done, i - offset, ScanChars(b[i..], numChars - j, base, t))
      decreases |b| - i
    {
      var allowed, c, i', counted := CheckChar(b, i, base, t);
      if !allowed {
        return false, i', resLen;
      }
      assert b[i..][counted..] == b[i'..];
      ScanOne(done, i - offset, c, counted, ScanChars(b[i'..], numChars - (j + counted), base, t));
      LengthsSnoc(done, c);
      done := done + [c];
      resLen := resLen + Utf8.Length(c);
      i, j := i', j + counted;
    }
    assert done + [] == done;
    ok := j == numChars;
  }

  // One iteration of the second pass, which checks nothing
  method ReadChar(b: seq<octet>, i: nat, base: nat, t: ConversionTable) returns (c: nat, i': nat)
    requires |t.gsmLocking| == 128 && i < |b| && FrontAllowed(b[i..], base, t)
    ensures c == FrontChar(b[i..], base, t) && i' == i + FrontLength(b[i..]) <= |b|
  {
    hide GsmSingleLookup;
    i' := i;
    if b[i'] >= 0x80 {
      c := (b[i'] % 0x80 + base) % 0x10000;
    } else if b[i'] == ESCAPE {
      i' := i' + 1;
      c := GsmSingleLookup(b[i'], t);
    } else {
      c := GsmLockingLookup(b[i'], t);
    }
    i' := i' + 1;
  }

  lemma ScanLeft(b: seq<octet>, wanted: int, base: nat, t: ConversionTable)
    requires |t.gsmLocking| == 128 && ScanChars(b, wanted, base, t).Scanned?
    ensures var s := ScanChars(b, wanted, base, t);
      if s.chars == [] then s.used == 0
      else
        && b != [] && FrontAllowed(b, base, t) && FrontLength(b) <= |b|
        && s == ScanCons(FrontChar(b, base, t), FrontLength(b),
                         ScanChars(b[FrontLength(b)..], wanted - FrontLength(b), base, t))
  {
    hide FrontChar;
  }

  // The second pass replays the characters of the first and ends where it ended
  method WriteSim(b: seq<octet>, offset: nat, wanted: nat, base: nat, t: ConversionTable, resLen: nat,
                  buf: array<octet>)
    returns (i: nat, out: nat)
    requires |t.gsmLocking| == 128 && offset <= |b|
    requires ScanChars(b[offset..], wanted, base, t).Scanned? && IsUnits(ScanChars(b[offset..], wanted, base, t).chars)
    requires resLen == |Utf8.EncodeAll(ScanChars(b[offset..], wanted, base, t).chars)| <= buf.Length
    modifies buf
    ensures i == offset + ScanChars(b[offset..], wanted, base, t).used && out == resLen
    ensures buf[..out] == Utf8.EncodeAll(ScanChars(b[offset..], wanted, base, t).chars)
  {
    hide ScanChars, FrontAllowed, FrontChar, FrontLength, Utf8.Encode, Utf8.Length;
    ghost var rest: seq<nat> := ScanChars(b[offset..], wanted, base, t).chars;
    ghost var left: nat := ScanChars(b[offset..], wanted, base, t).used;
    ghost var bytes, used := Utf8.EncodeAll(rest), left;
    ghost var toCount: int := wanted;
    i, out := offset, 0;
    while out < resLen
      invariant offset <= i <= |b| && out <= resLen && i + left == offset + used
      invariant ScanChars(b[i..], toCount, base, t) == Scanned(rest, left) && IsUnits(rest)
      invariant bytes == buf[..out] + Utf8.EncodeAll(rest)
      decreases |rest|
    {
      ScanLeft(b[i..], toCount, base, t);
      var c, next := ReadChar(b, i, base, t);
      assert b[i..][next - i..] == b[next..];
      ghost var tail := ScanChars(b[next..], toCount - (next - i), base, t);
      assert c == rest[0] && tail == Scanned(rest[1..], left - (next - i));
      out := PutUtf8(c, out, buf);
      toCount := toCount - (next - i);
      rest, left := tail.chars, tail.used;
      i := next;
    }
    NothingLeft(rest);
    ScanLeft(b[i..], toCount, base, t);
  }

  lemma NothingLeft(t: seq<nat>)
    requires IsUnits(t) && Utf8.EncodeAll(t) == []
    ensures t == []
  {
  }

  lemma {:induction false} LengthsOfUnits(t: seq<nat>)
    requires IsUnits(t)
    ensures Lengths(t) == |Utf8.EncodeAll(t)|
  {
    if t != [] {
      LengthsOfUnits(t[1..]);
    }
  }

  method CheckPadding(b: seq<octet>, start: nat) returns (ok: bool)
    requires start <= |b|
    ensures ok == IsPadding(b[start..])
  {
    for i := start to |b|
      invariant forall k :: start <= k < i ==> b[k] == PADDING
    {
      if b[i] != PADDING {
        assert b[start..][i - start] != PADDING;
        return false;
      }
    }
    return true;
  }

  // The C string that stands for an outcome; a UCS2 field is converted elsewhere
  ghost predicate Returns(outcome: SimOutcome, res: Option<seq<octet>>, ucs2: Option<seq<octet>>) {
    match outcome
    case Refused => res == None && ucs2 == None
    case Text(utf8) => res == Some(utf8 + [0]) && ucs2 == None
    case Ucs2Units(units) => res == None && ucs2 == Some(units)
  }

  // The field behind its header: both passes and the padding check between them
  method DecodeSimField(b: seq<octet>, offset: nat, numChars: nat, base: nat) returns (res: Option<array<octet>>)
    requires offset <= |b|
    ensures res.Some? ==> fresh(res.value)
    ensures Returns(DecodeField(b[offset..], numChars, base), Contents(res), None)
  {
    hide ScanChars, DefaultTable, LockingConsistent, Consistent;
    var t := DefaultTable();
    var ok, i, resLen := MeasureSim(b, offset, numChars, base, t);
    if !ok {
      return None;
    }
    ghost var scan := ScanChars(b[offset..], numChars, base, t);
    assert b[offset..][scan.used..] == b[i..];
    var padded := CheckPadding(b, i);
    if !padded {
      return None;
    }
    ScannedUnits(b[offset..], numChars, base, t);
    LengthsOfUnits(scan.chars);
    var buf := new octet[resLen + 1](_ => 0);
    var out;
    i, out := WriteSim(b, offset, numChars, base, t, resLen, buf);
    buf[out] := 0;
    assert buf[..] == buf[..out] + [0];
    res := Some(buf);
  }

  method FindPadding(b: seq<octet>) returns (i: nat)
    ensures i == Unpadded(b)
  {
    i := 0;
    while i < |b| && b[i] != PADDING
      invariant i <= |b| && forall k :: 0 <= k < i ==> b[k] != PADDING
    {
      i := i + 1;
    }
  }

  // From unit i on, i being even
  lemma UnpaddedUnitsStep(b: seq<octet>, i: nat)
    requires i <= |b|
    ensures if |b| < i + 2 || (b[i] == PADDING && b[i + 1] == PADDING) then UnpaddedUnits(b[i..]) == 0
            else UnpaddedUnits(b[i..]) == 2 + UnpaddedUnits(b[i + 2..])
  {
    if i + 2 <= |b| {
      assert b[i..][2..] == b[i + 2..];
    }
  }

  method FindPaddingUnit(b: seq<octet>) returns (i: nat)
    requires |b| % 2 == 0
    ensures i == UnpaddedUnits(b)
  {
    i := 0;
    while i < |b|
      invariant i <= |b| && i % 2 == 0
      invariant UnpaddedUnits(b) == i + UnpaddedUnits(b[i..])
    {
      UnpaddedUnitsStep(b, i);
      if b[i] == PADDING && b[i + 1] == PADDING {
        return;
      }
      i := i + 2;
    }
    UnpaddedUnitsStep(b, i);
  }

  /** sim_string_to_utf8: NULL, or the text of the field as a C string, as `SimDecode`
      says; of a 0x80 field, the units that are given to g_convert. */
  method SimStringToUtf8(buffer: seq<octet>, length: int)
    returns (res: Option<array<octet>>, ucs2: Option<seq<octet>>)
    requires length <= |buffer|
    ensures res.Some? ==> fresh(res.value)
    ensures length < 1 ==> res == None && ucs2 == None
    ensures length >= 1 ==>
      match SimDecode(buffer[..length])
      case Refused => res == None && ucs2 == None
      case Text(utf8) => res.Some? && res.value[..] == utf8 + [0] && ucs2 == None
      case Ucs2Units(units) => res == None && ucs2 == Some(units)
  {
    hide DecodeField, DefaultTable, AlphabetLookup, LockingConsistent, Consistent;
    res, ucs2 := None, None;
    if length < 1 {
      return;
    }
    var b := buffer[..length];
    if b[0] < 0x80 {
      var i := FindPadding(b);
      var read, written;
      res, read, written := ConvertGsm(b[..i], DefaultTable(), DefaultTable());
    } else if b[0] == 0x80 {
      var n := length;
      if (length - 1) % 2 == 1 {
        if b[length - 1] != PADDING {
          return;
        }
        n := length - 1;
      }
      var i := FindPaddingUnit(b[1..n]);
      ucs2 := Some(b[1..n][..i]);
      assert b[1..][..n - 1] == b[1..n];
    } else if b[0] == 0x81 {
      if length < 3 || b[1] > length - 3 {
        return;
      }
      res := DecodeSimField(b, 3, b[1], Shl(b[2], 7));
    } else if b[0] == 0x82 {
      if length < 4 || b[1] > length - 4 {
        return;
      }
      res := DecodeSimField(b, 4, b[1], Unit(b[2], b[3]));
    }
  }

  // --------------------------------------------------------- storing a text

  /** utf8_to_sim_string, when the text is in the default alphabet: a buffer with the whole
      encoding, of which the longest run of whole characters that fits is to be stored.
      Any other text, and the empty one, goes on to the UCS2 coding. */
  method Utf8ToSimString(utf: seq<octet>, maxLength: int)
    returns (result: Option<array<octet>>, outLength: int)
    requires 0 in utf
    requires
      match FromUtf8(utf, DefaultTable(), DefaultTable())
      case Stopped(_) => true
      case Done(s, _, _) => s != [] ==> maxLength >= 0
    ensures
      match FromUtf8(utf, DefaultTable(), DefaultTable())
      case Stopped(_) => result == None
      case Done(s, _, _) =>
        if s == [] then result == None
        else result.Some? && fresh(result.value) && result.value[..] == s
             && outLength == |SimTruncate(s, maxLength)| && s[..outLength] == SimTruncate(s, maxLength)
  {
    hide FromUtf8;
    var read, gsmBytes;
    result, read, gsmBytes := ConvertUtf8ToGsmWithLang(utf, -1, 0, Default, Default);
    outLength := 0;
    if result.Some? {
      ghost var s := FromUtf8(utf, DefaultTable(), DefaultTable()).septets;
      assert s + [] == s && result.value[..] == s && result.value[..|s|] == s;
      outLength := gsmBytes.value;
      if outLength > maxLength {
        outLength := StripEscapesLoop(result.value, maxLength);
      }
    }
  }

  method StripEscapesLoop(a: array<octet>, n: nat) returns (m: nat)
    requires n <= a.Length
    ensures m == |StripEscapes(a[..n])| <= n && a[..m] == StripEscapes(a[..n])
  {
    m := n;
    while m > 0 && a[m - 1] == ESCAPE
      invariant m <= n && StripEscapes(a[..m]) == StripEscapes(a[..n])
    {
      assert a[..m][..m - 1] == a[..m - 1];
      m := m - 1;
    }
  }
}
