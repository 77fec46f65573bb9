/** Lengths of C buffers: a negative length means "up to the terminator", which every
    function of home-item/util.c that takes one resolves in the same way. */
module Buffers {
  import opened Bits

  function IndexOf(s: seq<octet>, x: octet): (i: nat)
    requires x in s
    ensures i < |s| && s[i] == x && x !in s[..i]
  {
    if s[0] == x then 0 else 1 + IndexOf(s[1..], x)
  }

  function Resolve(s: seq<octet>, len: int, terminator: octet): (r: seq<octet>)
    requires len <= |s| && (len < 0 ==> terminator in s)
    ensures r <= s && (len >= 0 ==> |r| == len)
    ensures len < 0 ==> terminator !in r && |r| < |s| && s[|r|] == terminator
  {
    if len < 0 then s[..IndexOf(s, terminator)] else s[..len]
  }

  method FindTerminator(s: seq<octet>, terminator: octet) returns (i: nat)
    requires terminator in s
    ensures i == IndexOf(s, terminator)
  {
    i := 0;
    while s[i] != terminator
      invariant i <= IndexOf(s, terminator)
      decreases |s| - i
    {
      IndexOfFirst(s, terminator, i);
      i := i + 1;
    }
    IndexOfFirst(s, terminator, i);
  }

  lemma IndexOfFirst(s: seq<octet>, x: octet, i: nat)
    requires x in s && i <= IndexOf(s, x)
    ensures s[i] != x ==> i < IndexOf(s, x)
    ensures s[i] == x ==> i == IndexOf(s, x)
  {
    if i < IndexOf(s, x) {
      assert s[..IndexOf(s, x)][i] == s[i];
    }
  }
}
