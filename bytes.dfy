/**
 * Bytes as Go's string and []byte hold them, and the part of the
 * strings package the client uses: TrimSpace, restricted to ASCII
 * whitespace.
 */
module Bytes {

  newtype byte = b: int | 0 <= b < 256

  /** The space byte that ends every length token. */
  const SP: byte := 32

  /** The bytes Go's strings package treats as ASCII white space. */
  predicate IsSpace(b: byte) {
    b == 9 || b == 10 || b == 11 || b == 12 || b == 13 || b == 32
  }

  predicate IsDigit(b: byte) {
    48 <= b <= 57
  }

  predicate AllDigits(s: seq<byte>) {
    forall i | 0 <= i < |s| :: IsDigit(s[i])
  }

  predicate NoSpace(s: seq<byte>) {
    forall i | 0 <= i < |s| :: !IsSpace(s[i])
  }

  predicate AllSpace(s: seq<byte>) {
    forall i | 0 <= i < |s| :: IsSpace(s[i])
  }

  predicate IsAscii(s: string) {
    forall i | 0 <= i < |s| :: s[i] as int < 128
  }

  /** The bytes of an ASCII string literal. */
  function Ascii(s: string): seq<byte>
    requires IsAscii(s)
  {
    seq(|s|, i requires 0 <= i < |s| => s[i] as int as byte)
  }

  /** s without its leading white space. */
  function TrimLeft(s: seq<byte>): seq<byte> {
    if |s| > 0 && IsSpace(s[0]) then TrimLeft(s[1..]) else s
  }

  /** s without its trailing white space. */
  function TrimRight(s: seq<byte>): seq<byte> {
    if |s| > 0 && IsSpace(s[|s| - 1]) then TrimRight(s[..|s| - 1]) else s
  }

  /** strings.TrimSpace: s without white space at either end. */
  function TrimSpace(s: seq<byte>): seq<byte> {
    TrimRight(TrimLeft(s))
  }

  /** TrimLeft removes a prefix of white space, and all of it. */
  lemma {:induction false} TrimLeftShape(s: seq<byte>)
    ensures |TrimLeft(s)| <= |s| && TrimLeft(s) == s[|s| - |TrimLeft(s)|..]
    ensures AllSpace(s[..|s| - |TrimLeft(s)|])
    ensures |TrimLeft(s)| > 0 ==> !IsSpace(TrimLeft(s)[0])
    decreases |s|
  {
    if |s| > 0 && IsSpace(s[0]) {
      TrimLeftShape(s[1..]);
      var k := |s| - |TrimLeft(s)|;
      assert forall i | 1 <= i < k :: s[..k][i] == s[1..][..k - 1][i - 1];
    }
  }

  /** TrimRight removes a suffix of white space, and all of it. */
  lemma {:induction false} TrimRightShape(s: seq<byte>)
    ensures |TrimRight(s)| <= |s| && TrimRight(s) == s[..|TrimRight(s)|]
    ensures AllSpace(s[|TrimRight(s)|..])
    ensures |TrimRight(s)| > 0 ==> !IsSpace(TrimRight(s)[|TrimRight(s)| - 1])
    decreases |s|
  {
    if |s| > 0 && IsSpace(s[|s| - 1]) {
      var init := s[..|s| - 1];
      TrimRightShape(init);
      var k := |TrimRight(s)|;
      assert s[k..] == init[k..] + [s[|s| - 1]];
    }
  }

  /** What TrimSpace leaves is no longer than s and neither starts nor ends with white space. */
  lemma TrimSpaceShape(s: seq<byte>)
    ensures |TrimSpace(s)| <= |s|
    ensures |TrimSpace(s)| > 0 ==> !IsSpace(TrimSpace(s)[0]) && !IsSpace(TrimSpace(s)[|TrimSpace(s)| - 1])
  {
    var l := TrimLeft(s);
    TrimLeftShape(s);
    TrimRightShape(l);
  }

  /** Every byte of s that is not white space survives TrimSpace, at a known place. */
  lemma TrimSpaceKeeps(s: seq<byte>, i: nat) returns (j: nat)
    requires i < |s| && !IsSpace(s[i])
    ensures j < |TrimSpace(s)| && TrimSpace(s)[j] == s[i]
    ensures j == i - (|s| - |TrimLeft(s)|)
  {
    var l := TrimLeft(s);
    TrimLeftShape(s);
    var k := |s| - |l|;
    assert i >= k by {
      assert !IsSpace(s[i]) && AllSpace(s[..k]);
    }
    j := i - k;
    assert l[j] == s[i];
    var r := TrimRight(l);
    TrimRightShape(l);
    assert j < |r| by {
      assert !IsSpace(l[j]) && AllSpace(l[|r|..]);
    }
  }

  /** Leading white space before a token is removed, the token is kept. */
  lemma {:induction false} TrimLeftBeforeToken(ws: seq<byte>, t: seq<byte>)
    requires AllSpace(ws)
    requires |t| > 0 && !IsSpace(t[0])
    ensures TrimLeft(ws + t) == t
    decreases |ws|
  {
    if ws == [] {
      assert ws + t == t;
    } else {
      assert (ws + t)[1..] == ws[1..] + t;
      TrimLeftBeforeToken(ws[1..], t);
    }
  }

  /** Trailing white space after a token is removed, the token is kept. */
  lemma {:induction false} TrimRightAfterToken(t: seq<byte>, ws: seq<byte>)
    requires |t| > 0 && !IsSpace(t[|t| - 1])
    requires AllSpace(ws)
    ensures TrimRight(t + ws) == t
    decreases |ws|
  {
    if ws == [] {
      assert t + ws == t;
    } else {
      var w := ws[..|ws| - 1];
      assert (t + ws)[..|t + ws| - 1] == t + w;
      TrimRightAfterToken(t, w);
    }
  }

  /** TrimSpace of a token without white space followed by white space is the token. */
  lemma TrimSpaceOfToken(t: seq<byte>, ws: seq<byte>)
    requires |t| > 0 && NoSpace(t)
    requires AllSpace(ws)
    ensures TrimSpace(t + ws) == t
  {
    assert !IsSpace((t + ws)[0]);
    TrimRightAfterToken(t, ws);
  }
}
