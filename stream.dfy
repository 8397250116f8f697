/**
 * The inbound side of the connection: a finite byte stream read through
 * a cursor, with the two reads the client makes on its bufio.Reader,
 * ReadString(delim) and io.ReadFull(n).
 */
module Stream {
  import opened Wrappers
  import opened Bytes

  /** The errors a read can report once the stream has ended. */
  datatype IoErr = Eof | UnexpectedEof

  /** What one read returns: the bytes it consumed, the cursor after them, and its error. */
  datatype Chunk = Chunk(bytes: seq<byte>, next: nat, err: Option<IoErr>)

  /** The first position at or after pos that holds b. */
  function IndexOf(s: seq<byte>, pos: nat, b: byte): (r: Option<nat>)
    requires pos <= |s|
    ensures r.Some? ==> pos <= r.value < |s| && s[r.value] == b
    ensures r.Some? ==> forall j | pos <= j < r.value :: s[j] != b
    ensures r.None? ==> forall j | pos <= j < |s| :: s[j] != b
    decreases |s| - pos
  {
    if pos == |s| then None
    else if s[pos] == b then Some(pos)
    else IndexOf(s, pos + 1, b)
  }

  /**
   * ReadString(delim): the bytes up to and including the first delim; when
   * the stream ends first, everything that is left, and Eof.
   */
  function ReadString(s: seq<byte>, pos: nat, delim: byte): (c: Chunk)
    requires pos <= |s|
    ensures pos <= c.next <= |s| && c.bytes == s[pos..c.next]
    ensures c.err.None? ==> pos < c.next && s[c.next - 1] == delim
    ensures c.err.Some? ==> c.err == Some(Eof) && c.next == |s|
  {
    match IndexOf(s, pos, delim)
    case Some(i) => Chunk(s[pos..i + 1], i + 1, None)
    case None => Chunk(s[pos..], |s|, Some(Eof))
  }

  /**
   * io.ReadFull(n): exactly n bytes, or, when the stream ends first, all
   * that is left with Eof if that is nothing and UnexpectedEof otherwise.
   */
  function ReadFull(s: seq<byte>, pos: nat, n: nat): (c: Chunk)
    requires pos <= |s|
    ensures pos <= c.next <= |s| && c.bytes == s[pos..c.next]
    ensures c.err.None? <==> n <= |s| - pos
    ensures c.err.None? ==> |c.bytes| == n
    ensures c.err.Some? ==> c.next == |s| && |c.bytes| < n
    ensures c.err == Some(Eof) <==> n > 0 && pos == |s|
  {
    if n <= |s| - pos then Chunk(s[pos..pos + n], pos + n, None)
    else Chunk(s[pos..], |s|, Some(if pos == |s| then Eof else UnexpectedEof))
  }

  /**
   * ReadString reads no delimiter before the one it stops at, and it
   * fails exactly when no delimiter is left.
   */
  lemma ReadStringShape(s: seq<byte>, pos: nat, delim: byte)
    requires pos <= |s|
    ensures var c := ReadString(s, pos, delim);
      c.err.None? ==> forall j | pos <= j < c.next - 1 :: s[j] != delim
    ensures var c := ReadString(s, pos, delim);
      c.err.Some? <==> forall j | pos <= j < |s| :: s[j] != delim
  {
  }

  /** ReadString stops at the first delimiter at or after pos. */
  lemma ReadStringAt(s: seq<byte>, pos: nat, i: nat, delim: byte)
    requires pos <= i < |s| && s[i] == delim
    requires forall j | pos <= j < i :: s[j] != delim
    ensures ReadString(s, pos, delim) == Chunk(s[pos..i + 1], i + 1, None)
  {
  }

  /** A token free of the delimiter, followed by the delimiter, is what ReadString returns. */
  lemma ReadStringToken(pre: seq<byte>, t: seq<byte>, delim: byte, rest: seq<byte>)
    requires forall j | 0 <= j < |t| :: t[j] != delim
    ensures ReadString(pre + t + [delim] + rest, |pre|, delim)
         == Chunk(t + [delim], |pre| + |t| + 1, None)
  {
    var s := pre + t + [delim] + rest;
    assert s[|pre| + |t|] == delim;
    assert forall j | |pre| <= j < |pre| + |t| :: s[j] == t[j - |pre|];
    assert s[|pre|..|pre| + |t| + 1] == t + [delim];
  }
}
