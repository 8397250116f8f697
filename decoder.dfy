/**
 * The response frame the client reads: a signed decimal length ended by
 * a space, then that many bytes of value (length > 0) or of server error
 * message (length < 0); a length of 0 carries nothing. Decode models
 * readLen and recvResponse over a cursor into the inbound stream;
 * EncodeResponse is the server's side of the format, the partner
 * against which Decode is proved.
 */
module Decoder {
  import opened Wrappers
  import opened Bytes
  import opened SeqFacts
  import opened Stream
  import opened Decimal

  /** What one response frame decodes to. */
  datatype Response =
    | Empty                     // length 0: no value and no error
    | Value(data: seq<byte>)    // length n > 0: the n bytes that follow
    | Failure(msg: seq<byte>)   // length n < 0: the server's error message, -n bytes
    | IOError(err: IoErr)       // the stream ended inside the payload

  function Magnitude(n: int): nat {
    if n < 0 then -n else n
  }

  /**
   * readLen: the bytes up to and including the first space, trimmed and
   * parsed by Atoi. A stream that ends before any space, or a token that
   * is not a number, gives 0; the cursor then stands after the space, or
   * at the end of the stream.
   */
  function ReadLen(s: seq<byte>, pos: nat): (r: (int, nat))
    requires pos <= |s|
    ensures pos <= r.1 <= |s|
    ensures MinInt64 <= r.0 <= MaxInt64
    ensures r.0 != 0 ==> pos < r.1 && s[r.1 - 1] == SP
  {
    var c := ReadString(s, pos, SP);
    if c.err.Some? then (0, c.next)
    else
      match ParseInt(TrimSpace(c.bytes))
      case None => (0, c.next)
      case Some(l) => (l, c.next)
  }

  /**
   * A stream with no space left gives 0 and is consumed to its end;
   * otherwise readLen stops right after the first space.
   */
  lemma ReadLenShape(s: seq<byte>, pos: nat)
    requires pos <= |s|
    ensures (forall j | pos <= j < |s| :: s[j] != SP) ==> ReadLen(s, pos) == (0, |s|)
    ensures (exists j | pos <= j < |s| :: s[j] == SP) ==>
      var q := ReadLen(s, pos).1;
      pos < q && s[q - 1] == SP && forall j | pos <= j < q - 1 :: s[j] != SP
  {
    ReadStringShape(s, pos, SP);
  }

  /**
   * recvResponse: one frame read at pos, and the cursor after it. The
   * sign of the length alone decides between Value and Failure; the
   * payload is exactly the |n| bytes after the length token, never part
   * of them: if fewer remain, the result is an I/O error and the cursor
   * ends at the end of the stream.
   */
  function Decode(s: seq<byte>, pos: nat): (r: (Response, nat))
    requires pos <= |s|
    ensures pos <= r.1 <= |s|
    ensures var (n, p) := ReadLen(s, pos);
      && (r.0 == Empty <==> n == 0)
      && (r.0 == Empty ==> r.1 == p)
      && (r.0.Value? ==> n > 0 && r.1 == p + n && r.0.data == s[p..r.1])
      && (r.0.Failure? ==> n < 0 && r.1 == p - n && r.0.msg == s[p..r.1])
      && (r.0.IOError? <==> n != 0 && |s| - p < Magnitude(n))
      && (r.0.IOError? ==> r.1 == |s| && (r.0.err == Eof <==> p == |s|))
  {
    var (vlen, p) := ReadLen(s, pos);
    if vlen == 0 then (Empty, p)
    else if vlen < 0 then
      var c := ReadFull(s, p, -vlen);
      if c.err.Some? then (IOError(c.err.value), c.next) else (Failure(c.bytes), c.next)
    else
      var c := ReadFull(s, p, vlen);
      if c.err.Some? then (IOError(c.err.value), c.next) else (Value(c.bytes), c.next)
  }

  /** The responses a frame can carry: a zero-length value or message collapses to Empty. */
  predicate Representable(r: Response) {
    match r
    case Empty => true
    case Value(data) => 0 < |data| <= MaxInt64
    case Failure(msg) => 0 < |msg| <= -MinInt64
    case IOError(_) => false
  }

  /** The signed length a server writes for a response. */
  function LengthOf(r: Response): int {
    match r
    case Empty => 0
    case Value(data) => |data|
    case Failure(msg) => -|msg|
    case IOError(_) => 0
  }

  function PayloadOf(r: Response): seq<byte> {
    match r
    case Value(data) => data
    case Failure(msg) => msg
    case _ => []
  }

  /** The frame a server writes for a response: length, space, payload. */
  function EncodeResponse(r: Response): seq<byte>
    requires Representable(r)
  {
    Format(LengthOf(r)) + [SP] + PayloadOf(r)
  }

  /** Decode once readLen has given the length of a nonempty response whose payload follows in full, up to q. */
  lemma DecodeFrameAt(s: seq<byte>, pos: nat, r: Response, p: nat, q: nat)
    requires pos <= |s| && Representable(r) && r != Empty
    requires ReadLen(s, pos) == (LengthOf(r), p)
    requires p + |PayloadOf(r)| == q && q <= |s| && s[p..q] == PayloadOf(r)
    ensures Decode(s, pos) == (r, q)
  {
  }

  /** Decode once readLen has given a nonzero n with fewer than |n| bytes after it. */
  lemma DecodeTruncatedAt(s: seq<byte>, pos: nat, n: int, p: nat)
    requires pos <= |s| && ReadLen(s, pos) == (n, p)
    requires n != 0 && |s| - p < Magnitude(n)
    ensures Decode(s, pos) == (IOError(if p == |s| then Eof else UnexpectedEof), |s|)
  {
  }

  /** readLen of a token without white space followed by a space is Atoi of the token. */
  lemma ReadLenToken(pre: seq<byte>, t: seq<byte>, rest: seq<byte>)
    requires |t| > 0 && NoSpace(t)
    ensures ReadLen(pre + t + [SP] + rest, |pre|)
         == (if ParseInt(t).Some? then ParseInt(t).value else 0, |pre| + |t| + 1)
  {
    ReadStringToken(pre, t, SP, rest);
    TrimSpaceOfToken(t, [SP]);
  }

  /**
   * White space other than the space itself around the number is trimmed
   * away: readLen of a token padded with tabs, carriage returns and the
   * like is Atoi of the bare token, and the cursor ends after the space.
   */
  lemma ReadLenPadded(pre: seq<byte>, w1: seq<byte>, t: seq<byte>, w2: seq<byte>, rest: seq<byte>)
    requires |t| > 0 && NoSpace(t)
    requires AllSpace(w1) && AllSpace(w2)
    requires forall j | 0 <= j < |w1| :: w1[j] != SP
    requires forall j | 0 <= j < |w2| :: w2[j] != SP
    ensures ReadLen(pre + w1 + t + w2 + [SP] + rest, |pre|)
         == (if ParseInt(t).Some? then ParseInt(t).value else 0, |pre| + |w1| + |t| + |w2| + 1)
  {
    var tok := w1 + t + w2;
    assert forall j | 0 <= j < |tok| :: tok[j] != SP by {
      forall j | 0 <= j < |tok| ensures tok[j] != SP {
        if |w1| <= j < |w1| + |t| {
          assert tok[j] == t[j - |w1|] && !IsSpace(t[j - |w1|]);
        }
      }
    }
    var s := pre + w1 + t + w2 + [SP] + rest;
    FlattenRight3(pre, w1, t, w2);
    assert s == pre + tok + [SP] + rest;
    ReadStringToken(pre, tok, SP, rest);
    var c := ReadString(s, |pre|, SP);
    assert c.bytes == tok + [SP] && c.next == |pre| + |tok| + 1 && c.err.None?;
    var tail := w2 + [SP];
    assert AllSpace(tail);
    assert tok + [SP] == w1 + (t + tail);
    assert !IsSpace(t[0]);
    TrimLeftBeforeToken(w1, t + tail);
    assert !IsSpace(t[|t| - 1]);
    TrimRightAfterToken(t, tail);
    assert TrimSpace(c.bytes) == t;
  }

  /** readLen reads back every length %d writes, and stops right after its space. */
  lemma ReadLenFormat(pre: seq<byte>, n: int, rest: seq<byte>)
    requires MinInt64 <= n <= MaxInt64
    ensures ReadLen(pre + Format(n) + [SP] + rest, |pre|) == (n, |pre| + |Format(n)| + 1)
  {
    FormatShape(n);
    ReadLenToken(pre, Format(n), rest);
    ParseFormat(n);
  }

  /**
   * Round trip: a frame the server writes for a representable response
   * decodes to that response, wherever it starts in the stream, and the
   * cursor ends right after it, whatever follows.
   */
  lemma DecodeEncode(pre: seq<byte>, r: Response, rest: seq<byte>)
    requires Representable(r)
    ensures Decode(pre + EncodeResponse(r) + rest, |pre|) == (r, |pre| + |EncodeResponse(r)|)
  {
    if r == Empty {
      DecodeEncodeEmpty(pre, rest);
    } else {
      DecodeEncodePayload(pre, r, rest);
    }
  }

  lemma DecodeEncodeEmpty(pre: seq<byte>, rest: seq<byte>)
    ensures Decode(pre + EncodeResponse(Empty) + rest, |pre|) == (Empty, |pre| + |EncodeResponse(Empty)|)
  {
    var t := Format(0);
    var s := pre + EncodeResponse(Empty) + rest;
    assert s == pre + t + [SP] + rest;
    ReadLenFormat(pre, 0, rest);
  }

  lemma DecodeEncodePayload(pre: seq<byte>, r: Response, rest: seq<byte>)
    requires Representable(r) && r != Empty
    ensures Decode(pre + EncodeResponse(r) + rest, |pre|) == (r, |pre| + |EncodeResponse(r)|)
  {
    var s := pre + EncodeResponse(r) + rest;
    var p := FrameLayout(pre, r, rest);
    DecodeFrameAt(s, |pre|, r, p, |pre| + |EncodeResponse(r)|);
  }

  /** Where the pieces of a response frame lie in a stream that holds it after pre. */
  lemma FrameLayout(pre: seq<byte>, r: Response, rest: seq<byte>) returns (p: nat)
    requires Representable(r)
    ensures p == |pre| + |Format(LengthOf(r))| + 1
    ensures p + |PayloadOf(r)| == |pre| + |EncodeResponse(r)|
    ensures ReadLen(pre + EncodeResponse(r) + rest, |pre|) == (LengthOf(r), p)
    ensures p + |PayloadOf(r)| <= |pre + EncodeResponse(r) + rest|
    ensures (pre + EncodeResponse(r) + rest)[p..p + |PayloadOf(r)|] == PayloadOf(r)
  {
    var n, payload := LengthOf(r), PayloadOf(r);
    var t := Format(n);
    RegroupAfterByte(pre, t, SP, payload, rest);
    ReadLenFormat(pre, n, payload + rest);
    p := |pre| + |t| + 1;
    FlattenMiddle(pre, t, SP, payload, rest);
    MiddlePiece(pre + EncodeResponse(r) + rest, pre + t + [SP], payload, rest);
  }

  /**
   * Truncation: when the stream ends fewer than |n| bytes after a nonzero
   * length n, decoding reports an I/O error (Eof if nothing follows the
   * token, UnexpectedEof otherwise), never a partial value or message.
   */
  lemma DecodeTruncated(pre: seq<byte>, n: int, tail: seq<byte>)
    requires n != 0 && MinInt64 <= n <= MaxInt64
    requires |tail| < Magnitude(n)
    ensures Decode(pre + Format(n) + [SP] + tail, |pre|)
         == (IOError(if tail == [] then Eof else UnexpectedEof), |pre| + |Format(n)| + 1 + |tail|)
  {
    var s := pre + Format(n) + [SP] + tail;
    var p := |pre| + |Format(n)| + 1;
    ReadLenFormat(pre, n, tail);
    assert |s| == p + |tail|;
    assert p == |s| <==> tail == [];
    DecodeTruncatedAt(s, |pre|, n, p);
  }

  /** A stream with no space left yields Empty and is consumed to its end. */
  lemma DecodeNoSpace(s: seq<byte>, pos: nat)
    requires pos <= |s|
    requires forall j | pos <= j < |s| :: s[j] != SP
    ensures Decode(s, pos) == (Empty, |s|)
  {
  }

  /**
   * A token holding a byte that is neither white space, a digit nor a
   * sign yields Empty, and nothing after the token's space is consumed.
   */
  lemma DecodeNotANumber(s: seq<byte>, pos: nat, k: nat)
    requires pos <= k < |s|
    requires forall j | pos <= j <= k :: s[j] != SP
    requires !IsSpace(s[k]) && !IsDigit(s[k]) && s[k] != MINUS && s[k] != PLUS
    ensures Decode(s, pos) == (Empty, ReadLen(s, pos).1)
  {
    var c := ReadString(s, pos, SP);
    if c.err.None? {
      var tok := c.bytes;
      assert tok[k - pos] == s[k];
      var j := TrimSpaceKeeps(tok, k - pos);
      ParseRejects(TrimSpace(tok), j);
    }
  }

  /**
   * A length beyond the 64-bit range, above it or below it, is an Atoi
   * error, so it too yields Empty right after the token.
   */
  lemma DecodeOutOfRange(pre: seq<byte>, n: int, rest: seq<byte>)
    requires n < MinInt64 || n > MaxInt64
    ensures Decode(pre + Format(n) + [SP] + rest, |pre|) == (Empty, |pre| + |Format(n)| + 1)
  {
    FormatShape(n);
    ReadLenToken(pre, Format(n), rest);
    ParseOutOfRange(n);
  }

  /** The server writes the value xyz as "3 xyz". */
  lemma ValueFrame()
    ensures EncodeResponse(Value(Ascii("xyz"))) == Ascii("3 xyz")
  {
    assert Format(3) == [51];
  }

  /** "3 xyz" decodes to the value xyz, wherever it stands in the stream and whatever follows. */
  lemma ValueExample(pre: seq<byte>, rest: seq<byte>)
    ensures Decode(pre + Ascii("3 xyz") + rest, |pre|) == (Value(Ascii("xyz")), |pre| + 5)
  {
    ValueFrame();
    DecodeEncode(pre, Value(Ascii("xyz")), rest);
  }

  /** The server writes the error message gone as "-4 gone". */
  lemma FailureFrame()
    ensures EncodeResponse(Failure(Ascii("gone"))) == Ascii("-4 gone")
  {
    assert Format(-4) == [45, 52];
  }

  /** "-4 gone" decodes to the server error "gone", wherever it stands and whatever follows. */
  lemma FailureExample(pre: seq<byte>, rest: seq<byte>)
    ensures Decode(pre + Ascii("-4 gone") + rest, |pre|) == (Failure(Ascii("gone")), |pre| + 7)
  {
    FailureFrame();
    DecodeEncode(pre, Failure(Ascii("gone")), rest);
  }

  /** "5 ab" at the end of the stream is truncated: an I/O error, not the 2-byte value ab. */
  lemma TruncatedExample(pre: seq<byte>)
    ensures Decode(pre + Ascii("5 ab"), |pre|) == (IOError(UnexpectedEof), |pre| + 4)
  {
    assert Ascii("5 ab") == Format(5) + [SP] + Ascii("ab") by {
      assert Format(5) == [53];
    }
    assert pre + Ascii("5 ab") == pre + Format(5) + [SP] + Ascii("ab");
    DecodeTruncated(pre, 5, Ascii("ab"));
  }
}
