/**
 * The request frames the client writes: G<klen> <key>, S<klen> <vlen>
 * <key><value> and D<klen> <key>, lengths in bytes written with %d.
 * ParseRequest is the server's side of the same format, the partner
 * against which the encoders are proved.
 */
module Encoder {
  import opened Wrappers
  import opened Bytes
  import opened SeqFacts
  import opened Stream
  import opened Decimal

  const TAG_GET: byte := 71  // 'G'
  const TAG_SET: byte := 83  // 'S'
  const TAG_DEL: byte := 68  // 'D'

  /** The three operations of the protocol. */
  datatype Request = Get(key: seq<byte>) | Set(key: seq<byte>, value: seq<byte>) | Del(key: seq<byte>)

  /** sendGet: G, the key length, a space, the key. */
  function EncodeGet(key: seq<byte>): seq<byte>
  {
    [TAG_GET] + Format(|key|) + [SP] + key
  }

  /** sendSet: S, key length, space, value length, space, then key and value with nothing between. */
  function EncodeSet(key: seq<byte>, value: seq<byte>): seq<byte>
  {
    [TAG_SET] + Format(|key|) + [SP] + Format(|value|) + [SP] + key + value
  }

  /** sendDel: D, the key length, a space, the key. */
  function EncodeDel(key: seq<byte>): seq<byte>
  {
    [TAG_DEL] + Format(|key|) + [SP] + key
  }

  function Encode(req: Request): seq<byte> {
    match req
    case Get(key) => EncodeGet(key)
    case Set(key, value) => EncodeSet(key, value)
    case Del(key) => EncodeDel(key)
  }

  /**
   * A length as the server reads it from the front of s: a canonical
   * decimal (digits, no leading zero) ended by a space. Returns the
   * length and the bytes after the space.
   */
  function ReadCount(s: seq<byte>): (r: Option<(nat, seq<byte>)>)
    ensures r.Some? ==> s == Format(r.value.0) + [SP] + r.value.1
  {
    var c := ReadString(s, 0, SP);
    if c.err.Some? then None
    else
      var tok := s[..c.next - 1];
      if |tok| > 0 && AllDigits(tok) && (|tok| == 1 || tok[0] != ZERO) then
        DigitsCanonical(tok);
        SplitAroundIndex(s, c.next);
        Some((DigitsValue(tok), s[c.next..]))
      else None
  }

  /** After the tag: <klen> <key>; the key and the bytes after it. */
  function ParseKey(s: seq<byte>): (r: Option<(seq<byte>, seq<byte>)>)
    ensures r.Some? ==> s == Format(|r.value.0|) + [SP] + r.value.0 + r.value.1
  {
    match ReadCount(s)
    case None => None
    case Some((klen, t)) =>
      if klen <= |t| then
        SplitInTwo(t, klen);
        FlattenRight4(Format(klen), [SP], t[..klen], t[klen..]);
        Some((t[..klen], t[klen..]))
      else None
  }

  /** After the tag: <klen> <vlen> <key><value>; key, value and the bytes after them. */
  function ParseKeyValue(s: seq<byte>): (r: Option<(seq<byte>, seq<byte>, seq<byte>)>)
    ensures r.Some? ==> var (key, value, rest) := r.value;
      s == Format(|key|) + [SP] + Format(|value|) + [SP] + key + value + rest
  {
    match ReadCount(s)
    case None => None
    case Some((klen, t)) =>
      match ReadCount(t)
      case None => None
      case Some((vlen, u)) =>
        if klen + vlen <= |u| then
          var key, value, rest := u[..klen], u[klen..klen + vlen], u[klen + vlen..];
          SplitInThree(u, klen, klen + vlen);
          FlattenRight7(Format(klen), [SP], Format(vlen), [SP], key, value, rest);
          Some((key, value, rest))
        else None
  }

  /**
   * The server's parse of one request frame at the front of s: the
   * request and the bytes after its frame.
   */
  function ParseRequest(s: seq<byte>): Option<(Request, seq<byte>)> {
    if |s| == 0 then None
    else if s[0] == TAG_GET || s[0] == TAG_DEL then
      match ParseKey(s[1..])
      case None => None
      case Some((key, rest)) => Some((if s[0] == TAG_GET then Get(key) else Del(key), rest))
    else if s[0] == TAG_SET then
      match ParseKeyValue(s[1..])
      case None => None
      case Some((key, value, rest)) => Some((Set(key, value), rest))
    else None
  }

  /** The server reads back a length the client wrote. */
  lemma ReadCountFormat(n: nat, rest: seq<byte>)
    ensures ReadCount(Format(n) + [SP] + rest) == Some((n, rest))
  {
    var t := Format(n);
    var s := t + [SP] + rest;
    FormatShape(n);
    DigitsShape(n);
    PiecesAroundByte(t, SP, rest);
    ReadStringAt(s, 0, |t|, SP);
    DigitsRoundTrip(n);
  }

  /** A Get or Del frame reads back as its key and leaves what follows it. */
  lemma ParseEncodeKey(tag: byte, key: seq<byte>, rest: seq<byte>)
    requires tag == TAG_GET || tag == TAG_DEL
    ensures ParseRequest([tag] + Format(|key|) + [SP] + key + rest)
         == Some((if tag == TAG_GET then Get(key) else Del(key), rest))
  {
    var t := key + rest;
    DropHead5(tag, Format(|key|), [SP], key, rest);
    ReadCountFormat(|key|, t);
    assert t[..|key|] == key && t[|key|..] == rest;
  }

  /** A Set frame reads back as its key and value and leaves what follows it. */
  lemma ParseEncodeSet(key: seq<byte>, value: seq<byte>, rest: seq<byte>)
    ensures ParseRequest(EncodeSet(key, value) + rest) == Some((Set(key, value), rest))
  {
    var t := Format(|value|) + [SP] + (key + value + rest);
    DropHead8(TAG_SET, Format(|key|), [SP], Format(|value|), [SP], key, value, rest);
    ParseKeyValueFormat(key, value, rest, t);
  }

  /** The part of a Set frame after its tag reads back as its key and value. */
  lemma ParseKeyValueFormat(key: seq<byte>, value: seq<byte>, rest: seq<byte>, t: seq<byte>)
    requires t == Format(|value|) + [SP] + (key + value + rest)
    ensures ParseKeyValue(Format(|key|) + [SP] + t) == Some((key, value, rest))
  {
    var u := key + value + rest;
    ReadCountFormat(|key|, t);
    ReadCountFormat(|value|, u);
    PiecesOfThree(key, value, rest);
  }

  /**
   * Every request frame reads back as the request that produced it and
   * leaves the bytes after it untouched, whatever bytes (spaces, digits)
   * the key and value hold.
   */
  lemma ParseEncode(req: Request, rest: seq<byte>)
    ensures ParseRequest(Encode(req) + rest) == Some((req, rest))
  {
    match req
    case Get(key) => ParseEncodeKey(TAG_GET, key, rest);
    case Del(key) => ParseEncodeKey(TAG_DEL, key, rest);
    case Set(key, value) => ParseEncodeSet(key, value, rest);
  }

  /**
   * Conversely, whatever the server accepts is the encoding of the
   * request it reads followed by the rest: frames and requests
   * correspond one to one.
   */
  lemma EncodeParse(s: seq<byte>)
    requires ParseRequest(s).Some?
    ensures s == Encode(ParseRequest(s).value.0) + ParseRequest(s).value.1
  {
    HeadAndTail(s);
    if s[0] == TAG_GET || s[0] == TAG_DEL {
      var (key, rest) := ParseKey(s[1..]).value;
      FlattenAfterHead4(s[0], Format(|key|), [SP], key, rest);
    } else {
      var (key, value, rest) := ParseKeyValue(s[1..]).value;
      FlattenAfterHead7(TAG_SET, Format(|key|), [SP], Format(|value|), [SP], key, value, rest);
    }
  }

  /** The Get and Del frames of a key differ in their first byte only. */
  lemma GetDelDifferInTagOnly(key: seq<byte>)
    ensures |EncodeGet(key)| == |EncodeDel(key)|
    ensures EncodeGet(key)[0] == TAG_GET && EncodeDel(key)[0] == TAG_DEL
    ensures EncodeGet(key)[1..] == EncodeDel(key)[1..]
  {
  }

  /**
   * Set("k", "v") is written as S1 1 kv: the second length is followed
   * by a space too, and only key and value are written back to back.
   */
  lemma SetExample()
    ensures EncodeSet(Ascii("k"), Ascii("v")) == Ascii("S1 1 kv")
  {
    var frame := Ascii("S1 1 kv");
    assert Ascii("k") == [107] && Ascii("v") == [118];
    assert Format(1) == [49];
    assert frame == [83, 49, 32, 49, 32, 107, 118] by {
      assert |frame| == 7;
    }
  }

  /** Get("abc") is written as G3 abc. */
  lemma GetExample()
    ensures EncodeGet(Ascii("abc")) == Ascii("G3 abc")
  {
    var frame := Ascii("G3 abc");
    assert Ascii("abc") == [97, 98, 99] by {
      assert |Ascii("abc")| == 3;
    }
    assert Format(3) == [51];
    assert frame == [71, 51, 32, 97, 98, 99] by {
      assert |frame| == 6;
    }
  }
}
