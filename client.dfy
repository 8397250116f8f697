/**
 * The TCP client: a command record that Run fills in, and a connection
 * that writes request frames to the server and reads response frames
 * back. The connection is modelled by the bytes the client has written
 * (outbound) and by the whole inbound stream together with the cursor of
 * the buffered reader over it (inbound, pos).
 */
module Client {
  import opened Wrappers
  import opened Bytes
  import opened Stream
  import opened Encoder
  import opened Decoder

  /** The error a command ends with: an I/O error of the reader, or the server's message. */
  datatype Err = IoFailure(kind: IoErr) | ServerError(msg: seq<byte>)

  /** How Run ends: it returns, or it panics with a message. */
  datatype Outcome = Returned | Panicked(msg: seq<byte>)

  /** The command names Run knows: "get", "set" and "del". */
  const GET: seq<byte> := [103, 101, 116]
  const SET: seq<byte> := [115, 101, 116]
  const DEL: seq<byte> := [100, 101, 108]

  /** "unknown cmd name ", the text of Run's panic before the name. */
  const UNKNOWN_CMD: seq<byte> :=
    [117, 110, 107, 110, 111, 119, 110, 32, 99, 109, 100, 32, 110, 97, 109, 101, 32]

  /**
   * The value string recvResponse returns for a decoded frame: the data
   * of a value and nothing otherwise.
   */
  function ValueOf(r: Response): seq<byte> {
    if r.Value? then r.data else []
  }

  /**
   * The error recvResponse returns for a decoded frame: none for a value
   * or an empty frame, the server's message for a negative length, and
   * the reader's error for a truncated payload.
   */
  function ErrorOf(r: Response): Option<Err> {
    match r
    case Empty => None
    case Value(_) => None
    case Failure(msg) => Some(ServerError(msg))
    case IOError(err) => Some(IoFailure(err))
  }

  /** Cmd: the command's name, key and value, and the error it ended with. */
  class Cmd {
    var name: seq<byte>
    var key: seq<byte>
    var value: seq<byte>
    var error: Option<Err>

    /** A command as the command line builds it: no error yet. */
    constructor (name: seq<byte>, key: seq<byte>, value: seq<byte>)
      ensures this.name == name && this.key == key && this.value == value
      ensures error == None
    {
      this.name := name;
      this.key := key;
      this.value := value;
      error := None;
    }
  }

  /** tcpClient: one connection to the cache server. */
  class TcpClient {
    /** Every byte the server sends on this connection. */
    var inbound: seq<byte>
    /** How much of inbound the buffered reader has consumed. */
    var pos: nat
    /** Every byte the client has written to the connection. */
    var outbound: seq<byte>

    ghost predicate Valid()
      reads this
    {
      pos <= |inbound|
    }

    /** A fresh connection over which the server will send inbound. */
    constructor (inbound: seq<byte>)
      ensures Valid()
      ensures this.inbound == inbound && pos == 0 && outbound == []
    {
      this.inbound := inbound;
      pos := 0;
      outbound := [];
    }

    /** sendGet: writes the get frame for key. */
    method SendGet(key: seq<byte>)
      modifies this`outbound
      ensures outbound == old(outbound) + EncodeGet(key)
    {
      outbound := outbound + EncodeGet(key);
    }

    /** sendSet: writes the set frame for key and value. */
    method SendSet(key: seq<byte>, value: seq<byte>)
      modifies this`outbound
      ensures outbound == old(outbound) + EncodeSet(key, value)
    {
      outbound := outbound + EncodeSet(key, value);
    }

    /** sendDel: writes the del frame for key. */
    method SendDel(key: seq<byte>)
      modifies this`outbound
      ensures outbound == old(outbound) + EncodeDel(key)
    {
      outbound := outbound + EncodeDel(key);
    }

    /**
     * recvResponse: reads one response frame at the cursor and returns its
     * value and its error; the cursor moves past what was read, and never
     * back.
     */
    method RecvResponse() returns (value: seq<byte>, err: Option<Err>)
      requires Valid()
      modifies this`pos
      ensures Valid() && old(pos) <= pos
      ensures var (r, next) := Decode(inbound, old(pos));
        value == ValueOf(r) && err == ErrorOf(r) && pos == next
    {
      var (vlen, p) := ReadLen(inbound, pos);
      if vlen == 0 {
        pos := p;
        return [], None;
      }
      if vlen < 0 {
        var c := ReadFull(inbound, p, -vlen);
        pos := c.next;
        if c.err.Some? {
          return [], Some(IoFailure(c.err.value));
        }
        return [], Some(ServerError(c.bytes));
      }
      var c := ReadFull(inbound, p, vlen);
      pos := c.next;
      if c.err.Some? {
        return [], Some(IoFailure(c.err.value));
      }
      return c.bytes, None;
    }

    /**
     * Run: sends the request cmd names and stores the response in cmd.
     * A get stores both the value and the error; a set or a del stores
     * only the error and leaves the value as it was; any other name
     * panics before anything is sent or read.
     */
    method Run(cmd: Cmd) returns (outcome: Outcome)
      requires Valid()
      modifies this`outbound, this`pos, cmd`value, cmd`error
      ensures Valid() && old(pos) <= pos
      ensures var (r, next) := Decode(inbound, old(pos));
        if cmd.name == GET then
          && outcome == Returned
          && outbound == old(outbound) + EncodeGet(cmd.key)
          && pos == next && cmd.value == ValueOf(r) && cmd.error == ErrorOf(r)
        else if cmd.name == SET then
          && outcome == Returned
          && outbound == old(outbound) + EncodeSet(cmd.key, cmd.value)
          && pos == next && cmd.value == old(cmd.value) && cmd.error == ErrorOf(r)
        else if cmd.name == DEL then
          && outcome == Returned
          && outbound == old(outbound) + EncodeDel(cmd.key)
          && pos == next && cmd.value == old(cmd.value) && cmd.error == ErrorOf(r)
        else
          && outcome == Panicked(UNKNOWN_CMD + cmd.name)
          && outbound == old(outbound) && pos == old(pos)
          && cmd.value == old(cmd.value) && cmd.error == old(cmd.error)
    {
      if cmd.name == GET {
        SendGet(cmd.key);
        cmd.value, cmd.error := RecvResponse();
        return Returned;
      }
      if cmd.name == SET {
        SendSet(cmd.key, cmd.value);
        var _, e := RecvResponse();
        cmd.error := e;
        return Returned;
      }
      if cmd.name == DEL {
        SendDel(cmd.key);
        var _, e := RecvResponse();
        cmd.error := e;
        return Returned;
      }
      return Panicked(UNKNOWN_CMD + cmd.name);
    }
  }

  /**
   * What recvResponse returns when the server has written the frame of a
   * representable response: the value exactly for a value, the server's
   * message as the error exactly for a failure, and for an empty frame
   * neither a value nor an error.
   */
  lemma RecvEncoded(pre: seq<byte>, r: Response, rest: seq<byte>)
    requires Representable(r)
    ensures var (d, _) := Decode(pre + EncodeResponse(r) + rest, |pre|);
      && (r.Value? ==> ValueOf(d) == r.data && ErrorOf(d) == None)
      && (r.Failure? ==> ValueOf(d) == [] && ErrorOf(d) == Some(ServerError(r.msg)))
      && (r.Empty? ==> ValueOf(d) == [] && ErrorOf(d) == None)
  {
    DecodeEncode(pre, r, rest);
  }
}
