# DistributedCacheClient wire protocol, in Dafny

This project models the command-line client of a key-value cache
server (jikefan/DistributedCacheClient, a single Go file, `main.go`). The
client sends one request over one TCP connection and reads one response.

- **Request frames.** A get is `G<klen> <key>` and a del is
  `D<klen> <key>`. A set is `S<klen> <vlen> <key><value>`. Lengths are in
  bytes and are written with `%d`.
- **Response frames.** Each response is a signed decimal length followed
  by a space.
  - A length of 0 carries nothing.
  - A positive length n is followed by n bytes of value.
  - A negative length -n is followed by n bytes of server error message.
- **`Run`** dispatches on the command name. It sends the request frame,
  reads the response frame, and stores the result in the command record.

The modules follow the program's layers:

- `Bytes` holds bytes, ASCII white space and `strings.TrimSpace`.
- `SeqFacts` holds small lemmas about concatenating and slicing
  sequences, used by the framing proofs.
- `Stream` holds the two reads the client makes on its `bufio.Reader`:
  `ReadString(' ')` and `io.ReadFull`. Each works over a finite byte
  stream and a cursor.
- `Decimal` holds `%d` formatting and `strconv.Atoi`.
- `Encoder` holds the three request encoders. It also holds
  `ParseRequest`, a reference parser for the server's side of the same
  format. The encoders are proved against it in both directions.
- `Decoder` holds `readLen` and `recvResponse` as functions that thread
  the cursor (`ReadLen`, `Decode`). It also holds `EncodeResponse`, the
  server's side of the response format. `Decode` is proved against it:
  the round trip, truncation and the lenient error paths.
- `Client` holds the `Cmd` record and the TCP connection as classes.
  - A `Cmd` has `name`, `key`, `value` and `error` fields.
  - A `TcpClient` has an `inbound` stream, its read cursor `pos`, and
    the `outbound` bytes written so far.
  - The `Run` method updates the `Cmd` fields in place.

Two behaviours of the code are worth stating outright:

- **The set frame.** The format string `S%d %d %s%s` writes a space
  after the value length too, so storing `v` under `k` writes
  `S1 1 kv` (`Encoder.SetExample`); only key and value are written back
  to back.
- **A malformed length token is not an error.** When the stream ends
  before a space, or the token is not a number, `readLen` logs the
  problem and returns 0, so the response reads as Empty
  (`Decoder.DecodeNoSpace`, `Decoder.DecodeNotANumber`,
  `Decoder.DecodeOutOfRange`).

A Go `int` is taken to be 64 bits wide. `Atoi` therefore rejects a length
outside [-2^63, 2^63-1], and such a length also decodes to an empty
response. White space other than the space itself around the number
(tabs, carriage returns) is trimmed away before `Atoi`
(`Decoder.ReadLenPadded`).

## Model

| member | source | states |
|---|---|---|
| Bytes.TrimSpace | main.go:60 | strings.TrimSpace on ASCII white space; TrimLeftShape and TrimRightShape pin it down as removing exactly the maximal white-space prefix and suffix |
| Bytes.TrimLeftBeforeToken | main.go:60 | white space before a token that does not start with white space is removed and the token is kept |
| Bytes.TrimLeftShape | main.go:60 | TrimSpace's left half removes exactly the maximal prefix of white space: what is left is a suffix whose first byte is not white space |
| Bytes.TrimRightShape | main.go:60 | TrimSpace's right half removes exactly the maximal suffix of white space: what is left is a prefix whose last byte is not white space |
| Bytes.TrimSpaceShape | main.go:60 | the trimmed token is no longer than the input, and neither starts nor ends with white space |
| Bytes.TrimSpaceKeeps | main.go:60 | a byte of the token that is not white space survives the trim, at a known index |
| Bytes.TrimRightAfterToken | main.go:60 | trimming a token followed only by white space gives back the token |
| Bytes.TrimSpaceOfToken | main.go:55-60 | the token ReadString returns (digits and its space) trims to the digits alone |
| Stream.IndexOf | main.go:55 | the first position at or after the cursor that holds the byte, or none if it does not occur there |
| Stream.ReadString | main.go:55 | reads the bytes from the cursor on, and on success they end with the delimiter; on error it has read everything left and reports Eof |
| Stream.ReadStringShape | main.go:55 | ReadString reads no delimiter before the one it stops at, and it fails exactly when no delimiter is left after the cursor |
| Stream.ReadFull | main.go:74-88 | reads exactly n bytes when n remain; otherwise reads all that is left and reports an error: Eof exactly when nothing was left, UnexpectedEof after a partial read |
| Stream.ReadStringAt | main.go:55 | ReadString stops at the first space after the cursor |
| Stream.ReadStringToken | main.go:55 | a token without a space, followed by a space, is read as the token and its space, whatever precedes or follows |
| Decimal.Digits | main.go:38-52 | the digits %d writes for a natural number; DigitsShape, DigitsRoundTrip and DigitsCanonical pin them down as the unique canonical decimal of the number |
| Decimal.Format | main.go:38-52 | %d of an int: a minus sign for negatives, then the digits; FormatShape, ParseFormat and ParseOutOfRange pin it down against Atoi |
| Decimal.DigitsShape | main.go:38-52 | %d of a natural number is a nonempty string of digits with no leading zero, one digit exactly below 10 |
| Decimal.FormatShape | main.go:38-52 | %d output is nonempty, has no white space, starts with a minus sign exactly for negatives and never with a plus |
| Decimal.ParseInt | main.go:60 | Atoi accepts only an optional sign followed by at least one digit (a lone sign is rejected), and only values in the 64-bit range; a negative result comes from a leading minus |
| Decimal.DigitsRoundTrip | main.go:38-60 | the digits %d writes for n denote n |
| Decimal.LeadingDigitPositive | main.go:60 | a digit string that does not start with zero denotes a positive number |
| Decimal.DigitsCanonical | main.go:60 | formatting the value of a digit string without a leading zero gives back that string |
| Decimal.ParseFormat | main.go:60 | Atoi reads back exactly what %d writes, for every 64-bit integer |
| Decimal.ParseOutOfRange | main.go:60 | what %d writes for a number above or below the 64-bit range is an Atoi error |
| Decimal.ParseDigits | main.go:60 | Atoi of a bare digit string is its value when that is in the 64-bit range, and an error otherwise |
| Decimal.ParseLenient | main.go:60 | Atoi also accepts a plus sign and leading zeros, with the same value |
| Decimal.LeadingZeros | main.go:60 | leading zeros do not change the value of a digit string |
| Decimal.ZerosValue | main.go:60 | a string of zeros denotes 0 |
| Decimal.ParseRejects | main.go:60-64 | a byte that is neither a digit nor a sign anywhere in the token makes Atoi fail |
| Encoder.EncodeGet | main.go:38-41 | sendGet's frame G, key length, space, key; ParseEncode and EncodeParse pin it down as the frame the server reads back as Get of the same key, one to one |
| Encoder.EncodeSet | main.go:43-47 | sendSet's frame S, key length, space, value length, space, key and value back to back; ParseEncode and EncodeParse pin it down as the frame the server reads back as Set of the same key and value |
| Encoder.EncodeDel | main.go:49-52 | sendDel's frame D, key length, space, key; ParseEncode and EncodeParse pin it down as the frame the server reads back as Del of the same key |
| Encoder.ReadCount | main.go:38-52 | the server's reading of a length: what it accepts is exactly %d of the length, a space, and the rest |
| Encoder.ParseKey | main.go:38-52 | the server's reading of a get or del body: what it accepts is exactly the key length, a space, the key and the rest |
| Encoder.ParseKeyValue | main.go:43-47 | the server's reading of a set body: the two lengths each followed by a space, then key and value back to back, and the rest |
| Encoder.ReadCountFormat | main.go:38-52 | the server reads back every length the client writes, and exactly the bytes after its space remain |
| Encoder.ParseEncodeKey | main.go:38-52 | a get or del frame reads back as the same operation on the same key, whatever bytes the key holds, and what follows is left untouched |
| Encoder.ParseKeyValueFormat | main.go:43-47 | after the tag of a set frame, the server reads back both lengths, then exactly the key and the value, and the rest is left |
| Encoder.ParseEncodeSet | main.go:43-47 | a set frame reads back as the same key and value, and what follows is left untouched |
| Encoder.ParseEncode | main.go:38-52 | every request frame reads back as the request that produced it, followed by the untouched rest |
| Encoder.EncodeParse | main.go:38-52 | conversely, everything the server accepts is the frame of the request it reads, followed by the rest: frames and requests correspond one to one |
| Encoder.GetDelDifferInTagOnly | main.go:38-52 | the get and del frames of a key have the same length, start with G and D, and agree after the first byte |
| Encoder.SetExample | main.go:43-47 | set of k and v is written as S1 1 kv |
| Encoder.GetExample | main.go:38-41 | get of abc is written as G3 abc |
| Decoder.ReadLen | main.go:54-66 | the cursor never moves back or past the end; the length is always in the 64-bit range; a nonzero length means a space was read, and the cursor stands just after it |
| Decoder.ReadLenShape | main.go:55-59 | a stream with no space left gives 0 and is consumed to its end; otherwise the cursor stops just after the first space |
| Decoder.Decode | main.go:68-91 | Empty exactly for length 0, with nothing read past the token; for n > 0 a Value of exactly the next n bytes; for n < 0 a Failure of exactly the next -n bytes; an I/O error exactly when fewer than the magnitude of n bytes remain, and then the cursor is at the end of the stream and the error is Eof exactly when nothing followed the token |
| Decoder.DecodeFrameAt | main.go:74-90 | once readLen has given the length of a nonempty response, and its payload follows in full, the result is that response, and the cursor ends after the payload |
| Decoder.DecodeTruncatedAt | main.go:74-88 | once readLen has given a nonzero length with fewer bytes after it, the result is an I/O error and the cursor is at the end |
| Decoder.ReadLenToken | main.go:54-66 | readLen of a token without white space, followed by a space, is Atoi of the token (0 if that fails), and the cursor ends just after the space |
| Decoder.ReadLenPadded | main.go:54-66 | tabs, carriage returns and other white space around the number, before its space, are trimmed away: readLen gives Atoi of the bare token, and the cursor ends after the space |
| Decoder.ReadLenFormat | main.go:54-66 | readLen reads back every 64-bit length %d writes and stops right after its space |
| Decoder.FrameLayout | main.go:68-91 | in a stream holding a response frame, readLen gives the frame's length, and the payload lies right after the token |
| Decoder.DecodeEncode | main.go:68-91 | round trip: the frame the server writes for any representable response decodes to that response, wherever it starts and whatever follows, and the cursor ends right after it |
| Decoder.DecodeEncodeEmpty | main.go:69-72 | a 0 frame decodes to Empty and nothing after its space is read |
| Decoder.DecodeEncodePayload | main.go:74-90 | a value or error frame decodes to exactly its payload, and the cursor ends right after it |
| Decoder.DecodeTruncated | main.go:74-88 | fewer than the magnitude of n bytes after a nonzero length give an I/O error, never a partial value or message: Eof if nothing follows the token, UnexpectedEof otherwise |
| Decoder.DecodeNoSpace | main.go:54-72 | a stream with no space left decodes to Empty and is consumed to its end |
| Decoder.DecodeNotANumber | main.go:60-72 | a token holding a byte that is not white space, a digit or a sign decodes to Empty, and the cursor stops after the token's space |
| Decoder.DecodeOutOfRange | main.go:60-72 | a length above or below the 64-bit range decodes to Empty right after its space |
| Decoder.ValueFrame | main.go:84-90 | the frame of the value xyz is 3 xyz |
| Decoder.ValueExample | main.go:84-90 | 3 xyz decodes to the value xyz and consumes exactly its 5 bytes, wherever it stands and whatever follows |
| Decoder.FailureFrame | main.go:74-82 | the frame of the server error gone is -4 gone |
| Decoder.FailureExample | main.go:74-82 | -4 gone decodes to the server error gone and consumes exactly its 7 bytes, wherever it stands and whatever follows |
| Decoder.TruncatedExample | main.go:84-88 | 5 ab at the end of the stream decodes to UnexpectedEof, not to the 2-byte value ab |
| Client.ValueOf | main.go:68-91 | the value string recvResponse returns: the data of a value frame, and empty otherwise; RecvEncoded ties it to the frame the server writes |
| Client.ErrorOf | main.go:68-91 | the error recvResponse returns: none for an empty or value frame, the server's message for a negative length, the reader's error for a truncated payload; RecvEncoded ties it to the frame the server writes |
| Client.Cmd.constructor | main.go:15-20 | a command holds the given name, key and value and no error |
| Client.TcpClient.constructor | main.go:119 | a new connection has read nothing and written nothing |
| Client.TcpClient.SendGet | main.go:38-41 | the get frame of the key is appended to what was written, and nothing else changes |
| Client.TcpClient.SendSet | main.go:43-47 | the set frame of the key and value is appended to what was written, and nothing else changes |
| Client.TcpClient.SendDel | main.go:49-52 | the del frame of the key is appended to what was written, and nothing else changes |
| Client.TcpClient.RecvResponse | main.go:68-91 | returns the value and the error of the frame Decode reads at the cursor (the value is empty unless the frame is a value), and moves the cursor exactly past that frame, never backwards |
| Client.TcpClient.Run | main.go:93-112 | get writes its frame, then stores both the decoded value and the error; set and del write their frames and store only the error, leaving the value as it was; any other name panics with "unknown cmd name " and the name, having written nothing, read nothing and changed nothing |
| Client.RecvEncoded | main.go:68-91 | when the server has written the frame of a representable response, recvResponse returns its value with no error, or an empty value with its message as the error, or neither |

## Left out

- `New` and `newTCPClient` (main.go:26-31, main.go:114-120) are left out. This is connection plumbing: the client-type switch, `net.Dial` and the hard-coded port. A connection is modelled by its byte streams.
- The `Client` interface (main.go:22-24) is left out. It has one implementation, `TcpClient`.
- `main` (main.go:122-137) is left out. It is flag parsing and printing; only its building of the `Cmd` record is modelled, by the `Cmd` constructor.
- The `log.Println` calls in `readLen` (main.go:57, main.go:62) are left out, because they only print diagnostics.
- Errors from `c.Write` are left out, because the code discards them. Sending is appending to `outbound`.
- The server's replies are a fixed `inbound` stream given up front, so the model does not capture how a real server's replies depend on the requests it receives. This is I/O.
- Blocking is left out: a read that waits forever is modelled as the stream ending there.
- Bytes.TrimSpaceShape: `strings.TrimSpace` also trims Unicode white space (U+0085, U+00A0 and others); the model trims ASCII white space only (tab, newline, vertical tab, form feed, carriage return, space). No Unicode decoding is modelled.
- The internals of `bufio` buffering are left out. The reader is a cursor into the whole inbound stream.
- Allocation failures in `make([]byte, n)` when n is huge (and the wrap of `-vlen` for the length -2^63) are left out, because they are runtime limits, not protocol behaviour. The model reads as if the buffer could be allocated: a length beyond the stream gives an I/O error.
- Idempotence of decoding holds by construction: `Decode` is a function of the stream and the cursor.
