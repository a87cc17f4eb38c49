/** The length-prefixed frame every snapshot of the relay puts on the wire:
    `type (1 byte) ‖ length (2 bytes, big-endian) ‖ payload (length bytes)`.
    `packet0` builds it and `read0` parses it; the same code appears in proto/,
    protocol/, layer/ and packet/, so one model serves every tag set.

    A byte stream is the sequence of bytes still to be read. A single `Read`
    behaves like Go's `bytes.Reader`: it returns as many bytes as are available,
    up to the buffer size, and fails (with EOF) only when nothing is left. */
module Frame {
  import opened Wrappers
  import opened GoText

  /** Errors surfaced by the codec: the sentinel errors of proto/error.go, the two
      io errors `read0` can pass through, and failures of the JSON serialiser. */
  datatype Error =
    | ErrInvalidMsg
    | ErrMsgRead
    | ErrMsgLength
    | ErrInvalidToken
    | EOF
    | UnexpectedEOF
    | MarshalFailed
    | UnmarshalFailed

  const MaxPayload: nat := 65535
  const HeaderLen: nat := 3
  /** Tag 0x00, `Unknown` in every snapshot: what `read` reports after an error. */
  const Unknown: byte := 0x00

  function BigEndian16(hi: byte, lo: byte): nat {
    (hi as int) * 256 + (lo as int)
  }

  /** `packet0`: prepend the 3-byte header, or refuse a payload that does not fit
      in a 16-bit length. */
  function Packet0(typ: byte, payload: seq<byte>): (r: Result<seq<byte>, Error>)
    ensures r.Ok? <==> |payload| <= MaxPayload
    ensures r.Err? ==> r.error == ErrMsgLength
    ensures r.Ok? ==> |r.value| == HeaderLen + |payload|
    ensures r.Ok? ==> r.value[0] == typ && BigEndian16(r.value[1], r.value[2]) == |payload|
    ensures r.Ok? ==> r.value[HeaderLen..] == payload
  {
    if |payload| > MaxPayload then Err(ErrMsgLength)
    else
      var frame := [typ, (|payload| / 256) as byte, (|payload| % 256) as byte] + payload;
      assert frame[HeaderLen..] == payload;
      Ok(frame)
  }

  /** Outcome of one `read0`: the frame's tag and payload plus the unread rest of the
      stream, or the error. */
  datatype Decoded = Got(typ: byte, payload: seq<byte>, rest: seq<byte>) | Failed(err: Error)

  /** `io.ReadFull(r, make([]byte, n))`: all n bytes, EOF when nothing was there,
      UnexpectedEOF when only some were. */
  function ReadFull(s: seq<byte>, n: nat): (r: Result<seq<byte>, Error>)
    ensures r.Ok? <==> n <= |s|
    ensures r.Ok? ==> r.value == s[..n]
    ensures r.Err? ==> r.error == (if |s| == 0 then EOF else UnexpectedEOF)
  {
    if n <= |s| then Ok(s[..n])
    else if |s| == 0 then Err(EOF)
    else Err(UnexpectedEOF)
  }

  /** Decoding the payload once its length `l` is known. */
  function Body(typ: byte, l: nat, s: seq<byte>): (r: Decoded)
    ensures r.Got? ==> r.typ == typ && |r.payload| == l && s == r.payload + r.rest
  {
    match ReadFull(s, l)
    case Ok(payload) =>
      assert s == payload + s[l..];
      Got(typ, payload, s[l..])
    case Err(e) => Failed(e)
  }

  /** `read0` exactly as written: the two length bytes are fetched with ONE `r.Read`
      into a zeroed 2-byte buffer, so when only one byte is left the second length
      byte silently stays 0 and no error is raised. */
  function Read0AsWritten(s: seq<byte>): (r: Decoded)
    ensures |s| == 0 ==> r == Failed(EOF)
    ensures |s| == 1 ==> r == Failed(ErrMsgRead)
  {
    if |s| == 0 then Failed(EOF)
    else if |s| == 1 then Failed(ErrMsgRead)
    else if |s| == 2 then Body(s[0], BigEndian16(s[1], 0), [])
    else Body(s[0], BigEndian16(s[1], s[2]), s[3..])
  }

  /** `read0` as evidently intended: a length that cannot be read in full is
      `ErrMsgRead`. Whatever it accepts is exactly one well-formed frame followed by
      the rest of the stream, so a partial frame is never returned. */
  function Read0(s: seq<byte>): (r: Decoded)
    ensures |s| == 0 ==> r == Failed(EOF)
    ensures 1 <= |s| < HeaderLen ==> r == Failed(ErrMsgRead)
    ensures r.Got? ==> Packet0(r.typ, r.payload).Ok? && s == Packet0(r.typ, r.payload).value + r.rest
  {
    if |s| == 0 then Failed(EOF)
    else if |s| < HeaderLen then Failed(ErrMsgRead)
    else
      var r := Body(s[0], BigEndian16(s[1], s[2]), s[3..]);
      if r.Got? then
        assert BigEndian16(s[1], s[2]) <= MaxPayload;
        assert s == [s[0], s[1], s[2]] + s[3..];
        assert [s[0], s[1], s[2]] == Packet0(r.typ, r.payload).value[..HeaderLen];
        r
      else r
  }

  /** Round trip: a stream that starts with `packet0(typ, payload)` reads back as
      `(typ, payload)` and leaves exactly the bytes after the frame. */
  lemma FrameRoundTrip(typ: byte, payload: seq<byte>, tail: seq<byte>)
    requires |payload| <= MaxPayload
    ensures Read0(Packet0(typ, payload).value + tail) == Got(typ, payload, tail)
    ensures Read0AsWritten(Packet0(typ, payload).value + tail) == Got(typ, payload, tail)
  {
    var s := Packet0(typ, payload).value + tail;
    assert s[3..] == payload + tail;
    assert (payload + tail)[..|payload|] == payload;
    assert (payload + tail)[|payload|..] == tail;
  }

  /** A stream cut anywhere inside a frame (header or payload) is always an error. */
  lemma TruncatedFrameFails(typ: byte, payload: seq<byte>, k: nat)
    requires |payload| <= MaxPayload
    requires k < HeaderLen + |payload|
    ensures Read0(Packet0(typ, payload).value[..k]).Failed?
  {
    var frame := Packet0(typ, payload).value;
    var s := frame[..k];
    if k >= HeaderLen {
      assert BigEndian16(s[1], s[2]) == |payload|;
      assert |s[3..]| < |payload|;
    }
  }

  /** The two readers differ only on a two-byte stream, where the as-written one
      takes the missing second length byte to be zero. */
  lemma AsWrittenAgreesOffTwoBytes(s: seq<byte>)
    requires |s| != 2
    ensures Read0AsWritten(s) == Read0(s)
  {
  }

  /** The discrepancy, for every frame with a payload under 256 bytes: its first two
      bytes alone decode, as written, to a complete frame with an empty payload,
      although the stream ended inside the length field. */
  lemma ShortLengthReadAccepted(typ: byte, payload: seq<byte>)
    requires |payload| < 256
    ensures Read0AsWritten(Packet0(typ, payload).value[..2]) == Got(typ, [], [])
    ensures Read0(Packet0(typ, payload).value[..2]) == Failed(ErrMsgRead)
  {
    var prefix := Packet0(typ, payload).value[..2];
    assert prefix == [typ, 0];
  }

  /** What `read` / `readMsg` / `ReadMsg` hand to their callers: the tag and payload,
      or, on any error, tag `Unknown` with a nil payload next to the error. */
  datatype Packet = Packet(typ: byte, payload: Option<seq<byte>>, err: Option<Error>, rest: seq<byte>)

  /** `read` over `read0` as written, which is what every handler calls: apart from
      one well-formed frame, the only thing it accepts is a two-byte stream `[t, 0]`,
      read as tag `t` with an empty payload. */
  function Read(s: seq<byte>): (r: Packet)
    ensures r.err.Some? <==> Read0AsWritten(s).Failed?
    ensures r.err.Some? ==> r.typ == Unknown && r.payload == None && r.err.value == Read0AsWritten(s).err
    ensures r.err.None? ==>
              r.payload.Some? &&
              ((Packet0(r.typ, r.payload.value).Ok? && s == Packet0(r.typ, r.payload.value).value + r.rest)
               || (s == [r.typ, 0] && r.payload.value == [] && r.rest == []))
  {
    match Read0AsWritten(s)
    case Got(typ, payload, rest) => Packet(typ, Some(payload), None, rest)
    case Failed(e) => Packet(Unknown, None, Some(e), [])
  }

  /** Every frame round-trips through `Read`, and the short stream `[t, 0]` is taken
      for a frame although its length field was cut. */
  lemma ReadFrameAndShortStream(typ: byte, payload: seq<byte>, tail: seq<byte>)
    requires |payload| <= MaxPayload
    ensures Read(Packet0(typ, payload).value + tail) == Packet(typ, Some(payload), None, tail)
    ensures Read([typ, 0]) == Packet(typ, Some([]), None, [])
  {
    FrameRoundTrip(typ, payload, tail);
    assert Read0AsWritten([typ, 0]) == Got(typ, [], []);
  }
}
