/** Frames on a pipe: one JSON value per line. JSON itself is a parameter, a codec whose output
    holds no raw line break (section 7 of RFC 8259). */
module Ipc {
  import opened Bytes

  const PROTOCOL_VERSION := 2
  const MAX_FRAME_SIZE := 8 * 1024 * 1024
  const LF: byte := 10
  const CR: byte := 13
  // "copper-addon.ndjson"
  const WIRE_PROTOCOL_ID: seq<byte> :=
    [99, 111, 112, 112, 101, 114, 45, 97, 100, 100, 111, 110, 46, 110, 100, 106, 115, 111, 110]

  datatype WireError = WireError(code: seq<byte>, message: seq<byte>)

  datatype WireFrame<V> =
    | Hello(version: nat, protocol: seq<byte>, supportedVersions: seq<nat>, runtime: seq<byte>, capabilities: seq<seq<byte>>)
    | Request(version: nat, id: seq<byte>, methodName: seq<byte>, params: V)
    | Response(version: nat, id: seq<byte>, result: Option<V>, error: Option<WireError>)
    | Notification(version: nat, methodName: seq<byte>, params: V)
    | Event(version: nat, event: seq<byte>, payload: V)
    | Fatal(version: nat, failure: WireError)

  datatype IpcError = UnsupportedVersion(received: nat) | InvalidFrame | FrameTooLarge(size: nat) | BadJson | UnexpectedEof | Io

  datatype Result<+T> = Ok(value: T) | Err(error: IpcError)

  /** `toVec` and `fromSlice` of the JSON library; `isNull` picks out the JSON null. */
  datatype Json<!V> = Json(toVec: WireFrame<V> -> seq<byte>, fromSlice: seq<byte> -> Option<WireFrame<V>>, isNull: V -> bool)

  // ---- validation, encoding, decoding ----

  function Invalid<V>(frame: WireFrame<V>): Option<IpcError>
  {
    if frame.version != PROTOCOL_VERSION then Some(UnsupportedVersion(frame.version))
    else if frame.Response? && frame.result.Some? == frame.error.Some? then Some(InvalidFrame)
    else if frame.Hello? && frame.protocol != WIRE_PROTOCOL_ID then Some(InvalidFrame)
    else None
  }

  function EncodeLine<V>(json: Json<V>, frame: WireFrame<V>): Result<seq<byte>>
  {
    if Invalid(frame).Some? then Err(Invalid(frame).value)
    else
      var bytes := json.toVec(frame);
      if |bytes| > MAX_FRAME_SIZE then Err(FrameTooLarge(|bytes|)) else Ok(bytes + [LF])
  }

  function StripLast(bytes: seq<byte>, b: byte): seq<byte>
  {
    if bytes != [] && bytes[|bytes| - 1] == b then bytes[..|bytes| - 1] else bytes
  }

  function DecodeLine<V>(json: Json<V>, bytes: seq<byte>): Result<WireFrame<V>>
  {
    var payload := StripLast(StripLast(bytes, LF), CR);
    if LF in payload || CR in payload then Err(InvalidFrame)
    else if |payload| > MAX_FRAME_SIZE then Err(FrameTooLarge(|payload|))
    else match json.fromSlice(payload)
      case None => Err(BadJson)
      case Some(frame) => if Invalid(frame).Some? then Err(Invalid(frame).value) else Ok(frame)
  }

  // ---- which frames pass ----

  /** A frame of version 2 whose response has a result or an error and not both, and whose hello names
      the protocol "copper-addon.ndjson". */
  ghost predicate Proper<V>(frame: WireFrame<V>)
  {
    && frame.version == 2
    && (frame.Response? ==> frame.result.Some? != frame.error.Some?)
    && (frame.Hello? ==>
          frame.protocol == [99, 111, 112, 112, 101, 114, 45, 97, 100, 100, 111, 110, 46, 110, 100, 106, 115, 111, 110])
  }

  /** What is wrong with one that is not. */
  function Wrong<V>(frame: WireFrame<V>): IpcError
  {
    if frame.version != 2 then UnsupportedVersion(frame.version) else InvalidFrame
  }

  /** Main result: a frame is encoded, as one line, exactly when it is proper and its payload has at most
      8 MiB; otherwise the answer says what is wrong with it, or how long it is. */
  lemma EncodedExactly<V>(json: Json<V>, frame: WireFrame<V>)
    ensures EncodeLine(json, frame)
            == if !Proper(frame) then Err(Wrong(frame))
               else if |json.toVec(frame)| <= 8388608 then Ok(json.toVec(frame) + [10])
               else Err(FrameTooLarge(|json.toVec(frame)|))
  {
  }

  /** `bytes` is the line `payload`, ended by LF, by CR LF, by CR, or not at all. */
  ghost predicate IsLine(bytes: seq<byte>, payload: seq<byte>)
  {
    && 10 !in payload && 13 !in payload
    && (bytes == payload || bytes == payload + [10] || bytes == payload + [13] || bytes == payload + [13, 10])
  }

  lemma PayloadOf(bytes: seq<byte>, payload: seq<byte>)
    requires IsLine(bytes, payload)
    ensures StripLast(StripLast(bytes, LF), CR) == payload
  {
    if bytes == payload + [13, 10] {
      assert bytes[..|bytes| - 1] == payload + [13];
    }
    assert payload != [] ==> payload[|payload| - 1] in payload;
  }

  lemma PayloadIs(bytes: seq<byte>)
    requires var payload := StripLast(StripLast(bytes, LF), CR); LF !in payload && CR !in payload
    ensures IsLine(bytes, StripLast(StripLast(bytes, LF), CR))
  {
    var once := StripLast(bytes, LF);
    var payload := StripLast(once, CR);
    assert once == payload || once == payload + [13];
    assert bytes == once || bytes == once + [10];
    assert payload + [13] + [10] == payload + [13, 10];
  }

  /** Main result: bytes that are no line are refused; a line is decoded to the frame that its payload
      encodes, exactly when it has at most 8 MiB and the frame is proper. */
  lemma DecodedExactly<V>(json: Json<V>, bytes: seq<byte>, payload: seq<byte>)
    ensures (forall p :: !IsLine(bytes, p)) ==> DecodeLine(json, bytes) == Err(InvalidFrame)
    ensures IsLine(bytes, payload) ==>
              DecodeLine(json, bytes)
              == if |payload| > 8388608 then Err(FrameTooLarge(|payload|))
                 else match json.fromSlice(payload)
                   case None => Err(BadJson)
                   case Some(frame) => if Proper(frame) then Ok(frame) else Err(Wrong(frame))
  {
    hide IsLine, StripLast;
    if IsLine(bytes, payload) {
      PayloadOf(bytes, payload);
      NoBreaks(bytes, payload);
    } else if forall p :: !IsLine(bytes, p) {
      var p := StripLast(StripLast(bytes, LF), CR);
      if LF !in p && CR !in p {
        PayloadIs(bytes);
      }
    }
  }

  lemma NoBreaks(bytes: seq<byte>, payload: seq<byte>)
    requires IsLine(bytes, payload)
    ensures LF !in payload && CR !in payload
  {
  }

  /** A response whose result is null: an optional field reads null as absent. */
  predicate NullResult<V>(json: Json<V>, frame: WireFrame<V>)
  {
    frame.Response? && frame.result.Some? && json.isNull(frame.result.value)
  }

  function AsRead<V>(json: Json<V>, frame: WireFrame<V>): WireFrame<V>
  {
    if NullResult(json, frame) then frame.(result := None) else frame
  }

  /** What is required of the JSON library. */
  ghost predicate SoundCodec<V(!new)>(json: Json<V>)
  {
    forall f :: json.fromSlice(json.toVec(f)) == Some(AsRead(json, f)) && LF !in json.toVec(f) && CR !in json.toVec(f)
  }

  lemma EncodedPayload(bytes: seq<byte>)
    requires LF !in bytes && CR !in bytes
    ensures StripLast(StripLast(bytes + [LF], LF), CR) == bytes
  {
  }

  /** Round trip: a frame that can be encoded decodes to itself, exactly when it is not a
      response with a null result. Such a response is encoded, but its reader refuses it. */
  lemma DecodeEncoded<V(!new)>(json: Json<V>, frame: WireFrame<V>)
    requires SoundCodec(json) && EncodeLine(json, frame).Ok?
    ensures DecodeLine(json, EncodeLine(json, frame).value) == Ok(frame) <==> !NullResult(json, frame)
    ensures NullResult(json, frame) ==> DecodeLine(json, EncodeLine(json, frame).value) == Err(InvalidFrame)
  {
    EncodedPayload(json.toVec(frame));
  }

  // ---- writing one frame ----

  /** What is put on the stream for an encoded line: it is decoded and encoded again first. */
  function Canonical<V>(json: Json<V>, line: seq<byte>): Result<seq<byte>>
  {
    match DecodeLine(json, line)
    case Err(e) => Err(e)
    case Ok(frame) => EncodeLine(json, frame)
  }

  class Writer {
    var written: seq<byte>

    constructor ()
      ensures written == []
    {
      written := [];
    }

    /** A line that its own reader would refuse is not written. */
    method WriteFrame<V>(json: Json<V>, line: seq<byte>) returns (r: Result<()>)
      modifies this
      ensures match DecodeLine(json, line)
              case Err(e) => r == Err(e) && written == old(written)
              case Ok(frame) =>
                match EncodeLine(json, frame)
                case Err(e) => r == Err(e) && written == old(written)
                case Ok(encoded) => r == Ok(()) && written == old(written) + encoded
    {
      var decoded := DecodeLine(json, line);
      if decoded.Err? { return Err(decoded.error); }
      var canonical := EncodeLine(json, decoded.value);
      if canonical.Err? { return Err(canonical.error); }
      written := written + canonical.value;
      return Ok(());
    }
  }

  /** What decides whether a response can be sent: the length of its payload, and whether its result
      is a JSON null. */
  datatype Line = Line(length: nat, nullResult: bool)

  function LineOf<V>(json: Json<V>, frame: WireFrame<V>): Line
  {
    Line(|json.toVec(frame)|, NullResult(json, frame))
  }

  predicate Sendable(line: Line)
  {
    line.length <= MAX_FRAME_SIZE && !line.nullResult
  }

  /** Encoding a frame and writing the line: what is put on the stream, or the error. */
  function Sent<V>(json: Json<V>, frame: WireFrame<V>): Result<seq<byte>>
  {
    match EncodeLine(json, frame)
    case Err(e) => Err(e)
    case Ok(line) => Canonical(json, line)
  }

  /** Main result for the writer: a valid frame is sent, as its own encoding, exactly when its payload
      is not longer than a frame may be and it is no response with a null result. One that is too
      long is refused by its encoder, a null result by the decoder in front of the stream. */
  lemma SentExactly<V(!new)>(json: Json<V>, frame: WireFrame<V>)
    requires SoundCodec(json) && Proper(frame)
    ensures Sendable(LineOf(json, frame))
            <==> |json.toVec(frame)| <= 8388608 && !(frame.Response? && frame.result.Some? && json.isNull(frame.result.value))
    ensures Sent(json, frame).Ok? <==> Sendable(LineOf(json, frame))
    ensures Sendable(LineOf(json, frame)) ==> Sent(json, frame) == Ok(json.toVec(frame) + [10])
    ensures !Sendable(LineOf(json, frame)) ==>
              Sent(json, frame) == Err(if |json.toVec(frame)| > 8388608 then FrameTooLarge(|json.toVec(frame)|) else InvalidFrame)
  {
    if EncodeLine(json, frame).Ok? {
      DecodeEncoded(json, frame);
    }
  }

  // ---- reading one frame from a stream ----

  /** Index of the first line feed. */
  function LineEnd(s: seq<byte>): (r: Option<nat>)
    ensures r.None? <==> LF !in s
    ensures r.Some? ==> r.value < |s| && s[r.value] == LF && forall i :: 0 <= i < r.value ==> s[i] != LF
  {
    if s == [] then None
    else if s[0] == LF then Some(0)
    else
      var rest := LineEnd(s[1..]);
      if rest.None? then None else Some(rest.value + 1)
  }

  lemma NoneBefore(s: seq<byte>, k: nat)
    requires k <= |s| && LF !in s[..k]
    ensures forall i :: 0 <= i < k ==> s[i] != LF
  {
    forall i | 0 <= i < k ensures s[i] != LF {
      assert s[..k][i] in s[..k];
    }
  }

  lemma LineEndUnique(s: seq<byte>, k: nat)
    requires k < |s| && s[k] == LF && LF !in s[..k]
    ensures LineEnd(s) == Some(k)
  {
    NoneBefore(s, k);
    assert s[k] in s;
  }

  /** What reading a frame from `stream` gives. */
  datatype Outcome<V> = Frame(result: Result<WireFrame<V>>, rest: seq<byte>) | TooLarge | Truncated

  function ReadOutcome<V>(json: Json<V>, stream: seq<byte>): Outcome<V>
  {
    match LineEnd(stream)
    case Some(end) =>
      if end <= MAX_FRAME_SIZE then Frame(DecodeLine(json, stream[..end + 1]), stream[end + 1..]) else TooLarge
    case None =>
      if |stream| <= MAX_FRAME_SIZE + 1 then Truncated else TooLarge
  }

  function Concat(chunks: seq<seq<byte>>): seq<byte>
  {
    if chunks == [] then [] else chunks[0] + Concat(chunks[1..])
  }

  /** A buffered reader: each refill brings the next chunk, however the system splits it. Behind
      the last one the stream ends, or reading fails. */
  class Reader {
    var buffer: seq<byte>
    var chunks: seq<seq<byte>>
    const failing: bool

    constructor (chunks: seq<seq<byte>>, failing: bool)
      requires forall c :: c in chunks ==> c != []
      ensures Valid() && Rest() == Concat(chunks) && this.failing == failing
    {
      buffer := [];
      this.chunks := chunks;
      this.failing := failing;
    }

    ghost predicate Valid()
      reads this
    {
      forall c :: c in chunks ==> c != []
    }

    /** All bytes that are still to come. */
    ghost function Rest(): seq<byte>
      reads this
    {
      buffer + Concat(chunks)
    }

    /** `fill_buf`: empty only at the end of the stream. */
    method FillBuf() returns (r: Result<seq<byte>>)
      requires Valid()
      modifies this
      ensures Valid() && Rest() == old(Rest())
      ensures r == if Rest() == [] && failing then Err(Io) else Ok(buffer)
      ensures buffer <= Rest() && (buffer == [] <==> Rest() == [])
    {
      if buffer == [] && chunks != [] {
        assert chunks[0] in chunks && forall c :: c in chunks[1..] ==> c in chunks;
        assert Rest() == chunks[0] + Concat(chunks[1..]);
        buffer, chunks := chunks[0], chunks[1..];
      }
      assert buffer == [] ==> Rest() == [];
      r := if buffer == [] && failing then Err(Io) else Ok(buffer);
    }

    method Consume(n: nat)
      requires Valid() && n <= |buffer|
      modifies this`buffer
      ensures Valid() && buffer == old(buffer)[n..] && Rest() == old(Rest())[n..]
    {
      buffer := buffer[n..];
    }
  }

  /** Length of the part of `available` up to and including a line feed. */
  method FirstPart(available: seq<byte>) returns (count: nat)
    requires available != []
    ensures 0 < count <= |available|
    ensures LF !in available[..count - 1]
    ensures available[count - 1] == LF || count == |available|
  {
    count := 0;
    while count < |available|
      invariant count <= |available| && LF !in available[..count]
    {
      assert available[..count + 1] == available[..count] + [available[count]];
      if available[count] == LF { return count + 1; }
      count := count + 1;
    }
    assert available[..count] == available[..count - 1] + [available[count - 1]];
  }

  /** `r` is what reading from `stream` has to give, and `rest` what has to be left. The size that
      is reported lies beyond the limit, and not beyond the line or the stream. */
  ghost predicate ReadsAs<V>(json: Json<V>, stream: seq<byte>, failing: bool, r: Result<WireFrame<V>>, rest: seq<byte>)
  {
    match ReadOutcome(json, stream)
    case Frame(result, left) => r == result && rest == left
    case TooLarge =>
      && r.Err? && r.error.FrameTooLarge? && MAX_FRAME_SIZE < r.error.size < |stream|
      && (LineEnd(stream).Some? ==> r.error.size <= LineEnd(stream).value)
    case Truncated => r == Err(if failing then Io else UnexpectedEof)
  }

  lemma ReadsTruncated<V>(json: Json<V>, stream: seq<byte>, failing: bool, rest: seq<byte>)
    requires LF !in stream && |stream| <= MAX_FRAME_SIZE + 1
    ensures ReadsAs(json, stream, failing, Err(if failing then Io else UnexpectedEof), rest)
  {
  }

  lemma ReadsTooLarge<V>(json: Json<V>, stream: seq<byte>, failing: bool, k: nat, rest: seq<byte>)
    requires MAX_FRAME_SIZE < k < |stream| && (LineEnd(stream).Some? ==> LineEnd(stream).value >= k)
    ensures ReadsAs(json, stream, failing, Err(FrameTooLarge(k)), rest)
  {
  }

  lemma ReadsLine<V>(json: Json<V>, stream: seq<byte>, failing: bool, end: nat)
    requires end < |stream| && LineEnd(stream) == Some(end) && end <= MAX_FRAME_SIZE
    ensures ReadsAs(json, stream, failing, DecodeLine(json, stream[..end + 1]), stream[end + 1..])
  {
    hide DecodeLine, LineEnd;
  }

  /** The next part of the stream, added to a line that has no line feed so far. */
  lemma StreamSplit(all: seq<byte>, line: seq<byte>, rest: seq<byte>, count: nat)
    requires all == line + rest && LF !in line && 0 < count <= |rest| && LF !in rest[..count - 1]
    ensures all == (line + rest[..count]) + rest[count..]
    ensures LF !in line + rest[..count - 1]
    ensures rest[count - 1] == LF ==>
              LineEnd(all) == Some(|line| + count - 1)
              && all[..|line| + count] == line + rest[..count] && all[|line| + count..] == rest[count..]
    ensures rest[count - 1] != LF ==> LF !in line + rest[..count]
    ensures LineEnd(all).Some? ==> LineEnd(all).value >= |line| + count - 1
  {
    var k := |line| + count - 1;
    assert all[..k] == line + rest[..count - 1];
    if rest[count - 1] == LF {
      LineEndUnique(all, k);
    } else {
      assert line + rest[..count] == (line + rest[..count - 1]) + [rest[count - 1]];
    }
    NoneBefore(all, k);
  }

  /** What one turn of the reading loop gets: the end of the stream or its failure, too much, or the
      next part of the line and whether it ends it. */
  datatype Part = End(error: IpcError) | TooLong(size: nat) | More(part: seq<byte>, whole: bool)

  method NextPart(reader: Reader, line: seq<byte>) returns (p: Part)
    requires reader.Valid() && LF !in line && |line| <= MAX_FRAME_SIZE + 1
    modifies reader
    ensures reader.Valid()
    ensures p.End? ==> old(reader.Rest()) == [] && p.error == if reader.failing then Io else UnexpectedEof
    ensures p.TooLong? ==>
              var all := line + old(reader.Rest());
              MAX_FRAME_SIZE < p.size < |all| && (LineEnd(all).Some? ==> LineEnd(all).value >= p.size)
    ensures p.More? ==>
              && p.part != [] && |line| + |p.part| <= MAX_FRAME_SIZE + 1
              && old(reader.Rest()) == p.part + reader.Rest()
              && (p.whole ==> LineEnd(line + old(reader.Rest())) == Some(|line| + |p.part| - 1))
              && (!p.whole ==> LF !in line + p.part)
  {
    hide LineEnd, Concat, Reader.Rest, Reader.Valid;
    ghost var rest := reader.Rest();
    var filled := reader.FillBuf();
    if filled.Err? { return End(filled.error); }
    var available := filled.value;
    if available == [] { return End(UnexpectedEof); }
    var count := FirstPart(available);
    assert available[..count] == rest[..count] && available[..count - 1] == rest[..count - 1];
    StreamSplit(line + rest, line, rest, count);
    if |line| + count > MAX_FRAME_SIZE + 1 {
      return TooLong(|line| + count - 1);
    }
    reader.Consume(count);
    p := More(available[..count], available[count - 1] == LF);
  }

  /** Main result: for every way of splitting the stream, the outcome is that of the stream as a
      whole. It depends on where the first line feed is, and without one on whether the stream ends
      or fails; only the size in the too-large error depends on the splitting. */
  method ReadFrame<V>(json: Json<V>, reader: Reader) returns (r: Result<WireFrame<V>>)
    requires reader.Valid()
    modifies reader
    ensures reader.Valid()
    ensures ReadsAs(json, old(reader.Rest()), reader.failing, r, reader.Rest())
  {
    hide DecodeLine, LineEnd, ReadsAs, Reader.Valid, Reader.Rest;
    ghost var all := reader.Rest();
    var line: seq<byte> := [];
    while true
      invariant reader.Valid() && all == line + reader.Rest()
      invariant LF !in line && |line| <= MAX_FRAME_SIZE + 1
      decreases |all| - |line|
    {
      ghost var rest := reader.Rest();
      var p := NextPart(reader, line);
      if p.End? {
        EndsTruncated(json, all, line, rest, reader.failing, reader.Rest());
        return Err(p.error);
      }
      if p.TooLong? {
        ReadsTooLarge(json, all, reader.failing, p.size, reader.Rest());
        return Err(FrameTooLarge(p.size));
      }
      Grown(all, line, p.part, reader.Rest());
      if p.whole {
        EndsWhole(json, all, line, p.part, reader.failing, reader.Rest());
        r := DecodeLine(json, line + p.part);
        return;
      }
      line := line + p.part;
    }
  }

  lemma EndsTruncated<V>(json: Json<V>, all: seq<byte>, line: seq<byte>, rest: seq<byte>, failing: bool, left: seq<byte>)
    requires all == line + rest && rest == [] && LF !in line && |line| <= MAX_FRAME_SIZE + 1
    ensures ReadsAs(json, all, failing, Err(if failing then Io else UnexpectedEof), left)
  {
    assert all == line;
    ReadsTruncated(json, all, failing, left);
  }

  lemma EndsWhole<V>(json: Json<V>, all: seq<byte>, line: seq<byte>, part: seq<byte>, failing: bool, rest: seq<byte>)
    requires all == (line + part) + rest && part != [] && |line| + |part| <= MAX_FRAME_SIZE + 1
    requires LineEnd(all) == Some(|line| + |part| - 1)
    ensures ReadsAs(json, all, failing, DecodeLine(json, line + part), rest)
  {
    hide DecodeLine, LineEnd, ReadsAs;
    var n := |line| + |part|;
    assert all[..n] == line + part && all[n..] == rest;
    ReadsLine(json, all, failing, n - 1);
  }

  lemma Grown(all: seq<byte>, line: seq<byte>, part: seq<byte>, rest: seq<byte>)
    requires all == line + (part + rest)
    ensures all == (line + part) + rest
  {
  }

  // ---- what reading gives ----

  /** Main result, what `ReadsAs` says of a stream: with a line feed behind at most 8 MiB, the line up to
      it is decoded and what follows is left; without one in a stream that is not longer, the stream
      is cut off, or has failed; otherwise the frame is too large. */
  lemma ReadsExactly<V>(json: Json<V>, stream: seq<byte>, failing: bool, r: Result<WireFrame<V>>, rest: seq<byte>, end: nat)
    requires ReadsAs(json, stream, failing, r, rest)
    ensures end < |stream| && stream[end] == 10 && 10 !in stream[..end] && end <= 8388608 ==>
              r == DecodeLine(json, stream[..end + 1]) && rest == stream[end + 1..]
    ensures 10 !in stream && |stream| <= 8388609 ==> r == Err(if failing then Io else UnexpectedEof)
    ensures |stream| > 8388609 && 10 !in stream[..8388609] ==> r.Err? && r.error.FrameTooLarge? && 8388608 < r.error.size < |stream|
  {
    hide DecodeLine;
    if end < |stream| && stream[end] == 10 && 10 !in stream[..end] {
      LineEndUnique(stream, end);
    }
    if |stream| > 8388609 && 10 !in stream[..8388609] {
      NoneBefore(stream, 8388609);
    }
  }

  // ---- reading what has been written ----

  function Lines<V>(json: Json<V>, frames: seq<WireFrame<V>>): seq<byte>
    requires forall f :: f in frames ==> EncodeLine(json, f).Ok?
  {
    if frames == [] then [] else EncodeLine(json, frames[0]).value + Lines(json, frames[1..])
  }

  /** Reading up to `n` frames one after the other: those read, and what is left. */
  function ReadMany<V>(json: Json<V>, stream: seq<byte>, n: nat): (seq<WireFrame<V>>, seq<byte>)
    decreases n
  {
    if n == 0 then ([], stream)
    else match ReadOutcome(json, stream)
      case Frame(result, rest) =>
        if result.Err? then ([], stream)
        else var more := ReadMany(json, rest, n - 1); ([result.value] + more.0, more.1)
      case TooLarge => ([], stream)
      case Truncated => ([], stream)
  }

  lemma ReadEncoded<V(!new)>(json: Json<V>, frame: WireFrame<V>, more: seq<byte>)
    requires SoundCodec(json) && EncodeLine(json, frame).Ok? && !NullResult(json, frame)
    ensures ReadOutcome(json, EncodeLine(json, frame).value + more) == Frame(Ok(frame), more)
  {
    var bytes := json.toVec(frame);
    var line := bytes + [LF];
    assert (line + more)[..|bytes|] == bytes;
    LineEndUnique(line + more, |bytes|);
    assert (line + more)[..|line|] == line && (line + more)[|line|..] == more;
    DecodeEncoded(json, frame);
  }

  /** Main result: reading a concatenation of encoded frames returns exactly those frames, in
      order, and leaves what follows them. */
  lemma {:induction false} FramesReadBack<V(!new)>(json: Json<V>, frames: seq<WireFrame<V>>, more: seq<byte>)
    requires SoundCodec(json)
    requires forall f :: f in frames ==> EncodeLine(json, f).Ok? && !NullResult(json, f)
    ensures ReadMany(json, Lines(json, frames) + more, |frames|) == (frames, more)
  {
    hide ReadOutcome, EncodeLine, DecodeLine, NullResult;
    if frames == [] {
      assert Lines(json, frames) + more == more;
    } else {
      var first := EncodeLine(json, frames[0]).value;
      var later := frames[1..];
      assert frames[0] in frames && forall f :: f in later ==> f in frames;
      LinesStart(json, frames, more);
      ReadEncoded(json, frames[0], Lines(json, later) + more);
      FramesReadBack(json, later, more);
      assert frames == [frames[0]] + later;
    }
  }

  lemma LinesStart<V>(json: Json<V>, frames: seq<WireFrame<V>>, more: seq<byte>)
    requires frames != [] && forall f :: f in frames ==> EncodeLine(json, f).Ok?
    ensures Lines(json, frames) + more == EncodeLine(json, frames[0]).value + (Lines(json, frames[1..]) + more)
  {
    hide EncodeLine;
  }
}
