/** Message framing over a byte stream: the write queue of a session and the reader at the other end. */
module Session {
  import opened GF256
  import opened FecWire

  const ID_SIZE := 16
  const PREFIX_SIZE := 20
  /** The reader stops at anything longer. */
  const MAX_MESSAGE := 10 * 1024 * 1024

  datatype Message = Message(id: Bytes, payload: Bytes)

  ghost predicate Sendable(m: Message) { |m.id| == ID_SIZE && |m.payload| < 0x1_0000_0000 }

  function LengthBytes(n: U32): (b: Bytes)
    ensures |b| == 4
  {
    [n / 0x100_0000, n / 0x1_0000 % 256, n / 0x100 % 256, n % 256]
  }

  function LengthOf(b: Bytes): nat
    requires |b| == 4
  {
    Join(Join(Join(b[0], b[1]), b[2]), b[3])
  }

  function FrameOf(m: Message): Bytes
    requires |m.payload| < 0x1_0000_0000
  {
    m.id + LengthBytes(|m.payload|) + m.payload
  }

  /** The id, four bytes of length with the most significant one first, and the payload. */
  lemma FrameFormat(m: Message)
    requires Sendable(m)
    ensures var b := FrameOf(m);
            && |b| == PREFIX_SIZE + |m.payload| && b[..ID_SIZE] == m.id
            && BigEndian(b[ID_SIZE..PREFIX_SIZE]) == |m.payload| && b[PREFIX_SIZE..] == m.payload
  {
    var b := FrameOf(m);
    assert b[ID_SIZE..PREFIX_SIZE] == LengthBytes(|m.payload|);
    BigEndianFour(LengthBytes(|m.payload|));
    U32Digits(|m.payload|);
  }

  ghost predicate AllSendable(ms: seq<Message>) { forall i :: 0 <= i < |ms| ==> Sendable(ms[i]) }

  ghost predicate AllAccepted(ms: seq<Message>) { forall i :: 0 <= i < |ms| ==> |ms[i].payload| <= MAX_MESSAGE }

  /** The frames of the messages, one after the other. */
  ghost function Stream(ms: seq<Message>): Bytes
    requires AllSendable(ms)
  {
    if ms == [] then [] else FrameOf(ms[0]) + Stream(ms[1..])
  }

  lemma {:induction false} StreamConcat(a: seq<Message>, b: seq<Message>)
    requires AllSendable(a) && AllSendable(b)
    ensures AllSendable(a + b) && Stream(a + b) == Stream(a) + Stream(b)
  {
    if a == [] {
      assert a + b == b;
    } else {
      StreamConcat(a[1..], b);
      assert (a + b)[1..] == a[1..] + b && (a + b)[0] == a[0];
      AppendBoth(FrameOf(a[0]), Stream(a[1..]), Stream(b));
    }
  }

  // ----- reading -----

  datatype Reading = AtHeader | AtPayload(id: Bytes, len: nat) | Stopped

  datatype Parsed = Parsed(state: Reading, rest: Bytes, messages: seq<Message>)

  /** Reads on as long as the next header or payload is complete. */
  function Consume(state: Reading, bytes: Bytes): Parsed
    decreases |bytes|, if state.AtPayload? then 1 else 0
  {
    match state
    case Stopped => Parsed(Stopped, bytes, [])
    case AtHeader =>
      if |bytes| < PREFIX_SIZE then Parsed(AtHeader, bytes, [])
      else
        var len := LengthOf(bytes[ID_SIZE..PREFIX_SIZE]);
        if len > MAX_MESSAGE then Parsed(Stopped, bytes[PREFIX_SIZE..], [])
        else Consume(AtPayload(bytes[..ID_SIZE], len), bytes[PREFIX_SIZE..])
    case AtPayload(id, len) =>
      if |bytes| < len then Parsed(state, bytes, [])
      else
        Prepend([Message(id, bytes[..len])], Consume(AtHeader, bytes[len..]))
  }

  function Prepend(messages: seq<Message>, p: Parsed): Parsed
  {
    p.(messages := messages + p.messages)
  }

  lemma PrependTwice(a: seq<Message>, b: seq<Message>, p: Parsed)
    ensures Prepend(a, Prepend(b, p)) == Prepend(a + b, p)
  {
    assert a + (b + p.messages) == (a + b) + p.messages;
  }

  /** The bytes may arrive in any pieces. */
  lemma {:induction false} ConsumeInPieces(state: Reading, a: Bytes, b: Bytes)
    ensures var p := Consume(state, a);
            var q := Consume(p.state, p.rest + b);
            Consume(state, a + b) == Parsed(q.state, q.rest, p.messages + q.messages)
    decreases |a|, if state.AtPayload? then 1 else 0
  {
    match state
    case Stopped =>
    case AtHeader =>
      if |a| >= PREFIX_SIZE {
        assert (a + b)[..ID_SIZE] == a[..ID_SIZE] && (a + b)[ID_SIZE..PREFIX_SIZE] == a[ID_SIZE..PREFIX_SIZE];
        assert (a + b)[PREFIX_SIZE..] == a[PREFIX_SIZE..] + b;
        var len := LengthOf(a[ID_SIZE..PREFIX_SIZE]);
        if len <= MAX_MESSAGE {
          ConsumeInPieces(AtPayload(a[..ID_SIZE], len), a[PREFIX_SIZE..], b);
        }
      }
    case AtPayload(id, len) =>
      if |a| >= len {
        assert (a + b)[..len] == a[..len] && (a + b)[len..] == a[len..] + b;
        ConsumeInPieces(AtHeader, a[len..], b);
        var p := Consume(AtHeader, a[len..]);
        var q := Consume(p.state, p.rest + b);
        var first := [Message(id, a[..len])];
        assert first + (p.messages + q.messages) == (first + p.messages) + q.messages;
      }
  }

  lemma LengthRoundTrip(n: U32)
    ensures LengthOf(LengthBytes(n)) == n
  {
    U32Digits(n);
  }

  lemma ThreeParts(id: Bytes, length: Bytes, body: Bytes)
    requires |id| == ID_SIZE && |length| == PREFIX_SIZE - ID_SIZE
    ensures var f := id + length + body;
            f[..ID_SIZE] == id && f[ID_SIZE..PREFIX_SIZE] == length && f[PREFIX_SIZE..] == body
  {}

  lemma FrameParts(m: Message, tail: Bytes)
    requires Sendable(m)
    ensures var f := FrameOf(m) + tail;
            && |f| >= PREFIX_SIZE && f[..ID_SIZE] == m.id && LengthOf(f[ID_SIZE..PREFIX_SIZE]) == |m.payload|
            && f[PREFIX_SIZE..] == m.payload + tail
  {
    var length := LengthBytes(|m.payload|);
    AppendBoth(m.id + length, m.payload, tail);
    ThreeParts(m.id, length, m.payload + tail);
    LengthRoundTrip(|m.payload|);
  }

  lemma AppendBoth(a: Bytes, b: Bytes, c: Bytes)
    ensures (a + b) + c == a + (b + c)
  {}

  lemma FrameIsRead(m: Message, tail: Bytes)
    requires Sendable(m) && |m.payload| <= MAX_MESSAGE
    ensures Consume(AtHeader, FrameOf(m) + tail) ==
            var p := Consume(AtHeader, tail); p.(messages := [m] + p.messages)
  {
    FrameParts(m, tail);
    var f := FrameOf(m) + tail;
    var body := m.payload + tail;
    assert body[..|m.payload|] == m.payload && body[|m.payload|..] == tail;
    assert Consume(AtHeader, f) == Consume(AtPayload(m.id, |m.payload|), body);
  }

  lemma OversizedStops(m: Message, tail: Bytes)
    requires Sendable(m) && |m.payload| > MAX_MESSAGE
    ensures Consume(AtHeader, FrameOf(m) + tail) == Parsed(Stopped, m.payload + tail, [])
  {
    FrameParts(m, tail);
  }

  /** The stream is read back as exactly the messages it was made of if and only if none is oversized. */
  lemma {:induction false} StreamIsReadIff(ms: seq<Message>)
    requires AllSendable(ms)
    ensures Consume(AtHeader, Stream(ms)).messages == ms <==> AllAccepted(ms)
    ensures AllAccepted(ms) ==> Consume(AtHeader, Stream(ms)) == Parsed(AtHeader, [], ms)
  {
    if ms != [] {
      var rest := ms[1..];
      StreamIsReadIff(rest);
      if |ms[0].payload| <= MAX_MESSAGE {
        FrameIsRead(ms[0], Stream(rest));
        var p := Consume(AtHeader, Stream(rest));
        assert ms == [ms[0]] + rest;
        assert ([ms[0]] + p.messages)[1..] == p.messages;
        assert AllAccepted(ms) <==> AllAccepted(rest) by {
          assert forall i :: 0 <= i < |rest| ==> rest[i] == ms[i + 1];
          assert forall i :: 0 < i < |ms| ==> ms[i] == rest[i - 1];
        }
      } else {
        OversizedStops(ms[0], Stream(rest));
      }
    }
  }

  /** From any part of the stream that has arrived, a prefix of the messages has been read. */
  lemma ReadSoFar(ms: seq<Message>, input: Bytes)
    requires AllSendable(ms) && AllAccepted(ms) && input <= Stream(ms)
    ensures Consume(AtHeader, input).messages <= ms
    ensures input == Stream(ms) ==> Consume(AtHeader, input).messages == ms
  {
    StreamIsReadIff(ms);
    var later := Stream(ms)[|input|..];
    assert Stream(ms) == input + later;
    ConsumeInPieces(AtHeader, input, later);
  }

  // ----- writing -----

  function Concat(chunks: seq<Bytes>): Bytes
  {
    if chunks == [] then [] else chunks[0] + Concat(chunks[1..])
  }

  lemma {:induction false} ConcatAppend(chunks: seq<Bytes>, chunk: Bytes)
    ensures Concat(chunks + [chunk]) == Concat(chunks) + chunk
  {
    if chunks == [] {
      assert [chunk][1..] == [];
    } else {
      ConcatAppend(chunks[1..], chunk);
      assert (chunks + [chunk])[1..] == chunks[1..] + [chunk];
    }
  }

  /** What is still to be written, given that `progress` bytes of the front are out. */
  function Remaining(outbox: seq<Bytes>, progress: nat): Bytes
    requires outbox == [] || progress <= |outbox[0]|
  {
    if outbox == [] then [] else outbox[0][progress..] + Concat(outbox[1..])
  }

  lemma RemainingAppend(outbox: seq<Bytes>, progress: nat, data: Bytes)
    requires if outbox == [] then progress == 0 else progress <= |outbox[0]|
    ensures Remaining(outbox + [data], progress) == Remaining(outbox, progress) + data
  {
    if outbox == [] {
      assert [data][1..] == [];
    } else {
      ConcatAppend(outbox[1..], data);
      assert (outbox + [data])[1..] == outbox[1..] + [data];
    }
  }

  lemma RemainingAdvance(outbox: seq<Bytes>, progress: nat, n: nat)
    requires outbox != [] && progress + n <= |outbox[0]|
    ensures Remaining(outbox, progress) == outbox[0][progress..progress + n] + Remaining(outbox, progress + n)
  {
    var front := outbox[0];
    SplitTail(front, progress, n);
    AppendBoth(front[progress..progress + n], front[progress + n..], Concat(outbox[1..]));
  }

  lemma SplitTail(b: Bytes, i: nat, n: nat)
    requires i + n <= |b|
    ensures b[i..] == b[i..i + n] + b[i + n..]
  {}

  lemma StreamAppend(ms: seq<Message>, m: Message)
    requires AllSendable(ms) && Sendable(m)
    ensures AllSendable(ms + [m]) && Stream(ms + [m]) == Stream(ms) + FrameOf(m)
  {
    StreamConcat(ms, [m]);
    assert [m][1..] == [];
  }

  lemma PostedStream(wire: Bytes, outbox: seq<Bytes>, progress: nat, posted: seq<Message>, m: Message, data: Bytes)
    requires AllSendable(posted) && Sendable(m) && if outbox == [] then progress == 0 else progress <= |outbox[0]|
    requires data == FrameOf(m) && wire + Remaining(outbox, progress) == Stream(posted)
    ensures AllSendable(posted + [m]) && wire + Remaining(outbox + [data], progress) == Stream(posted + [m])
  {
    StreamAppend(posted, m);
    RemainingAppend(outbox, progress, data);
    AppendBoth(wire, Remaining(outbox, progress), data);
  }

  class Writer {
    var outbox: seq<Bytes>
    /** A write of the front of the outbox is in flight, with this many of its bytes out. */
    var writing: bool
    var progress: nat
    ghost var posted: seq<Message>
    ghost var wire: Bytes

    /** A write is in flight exactly when the outbox is non-empty, and no byte is lost or reordered. */
    ghost predicate Valid()
      reads this
    {
      && (writing <==> outbox != []) && (if outbox == [] then progress == 0 else progress <= |outbox[0]|)
      && AllSendable(posted) && wire + Remaining(outbox, progress) == Stream(posted)
    }

    constructor ()
      ensures Valid() && posted == [] && wire == []
    {
      outbox, writing, progress, posted, wire := [], false, 0, [], [];
    }

    /** Posts a message; one that is too long for the length field is dropped. */
    method SendMessage(reqId: Bytes, message: Bytes)
      requires Valid() && |reqId| >= ID_SIZE
      modifies this
      ensures Valid() && wire == old(wire)
      ensures posted ==
              if |message| < 0x1_0000_0000 then old(posted) + [Message(reqId[..ID_SIZE], message)] else old(posted)
    {
      if |message| > 0xFFFF_FFFF {
        return;
      }
      var data := reqId[..ID_SIZE] + LengthBytes(|message|) + message;
      var busy := outbox != [];
      ghost var m := Message(reqId[..ID_SIZE], message);
      assert data == FrameOf(m);
      PostedStream(wire, outbox, progress, posted, m, data);
      outbox := outbox + [data];
      posted := posted + [m];
      if !busy {
        DoWrite();
      }
    }

    method DoWrite()
      modifies this`writing, this`progress
      ensures writing == (outbox != [] || old(writing)) && (outbox != [] ==> progress == 0)
      ensures outbox == [] ==> progress == old(progress)
    {
      if outbox == [] {
        return;
      }
      writing, progress := true, 0;
    }

    /** The stream takes some more bytes of the front. */
    method WriteSome(n: nat)
      requires Valid() && writing && progress + n <= |outbox[0]|
      modifies this`progress, this`wire
      ensures Valid() && progress == old(progress) + n
              && wire == old(wire) + outbox[0][old(progress)..old(progress) + n]
    {
      RemainingAdvance(outbox, progress, n);
      var piece := outbox[0][progress..progress + n];
      assert wire + (piece + Remaining(outbox, progress + n)) == (wire + piece) + Remaining(outbox, progress + n);
      wire := wire + piece;
      progress := progress + n;
    }

    /** The completion handler. */
    method WriteCompleted()
      requires Valid() && writing && progress == |outbox[0]|
      modifies this
      ensures Valid() && posted == old(posted) && wire == old(wire) && outbox == old(outbox)[1..]
    {
      assert outbox[0][progress..] + Concat(outbox[1..]) == Concat(outbox[1..]);
      outbox := outbox[1..];
      if outbox != [] {
        DoWrite();
        assert outbox[0][0..] == outbox[0];
      } else {
        writing, progress := false, 0;
      }
    }
  }

  class Reader {
    var state: Reading
    var buffer: Bytes
    var received: seq<Message>
    ghost var input: Bytes

    ghost predicate Valid()
      reads this
    {
      Parsed(state, buffer, received) == Consume(AtHeader, input)
    }

    constructor ()
      ensures Valid() && input == [] && received == []
    {
      state, buffer, received, input := AtHeader, [], [], [];
    }

    /** Bytes arrive, and every header and payload that is complete now is handled. */
    method Feed(chunk: Bytes)
      requires Valid()
      modifies this
      ensures Valid() && input == old(input) + chunk && old(received) <= received
    {
      ConsumeInPieces(AtHeader, input, chunk);
      input := input + chunk;
      var messages;
      state, buffer, messages := Drain(state, buffer + chunk);
      received := received + messages;
    }
  }

  /** Alternates between headers and payloads while they are complete. */
  /** The next header or payload is complete. */
  predicate Ready(state: Reading, bytes: Bytes)
  {
    (state.AtHeader? && |bytes| >= PREFIX_SIZE) || (state.AtPayload? && |bytes| >= state.len)
  }

  /** Reads one header or one payload. */
  function ReadOne(state: Reading, bytes: Bytes): (p: Parsed)
    requires Ready(state, bytes)
    ensures |p.rest| < |bytes| || (|p.rest| == |bytes| && state.AtPayload? && p.state.AtHeader?)
  {
    if state.AtHeader? then
      var len := LengthOf(bytes[ID_SIZE..PREFIX_SIZE]);
      Parsed(if len > MAX_MESSAGE then Stopped else AtPayload(bytes[..ID_SIZE], len), bytes[PREFIX_SIZE..], [])
    else Parsed(AtHeader, bytes[state.len..], [Message(state.id, bytes[..state.len])])
  }

  lemma ConsumeHeader(bytes: Bytes)
    requires |bytes| >= PREFIX_SIZE
    ensures var p := ReadOne(AtHeader, bytes); Consume(AtHeader, bytes) == Consume(p.state, p.rest)
  {}

  lemma ConsumePayload(id: Bytes, len: nat, bytes: Bytes)
    requires |bytes| >= len
    ensures var p := ReadOne(AtPayload(id, len), bytes);
            Consume(AtPayload(id, len), bytes) == Prepend(p.messages, Consume(p.state, p.rest))
  {}

  lemma PrependNothing(p: Parsed)
    ensures Prepend([], p) == p
  {
    assert [] + p.messages == p.messages;
  }

  lemma ConsumeOne(state: Reading, bytes: Bytes)
    requires Ready(state, bytes)
    ensures var p := ReadOne(state, bytes); Consume(state, bytes) == Prepend(p.messages, Consume(p.state, p.rest))
  {
    if state.AtHeader? {
      ConsumeHeader(bytes);
      PrependNothing(Consume(ReadOne(state, bytes).state, ReadOne(state, bytes).rest));
    } else {
      ConsumePayload(state.id, state.len, bytes);
    }
  }

  lemma ConsumeWaits(state: Reading, bytes: Bytes)
    requires !Ready(state, bytes)
    ensures Consume(state, bytes) == Parsed(state, bytes, [])
  {}

  method Drain(start: Reading, bytes: Bytes) returns (state: Reading, buffer: Bytes, messages: seq<Message>)
    ensures Parsed(state, buffer, messages) == Consume(start, bytes)
  {
    state, buffer, messages := start, bytes, [];
    PrependNothing(Consume(start, bytes));
    while Ready(state, buffer)
      invariant Consume(start, bytes) == Prepend(messages, Consume(state, buffer))
      decreases |buffer|, if state.AtPayload? then 1 else 0
    {
      var p := ReadOne(state, buffer);
      ConsumeOne(state, buffer);
      PrependTwice(messages, p.messages, Consume(p.state, p.rest));
      state, buffer, messages := p.state, p.rest, messages + p.messages;
    }
    ConsumeWaits(state, buffer);
  }

  /** What has been handled at one end is a prefix of what was posted at the other, and in the end all of it. */
  lemma EndToEnd(w: Writer, r: Reader)
    requires w.Valid() && r.Valid() && AllAccepted(w.posted) && r.input <= w.wire
    ensures r.received <= w.posted
    ensures w.outbox == [] && r.input == w.wire ==> r.received == w.posted
  {
    assert w.wire <= Stream(w.posted);
    assert w.outbox == [] ==> w.wire + [] == w.wire;
    ReadSoFar(w.posted, r.input);
  }
}
