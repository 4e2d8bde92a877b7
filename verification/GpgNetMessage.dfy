/** The GPGNet wire format: `GPGNetMessage::toBinary` and the incremental, buffer-erasing
    `GPGNetMessage::parse`. */
module GpgNetMessage {
  import opened Bytes

  /** A `Json::Value` used as a message parameter. `OtherValue` stands for the JSON types
      that the format cannot carry (null, real, array, object). */
  datatype Chunk =
    | IntValue(i: int)
    | UIntValue(u: nat)
    | BoolValue(b: bool)
    | StringValue(s: Str)
    | OtherValue

  datatype Message = Message(header: Str, chunks: seq<Chunk>)

  // ---------------------------------------------------------------- printing

  /** `asInt()` throws when the number does not fit into an `int`. */
  predicate Throws(c: Chunk) {
    (c.IntValue? && !(-0x8000_0000 <= c.i < 0x8000_0000)) || (c.UIntValue? && c.u >= 0x8000_0000)
  }

  /** The part of a chunk that survives the format: unsigned and boolean values become integers. */
  function Normal(c: Chunk): Chunk {
    match c
    case UIntValue(u) => IntValue(u)
    case BoolValue(b) => IntValue(if b then 1 else 0)
    case _ => c
  }

  function NormalChunks(cs: seq<Chunk>): seq<Chunk> {
    if cs == [] then [] else [Normal(cs[0])] + NormalChunks(cs[1..])
  }

  function NormalMessage(m: Message): Message {
    Message(m.header, NormalChunks(m.chunks))
  }

  /** The bytes written for a chunk; none when it has no wire form. */
  function EncodeChunk(c: Chunk): Str {
    match if Throws(c) then OtherValue else Normal(c)
    case IntValue(i) => [0] + EncodeInt32(i)
    case StringValue(s) => [1] + EncodeInt32(LowInt32(|s|)) + s
    case _ => []
  }

  function EncodeChunks(cs: seq<Chunk>): Str {
    if cs == [] then [] else EncodeChunk(cs[0]) + EncodeChunks(cs[1..])
  }

  function EncodeBody(cs: seq<Chunk>): Str {
    EncodeInt32(LowInt32(|cs|)) + EncodeChunks(cs)
  }

  function Encode(m: Message): Str {
    EncodeInt32(LowInt32(|m.header|)) + (m.header + EncodeBody(m.chunks))
  }

  lemma {:induction false} EncodeChunksConcat(a: seq<Chunk>, b: seq<Chunk>)
    ensures EncodeChunks(a + b) == EncodeChunks(a) + EncodeChunks(b)
  {
    if a == [] {
      assert a + b == b;
    } else {
      assert (a + b)[0] == a[0] && (a + b)[1..] == a[1..] + b;
      EncodeChunksConcat(a[1..], b);
    }
  }

  /** What is written before the chunks. */
  function Head(m: Message): Str {
    EncodeInt32(LowInt32(|m.header|)) + m.header + EncodeInt32(LowInt32(|m.chunks|))
  }

  /** The bytes written before chunk k. */
  function Printed(m: Message, k: nat): Str
    requires k <= |m.chunks|
  {
    if k == 0 then Head(m) else Printed(m, k - 1) + EncodeChunk(m.chunks[k - 1])
  }

  lemma PrintedNext(m: Message, k: nat, before: Str, all: Str)
    requires k < |m.chunks| && Printed(m, k) == Head(m) + before && all == before + EncodeChunk(m.chunks[k])
    ensures Printed(m, k + 1) == Head(m) + all
  {
    Associate(Head(m), before, EncodeChunk(m.chunks[k]));
  }

  lemma {:induction false} PrintedIs(m: Message, k: nat)
    requires k <= |m.chunks|
    ensures Printed(m, k) == Head(m) + EncodeChunks(m.chunks[..k])
  {
    if k == 0 {
      assert Head(m) + [] == Head(m);
    } else {
      PrintedIs(m, k - 1);
      ChunksSnoc(m.chunks, k - 1);
      PrintedNext(m, k - 1, EncodeChunks(m.chunks[..k - 1]), EncodeChunks(m.chunks[..k]));
    }
  }

  lemma ChunksSnoc(cs: seq<Chunk>, k: nat)
    requires k < |cs|
    ensures EncodeChunks(cs[..k + 1]) == EncodeChunks(cs[..k]) + EncodeChunk(cs[k])
  {
    assert cs[..k + 1] == cs[..k] + [cs[k]];
    EncodeChunksConcat(cs[..k], [cs[k]]);
    assert EncodeChunks([cs[k]]) == EncodeChunk(cs[k]) + EncodeChunks([]);
  }

  lemma PrintedAll(m: Message)
    ensures Printed(m, |m.chunks|) == Encode(m)
  {
    PrintedIs(m, |m.chunks|);
    assert m.chunks[..|m.chunks|] == m.chunks;
    EncodeIsFlat(m);
  }

  /** The switch of `toBinary` on one chunk; `None` when `asInt()` throws. */
  method AppendChunk(bytes: Str, chunk: Chunk) returns (result: Option<Str>)
    ensures result == if Throws(chunk) then None else Some(bytes + EncodeChunk(chunk))
  {
    if Throws(chunk) {
      return None;
    }
    match chunk
    case IntValue(_) | UIntValue(_) | BoolValue(_) =>
      var value := Normal(chunk).i;
      result := Some(bytes + [0] + EncodeInt32(value));
      assert bytes + [0] + EncodeInt32(value) == bytes + ([0] + EncodeInt32(value));
    case StringValue(s) =>
      var length := EncodeInt32(LowInt32(|s|));
      result := Some(bytes + [1] + length + s);
      assert bytes + [1] + length + s == bytes + ([1] + length + s);
    case OtherValue =>
      // counted in the chunk count but not written
      result := Some(bytes);
      assert bytes + [] == bytes;
  }

  lemma EncodeIsFlat(m: Message)
    ensures Encode(m) == Head(m) + EncodeChunks(m.chunks)
  {
    var a, b, c := EncodeInt32(LowInt32(|m.header|)), m.header, EncodeInt32(LowInt32(|m.chunks|));
    Associate(b, c, EncodeChunks(m.chunks));
    Associate(a, b + c, EncodeChunks(m.chunks));
    Associate(a, b, c);
  }

  /** The first k chunks can be written. */
  predicate NoneThrows(cs: seq<Chunk>, k: nat)
    requires k <= |cs|
  {
    k == 0 || (NoneThrows(cs, k - 1) && !Throws(cs[k - 1]))
  }

  lemma {:induction false} NoneThrowsIff(cs: seq<Chunk>, k: nat)
    requires k <= |cs|
    ensures NoneThrows(cs, k) <==> forall i :: 0 <= i < k ==> !Throws(cs[i])
  {
    if k > 0 {
      NoneThrowsIff(cs, k - 1);
    }
  }

  lemma {:induction false} ThrowsForGood(cs: seq<Chunk>, k: nat, n: nat)
    requires k <= n <= |cs| && !NoneThrows(cs, k)
    ensures !NoneThrows(cs, n)
    decreases n
  {
    if k < n {
      ThrowsForGood(cs, k, n - 1);
    }
  }

  /** One turn of the loop of `toBinary`: what was printed, and one chunk more. */
  method AppendNext(m: Message, k: nat, bytes: Str) returns (result: Option<Str>)
    requires k < |m.chunks| && bytes == Printed(m, k)
    ensures result == if Throws(m.chunks[k]) then None else Some(Printed(m, k + 1))
  {
    result := AppendChunk(bytes, m.chunks[k]);
  }

  /** The loop of `toBinary`. */
  method AppendChunks(m: Message, head: Str) returns (result: Option<Str>)
    requires head == Head(m)
    ensures result == if NoneThrows(m.chunks, |m.chunks|) then Some(Printed(m, |m.chunks|)) else None
  {
    var bytes := head;
    for k := 0 to |m.chunks|
      invariant NoneThrows(m.chunks, k) && bytes == Printed(m, k)
    {
      var appended := AppendNext(m, k, bytes);
      if appended.None? {
        ThrowsForGood(m.chunks, k + 1, |m.chunks|);
        return None;
      }
      bytes := appended.value;
    }
    result := Some(bytes);
  }

  /** `GPGNetMessage::toBinary`; `None` when `asInt()` throws. */
  method ToBinary(m: Message) returns (result: Option<Str>)
    ensures result.None? <==> exists i :: 0 <= i < |m.chunks| && Throws(m.chunks[i])
    ensures result.Some? ==> result.value == Encode(m)
  {
    var bytes := EncodeInt32(LowInt32(|m.header|));
    bytes := bytes + m.header;
    bytes := bytes + EncodeInt32(LowInt32(|m.chunks|));
    PrintedAll(m);
    NoneThrowsIff(m.chunks, |m.chunks|);
    result := AppendChunks(m, bytes);
  }

  // ----------------------------------------------------------------- parsing

  /** What one attempt to read an item from the front of the buffer comes to. `Throw` is the
      `std::length_error` of a string or vector given a negative size. */
  datatype Parsed<+T> = Incomplete | Unsupported | Throw | Done(value: T, size: nat)

  function ParseChunk(b: Str): Parsed<Chunk> {
    if |b| < 1 then Incomplete
    else if |b| - 1 < 4 then Incomplete
    else
      var length := DecodeInt32(b[1..]);
      if b[0] == 0 then Done(IntValue(length), 5)
      else if b[0] != 1 then Unsupported
      else if |b| - 5 < length then Incomplete
      else if length < 0 then Throw
      else Done(StringValue(b[5..5 + length]), 5 + length)
  }

  function ParseChunks(b: Str, count: nat): (p: Parsed<seq<Chunk>>)
    ensures p.Done? ==> p.size <= |b| && |p.value| == count
    decreases count
  {
    if count == 0 then Done([], 0)
    else
      match ParseChunk(b)
      case Incomplete => Incomplete
      case Unsupported => Unsupported
      case Throw => Throw
      case Done(c, n) =>
        match ParseChunks(b[n..], count - 1)
        case Incomplete => Incomplete
        case Unsupported => Unsupported
        case Throw => Throw
        case Done(cs, k) => Done([c] + cs, n + k)
  }

  /** The chunk count and the chunks, once the header has been read. */
  function ParseBody(header: Str, b: Str): (p: Parsed<Message>)
    ensures p.Done? ==> 4 <= p.size <= |b|
  {
    if |b| < 4 then Incomplete
    else
      var chunkCount := DecodeInt32(b);
      if chunkCount < 0 then Throw
      else
        match ParseChunks(b[4..], chunkCount)
        case Incomplete => Incomplete
        case Unsupported => Unsupported
        case Throw => Throw
        case Done(cs, n) => Done(Message(header, cs), 4 + n)
  }

  /** One round of the outer loop of `parse`: at most one message from the front of the buffer. */
  function ParseMessage(b: Str): (p: Parsed<Message>)
    ensures p.Done? ==> 8 <= p.size <= |b|
  {
    if |b| <= 4 then Incomplete
    else
      var headerLength := DecodeInt32(b);
      if |b| - 4 < headerLength then Incomplete
      else if headerLength < 0 then Throw
      else
        match ParseBody(b[4..][..headerLength], b[4..][headerLength..])
        case Incomplete => Incomplete
        case Unsupported => Unsupported
        case Throw => Throw
        case Done(m, n) => Done(m, 4 + headerLength + n)
  }

  /** What `parse` as a whole leaves behind: the messages passed to the callback, the rest of
      the buffer, and whether it ended by throwing. */
  datatype Drained = Drained(messages: seq<Message>, rest: Str, thrown: bool)

  function Drain(b: Str): Drained
    decreases |b|
  {
    match ParseMessage(b)
    case Incomplete => Drained([], b, false)
    case Unsupported => Drained([], b, false)
    case Throw => Drained([], b, true)
    case Done(m, n) =>
      var later := Drain(b[n..]);
      Drained([m] + later.messages, later.rest, later.thrown)
  }

  // -------------------------------------------------------------- round trips

  /** Messages whose sizes fit the 32-bit length fields. */
  predicate Fits(m: Message) {
    && |m.header| < 0x8000_0000
    && |m.chunks| < 0x8000_0000
    && forall i :: 0 <= i < |m.chunks| ==> ChunkFits(m.chunks[i])
  }

  predicate ChunkFits(c: Chunk) {
    !Throws(c) && (c.StringValue? ==> |c.s| < 0x8000_0000)
  }

  predicate AllSupported(m: Message) {
    forall i :: 0 <= i < |m.chunks| ==> m.chunks[i] != OtherValue
  }

  lemma IntRoundTrip(i: Int32, rest: Str)
    ensures ParseChunk([0] + EncodeInt32(i) + rest) == Done(IntValue(i), 5)
  {
    Associate([0], EncodeInt32(i), rest);
    TakeDrop([0], EncodeInt32(i) + rest);
    DecodeEncode(i, rest);
  }

  lemma StringRoundTrip(s: Str, rest: Str)
    requires |s| < 0x8000_0000
    ensures ParseChunk([1] + EncodeInt32(|s|) + s + rest) == Done(StringValue(s), 5 + |s|)
  {
    Associate([1] + EncodeInt32(|s|), s, rest);
    Associate([1], EncodeInt32(|s|), s + rest);
    TakeDrop([1], EncodeInt32(|s|) + (s + rest));
    DecodeEncode(|s|, s + rest);
    TakeDrop([1] + EncodeInt32(|s|), s + rest);
    TakeDrop(s, rest);
  }

  lemma ChunkRoundTrip(c: Chunk, rest: Str)
    requires ChunkFits(c) && c != OtherValue
    ensures ParseChunk(EncodeChunk(c) + rest) == Done(Normal(c), |EncodeChunk(c)|)
  {
    match Normal(c)
    case IntValue(i) =>
      IntRoundTrip(i, rest);
    case StringValue(s) =>
      StringRoundTrip(s, rest);
  }

  lemma ChunkThenRest(c: Chunk, tail: Str, rest: Str, count: nat)
    requires ChunkFits(c) && c != OtherValue && ParseChunks(tail + rest, count).Done?
    ensures var later := ParseChunks(tail + rest, count);
            ParseChunks(EncodeChunk(c) + tail + rest, count + 1)
            == Done([Normal(c)] + later.value, |EncodeChunk(c)| + later.size)
  {
    Associate(EncodeChunk(c), tail, rest);
    TakeDrop(EncodeChunk(c), tail + rest);
    ChunkRoundTrip(c, tail + rest);
  }

  predicate Sendable(cs: seq<Chunk>) {
    cs == [] || (ChunkFits(cs[0]) && cs[0] != OtherValue && Sendable(cs[1..]))
  }

  lemma {:induction false} SendableIf(cs: seq<Chunk>)
    requires forall i :: 0 <= i < |cs| ==> ChunkFits(cs[i]) && cs[i] != OtherValue
    ensures Sendable(cs)
  {
    if cs != [] {
      SendableIf(cs[1..]);
    }
  }

  lemma ChunksUnfold(cs: seq<Chunk>)
    requires cs != []
    ensures EncodeChunks(cs) == EncodeChunk(cs[0]) + EncodeChunks(cs[1..])
    ensures NormalChunks(cs) == [Normal(cs[0])] + NormalChunks(cs[1..])
  {
  }

  lemma ChunksStep(c: Chunk, tail: Str, rest: Str, later: seq<Chunk>, all: Str, count: nat)
    requires ChunkFits(c) && c != OtherValue && ParseChunks(tail + rest, count) == Done(later, |tail|)
    requires all == EncodeChunk(c) + tail
    ensures ParseChunks(all + rest, count + 1) == Done([Normal(c)] + later, |all|)
  {
    ChunkThenRest(c, tail, rest, count);
  }

  lemma NoChunks(cs: seq<Chunk>, rest: Str)
    requires cs == []
    ensures ParseChunks(EncodeChunks(cs) + rest, |cs|) == Done(NormalChunks(cs), |EncodeChunks(cs)|)
  {
  }

  lemma OneChunkMore(cs: seq<Chunk>, c: Chunk, later: seq<Chunk>, rest: Str)
    requires cs != [] && c == cs[0] && later == cs[1..] && ChunkFits(c) && c != OtherValue
    requires ParseChunks(EncodeChunks(later) + rest, |later|) == Done(NormalChunks(later), |EncodeChunks(later)|)
    ensures ParseChunks(EncodeChunks(cs) + rest, |later| + 1) == Done(NormalChunks(cs), |EncodeChunks(cs)|)
  {
    ChunksUnfold(cs);
    ChunksStep(c, EncodeChunks(later), rest, NormalChunks(later), EncodeChunks(cs), |later|);
  }

  lemma {:induction false} ChunksRoundTrip(cs: seq<Chunk>, rest: Str)
    requires Sendable(cs)
    ensures ParseChunks(EncodeChunks(cs) + rest, |cs|)
         == Done(NormalChunks(cs), |EncodeChunks(cs)|)
  {
    if cs == [] {
      NoChunks(cs, rest);
    } else {
      ChunksRoundTrip(cs[1..], rest);
      OneChunkMore(cs, cs[0], cs[1..], rest);
    }
  }

  lemma BodyRoundTrip(m: Message, rest: Str)
    requires Deliverable(m)
    ensures ParseBody(m.header, EncodeBody(m.chunks) + rest) == Done(NormalMessage(m), |EncodeBody(m.chunks)|)
  {
    var tail := EncodeChunks(m.chunks) + rest;
    var b := EncodeInt32(|m.chunks|) + tail;
    assert EncodeBody(m.chunks) + rest == b;
    DecodeEncode(|m.chunks|, tail);
    assert b[4..] == tail;
    SendableIf(m.chunks);
    ChunksRoundTrip(m.chunks, rest);
  }

  lemma MessageRoundTrip(m: Message, rest: Str)
    requires Deliverable(m)
    ensures ParseMessage(Encode(m) + rest) == Done(NormalMessage(m), |Encode(m)|)
  {
    var n := |m.header|;
    var body := EncodeBody(m.chunks) + rest;
    var b := EncodeInt32(n) + (m.header + body);
    assert Encode(m) + rest == b;
    DecodeEncode(n, m.header + body);
    TakeDrop(EncodeInt32(n), m.header + body);
    TakeDrop(m.header, body);
    BodyRoundTrip(m, rest);
  }

  function EncodeAll(ms: seq<Message>): Str {
    if ms == [] then [] else Encode(ms[0]) + EncodeAll(ms[1..])
  }

  function NormalMessages(ms: seq<Message>): seq<Message> {
    if ms == [] then [] else [NormalMessage(ms[0])] + NormalMessages(ms[1..])
  }

  predicate Deliverable(m: Message) {
    Fits(m) && AllSupported(m)
  }

  lemma OneThenRest(m: Message, rest: Str)
    requires Deliverable(m)
    ensures Drain(Encode(m) + rest)
         == Drained([NormalMessage(m)] + Drain(rest).messages, Drain(rest).rest, Drain(rest).thrown)
  {
    MessageRoundTrip(m, rest);
    TakeDrop(Encode(m), rest);
  }

  /** Parsing a concatenation of encodings returns the messages in order and goes on with
      whatever follows them. */
  lemma {:induction false} StreamRoundTrip(ms: seq<Message>, rest: Str)
    requires forall i :: 0 <= i < |ms| ==> Deliverable(ms[i])
    ensures Drain(EncodeAll(ms) + rest)
         == Drained(NormalMessages(ms) + Drain(rest).messages, Drain(rest).rest, Drain(rest).thrown)
  {
    if ms == [] {
      TakeDrop([], rest);
    } else {
      Associate(Encode(ms[0]), EncodeAll(ms[1..]), rest);
      OneThenRest(ms[0], EncodeAll(ms[1..]) + rest);
      StreamRoundTrip(ms[1..], rest);
      Associate([NormalMessage(ms[0])], NormalMessages(ms[1..]), Drain(rest).messages);
    }
  }

  lemma ChunkReencodes(b: Str)
    requires ParseChunk(b).Done?
    ensures var p := ParseChunk(b);
            Wire(p.value) && p.size <= |b| && EncodeChunk(p.value) == b[..p.size]
  {
    EncodeDecode(b[1..]);
    assert b[1..][..4] == b[1..5];
    var p := ParseChunk(b);
    if p.value.StringValue? {
      assert b[..p.size] == [b[0]] + b[1..5] + b[5..p.size];
    } else {
      assert b[..p.size] == [b[0]] + b[1..5];
    }
  }

  /** A chunk as the parser produces it. */
  predicate Wire(c: Chunk) {
    ChunkFits(c) && c != OtherValue && Normal(c) == c
  }

  predicate AllWire(cs: seq<Chunk>) {
    forall i :: 0 <= i < |cs| ==> Wire(cs[i])
  }

  lemma {:induction false} WireIsNormal(cs: seq<Chunk>)
    requires AllWire(cs)
    ensures NormalChunks(cs) == cs
  {
    if cs == [] {
    } else {
      WireIsNormal(cs[1..]);
    }
  }

  lemma {:induction false} ChunksReencode(b: Str, count: nat)
    requires ParseChunks(b, count).Done?
    ensures var p := ParseChunks(b, count); AllWire(p.value) && EncodeChunks(p.value) == b[..p.size]
    decreases count
  {
    if count == 0 {
    } else {
      ChunkReencodes(b);
      var n := ParseChunk(b).size;
      ChunksReencode(b[n..], count - 1);
      var others := ParseChunks(b[n..], count - 1);
      var p := ParseChunks(b, count);
      assert p.value[1..] == others.value;
      SplitAt(b, n, p.size);
    }
  }

  lemma BodyReencodes(header: Str, b: Str)
    requires ParseBody(header, b).Done? && |header| < 0x8000_0000
    ensures var p := ParseBody(header, b);
            Fits(p.value) && AllSupported(p.value) && NormalMessage(p.value) == p.value
            && p.value.header == header && EncodeBody(p.value.chunks) == b[..p.size]
  {
    EncodeDecode(b);
    ChunksReencode(b[4..], DecodeInt32(b));
    var cs := ParseChunks(b[4..], DecodeInt32(b));
    WireIsNormal(cs.value);
    var p := ParseBody(header, b);
    SplitAt(b, 4, p.size);
  }

  lemma Reassembled(b: Str, n: nat, k: nat)
    requires 4 + n + k <= |b|
    ensures b[..4 + n + k] == b[..4] + (b[4..][..n] + b[4..][n..][..k])
  {
    SplitAt(b, 4, 4 + n + k);
    SplitAt(b[4..], n, n + k);
  }

  /** Every message delivered re-encodes to exactly the bytes erased for it. */
  lemma DeliveredReencodes(b: Str)
    requires ParseMessage(b).Done?
    ensures var p := ParseMessage(b);
            Fits(p.value) && AllSupported(p.value) && NormalMessage(p.value) == p.value
            && Encode(p.value) == b[..p.size]
  {
    var n := DecodeInt32(b);
    EncodeDecode(b);
    BodyReencodes(b[4..][..n], b[4..][n..]);
    Reassembled(b, n, ParseBody(b[4..][..n], b[4..][n..]).size);
  }

  lemma {:induction false} NormalChunkAt(cs: seq<Chunk>, i: nat)
    ensures |NormalChunks(cs)| == |cs|
    ensures i < |cs| ==> NormalChunks(cs)[i] == Normal(cs[i])
  {
    if cs == [] {
    } else {
      NormalChunkAt(cs[1..], if i > 0 then i - 1 else 0);
    }
  }

  /** What arrives for each chunk of a message: numbers and strings as they are, unsigned numbers as
      the same number, true as 1 and false as 0. */
  predicate ArrivesAs(sent: Chunk, got: Chunk) {
    match sent
    case IntValue(i) => got == IntValue(i)
    case UIntValue(u) => got == IntValue(u)
    case BoolValue(true) => got == IntValue(1)
    case BoolValue(false) => got == IntValue(0)
    case StringValue(s) => got == StringValue(s)
    case OtherValue => false
  }

  lemma ChunksArrive(m: Message, i: nat)
    requires Deliverable(m) && i < |m.chunks|
    ensures var ms := Drain(Encode(m)).messages;
            |ms| == 1 && ms[0].header == m.header && |ms[0].chunks| == |m.chunks|
            && ArrivesAs(m.chunks[i], ms[0].chunks[i])
  {
    OneThenRest(m, []);
    assert Encode(m) + [] == Encode(m);
    assert Drain([]) == Drained([], [], false);
    NormalChunkAt(m.chunks, i);
  }

  lemma ThreeChunks(a: Chunk, b: Chunk, c: Chunk)
    ensures EncodeChunks([a, b, c]) == EncodeChunk(a) + (EncodeChunk(b) + EncodeChunk(c))
  {
    assert [a, b, c][1..] == [b, c] && [b, c][1..] == [c] && [c][1..] == [];
    assert EncodeChunks([c]) == EncodeChunk(c) + [];
    assert EncodeChunk(c) + [] == EncodeChunk(c);
  }

  lemma ChunkLayout()
    ensures EncodeChunk(IntValue(-2)) == [0, 254, 255, 255, 255]
    ensures EncodeChunk(BoolValue(true)) == [0, 1, 0, 0, 0]
    ensures EncodeChunk(StringValue([98])) == [1, 1, 0, 0, 0, 98]
  {
    Four(1);
    Four(-2);
  }

  /** The layout of a message, byte by byte. */
  lemma Layout()
    ensures Encode(Message([65], [IntValue(-2), BoolValue(true), StringValue([98])]))
         == [1, 0, 0, 0, 65, 3, 0, 0, 0]
            + ([0, 254, 255, 255, 255] + ([0, 1, 0, 0, 0] + [1, 1, 0, 0, 0, 98]))
  {
    Four(1);
    Four(3);
    ChunkLayout();
    ThreeChunks(IntValue(-2), BoolValue(true), StringValue([98]));
    EncodeIsFlat(Message([65], [IntValue(-2), BoolValue(true), StringValue([98])]));
  }

  lemma Four(i: Int32)
    requires -3 < i < 256
    ensures EncodeInt32(i) == if i < 0 then [(256 + i) as u8, 255, 255, 255] else [i as u8, 0, 0, 0]
  {
    var n := if i < 0 then i + 0x1_0000_0000 else i;
    assert Digits(n, 4) == [(n % 256) as u8] + Digits(n / 256, 3);
    assert Digits(n / 256, 3) == [(n / 256 % 256) as u8] + Digits(n / 256 / 256, 2);
    assert Digits(n / 256 / 256, 2) == [(n / 256 / 256 % 256) as u8] + Digits(n / 256 / 256 / 256, 1);
    assert Digits(n / 256 / 256 / 256, 1) == [(n / 256 / 256 / 256 % 256) as u8] + Digits(n / 256 / 256 / 256 / 256, 0);
  }

  // ------------------------------------------------------- incremental parsing

  lemma ChunkExtends(b: Str, more: Str)
    requires !ParseChunk(b).Incomplete?
    ensures ParseChunk(b + more) == ParseChunk(b)
  {
    var c := b + more;
    assert c[1..] == b[1..] + more;
    WordExtends(b[1..], more);
    var p := ParseChunk(b);
    if p.Done? && p.value.StringValue? {
      assert c[5..p.size] == b[5..p.size];
    }
  }

  lemma {:induction false} ChunksExtend(b: Str, more: Str, count: nat)
    requires !ParseChunks(b, count).Incomplete?
    ensures ParseChunks(b + more, count) == ParseChunks(b, count)
    decreases count
  {
    if count == 0 {
    } else {
      ChunkExtends(b, more);
      var p := ParseChunk(b);
      if p.Done? {
        ChunkReencodes(b);
        Extended(b, more, p.size);
        ChunksExtend(b[p.size..], more, count - 1);
      }
    }
  }

  lemma BodyExtends(header: Str, b: Str, more: Str)
    requires !ParseBody(header, b).Incomplete?
    ensures ParseBody(header, b + more) == ParseBody(header, b)
  {
    WordExtends(b, more);
    if DecodeInt32(b) >= 0 {
      Extended(b, more, 4);
      ChunksExtend(b[4..], more, DecodeInt32(b));
    }
  }

  /** Once an attempt has succeeded, met an unsupported type byte or thrown, no further input
      changes its outcome; only incomplete data waits. */
  lemma OutcomeExtends(b: Str, more: Str)
    requires !ParseMessage(b).Incomplete?
    ensures ParseMessage(b + more) == ParseMessage(b)
  {
    WordExtends(b, more);
    var n := DecodeInt32(b);
    if n >= 0 {
      Extended(b, more, 4);
      Extended(b[4..], more, n);
      BodyExtends(b[4..][..n], b[4..][n..], more);
    }
  }

  lemma WholeParses(m: Message)
    requires Deliverable(m)
    ensures ParseMessage(Encode(m)) == Done(NormalMessage(m), |Encode(m)|)
  {
    MessageRoundTrip(m, []);
    assert Encode(m) + [] == Encode(m);
  }

  lemma JoinedAgain(b: Str, n: nat)
    requires n <= |b|
    ensures b[..n] + b[n..] == b
  {
  }

  lemma CutWaits(m: Message, whole: Str, cut: Str, rest: Str)
    requires ParseMessage(whole) == Done(m, |whole|) && cut + rest == whole && |cut| < |whole|
    ensures ParseMessage(cut) == Incomplete
  {
    if !ParseMessage(cut).Incomplete? {
      OutcomeExtends(cut, rest);
    }
  }

  /** An encoding cut short anywhere is incomplete: in particular the strict `<=` on the first
      length field never hides a complete message. */
  lemma ProperPrefixWaits(m: Message, n: nat)
    requires Deliverable(m) && n < |Encode(m)|
    ensures ParseMessage(Encode(m)[..n]) == Incomplete
  {
    WholeParses(m);
    JoinedAgain(Encode(m), n);
    CutWaits(NormalMessage(m), Encode(m), Encode(m)[..n], Encode(m)[n..]);
  }

  /** No encoding is a proper prefix of another, and two messages with the same encoding agree
      up to the normalisation of numbers. */
  lemma PrefixFree(m1: Message, m2: Message)
    requires Deliverable(m1) && Deliverable(m2)
    requires Encode(m1) <= Encode(m2)
    ensures Encode(m1) == Encode(m2) && NormalMessage(m1) == NormalMessage(m2)
  {
    PrefixParses(m1, Encode(m2));
    WholeParses(m2);
    WholePrefix(Encode(m1), Encode(m2));
  }

  lemma PrefixParses(m: Message, b: Str)
    requires Deliverable(m) && Encode(m) <= b
    ensures ParseMessage(b) == Done(NormalMessage(m), |Encode(m)|)
  {
    MessageRoundTrip(m, b[|Encode(m)|..]);
    assert Encode(m) + b[|Encode(m)|..] == b;
  }

  lemma WholePrefix(a: Str, b: Str)
    requires a <= b
    ensures |a| == |b| ==> a == b
  {
  }

  /** The whole of the decoder in one equivalence: a message is taken off the front of the
      buffer exactly when the buffer starts with the encoding of a (normal) message. */
  lemma DecoderInvertsEncoder(b: Str, m: Message)
    ensures (ParseMessage(b).Done? && ParseMessage(b).value == m)
       <==> (Fits(m) && AllSupported(m) && NormalMessage(m) == m && Encode(m) <= b)
  {
    if Fits(m) && AllSupported(m) && NormalMessage(m) == m && Encode(m) <= b {
      PrefixParses(m, b);
    }
    if ParseMessage(b).Done? && ParseMessage(b).value == m {
      DeliveredReencodes(b);
    }
  }

  // ------------------------------------------------------- unsupported values

  /** The chunks that are actually written. */
  function Written(cs: seq<Chunk>): (w: seq<Chunk>)
    ensures |w| <= |cs|
    ensures |w| < |cs| <==> OtherValue in cs
    ensures forall i :: 0 <= i < |w| ==> w[i] in cs && w[i] != OtherValue
  {
    if cs == [] then []
    else
      assert cs == [cs[0]] + cs[1..];
      if cs[0] == OtherValue then Written(cs[1..]) else [cs[0]] + Written(cs[1..])
  }

  lemma {:induction false} WrittenEncodes(cs: seq<Chunk>)
    ensures EncodeChunks(cs) == EncodeChunks(Written(cs))
  {
    if cs == [] {
    } else {
      WrittenEncodes(cs[1..]);
      if cs[0] != OtherValue {
        assert Written(cs)[1..] == Written(cs[1..]);
      }
    }
  }

  function Zeros(n: nat): (z: seq<Chunk>)
    ensures |z| == n && forall i :: 0 <= i < n ==> z[i] == IntValue(0)
  {
    seq(n, _ => IntValue(0))
  }

  lemma ShorterChunks(header: Str, cs: seq<Chunk>, more: seq<Chunk>, all: seq<Chunk>)
    requires |all| == |cs + more| && EncodeChunks(all) == EncodeChunks(cs)
    ensures Encode(Message(header, cs + more)) == Encode(Message(header, all)) + EncodeChunks(more)
  {
    EncodeChunksConcat(cs, more);
    var tail := EncodeChunks(more);
    Associate(EncodeInt32(LowInt32(|all|)), EncodeChunks(all), tail);
    Associate(header, EncodeBody(all), tail);
    Associate(EncodeInt32(LowInt32(|header|)), header + EncodeBody(all), tail);
  }

  /** The chunks that are written, and zeros in the place of the others. */
  function Filled(cs: seq<Chunk>): (r: seq<Chunk>)
    ensures |r| == |cs| && OtherValue !in r
    ensures forall i :: 0 <= i < |r| ==> r[i] in cs || r[i] == IntValue(0)
  {
    Written(cs) + Zeros(|cs| - |Written(cs)|)
  }

  lemma FilledIsDeliverable(m: Message)
    requires Fits(m)
    ensures Deliverable(Message(m.header, Filled(m.chunks)))
  {
    var r := Filled(m.chunks);
    forall i | 0 <= i < |r| ensures ChunkFits(r[i]) && r[i] != OtherValue {
      assert r[i] in r;
    }
  }

  /** The supported message of which the bytes written for m are a proper prefix. */
  lemma Completed(m: Message) returns (full: Message)
    requires Fits(m) && !AllSupported(m)
    ensures Deliverable(full)
    ensures |Encode(m)| < |Encode(full)| && Encode(full)[..|Encode(m)|] == Encode(m)
  {
    var written := Written(m.chunks);
    var fill := Zeros(|m.chunks| - |written|);
    full := Message(m.header, Filled(m.chunks));
    FilledIsDeliverable(m);
    WrittenEncodes(m.chunks);
    ShorterChunks(m.header, written, fill, m.chunks);
    assert |EncodeChunks(fill)| >= |EncodeChunk(fill[0])| == 5;
    TakeDrop(Encode(m), EncodeChunks(fill));
  }

  /** A message encodes to something the receiver delivers as that message exactly when every
      chunk has a supported type. An unsupported chunk is counted but not written, and as long as
      nothing follows, the receiver waits for it. */
  lemma DeliverableIffSupported(m: Message)
    requires Fits(m)
    ensures AllSupported(m) ==> Drain(Encode(m)) == Drained([NormalMessage(m)], [], false)
    ensures !AllSupported(m) ==> Drain(Encode(m)) == Drained([], Encode(m), false)
  {
    if AllSupported(m) {
      WholeParses(m);
      assert Encode(m)[|Encode(m)|..] == [];
      assert Drain([]) == Drained([], [], false);
    } else {
      var full := Completed(m);
      ProperPrefixWaits(full, |Encode(m)|);
    }
  }

  /** Chunks that have been read, and what comes of those behind them. */
  function Behind(first: seq<Chunk>, size: nat, later: Parsed<seq<Chunk>>): Parsed<seq<Chunk>> {
    match later
    case Incomplete => Incomplete
    case Unsupported => Unsupported
    case Throw => Throw
    case Done(cs, n) => Done(first + cs, size + n)
  }

  lemma BehindOne(c: Chunk, b: Str, rest: Str, total: nat, later: Parsed<seq<Chunk>>)
    requires ChunkFits(c) && c != OtherValue && total > 0
    requires b == EncodeChunk(c) + rest && ParseChunks(rest, total - 1) == later
    ensures ParseChunks(b, total) == Behind([Normal(c)], |EncodeChunk(c)|, later)
  {
    TakeDrop(EncodeChunk(c), rest);
    ChunkRoundTrip(c, rest);
  }

  lemma BehindBoth(a: seq<Chunk>, n: nat, b: seq<Chunk>, k: nat, later: Parsed<seq<Chunk>>)
    ensures Behind(a, n, Behind(b, k, later)) == Behind(a + b, n + k, later)
  {
    if later.Done? {
      Associate(a, b, later.value);
    }
  }

  lemma MoreStep(c: Chunk, tail: Str, x: Str, first: seq<Chunk>, all: Str, total: nat, later: Parsed<seq<Chunk>>)
    requires ChunkFits(c) && c != OtherValue && total > 0
    requires ParseChunks(tail + x, total - 1) == Behind(first, |tail|, later) && all == EncodeChunk(c) + tail
    ensures ParseChunks(all + x, total) == Behind([Normal(c)] + first, |all|, later)
  {
    Associate(EncodeChunk(c), tail, x);
    BehindOne(c, all + x, tail + x, total, Behind(first, |tail|, later));
    BehindBoth([Normal(c)], |EncodeChunk(c)|, first, |tail|, later);
  }

  lemma MoreBehindFirst(cs: seq<Chunk>, tail: Str, first: seq<Chunk>, x: Str, total: nat, later: Parsed<seq<Chunk>>)
    requires cs != [] && Sendable(cs) && total > 0
    requires tail == EncodeChunks(cs[1..]) && first == NormalChunks(cs[1..])
    requires ParseChunks(tail + x, total - 1) == Behind(first, |tail|, later)
    ensures ParseChunks(EncodeChunks(cs) + x, total) == Behind(NormalChunks(cs), |EncodeChunks(cs)|, later)
  {
    ChunksUnfold(cs);
    MoreStep(cs[0], tail, x, first, EncodeChunks(cs), total, later);
  }

  /** More chunks are asked for than were written: the others are read from what follows. */
  lemma {:induction false} MoreAreRead(cs: seq<Chunk>, x: Str, total: nat, later: Parsed<seq<Chunk>>)
    requires Sendable(cs) && total >= |cs| && ParseChunks(x, total - |cs|) == later
    ensures ParseChunks(EncodeChunks(cs) + x, total) == Behind(NormalChunks(cs), |EncodeChunks(cs)|, later)
    decreases |cs|
  {
    if cs == [] {
      NothingWritten(x);
      NothingInFront(later);
    } else {
      MoreAreRead(cs[1..], x, total - 1, later);
      MoreBehindFirst(cs, EncodeChunks(cs[1..]), NormalChunks(cs[1..]), x, total, later);
    }
  }

  lemma NothingWritten(x: Str)
    ensures EncodeChunks([]) + x == x && EncodeChunks([]) == [] && NormalChunks([]) == []
  {
  }

  lemma NothingInFront(p: Parsed<seq<Chunk>>)
    ensures Behind([], 0, p) == p
  {
    if p.Done? {
      assert [] + p.value == p.value;
    }
  }

  /** How many chunks are counted but not written. */
  function Missing(m: Message): nat {
    |m.chunks| - |Written(m.chunks)|
  }

  lemma WrittenIsSendable(m: Message)
    requires Fits(m)
    ensures Sendable(Written(m.chunks))
  {
    SendableIf(Written(m.chunks));
  }

  /** A message with some chunks, and what comes of those behind them. */
  function Headed(header: Str, first: seq<Chunk>, size: nat, later: Parsed<seq<Chunk>>): Parsed<Message> {
    match later
    case Incomplete => Incomplete
    case Unsupported => Unsupported
    case Throw => Throw
    case Done(cs, n) => Done(Message(header, first + cs), size + n)
  }

  lemma BodyFrom(header: Str, count: nat, tail: Str)
    requires count < 0x8000_0000
    ensures ParseBody(header, EncodeInt32(count) + tail) == Headed(header, [], 4, ParseChunks(tail, count))
  {
    DecodeEncode(count, tail);
    TakeDrop(EncodeInt32(count), tail);
    var p := ParseChunks(tail, count);
    if p.Done? {
      assert [] + p.value == p.value;
    }
  }

  lemma HeadedBehind(header: Str, first: seq<Chunk>, size: nat, later: Parsed<seq<Chunk>>)
    ensures Headed(header, [], 4, Behind(first, size, later)) == Headed(header, first, 4 + size, later)
  {
    if later.Done? {
      assert [] + (first + later.value) == first + later.value;
    }
  }

  lemma BodyReadsOn(m: Message, x: Str)
    requires Fits(m)
    ensures ParseBody(m.header, EncodeBody(m.chunks) + x)
         == Headed(m.header, NormalChunks(Written(m.chunks)), |EncodeBody(m.chunks)|, ParseChunks(x, Missing(m)))
  {
    var w := Written(m.chunks);
    WrittenIsSendable(m);
    WrittenEncodes(m.chunks);
    MoreAreRead(w, x, |m.chunks|, ParseChunks(x, Missing(m)));
    Associate(EncodeInt32(|m.chunks|), EncodeChunks(w), x);
    BodyFrom(m.header, |m.chunks|, EncodeChunks(w) + x);
    HeadedBehind(m.header, NormalChunks(w), |EncodeChunks(w)|, ParseChunks(x, Missing(m)));
  }

  lemma MessageFrom(header: Str, body: Str)
    requires |header| < 0x8000_0000 && |header + body| > 0
    ensures ParseMessage(EncodeInt32(|header|) + (header + body))
         == match ParseBody(header, body)
            case Incomplete => Incomplete
            case Unsupported => Unsupported
            case Throw => Throw
            case Done(m, n) => Done(m, 4 + |header| + n)
  {
    DecodeEncode(|header|, header + body);
    TakeDrop(EncodeInt32(|header|), header + body);
    TakeDrop(header, body);
  }

  /** What the receiver makes of a message and any bytes behind it: the chunks that were counted but
      not written are read from these bytes. */
  lemma MissingChunksAreRead(m: Message, x: Str)
    requires Fits(m)
    ensures ParseMessage(Encode(m) + x)
         == Headed(m.header, NormalChunks(Written(m.chunks)), |Encode(m)|, ParseChunks(x, Missing(m)))
  {
    Associate(EncodeInt32(|m.header|), m.header + EncodeBody(m.chunks), x);
    Associate(m.header, EncodeBody(m.chunks), x);
    MessageFrom(m.header, EncodeBody(m.chunks) + x);
    BodyReadsOn(m, x);
  }

  /** If these begin with a byte that is no type, nothing is delivered any more. */
  lemma NoTypeStopsForGood(m: Message, x: Str)
    requires Fits(m) && !AllSupported(m) && |x| >= 5 && x[0] >= 2
    ensures Drain(Encode(m) + x) == Drained([], Encode(m) + x, false)
  {
    MissingChunksAreRead(m, x);
    assert OtherValue in m.chunks;
    assert ParseChunk(x) == Unsupported;
  }

  lemma LowByte(n: nat, rest: Str)
    requires n < 0x8000_0000
    ensures (EncodeInt32(n) + rest)[0] as int == n % 256
  {
  }

  /** What follows is the next message, and the first byte of that the low byte of the length of its
      header. So with a header of two letters or more, up to 255, the connection is dead for good. */
  lemma NextMessageStops(m: Message, next: Message, more: Str)
    requires Fits(m) && !AllSupported(m) && Fits(next) && |next.header| % 256 >= 2
    ensures Drain(Encode(m) + (Encode(next) + more)) == Drained([], Encode(m) + (Encode(next) + more), false)
  {
    var n := |next.header|;
    var behind := next.header + EncodeBody(next.chunks);
    assert Encode(next) == EncodeInt32(n) + behind;
    Associate(EncodeInt32(n), behind, more);
    LowByte(n, behind + more);
    NoTypeStopsForGood(m, Encode(next) + more);
  }

  lemma FirstOff(b: Str, m: Message, n: nat, rest: Str)
    requires ParseMessage(b) == Done(m, n) && b[n..] == rest
    ensures Drain(b) == Drained([m] + Drain(rest).messages, Drain(rest).rest, Drain(rest).thrown)
  {
  }

  /** If they begin with the type of a number or a string, and the chunk of that type is there and
      the only one missing, a message is delivered that nobody has sent, and these bytes are gone. */
  lemma ChunkIsSwallowed(m: Message, x: Str, c: Chunk, n: nat)
    requires Fits(m) && Missing(m) == 1 && ParseChunk(x) == Done(c, n)
    ensures n <= |x|
    ensures Drain(Encode(m) + x)
         == Drained([Message(m.header, NormalChunks(Written(m.chunks)) + [c])] + Drain(x[n..]).messages,
                    Drain(x[n..]).rest, Drain(x[n..]).thrown)
  {
    MissingChunksAreRead(m, x);
    OneChunk(x, c, n);
    OneSwallowed(m.header, NormalChunks(Written(m.chunks)), Encode(m), x, c, n);
  }

  lemma OneSwallowed(header: Str, first: seq<Chunk>, a: Str, x: Str, c: Chunk, n: nat)
    requires n <= |x| && ParseMessage(a + x) == Headed(header, first, |a|, Done([c], n))
    ensures Drain(a + x)
         == Drained([Message(header, first + [c])] + Drain(x[n..]).messages, Drain(x[n..]).rest, Drain(x[n..]).thrown)
  {
    Beyond(a, x, n);
    FirstOff(a + x, Message(header, first + [c]), |a| + n, x[n..]);
  }

  lemma OneChunk(x: Str, c: Chunk, n: nat)
    requires ParseChunk(x) == Done(c, n)
    ensures n <= |x| && ParseChunks(x, 1) == Done([c], n)
  {
    ChunkReencodes(x);
    assert ParseChunks(x[n..], 0) == Done([], 0);
    assert [c] + [] == [c];
  }

  lemma Beyond(a: Str, x: Str, n: nat)
    requires n <= |x|
    ensures (a + x)[|a| + n..] == x[n..]
  {
  }

  /** Such a pair of messages: the second, with an empty header, is taken for the missing number. */
  lemma NobodySentThis(m: Message, next: Message)
    requires m == Message(Ascii("A"), [OtherValue]) && next == Message([], [])
    ensures Deliverable(next)
    ensures Drain(Encode(m) + Encode(next)).messages == [Message(Ascii("A"), [IntValue(0)])]
  {
    EmptyMessage();
    assert m.chunks[1..] == [] && Written([]) == [];
    ChunkIsSwallowed(m, Encode(next), IntValue(0), 5);
    assert NormalChunks([]) + [IntValue(0)] == [IntValue(0)];
    var swallowed := Message(m.header, [IntValue(0)]);
    assert [swallowed] + [] == [swallowed];
  }

  lemma EmptyMessage()
    ensures var x := Encode(Message([], []));
            |x| == 8 && ParseChunk(x) == Done(IntValue(0), 5) && Drain(x[5..]).messages == []
  {
    var x := Encode(Message([], []));
    assert x == EncodeInt32(0) + EncodeInt32(0);
    assert EncodeInt32(0) == [0] + Digits(0, 3);
    assert Digits(0, 3) == [0] + Digits(0, 2);
    assert Digits(0, 2) == [0] + Digits(0, 1);
    assert Digits(0, 1) == [0] + Digits(0, 0);
    assert x[1..] == EncodeInt32(0) + [0, 0, 0];
    DecodeEncode(0, [0, 0, 0]);
  }

  // ------------------------------------------------------------- negative sizes

  /** Four bytes are not looked at yet, even if they are a negative length; with a fifth it throws. */
  lemma NegativeHeaderThrows(b: Str)
    ensures |b| <= 4 ==> Drain(b) == Drained([], b, false)
    ensures |b| >= 5 && DecodeInt32(b) < 0 ==> Drain(b) == Drained([], b, true)
  {
  }

  lemma NegativeCountThrows(header: Str, count: Int32, x: Str)
    requires |header| < 0x8000_0000 && count < 0
    ensures var b := EncodeInt32(|header|) + (header + (EncodeInt32(count) + x)); Drain(b) == Drained([], b, true)
  {
    DecodeEncode(count, x);
    MessageFrom(header, EncodeInt32(count) + x);
  }

  /** So does a string of negative length, behind any chunks. */
  lemma NegativeStringThrows(m: Message, x: Str)
    requires Fits(m) && Missing(m) >= 1 && |x| >= 5 && x[0] == 1 && DecodeInt32(x[1..]) < 0
    ensures Drain(Encode(m) + x) == Drained([], Encode(m) + x, true)
  {
    MissingChunksAreRead(m, x);
    assert ParseChunk(x) == Throw;
    assert ParseChunks(x, Missing(m)) == Throw;
  }
}
