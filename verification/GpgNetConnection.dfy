/** The receiving side of a GPGNet TCP connection (`GPGNetConnectionHandler`): bytes are appended
    to a buffer read by read, and `parse` takes complete messages off its front. */
module GpgNetConnection {
  import opened Bytes
  import opened GpgNetMessage

  // ------------------------------------------------------------ specification

  const FRESH := Drained([], [], false)

  /** One non-empty `Recv` followed by `parse`. After an exception nothing more is read. */
  function Receive(h: Drained, piece: Str): Drained {
    if h.thrown then h
    else
      var d := Drain(h.rest + piece);
      Drained(h.messages + d.messages, d.rest, d.thrown)
  }

  function ReceiveAll(h: Drained, pieces: seq<Str>): Drained {
    if pieces == [] then h
    else Receive(ReceiveAll(h, pieces[..|pieces| - 1]), pieces[|pieces| - 1])
  }

  function Stream(pieces: seq<Str>): Str {
    if pieces == [] then [] else Stream(pieces[..|pieces| - 1]) + pieces[|pieces| - 1]
  }

  // ----------------------------------------------------------- implementation

  /** The result that the chunk loop over s, started at `from`, is heading for when it has read
      the first k chunks and stands at position `at`. */
  function Heading(s: Str, from: nat, count: nat, chunks: seq<Chunk>, at: nat, k: nat): Parsed<seq<Chunk>>
    requires from <= at <= |s| && k <= count
  {
    match ParseChunks(s[at..], count - k)
    case Done(later, n) => Done(chunks + later, at - from + n)
    case failed => failed
  }

  lemma HeadingStarts(s: Str, from: nat, count: nat)
    requires from <= |s|
    ensures Heading(s, from, count, [], from, 0) == ParseChunks(s[from..], count)
  {
    var p := ParseChunks(s[from..], count);
    if p.Done? {
      assert [] + p.value == p.value;
    }
  }

  lemma HeadingKept(s: Str, from: nat, count: nat, chunks: seq<Chunk>, at: nat, k: nat, c: Chunk, n: nat)
    requires from <= at <= |s| && k < count && ParseChunk(s[at..]) == Done(c, n)
    ensures at + n <= |s|
    ensures Heading(s, from, count, chunks, at, k) == Heading(s, from, count, chunks + [c], at + n, k + 1)
  {
    assert s[at..][n..] == s[at + n..];
    var later := ParseChunks(s[at + n..], count - (k + 1));
    if later.Done? {
      Associate(chunks, [c], later.value);
    }
  }

  lemma HeadingEnds(s: Str, from: nat, count: nat, chunks: seq<Chunk>, at: nat)
    requires from <= at <= |s|
    ensures Heading(s, from, count, chunks, at, count) == Done(chunks, at - from)
  {
    assert chunks + [] == chunks;
  }

  /** Reading a chunk in place, at a position of the buffer. */
  lemma ChunkAt(s: Str, at: nat)
    requires at <= |s|
    ensures |s| - at < 5 ==> ParseChunk(s[at..]) == Incomplete
    ensures |s| - at >= 5 ==>
              var length := DecodeInt32(s[at + 1..]);
              ParseChunk(s[at..])
              == if s[at] == 0 then Done(IntValue(length), 5)
                 else if s[at] != 1 then Unsupported
                 else if |s| - at - 5 < length then Incomplete
                 else if length < 0 then Throw
                 else Done(StringValue(s[at + 5..at + 5 + length]), 5 + length)
  {
    if |s| - at >= 5 {
      assert s[at..][1..] == s[at + 1..];
      var length := DecodeInt32(s[at + 1..]);
      if 0 <= length <= |s| - at - 5 {
        assert s[at..][5..5 + length] == s[at + 5..at + 5 + length];
      }
    }
  }

  /** Reading the body of a message in place, behind a header of n bytes. */
  lemma BodyAt(s: Str, n: nat)
    requires 4 + n <= |s|
    ensures s[4..][n..] == s[4 + n..]
    ensures 8 + n <= |s| ==> s[4..][n..][4..] == s[8 + n..]
  {
  }

  class Handler {
    var currentMsg: Str
    /** Everything passed to `SignalNewGPGNetMessage` so far. */
    var emitted: seq<Message>

    constructor ()
      ensures currentMsg == [] && emitted == []
    {
      currentMsg, emitted := [], [];
    }

    /** The body of the inner `for` loop of `parse`: one chunk at position `at`. */
    method ParseChunkAt(at: nat) returns (p: Parsed<Chunk>)
      requires at <= |currentMsg|
      ensures p == ParseChunk(currentMsg[at..])
    {
      ChunkAt(currentMsg, at);
      var it := at;
      if |currentMsg| - it < 1 {
        return Incomplete;
      }
      var code := currentMsg[it];
      it := it + 1;
      if |currentMsg| - it < 4 {
        return Incomplete;
      }
      var length: int := DecodeInt32(currentMsg[it..]);
      it := it + 4;
      if code == 0 {
        return Done(IntValue(length), it - at);
      }
      if code != 1 {
        return Unsupported;
      }
      if |currentMsg| - it < length {
        return Incomplete;
      }
      if length < 0 {
        return Throw;
      }
      var text := currentMsg[it..it + length];
      it := it + length;
      p := Done(StringValue(text), it - at);
    }

    /** The inner `for` loop of `parse` over the chunks that start at position `from`. */
    method ParseChunkLoop(from: nat, chunkCount: nat) returns (p: Parsed<seq<Chunk>>)
      requires from <= |currentMsg|
      ensures p == ParseChunks(currentMsg[from..], chunkCount)
    {
      var it := from;
      var chunks: seq<Chunk> := [];
      ghost var whole := ParseChunks(currentMsg[from..], chunkCount);
      HeadingStarts(currentMsg, from, chunkCount);
      for chunkIndex := 0 to chunkCount
        invariant from <= it <= |currentMsg|
        invariant Heading(currentMsg, from, chunkCount, chunks, it, chunkIndex) == whole
      {
        var here := ParseChunkAt(it);
        match here
        case Incomplete => return Incomplete;
        case Unsupported => return Unsupported;
        case Throw => return Throw;
        case Done(chunk, n) =>
          HeadingKept(currentMsg, from, chunkCount, chunks, it, chunkIndex, chunk, n);
          chunks := chunks + [chunk];
          it := it + n;
      }
      HeadingEnds(currentMsg, from, chunkCount, chunks, it);
      p := Done(chunks, it - from);
    }

    /** The body of the outer `while` loop of `parse`, up to the callback. */
    method ParseOnce() returns (p: Parsed<Message>)
      ensures p == ParseMessage(currentMsg)
    {
      if |currentMsg| <= 4 {
        return Incomplete;
      }
      var headerLength: int := DecodeInt32(currentMsg);
      if |currentMsg| - 4 < headerLength {
        return Incomplete;
      }
      if headerLength < 0 {
        return Throw;
      }
      var header := currentMsg[4..][..headerLength];
      var it := 4 + headerLength;
      BodyAt(currentMsg, headerLength);
      if |currentMsg| - it < 4 {
        return Incomplete;
      }
      var chunkCount := DecodeInt32(currentMsg[it..]);
      it := it + 4;
      if chunkCount < 0 {
        return Throw;
      }
      var chunks := ParseChunkLoop(it, chunkCount);
      match chunks
      case Incomplete => return Incomplete;
      case Unsupported => return Unsupported;
      case Throw => return Throw;
      case Done(cs, n) => return Done(Message(header, cs), it + n);
    }

    /** `GPGNetMessage::parse` on the handler's own buffer; says whether it threw. */
    method Parse() returns (threw: bool)
      modifies this
      ensures var d := Drain(old(currentMsg));
              currentMsg == d.rest && emitted == old(emitted) + d.messages && threw == d.thrown
    {
      ghost var whole := Drain(currentMsg);
      assert old(emitted) + whole.messages == emitted + whole.messages;
      while true
        invariant var now := Drain(currentMsg);
                  whole.rest == now.rest && whole.thrown == now.thrown
                  && old(emitted) + whole.messages == emitted + now.messages
        decreases |currentMsg|
      {
        var p := ParseOnce();
        if !p.Done? {
          assert emitted + [] == emitted;
          return p.Throw?;
        }
        Associate(emitted, [p.value], Drain(currentMsg[p.size..]).messages);
        emitted := emitted + [p.value];
        currentMsg := currentMsg[p.size..];
      }
    }

    /** `_onRead`: the successive results of `Recv` until it returns nothing more. */
    method OnRead(received: seq<Str>) returns (threw: bool)
      modifies this
      ensures var d := ReceiveAll(Drained(old(emitted), old(currentMsg), false), received);
              emitted == d.messages && currentMsg == d.rest && threw == d.thrown
    {
      ghost var start := Drained(emitted, currentMsg, false);
      for k := 0 to |received|
        invariant ReceiveAll(start, received[..k]) == Drained(emitted, currentMsg, false)
      {
        assert received[..k + 1][..k] == received[..k];
        currentMsg := currentMsg + received[k];
        threw := Parse();
        if threw {
          ThrownStays(start, received, k + 1);
          return;
        }
      }
      assert received[..|received|] == received;
      threw := false;
    }
  }

  lemma {:induction false} ThrownStays(h: Drained, pieces: seq<Str>, k: nat)
    requires k <= |pieces| && ReceiveAll(h, pieces[..k]).thrown
    ensures ReceiveAll(h, pieces) == ReceiveAll(h, pieces[..k])
  {
    if k == |pieces| {
      assert pieces[..k] == pieces;
    } else {
      var shorter := pieces[..|pieces| - 1];
      assert shorter[..k] == pieces[..k];
      ThrownStays(h, shorter, k);
    }
  }

  // ------------------------------------------------------ independence of chunking

  /** Parsing may stop anywhere and resume with the residue: the outcome is that of parsing
      everything at once. An exception, once certain, stays certain. */
  lemma {:induction false} DrainResumes(a: Str, b: Str)
    ensures var d := Drain(a);
            var whole := Drain(a + b);
            if d.thrown then whole.thrown && whole.messages == d.messages
            else whole == Drained(d.messages + Drain(d.rest + b).messages,
                                  Drain(d.rest + b).rest, Drain(d.rest + b).thrown)
    decreases |a|
  {
    var p := ParseMessage(a);
    if !p.Incomplete? {
      OutcomeExtends(a, b);
    }
    if p.Done? {
      Extended(a, b, p.size);
      DrainResumes(a[p.size..], b);
      var d := Drain(a[p.size..]);
      Associate([p.value], d.messages, Drain(d.rest + b).messages);
    } else {
      assert [] + Drain(a + b).messages == Drain(a + b).messages;
    }
  }

  /** For any byte stream and any split into reads, the same messages are delivered in the same
      order, an exception is thrown in both cases or in neither, and the same residue waits. */
  lemma {:induction false} ChunkingIndependence(pieces: seq<Str>)
    ensures var split := ReceiveAll(FRESH, pieces);
            var whole := Drain(Stream(pieces));
            split.messages == whole.messages && split.thrown == whole.thrown
            && (!whole.thrown ==> split.rest == whole.rest)
  {
    if pieces == [] {
    } else {
      var front, last := pieces[..|pieces| - 1], pieces[|pieces| - 1];
      ChunkingIndependence(front);
      DrainResumes(Stream(front), last);
    }
  }

  /** Two ways of splitting the same bytes cannot be told apart by the receiver of messages. */
  lemma SplitsAgree(p: seq<Str>, q: seq<Str>)
    requires Stream(p) == Stream(q)
    ensures ReceiveAll(FRESH, p).messages == ReceiveAll(FRESH, q).messages
    ensures ReceiveAll(FRESH, p).thrown == ReceiveAll(FRESH, q).thrown
    ensures !ReceiveAll(FRESH, p).thrown ==> ReceiveAll(FRESH, p) == ReceiveAll(FRESH, q)
  {
    ChunkingIndependence(p);
    ChunkingIndependence(q);
  }

  /** What a sender encodes arrives, message for message, however TCP cuts the bytes. */
  lemma Transport(ms: seq<Message>, pieces: seq<Str>)
    requires forall i :: 0 <= i < |ms| ==> Deliverable(ms[i])
    requires Stream(pieces) == EncodeAll(ms)
    ensures ReceiveAll(FRESH, pieces) == Drained(NormalMessages(ms), [], false)
  {
    ChunkingIndependence(pieces);
    StreamRoundTrip(ms, []);
    assert EncodeAll(ms) + [] == EncodeAll(ms);
    assert NormalMessages(ms) + [] == NormalMessages(ms);
  }

  /** After an unsupported type byte nothing is delivered any more, whatever follows. */
  lemma UnsupportedStopsDelivery(b: Str, more: Str)
    requires ParseMessage(Drain(b).rest).Unsupported? && !Drain(b).thrown
    ensures Drain(b + more) == Drained(Drain(b).messages, Drain(b).rest + more, false)
  {
    DrainResumes(b, more);
    OutcomeExtends(Drain(b).rest, more);
  }
}
