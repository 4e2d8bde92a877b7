/** A call from one peer to the other and back, through the characters on the connection. */
module RpcWire {
  import opened Bytes
  import opened JsonFraming
  import opened JsonStream
  import opened JsonText
  import opened RpcCalls
  import opened Trim

  /** The reader makes of the written objects what was written. */
  ghost predicate Understands(reader: string -> Reading<Fields>, messages: seq<Fields>) {
    forall i :: 0 <= i < |messages| ==> reader(Write(Obj(messages[i]))) == Reading(true, Some(messages[i]))
  }

  predicate AllTame(messages: seq<Fields>) {
    forall i :: 0 <= i < |messages| ==> TameFields(messages[i])
  }

  lemma {:induction false} ValuesOfWritten(reader: string -> Reading<Fields>, messages: seq<Fields>)
    requires Understands(reader, messages)
    ensures Accepted(reader, Written(messages)) && Values(reader, Written(messages)) == messages
  {
    if messages != [] {
      ValuesOfWritten(reader, messages[1..]);
      assert Written(messages)[1..] == Written(messages[1..]);
    }
  }

  /** Messages written by one peer between blanks, and read in pieces that lose no blanks, are the
      messages that the other peer gets, in order. */
  lemma StreamConveys(reader: string -> Reading<Fields>, pieces: seq<string>, gaps: seq<string>, messages: seq<Fields>)
    requires |gaps| == |messages| + 1 && forall i :: 0 <= i < |gaps| ==> AllBlank(gaps[i])
    requires Joined(pieces) == Interleaved(gaps, Written(messages)) && Lossless(pieces)
    requires AllTame(messages) && Understands(reader, messages)
    ensures JsonStream.Run(reader, pieces).values == messages
  {
    ValuesOfWritten(reader, messages);
    TameObjectsArriveIff(reader, pieces, gaps, messages);
  }

  // ------------------------------------------------------------ what a call writes

  lemma FieldIsTame(key: string, value: Json, rest: Fields)
    requires '"' !in key && Tame(value) && TameFields(rest)
    ensures TameFields(Field(key, value, rest))
  {
    QuotelessIsTame(key);
  }

  lemma TextIsTame(s: string)
    requires '"' !in s
    ensures Tame(Str(s))
  {
    QuotelessIsTame(s);
  }

  lemma VersionIsTame(rest: Fields)
    requires TameFields(rest)
    ensures TameFields(Version(rest))
  {
    TextIsTame("2.0");
    FieldIsTame("jsonrpc", Str("2.0"), rest);
  }

  lemma RequestIsTame(name: string, params: Json, id: int)
    requires TameString(name) && Tame(params)
    ensures TameFields(Request(name, params, Some(Int(id))))
  {
    var last := Field("params", params, NoFields);
    var inner := Field("method", Str(name), last);
    FieldIsTame("params", params, NoFields);
    FieldIsTame("method", Str(name), last);
    VersionIsTame(inner);
    FieldIsTame("id", Int(id), Version(inner));
  }

  lemma ResultIsTame(id: int, value: Json)
    requires Tame(value)
    ensures TameFields(ResultResponse(Some(Int(id)), value))
  {
    var inner := Field("result", value, NoFields);
    FieldIsTame("result", value, NoFields);
    VersionIsTame(inner);
    FieldIsTame("id", Int(id), Version(inner));
  }

  lemma ErrorIsTame(id: int, value: Json)
    requires Tame(value)
    ensures TameFields(ErrorResponse(Some(Int(id)), value))
  {
    VersionIsTame(NoFields);
    FieldIsTame("id", Int(id), Version(NoFields));
    FieldIsTame("error", value, Field("id", Int(id), Version(NoFields)));
  }

  /** What a handler's two values become in the response: a result or, without one, an error. */
  function ErrorSeen(result: Json, error: Json): Json {
    if result != Null then Null else if error != Null then error else INVALID_RESPONSE
  }

  /** The response to a request whose method is in the table. */
  lemma AnswerSays(name: string, params: Json, id: int, table: set<string>, result: Json, error: Json)
    requires name in table
    ensures ResponseTo(Request(name, params, Some(Int(id))), table, Returned(result, error))
         == Some(if result != Null then ResultResponse(Some(Int(id)), result)
                 else ErrorResponse(Some(Int(id)), ErrorSeen(result, error)))
  {
    RequestMembers(name, params, Some(Int(id)));
  }

  lemma AnswerIsTame(id: int, result: Json, error: Json)
    requires Tame(result) && Tame(error)
    ensures TameFields(if result != Null then ResultResponse(Some(Int(id)), result)
                       else ErrorResponse(Some(Int(id)), ErrorSeen(result, error)))
  {
    if result != Null {
      ResultIsTame(id, result);
    } else {
      TextIsTame(INVALID_RESPONSE.s);
      ErrorIsTame(id, ErrorSeen(result, error));
    }
  }

  // ------------------------------------------------------------------- there and back

  /** One direction of a connection: what is written, the blanks around it, and how it is read. */
  datatype Direction = Direction(messages: seq<Fields>, gaps: seq<string>, pieces: seq<string>)

  ghost predicate Carries(reader: string -> Reading<Fields>, d: Direction) {
    && |d.gaps| == |d.messages| + 1 && (forall i :: 0 <= i < |d.gaps| ==> AllBlank(d.gaps[i]))
    && Joined(d.pieces) == Interleaved(d.gaps, Written(d.messages)) && Lossless(d.pieces)
    && Understands(reader, d.messages)
  }

  ghost predicate Conveys(reader: string -> Reading<Fields>, d: Direction) {
    Carries(reader, d) && AllTame(d.messages)
  }

  /** The i-th object that comes out at the other end. */
  function Read(reader: string -> Reading<Fields>, d: Direction, i: nat): Option<Fields> {
    var values := JsonStream.Run(reader, d.pieces).values;
    if i < |values| then Some(values[i]) else None
  }

  lemma ReadsWhatWasWritten(reader: string -> Reading<Fields>, d: Direction, i: nat)
    requires Conveys(reader, d) && i < |d.messages|
    ensures Read(reader, d, i) == Some(d.messages[i])
  {
    StreamConveys(reader, d.pieces, d.gaps, d.messages);
  }

  /** What the other side answers to the i-th object it reads. */
  function Answered(reader: string -> Reading<Fields>, d: Direction, i: nat, table: set<string>, outcome: Outcome)
    : Option<Fields>
  {
    match Read(reader, d, i)
    case Some(request) => ResponseTo(request, table, outcome)
    case None => None
  }

  /** A peer after the i-th object that it reads. */
  function AfterReading(p: Peer, mine: set<string>, reader: string -> Reading<Fields>, d: Direction, i: nat,
                        nested: seq<Send>): Peer
  {
    match Read(reader, d, i)
    case Some(message) => RpcCalls.Step(p, mine, Receive(message, Raised, nested))
    case None => p
  }

  /** The response, taken by a peer that waits for it. */
  lemma TakesAnswer(mine: set<string>, p: Peer, id: int, result: Json, error: Json, r: Fields, nested: seq<Send>)
    requires Sound(p, {}) && id in p.currentRequests && FitsInt(id)
    requires r == if result != Null then ResultResponse(Some(Int(id)), result)
                  else ErrorResponse(Some(Int(id)), ErrorSeen(result, error))
    ensures 0 <= id < |p.issued|
    ensures var q := RpcCalls.Step(p, mine, Receive(r, Raised, nested));
            p.calls + [Call(p.issued[id].callback, Answer(id), result, ErrorSeen(result, error))] <= q.calls
            && id !in q.currentRequests
  {
    ResponseMembers(Some(Int(id)), result);
    ResponseMembers(Some(Int(id)), ErrorSeen(result, error));
    assert Accounted(p, id, {});
    SendAllGrows(Invoked(p, p.currentRequests[id], Answer(id), result, ErrorSeen(result, error)), nested);
  }

  /** A request of a peer travels among other messages, in characters, and is read in pieces; the
      other side answers the object that it has read at that place; the answer travels back in the
      same way; and what the peer reads at its place invokes the callback of the request, if that is
      still outstanding, with what the handler has returned, and settles it. */
  lemma CallReturns(reader: string -> Reading<Fields>, there: Direction, back: Direction, i: nat, j: nat,
                    mine: set<string>, events: seq<Event>, id: int, nested: seq<Send>,
                    name: string, params: Json, table: set<string>, result: Json, error: Json)
    requires Conveys(reader, there) && i < |there.messages|
    requires Conveys(reader, back) && j < |back.messages|
    requires there.messages[i] == Request(name, params, Some(Int(id))) && name in table
    requires Some(back.messages[j]) == Answered(reader, there, i, table, Returned(result, error))
    requires id in RpcCalls.Run(mine, events).currentRequests && FitsInt(id)
    ensures var p := RpcCalls.Run(mine, events);
            0 <= id < |p.issued|
            && var q := AfterReading(p, mine, reader, back, j, nested);
               p.calls + [Call(p.issued[id].callback, Answer(id), result, ErrorSeen(result, error))] <= q.calls
               && id !in q.currentRequests
  {
    ReadsWhatWasWritten(reader, there, i);
    ReadsWhatWasWritten(reader, back, j);
    AnswerSays(name, params, id, table, result, error);
    RunIsSound(mine, events);
    TakesAnswer(mine, RpcCalls.Run(mine, events), id, result, error, back.messages[j], nested);
  }

  lemma LoneMessage(reader: string -> Reading<Fields>, d: Direction, m: Fields)
    requires Carries(reader, d) && d.messages == [m] && TameFields(m)
    ensures Conveys(reader, d)
  {
  }

  /** A call alone on the connection: the strings that the caller and the handler supply decide. */
  lemma LoneCallReturns(reader: string -> Reading<Fields>, there: Direction, back: Direction,
                        mine: set<string>, events: seq<Event>, id: int, nested: seq<Send>,
                        name: string, params: Json, table: set<string>, result: Json, error: Json, answer: Fields)
    requires TameString(name) && Tame(params) && Tame(result) && Tame(error)
    requires Carries(reader, there) && there.messages == [Request(name, params, Some(Int(id)))] && name in table
    requires Carries(reader, back) && back.messages == [answer]
    requires Some(answer) == Answered(reader, there, 0, table, Returned(result, error))
    requires id in RpcCalls.Run(mine, events).currentRequests && FitsInt(id)
    ensures var p := RpcCalls.Run(mine, events);
            0 <= id < |p.issued|
            && var q := AfterReading(p, mine, reader, back, 0, nested);
               p.calls + [Call(p.issued[id].callback, Answer(id), result, ErrorSeen(result, error))] <= q.calls
               && id !in q.currentRequests
  {
    RequestIsTame(name, params, id);
    LoneMessage(reader, there, Request(name, params, Some(Int(id))));
    ReadsWhatWasWritten(reader, there, 0);
    AnswerSays(name, params, id, table, result, error);
    AnswerIsTame(id, result, error);
    LoneMessage(reader, back, answer);
    CallReturns(reader, there, back, 0, 0, mine, events, id, nested, name, params, table, result, error);
  }
}
