/** JSON-RPC 2.0 over one `JsonRpc` object: how requests get their ids, how responses find their
    callbacks, and how requests of the peer are answered. Functions on values; `JsonRpc` holds the
    methods. */
module RpcCalls {
  import opened Bytes
  import opened JsonText

  // ----------------------------------------------------------------- messages

  function Member(fields: Fields, key: string): Option<Json> {
    match fields
    case NoFields => None
    case Field(k, value, rest) => if k == key then Some(value) else Member(rest, key)
  }

  predicate Has(fields: Fields, key: string) {
    Member(fields, key).Some?
  }

  function MemberOrNull(fields: Fields, key: string): Json {
    match Member(fields, key)
    case Some(value) => value
    case None => Null
  }

  /** An optional `id`, as `Json::Value` keeps it among members sorted by name. */
  function WithId(id: Option<Json>, rest: Fields): Fields {
    match id
    case Some(value) => Field("id", value, rest)
    case None => rest
  }

  function Version(rest: Fields): Fields {
    Field("jsonrpc", Str("2.0"), rest)
  }

  function Request(name: string, params: Json, id: Option<Json>): Fields {
    WithId(id, Version(Field("method", Str(name), Field("params", params, NoFields))))
  }

  function ResultResponse(id: Option<Json>, value: Json): Fields {
    WithId(id, Version(Field("result", value, NoFields)))
  }

  function ErrorResponse(id: Option<Json>, value: Json): Fields {
    Field("error", value, WithId(id, Version(NoFields)))
  }

  lemma Envelope(id: Option<Json>, rest: Fields, key: string)
    requires key != "jsonrpc"
    ensures Member(WithId(id, Version(rest)), key)
         == if key == "id" && id.Some? then id else Member(rest, key)
  {
    assert Member(Version(rest), key) == Member(rest, key);
  }

  lemma RequestMembers(name: string, params: Json, id: Option<Json>)
    ensures var m := Request(name, params, id);
            Member(m, "method") == Some(Str(name)) && Member(m, "params") == Some(params) && Member(m, "id") == id
  {
    var last := Field("params", params, NoFields);
    var inner := Field("method", Str(name), last);
    assert Member(last, "params") == Some(params) && Member(last, "id") == None;
    assert Member(inner, "params") == Some(params) && Member(inner, "id") == None;
    Envelope(id, inner, "method");
    Envelope(id, inner, "params");
    Envelope(id, inner, "id");
  }

  lemma ResponseMembers(id: Option<Json>, value: Json)
    ensures var m := ResultResponse(id, value);
            Member(m, "result") == Some(value) && Member(m, "error") == None
            && Member(m, "method") == None && Member(m, "id") == id
    ensures var m := ErrorResponse(id, value);
            Member(m, "error") == Some(value) && Member(m, "result") == None
            && Member(m, "method") == None && Member(m, "id") == id
  {
    var inner := Field("result", value, NoFields);
    assert Member(inner, "method") == None && Member(inner, "error") == None && Member(inner, "id") == None;
    Envelope(id, inner, "result");
    Envelope(id, inner, "error");
    Envelope(id, inner, "method");
    Envelope(id, inner, "id");
    Envelope(id, NoFields, "result");
    Envelope(id, NoFields, "method");
    Envelope(id, NoFields, "id");
  }

  // ------------------------------------------------------------------ our calls

  /** A call of `sendRequest`: whether the socket takes the message, and the calls of
      `sendRequest` that the callback makes in case it is invoked because this one fails. */
  datatype Send = Send(name: string, params: Json, callback: Option<nat>, delivered: bool, nested: seq<Send>)

  datatype Cause = NotAnArray | EmptyMethod | SendFailed(id: int) | Answer(id: int)

  datatype Call = Call(callback: nat, cause: Cause, result: Json, error: Json)

  /** A request that got an id; the id is its index. */
  datatype Issue = Issue(callback: nat, delivered: bool)

  datatype Peer = Peer(
    currentId: int,
    currentRequests: map<int, nat>,
    /** history: requests with an id, invocations of callbacks, and messages sent */
    issued: seq<Issue>,
    calls: seq<Call>,
    sent: seq<Fields>)

  const START := Peer(0, map[], [], [], [])

  const NOT_AN_ARRAY := Str("paramsArray MUST be an array")
  const EMPTY_METHOD := Str("method MUST not be empty")
  const SEND_FAILED := Str("send failed")

  /** The state once the request has its id, if it needs one, and is with the socket. */
  function Issued(p: Peer, s: Send): Peer {
    match s.callback
    case None => p.(sent := p.sent + [Request(s.name, s.params, None)])
    case Some(callback) =>
      p.(currentId := p.currentId + 1,
         currentRequests := p.currentRequests[p.currentId := callback],
         issued := p.issued + [Issue(callback, s.delivered)],
         sent := p.sent + [Request(s.name, s.params, Some(Int(p.currentId)))])
  }

  function Invoked(p: Peer, callback: nat, cause: Cause, result: Json, error: Json): Peer {
    p.(calls := p.calls + [Call(callback, cause, result, error)])
  }

  /** Why the callback is invoked by `sendRequest` itself, if it is. */
  function Refusal(p: Peer, s: Send): Option<(Cause, Json)> {
    if !s.params.Arr? then Some((NotAnArray, NOT_AN_ARRAY))
    else if s.name == "" then Some((EmptyMethod, EMPTY_METHOD))
    else if !s.delivered then Some((SendFailed(p.currentId), SEND_FAILED))
    else None
  }

  /** `sendRequest`. */
  function SendRequest(p: Peer, s: Send): Peer
    decreases s, 0
  {
    var refusal := Refusal(p, s);
    var p1 := if refusal.None? || refusal.value.0.SendFailed? then Issued(p, s) else p;
    if refusal.None? || s.callback.None? then p1
    else SendAll(Invoked(p1, s.callback.value, refusal.value.0, Null, refusal.value.1), s.nested)
  }

  function SendAll(p: Peer, sends: seq<Send>): Peer
    decreases sends, |sends|
  {
    if sends == [] then p else SendRequest(SendAll(p, sends[..|sends| - 1]), sends[|sends| - 1])
  }

  // ----------------------------------------------------------- received messages

  /** How a handler ends: with the two values it may set, or with an exception. */
  datatype Outcome = Returned(result: Json, error: Json) | Raised

  function CodedError(message: string): Json {
    Obj(Field("code", Int(-1), Field("message", Str(message), NoFields)))
  }

  const MISSING_METHOD := CodedError("missing 'method' parameter")
  const METHOD_NOT_A_STRING := CodedError("'method' parameter must be a string")
  const INVALID_RESPONSE := Str("invalid response")

  function NotFound(name: string): Json {
    Str("RPC callback for method '" + name + "' not found")
  }

  /** The `params` a handler gets: an empty array unless the request has an array. */
  function Params(request: Fields): Items {
    match Member(request, "params")
    case Some(Arr(items)) => items
    case _ => NoItems
  }

  /** `_processRequest` with a table of synchronous handlers: the object passed to the response
      callback, if any. */
  function ResponseTo(request: Fields, table: set<string>, outcome: Outcome): Option<Fields> {
    var id := Member(request, "id");
    match Member(request, "method")
    case None => Some(ErrorResponse(id, MISSING_METHOD))
    case Some(Str(name)) =>
      if name !in table then Some(ErrorResponse(id, NotFound(name)))
      else (
        match outcome
        case Raised => None
        case Returned(result, error) =>
          if result != Null then Some(ResultResponse(id, result))
          else if error != Null then Some(ErrorResponse(id, error))
          else Some(ErrorResponse(id, INVALID_RESPONSE))
      )
    case Some(_) => Some(ErrorResponse(id, METHOD_NOT_A_STRING))
  }

  /** There is a response unless a handler throws; it has the id of the request and either a
      result or an error. */
  lemma ResponseShape(request: Fields, table: set<string>, outcome: Outcome)
    ensures var r := ResponseTo(request, table, outcome);
            && (r.None? <==> Dispatched(request, table) && outcome.Raised?)
            && (r.Some? ==>
                  && Member(r.value, "id") == Member(request, "id")
                  && !Has(r.value, "method")
                  && (Has(r.value, "result") <==> !Has(r.value, "error"))
                  && (Has(r.value, "result") <==>
                        Dispatched(request, table) && outcome.Returned? && outcome.result != Null)
                  && (Has(r.value, "result") ==> Member(r.value, "result").value == outcome.result)
                  && (Dispatched(request, table) && outcome.Returned?
                      && outcome.result == Null && outcome.error != Null ==>
                        Member(r.value, "error").value == outcome.error))
  {
    var r := ResponseTo(request, table, outcome);
    if r.Some? {
      forall value { ResponseMembers(Member(request, "id"), value); }
    }
  }

  /** Whether a handler runs for the request. */
  predicate Dispatched(request: Fields, table: set<string>) {
    var name := Member(request, "method");
    name.Some? && name.value.Str? && name.value.s in table
  }

  /** A request of the peer; the handler may send requests of its own. */
  function ServeRequest(p: Peer, request: Fields, table: set<string>, outcome: Outcome, nested: seq<Send>): Peer
    requires Has(request, "method")
  {
    var p1 := if Dispatched(request, table) then SendAll(p, nested) else p;
    var response := ResponseTo(request, table, outcome);
    if response.Some? && Has(request, "id") then p1.(sent := p1.sent + [response.value]) else p1
  }

  predicate FitsInt(i: int) {
    -0x8000_0000 <= i < 0x8000_0000
  }

  /** Whether the message is a response to a request that is still outstanding. */
  predicate Matches(p: Peer, message: Fields) {
    !Has(message, "method") && (Has(message, "error") || Has(message, "result"))
    && Has(message, "id") && Member(message, "id").value.Int?
    && FitsInt(Member(message, "id").value.i) && Member(message, "id").value.i in p.currentRequests
  }

  /** A response to an outstanding request: the callback runs, and then the request is removed. */
  function TakeResponse(p: Peer, message: Fields, nested: seq<Send>): Peer
    requires Matches(p, message)
  {
    var id := Member(message, "id").value.i;
    var result, error := MemberOrNull(message, "result"), MemberOrNull(message, "error");
    var p1 := Invoked(p, p.currentRequests[id], Answer(id), result, error);
    var p2 := SendAll(p1, nested);
    p2.(currentRequests := p2.currentRequests - {id})
  }

  datatype Event =
    | Ask(send: Send)
    | Receive(message: Fields, outcome: Outcome, nested: seq<Send>)

  /** `sendRequest` and `_processJsonMessage`. */
  function Step(p: Peer, table: set<string>, e: Event): Peer {
    match e
    case Ask(send) => SendRequest(p, send)
    case Receive(message, outcome, nested) =>
      if Has(message, "method") then ServeRequest(p, message, table, outcome, nested)
      else if Matches(p, message) then TakeResponse(p, message, nested)
      else p
  }

  function Run(table: set<string>, events: seq<Event>): Peer {
    if events == [] then START
    else Step(Run(table, events[..|events| - 1]), table, events[|events| - 1])
  }

  // ------------------------------------------------------- what has been recorded

  function Count(calls: seq<Call>, cause: Cause): nat {
    if calls == [] then 0
    else Count(calls[..|calls| - 1], cause) + (if calls[|calls| - 1].cause == cause then 1 else 0)
  }

  /** The number of callbacks invoked because of a response. */
  function Answers(calls: seq<Call>): nat {
    if calls == [] then 0 else Answers(calls[..|calls| - 1]) + One(calls[|calls| - 1].cause.Answer?)
  }

  lemma AnswersSnoc(calls: seq<Call>, c: Call)
    ensures Answers(calls + [c]) == Answers(calls) + One(c.cause.Answer?)
  {
    assert (calls + [c])[..|calls|] == calls;
  }

  lemma CountSnoc(calls: seq<Call>, c: Call, cause: Cause)
    ensures Count(calls + [c], cause) == Count(calls, cause) + (if c.cause == cause then 1 else 0)
  {
    assert (calls + [c])[..|calls|] == calls;
  }

  /** The ids of the requests on the wire, in the order of sending. */
  function WireIds(sent: seq<Fields>): seq<Json> {
    if sent == [] then []
    else
      var ids, m := WireIds(sent[..|sent| - 1]), sent[|sent| - 1];
      if Has(m, "method") && Has(m, "id") then ids + [Member(m, "id").value] else ids
  }

  lemma WireIdsSnoc(sent: seq<Fields>, m: Fields)
    ensures WireIds(sent + [m])
         == if Has(m, "method") && Has(m, "id") then WireIds(sent) + [Member(m, "id").value] else WireIds(sent)
  {
    assert (sent + [m])[..|sent|] == sent;
  }

  /** The messages sent that are not requests. */
  function Responses(sent: seq<Fields>): seq<Fields> {
    if sent == [] then []
    else
      var responses, m := Responses(sent[..|sent| - 1]), sent[|sent| - 1];
      if Has(m, "method") then responses else responses + [m]
  }

  lemma ResponsesSnoc(sent: seq<Fields>, m: Fields)
    ensures Responses(sent + [m]) == if Has(m, "method") then Responses(sent) else Responses(sent) + [m]
  {
    assert (sent + [m])[..|sent|] == sent;
  }

  /** The ids 0, 1, ..., n - 1. */
  function Upto(n: nat): seq<Json> {
    if n == 0 then [] else Upto(n - 1) + [Int(n - 1)]
  }

  /** The callback of a call that has to do with request id is the one registered for it. */
  predicate RightCallback(p: Peer, c: Call) {
    (c.cause.SendFailed? || c.cause.Answer?) ==>
      0 <= c.cause.id < |p.issued| && p.issued[c.cause.id].callback == c.callback
  }

  function One(b: bool): nat {
    if b then 1 else 0
  }

  /** What is true of request id: it is in the table with its callback unless it has been
      answered, once; and its callback was told of a failed send, once, if sending failed. While
      the callback of a request is running, the request is still in the table. */
  predicate Accounted(p: Peer, id: int, answering: set<int>) {
    0 <= id < |p.issued|
    && (id in p.currentRequests ==> p.currentRequests[id] == p.issued[id].callback)
    && Count(p.calls, Answer(id)) == One(id !in p.currentRequests || id in answering)
    && Count(p.calls, SendFailed(id)) == One(!p.issued[id].delivered)
  }

  predicate Untouched(p: Peer, id: int) {
    Count(p.calls, Answer(id)) == 0 && Count(p.calls, SendFailed(id)) == 0
  }

  ghost predicate Sound(p: Peer, answering: set<int>) {
    && p.currentId == |p.issued|
    && (forall id :: id in p.currentRequests || id in answering ==> 0 <= id < p.currentId)
    && (forall id :: 0 <= id < p.currentId ==> Accounted(p, id, answering))
    && (forall id :: id >= p.currentId ==> Untouched(p, id))
    && (forall i :: 0 <= i < |p.calls| ==> RightCallback(p, p.calls[i]))
    && WireIds(p.sent) == Upto(p.currentId)
    && |p.currentRequests| + Answers(p.calls) == p.currentId + |answering|
  }

  lemma Inserted(m: map<int, nat>, k: int, v: nat)
    requires k !in m
    ensures |m[k := v]| == |m| + 1
  {
    assert m[k := v].Keys == m.Keys + {k};
  }

  lemma Erased(m: map<int, nat>, k: int)
    requires k in m
    ensures |m - {k}| == |m| - 1
  {
    assert (m - {k}).Keys == m.Keys - {k};
  }

  lemma NotificationKeeps(p: Peer, s: Send, answering: set<int>)
    requires Sound(p, answering) && s.callback.None?
    ensures Sound(Issued(p, s), answering)
  {
    var q := Issued(p, s);
    RequestMembers(s.name, s.params, None);
    WireIdsSnoc(p.sent, Request(s.name, s.params, None));
    forall id | 0 <= id < p.currentId ensures Accounted(q, id, answering) {
      assert Accounted(p, id, answering);
    }
    forall id | id >= p.currentId ensures Untouched(q, id) {
      assert Untouched(p, id);
    }
    forall i | 0 <= i < |q.calls| ensures RightCallback(q, q.calls[i]) {
      assert RightCallback(p, p.calls[i]);
    }
  }

  /** The new id of a request, and the ids before it. */
  lemma AccountedAfterIssue(p: Peer, s: Send, answering: set<int>, id: int)
    requires Sound(p, answering) && s.callback.Some? && s.delivered && 0 <= id <= p.currentId
    ensures Accounted(Issued(p, s), id, answering)
  {
    assert Untouched(p, p.currentId);
    assert id < p.currentId ==> Accounted(p, id, answering);
  }

  /** A request gets a new id. */
  lemma RequestKeeps(p: Peer, s: Send, answering: set<int>)
    requires Sound(p, answering) && s.callback.Some? && s.delivered
    ensures Sound(Issued(p, s), answering)
  {
    var k := p.currentId;
    var q := Issued(p, s);
    RequestMembers(s.name, s.params, Some(Int(k)));
    WireIdsSnoc(p.sent, Request(s.name, s.params, Some(Int(k))));
    Inserted(p.currentRequests, k, s.callback.value);
    forall id | 0 <= id < q.currentId ensures Accounted(q, id, answering) {
      AccountedAfterIssue(p, s, answering, id);
    }
    forall id | id >= q.currentId ensures Untouched(q, id) {
      assert Untouched(p, id);
    }
    forall i | 0 <= i < |q.calls| ensures RightCallback(q, q.calls[i]) {
      assert RightCallback(p, p.calls[i]);
    }
  }

  /** The state after a request has failed to be sent. */
  function Failing(p: Peer, s: Send): Peer
    requires s.callback.Some?
  {
    Invoked(Issued(p, s), s.callback.value, SendFailed(p.currentId), Null, SEND_FAILED)
  }

  lemma FailingCounts(p: Peer, s: Send, id: int)
    requires s.callback.Some?
    ensures var q := Failing(p, s);
            Count(q.calls, Answer(id)) == Count(p.calls, Answer(id))
            && Count(q.calls, SendFailed(id)) == Count(p.calls, SendFailed(id)) + One(id == p.currentId)
  {
    var failed := Call(s.callback.value, SendFailed(p.currentId), Null, SEND_FAILED);
    CountSnoc(p.calls, failed, Answer(id));
    CountSnoc(p.calls, failed, SendFailed(id));
  }

  lemma AccountedAfterFailing(p: Peer, s: Send, answering: set<int>, id: int)
    requires Sound(p, answering) && s.callback.Some? && !s.delivered && 0 <= id <= p.currentId
    ensures Accounted(Failing(p, s), id, answering)
  {
    FailingCounts(p, s, id);
    if id < p.currentId {
      assert Accounted(p, id, answering);
    } else {
      assert Untouched(p, id);
    }
  }

  /** A request gets a new id, and its callback is told that sending it failed. */
  lemma FailedRequestKeeps(p: Peer, s: Send, answering: set<int>)
    requires Sound(p, answering) && s.callback.Some? && !s.delivered
    ensures Sound(Failing(p, s), answering)
  {
    var k, q := p.currentId, Failing(p, s);
    RequestMembers(s.name, s.params, Some(Int(k)));
    WireIdsSnoc(p.sent, Request(s.name, s.params, Some(Int(k))));
    Inserted(p.currentRequests, k, s.callback.value);
    AnswersSnoc(p.calls, Call(s.callback.value, SendFailed(k), Null, SEND_FAILED));
    forall id | 0 <= id < q.currentId ensures Accounted(q, id, answering) {
      AccountedAfterFailing(p, s, answering, id);
    }
    forall id | id >= q.currentId ensures Untouched(q, id) {
      FailingCounts(p, s, id);
      assert Untouched(p, id);
    }
    forall i | 0 <= i < |q.calls| ensures RightCallback(q, q.calls[i]) {
      assert i < |p.calls| ==> RightCallback(p, p.calls[i]);
    }
  }

  /** A callback is invoked for an invalid call of `sendRequest`. */
  lemma RejectionKeeps(p: Peer, callback: nat, cause: Cause, error: Json, answering: set<int>)
    requires Sound(p, answering) && (cause == NotAnArray || cause == EmptyMethod)
    ensures Sound(Invoked(p, callback, cause, Null, error), answering)
  {
    var q := Invoked(p, callback, cause, Null, error);
    AnswersSnoc(p.calls, Call(callback, cause, Null, error));
    forall id | id >= 0
      ensures Count(q.calls, Answer(id)) == Count(p.calls, Answer(id))
      ensures Count(q.calls, SendFailed(id)) == Count(p.calls, SendFailed(id))
    {
      CountSnoc(p.calls, Call(callback, cause, Null, error), Answer(id));
      CountSnoc(p.calls, Call(callback, cause, Null, error), SendFailed(id));
    }
    forall id | 0 <= id < p.currentId ensures Accounted(q, id, answering) {
      assert Accounted(p, id, answering);
    }
    forall id | id >= p.currentId ensures Untouched(q, id) {
      assert Untouched(p, id);
    }
    forall i | 0 <= i < |q.calls| ensures RightCallback(q, q.calls[i]) {
      assert i < |p.calls| ==> RightCallback(p, p.calls[i]);
    }
  }

  lemma {:induction false} SendKeeps(p: Peer, s: Send, answering: set<int>)
    requires Sound(p, answering)
    ensures Sound(SendRequest(p, s), answering)
    decreases s, 0
  {
    var refusal := Refusal(p, s);
    if s.callback.None? {
      NotificationKeeps(p, s, answering);
    } else if refusal.None? {
      RequestKeeps(p, s, answering);
    } else if refusal.value.0.SendFailed? {
      FailedRequestKeeps(p, s, answering);
      SendAllKeeps(Failing(p, s), s.nested, answering);
    } else {
      RejectionKeeps(p, s.callback.value, refusal.value.0, refusal.value.1, answering);
      SendAllKeeps(Invoked(p, s.callback.value, refusal.value.0, Null, refusal.value.1), s.nested, answering);
    }
  }

  lemma {:induction false} SendAllKeeps(p: Peer, sends: seq<Send>, answering: set<int>)
    requires Sound(p, answering)
    ensures Sound(SendAll(p, sends), answering)
    decreases sends, |sends|
  {
    if sends != [] {
      SendAllKeeps(p, sends[..|sends| - 1], answering);
      SendKeeps(SendAll(p, sends[..|sends| - 1]), sends[|sends| - 1], answering);
    }
  }

  /** What calls of `sendRequest` leave alone: they add requests, invocations and messages, but
      remove and answer nothing. */
  predicate Grows(p: Peer, q: Peer) {
    p.calls <= q.calls && p.sent <= q.sent
    && (forall id :: id in p.currentRequests && id < p.currentId ==> id in q.currentRequests)
    && p.currentId <= q.currentId && Responses(q.sent) == Responses(p.sent)
  }

  lemma IssuedGrows(p: Peer, s: Send)
    ensures Grows(p, Issued(p, s))
  {
    var id := if s.callback.None? then None else Some(Int(p.currentId));
    RequestMembers(s.name, s.params, id);
    ResponsesSnoc(p.sent, Request(s.name, s.params, id));
  }

  lemma GrowsOn(p: Peer, q: Peer, r: Peer)
    requires Grows(p, q) && Grows(q, r)
    ensures Grows(p, r)
  {
  }

  lemma {:induction false} SendGrows(p: Peer, s: Send)
    ensures Grows(p, SendRequest(p, s))
    decreases s, 0
  {
    var refusal := Refusal(p, s);
    IssuedGrows(p, s);
    if refusal.Some? && s.callback.Some? {
      var p1 := if refusal.value.0.SendFailed? then Issued(p, s) else p;
      var p2 := Invoked(p1, s.callback.value, refusal.value.0, Null, refusal.value.1);
      SendAllGrows(p2, s.nested);
      GrowsOn(p, p1, p2);
      GrowsOn(p, p2, SendAll(p2, s.nested));
    }
  }

  lemma {:induction false} SendAllGrows(p: Peer, sends: seq<Send>)
    ensures Grows(p, SendAll(p, sends))
    decreases sends, |sends|
  {
    if sends != [] {
      SendAllGrows(p, sends[..|sends| - 1]);
      SendGrows(SendAll(p, sends[..|sends| - 1]), sends[|sends| - 1]);
    }
  }

  lemma ServingKeeps(p: Peer, request: Fields, table: set<string>, outcome: Outcome, nested: seq<Send>)
    requires Sound(p, {}) && Has(request, "method")
    ensures Sound(ServeRequest(p, request, table, outcome, nested), {})
  {
    SendAllKeeps(p, nested, {});
    var p1 := if Dispatched(request, table) then SendAll(p, nested) else p;
    var response := ResponseTo(request, table, outcome);
    if response.Some? && Has(request, "id") {
      ResponseShape(request, table, outcome);
      SentResponseKeeps(p1, response.value);
    }
  }

  lemma SentResponseKeeps(p: Peer, response: Fields)
    requires Sound(p, {}) && !Has(response, "method")
    ensures Sound(p.(sent := p.sent + [response]), {})
  {
    var q := p.(sent := p.sent + [response]);
    WireIdsSnoc(p.sent, response);
    forall id | 0 <= id < p.currentId ensures Accounted(q, id, {}) {
      assert Accounted(p, id, {});
    }
    forall id | id >= p.currentId ensures Untouched(q, id) {
      assert Untouched(p, id);
    }
    forall i | 0 <= i < |q.calls| ensures RightCallback(q, q.calls[i]) {
      assert RightCallback(p, p.calls[i]);
    }
  }

  /** While the callback runs, its request counts as answered although it is still in the table. */
  lemma AnsweringStarts(p: Peer, id: int, result: Json, error: Json)
    requires Sound(p, {}) && id in p.currentRequests
    ensures Sound(Invoked(p, p.currentRequests[id], Answer(id), result, error), {id})
  {
    var c := Call(p.currentRequests[id], Answer(id), result, error);
    var q := Invoked(p, p.currentRequests[id], Answer(id), result, error);
    AnswersSnoc(p.calls, c);
    forall k | k >= 0
      ensures Count(q.calls, Answer(k)) == Count(p.calls, Answer(k)) + One(k == id)
      ensures Count(q.calls, SendFailed(k)) == Count(p.calls, SendFailed(k))
    {
      CountSnoc(p.calls, c, Answer(k));
      CountSnoc(p.calls, c, SendFailed(k));
    }
    forall k | 0 <= k < p.currentId ensures Accounted(q, k, {id}) {
      assert Accounted(p, k, {});
    }
    forall k | k >= p.currentId ensures Untouched(q, k) {
      assert Untouched(p, k);
    }
    assert Accounted(p, id, {});
    forall i | 0 <= i < |q.calls| ensures RightCallback(q, q.calls[i]) {
      assert i < |p.calls| ==> RightCallback(p, p.calls[i]);
    }
  }

  lemma AnsweringEnds(p: Peer, id: int)
    requires Sound(p, {id}) && id in p.currentRequests
    ensures Sound(p.(currentRequests := p.currentRequests - {id}), {})
  {
    var q := p.(currentRequests := p.currentRequests - {id});
    Erased(p.currentRequests, id);
    forall k | 0 <= k < p.currentId ensures Accounted(q, k, {}) {
      assert Accounted(p, k, {id});
    }
    forall k | k >= p.currentId ensures Untouched(q, k) {
      assert Untouched(p, k);
    }
    forall i | 0 <= i < |q.calls| ensures RightCallback(q, q.calls[i]) {
      assert RightCallback(p, p.calls[i]);
    }
  }

  lemma ResponseKeeps(p: Peer, message: Fields, nested: seq<Send>)
    requires Sound(p, {}) && Matches(p, message)
    ensures Sound(TakeResponse(p, message, nested), {})
  {
    var id := Member(message, "id").value.i;
    var result, error := MemberOrNull(message, "result"), MemberOrNull(message, "error");
    AnsweringStarts(p, id, result, error);
    SendAllGrows(Invoked(p, p.currentRequests[id], Answer(id), result, error), nested);
    SendAllKeeps(Invoked(p, p.currentRequests[id], Answer(id), result, error), nested, {id});
    AnsweringEnds(SendAll(Invoked(p, p.currentRequests[id], Answer(id), result, error), nested), id);
  }

  /** Over every run, with responses lost, reordered, duplicated or made up, and with callbacks
      that send requests themselves. */
  lemma {:induction false} RunIsSound(table: set<string>, events: seq<Event>)
    ensures Sound(Run(table, events), {})
  {
    if events == [] {
    } else {
      var before := events[..|events| - 1];
      var p := Run(table, before);
      RunIsSound(table, before);
      match events[|events| - 1] {
        case Ask(send) => SendKeeps(p, send, {});
        case Receive(message, outcome, nested) =>
          if Has(message, "method") {
            ServingKeeps(p, message, table, outcome, nested);
          } else if Matches(p, message) {
            ResponseKeeps(p, message, nested);
          }
      }
    }
  }

  // ------------------------------------------------------------------ main results

  /** In every run: the outstanding requests and the answered ones are together all that got an
      id, and the ids on the wire are 0, 1, 2 and so on. */
  lemma IdsAreConserved(table: set<string>, events: seq<Event>)
    ensures var p := Run(table, events);
            && |p.issued| == p.currentId == |p.currentRequests| + Answers(p.calls)
            && (forall id :: id in p.currentRequests ==> 0 <= id < p.currentId)
            && WireIds(p.sent) == Upto(p.currentId)
  {
    RunIsSound(table, events);
  }

  /** In every run, the callback of a request is invoked once for a response if the request is no
      longer outstanding, and once more if sending failed; nobody else's callback is. */
  lemma InvocationsOfRequest(table: set<string>, events: seq<Event>, id: int)
    ensures var p := Run(table, events);
            && (0 <= id < |p.issued| ==>
                  && Count(p.calls, Answer(id)) == One(id !in p.currentRequests)
                  && Count(p.calls, SendFailed(id)) == One(!p.issued[id].delivered))
            && (id < 0 || id >= |p.issued| ==> Count(p.calls, Answer(id)) == 0)
            && (forall i :: 0 <= i < |p.calls| && p.calls[i].cause == Answer(id) ==>
                  0 <= id < |p.issued| && p.calls[i].callback == p.issued[id].callback)
  {
    var p := Run(table, events);
    RunIsSound(table, events);
    if 0 <= id < p.currentId {
      assert Accounted(p, id, {});
    } else if id >= p.currentId {
      assert Untouched(p, id);
    } else {
      NoneCounted(p.calls, Answer(id), p);
    }
    forall i | 0 <= i < |p.calls| && p.calls[i].cause == Answer(id)
      ensures 0 <= id < |p.issued| && p.calls[i].callback == p.issued[id].callback
    {
      assert RightCallback(p, p.calls[i]);
    }
  }

  lemma {:induction false} NoneCounted(calls: seq<Call>, cause: Cause, p: Peer)
    requires cause.Answer? && cause.id < 0
    requires forall i :: 0 <= i < |calls| ==> RightCallback(p, calls[i])
    ensures Count(calls, cause) == 0
  {
    if calls != [] {
      var n := |calls| - 1;
      assert RightCallback(p, calls[n]);
      assert forall i :: 0 <= i < n ==> calls[..n][i] == calls[i];
      NoneCounted(calls[..n], cause, p);
    }
  }

  /** A response that is delivered again changes nothing. */
  lemma DuplicateIsIgnored(table: set<string>, events: seq<Event>, message: Fields,
                           o1: Outcome, n1: seq<Send>, o2: Outcome, n2: seq<Send>)
    requires !Has(message, "method")
    ensures var p := Step(Run(table, events), table, Receive(message, o1, n1));
            Step(p, table, Receive(message, o2, n2)) == p
  {
    var p := Run(table, events);
    RunIsSound(table, events);
    if Matches(p, message) {
      var id := Member(message, "id").value.i;
      ResponseKeeps(p, message, n1);
    }
  }

  /** The response that the other side gives to a request that is still outstanding here reaches
      the callback of that request, with what the handler returned. */
  lemma AnswerReachesCaller(p: Peer, id: int, request: Fields, table: set<string>, outcome: Outcome,
                            response: Fields, nested: seq<Send>)
    requires Sound(p, {}) && id in p.currentRequests && FitsInt(id)
    requires Has(request, "method") && Member(request, "id") == Some(Int(id))
    requires ResponseTo(request, table, outcome) == Some(response)
    ensures Matches(p, response) && 0 <= id < |p.issued|
    ensures p.calls
            + [Call(p.issued[id].callback, Answer(id),
                    MemberOrNull(response, "result"), MemberOrNull(response, "error"))]
         <= TakeResponse(p, response, nested).calls
    ensures Dispatched(request, table) ==>
              MemberOrNull(response, "result") == outcome.result
              && (outcome.result != Null ==> MemberOrNull(response, "error") == Null)
              && (outcome.result == Null && outcome.error != Null ==> MemberOrNull(response, "error") == outcome.error)
  {
    ResponseShape(request, table, outcome);
    assert Accounted(p, id, {});
    SendAllGrows(Invoked(p, p.currentRequests[id], Answer(id), MemberOrNull(response, "result"),
                         MemberOrNull(response, "error")), nested);
  }

  /** The responses due for the requests received so far, in order. */
  function Due(table: set<string>, events: seq<Event>): seq<Fields> {
    if events == [] then []
    else
      var due := Due(table, events[..|events| - 1]);
      match events[|events| - 1]
      case Receive(message, outcome, _) =>
        if Has(message, "method") && Has(message, "id") && ResponseTo(message, table, outcome).Some?
        then due + [ResponseTo(message, table, outcome).value]
        else due
      case _ => due
  }

  /** In every run, each request with an id is answered once, in order, unless its handler threw;
      notifications are not answered; nothing else is ever sent but requests. */
  lemma {:induction false} EachRequestAnsweredOnce(table: set<string>, events: seq<Event>)
    ensures Responses(Run(table, events).sent) == Due(table, events)
  {
    if events == [] {
    } else {
      var before := events[..|events| - 1];
      var p := Run(table, before);
      EachRequestAnsweredOnce(table, before);
      match events[|events| - 1] {
        case Ask(send) => SendGrows(p, send);
        case Receive(message, outcome, nested) =>
          SendAllGrows(p, nested);
          if Has(message, "method") {
            ResponseShape(message, table, outcome);
            var p1 := if Dispatched(message, table) then SendAll(p, nested) else p;
            var r := ResponseTo(message, table, outcome);
            if r.Some? {
              ResponsesSnoc(p1.sent, r.value);
            }
          } else if Matches(p, message) {
            var id := Member(message, "id").value.i;
            SendAllGrows(Invoked(p, p.currentRequests[id], Answer(id), MemberOrNull(message, "result"),
                                 MemberOrNull(message, "error")), nested);
          }
      }
    }
  }

  /** Whoever sends what cannot be sent is told why, first of all: no result, and an error. */
  lemma FailureIsTold(p: Peer, s: Send)
    requires s.callback.Some?
    ensures var q, c := SendRequest(p, s), s.callback.value;
            && (!s.params.Arr? ==>
                  p.calls + [Call(c, NotAnArray, Null, Str("paramsArray MUST be an array"))] <= q.calls)
            && (s.params.Arr? && s.name == "" ==>
                  p.calls + [Call(c, EmptyMethod, Null, Str("method MUST not be empty"))] <= q.calls)
            && (s.params.Arr? && s.name != "" && !s.delivered ==>
                  p.calls + [Call(c, SendFailed(p.currentId), Null, Str("send failed"))] <= q.calls)
            && (s.params.Arr? && s.name != "" && s.delivered ==> q.calls == p.calls)
  {
    var refusal := Refusal(p, s);
    if refusal.Some? {
      var p1 := if refusal.value.0.SendFailed? then Issued(p, s) else p;
      SendAllGrows(Invoked(p1, s.callback.value, refusal.value.0, Null, refusal.value.1), s.nested);
    }
  }

  /** And what the callback then sends is sent. */
  lemma CallbackSends(p: Peer, s: Send, t: Send)
    requires s.callback.Some? && !(s.params.Arr? && s.name != "" && s.delivered)
    requires s.nested == [t] && t.params.Arr? && t.name != "" && t.callback.None?
    ensures var q := SendRequest(p, s);
            q.sent != [] && q.sent[|q.sent| - 1] == Request(t.name, t.params, None)
  {
    var refusal := Refusal(p, s);
    var p1 := if refusal.value.0.SendFailed? then Issued(p, s) else p;
    var told := Invoked(p1, s.callback.value, refusal.value.0, Null, refusal.value.1);
    assert [t][..0] == [] && SendAll(told, []) == told;
    assert SendAll(told, [t]) == SendRequest(told, t);
  }

  /** What is written for a call: its name and parameters, the version of the protocol, and a number if
      there is a callback. Nothing is written for one without a name or an array. */
  lemma CallIsWritten(p: Peer, table: set<string>, s: Send)
    ensures var q := Step(p, table, Ask(s));
            if s.params.Arr? && s.name != "" then
              p.sent < q.sent
              && var m := q.sent[|p.sent|];
                 && Member(m, "method") == Some(Str(s.name)) && Member(m, "params") == Some(s.params)
                 && Member(m, "jsonrpc") == Some(Str("2.0"))
                 && Member(m, "id") == (if s.callback.Some? then Some(Int(p.currentId)) else None)
            else s.callback.None? || s.nested == [] ==> q == p.(calls := q.calls)
  {
    var id := if s.callback.None? then None else Some(Int(p.currentId));
    var refusal := Refusal(p, s);
    RequestMembers(s.name, s.params, id);
    VersionMember(id, Field("method", Str(s.name), Field("params", s.params, NoFields)));
    if refusal.Some? && s.callback.Some? {
      var p1 := if refusal.value.0.SendFailed? then Issued(p, s) else p;
      SendAllGrows(Invoked(p1, s.callback.value, refusal.value.0, Null, refusal.value.1), s.nested);
    }
  }

  lemma VersionMember(id: Option<Json>, rest: Fields)
    ensures Member(WithId(id, Version(rest)), "jsonrpc") == Some(Str("2.0"))
  {
  }

  /** Every response has the version, too. */
  lemma ResponsesHaveVersion(request: Fields, table: set<string>, outcome: Outcome)
    ensures var r := ResponseTo(request, table, outcome);
            r.Some? ==> Member(r.value, "jsonrpc") == Some(Str("2.0"))
  {
    var id := Member(request, "id");
    VersionMember(id, NoFields);
    forall value ensures Member(ResultResponse(id, value), "jsonrpc") == Some(Str("2.0"))
                 ensures Member(ErrorResponse(id, value), "jsonrpc") == Some(Str("2.0"))
    {
      VersionMember(id, Field("result", value, NoFields));
    }
  }

  /** The errors of requests that no handler sees, or whose handler returns nothing. */
  lemma UnservedRequests(request: Fields, table: set<string>, outcome: Outcome)
    ensures var r := ResponseTo(request, table, outcome);
            match Member(request, "method")
            case None => r.Some? && MemberOrNull(r.value, "error") == CodedError("missing 'method' parameter")
            case Some(Str(name)) =>
              if name in table then
                outcome == Returned(Null, Null) ==>
                  r.Some? && MemberOrNull(r.value, "error") == Str("invalid response")
              else
                r.Some? && MemberOrNull(r.value, "error") == Str("RPC callback for method '" + name + "' not found")
            case Some(_) =>
              r.Some? && MemberOrNull(r.value, "error") == CodedError("'method' parameter must be a string")
  {
    var id := Member(request, "id");
    forall value ensures MemberOrNull(ErrorResponse(id, value), "error") == value {
      ResponseMembers(id, value);
    }
  }

  lemma CodedErrorHas(message: string)
    ensures var e := CodedError(message);
            e.Obj? && Member(e.fields, "code") == Some(Int(-1)) && Member(e.fields, "message") == Some(Str(message))
  {
    var rest := Field("message", Str(message), NoFields);
    assert Member(rest, "message") == Some(Str(message));
    assert Member(Field("code", Int(-1), rest), "message") == Member(rest, "message");
  }
}
