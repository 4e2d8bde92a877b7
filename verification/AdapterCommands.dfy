/** The table of RPC methods that `IceAdapter` registers: which parameters a call needs, what it
    does to the adapter, and what it answers. */
module AdapterCommands {
  import opened Bytes
  import opened Decimal
  import opened JsonText
  import opened RpcCalls
  import GpgNetMessage
  import AdapterTasks

  const COMMANDS: set<string> :=
    {"hostGame", "joinGame", "connectToPeer", "disconnectFromPeer", "setLobbyInitMode", "sendToGpgNet"}

  const TABLE: set<string> := COMMANDS + {"quit", "iceMsg", "setIceServers", "status"}

  /** What a call depends on besides its parameters: the encoding of strings, the UDP port that a
      new relay gets, the text of an exception, an exception out of code that is not modelled
      (`PeerRelay::addIceMessage`, `setIceServers`), and the object that `status` builds. */
  datatype World = World(bytes: string -> Str, udpPort: nat, what: string, fault: Option<string>, status: Fields)

  // -------------------------------------------------------------- conversions

  function Size(items: Items): nat {
    match items
    case NoItems => 0
    case Item(_, tail) => 1 + Size(tail)
  }

  /** `paramsArray[i]`; null behind the end. */
  function At(items: Items, i: nat): Json {
    match items
    case NoItems => Null
    case Item(head, tail) => if i == 0 then head else At(tail, i - 1)
  }

  function Single(a: Json): (params: Items)
    ensures Size(params) == 1 && At(params, 0) == a
  {
    Item(a, NoItems)
  }

  function Pair(a: Json, b: Json): (params: Items)
    ensures Size(params) == 2 && At(params, 0) == a && At(params, 1) == b
  {
    assert Size(Single(b)) == 1 && At(Single(b), 0) == b;
    Item(a, Single(b))
  }

  function Triple(a: Json, b: Json, c: Json): (params: Items)
    ensures Size(params) == 3 && At(params, 0) == a && At(params, 1) == b && At(params, 2) == c
  {
    assert Size(Pair(b, c)) == 2 && At(Pair(b, c), 0) == b && At(Pair(b, c), 1) == c;
    Item(a, Pair(b, c))
  }

  /** `asString`; none when it throws. */
  function AsString(j: Json): Option<string> {
    match j
    case Null => Some("")
    case Str(s) => Some(s)
    case Bool(b) => Some(if b then "true" else "false")
    case Int(i) => Some(ToString(i))
    case _ => None
  }

  /** `asInt`. */
  function AsInt(j: Json): Option<Int32> {
    match j
    case Null => Some(0)
    case Bool(b) => Some(if b then 1 else 0)
    case Int(i) => if FitsInt(i) then Some(i) else None
    case _ => None
  }

  /** `asBool`. */
  function AsBool(j: Json): Option<bool> {
    match j
    case Null => Some(false)
    case Bool(b) => Some(b)
    case Int(i) => Some(i != 0)
    case _ => None
  }

  function ChunkOf(w: World, j: Json): GpgNetMessage.Chunk {
    match j
    case Int(i) => GpgNetMessage.IntValue(i)
    case Bool(b) => GpgNetMessage.BoolValue(b)
    case Str(s) => GpgNetMessage.StringValue(w.bytes(s))
    case _ => GpgNetMessage.OtherValue
  }

  function ChunksOf(w: World, items: Items): seq<GpgNetMessage.Chunk> {
    match items
    case NoItems => []
    case Item(head, tail) => [ChunkOf(w, head)] + ChunksOf(w, tail)
  }

  // ------------------------------------------------------------------ commands

  /** The arity and type checks at the top of the handlers. */
  predicate Accepts(name: string, params: Items) {
    match name
    case "hostGame" => Size(params) >= 1
    case "joinGame" => Size(params) >= 2
    case "connectToPeer" => Size(params) >= 3
    case "disconnectFromPeer" => Size(params) >= 1
    case "setLobbyInitMode" => Size(params) >= 1 && At(params, 0).Str?
    case "iceMsg" => Size(params) >= 2 && At(params, 1).Obj?
    case "sendToGpgNet" => Size(params) >= 2 && At(params, 1).Arr?
    case "setIceServers" => Size(params) >= 1 && At(params, 0).Arr?
    case _ => true
  }

  function Complaint(name: string): string {
    match name
    case "hostGame" => "Need 1 parameter: mapName (string)"
    case "joinGame" => "Need 2 parameters: remotePlayerLogin (string), remotePlayerId (int)"
    case "connectToPeer" =>
      "Need 3 parameters: remotePlayerLogin (string), remotePlayerId (int), createOffer (bool)"
    case "disconnectFromPeer" => "Need 1 parameters: remotePlayerId (int)"
    case "setLobbyInitMode" => "Need 1 parameters: initMode (string)"
    case "iceMsg" => "Need 2 parameters: remotePlayerId (int), msg (object)"
    case "sendToGpgNet" => "Need 2 parameters: header (string), chunks (array)"
    case _ => "Need 1 parameters: iceServers (array) "
  }

  /** The call of the adapter that an accepted command makes; none if a conversion throws. */
  function CommandOf(w: World, name: string, params: Items): Option<AdapterTasks.Event> {
    var text := AsString(At(params, 0));
    match name
    case "hostGame" =>
      if text.Some? then Some(AdapterTasks.Host(w.bytes(text.value))) else None
    case "joinGame" =>
      var id := AsInt(At(params, 1));
      if text.Some? && id.Some? then Some(AdapterTasks.Join(w.bytes(text.value), id.value, w.udpPort)) else None
    case "connectToPeer" =>
      var id, offer := AsInt(At(params, 1)), AsBool(At(params, 2));
      if text.Some? && id.Some? && offer.Some?
      then Some(AdapterTasks.Connect(w.bytes(text.value), id.value, offer.value, w.udpPort))
      else None
    case "disconnectFromPeer" =>
      var id := AsInt(At(params, 0));
      if id.Some? then Some(AdapterTasks.Disconnect(id.value)) else None
    case "setLobbyInitMode" =>
      if text.Some? then Some(AdapterTasks.SetInitMode(w.bytes(text.value))) else None
    case "sendToGpgNet" =>
      if text.Some? && At(params, 1).Arr?
      then Some(AdapterTasks.Forward(GpgNetMessage.Message(w.bytes(text.value), ChunksOf(w, At(params, 1).items))))
      else None
    case _ => None
  }

  /** Whether the adapter's method throws: only `toBinary` does, for a number that is no `int`. */
  predicate Throws(a: AdapterTasks.Adapter, e: AdapterTasks.Event) {
    e.Forward? && a.games != map[]
    && exists i :: 0 <= i < |e.message.chunks| && GpgNetMessage.Throws(e.message.chunks[i])
  }

  /** A handler: the adapter afterwards, and what the handler returns. */
  function Handle(o: AdapterTasks.Options, a: AdapterTasks.Adapter, w: World, name: string, params: Items)
    : (AdapterTasks.Adapter, Outcome)
  {
    if name == "quit" then (a, Returned(Str("ok"), Null))
    else if name == "status" then (a, Returned(Obj(w.status), Null))
    else if !Accepts(name, params) then (a, Returned(Null, Str(Complaint(name))))
    else if name in COMMANDS then
      var command := CommandOf(w, name, params);
      if command.None? || Throws(a, command.value) then (a, Returned(Null, Str(w.what)))
      else (AdapterTasks.Step(o, a, command.value), Returned(Str("ok"), Null))
    else if name == "iceMsg" && AsInt(At(params, 0)).None? then (a, Returned(Null, Str(w.what)))
    else if name == "iceMsg" && AsInt(At(params, 0)).value !in a.relays then (a, Returned(Str("ok"), Null))
    else if w.fault.Some? then (a, Returned(Null, Str(w.fault.value)))
    else (a, Returned(Str("ok"), Null))
  }

  lemma HandlersAnswer(o: AdapterTasks.Options, a: AdapterTasks.Adapter, w: World, name: string, params: Items)
    ensures var outcome := Handle(o, a, w, name, params).1;
            outcome.Returned? && (outcome.result != Null <==> outcome.error == Null)
  {
  }

  // ------------------------------------------------- the adapter behind its RPC server

  datatype Server = Server(peer: Peer, adapter: AdapterTasks.Adapter)

  /** What a relay calls back with; each call is passed on to the client. */
  datatype Report =
    | IceMessage(remoteId: Int32, message: Json)
    | IceState(remoteId: Int32, state: string)
    | PeerConnected(remoteId: Int32, connected: bool)

  /** A message from the client, together with what relays report while it is handled; something the
      game does; or a report of a relay at any other time. */
  datatype Input =
    | Received(message: Fields, w: World, reports: seq<Report>)
    | FromGame(event: AdapterTasks.Event)
    | FromRelay(report: Report)

  /** `sendRequest` without a callback. */
  function Notification(name: string, params: Items): Send {
    Send(name, Arr(params), None, true, [])
  }

  function ReportNotice(o: AdapterTasks.Options, r: Report): Send {
    match r
    case IceMessage(id, message) =>
      Notification("onIceMsg", Triple(Int(o.localPlayerId), Int(id), message))
    case IceState(id, state) =>
      Notification("onIceConnectionStateChanged", Triple(Int(o.localPlayerId), Int(id), Str(state)))
    case PeerConnected(id, connected) =>
      Notification("onConnected", Triple(Int(o.localPlayerId), Int(id), Bool(connected)))
  }

  function ReportNotices(o: AdapterTasks.Options, rs: seq<Report>): seq<Send> {
    if rs == [] then [] else ReportNotices(o, rs[..|rs| - 1]) + [ReportNotice(o, rs[|rs| - 1])]
  }

  function JsonOf(text: Str -> string, c: GpgNetMessage.Chunk): Json {
    match c
    case IntValue(i) => Int(i)
    case UIntValue(u) => Int(u)
    case BoolValue(b) => Bool(b)
    case StringValue(s) => Str(text(s))
    case OtherValue => Null
  }

  function JsonsOf(text: Str -> string, cs: seq<GpgNetMessage.Chunk>): Items {
    if cs == [] then NoItems else Item(JsonOf(text, cs[0]), JsonsOf(text, cs[1..]))
  }

  /** `_onGameConnected`, `_onGameDisconnected` and the end of `_onGpgNetMessage`; text is how bytes
      become characters. */
  function NoteNotice(text: Str -> string, n: AdapterTasks.Note): Send {
    match n
    case ConnectionState(connected) =>
      Notification("onConnectionStateChanged", Single(Str(if connected then "Connected" else "Disconnected")))
    case GpgNetMessageReceived(m) =>
      Notification("onGpgNetMessageReceived", Pair(Str(text(m.header)), Arr(JsonsOf(text, m.chunks))))
  }

  function NoteNotices(text: Str -> string, ns: seq<AdapterTasks.Note>): seq<Send> {
    if ns == [] then [] else NoteNotices(text, ns[..|ns| - 1]) + [NoteNotice(text, ns[|ns| - 1])]
  }

  /** The notes that an event adds. */
  function NewNotes(a: AdapterTasks.Adapter, b: AdapterTasks.Adapter): seq<AdapterTasks.Note> {
    if |a.notes| <= |b.notes| then b.notes[|a.notes|..] else []
  }

  function Called(message: Fields): string
    requires Dispatched(message, TABLE)
  {
    Member(message, "method").value.s
  }

  function OutcomeFor(o: AdapterTasks.Options, a: AdapterTasks.Adapter, input: Input): Outcome
    requires input.Received?
  {
    if Dispatched(input.message, TABLE)
    then Handle(o, a, input.w, Called(input.message), Params(input.message)).1
    else Raised  // nothing is called
  }

  function Absorb(o: AdapterTasks.Options, text: Str -> string, s: Server, input: Input): Server {
    match input
    case FromGame(event) =>
      var b := AdapterTasks.Step(o, s.adapter, event);
      Server(SendAll(s.peer, NoteNotices(text, NewNotes(s.adapter, b))), b)
    case FromRelay(report) => Server(SendRequest(s.peer, ReportNotice(o, report)), s.adapter)
    case Received(message, w, reports) =>
      Server(RpcCalls.Step(s.peer, TABLE,
                           Receive(message, OutcomeFor(o, s.adapter, input), ReportNotices(o, reports))),
             if Dispatched(message, TABLE) then Handle(o, s.adapter, w, Called(message), Params(message)).0
             else s.adapter)
  }

  function AbsorbAll(o: AdapterTasks.Options, text: Str -> string, inputs: seq<Input>): Server {
    if inputs == [] then Server(RpcCalls.START, AdapterTasks.START)
    else Absorb(o, text, AbsorbAll(o, text, inputs[..|inputs| - 1]), inputs[|inputs| - 1])
  }

  /** What an input does to the adapter: at most one command, carried out if it is accepted, its
      parameters can be converted, and it does not throw. */
  function Effect(a: AdapterTasks.Adapter, input: Input): seq<AdapterTasks.Event> {
    match input
    case FromGame(event) => [event]
    case FromRelay(_) => []
    case Received(message, w, _) =>
      if !Dispatched(message, TABLE) || Called(message) !in COMMANDS then []
      else
        var name, params := Called(message), Params(message);
        var command := CommandOf(w, name, params);
        if Accepts(name, params) && command.Some? && !Throws(a, command.value) then [command.value] else []
  }

  /** All events that a run of inputs amounts to for the adapter. */
  function Effects(o: AdapterTasks.Options, text: Str -> string, inputs: seq<Input>): seq<AdapterTasks.Event> {
    if inputs == [] then []
    else
      var before := inputs[..|inputs| - 1];
      Effects(o, text, before) + Effect(AbsorbAll(o, text, before).adapter, inputs[|inputs| - 1])
  }

  /** The ids that the client expects to see again, in order. */
  function AskedIds(inputs: seq<Input>): seq<Json> {
    if inputs == [] then []
    else
      var ids := AskedIds(inputs[..|inputs| - 1]);
      match inputs[|inputs| - 1]
      case Received(message, _, _) =>
        if Has(message, "method") && Has(message, "id") then ids + [Member(message, "id").value] else ids
      case _ => ids
  }

  function IdsOf(responses: seq<Fields>): seq<Json> {
    if responses == [] then []
    else IdsOf(responses[..|responses| - 1]) + [MemberOrNull(responses[|responses| - 1], "id")]
  }

  predicate ResultOrError(response: Fields) {
    Has(response, "result") != Has(response, "error")
  }

  lemma IdsOfSnoc(responses: seq<Fields>, r: Fields)
    ensures IdsOf(responses + [r]) == IdsOf(responses) + [MemberOrNull(r, "id")]
  {
    assert (responses + [r])[..|responses|] == responses;
  }

  /** What one request adds to the responses. */
  lemma OneResponse(p: Peer, message: Fields, outcome: Outcome, nested: seq<Send>)
    requires Has(message, "method") && (Dispatched(message, TABLE) ==> outcome.Returned?)
    ensures var r := ResponseTo(message, TABLE, outcome);
            && r.Some? && ResultOrError(r.value) && Member(r.value, "id") == Member(message, "id")
            && Responses(ServeRequest(p, message, TABLE, outcome, nested).sent)
               == if Has(message, "id") then Responses(p.sent) + [r.value] else Responses(p.sent)
  {
    ResponseShape(message, TABLE, outcome);
    SendAllGrows(p, nested);
    var p1 := if Dispatched(message, TABLE) then SendAll(p, nested) else p;
    ResponsesSnoc(p1.sent, ResponseTo(message, TABLE, outcome).value);
  }

  lemma NoResponse(p: Peer, message: Fields, outcome: Outcome, nested: seq<Send>)
    requires !Has(message, "method")
    ensures Responses(RpcCalls.Step(p, TABLE, Receive(message, outcome, nested)).sent) == Responses(p.sent)
  {
    if Matches(p, message) {
      var id := Member(message, "id").value.i;
      SendAllGrows(Invoked(p, p.currentRequests[id], Answer(id), MemberOrNull(message, "result"),
                           MemberOrNull(message, "error")), nested);
    }
  }

  predicate Asks(input: Input) {
    input.Received? && Has(input.message, "method") && Has(input.message, "id")
  }

  lemma OneInput(o: AdapterTasks.Options, text: Str -> string, s: Server, input: Input)
    ensures Asks(input) ==>
              var r := ResponseTo(input.message, TABLE, OutcomeFor(o, s.adapter, input));
              r.Some? && ResultOrError(r.value) && MemberOrNull(r.value, "id") == Member(input.message, "id").value
              && Responses(Absorb(o, text, s, input).peer.sent) == Responses(s.peer.sent) + [r.value]
    ensures !Asks(input) ==> Responses(Absorb(o, text, s, input).peer.sent) == Responses(s.peer.sent)
  {
    match input
    case FromGame(event) =>
      SendAllGrows(s.peer, NoteNotices(text, NewNotes(s.adapter, AdapterTasks.Step(o, s.adapter, event))));
    case FromRelay(report) => SendGrows(s.peer, ReportNotice(o, report));
    case Received(message, w, reports) =>
      var outcome := OutcomeFor(o, s.adapter, input);
      if Has(message, "method") {
        if Dispatched(message, TABLE) {
          HandlersAnswer(o, s.adapter, w, Called(message), Params(message));
        }
        OneResponse(s.peer, message, outcome, ReportNotices(o, reports));
      } else {
        NoResponse(s.peer, message, outcome, ReportNotices(o, reports));
      }
  }

  /** All of them have either a result or an error. */
  predicate AllAnswers(responses: seq<Fields>) {
    responses == [] || (AllAnswers(responses[..|responses| - 1]) && ResultOrError(responses[|responses| - 1]))
  }

  lemma {:induction false} AllAnswersAt(responses: seq<Fields>, i: nat)
    requires AllAnswers(responses) && i < |responses|
    ensures ResultOrError(responses[i])
  {
    if i < |responses| - 1 {
      AllAnswersAt(responses[..|responses| - 1], i);
    }
  }

  predicate Answers(responses: seq<Fields>, ids: seq<Json>) {
    IdsOf(responses) == ids && AllAnswers(responses)
  }

  lemma AnswersSnoc(responses: seq<Fields>, ids: seq<Json>, r: Fields)
    requires Answers(responses, ids) && ResultOrError(r)
    ensures Answers(responses + [r], ids + [MemberOrNull(r, "id")])
  {
    IdsOfSnoc(responses, r);
    assert (responses + [r])[..|responses|] == responses;
  }

  lemma InputIsAnswered(o: AdapterTasks.Options, text: Str -> string, s: Server, input: Input, ids: seq<Json>)
    requires Answers(Responses(s.peer.sent), ids)
    ensures Answers(Responses(Absorb(o, text, s, input).peer.sent),
                    if Asks(input) then ids + [Member(input.message, "id").value] else ids)
  {
    OneInput(o, text, s, input);
    if Asks(input) {
      AnswersSnoc(Responses(s.peer.sent), ids, ResponseTo(input.message, TABLE, OutcomeFor(o, s.adapter, input)).value);
    }
  }

  lemma {:induction false} RunIsAnswered(o: AdapterTasks.Options, text: Str -> string, inputs: seq<Input>)
    ensures Answers(Responses(AbsorbAll(o, text, inputs).peer.sent), AskedIds(inputs))
  {
    if inputs != [] {
      RunIsAnswered(o, text, inputs[..|inputs| - 1]);
      InputIsAnswered(o, text, AbsorbAll(o, text, inputs[..|inputs| - 1]), inputs[|inputs| - 1],
                      AskedIds(inputs[..|inputs| - 1]));
    }
  }

  /** In every run, the adapter answers every request that has an id, in the order received, with
      that id and either a result or an error; and it answers nothing else. */
  lemma EveryRequestIsAnswered(o: AdapterTasks.Options, text: Str -> string, inputs: seq<Input>)
    ensures var responses := Responses(AbsorbAll(o, text, inputs).peer.sent);
            IdsOf(responses) == AskedIds(inputs)
            && forall i :: 0 <= i < |responses| ==> ResultOrError(responses[i])
  {
    var responses := Responses(AbsorbAll(o, text, inputs).peer.sent);
    RunIsAnswered(o, text, inputs);
    forall i | 0 <= i < |responses| ensures ResultOrError(responses[i]) {
      AllAnswersAt(responses, i);
    }
  }

  /** In every run, the adapter is where the commands carried out, and the game's events, take it;
      requests answered with an error have no effect on it. */
  lemma {:induction false} AdapterFollowsCommands(o: AdapterTasks.Options, text: Str -> string,
                                                  inputs: seq<Input>)
    ensures AbsorbAll(o, text, inputs).adapter == AdapterTasks.Run(o, Effects(o, text, inputs))
  {
    if inputs == [] {
    } else {
      var before, input := inputs[..|inputs| - 1], inputs[|inputs| - 1];
      var s := AbsorbAll(o, text, before);
      AdapterFollowsCommands(o, text, before);
      OneStep(o, text, s, input);
      var effect := Effect(s.adapter, input);
      if effect == [] {
        assert Effects(o, text, before) + [] == Effects(o, text, before);
      } else {
        AdapterTasks.RunSnoc(o, Effects(o, text, before), effect[0]);
      }
    }
  }

  lemma OneStep(o: AdapterTasks.Options, text: Str -> string, s: Server, input: Input)
    ensures var effect := Effect(s.adapter, input);
            |effect| <= 1
            && Absorb(o, text, s, input).adapter
               == if effect == [] then s.adapter else AdapterTasks.Step(o, s.adapter, effect[0])
  {
  }

  // ------------------------------------------------------------- what "ok" promises

  predicate Scalar(j: Json) {
    !j.Arr? && !j.Obj?
  }

  predicate IntLike(j: Json) {
    j.Null? || j.Bool? || (j.Int? && FitsInt(j.i))
  }

  predicate BoolLike(j: Json) {
    j.Null? || j.Bool? || j.Int?
  }

  /** The parameters a command can do with, as its complaint announces them, or what jsoncpp
      converts to that. */
  predicate WellFormed(name: string, params: Items) {
    var first, second, third := At(params, 0), At(params, 1), At(params, 2);
    match name
    case "hostGame" => Size(params) >= 1 && Scalar(first)
    case "joinGame" => Size(params) >= 2 && Scalar(first) && IntLike(second)
    case "connectToPeer" => Size(params) >= 3 && Scalar(first) && IntLike(second) && BoolLike(third)
    case "disconnectFromPeer" => Size(params) >= 1 && IntLike(first)
    case "setLobbyInitMode" => Size(params) >= 1 && first.Str?
    case "sendToGpgNet" => Size(params) >= 2 && Scalar(first) && second.Arr?
    case _ => false
  }

  lemma {:induction false} ChunksAt(w: World, items: Items)
    ensures |ChunksOf(w, items)| == Size(items)
    ensures forall i :: 0 <= i < Size(items) ==> ChunksOf(w, items)[i] == ChunkOf(w, At(items, i))
  {
    match items
    case NoItems =>
    case Item(head, tail) =>
      ChunksAt(w, tail);
      forall i | 0 <= i < Size(items) ensures ChunksOf(w, items)[i] == ChunkOf(w, At(items, i)) {
        if i > 0 {
          assert ChunksOf(w, items)[i] == ChunksOf(w, tail)[i - 1];
        }
      }
  }

  /** All numbers in the list fit an `int`. */
  predicate NumbersFit(items: Items) {
    forall i :: 0 <= i < Size(items) && At(items, i).Int? ==> FitsInt(At(items, i).i)
  }

  lemma ThrowsIff(w: World, a: AdapterTasks.Adapter, header: Str, items: Items)
    ensures Throws(a, AdapterTasks.Forward(GpgNetMessage.Message(header, ChunksOf(w, items))))
       <==> a.games != map[] && !NumbersFit(items)
  {
    var cs := ChunksOf(w, items);
    ChunksAt(w, items);
    if i :| 0 <= i < |cs| && GpgNetMessage.Throws(cs[i]) {
      assert At(items, i).Int? && !FitsInt(At(items, i).i);
    }
    if i :| 0 <= i < Size(items) && At(items, i).Int? && !FitsInt(At(items, i).i) {
      assert GpgNetMessage.Throws(cs[i]);
    }
  }

  /** A command is answered "ok" if and only if its parameters are well-formed and, for a message
      to a connected game, all numbers in it fit; otherwise it is answered with an error, and the
      adapter is as before. */
  lemma OkIffWellFormed(o: AdapterTasks.Options, a: AdapterTasks.Adapter, w: World, name: string, params: Items)
    requires name in COMMANDS
    ensures var h := Handle(o, a, w, name, params);
            && (h.1 == Returned(Str("ok"), Null)
                <==> WellFormed(name, params)
                     && (name == "sendToGpgNet" && a.games != map[] ==> NumbersFit(At(params, 1).items)))
            && (h.1 != Returned(Str("ok"), Null) ==> h.0 == a && h.1.Returned? && h.1.result == Null && h.1.error.Str?)
  {
    if name == "sendToGpgNet" && WellFormed(name, params) {
      ThrowsIff(w, a, w.bytes(AsString(At(params, 0)).value), At(params, 1).items);
    }
  }

  predicate Ok(o: AdapterTasks.Options, a: AdapterTasks.Adapter, w: World, name: string, params: Items) {
    Handle(o, a, w, name, params).1 == Returned(Str("ok"), Null)
  }

  lemma OkIsStep(o: AdapterTasks.Options, a: AdapterTasks.Adapter, w: World, name: string, params: Items)
    requires name in COMMANDS && Ok(o, a, w, name, params)
    ensures CommandOf(w, name, params).Some?
    ensures Handle(o, a, w, name, params).0 == AdapterTasks.Step(o, a, CommandOf(w, name, params).value)
  {
  }

  /** The relays after a relay was created and a task queued. */
  lemma RelayCreated(a: AdapterTasks.Adapter, id: Int32, relay: AdapterTasks.Relay, t: AdapterTasks.Task)
    ensures var r := AdapterTasks.Queue(AdapterTasks.CreateRelay(a, id, relay), t);
            && r.relays.Keys == a.relays.Keys + {id}
            && (forall k :: k in a.relays ==> r.relays[k] == a.relays[k])
            && (id !in a.relays ==> r.relays[id] == relay)
            && r.queued == a.queued + [t]
  {
    AdapterTasks.QueueLeaves(AdapterTasks.CreateRelay(a, id, relay), t);
  }

  /** "ok" to hostGame: the host task is queued, relays are as before. */
  lemma OkHost(o: AdapterTasks.Options, a: AdapterTasks.Adapter, w: World, params: Items)
    requires Ok(o, a, w, "hostGame", params)
    ensures AsString(At(params, 0)).Some?
    ensures var r, hostMap := Handle(o, a, w, "hostGame", params).0, w.bytes(AsString(At(params, 0)).value);
            r.relays == a.relays && r.queued == a.queued + [AdapterTasks.HostGame(hostMap)]
  {
    OkIsStep(o, a, w, "hostGame", params);
    AdapterTasks.QueueLeaves(a, AdapterTasks.HostGame(w.bytes(AsString(At(params, 0)).value)));
  }

  /** "ok" to joinGame: there is a relay to that player, a new one in the answering role or the old
      one; no other relay changes; and the task to join is queued. */
  lemma OkJoin(o: AdapterTasks.Options, a: AdapterTasks.Adapter, w: World, params: Items)
    requires Ok(o, a, w, "joinGame", params)
    ensures AsString(At(params, 0)).Some? && AsInt(At(params, 1)).Some?
    ensures var r := Handle(o, a, w, "joinGame", params).0;
            var login, id := w.bytes(AsString(At(params, 0)).value), AsInt(At(params, 1)).value;
            && r.relays.Keys == a.relays.Keys + {id}
            && (forall k :: k in a.relays ==> r.relays[k] == a.relays[k])
            && (id !in a.relays ==> r.relays[id] == AdapterTasks.Relay(login, false, w.udpPort))
            && r.queued == a.queued + [AdapterTasks.JoinGame(login, id)]
  {
    var login, id := w.bytes(AsString(At(params, 0)).value), AsInt(At(params, 1)).value;
    OkIsStep(o, a, w, "joinGame", params);
    RelayCreated(a, id, AdapterTasks.Relay(login, false, w.udpPort), AdapterTasks.JoinGame(login, id));
  }

  /** "ok" to connectToPeer: the same, with the role asked for. */
  lemma OkConnect(o: AdapterTasks.Options, a: AdapterTasks.Adapter, w: World, params: Items)
    requires Ok(o, a, w, "connectToPeer", params)
    ensures AsString(At(params, 0)).Some? && AsInt(At(params, 1)).Some? && AsBool(At(params, 2)).Some?
    ensures var r, offer := Handle(o, a, w, "connectToPeer", params).0, AsBool(At(params, 2)).value;
            var login, id := w.bytes(AsString(At(params, 0)).value), AsInt(At(params, 1)).value;
            && r.relays.Keys == a.relays.Keys + {id}
            && (forall k :: k in a.relays ==> r.relays[k] == a.relays[k])
            && (id !in a.relays ==> r.relays[id] == AdapterTasks.Relay(login, offer, w.udpPort))
            && r.queued == a.queued + [AdapterTasks.ConnectToPeer(login, id)]
  {
    var login, id := w.bytes(AsString(At(params, 0)).value), AsInt(At(params, 1)).value;
    OkIsStep(o, a, w, "connectToPeer", params);
    RelayCreated(a, id, AdapterTasks.Relay(login, AsBool(At(params, 2)).value, w.udpPort),
                 AdapterTasks.ConnectToPeer(login, id));
  }

  /** "ok" to disconnectFromPeer: there is no relay to that player, and a disconnect is queued if
      and only if there was one. */
  lemma OkDisconnect(o: AdapterTasks.Options, a: AdapterTasks.Adapter, w: World, params: Items)
    requires Ok(o, a, w, "disconnectFromPeer", params)
    ensures AsInt(At(params, 0)).Some?
    ensures var r, id := Handle(o, a, w, "disconnectFromPeer", params).0, AsInt(At(params, 0)).value;
            r.relays == a.relays - {id}
            && r.queued == if id in a.relays then a.queued + [AdapterTasks.DisconnectFromPeer(id)] else a.queued
  {
    var id := AsInt(At(params, 0)).value;
    OkIsStep(o, a, w, "disconnectFromPeer", params);
    if id in a.relays {
      AdapterTasks.QueueLeaves(a.(relays := a.relays - {id}), AdapterTasks.DisconnectFromPeer(id));
    } else {
      assert a.relays - {id} == a.relays;
    }
  }

  /** "ok" to sendToGpgNet: every connected game gets the message, once and last; but "ok" is also
      the answer when no game is connected, and then the message is lost. So it is delivered to
      somebody if and only if a game is connected. */
  lemma OkSend(o: AdapterTasks.Options, a: AdapterTasks.Adapter, w: World, params: Items)
    requires Ok(o, a, w, "sendToGpgNet", params)
    ensures AsString(At(params, 0)).Some? && At(params, 1).Arr?
    ensures var r := Handle(o, a, w, "sendToGpgNet", params).0;
            var m := GpgNetMessage.Message(w.bytes(AsString(At(params, 0)).value), ChunksOf(w, At(params, 1).items));
            && r.games.Keys == a.games.Keys
            && (forall g :: g in a.games ==> r.games[g] == a.games[g] + [m])
            && (r != a <==> a.games != map[])
  {
    var r := Handle(o, a, w, "sendToGpgNet", params).0;
    OkIffWellFormed(o, a, w, "sendToGpgNet", params);
    ThrowsIff(w, a, w.bytes(AsString(At(params, 0)).value), At(params, 1).items);
    if a.games != map[] {
      AdapterTasks.HasGame(a.games);
      var g :| g in a.games;
      assert |r.games[g]| == |a.games[g]| + 1;
    }
  }

  /** Such a message: an adapter without a game answers "ok" and does nothing. */
  lemma OkWithoutGame(o: AdapterTasks.Options, w: World)
    ensures var params := Item(Str("Ready"), Item(Arr(NoItems), NoItems));
            Handle(o, AdapterTasks.START, w, "sendToGpgNet", params) == (AdapterTasks.START, Returned(Str("ok"), Null))
  {
    var params := Item(Str("Ready"), Item(Arr(NoItems), NoItems));
    assert At(params, 1) == Arr(NoItems);
    assert Size(params) == 2;
  }
}
