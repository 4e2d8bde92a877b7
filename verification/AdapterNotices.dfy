/** What the client hears about its games: the notifications on the RPC connection, and through them
    the messages in the games' bytes. */
module AdapterNotices {
  import opened Bytes
  import opened JsonText
  import opened RpcCalls
  import opened AdapterCommands
  import AdapterSessions
  import AdapterTasks
  import AdapterWire
  import GpgNetMessage

  const CONNECTION := "onConnectionStateChanged"
  const MESSAGE := "onGpgNetMessageReceived"

  predicate IsRequest(m: Fields, name: string) {
    Member(m, "method") == Some(Str(name))
  }

  /** The notifications about games among the messages written to the client. */
  function GameNotices(sent: seq<Fields>): seq<Fields> {
    if sent == [] then []
    else
      var before, m := GameNotices(sent[..|sent| - 1]), sent[|sent| - 1];
      if IsRequest(m, CONNECTION) || IsRequest(m, MESSAGE) then before + [m] else before
  }

  lemma GameNoticesSnoc(sent: seq<Fields>, m: Fields)
    ensures GameNotices(sent + [m])
         == if IsRequest(m, CONNECTION) || IsRequest(m, MESSAGE) then GameNotices(sent) + [m] else GameNotices(sent)
  {
    assert (sent + [m])[..|sent|] == sent;
  }

  /** The request that a call of `sendRequest` without a callback writes. */
  function Written(s: Send): Fields {
    Request(s.name, s.params, None)
  }

  /** What notes look like on the wire. */
  function OnWire(text: Str -> string, notes: seq<AdapterTasks.Note>): seq<Fields> {
    if notes == [] then []
    else OnWire(text, notes[..|notes| - 1]) + [Written(NoteNotice(text, notes[|notes| - 1]))]
  }

  lemma NotificationIsWritten(p: Peer, name: string, params: Items)
    requires name != ""
    ensures var s := Notification(name, params);
            SendRequest(p, s) == p.(sent := p.sent + [Written(s)]) && Member(Written(s), "method") == Some(Str(name))
  {
    RequestMembers(name, Arr(params), None);
  }

  lemma NoteIsWritten(text: Str -> string, p: Peer, n: AdapterTasks.Note)
    ensures var s := NoteNotice(text, n);
            GameNotices(SendRequest(p, s).sent) == GameNotices(p.sent) + [Written(s)]
  {
    var s := NoteNotice(text, n);
    NotificationIsWritten(p, s.name, s.params.items);
    GameNoticesSnoc(p.sent, Written(s));
  }

  lemma ReportIsQuiet(o: AdapterTasks.Options, p: Peer, r: Report)
    ensures GameNotices(SendRequest(p, ReportNotice(o, r)).sent) == GameNotices(p.sent)
  {
    var s := ReportNotice(o, r);
    NotificationIsWritten(p, s.name, s.params.items);
    GameNoticesSnoc(p.sent, Written(s));
    assert |CONNECTION| == 24 && |MESSAGE| == 23;
    assert |"onIceMsg"| == 8 && |"onIceConnectionStateChanged"| == 27 && |"onConnected"| == 11;
  }

  lemma {:induction false} NotesAreWritten(text: Str -> string, p: Peer, ns: seq<AdapterTasks.Note>)
    ensures GameNotices(SendAll(p, NoteNotices(text, ns)).sent) == GameNotices(p.sent) + OnWire(text, ns)
  {
    if ns == [] {
      assert GameNotices(p.sent) + [] == GameNotices(p.sent);
    } else {
      var front, last := ns[..|ns| - 1], ns[|ns| - 1];
      var sends := NoteNotices(text, front);
      NotesAreWritten(text, p, front);
      assert (sends + [NoteNotice(text, last)])[..|sends|] == sends;
      NoteIsWritten(text, SendAll(p, sends), last);
      Associate(GameNotices(p.sent), OnWire(text, front), [Written(NoteNotice(text, last))]);
    }
  }

  lemma {:induction false} ReportsAreQuiet(o: AdapterTasks.Options, p: Peer, rs: seq<Report>)
    ensures GameNotices(SendAll(p, ReportNotices(o, rs)).sent) == GameNotices(p.sent)
  {
    if rs != [] {
      var front, last := rs[..|rs| - 1], rs[|rs| - 1];
      var sends := ReportNotices(o, front);
      ReportsAreQuiet(o, p, front);
      assert (sends + [ReportNotice(o, last)])[..|sends|] == sends;
      ReportIsQuiet(o, SendAll(p, sends), last);
    }
  }

  // ------------------------------------------------------------------ one input

  /** Commands add no notes. */
  lemma CommandKeepsNotes(o: AdapterTasks.Options, a: AdapterTasks.Adapter, w: World, name: string, params: Items)
    ensures Handle(o, a, w, name, params).0.notes == a.notes
  {
    var command := CommandOf(w, name, params);
    if command.Some? {
      match command.value
      case Host(hostMap) => AdapterTasks.QueueLeaves(a, AdapterTasks.HostGame(hostMap));
      case Join(login, id, port) =>
        AdapterTasks.QueueLeaves(AdapterTasks.CreateRelay(a, id, AdapterTasks.Relay(login, false, port)),
                                 AdapterTasks.JoinGame(login, id));
      case Connect(login, id, offer, port) =>
        AdapterTasks.QueueLeaves(AdapterTasks.CreateRelay(a, id, AdapterTasks.Relay(login, offer, port)),
                                 AdapterTasks.ConnectToPeer(login, id));
      case Disconnect(id) =>
        AdapterTasks.QueueLeaves(a.(relays := a.relays - {id}), AdapterTasks.DisconnectFromPeer(id));
      case _ =>
    }
  }

  lemma NotesGrow(o: AdapterTasks.Options, a: AdapterTasks.Adapter, e: AdapterTasks.Event)
    ensures var b := AdapterTasks.Step(o, a, e); b.notes == a.notes + NewNotes(a, b)
  {
    match e
    case Host(hostMap) => AdapterTasks.QueueLeaves(a, AdapterTasks.HostGame(hostMap));
    case Join(login, id, port) =>
      AdapterTasks.QueueLeaves(AdapterTasks.CreateRelay(a, id, AdapterTasks.Relay(login, false, port)),
                               AdapterTasks.JoinGame(login, id));
    case Connect(login, id, offer, port) =>
      AdapterTasks.QueueLeaves(AdapterTasks.CreateRelay(a, id, AdapterTasks.Relay(login, offer, port)),
                               AdapterTasks.ConnectToPeer(login, id));
    case Disconnect(id) =>
      AdapterTasks.QueueLeaves(a.(relays := a.relays - {id}), AdapterTasks.DisconnectFromPeer(id));
    case GameMessage(m) => ReactGrows(o, a, m);
    case _ =>
  }

  lemma ReactGrows(o: AdapterTasks.Options, a: AdapterTasks.Adapter, m: GpgNetMessage.Message)
    ensures AdapterTasks.React(o, a, m).notes == a.notes + [AdapterTasks.GpgNetMessageReceived(m)]
  {
    if AdapterTasks.ReportsState(m) {
      var a1 := a.(gameState := AdapterTasks.AsString(m.chunks[0]));
      AdapterTasks.ExecutingLeaves(
        if a1.gameState == AdapterTasks.IDLE
        then AdapterTasks.Send(a1, AdapterTasks.CreateLobbyMessage(o, a1.lobbyInitMode))
        else a1);
    }
  }

  lemma {:induction false} OnWireOfBoth(text: Str -> string, a: seq<AdapterTasks.Note>, b: seq<AdapterTasks.Note>)
    ensures OnWire(text, a + b) == OnWire(text, a) + OnWire(text, b)
    decreases |b|
  {
    if b == [] {
      assert a + b == a;
      assert OnWire(text, a) + [] == OnWire(text, a);
    } else {
      var front, last := b[..|b| - 1], b[|b| - 1];
      OnWireOfBoth(text, a, front);
      assert (a + b)[..|a + b| - 1] == a + front;
      Associate(OnWire(text, a), OnWire(text, front), [Written(NoteNotice(text, last))]);
    }
  }

  lemma ServingIsQuiet(p: Peer, request: Fields, outcome: Outcome, nested: seq<Send>)
    requires Has(request, "method") && GameNotices(SendAll(p, nested).sent) == GameNotices(p.sent)
    ensures GameNotices(ServeRequest(p, request, TABLE, outcome, nested).sent) == GameNotices(p.sent)
  {
    var p1 := if Dispatched(request, TABLE) then SendAll(p, nested) else p;
    var response := ResponseTo(request, TABLE, outcome);
    ResponseShape(request, TABLE, outcome);
    if response.Some? {
      GameNoticesSnoc(p1.sent, response.value);
    }
  }

  lemma AnswerIsQuiet(p: Peer, o: AdapterTasks.Options, message: Fields, rs: seq<Report>)
    requires Matches(p, message)
    ensures GameNotices(TakeResponse(p, message, ReportNotices(o, rs)).sent) == GameNotices(p.sent)
  {
    var id := Member(message, "id").value.i;
    ReportsAreQuiet(o, Invoked(p, p.currentRequests[id], Answer(id), MemberOrNull(message, "result"),
                               MemberOrNull(message, "error")), rs);
  }

  lemma MessageIsQuiet(p: Peer, o: AdapterTasks.Options, message: Fields, outcome: Outcome, rs: seq<Report>)
    ensures GameNotices(RpcCalls.Step(p, TABLE, Receive(message, outcome, ReportNotices(o, rs))).sent)
         == GameNotices(p.sent)
  {
    if Has(message, "method") {
      ReportsAreQuiet(o, p, rs);
      ServingIsQuiet(p, message, outcome, ReportNotices(o, rs));
    } else if Matches(p, message) {
      AnswerIsQuiet(p, o, message, rs);
    }
  }

  /** In every run, whatever else is answered and reported in between, the notifications about games
      on the wire are the adapter's notes, in order, none left out or doubled. */
  lemma {:induction false} NotesReachWire(o: AdapterTasks.Options, text: Str -> string, inputs: seq<Input>)
    ensures var s := AbsorbAll(o, text, inputs); GameNotices(s.peer.sent) == OnWire(text, s.adapter.notes)
  {
    if inputs != [] {
      var s, input := AbsorbAll(o, text, inputs[..|inputs| - 1]), inputs[|inputs| - 1];
      NotesReachWire(o, text, inputs[..|inputs| - 1]);
      match input
      case FromGame(event) =>
        var b := AdapterTasks.Step(o, s.adapter, event);
        NotesGrow(o, s.adapter, event);
        NotesAreWritten(text, s.peer, NewNotes(s.adapter, b));
        OnWireOfBoth(text, s.adapter.notes, NewNotes(s.adapter, b));
      case FromRelay(report) => ReportIsQuiet(o, s.peer, report);
      case Received(message, w, reports) =>
        MessageIsQuiet(s.peer, o, message, OutcomeFor(o, s.adapter, input), reports);
        if Dispatched(message, TABLE) {
          CommandKeepsNotes(o, s.adapter, w, Called(message), Params(message));
        }
    }
  }

  // ------------------------------------------------------- from the games' bytes

  /** Those of them that pass on a message of a game. */
  function MessageNotices(notices: seq<Fields>): seq<Fields> {
    if notices == [] then []
    else
      var before, m := MessageNotices(notices[..|notices| - 1]), notices[|notices| - 1];
      if IsRequest(m, MESSAGE) then before + [m] else before
  }

  function MessagesOnWire(text: Str -> string, ms: seq<GpgNetMessage.Message>): seq<Fields> {
    if ms == [] then []
    else
      MessagesOnWire(text, ms[..|ms| - 1])
      + [Written(NoteNotice(text, AdapterTasks.GpgNetMessageReceived(ms[|ms| - 1])))]
  }

  lemma MessageNoticesSnoc(notices: seq<Fields>, m: Fields)
    ensures MessageNotices(notices + [m])
         == if IsRequest(m, MESSAGE) then MessageNotices(notices) + [m] else MessageNotices(notices)
  {
    assert (notices + [m])[..|notices|] == notices;
  }

  lemma {:induction false} NotifiedMessages(text: Str -> string, notes: seq<AdapterTasks.Note>)
    ensures MessageNotices(OnWire(text, notes)) == MessagesOnWire(text, AdapterWire.Notified(notes))
  {
    if notes != [] {
      var front, last := notes[..|notes| - 1], notes[|notes| - 1];
      var s, heard := NoteNotice(text, last), AdapterWire.Notified(front);
      NotifiedMessages(text, front);
      RequestMembers(s.name, s.params, None);
      MessageNoticesSnoc(OnWire(text, front), Written(s));
      assert |CONNECTION| == 24 && |MESSAGE| == 23;
      if last.GpgNetMessageReceived? {
        assert (heard + [last.message])[..|heard|] == heard;
      }
    }
  }

  /** From the games' bytes to the client's connection: for any cutting of the bytes, the messages
      passed on to the client are those that the connections decode, in order. */
  lemma ClientHearsDecodedMessages(o: AdapterTasks.Options, text: Str -> string, inputs: seq<Input>,
                                   fromGames: seq<AdapterSessions.Input>)
    requires Effects(o, text, inputs) == AdapterSessions.AllAmounts(o, fromGames)
    ensures MessageNotices(GameNotices(AbsorbAll(o, text, inputs).peer.sent))
         == MessagesOnWire(text, AdapterSessions.Messages(AdapterSessions.AbsorbAll(o, fromGames).deliveries))
  {
    var s := AbsorbAll(o, text, inputs);
    NotesReachWire(o, text, inputs);
    NotifiedMessages(text, s.adapter.notes);
    AdapterFollowsCommands(o, text, inputs);
    AdapterSessions.BytesRefineEvents(o, fromGames);
    AdapterSessions.NotifiesDeliveries(o, fromGames);
  }

  // ---------------------------------------------------------- the notices, word for word

  /** One request is written, last, and it asks for no answer. */
  predicate Notifies(s: Server, r: Server, name: string, params: Items) {
    r.peer == s.peer.(sent := s.peer.sent + [Request(name, Arr(params), None)])
  }

  lemma OneNotice(text: Str -> string, p: Peer, n: AdapterTasks.Note)
    ensures SendAll(p, NoteNotices(text, [n])) == SendRequest(p, NoteNotice(text, n))
  {
    assert [n][..0] == [];
    var s := NoteNotice(text, n);
    assert NoteNotices(text, [n]) == [] + [s];
    assert [s][..0] == [];
    assert SendAll(p, [s]) == SendRequest(SendAll(p, []), s);
  }

  lemma NoteIsSent(o: AdapterTasks.Options, text: Str -> string, s: Server, e: AdapterTasks.Event, n: AdapterTasks.Note)
    requires AdapterTasks.Step(o, s.adapter, e).notes == s.adapter.notes + [n]
    ensures Absorb(o, text, s, FromGame(e)).peer == SendRequest(s.peer, NoteNotice(text, n))
  {
    var b := AdapterTasks.Step(o, s.adapter, e);
    assert NewNotes(s.adapter, b) == [n];
    OneNotice(text, s.peer, n);
  }

  lemma ConnectionIsAnnounced(o: AdapterTasks.Options, text: Str -> string, s: Server, g: AdapterTasks.Game)
    ensures g !in s.adapter.games ==>
              Notifies(s, Absorb(o, text, s, FromGame(AdapterTasks.GameConnected(g))),
                       "onConnectionStateChanged", Single(Str("Connected")))
    ensures g in s.adapter.games ==>
              Notifies(s, Absorb(o, text, s, FromGame(AdapterTasks.GameDisconnected(g))),
                       "onConnectionStateChanged", Single(Str("Disconnected")))
  {
    if g in s.adapter.games {
      NoteIsSent(o, text, s, AdapterTasks.GameDisconnected(g), AdapterTasks.ConnectionState(false));
    } else {
      NoteIsSent(o, text, s, AdapterTasks.GameConnected(g), AdapterTasks.ConnectionState(true));
    }
  }

  /** What the client gets for a chunk. */
  predicate JsonFor(text: Str -> string, c: GpgNetMessage.Chunk, j: Json) {
    match c
    case IntValue(i) => j == Int(i)
    case UIntValue(u) => j == Int(u)
    case BoolValue(b) => j == Bool(b)
    case StringValue(s) => j == Str(text(s))
    case OtherValue => j == Null
  }

  lemma {:induction false} JsonsFor(text: Str -> string, cs: seq<GpgNetMessage.Chunk>)
    ensures Size(JsonsOf(text, cs)) == |cs|
    ensures forall i :: 0 <= i < |cs| ==> JsonFor(text, cs[i], At(JsonsOf(text, cs), i))
  {
    if cs != [] {
      JsonsFor(text, cs[1..]);
      forall i | 0 <= i < |cs| ensures JsonFor(text, cs[i], At(JsonsOf(text, cs), i)) {
        if i > 0 {
          assert cs[i] == cs[1..][i - 1];
        }
      }
    }
  }

  lemma MessageNoteIsSent(o: AdapterTasks.Options, text: Str -> string, s: Server, m: GpgNetMessage.Message)
    ensures Notifies(s, Absorb(o, text, s, FromGame(AdapterTasks.GameMessage(m))), "onGpgNetMessageReceived",
                     Pair(Str(text(m.header)), Arr(JsonsOf(text, m.chunks))))
  {
    ReactGrows(o, s.adapter, m);
    NoteIsSent(o, text, s, AdapterTasks.GameMessage(m), AdapterTasks.GpgNetMessageReceived(m));
  }

  /** A message of a game is passed on with its header and its chunks, in order. */
  lemma MessageIsAnnounced(o: AdapterTasks.Options, text: Str -> string, s: Server, m: GpgNetMessage.Message)
    returns (chunks: Items)
    ensures Size(chunks) == |m.chunks|
    ensures forall i :: 0 <= i < |m.chunks| ==> JsonFor(text, m.chunks[i], At(chunks, i))
    ensures Notifies(s, Absorb(o, text, s, FromGame(AdapterTasks.GameMessage(m))),
                     "onGpgNetMessageReceived", Pair(Str(text(m.header)), Arr(chunks)))
  {
    chunks := JsonsOf(text, m.chunks);
    JsonsFor(text, m.chunks);
    MessageNoteIsSent(o, text, s, m);
  }

  /** What a relay reports is passed on with both players' ids, the local one first. */
  lemma ReportIsAnnounced(o: AdapterTasks.Options, text: Str -> string, s: Server, report: Report)
    ensures var r, local := Absorb(o, text, s, FromRelay(report)), Int(o.localPlayerId);
            && r.adapter == s.adapter
            && match report {
                 case IceMessage(id, message) => Notifies(s, r, "onIceMsg", Triple(local, Int(id), message))
                 case IceState(id, state) =>
                   Notifies(s, r, "onIceConnectionStateChanged", Triple(local, Int(id), Str(state)))
                 case PeerConnected(id, connected) =>
                   Notifies(s, r, "onConnected", Triple(local, Int(id), Bool(connected)))
               }
  {
  }
}
