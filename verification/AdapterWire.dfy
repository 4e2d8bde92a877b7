/** The adapter seen through the bytes on its GPGNet connection, in both directions. */
module AdapterWire {
  import opened Bytes
  import opened Decimal
  import opened GpgNetMessage
  import opened GpgNetConnection
  import opened AdapterTasks
  import opened AdapterView

  // ------------------------------------------------------------ towards the game

  /** Inputs whose sizes and numbers fit the wire format; forwarded messages only have chunks that it
      can carry. */
  predicate Sized(e: Event) {
    match e
    case Host(hostMap) => |hostMap| < 0x8000_0000
    case Join(login, _, port) => |login| < 0x8000_0000 && port < 0x1_0000
    case Connect(login, _, _, port) => |login| < 0x8000_0000 && port < 0x1_0000
    case Forward(m) => Deliverable(m)
    case _ => true
  }

  predicate SizedOptions(o: Options) {
    |o.localPlayerLogin| < 0x8000_0000 && 0 <= o.lobbyPort < 0x1_0000
  }

  predicate SizedTask(t: Task) {
    match t
    case HostGame(hostMap) => |hostMap| < 0x8000_0000
    case JoinGame(login, _) => |login| < 0x8000_0000
    case ConnectToPeer(login, _) => |login| < 0x8000_0000
    case DisconnectFromPeer(_) => true
  }

  ghost predicate SizedAdapter(a: Adapter) {
    && (forall i :: 0 <= i < |a.tasks| ==> SizedTask(a.tasks[i]))
    && (forall id :: id in a.relays ==> a.relays[id].udpPort < 0x1_0000)
    && (forall g, i :: g in a.games && 0 <= i < |a.games[g]| ==> Deliverable(a.games[g][i]))
  }

  lemma {:induction false} NumeralLength(n: nat)
    ensures |Numeral(n)| <= n + 1
  {
    if n >= 10 {
      NumeralLength(n / 10);
    }
  }

  lemma TaskMessageDeliverable(a: Adapter, t: Task)
    requires SizedAdapter(a) && SizedTask(t) && MessageFor(a, t).Some?
    ensures Deliverable(MessageFor(a, t).value)
  {
    if t.JoinGame? || t.ConnectToPeer? {
      NumeralLength(a.relays[t.remoteId].udpPort);
    }
  }

  lemma {:induction false} ExecutingStaysSized(a: Adapter)
    requires SizedAdapter(a)
    ensures SizedAdapter(ExecuteTasks(a))
    decreases |a.tasks|
  {
    if a.tasks == [] || Blocked(a) {
    } else {
      if MessageFor(a, a.tasks[0]).Some? {
        TaskMessageDeliverable(a, a.tasks[0]);
      }
      ExecutingStaysSized(ExecuteHead(a));
    }
  }

  lemma QueueingStaysSized(a: Adapter, t: Task)
    requires SizedAdapter(a) && SizedTask(t)
    ensures SizedAdapter(Queue(a, t))
  {
    ExecutingStaysSized(a.(tasks := a.tasks + [t], queued := a.queued + [t]));
  }

  lemma ReceivingStaysSized(o: Options, a: Adapter, m: Message)
    requires SizedOptions(o) && SizedAdapter(a)
    ensures SizedAdapter(React(o, a, m))
  {
    if ReportsState(m) {
      var a1 := a.(gameState := AsString(m.chunks[0]));
      assert Deliverable(CreateLobbyMessage(o, a1.lobbyInitMode));
      ExecutingStaysSized(if a1.gameState == IDLE then Send(a1, CreateLobbyMessage(o, a1.lobbyInitMode)) else a1);
    }
  }

  lemma StepStaysSized(o: Options, a: Adapter, e: Event)
    requires SizedOptions(o) && Sized(e) && SizedAdapter(a)
    ensures SizedAdapter(Step(o, a, e))
  {
    match e
    case Host(hostMap) => QueueingStaysSized(a, HostGame(hostMap));
    case Join(login, id, port) =>
      QueueingStaysSized(CreateRelay(a, id, Relay(login, false, port)), JoinGame(login, id));
    case Connect(login, id, offer, port) =>
      QueueingStaysSized(CreateRelay(a, id, Relay(login, offer, port)), ConnectToPeer(login, id));
    case Disconnect(id) => QueueingStaysSized(a.(relays := a.relays - {id}), DisconnectFromPeer(id));
    case GameMessage(m) => ReceivingStaysSized(o, a, m);
    case _ =>
  }

  lemma {:induction false} RunStaysSized(o: Options, events: seq<Event>)
    requires SizedOptions(o) && forall i :: 0 <= i < |events| ==> Sized(events[i])
    ensures SizedAdapter(Run(o, events))
  {
    if events == [] {
    } else {
      RunStaysSized(o, events[..|events| - 1]);
      StepStaysSized(o, Run(o, events[..|events| - 1]), events[|events| - 1]);
    }
  }

  lemma {:induction false} NormalMessagesSnoc(ms: seq<Message>, m: Message)
    ensures NormalMessages(ms + [m]) == NormalMessages(ms) + [NormalMessage(m)]
  {
    if ms == [] {
      assert ms + [m] == [m];
      assert NormalMessages([m]) == [NormalMessage(m)] + NormalMessages([]);
    } else {
      assert (ms + [m])[1..] == ms[1..] + [m];
      NormalMessagesSnoc(ms[1..], m);
    }
  }

  lemma NormalMessageHeard(told: set<int>, m: Message)
    ensures Hear(told, NormalMessage(m)) == Hear(told, m)
  {
    NormalChunkAt(m.chunks, 0);
    NormalChunkAt(m.chunks, 2);
  }

  lemma {:induction false} NormalLogTells(log: seq<Message>)
    ensures Told(NormalMessages(log)) == Told(log)
  {
    if log == [] {
    } else {
      var front, last := log[..|log| - 1], log[|log| - 1];
      NormalLogTells(front);
      assert front + [last] == log;
      NormalMessagesSnoc(front, last);
      ToldSnoc(NormalMessages(front), NormalMessage(last));
      NormalMessageHeard(Told(front), last);
    }
  }

  /** The game's own conclusion from the bytes it received, read in any pieces whatsoever. */
  function GameConcludes(pieces: seq<Str>): set<int> {
    Told(ReceiveAll(FRESH, pieces).messages)
  }

  /** From commands to bytes and back: whenever the queue is empty, a game that decodes the bytes
      sent to it knows exactly the peers the adapter has relays for. */
  lemma BytesConveyRelays(o: Options, events: seq<Event>, g: Game, pieces: seq<Str>)
    requires SizedOptions(o) && forall i :: 0 <= i < |events| ==> Sized(events[i])
    requires AdmissibleRun(o, events) && g in Run(o, events).games && Run(o, events).tasks == []
    requires Stream(pieces) == EncodeAll(Run(o, events).games[g])
    ensures GameConcludes(pieces) == Run(o, events).relays.Keys
  {
    RunStaysSized(o, events);
    var log := Run(o, events).games[g];
    assert forall i :: 0 <= i < |log| ==> Deliverable(log[i]);
    Transport(log, pieces);
    NormalLogTells(log);
    DrainedQueueMeansAgreement(o, events, g);
  }

  lemma {:induction false} EncodeAllOfBoth(a: seq<Message>, b: seq<Message>)
    ensures EncodeAll(a + b) == EncodeAll(a) + EncodeAll(b)
  {
    if a == [] {
      assert a + b == b;
    } else {
      assert (a + b)[0] == a[0] && (a + b)[1..] == a[1..] + b;
      EncodeAllOfBoth(a[1..], b);
      Associate(Encode(a[0]), EncodeAll(a[1..]), EncodeAll(b));
    }
  }

  lemma EncodeTwo(m: Message, next: Message, after: seq<Message>)
    ensures EncodeAll([m, next] + after) == Encode(m) + (Encode(next) + EncodeAll(after))
  {
    assert ([m, next] + after)[1..] == [next] + after;
    assert ([next] + after)[1..] == after;
  }

  lemma SilentBehind(before: seq<Message>, x: Str, pieces: seq<Str>)
    requires forall i :: 0 <= i < |before| ==> Deliverable(before[i])
    requires Drain(x).messages == [] && Stream(pieces) == EncodeAll(before) + x
    ensures ReceiveAll(FRESH, pieces).messages == NormalMessages(before)
  {
    StreamRoundTrip(before, x);
    assert NormalMessages(before) + [] == NormalMessages(before);
    ChunkingIndependence(pieces);
  }

  lemma NothingDelivered(m: Message, next: Message, more: Str, all: Str)
    requires Fits(m) && !AllSupported(m) && Fits(next) && 2 <= |next.header| < 256
    requires all == Encode(m) + (Encode(next) + more)
    ensures Drain(all).messages == []
  {
    NextMessageStops(m, next, more);
  }

  /** Why forwarded messages are asked for chunks that the format can carry: behind one that has
      another, with any message of the adapter's own next, the game gets nothing any more. */
  lemma UnsupportedForwardSilences(before: seq<Message>, m: Message, next: Message, after: seq<Message>,
                                   pieces: seq<Str>)
    requires forall i :: 0 <= i < |before| ==> Deliverable(before[i])
    requires Fits(m) && !AllSupported(m) && Fits(next) && 2 <= |next.header| < 256
    requires Stream(pieces) == EncodeAll(before + ([m, next] + after))
    ensures ReceiveAll(FRESH, pieces).messages == NormalMessages(before)
  {
    EncodeAllOfBoth(before, [m, next] + after);
    EncodeTwo(m, next, after);
    NothingDelivered(m, next, EncodeAll(after), EncodeAll([m, next] + after));
    SilentBehind(before, EncodeAll([m, next] + after), pieces);
  }

  // ---------------------------------------------------------------- from the game

  /** Messages that complete one after the other. */
  function ReactAll(o: Options, a: Adapter, ms: seq<Message>): Adapter {
    if ms == [] then a else React(o, ReactAll(o, a, ms[..|ms| - 1]), ms[|ms| - 1])
  }

  /** The messages of the `onGpgNetMessageReceived` notifications, in order. */
  function Notified(notes: seq<Note>): seq<Message> {
    if notes == [] then []
    else
      var front, last := Notified(notes[..|notes| - 1]), notes[|notes| - 1];
      if last.GpgNetMessageReceived? then front + [last.message] else front
  }

  lemma NotifiedSnoc(notes: seq<Note>, n: Note)
    ensures Notified(notes + [n]) == if n.GpgNetMessageReceived? then Notified(notes) + [n.message] else Notified(notes)
  {
    assert (notes + [n])[..|notes|] == notes;
  }

  lemma ReactNotifies(o: Options, a: Adapter, m: Message)
    ensures Notified(React(o, a, m).notes) == Notified(a.notes) + [m]
    ensures React(o, a, m).gameState == if ReportsState(m) then AsString(m.chunks[0]) else a.gameState
  {
    if ReportsState(m) {
      var a1 := a.(gameState := AsString(m.chunks[0]));
      ExecutingLeaves(
        if a1.gameState == IDLE then Send(a1, CreateLobbyMessage(o, a1.lobbyInitMode)) else a1);
    }
    NotifiedSnoc(a.notes, GpgNetMessageReceived(m));
  }

  lemma LastReactNotifies(o: Options, a: Adapter, b: Adapter, front: seq<Message>, m: Message)
    requires Notified(b.notes) == Notified(a.notes) + front
    ensures Notified(React(o, b, m).notes) == Notified(a.notes) + (front + [m])
  {
    ReactNotifies(o, b, m);
    Associate(Notified(a.notes), front, [m]);
  }

  lemma {:induction false} ReactAllNotifies(o: Options, a: Adapter, ms: seq<Message>)
    ensures Notified(ReactAll(o, a, ms).notes) == Notified(a.notes) + ms
  {
    if ms == [] {
      assert Notified(a.notes) + [] == Notified(a.notes);
    } else {
      var front, last := ms[..|ms| - 1], ms[|ms| - 1];
      ReactAllNotifies(o, a, front);
      LastReactNotifies(o, a, ReactAll(o, a, front), front, last);
      assert front + [last] == ms;
    }
  }

  lemma {:induction false} ReactAllKeepsGames(o: Options, a: Adapter, ms: seq<Message>)
    ensures ReactAll(o, a, ms).games.Keys == a.games.Keys
  {
    if ms != [] {
      ReactAllKeepsGames(o, a, ms[..|ms| - 1]);
      ReactingKeepsGames(o, ReactAll(o, a, ms[..|ms| - 1]), ms[|ms| - 1]);
    }
  }

  /** The last report of the game's state since the last disconnect, or "None". */
  function LastReport(o: Options, events: seq<Event>): Str {
    if events == [] then NONE
    else
      var front, last := events[..|events| - 1], events[|events| - 1];
      match last
      case GameMessage(m) => if ReportsState(m) then AsString(m.chunks[0]) else LastReport(o, front)
      case GameDisconnected(g) => if g in Run(o, front).games then NONE else LastReport(o, front)
      case _ => LastReport(o, front)
  }

  lemma CommandKeepsState(o: Options, a: Adapter, e: Event)
    requires !e.GameMessage? && !e.GameDisconnected?
    ensures Step(o, a, e).gameState == a.gameState
  {
    match e
    case Host(hostMap) => QueueLeaves(a, HostGame(hostMap));
    case Join(login, id, port) => QueueLeaves(CreateRelay(a, id, Relay(login, false, port)), JoinGame(login, id));
    case Connect(login, id, offer, port) =>
      QueueLeaves(CreateRelay(a, id, Relay(login, offer, port)), ConnectToPeer(login, id));
    case Disconnect(id) => QueueLeaves(a.(relays := a.relays - {id}), DisconnectFromPeer(id));
    case _ =>
  }

  lemma CommandNotifiesNoMessage(o: Options, a: Adapter, e: Event)
    requires !e.GameMessage?
    ensures Notified(Step(o, a, e).notes) == Notified(a.notes)
  {
    match e
    case Host(hostMap) => QueueLeaves(a, HostGame(hostMap));
    case Join(login, id, port) => QueueLeaves(CreateRelay(a, id, Relay(login, false, port)), JoinGame(login, id));
    case Connect(login, id, offer, port) =>
      QueueLeaves(CreateRelay(a, id, Relay(login, offer, port)), ConnectToPeer(login, id));
    case Disconnect(id) => QueueLeaves(a.(relays := a.relays - {id}), DisconnectFromPeer(id));
    case GameConnected(g) => NotifiedSnoc(a.notes, ConnectionState(true));
    case GameDisconnected(g) => NotifiedSnoc(a.notes, ConnectionState(false));
    case _ =>
  }

  lemma {:induction false} GameStateIsLastReport(o: Options, events: seq<Event>)
    ensures Run(o, events).gameState == LastReport(o, events)
  {
    if events != [] {
      var a, e := Run(o, events[..|events| - 1]), events[|events| - 1];
      GameStateIsLastReport(o, events[..|events| - 1]);
      match e
      case GameMessage(m) => ReactNotifies(o, a, m);
      case GameDisconnected(_) =>
      case _ => CommandKeepsState(o, a, e);
    }
  }
}
