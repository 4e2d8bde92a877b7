/** What the adapter says, word for word: the messages that a game gets for each command, and the
    requests that the client gets for what games and relays do. */
module AdapterMessages {
  import opened Bytes
  import opened Decimal
  import opened GpgNetMessage
  import opened AdapterTasks
  import opened AdapterView

  // ------------------------------------------------------------------ to the game

  /** A game in the lobby, with nothing waiting. */
  predicate Ready(a: Adapter) {
    a.games != map[] && a.gameState == LOBBY && a.tasks == []
  }

  /** Every game gets the messages, last and in order. */
  predicate AllGet(a: Adapter, r: Adapter, ms: seq<Message>) {
    r.games.Keys == a.games.Keys && forall g :: g in a.games ==> r.games[g] == a.games[g] + ms
  }

  lemma OneTaskRuns(a: Adapter, t: Task)
    requires a.games != map[] && a.gameState == LOBBY && a.tasks == [t]
    ensures TryExecute(a) == ExecuteHead(a)
  {
    assert a.tasks[1..] == [];
    assert ExecuteTasks(ExecuteHead(a)) == ExecuteHead(a);
  }

  lemma QueuedAtOnce(a: Adapter, t: Task)
    requires Ready(a)
    ensures Queue(a, t).tasks == [] && Queue(a, t).relays == a.relays
    ensures MessageFor(a, t).Some? ==> AllGet(a, Queue(a, t), [MessageFor(a, t).value])
  {
    assert [] + [t] == [t];
    OneTaskRuns(a.(tasks := a.tasks + [t], queued := a.queued + [t]), t);
  }

  /** The UDP port of the relay to a player after a command that asks for one. */
  function PortFor(a: Adapter, id: Int32, udpPort: nat): nat {
    if id in a.relays then a.relays[id].udpPort else udpPort
  }

  lemma HostIsTold(o: Options, a: Adapter, hostMap: Str)
    requires Ready(a)
    ensures AllGet(a, Step(o, a, Host(hostMap)), [Message(Ascii("HostGame"), [StringValue(hostMap)])])
  {
    QueuedAtOnce(a, HostGame(hostMap));
  }

  /** The game is told to join at the local address of the relay, with the player's login and id. */
  lemma JoinIsTold(o: Options, a: Adapter, login: Str, id: Int32, udpPort: nat)
    requires Ready(a)
    ensures var address := Ascii("127.0.0.1:") + Ascii(ToString(PortFor(a, id, udpPort)));
            AllGet(a, Step(o, a, Join(login, id, udpPort)),
                   [Message(Ascii("JoinGame"), [StringValue(address), StringValue(login), IntValue(id)])])
  {
    QueuedAtOnce(CreateRelay(a, id, Relay(login, false, udpPort)), JoinGame(login, id));
  }

  lemma ConnectIsTold(o: Options, a: Adapter, login: Str, id: Int32, offer: bool, udpPort: nat)
    requires Ready(a)
    ensures var address := Ascii("127.0.0.1:") + Ascii(ToString(PortFor(a, id, udpPort)));
            AllGet(a, Step(o, a, Connect(login, id, offer, udpPort)),
                   [Message(Ascii("ConnectToPeer"), [StringValue(address), StringValue(login), IntValue(id)])])
  {
    QueuedAtOnce(CreateRelay(a, id, Relay(login, offer, udpPort)), ConnectToPeer(login, id));
  }

  lemma DisconnectIsTold(o: Options, a: Adapter, id: Int32)
    requires Ready(a) && id in a.relays
    ensures AllGet(a, Step(o, a, Disconnect(id)), [Message(Ascii("DisconnectFromPeer"), [IntValue(id)])])
  {
    QueuedAtOnce(a.(relays := a.relays - {id}), DisconnectFromPeer(id));
  }

  /** A task whose relay is gone by the time it is executed tells the game nothing. */
  lemma GoneIsNotTold(a: Adapter, t: Task)
    requires Ready(a.(tasks := [])) && a.tasks == [t]
    requires (t.JoinGame? || t.ConnectToPeer?) && t.remoteId !in a.relays
    ensures TryExecute(a).games == a.games && TryExecute(a).tasks == []
  {
    OneTaskRuns(a, t);
  }

  /** The mode that the client has set last. */
  function LastMode(events: seq<Event>): Str {
    if events == [] then Ascii("normal")
    else
      match events[|events| - 1]
      case SetInitMode(mode) => mode
      case _ => LastMode(events[..|events| - 1])
  }

  lemma OtherEventKeepsMode(o: Options, a: Adapter, e: Event)
    requires !e.SetInitMode?
    ensures Step(o, a, e).lobbyInitMode == a.lobbyInitMode
  {
    match e
    case Host(hostMap) => QueueLeaves(a, HostGame(hostMap));
    case Join(login, id, port) => QueueLeaves(CreateRelay(a, id, Relay(login, false, port)), JoinGame(login, id));
    case Connect(login, id, offer, port) =>
      QueueLeaves(CreateRelay(a, id, Relay(login, offer, port)), ConnectToPeer(login, id));
    case Disconnect(id) => QueueLeaves(a.(relays := a.relays - {id}), DisconnectFromPeer(id));
    case GameMessage(m) =>
      if ReportsState(m) {
        var a1 := a.(gameState := AsString(m.chunks[0]));
        ExecutingLeaves(if a1.gameState == IDLE then Send(a1, CreateLobbyMessage(o, a1.lobbyInitMode)) else a1);
      }
    case _ =>
  }

  lemma {:induction false} ModeIsLastSet(o: Options, events: seq<Event>)
    ensures Run(o, events).lobbyInitMode == LastMode(events)
  {
    if events != [] {
      ModeIsLastSet(o, events[..|events| - 1]);
      if !events[|events| - 1].SetInitMode? {
        OtherEventKeepsMode(o, Run(o, events[..|events| - 1]), events[|events| - 1]);
      }
    }
  }

  /** A log grows only at its end. */
  lemma {:induction false} ExecutingExtends(a: Adapter, g: Game)
    requires g in a.games
    ensures g in ExecuteTasks(a).games && a.games[g] <= ExecuteTasks(a).games[g]
    decreases |a.tasks|
  {
    if a.tasks != [] && !Blocked(a) {
      ExecutingExtends(ExecuteHead(a), g);
    }
  }

  /** What an idle game is told to create: a lobby at the configured port, for the local player. */
  function LobbyIn(o: Options, mode: Str): Message {
    Message(Ascii("CreateLobby"),
            [UIntValue(if mode == Ascii("normal") then 0 else 1), IntValue(o.lobbyPort),
             StringValue(o.localPlayerLogin), IntValue(o.localPlayerId), IntValue(1)])
  }

  lemma IdleReport(o: Options, a: Adapter, m: Message, g: Game)
    requires g in a.games && m == Message(Ascii("GameState"), [StringValue(Ascii("Idle"))])
    ensures var r := React(o, a, m);
            g in r.games && a.games[g] + [LobbyIn(o, a.lobbyInitMode)] <= r.games[g] && r.gameState == Ascii("Idle")
  {
    var a1 := a.(gameState := IDLE);
    var a2 := Send(a1, CreateLobbyMessage(o, a.lobbyInitMode));
    ExecutingExtends(a2, g);
    ExecutingLeaves(a2);
  }

  /** In every run, when a game reports that it is idle, every game is told to create a lobby in the
      mode that was set last, before anything else. */
  lemma IdleGameGetsLobby(o: Options, events: seq<Event>, m: Message, g: Game)
    requires g in Run(o, events).games && m == Message(Ascii("GameState"), [StringValue(Ascii("Idle"))])
    ensures var a, r := Run(o, events), Step(o, Run(o, events), GameMessage(m));
            g in r.games && a.games[g] + [LobbyIn(o, LastMode(events))] <= r.games[g] && r.gameState == Ascii("Idle")
  {
    ModeIsLastSet(o, events);
    IdleReport(o, Run(o, events), m, g);
  }

  /** Before any report, and after every disconnect, the game state is "None"; a disconnect also takes
      all relays, but no task that waits. */
  lemma DisconnectResets(o: Options, a: Adapter, g: Game)
    requires g in a.games
    ensures START.gameState == Ascii("None") && START.relays == map[] && START.tasks == [] && START.games == map[]
    ensures var r := Step(o, a, GameDisconnected(g));
            && g !in r.games && (forall h :: h in a.games && h != g ==> h in r.games && r.games[h] == a.games[h])
            && r.gameState == Ascii("None") && r.relays == map[] && r.tasks == a.tasks
  {
  }

  /** The state that a report gives, whatever its only chunk is. */
  lemma StateIsSaid(o: Options, a: Adapter, c: Chunk)
    ensures var state := Step(o, a, GameMessage(Message(Ascii("GameState"), [c]))).gameState;
            match c
            case StringValue(s) => state == s
            case IntValue(i) => state == Ascii(ToString(i))
            case UIntValue(u) => state == Ascii(ToString(u))
            case BoolValue(b) => state == if b then Ascii("true") else Ascii("false")
            case OtherValue => state == []
  {
    var a1 := a.(gameState := AsString(c));
    ExecutingLeaves(if a1.gameState == IDLE then Send(a1, CreateLobbyMessage(o, a1.lobbyInitMode)) else a1);
  }
}
