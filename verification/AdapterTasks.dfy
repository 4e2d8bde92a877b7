/** The adapter's game-task queue and relay table, as functions on values; `IceAdapter` holds the
    methods that update them in place. */
module AdapterTasks {
  import opened Bytes
  import opened Decimal
  import opened GpgNetMessage

  /** The identity of a connected game (`GPGNetConnectionHandler*`). */
  type Game = int

  datatype Options = Options(localPlayerLogin: Str, localPlayerId: Int32, lobbyPort: int)

  datatype Task =
    | HostGame(hostMap: Str)
    | JoinGame(remoteLogin: Str, remoteId: Int32)
    | ConnectToPeer(remoteLogin: Str, remoteId: Int32)
    | DisconnectFromPeer(remoteId: Int32)

  datatype Relay = Relay(login: Str, offerer: bool, udpPort: nat)

  /** A task taken off the queue: which games were connected, what the game's state was, and the
      relay found for it, if any. */
  datatype Execution = Execution(task: Task, games: set<Game>, gameState: Str, relay: Option<Relay>)

  /** A notification to the client. */
  datatype Note =
    | ConnectionState(connected: bool)
    | GpgNetMessageReceived(message: Message)

  datatype Adapter = Adapter(
    /** the connected games, each with the messages sent to it so far */
    games: map<Game, seq<Message>>,
    gameState: Str,
    relays: map<Int32, Relay>,
    tasks: seq<Task>,
    lobbyInitMode: Str,
    notes: seq<Note>,
    /** history: every task ever queued, and every task taken off the queue */
    queued: seq<Task>,
    executed: seq<Execution>)

  const NONE := Ascii("None")
  const IDLE := Ascii("Idle")
  const LOBBY := Ascii("Lobby")
  const NORMAL := Ascii("normal")
  const GAME_STATE := Ascii("GameState")
  const JOIN_GAME := Ascii("JoinGame")
  const CONNECT_TO_PEER := Ascii("ConnectToPeer")
  const DISCONNECT_FROM_PEER := Ascii("DisconnectFromPeer")

  const START := Adapter(map[], NONE, map[], [], NORMAL, [], [], [])

  // ------------------------------------------------------- messages to the game

  function LocalAddress(r: Relay): Str {
    Ascii("127.0.0.1:") + Ascii(ToString(r.udpPort))
  }

  function HostGameMessage(hostMap: Str): Message {
    Message(Ascii("HostGame"), [StringValue(hostMap)])
  }

  function JoinGameMessage(r: Relay, login: Str, id: Int32): Message {
    Message(JOIN_GAME, [StringValue(LocalAddress(r)), StringValue(login), IntValue(id)])
  }

  function ConnectToPeerMessage(r: Relay, login: Str, id: Int32): Message {
    Message(CONNECT_TO_PEER, [StringValue(LocalAddress(r)), StringValue(login), IntValue(id)])
  }

  function DisconnectFromPeerMessage(id: Int32): Message {
    Message(DISCONNECT_FROM_PEER, [IntValue(id)])
  }

  function CreateLobbyMessage(o: Options, initMode: Str): Message {
    Message(Ascii("CreateLobby"),
            [UIntValue(if initMode == NORMAL then 0 else 1), IntValue(o.lobbyPort),
             StringValue(o.localPlayerLogin), IntValue(o.localPlayerId), IntValue(1)])
  }

  function Send(a: Adapter, m: Message): Adapter {
    a.(games := map g | g in a.games :: a.games[g] + [m])
  }

  // ------------------------------------------------------------------ the queue

  predicate LobbyGated(t: Task) {
    !t.DisconnectFromPeer?
  }

  predicate Blocked(a: Adapter) {
    a.tasks != [] && LobbyGated(a.tasks[0]) && a.gameState != LOBBY
  }

  /** What a task at the head of the queue sends; nothing if its relay is gone. */
  function MessageFor(a: Adapter, t: Task): Option<Message> {
    match t
    case HostGame(hostMap) => Some(HostGameMessage(hostMap))
    case DisconnectFromPeer(id) => Some(DisconnectFromPeerMessage(id))
    case JoinGame(login, id) =>
      if id in a.relays then Some(JoinGameMessage(a.relays[id], login, id)) else None
    case ConnectToPeer(login, id) =>
      if id in a.relays then Some(ConnectToPeerMessage(a.relays[id], login, id)) else None
  }

  function RelayFor(a: Adapter, t: Task): Option<Relay> {
    if (t.JoinGame? || t.ConnectToPeer?) && t.remoteId in a.relays then Some(a.relays[t.remoteId]) else None
  }

  /** One turn of the loop of `_tryExecuteGameTasks`. */
  function ExecuteHead(a: Adapter): Adapter
    requires a.tasks != []
  {
    var t := a.tasks[0];
    var m := MessageFor(a, t);
    var sent := if m.Some? then Send(a, m.value) else a;
    sent.(tasks := a.tasks[1..], executed := a.executed + [Execution(t, a.games.Keys, a.gameState, RelayFor(a, t))])
  }

  function ExecuteTasks(a: Adapter): Adapter
    decreases |a.tasks|
  {
    if a.tasks == [] || Blocked(a) then a else ExecuteTasks(ExecuteHead(a))
  }

  /** `_tryExecuteGameTasks`. */
  function TryExecute(a: Adapter): Adapter {
    if a.games == map[] then a else ExecuteTasks(a)
  }

  /** `_queueGameTask`. */
  function Queue(a: Adapter, t: Task): Adapter {
    TryExecute(a.(tasks := a.tasks + [t], queued := a.queued + [t]))
  }

  // --------------------------------------------------------------------- events

  /** `_createPeerRelay`: an existing relay is kept. */
  function CreateRelay(a: Adapter, id: Int32, r: Relay): Adapter {
    if id in a.relays then a else a.(relays := a.relays[id := r])
  }

  function AsString(c: Chunk): Str {
    match c
    case StringValue(s) => s
    case IntValue(i) => Ascii(ToString(i))
    case UIntValue(u) => Ascii(ToString(u))
    case BoolValue(b) => if b then Ascii("true") else Ascii("false")
    case OtherValue => []  // not produced by the parser
  }

  predicate ReportsState(m: Message) {
    m.header == GAME_STATE && |m.chunks| == 1
  }

  /** `_onGpgNetMessage`. */
  function React(o: Options, a: Adapter, m: Message): Adapter {
    var reacted :=
      if ReportsState(m) then
        var a1 := a.(gameState := AsString(m.chunks[0]));
        TryExecute(if a1.gameState == IDLE then Send(a1, CreateLobbyMessage(o, a1.lobbyInitMode)) else a1)
      else a;
    reacted.(notes := reacted.notes + [GpgNetMessageReceived(m)])
  }

  datatype Event =
    | Host(hostMap: Str)
    | Join(login: Str, id: Int32, udpPort: nat)
    | Connect(login: Str, id: Int32, offer: bool, udpPort: nat)
    | Disconnect(id: Int32)
    | SetInitMode(mode: Str)
    | Forward(message: Message)
    | GameConnected(game: Game)
    | GameMessage(message: Message)
    | GameDisconnected(game: Game)

  function Step(o: Options, a: Adapter, e: Event): Adapter {
    match e
    case Host(hostMap) => Queue(a, HostGame(hostMap))
    case Join(login, id, port) => Queue(CreateRelay(a, id, Relay(login, false, port)), JoinGame(login, id))
    case Connect(login, id, offer, port) =>
      Queue(CreateRelay(a, id, Relay(login, offer, port)), ConnectToPeer(login, id))
    case Disconnect(id) =>
      if id in a.relays then Queue(a.(relays := a.relays - {id}), DisconnectFromPeer(id)) else a
    case SetInitMode(mode) => a.(lobbyInitMode := mode)
    case Forward(m) =>
      if a.games == map[] || exists i :: 0 <= i < |m.chunks| && Throws(m.chunks[i]) then a else Send(a, m)
    case GameConnected(g) =>
      if g in a.games then a
      else a.(games := a.games[g := []], notes := a.notes + [ConnectionState(true)])
    case GameMessage(m) => React(o, a, m)
    case GameDisconnected(g) =>
      if g !in a.games then a
      else a.(games := a.games - {g}, notes := a.notes + [ConnectionState(false)],
              gameState := NONE, relays := map[])
  }

  function Run(o: Options, events: seq<Event>): Adapter {
    if events == [] then START else Step(o, Run(o, events[..|events| - 1]), events[|events| - 1])
  }

  lemma RunSnoc(o: Options, events: seq<Event>, e: Event)
    ensures Run(o, events + [e]) == Step(o, Run(o, events), e)
  {
    assert (events + [e])[..|events|] == events;
  }

  // ----------------------------------------------------- the game's view of its peers

  predicate ConnectsPeer(m: Message) {
    (m.header == JOIN_GAME || m.header == CONNECT_TO_PEER) && |m.chunks| == 3 && Normal(m.chunks[2]).IntValue?
  }

  predicate DisconnectsPeer(m: Message) {
    m.header == DISCONNECT_FROM_PEER && |m.chunks| == 1 && Normal(m.chunks[0]).IntValue?
  }

  /** The peer that the message is about, in the number that goes over the wire. */
  function PeerNamed(m: Message): int
    requires ConnectsPeer(m) || DisconnectsPeer(m)
  {
    if ConnectsPeer(m) then Normal(m.chunks[2]).i else Normal(m.chunks[0]).i
  }

  function Hear(peers: set<int>, m: Message): set<int> {
    if ConnectsPeer(m) then peers + {PeerNamed(m)}
    else if DisconnectsPeer(m) then peers - {PeerNamed(m)}
    else peers
  }

  /** The peers a game has been told about, given the messages it received. */
  function Told(log: seq<Message>): set<int> {
    if log == [] then {} else Hear(Told(log[..|log| - 1]), log[|log| - 1])
  }

  /** What executing one task does to the told peers while the relays are `relays`. */
  function Effect(relays: set<int>, told: set<int>, t: Task): set<int> {
    match t
    case HostGame(_) => told
    case JoinGame(_, id) => if id in relays then told + {id} else told
    case ConnectToPeer(_, id) => if id in relays then told + {id} else told
    case DisconnectFromPeer(id) => told - {id}
  }

  /** What executing the whole queue would do to them. */
  function Eventually(relays: set<int>, told: set<int>, tasks: seq<Task>): set<int> {
    if tasks == [] then told
    else Effect(relays, Eventually(relays, told, tasks[..|tasks| - 1]), tasks[|tasks| - 1])
  }

  lemma HeadersDiffer()
    ensures JOIN_GAME != DISCONNECT_FROM_PEER && CONNECT_TO_PEER != DISCONNECT_FROM_PEER
    ensures Ascii("HostGame") != JOIN_GAME && Ascii("HostGame") != CONNECT_TO_PEER
    ensures Ascii("HostGame") != DISCONNECT_FROM_PEER
    ensures Ascii("CreateLobby") != JOIN_GAME && Ascii("CreateLobby") != CONNECT_TO_PEER
    ensures Ascii("CreateLobby") != DISCONNECT_FROM_PEER
  {
    assert Ascii("HostGame")[0] == 72 && JOIN_GAME[0] == 74;
    assert |JOIN_GAME| == 8 && |CONNECT_TO_PEER| == 13 && |DISCONNECT_FROM_PEER| == 18;
    assert |Ascii("CreateLobby")| == 11 && |Ascii("HostGame")| == 8;
  }

  lemma HasGame(games: map<Game, seq<Message>>)
    ensures games != map[] ==> exists g :: g in games
  {
    if forall g :: g !in games {
      assert games == map[];
    }
  }

  /** What executing tasks leaves alone. */
  lemma {:induction false} ExecutingLeaves(a: Adapter)
    ensures var r := ExecuteTasks(a);
            r.games.Keys == a.games.Keys && r.gameState == a.gameState && r.relays == a.relays
            && r.lobbyInitMode == a.lobbyInitMode && r.notes == a.notes && r.queued == a.queued
    decreases |a.tasks|
  {
    if a.tasks != [] && !Blocked(a) {
      ExecutingLeaves(ExecuteHead(a));
    }
  }

  lemma QueueLeaves(a: Adapter, t: Task)
    ensures var r := Queue(a, t);
            r.games.Keys == a.games.Keys && r.gameState == a.gameState && r.relays == a.relays
            && r.lobbyInitMode == a.lobbyInitMode && r.notes == a.notes && r.queued == a.queued + [t]
  {
    ExecutingLeaves(a.(tasks := a.tasks + [t], queued := a.queued + [t]));
  }
}
