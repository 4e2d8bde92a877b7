/** The adapter as it runs: `IceAdapter` with the part of `GPGNetServer` that knows the connected
    games. Its methods update queue, relay table and game state in place and are proved to do what
    `AdapterTasks` says. */
module IceAdapter {
  import opened Bytes
  import opened Order
  import opened GpgNetMessage
  import opened AdapterTasks

  lemma SentOnce(a: Adapter, m: Message, done: map<Game, seq<Message>>)
    requires done.Keys == a.games.Keys
    requires forall g :: g in done.Keys ==> done[g] == a.games[g] + [m]
    ensures Send(a, m) == a.(games := done)
  {
    var all := Send(a, m).games;
    assert all.Keys == done.Keys;
    assert forall g :: g in done.Keys ==> all[g] == done[g];
    assert all == done;
  }

  lemma NoGames(games: map<Game, seq<Message>>)
    ensures games == map[] <==> games.Keys == {}
  {
    if games.Keys == {} {
      assert games == map[];
    }
  }

  class IceAdapter {
    const options: Options
    var connectedSockets: set<Game>
    var gameTasks: seq<Task>
    var gpgnetGameState: Str
    var relays: map<Int32, Relay>
    var lobbyInitMode: Str
    /** Messages written to each connected game. */
    ghost var sent: map<Game, seq<Message>>
    ghost var notes: seq<Note>
    ghost var queued: seq<Task>
    ghost var executed: seq<Execution>

    ghost predicate Valid()
      reads this
    {
      sent.Keys == connectedSockets
    }

    ghost function State(): Adapter
      reads this
    {
      Adapter(sent, gpgnetGameState, relays, gameTasks, lobbyInitMode, notes, queued, executed)
    }

    constructor (o: Options)
      ensures Valid() && State() == START && options == o
    {
      options := o;
      connectedSockets, gameTasks, gpgnetGameState, relays := {}, [], NONE, map[];
      lobbyInitMode, sent, notes, queued, executed := NORMAL, map[], [], [], [];
    }

    /** `GPGNetServer::hasConnectedClient`. */
    predicate HasConnectedClient()
      reads this
    {
      connectedSockets != {}
    }

    /** `GPGNetServer::sendMessage` for a message that has a binary form. */
    method SendMessage(m: Message)
      requires Valid()
      modifies this`sent
      ensures Valid() && State() == Send(old(State()), m)
    {
      var todo := connectedSockets;
      while todo != {}
        invariant todo <= connectedSockets && Valid()
        invariant forall g :: g in connectedSockets ==>
                    sent[g] == if g in todo then old(sent)[g] else old(sent)[g] + [m]
        decreases todo
      {
        var socket := Min(todo);
        sent := sent[socket := sent[socket] + [m]];
        todo := todo - {socket};
      }
      SentOnce(old(State()), m, sent);
    }

    /** The body of the loop of `_tryExecuteGameTasks`; true stands for its `return`. */
    method TryExecuteFront() returns (stop: bool)
      requires Valid() && gameTasks != []
      modifies this`sent, this`gameTasks, this`executed
      ensures Valid() && stop == Blocked(old(State()))
      ensures State() == if stop then old(State()) else ExecuteHead(old(State()))
    {
      var task := gameTasks[0];
      ghost var relay := RelayFor(State(), task);
      match task {
        case HostGame(hostMap) =>
          if gpgnetGameState != LOBBY {
            return true;
          }
          SendMessage(HostGameMessage(hostMap));
        case JoinGame(remoteLogin, remoteId) =>
          if gpgnetGameState != LOBBY {
            return true;
          }
          if remoteId in relays {
            SendMessage(JoinGameMessage(relays[remoteId], remoteLogin, remoteId));
          }
        case ConnectToPeer(remoteLogin, remoteId) =>
          if gpgnetGameState != LOBBY {
            return true;
          }
          if remoteId in relays {
            SendMessage(ConnectToPeerMessage(relays[remoteId], remoteLogin, remoteId));
          }
        case DisconnectFromPeer(remoteId) =>
          SendMessage(DisconnectFromPeerMessage(remoteId));
      }
      executed := executed + [Execution(task, connectedSockets, gpgnetGameState, relay)];
      gameTasks := gameTasks[1..];
      stop := false;
    }

    /** `_tryExecuteGameTasks`. */
    method TryExecuteGameTasks()
      requires Valid()
      modifies this`sent, this`gameTasks, this`executed
      ensures Valid() && State() == TryExecute(old(State()))
    {
      NoGames(sent);
      if !HasConnectedClient() {
        return;
      }
      while gameTasks != []
        invariant Valid() && ExecuteTasks(State()) == ExecuteTasks(old(State()))
        decreases |gameTasks|
      {
        var stop := TryExecuteFront();
        if stop {
          return;
        }
      }
    }

    /** `_queueGameTask`. */
    method QueueGameTask(t: Task)
      requires Valid()
      modifies this`sent, this`gameTasks, this`executed, this`queued
      ensures Valid() && State() == Queue(old(State()), t)
    {
      gameTasks := gameTasks + [t];
      queued := queued + [t];
      TryExecuteGameTasks();
    }

    /** `_createPeerRelay`; the operating system picks the relay's UDP port. */
    method CreatePeerRelay(remotePlayerId: Int32, remotePlayerLogin: Str, createOffer: bool, udpPort: nat)
      requires Valid()
      modifies this`relays
      ensures Valid()
      ensures State() == CreateRelay(old(State()), remotePlayerId, Relay(remotePlayerLogin, createOffer, udpPort))
    {
      if remotePlayerId in relays {
        return;
      }
      relays := relays[remotePlayerId := Relay(remotePlayerLogin, createOffer, udpPort)];
    }

    method HostTheGame(hostMap: Str)
      requires Valid()
      modifies this
      ensures Valid() && State() == Step(options, old(State()), Host(hostMap))
    {
      QueueGameTask(HostGame(hostMap));
    }

    method JoinTheGame(remotePlayerLogin: Str, remotePlayerId: Int32, udpPort: nat)
      requires Valid()
      modifies this
      ensures Valid() && State() == Step(options, old(State()), Join(remotePlayerLogin, remotePlayerId, udpPort))
    {
      CreatePeerRelay(remotePlayerId, remotePlayerLogin, false, udpPort);
      QueueGameTask(JoinGame(remotePlayerLogin, remotePlayerId));
    }

    method ConnectThePeer(remotePlayerLogin: Str, remotePlayerId: Int32, createOffer: bool, udpPort: nat)
      requires Valid()
      modifies this
      ensures Valid()
      ensures State() == Step(options, old(State()), Connect(remotePlayerLogin, remotePlayerId, createOffer, udpPort))
    {
      CreatePeerRelay(remotePlayerId, remotePlayerLogin, createOffer, udpPort);
      QueueGameTask(ConnectToPeer(remotePlayerLogin, remotePlayerId));
    }

    method DisconnectThePeer(remotePlayerId: Int32)
      requires Valid()
      modifies this
      ensures Valid() && State() == Step(options, old(State()), Disconnect(remotePlayerId))
    {
      if remotePlayerId !in relays {
        return;
      }
      relays := relays - {remotePlayerId};
      QueueGameTask(DisconnectFromPeer(remotePlayerId));
    }

    method SetLobbyInitMode(initMode: Str)
      requires Valid()
      modifies this
      ensures Valid() && State() == Step(options, old(State()), SetInitMode(initMode))
    {
      lobbyInitMode := initMode;
    }

    /** `sendToGpgNet`; says whether `toBinary` threw. */
    method SendToGpgNet(m: Message) returns (threw: bool)
      requires Valid()
      modifies this
      ensures Valid() && State() == Step(options, old(State()), Forward(m))
      ensures threw <==> HasConnectedClient() && exists i :: 0 <= i < |m.chunks| && Throws(m.chunks[i])
    {
      NoGames(sent);
      if !HasConnectedClient() {
        return false;
      }
      var bytes := ToBinary(m);
      if bytes.None? {
        return true;
      }
      SendMessage(m);
      threw := false;
    }

    /** `GPGNetServer::_onNewClient` and `_onGameConnected`. */
    method OnGameConnected(socket: Game)
      requires Valid() && socket !in connectedSockets
      modifies this
      ensures Valid() && State() == Step(options, old(State()), GameConnected(socket))
    {
      connectedSockets := connectedSockets + {socket};
      sent := sent[socket := []];
      notes := notes + [ConnectionState(true)];
    }

    /** `GPGNetServer::OnMessage` (the deferred removal of a closed connection) and
        `_onGameDisconnected`. */
    method OnGameDisconnected(socket: Game)
      requires Valid() && socket in connectedSockets
      modifies this
      ensures Valid() && State() == Step(options, old(State()), GameDisconnected(socket))
    {
      connectedSockets := connectedSockets - {socket};
      sent := sent - {socket};
      notes := notes + [ConnectionState(false)];
      gpgnetGameState := NONE;
      relays := map[];
    }

    /** `_onGpgNetMessage`. */
    method OnGpgNetMessage(m: Message)
      requires Valid()
      modifies this
      ensures Valid() && State() == Step(options, old(State()), GameMessage(m))
    {
      if m.header == GAME_STATE {
        if |m.chunks| == 1 {
          gpgnetGameState := AsString(m.chunks[0]);
          if gpgnetGameState == IDLE {
            SendMessage(CreateLobbyMessage(options, lobbyInitMode));
          }
          TryExecuteGameTasks();
        }
      }
      notes := notes + [GpgNetMessageReceived(m)];
    }
  }
}
