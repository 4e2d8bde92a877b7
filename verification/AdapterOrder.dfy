/** The messages about tasks that a game receives are those of the tasks taken off the queue since
    it connected, in the order of the queue. */
module AdapterOrder {
  import opened Bytes
  import opened GpgNetMessage
  import opened AdapterTasks
  import opened AdapterView

  predicate AboutTask(m: Message) {
    m.header == Ascii("HostGame") || m.header == JOIN_GAME || m.header == CONNECT_TO_PEER
    || m.header == DISCONNECT_FROM_PEER
  }

  function TaskMessages(log: seq<Message>): seq<Message> {
    if log == [] then []
    else
      var before, m := TaskMessages(log[..|log| - 1]), log[|log| - 1];
      if AboutTask(m) then before + [m] else before
  }

  lemma TaskMessagesSnoc(log: seq<Message>, m: Message)
    ensures TaskMessages(log + [m]) == if AboutTask(m) then TaskMessages(log) + [m] else TaskMessages(log)
  {
    assert (log + [m])[..|log|] == log;
  }

  /** What a task taken off the queue sends, given the relay that was found for it. */
  function MessageOf(x: Execution): seq<Message> {
    match x.task
    case HostGame(hostMap) => [HostGameMessage(hostMap)]
    case DisconnectFromPeer(id) => [DisconnectFromPeerMessage(id)]
    case JoinGame(login, id) => if x.relay.Some? then [JoinGameMessage(x.relay.value, login, id)] else []
    case ConnectToPeer(login, id) => if x.relay.Some? then [ConnectToPeerMessage(x.relay.value, login, id)] else []
  }

  function MessagesOf(done: seq<Execution>): seq<Message> {
    if done == [] then [] else MessagesOf(done[..|done| - 1]) + MessageOf(done[|done| - 1])
  }

  lemma MessagesOfSnoc(done: seq<Execution>, k: nat, x: Execution)
    requires k <= |done|
    ensures MessagesOf((done + [x])[k..]) == MessagesOf(done[k..]) + MessageOf(x)
  {
    var later := (done + [x])[k..];
    assert later == done[k..] + [x];
    assert later[..|later| - 1] == done[k..];
  }

  /** The log of a game that connected when k tasks had been executed, and to which the client has
      forwarded messages about tasks itself: nothing else is in it about tasks, and without
      forwarded ones it holds what the tasks sent, in order. */
  predicate Kept(log: seq<Message>, done: seq<Execution>, k: nat, forged: seq<Message>) {
    k <= |done|
    && |TaskMessages(log)| == |MessagesOf(done[k..])| + |forged|
    && (forged == [] ==> TaskMessages(log) == MessagesOf(done[k..]))
  }

  predicate InOrder(a: Adapter, g: Game, k: nat, forged: seq<Message>) {
    g in a.games ==> Kept(a.games[g], a.executed, k, forged)
  }

  lemma TaskMessageKept(log: seq<Message>, done: seq<Execution>, k: nat, forged: seq<Message>, x: Execution, m: Message)
    requires Kept(log, done, k, forged) && AboutTask(m) && MessageOf(x) == [m]
    ensures Kept(log + [m], done + [x], k, forged)
  {
    MessagesOfSnoc(done, k, x);
    TaskMessagesSnoc(log, m);
  }

  lemma SilentTaskKept(log: seq<Message>, done: seq<Execution>, k: nat, forged: seq<Message>, x: Execution)
    requires Kept(log, done, k, forged) && MessageOf(x) == []
    ensures Kept(log, done + [x], k, forged)
  {
    MessagesOfSnoc(done, k, x);
    assert MessagesOf(done[k..]) + [] == MessagesOf(done[k..]);
  }

  lemma MessageMatches(a: Adapter, t: Task)
    ensures var m := MessageFor(a, t);
            && (m.Some? ==> AboutTask(m.value))
            && MessageOf(Execution(t, a.games.Keys, a.gameState, RelayFor(a, t)))
               == if m.Some? then [m.value] else []
  {
  }

  lemma HeadStaysInOrder(a: Adapter, g: Game, k: nat, forged: seq<Message>)
    requires InOrder(a, g, k, forged) && a.tasks != []
    ensures InOrder(ExecuteHead(a), g, k, forged)
  {
    if g in a.games {
      var t := a.tasks[0];
      var m, x := MessageFor(a, t), Execution(t, a.games.Keys, a.gameState, RelayFor(a, t));
      MessageMatches(a, t);
      if m.Some? {
        TaskMessageKept(a.games[g], a.executed, k, forged, x, m.value);
      } else {
        SilentTaskKept(a.games[g], a.executed, k, forged, x);
      }
    }
  }

  lemma {:induction false} ExecutingStaysInOrder(a: Adapter, g: Game, k: nat, forged: seq<Message>)
    requires InOrder(a, g, k, forged)
    ensures InOrder(ExecuteTasks(a), g, k, forged)
    decreases |a.tasks|
  {
    if a.tasks != [] && !Blocked(a) {
      HeadStaysInOrder(a, g, k, forged);
      ExecutingStaysInOrder(ExecuteHead(a), g, k, forged);
    }
  }

  /** A message that no task sent counts as forged if it is about tasks, and not at all otherwise. */
  lemma OtherMessageStaysInOrder(a: Adapter, m: Message, g: Game, k: nat, forged: seq<Message>)
    requires InOrder(a, g, k, forged)
    ensures InOrder(Send(a, m), g, k, if AboutTask(m) then forged + [m] else forged)
  {
    if g in a.games {
      TaskMessagesSnoc(a.games[g], m);
    }
  }

  lemma QueueingStaysInOrder(a: Adapter, relays: map<Int32, Relay>, t: Task, g: Game, k: nat, forged: seq<Message>)
    requires InOrder(a, g, k, forged)
    ensures InOrder(Queue(a.(relays := relays), t), g, k, forged)
  {
    ExecutingStaysInOrder(a.(relays := relays, tasks := a.tasks + [t], queued := a.queued + [t]), g, k, forged);
  }

  lemma ReactingStaysInOrder(o: Options, a: Adapter, m: Message, g: Game, k: nat, forged: seq<Message>)
    requires InOrder(a, g, k, forged)
    ensures InOrder(React(o, a, m), g, k, forged)
  {
    if ReportsState(m) {
      var a1 := a.(gameState := AsString(m.chunks[0]));
      var lobby := CreateLobbyMessage(o, a1.lobbyInitMode);
      HeadersDiffer();
      assert |lobby.header| == 11 && |Ascii("HostGame")| == 8;
      OtherMessageStaysInOrder(a1, lobby, g, k, forged);
      ExecutingStaysInOrder(if a1.gameState == IDLE then Send(a1, lobby) else a1, g, k, forged);
    }
  }

  /** How many tasks had been executed when the game connected. */
  function Since(o: Options, events: seq<Event>, g: Game): nat {
    if events == [] then 0
    else
      var before, e := events[..|events| - 1], events[|events| - 1];
      if e == GameConnected(g) && g !in Run(o, before).games then |Run(o, before).executed| else Since(o, before, g)
  }

  predicate Forges(a: Adapter, e: Event) {
    e.Forward? && AboutTask(e.message) && Forwarded(a, e.message)
  }

  /** The messages about tasks that the client has itself sent to the game since it connected. */
  function Forged(o: Options, events: seq<Event>, g: Game): seq<Message> {
    if events == [] then []
    else
      var before, e := events[..|events| - 1], events[|events| - 1];
      if e == GameConnected(g) && g !in Run(o, before).games then []
      else if Forges(Run(o, before), e) then Forged(o, before, g) + [e.message]
      else Forged(o, before, g)
  }

  lemma CommandStaysInOrder(o: Options, a: Adapter, e: Event, g: Game, k: nat, forged: seq<Message>)
    requires InOrder(a, g, k, forged) && (e.Host? || e.Join? || e.Connect? || e.Disconnect?)
    ensures InOrder(Step(o, a, e), g, k, forged)
  {
    match e
    case Host(hostMap) => QueueingStaysInOrder(a, a.relays, HostGame(hostMap), g, k, forged);
    case Join(login, id, port) =>
      QueueingStaysInOrder(a, CreateRelay(a, id, Relay(login, false, port)).relays, JoinGame(login, id), g, k, forged);
    case Connect(login, id, offer, port) =>
      QueueingStaysInOrder(a, CreateRelay(a, id, Relay(login, offer, port)).relays, ConnectToPeer(login, id),
                           g, k, forged);
    case Disconnect(id) =>
      if id in a.relays {
        QueueingStaysInOrder(a, a.relays - {id}, DisconnectFromPeer(id), g, k, forged);
      }
  }

  lemma StepStaysInOrder(o: Options, a: Adapter, e: Event, g: Game, k: nat, forged: seq<Message>)
    requires InOrder(a, g, k, forged) && (e == GameConnected(g) ==> g in a.games)
    ensures InOrder(Step(o, a, e), g, k, if Forges(a, e) then forged + [e.message] else forged)
  {
    match e
    case Forward(m) => OtherMessageStaysInOrder(a, m, g, k, forged);
    case GameMessage(m) => ReactingStaysInOrder(o, a, m, g, k, forged);
    case SetInitMode(_) =>
    case GameConnected(_) =>
    case GameDisconnected(_) =>
    case _ => CommandStaysInOrder(o, a, e, g, k, forged);
  }

  lemma ConnectedInOrder(o: Options, a: Adapter, g: Game)
    requires g !in a.games
    ensures InOrder(Step(o, a, GameConnected(g)), g, |a.executed|, [])
  {
    assert a.executed[|a.executed|..] == [];
  }

  lemma {:induction false} RunStaysInOrder(o: Options, events: seq<Event>, g: Game)
    ensures InOrder(Run(o, events), g, Since(o, events, g), Forged(o, events, g))
  {
    if events != [] {
      var before, e := events[..|events| - 1], events[|events| - 1];
      RunStaysInOrder(o, before, g);
      if e == GameConnected(g) && g !in Run(o, before).games {
        ConnectedInOrder(o, Run(o, before), g);
      } else {
        StepStaysInOrder(o, Run(o, before), e, g, Since(o, before, g), Forged(o, before, g));
      }
    }
  }

  /** In every run, what a game has received about tasks is what the tasks executed since its
      connection have sent, in the order of the queue, none left out, doubled or reordered, if and
      only if the client has not itself sent it such a message. */
  lemma MessagesFollowQueueIff(o: Options, events: seq<Event>, g: Game)
    requires g in Run(o, events).games
    ensures Since(o, events, g) <= |Run(o, events).executed|
    ensures TaskMessages(Run(o, events).games[g]) == MessagesOf(Run(o, events).executed[Since(o, events, g)..])
       <==> Forged(o, events, g) == []
  {
    RunStaysInOrder(o, events, g);
  }
}
