/** What the task queue is for: once it has drained, the peers the game was told about are exactly
    the peers the adapter has relays for, over every interleaving of commands and game events. */
module AdapterView {
  import opened Bytes
  import opened GpgNetMessage
  import opened AdapterTasks

  // ------------------------------------------------------- effects of the queue

  /** Whether x ends up told depends only on whether x is told now and whether x has a relay. */
  lemma {:induction false} EventuallyPointwise(r1: set<int>, t1: set<int>, r2: set<int>, t2: set<int>,
                                               tasks: seq<Task>, x: int)
    requires x in r1 <==> x in r2
    requires x in t1 <==> x in t2
    ensures x in Eventually(r1, t1, tasks) <==> x in Eventually(r2, t2, tasks)
  {
    if tasks == [] {
    } else {
      EventuallyPointwise(r1, t1, r2, t2, tasks[..|tasks| - 1], x);
    }
  }

  lemma {:induction false} EventuallyFromHead(relays: set<int>, told: set<int>, tasks: seq<Task>)
    requires tasks != []
    ensures Eventually(relays, told, tasks) == Eventually(relays, Effect(relays, told, tasks[0]), tasks[1..])
  {
    if |tasks| == 1 {
      assert tasks[..0] == [] && tasks[1..] == [];
    } else {
      var front := tasks[..|tasks| - 1];
      EventuallyFromHead(relays, told, front);
      assert front[1..] == tasks[1..][..|tasks| - 2];
    }
  }

  lemma EventuallySnoc(relays: set<int>, told: set<int>, tasks: seq<Task>, t: Task)
    ensures Eventually(relays, told, tasks + [t]) == Effect(relays, Eventually(relays, told, tasks), t)
  {
    assert (tasks + [t])[..|tasks|] == tasks;
  }

  lemma {:induction false} NothingWithoutRelays(tasks: seq<Task>)
    ensures Eventually({}, {}, tasks) == {}
  {
    if tasks == [] {
    } else {
      NothingWithoutRelays(tasks[..|tasks| - 1]);
    }
  }

  /** A relay appears (or was there already) and a task to connect to it is queued. */
  lemma RelayAppears(relays: set<int>, told: set<int>, tasks: seq<Task>, t: Task)
    requires Eventually(relays, told, tasks) == relays
    requires t.JoinGame? || t.ConnectToPeer?
    ensures var more := relays + {t.remoteId}; Eventually(more, told, tasks + [t]) == more
  {
    var more := relays + {t.remoteId};
    EventuallySnoc(more, told, tasks, t);
    forall x
      ensures x in Eventually(more, told, tasks + [t]) <==> x in more
    {
      if x != t.remoteId {
        EventuallyPointwise(more, told, relays, told, tasks, x);
      }
    }
  }

  /** A relay vanishes while tasks for it may still be waiting. */
  lemma RelayVanishes(relays: set<int>, told: set<int>, tasks: seq<Task>, id: Int32)
    requires Eventually(relays, told, tasks) == relays
    ensures Eventually(relays - {id}, told, tasks + [DisconnectFromPeer(id)]) == relays - {id}
  {
    var t := DisconnectFromPeer(id);
    EventuallySnoc(relays - {id}, told, tasks, t);
    forall x
      ensures x in Eventually(relays - {id}, told, tasks + [t]) <==> x in relays - {id}
    {
      if x != id {
        EventuallyPointwise(relays - {id}, told, relays, told, tasks, x);
      }
    }
  }

  // ------------------------------------------------------------- the invariant

  /** Executing the queue in full would bring what this game was told to the relay table. */
  predicate Heading(a: Adapter, told: set<int>) {
    Eventually(a.relays.Keys, told, a.tasks) == a.relays.Keys
  }

  /** The same for every connected game or, if there is none, for one that knows nothing yet. */
  ghost predicate OnCourse(a: Adapter) {
    && (forall g :: g in a.games ==> Heading(a, Told(a.games[g])))
    && (a.games == map[] ==> Heading(a, {}))
  }

  lemma ToldSnoc(log: seq<Message>, m: Message)
    ensures Told(log + [m]) == Hear(Told(log), m)
  {
    assert (log + [m])[..|log|] == log;
  }

  lemma MessageTells(a: Adapter, t: Task, told: set<int>)
    ensures Effect(a.relays.Keys, told, t)
         == if MessageFor(a, t).Some? then Hear(told, MessageFor(a, t).value) else told
  {
    HeadersDiffer();
  }

  lemma HeadKeepsCourse(a: Adapter)
    requires a.tasks != [] && OnCourse(a) && a.games != map[]
    ensures OnCourse(ExecuteHead(a)) && ExecuteHead(a).games.Keys == a.games.Keys
  {
    var t := a.tasks[0];
    var m := MessageFor(a, t);
    forall g | g in a.games
      ensures Heading(ExecuteHead(a), Told(ExecuteHead(a).games[g]))
    {
      assert Heading(a, Told(a.games[g]));
      EventuallyFromHead(a.relays.Keys, Told(a.games[g]), a.tasks);
      MessageTells(a, t, Told(a.games[g]));
      if m.Some? {
        ToldSnoc(a.games[g], m.value);
      }
    }
  }

  lemma {:induction false} ExecutingKeepsCourse(a: Adapter)
    requires OnCourse(a) && a.games != map[]
    ensures OnCourse(ExecuteTasks(a)) && ExecuteTasks(a).games.Keys == a.games.Keys
    decreases |a.tasks|
  {
    if a.tasks == [] || Blocked(a) {
    } else {
      HeadKeepsCourse(a);
      assert ExecuteHead(a).games != map[];
      ExecutingKeepsCourse(ExecuteHead(a));
    }
  }

  lemma TryingKeepsCourse(a: Adapter)
    requires OnCourse(a)
    ensures OnCourse(TryExecute(a)) && TryExecute(a).games.Keys == a.games.Keys
  {
    if a.games != map[] {
      ExecutingKeepsCourse(a);
    }
  }

  lemma SendingKeepsCourse(a: Adapter, m: Message)
    requires OnCourse(a) && forall told :: Hear(told, m) == told
    ensures OnCourse(Send(a, m)) && Send(a, m).games.Keys == a.games.Keys
  {
    forall g | g in a.games
      ensures Heading(Send(a, m), Told(Send(a, m).games[g]))
    {
      ToldSnoc(a.games[g], m);
      assert Heading(a, Told(a.games[g]));
    }
  }

  lemma ReceivingKeepsCourse(o: Options, a: Adapter, m: Message)
    requires OnCourse(a)
    ensures OnCourse(React(o, a, m)) && React(o, a, m).games.Keys == a.games.Keys
  {
    if ReportsState(m) {
      var a1 := a.(gameState := AsString(m.chunks[0]));
      var a2 := if a1.gameState == IDLE then Send(a1, CreateLobbyMessage(o, a1.lobbyInitMode)) else a1;
      if a1.gameState == IDLE {
        HeadersDiffer();
        SendingKeepsCourse(a1, CreateLobbyMessage(o, a1.lobbyInitMode));
      }
      TryingKeepsCourse(a2);
    }
  }

  // ----------------------------------------------------- what waits for one peer

  /** What the last waiting task about a peer says: to connect to it or to disconnect from it. */
  datatype Word = Nothing | In | Out

  function LastWord(tasks: seq<Task>, id: int): Word {
    if tasks == [] then Nothing
    else
      match tasks[|tasks| - 1]
      case JoinGame(_, remoteId) => if remoteId == id then In else LastWord(tasks[..|tasks| - 1], id)
      case ConnectToPeer(_, remoteId) => if remoteId == id then In else LastWord(tasks[..|tasks| - 1], id)
      case DisconnectFromPeer(remoteId) => if remoteId == id then Out else LastWord(tasks[..|tasks| - 1], id)
      case HostGame(_) => LastWord(tasks[..|tasks| - 1], id)
  }

  predicate DisconnectWaits(tasks: seq<Task>, id: int) {
    tasks != []
    && ((tasks[|tasks| - 1].DisconnectFromPeer? && tasks[|tasks| - 1].remoteId == id)
        || DisconnectWaits(tasks[..|tasks| - 1], id))
  }

  /** A peer with a relay ends up told if that is the last word, or if it is told and nothing is
      said; one without a relay if it is told and no disconnect waits. */
  lemma {:induction false} EventuallyTold(relays: set<int>, told: set<int>, tasks: seq<Task>, x: int)
    ensures x in Eventually(relays, told, tasks)
       <==> if x in relays then LastWord(tasks, x).In? || (LastWord(tasks, x).Nothing? && x in told)
            else x in told && !DisconnectWaits(tasks, x)
  {
    if tasks != [] {
      EventuallyTold(relays, told, tasks[..|tasks| - 1], x);
    }
  }

  /** A game that had been told y, and not told, instead of what it was told: only that peer
      matters. */
  lemma HeadingWithOne(a: Adapter, told: set<int>, other: set<int>, id: int)
    requires Heading(a, told) && forall x :: x != id ==> (x in told <==> x in other)
    ensures Heading(a, other)
       <==> (id in Eventually(a.relays.Keys, other, a.tasks) <==> id in a.relays.Keys)
  {
    var r := a.relays.Keys;
    forall x | x != id ensures x in Eventually(r, other, a.tasks) <==> x in r {
      EventuallyPointwise(r, told, r, other, a.tasks, x);
    }
    if id in Eventually(r, other, a.tasks) <==> id in r {
      assert forall x :: x in Eventually(r, other, a.tasks) <==> x in r;
    }
  }

  /** To connect is the last waiting word about every peer with a relay. */
  predicate LastWordIsIn(a: Adapter) {
    forall id: int :: id in a.relays.Keys ==> LastWord(a.tasks, id).In?
  }

  /** A game that knows nothing is brought to the relay table exactly if to connect is the last
      waiting word about every relay. */
  lemma HeadingFromNothing(a: Adapter)
    ensures Heading(a, {}) <==> LastWordIsIn(a)
  {
    var r := a.relays.Keys;
    var none: set<int> := {};
    var told := Eventually(r, none, a.tasks);
    forall x: int ensures x in told <==> x in r && LastWord(a.tasks, x).In? {
      EventuallyTold(r, none, a.tasks, x);
    }
    if LastWordIsIn(a) {
      assert forall x: int :: x in told <==> x in r;
      assert told == r;
    }
    if told == r {
      forall id: int | id in a.relays.Keys ensures LastWord(a.tasks, id).In? {
        assert id in told;
      }
    }
  }

  /** A disconnect waits for every one of these peers. */
  predicate DisconnectsWait(tasks: seq<Task>, told: set<int>) {
    forall id :: id in told ==> DisconnectWaits(tasks, id)
  }

  /** Without relays, what a game was told is forgotten exactly if a disconnect waits for each. */
  lemma HeadingToNothing(told: set<int>, tasks: seq<Task>)
    ensures Eventually({}, told, tasks) == {} <==> DisconnectsWait(tasks, told)
  {
    var none: set<int> := {};
    var left := Eventually(none, told, tasks);
    forall x: int ensures x in left <==> x in told && !DisconnectWaits(tasks, x) {
      EventuallyTold(none, told, tasks, x);
    }
    if DisconnectsWait(tasks, told) {
      assert forall x :: x !in left;
      assert left == none;
    }
    if left == none {
      forall id | id in told ensures DisconnectWaits(tasks, id) {
        assert id !in left;
      }
    }
  }

  // --------------------------------------------------------------- events, exactly

  predicate Forwarded(a: Adapter, m: Message) {
    a.games != map[] && forall i :: 0 <= i < |m.chunks| ==> !Throws(m.chunks[i])
  }

  /** Which events keep the course. Commands and the game's own messages always do. A peer message
      that the client forwards itself must be in line with relays and queue; a game connecting
      beside another must get all relays from the queue; and when a game goes, those that remain
      must have disconnects waiting for all they were told. */
  predicate Admissible(a: Adapter, e: Event) {
    match e
    case Forward(m) =>
      !Forwarded(a, m)
      || (if ConnectsPeer(m) then PeerNamed(m) in a.relays.Keys || DisconnectWaits(a.tasks, PeerNamed(m))
          else if DisconnectsPeer(m) then PeerNamed(m) !in a.relays.Keys || LastWord(a.tasks, PeerNamed(m)).In?
          else true)
    case GameConnected(g) =>
      g in a.games || a.games == map[] || LastWordIsIn(a)
    case GameDisconnected(g) =>
      g !in a.games
      || forall h :: h in a.games && h != g ==> DisconnectsWait(a.tasks, Told(a.games[h]))
    case _ => true
  }

  lemma QueueingKeepsCourse(a: Adapter, relays: map<Int32, Relay>, t: Task)
    requires OnCourse(a)
    requires (t.HostGame? && relays == a.relays)
          || ((t.JoinGame? || t.ConnectToPeer?) && relays.Keys == a.relays.Keys + {t.remoteId})
          || (t.DisconnectFromPeer? && relays.Keys == a.relays.Keys - {t.remoteId})
    ensures var r := Queue(a.(relays := relays), t); OnCourse(r) && r.games.Keys == a.games.Keys
  {
    var a1 := a.(relays := relays, tasks := a.tasks + [t], queued := a.queued + [t]);
    forall told: set<int> | Heading(a, told)
      ensures Heading(a1, told)
    {
      match t
      case HostGame(_) => EventuallySnoc(a.relays.Keys, told, a.tasks, t);
      case JoinGame(_, _) => RelayAppears(a.relays.Keys, told, a.tasks, t);
      case ConnectToPeer(_, _) => RelayAppears(a.relays.Keys, told, a.tasks, t);
      case DisconnectFromPeer(id) => RelayVanishes(a.relays.Keys, told, a.tasks, id);
    }
    TryingKeepsCourse(a1);
  }

  lemma CommandKeepsCourse(o: Options, a: Adapter, e: Event)
    requires OnCourse(a) && (e.Host? || e.Join? || e.Connect? || e.Disconnect? || e.SetInitMode?)
    ensures OnCourse(Step(o, a, e))
  {
    match e
    case Host(hostMap) => QueueingKeepsCourse(a, a.relays, HostGame(hostMap));
    case Join(login, id, port) =>
      QueueingKeepsCourse(a, CreateRelay(a, id, Relay(login, false, port)).relays, JoinGame(login, id));
    case Connect(login, id, offer, port) =>
      QueueingKeepsCourse(a, CreateRelay(a, id, Relay(login, offer, port)).relays, ConnectToPeer(login, id));
    case Disconnect(id) =>
      if id in a.relays {
        QueueingKeepsCourse(a, a.relays - {id}, DisconnectFromPeer(id));
      }
    case SetInitMode(mode) =>
      forall told: set<int> | Heading(a, told) ensures Heading(Step(o, a, e), told) {
      }
  }

  /** One game, and a peer message forwarded to it. */
  lemma HearingKeepsHeadingIff(a: Adapter, told: set<int>, m: Message)
    requires Heading(a, told)
    ensures Heading(a, Hear(told, m))
       <==> if ConnectsPeer(m) then PeerNamed(m) in a.relays.Keys || DisconnectWaits(a.tasks, PeerNamed(m))
            else if DisconnectsPeer(m) then PeerNamed(m) !in a.relays.Keys || LastWord(a.tasks, PeerNamed(m)).In?
            else true
  {
    if ConnectsPeer(m) || DisconnectsPeer(m) {
      var id := PeerNamed(m);
      HeadingWithOne(a, told, Hear(told, m), id);
      EventuallyTold(a.relays.Keys, told, a.tasks, id);
      EventuallyTold(a.relays.Keys, Hear(told, m), a.tasks, id);
    }
  }

  lemma ForwardKeepsCourseIff(o: Options, a: Adapter, m: Message)
    requires OnCourse(a)
    ensures OnCourse(Step(o, a, Forward(m))) <==> Admissible(a, Forward(m))
  {
    if Forwarded(a, m) {
      var r := Send(a, m);
      HasGame(a.games);
      var some :| some in a.games;
      forall g | g in a.games
        ensures Heading(r, Told(r.games[g])) <==> Admissible(a, Forward(m))
      {
        assert Heading(a, Told(a.games[g]));
        ToldSnoc(a.games[g], m);
        HearingKeepsHeadingIff(a, Told(a.games[g]), m);
        assert Heading(r, Told(r.games[g])) <==> Heading(a, Hear(Told(a.games[g]), m));
      }
      assert some in r.games;
      assert r.games != map[];
    }
  }

  lemma ConnectingKeepsCourseIff(o: Options, a: Adapter, g: Game)
    requires OnCourse(a) && g !in a.games
    ensures OnCourse(Step(o, a, GameConnected(g)))
       <==> a.games == map[] || LastWordIsIn(a)
  {
    var r := Step(o, a, GameConnected(g));
    HeadingFromNothing(a);
    assert Told(r.games[g]) == {};
    assert Heading(r, {}) <==> Heading(a, {});
    forall h | h in a.games ensures h in r.games && Heading(r, Told(r.games[h])) {
      assert Heading(a, Told(a.games[h]));
    }
    assert g in r.games;
  }

  lemma LeavingKeepsCourseIff(o: Options, a: Adapter, g: Game)
    requires OnCourse(a) && g in a.games
    ensures OnCourse(Step(o, a, GameDisconnected(g)))
       <==> forall h :: h in a.games && h != g ==> DisconnectsWait(a.tasks, Told(a.games[h]))
  {
    var r := Step(o, a, GameDisconnected(g));
    var none: map<Int32, Relay> := map[];
    assert none.Keys == {};
    NothingWithoutRelays(a.tasks);
    forall h | h in a.games && h != g
      ensures h in r.games
      ensures Heading(r, Told(r.games[h])) <==> DisconnectsWait(a.tasks, Told(a.games[h]))
    {
      HeadingToNothing(Told(a.games[h]), a.tasks);
    }
  }

  /** Every event that is admissible, and no other, leaves the adapter on course. */
  lemma StepKeepsCourseIff(o: Options, a: Adapter, e: Event)
    requires OnCourse(a)
    ensures OnCourse(Step(o, a, e)) <==> Admissible(a, e)
  {
    match e
    case Forward(m) => ForwardKeepsCourseIff(o, a, m);
    case GameConnected(g) =>
      if g !in a.games {
        ConnectingKeepsCourseIff(o, a, g);
      }
    case GameDisconnected(g) =>
      if g in a.games {
        LeavingKeepsCourseIff(o, a, g);
      }
    case GameMessage(m) => ReceivingKeepsCourse(o, a, m);
    case _ => CommandKeepsCourse(o, a, e);
  }

  /** Runs in which every event is admissible when it happens. */
  predicate AdmissibleRun(o: Options, events: seq<Event>) {
    events == []
    || (AdmissibleRun(o, events[..|events| - 1])
        && Admissible(Run(o, events[..|events| - 1]), events[|events| - 1]))
  }

  lemma {:induction false} RunStaysOnCourse(o: Options, events: seq<Event>)
    requires AdmissibleRun(o, events)
    ensures OnCourse(Run(o, events))
  {
    if events != [] {
      RunStaysOnCourse(o, events[..|events| - 1]);
      StepKeepsCourseIff(o, Run(o, events[..|events| - 1]), events[|events| - 1]);
    }
  }

  /** The adapter is on course after every part of the run. */
  ghost predicate OnCourseThroughout(o: Options, events: seq<Event>) {
    OnCourse(Run(o, events)) && (events == [] || OnCourseThroughout(o, events[..|events| - 1]))
  }

  /** A run stays on course throughout if and only if all its events are admissible. */
  lemma {:induction false} RunStaysOnCourseIff(o: Options, events: seq<Event>)
    ensures AdmissibleRun(o, events) <==> OnCourseThroughout(o, events)
  {
    if events == [] {
      RunStaysOnCourse(o, events);
    } else {
      var before := events[..|events| - 1];
      RunStaysOnCourseIff(o, before);
      if OnCourse(Run(o, before)) {
        StepKeepsCourseIff(o, Run(o, before), events[|events| - 1]);
      }
    }
  }

  /** The ordinary case: one game at a time, and a client that leaves peer messages to the
      adapter. */
  predicate Ordinary(a: Adapter, e: Event) {
    match e
    case GameConnected(_) => a.games == map[]
    case Forward(m) => m.header != JOIN_GAME && m.header != CONNECT_TO_PEER && m.header != DISCONNECT_FROM_PEER
    case _ => true
  }

  predicate OrdinaryRun(o: Options, events: seq<Event>) {
    events == []
    || (OrdinaryRun(o, events[..|events| - 1]) && Ordinary(Run(o, events[..|events| - 1]), events[|events| - 1]))
  }

  ghost predicate AtMostOneGame(a: Adapter) {
    forall g, h :: g in a.games && h in a.games ==> g == h
  }

  lemma ReactingKeepsGames(o: Options, a: Adapter, m: Message)
    ensures React(o, a, m).games.Keys == a.games.Keys
  {
    if ReportsState(m) {
      var a1 := a.(gameState := AsString(m.chunks[0]));
      ExecutingLeaves(if a1.gameState == IDLE then Send(a1, CreateLobbyMessage(o, a1.lobbyInitMode)) else a1);
    }
  }

  lemma StepKeepsGames(o: Options, a: Adapter, e: Event)
    requires !e.GameConnected? && !e.GameDisconnected?
    ensures Step(o, a, e).games.Keys == a.games.Keys
  {
    match e
    case Host(hostMap) => QueueLeaves(a, HostGame(hostMap));
    case Join(login, id, port) => QueueLeaves(CreateRelay(a, id, Relay(login, false, port)), JoinGame(login, id));
    case Connect(login, id, offer, port) =>
      QueueLeaves(CreateRelay(a, id, Relay(login, offer, port)), ConnectToPeer(login, id));
    case Disconnect(id) => QueueLeaves(a.(relays := a.relays - {id}), DisconnectFromPeer(id));
    case GameMessage(m) => ReactingKeepsGames(o, a, m);
    case _ =>
  }

  lemma OrdinaryStep(o: Options, a: Adapter, e: Event)
    requires AtMostOneGame(a) && Ordinary(a, e)
    ensures Admissible(a, e) && AtMostOneGame(Step(o, a, e))
  {
    if !e.GameConnected? && !e.GameDisconnected? {
      StepKeepsGames(o, a, e);
      assert forall g :: g in Step(o, a, e).games.Keys ==> g in a.games;
    }
  }

  /** Ordinary runs are admissible throughout. */
  lemma {:induction false} OrdinaryRunsAreAdmissible(o: Options, events: seq<Event>)
    requires OrdinaryRun(o, events)
    ensures AdmissibleRun(o, events) && AtMostOneGame(Run(o, events))
  {
    if events != [] {
      OrdinaryRunsAreAdmissible(o, events[..|events| - 1]);
      OrdinaryStep(o, Run(o, events[..|events| - 1]), events[|events| - 1]);
    }
  }

  /** Whenever the queue is empty, the peers a connected game was told about are exactly those with
      a relay. */
  lemma DrainedQueueMeansAgreement(o: Options, events: seq<Event>, g: Game)
    requires AdmissibleRun(o, events) && g in Run(o, events).games && Run(o, events).tasks == []
    ensures Told(Run(o, events).games[g]) == Run(o, events).relays.Keys
  {
    RunStaysOnCourse(o, events);
    assert Heading(Run(o, events), Told(Run(o, events).games[g]));
  }

  // -------------------------------------------------------- events off the course

  /** A second game connecting beside the first is not told about relays already reported. */
  lemma SecondGameKnowsNothing(o: Options, a: Adapter, g: Game, id: Int32)
    requires id in a.relays && a.tasks == [] && g !in a.games && a.games != map[]
    ensures var r := Step(o, a, GameConnected(g));
            g in r.games && r.tasks == [] && Told(r.games[g]) != r.relays.Keys
  {
    assert Told([]) == {};
  }

  /** A client that sends "DisconnectFromPeer" itself makes the game forget a relay that exists. */
  lemma ForwardedPeerMessageDisagrees(o: Options, a: Adapter, g: Game, id: Int32)
    requires g in a.games && a.tasks == [] && Told(a.games[g]) == a.relays.Keys && id in a.relays
    ensures var r := Step(o, a, Forward(DisconnectFromPeerMessage(id)));
            g in r.games && r.tasks == [] && Told(r.games[g]) == r.relays.Keys - {id} != r.relays.Keys
  {
    HeadersDiffer();
    ToldSnoc(a.games[g], DisconnectFromPeerMessage(id));
  }

  /** A game connects and reports that it is in the lobby, and the client asks for a peer. */
  function GameWithPeer(none: seq<Event>, g: Game, id: Int32): seq<Event> {
    none + [GameConnected(g)] + [GameMessage(Message(GAME_STATE, [StringValue(LOBBY)]))] + [Connect([], id, true, 0)]
  }

  /** The only task that waits is for a relay that is there. */
  lemma ConnectsWaiting(a: Adapter, g: Game, id: Int32)
    requires a.games == map[g := []] && a.gameState == LOBBY && id in a.relays && a.tasks == [ConnectToPeer([], id)]
    ensures var r := TryExecute(a);
            r.games.Keys == {g} && r.tasks == [] && r.relays == a.relays && Told(r.games[g]) == {id}
  {
    var m := ConnectToPeerMessage(a.relays[id], [], id);
    assert g in a.games;
    assert a.tasks[1..] == [];
    assert ExecuteTasks(a) == ExecuteHead(a);
    ToldSnoc([], m);
  }

  /** In the lobby, with nothing else waiting, a peer is connected at once. */
  lemma ConnectsAtOnce(o: Options, a: Adapter, g: Game, id: Int32)
    requires a.games == map[g := []] && a.gameState == LOBBY && a.tasks == [] && a.relays == map[]
    ensures var r := Step(o, a, Connect([], id, true, 0));
            r.games.Keys == {g} && r.tasks == [] && r.relays.Keys == {id} && Told(r.games[g]) == {id}
  {
    var t := ConnectToPeer([], id);
    var q := CreateRelay(a, id, Relay([], true, 0));
    assert [] + [t] == [t];
    ConnectsWaiting(q.(tasks := a.tasks + [t], queued := q.queued + [t]), g, id);
  }

  lemma LobbyReached(o: Options, a: Adapter, g: Game)
    requires a == START
    ensures var m := Message(GAME_STATE, [StringValue(LOBBY)]);
            var r := Step(o, Step(o, a, GameConnected(g)), GameMessage(m));
            r.games == map[g := []] && r.gameState == LOBBY && r.tasks == [] && r.relays == map[]
  {
    assert |LOBBY| == 5 && |IDLE| == 4;
  }

  lemma GameHasPeer(o: Options, none: seq<Event>, g: Game, id: Int32)
    requires none == []
    ensures var a := Run(o, GameWithPeer(none, g, id));
            a.games.Keys == {g} && a.tasks == [] && a.relays.Keys == {id} && Told(a.games[g]) == {id}
  {
    var e1 := GameMessage(Message(GAME_STATE, [StringValue(LOBBY)]));
    RunSnoc(o, none, GameConnected(g));
    RunSnoc(o, none + [GameConnected(g)], e1);
    RunSnoc(o, none + [GameConnected(g)] + [e1], Connect([], id, true, 0));
    LobbyReached(o, START, g);
    ConnectsAtOnce(o, Run(o, none + [GameConnected(g)] + [e1]), g, id);
  }

  /** Both failures happen: after such a run, with a second game, and with a forwarded message. */
  lemma FailuresHappen(o: Options, none: seq<Event>, g: Game, h: Game, id: Int32)
    requires none == [] && g != h
    ensures var r := Run(o, GameWithPeer(none, g, id) + [GameConnected(h)]);
            h in r.games && r.tasks == [] && Told(r.games[h]) != r.relays.Keys
    ensures var r := Run(o, GameWithPeer(none, g, id) + [Forward(DisconnectFromPeerMessage(id))]);
            g in r.games && r.tasks == [] && Told(r.games[g]) != r.relays.Keys
  {
    var events := GameWithPeer(none, g, id);
    var a := Run(o, events);
    GameHasPeer(o, none, g, id);
    assert id in a.relays.Keys && h !in a.games.Keys && g in a.games;
    SecondGameKnowsNothing(o, a, h, id);
    ForwardedPeerMessageDisagrees(o, a, g, id);
    RunSnoc(o, events, GameConnected(h));
    RunSnoc(o, events, Forward(DisconnectFromPeerMessage(id)));
  }

  // --------------------------------------------------------- discipline of the queue

  function Tasks(done: seq<Execution>): seq<Task> {
    if done == [] then [] else Tasks(done[..|done| - 1]) + [done[|done| - 1].task]
  }

  lemma TasksSnoc(done: seq<Execution>, x: Execution)
    ensures Tasks(done + [x]) == Tasks(done) + [x.task]
  {
    assert (done + [x])[..|done|] == done;
  }

  /** Tasks are only executed for a connected game, and those meant for the lobby in the lobby. */
  predicate Timely(x: Execution) {
    x.games != {} && (LobbyGated(x.task) ==> x.gameState == LOBBY)
  }

  /** Every task ever queued is either done, in good time, or still waiting, in the order of
      queueing. */
  ghost predicate Disciplined(a: Adapter) {
    a.queued == Tasks(a.executed) + a.tasks && forall i :: 0 <= i < |a.executed| ==> Timely(a.executed[i])
  }

  lemma HeadIsDisciplined(a: Adapter)
    requires Disciplined(a) && a.tasks != [] && !Blocked(a) && a.games.Keys != {}
    ensures Disciplined(ExecuteHead(a)) && ExecuteHead(a).games.Keys == a.games.Keys
  {
    var r := ExecuteHead(a);
    TasksSnoc(a.executed, r.executed[|a.executed|]);
    assert a.tasks == [a.tasks[0]] + a.tasks[1..];
    Associate(Tasks(a.executed), [a.tasks[0]], a.tasks[1..]);
  }

  lemma {:induction false} ExecutingIsDisciplined(a: Adapter)
    requires Disciplined(a) && a.games.Keys != {}
    ensures Disciplined(ExecuteTasks(a))
    ensures var r := ExecuteTasks(a); r.tasks == [] || Blocked(r)
    decreases |a.tasks|
  {
    if a.tasks != [] && !Blocked(a) {
      HeadIsDisciplined(a);
      ExecutingIsDisciplined(ExecuteHead(a));
    }
  }

  /** After an attempt to execute, the queue is empty, or no game is connected, or the task at its
      head waits for the lobby. */
  lemma TryingIsDisciplined(a: Adapter)
    requires Disciplined(a)
    ensures Disciplined(TryExecute(a))
    ensures var r := TryExecute(a); r.tasks == [] || r.games == map[] || Blocked(r)
  {
    if a.games != map[] {
      HasGame(a.games);
      ExecutingIsDisciplined(a);
    }
  }

  lemma QueueingIsDisciplined(a: Adapter, t: Task)
    requires Disciplined(a)
    ensures Disciplined(Queue(a, t))
  {
    Associate(Tasks(a.executed), a.tasks, [t]);
    TryingIsDisciplined(a.(tasks := a.tasks + [t], queued := a.queued + [t]));
  }

  lemma ReceivingIsDisciplined(o: Options, a: Adapter, m: Message)
    requires Disciplined(a)
    ensures Disciplined(React(o, a, m))
  {
    if ReportsState(m) {
      var a1 := a.(gameState := AsString(m.chunks[0]));
      TryingIsDisciplined(if a1.gameState == IDLE then Send(a1, CreateLobbyMessage(o, a1.lobbyInitMode)) else a1);
    }
  }

  lemma StepIsDisciplined(o: Options, a: Adapter, e: Event)
    requires Disciplined(a)
    ensures Disciplined(Step(o, a, e))
  {
    match e
    case Host(hostMap) => QueueingIsDisciplined(a, HostGame(hostMap));
    case Join(login, id, port) =>
      QueueingIsDisciplined(CreateRelay(a, id, Relay(login, false, port)), JoinGame(login, id));
    case Connect(login, id, offer, port) =>
      QueueingIsDisciplined(CreateRelay(a, id, Relay(login, offer, port)), ConnectToPeer(login, id));
    case Disconnect(id) => QueueingIsDisciplined(a.(relays := a.relays - {id}), DisconnectFromPeer(id));
    case GameMessage(m) => ReceivingIsDisciplined(o, a, m);
    case _ =>
  }

  /** In every run, tasks queued are tasks executed followed by tasks waiting; each was executed for
      a connected game, and in the lobby if it is meant for it. */
  lemma {:induction false} QueueDiscipline(o: Options, events: seq<Event>)
    ensures Disciplined(Run(o, events))
  {
    if events != [] {
      QueueDiscipline(o, events[..|events| - 1]);
      StepIsDisciplined(o, Run(o, events[..|events| - 1]), events[|events| - 1]);
    }
  }

  // ----------------------------------------------------- when the queue is retried

  /** Nothing more can be executed: no task waits, or no game is connected, or the first task is
      meant for the lobby, where the game is not. */
  predicate Rests(a: Adapter) {
    a.tasks == [] || a.games == map[] || (!a.tasks[0].DisconnectFromPeer? && a.gameState != LOBBY)
  }

  lemma {:induction false} ExecutingRests(a: Adapter)
    ensures Rests(ExecuteTasks(a)) && ExecuteTasks(a).gameState == a.gameState
    ensures a.gameState == LOBBY ==> ExecuteTasks(a).tasks == []
    decreases |a.tasks|
  {
    if a.tasks != [] && !Blocked(a) {
      ExecutingRests(ExecuteHead(a));
    }
  }

  lemma TryingRests(a: Adapter)
    ensures Rests(TryExecute(a)) && TryExecute(a).gameState == a.gameState
    ensures a.games != map[] && a.gameState == LOBBY ==> TryExecute(a).tasks == []
  {
    if a.games != map[] {
      ExecutingRests(a);
    }
  }

  /** The event makes the adapter retry its queue: a state report, or a command that queues a task. */
  predicate Retries(a: Adapter, e: Event) {
    e.Host? || e.Join? || e.Connect? || (e.Disconnect? && e.id in a.relays)
    || (e.GameMessage? && e.message.header == Ascii("GameState") && |e.message.chunks| == 1)
  }

  lemma ReportRetries(o: Options, a: Adapter, m: Message)
    requires m.header == Ascii("GameState") && |m.chunks| == 1
    ensures Rests(Step(o, a, GameMessage(m)))
    ensures a.games != map[] && AsString(m.chunks[0]) == Ascii("Lobby") ==> Step(o, a, GameMessage(m)).tasks == []
  {
    var a1 := a.(gameState := AsString(m.chunks[0]));
    var a2 := if a1.gameState == IDLE then Send(a1, CreateLobbyMessage(o, a1.lobbyInitMode)) else a1;
    HasGame(a.games);
    TryingRests(a2);
    if a.games != map[] {
      var g :| g in a.games;
      assert g in a2.games;
    }
  }

  /** Then as much of the queue as can be has been executed; all of it, if a game reports that it is
      in the lobby. */
  lemma RetryingRests(o: Options, a: Adapter, e: Event)
    requires Retries(a, e)
    ensures Rests(Step(o, a, e))
  {
    match e
    case Host(hostMap) => QueueRests(a, HostGame(hostMap));
    case Join(login, id, port) => QueueRests(CreateRelay(a, id, Relay(login, false, port)), JoinGame(login, id));
    case Connect(login, id, offer, port) =>
      QueueRests(CreateRelay(a, id, Relay(login, offer, port)), ConnectToPeer(login, id));
    case Disconnect(id) => QueueRests(a.(relays := a.relays - {id}), DisconnectFromPeer(id));
    case GameMessage(m) => ReportRetries(o, a, m);
  }

  lemma QueueRests(a: Adapter, t: Task)
    ensures Rests(Queue(a, t))
  {
    TryingRests(a.(tasks := a.tasks + [t], queued := a.queued + [t]));
  }

  /** Whether a game has connected since the queue was last retried. */
  predicate ConnectedSince(o: Options, events: seq<Event>) {
    events != []
    && var before, e := events[..|events| - 1], events[|events| - 1];
       !Retries(Run(o, before), e) && (e.GameConnected? || ConnectedSince(o, before))
  }

  lemma OtherEventRests(o: Options, a: Adapter, e: Event)
    requires Rests(a) && !Retries(a, e) && !e.GameConnected?
    ensures Rests(Step(o, a, e))
  {
    assert |LOBBY| == 5 && |NONE| == 4;
    match e
    case GameDisconnected(g) =>
    case Forward(m) =>
      HasGame(Step(o, a, e).games);
    case _ =>
  }

  /** In every run, the queue rests unless a game has connected since it was last retried. */
  lemma {:induction false} RunRests(o: Options, events: seq<Event>)
    ensures Rests(Run(o, events)) || ConnectedSince(o, events)
  {
    if events != [] {
      var before, e := events[..|events| - 1], events[|events| - 1];
      RunRests(o, before);
      if Retries(Run(o, before), e) {
        RetryingRests(o, Run(o, before), e);
      } else if !ConnectedSince(o, before) && !e.GameConnected? {
        OtherEventRests(o, Run(o, before), e);
      }
    }
  }
}
