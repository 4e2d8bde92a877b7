/** The lobby server and the adapters together: when every adapter carries out the commands the
    server sends to its player, each game ends up as a mesh of relays at the adapters, and as a
    mesh of peers that the games have been told about. */
module LobbyAdapters {
  import opened Bytes
  import M = LobbyMesh
  import L = LobbyTables
  import opened AdapterTasks
  import opened AdapterView

  // ----------------------------------------------- commands about relays, and their effect

  predicate AboutRelays(c: L.Command) {
    c.JoinGame? || c.ConnectToPeer? || c.DisconnectFromPeer?
  }

  /** The commands about relays that are sent to player p. */
  function CommandsFor(out: seq<L.Emission>, p: L.PlayerId): seq<L.Command> {
    if out == [] then []
    else
      var before, e := CommandsFor(out[..|out| - 1], p), out[|out| - 1];
      if M.For(e, p) && AboutRelays(e.command) then before + [e.command] else before
  }

  function ObeyAll(commands: seq<L.Command>): M.Relays {
    if commands == [] then map[] else M.Obey(ObeyAll(commands[..|commands| - 1]), commands[|commands| - 1])
  }

  lemma ObeySnoc(commands: seq<L.Command>, c: L.Command)
    ensures ObeyAll(commands + [c]) == M.Obey(ObeyAll(commands), c)
  {
    assert (commands + [c])[..|commands|] == commands;
  }

  lemma {:induction false} ViewIsObeyAll(out: seq<L.Emission>, p: L.PlayerId)
    ensures M.View(out, p) == ObeyAll(CommandsFor(out, p))
  {
    if out != [] {
      var before, e := out[..|out| - 1], out[|out| - 1];
      ViewIsObeyAll(before, p);
      if M.For(e, p) && AboutRelays(e.command) {
        ObeySnoc(CommandsFor(before, p), e.command);
      }
    }
  }

  // ------------------------------------------------------------- one player's adapter

  /** The call of the adapter that a command asks for, at whatever port and in whatever encoding. */
  predicate CarriesOut(e: Event, c: L.Command) {
    match c
    case JoinGame(_, id) => e.Join? && e.id == id
    case ConnectToPeer(_, id, offer) => e.Connect? && e.id == id && e.offer == offer
    case DisconnectFromPeer(id) => e.Disconnect? && e.id == id
    case _ => false
  }

  predicate ChangesRelays(e: Event) {
    e.Join? || e.Connect? || e.Disconnect?
  }

  /** The adapter's run carries out the commands, in order, between other events. */
  predicate Follows(events: seq<Event>, commands: seq<L.Command>)
    decreases |events|
  {
    if events == [] then commands == []
    else
      var before, e := events[..|events| - 1], events[|events| - 1];
      if ChangesRelays(e) then
        commands != [] && CarriesOut(e, commands[|commands| - 1]) && Follows(before, commands[..|commands| - 1])
      else Follows(before, commands)
  }

  predicate LosesRelays(a: Adapter, e: Event) {
    e.GameDisconnected? && e.game in a.games
  }

  /** How many commands a run has carried out. */
  function Executed(events: seq<Event>): nat {
    if events == [] then 0
    else Executed(events[..|events| - 1]) + (if ChangesRelays(events[|events| - 1]) then 1 else 0)
  }

  /** How many of them came before a game last disconnected, which clears the relays without the
      lobby knowing. */
  function Forgotten(o: Options, events: seq<Event>): (n: nat)
    ensures n <= Executed(events)
  {
    if events == [] then 0
    else
      var before, e := events[..|events| - 1], events[|events| - 1];
      if LosesRelays(AdapterTasks.Run(o, before), e) then Executed(before) else Forgotten(o, before)
  }

  lemma {:induction false} FollowsLength(events: seq<Event>, commands: seq<L.Command>)
    requires Follows(events, commands)
    ensures |commands| == Executed(events)
    decreases |events|
  {
    if events != [] {
      var before, e := events[..|events| - 1], events[|events| - 1];
      FollowsLength(before, if ChangesRelays(e) then commands[..|commands| - 1] else commands);
    }
  }

  /** The adapter's relays are those of the lobby's view, with the same roles. */
  ghost predicate SameRelays(a: Adapter, relays: M.Relays) {
    && (forall id: Int32 :: id in a.relays <==> id in relays)
    && (forall id: Int32 :: id in a.relays ==> id in relays && a.relays[id].offerer == relays[id])
  }

  lemma OtherEventsKeepRelays(o: Options, a: Adapter, e: Event)
    requires !ChangesRelays(e) && !LosesRelays(a, e)
    ensures Step(o, a, e).relays == a.relays
  {
    match e
    case Host(hostMap) => QueueLeaves(a, HostGame(hostMap));
    case GameMessage(m) =>
      if ReportsState(m) {
        var a1 := a.(gameState := AsString(m.chunks[0]));
        ExecutingLeaves(if a1.gameState == IDLE then Send(a1, CreateLobbyMessage(o, a1.lobbyInitMode)) else a1);
      }
    case _ =>
  }

  lemma CommandKeepsSameRelays(o: Options, a: Adapter, e: Event, relays: M.Relays, c: L.Command)
    requires SameRelays(a, relays) && CarriesOut(e, c)
    ensures SameRelays(Step(o, a, e), M.Obey(relays, c))
  {
    match e
    case Join(login, id, port) =>
      QueueLeaves(CreateRelay(a, id, Relay(login, false, port)), JoinGame(login, id));
    case Connect(login, id, offer, port) =>
      QueueLeaves(CreateRelay(a, id, Relay(login, offer, port)), ConnectToPeer(login, id));
    case Disconnect(id) =>
      if id in a.relays {
        QueueLeaves(a.(relays := a.relays - {id}), DisconnectFromPeer(id));
      }
  }

  // --------------------------------------------------- commands about one other player

  predicate About(c: L.Command, id: L.PlayerId) {
    AboutRelays(c) && c.id == id
  }

  /** Some command about the player is left when the first k are dropped. */
  predicate Recent(commands: seq<L.Command>, k: nat, id: L.PlayerId) {
    k < |commands| && (About(commands[|commands| - 1], id) || Recent(commands[..|commands| - 1], k, id))
  }

  lemma ObeySuffix(commands: seq<L.Command>, k: nat)
    requires k < |commands|
    ensures var n := |commands| - 1;
            ObeyAll(commands[k..]) == M.Obey(ObeyAll(commands[..n][k..]), commands[n])
  {
    var n := |commands| - 1;
    assert commands[k..] == commands[..n][k..] + [commands[n]];
    ObeySnoc(commands[..n][k..], commands[n]);
  }

  /** Only commands about a player decide whether there is a relay to it: dropping the first k
      changes nothing as long as one of them is left. */
  lemma {:induction false} SuffixDecides(commands: seq<L.Command>, k: nat, id: L.PlayerId)
    requires k <= |commands|
    ensures id in ObeyAll(commands[k..]) <==> id in ObeyAll(commands) && Recent(commands, k, id)
    decreases |commands|
  {
    if k == |commands| {
      assert commands[k..] == [];
    } else {
      SuffixDecides(commands[..|commands| - 1], k, id);
      ObeySuffix(commands, k);
    }
  }

  /** The command that created the relay to a player. */
  function Founder(commands: seq<L.Command>, id: L.PlayerId): nat
    requires id in ObeyAll(commands)
  {
    var n := |commands| - 1;
    if id in ObeyAll(commands[..n]) then Founder(commands[..n], id) else n
  }

  predicate FounderIsLeft(commands: seq<L.Command>, k: nat, id: L.PlayerId) {
    id in ObeyAll(commands) && k <= Founder(commands, id)
  }

  lemma {:induction false} FounderIsAbout(commands: seq<L.Command>, id: L.PlayerId, k: nat)
    requires FounderIsLeft(commands, k, id)
    ensures Founder(commands, id) < |commands| && About(commands[Founder(commands, id)], id)
    ensures Recent(commands, k, id)
    decreases |commands|
  {
    var n := |commands| - 1;
    if id in ObeyAll(commands[..n]) {
      FounderIsAbout(commands[..n], id, k);
    }
  }

  /** The first command about a player behind the first k. */
  function FirstAbout(commands: seq<L.Command>, k: nat, id: L.PlayerId): (i: nat)
    requires Recent(commands, k, id)
    ensures k <= i < |commands| && About(commands[i], id)
    ensures forall j :: k <= j < i ==> !About(commands[j], id)
  {
    var n := |commands| - 1;
    if Recent(commands[..n], k, id) then FirstAbout(commands[..n], k, id)
    else
      NoneRecent(commands[..n], k, id);
      n
  }

  lemma {:induction false} NoneRecent(commands: seq<L.Command>, k: nat, id: L.PlayerId)
    requires !Recent(commands, k, id)
    ensures forall j :: k <= j < |commands| ==> !About(commands[j], id)
  {
    if k < |commands| {
      var n := |commands| - 1;
      NoneRecent(commands[..n], k, id);
      assert forall j :: k <= j < n ==> commands[..n][j] == commands[j];
    }
  }

  predicate Offers(c: L.Command) {
    c.ConnectToPeer? && c.offer
  }

  /** Where the relay to a player comes from when the first k commands are forgotten: from the
      command that created it or, if that one is forgotten, from the first that is left. */
  function Origin(commands: seq<L.Command>, k: nat, id: L.PlayerId): (i: nat)
    requires id in ObeyAll(commands) && Recent(commands, k, id)
    ensures i < |commands|
  {
    if k <= Founder(commands, id) then
      FounderIsAbout(commands, id, k);
      Founder(commands, id)
    else FirstAbout(commands, k, id)
  }

  /** That command decides the role. */
  lemma {:induction false} OriginDecides(commands: seq<L.Command>, k: nat, id: L.PlayerId)
    requires id in ObeyAll(commands) && Recent(commands, k, id)
    ensures id in ObeyAll(commands[k..]) && ObeyAll(commands[k..])[id] == Offers(commands[Origin(commands, k, id)])
    decreases |commands|
  {
    var n := |commands| - 1;
    SuffixDecides(commands, k, id);
    ObeySuffix(commands, k);
    if id in ObeyAll(commands[..n]) && Recent(commands[..n], k, id) {
      OriginDecides(commands[..n], k, id);
    } else {
      SuffixDecides(commands[..n], k, id);
      if id in ObeyAll(commands[..n]) && k <= Founder(commands[..n], id) {
        FounderIsAbout(commands[..n], id, k);
      }
    }
  }

  /** Nothing forgotten: the founder decides. */
  lemma FounderDecides(commands: seq<L.Command>, id: L.PlayerId)
    requires id in ObeyAll(commands)
    ensures Founder(commands, id) < |commands| && ObeyAll(commands)[id] == Offers(commands[Founder(commands, id)])
  {
    FounderIsAbout(commands, id, 0);
    OriginDecides(commands, 0, id);
    assert commands[0..] == commands;
  }

  // ------------------------------------------------------------ the adapter's relays

  lemma CommandRemembered(o: Options, before: seq<Event>, e: Event, commands: seq<L.Command>)
    requires ChangesRelays(e) && commands != [] && CarriesOut(e, commands[|commands| - 1])
    requires Forgotten(o, before) < |commands|
    requires SameRelays(AdapterTasks.Run(o, before), ObeyAll(commands[..|commands| - 1][Forgotten(o, before)..]))
    ensures SameRelays(Step(o, AdapterTasks.Run(o, before), e), ObeyAll(commands[Forgotten(o, before)..]))
  {
    var n, k := |commands| - 1, Forgotten(o, before);
    ObeySuffix(commands, k);
    CommandKeepsSameRelays(o, AdapterTasks.Run(o, before), e, ObeyAll(commands[..n][k..]), commands[n]);
  }

  lemma NothingRemembered(o: Options, a: Adapter, e: Event, commands: seq<L.Command>)
    requires LosesRelays(a, e)
    ensures SameRelays(Step(o, a, e), ObeyAll(commands[|commands|..]))
  {
    assert commands[|commands|..] == [];
  }

  /** An adapter has exactly the relays, with the roles, that the commands carried out since its
      game last disconnected amount to. */
  lemma {:induction false} AdapterHasLobbysRelays(o: Options, events: seq<Event>, commands: seq<L.Command>)
    requires Follows(events, commands)
    ensures Forgotten(o, events) <= |commands|
    ensures SameRelays(AdapterTasks.Run(o, events), ObeyAll(commands[Forgotten(o, events)..]))
    decreases |events|
  {
    FollowsLength(events, commands);
    if events != [] {
      var before, e := events[..|events| - 1], events[|events| - 1];
      if ChangesRelays(e) {
        AdapterHasLobbysRelays(o, before, commands[..|commands| - 1]);
        CommandRemembered(o, before, e, commands);
      } else if LosesRelays(AdapterTasks.Run(o, before), e) {
        NothingRemembered(o, AdapterTasks.Run(o, before), e, commands);
      } else {
        AdapterHasLobbysRelays(o, before, commands);
        OtherEventsKeepRelays(o, AdapterTasks.Run(o, before), e);
      }
    }
  }

  // --------------------------------------------------------------------- end to end

  /** Two distinct members of one game in a reachable state of the lobby. */
  ghost predicate Fellows(l: L.Lobby, a: L.PlayerId, b: L.PlayerId) {
    a != b && exists g :: g in l.games && a in l.games[g] && b in l.games[g]
  }

  lemma FellowsAreLinked(events: seq<M.Event>, a: L.PlayerId, b: L.PlayerId)
    requires Fellows(M.Run(events), a, b)
    ensures var out := M.Run(events).out;
            && b in ObeyAll(CommandsFor(out, a)) && a in ObeyAll(CommandsFor(out, b))
            && ObeyAll(CommandsFor(out, a))[b] != ObeyAll(CommandsFor(out, b))[a]
  {
    var l := M.Run(events);
    M.EveryGameIsAFullMesh(events);
    assert M.Linked(l.out, a, b);
    ViewIsObeyAll(l.out, a);
    ViewIsObeyAll(l.out, b);
  }

  /** The adapter of a member has a relay to a fellow member if and only if it has carried out some
      command about it since its game last disconnected. */
  lemma RelayToFellowIff(events: seq<M.Event>, a: Int32, b: Int32, o: Options, ea: seq<Event>)
    requires Fellows(M.Run(events), a, b) && Follows(ea, CommandsFor(M.Run(events).out, a))
    ensures b in AdapterTasks.Run(o, ea).relays <==> Recent(CommandsFor(M.Run(events).out, a), Forgotten(o, ea), b)
  {
    var commands := CommandsFor(M.Run(events).out, a);
    FellowsAreLinked(events, a, b);
    AdapterHasLobbysRelays(o, ea, commands);
    SuffixDecides(commands, Forgotten(o, ea), b);
  }

  /** What one member's adapter has for another, after everything it has carried out. */
  lemma RelayToFellow(events: seq<M.Event>, a: Int32, b: Int32, o: Options, ea: seq<Event>)
    requires Fellows(M.Run(events), a, b) && Follows(ea, CommandsFor(M.Run(events).out, a))
    ensures b in ObeyAll(CommandsFor(M.Run(events).out, a))
    ensures var commands, k, relays :=
              CommandsFor(M.Run(events).out, a), Forgotten(o, ea), AdapterTasks.Run(o, ea).relays;
            && (b in relays <==> Recent(commands, k, b))
            && (Recent(commands, k, b) ==> relays[b].offerer == Offers(commands[Origin(commands, k, b)]))
  {
    var commands, k := CommandsFor(M.Run(events).out, a), Forgotten(o, ea);
    FellowsAreLinked(events, a, b);
    RelayToFellowIff(events, a, b, o, ea);
    AdapterHasLobbysRelays(o, ea, commands);
    if Recent(commands, k, b) {
      OriginDecides(commands, k, b);
    }
  }

  /** Relays on both sides, exactly one of which offers. */
  predicate Paired(atA: map<Int32, Relay>, a: Int32, atB: map<Int32, Relay>, b: Int32) {
    b in atA && a in atB && atA[b].offerer != atB[a].offerer
  }

  /** End to end: the adapters of two members of one game have relays for each other, exactly one
      of which offers, if and only if each has carried out a command about the other since its game
      last disconnected, and of the commands that the two relays come from exactly one asks for an
      offer. */
  lemma AdaptersPairedIff(events: seq<M.Event>, a: Int32, b: Int32,
                          oa: Options, ea: seq<Event>, ob: Options, eb: seq<Event>)
    requires Fellows(M.Run(events), a, b)
    requires Follows(ea, CommandsFor(M.Run(events).out, a)) && Follows(eb, CommandsFor(M.Run(events).out, b))
    ensures b in ObeyAll(CommandsFor(M.Run(events).out, a)) && a in ObeyAll(CommandsFor(M.Run(events).out, b))
    ensures var forA, forB := CommandsFor(M.Run(events).out, a), CommandsFor(M.Run(events).out, b);
            var ka, kb := Forgotten(oa, ea), Forgotten(ob, eb);
            (Paired(AdapterTasks.Run(oa, ea).relays, a, AdapterTasks.Run(ob, eb).relays, b)
             <==> Recent(forA, ka, b) && Recent(forB, kb, a)
                  && Offers(forA[Origin(forA, ka, b)]) != Offers(forB[Origin(forB, kb, a)]))
  {
    RelayToFellow(events, a, b, oa, ea);
    RelayToFellow(events, b, a, ob, eb);
  }

  /** In particular, if neither game has disconnected since these relays were created. */
  lemma AdaptersFormMesh(events: seq<M.Event>, a: Int32, b: Int32,
                         oa: Options, ea: seq<Event>, ob: Options, eb: seq<Event>)
    requires Fellows(M.Run(events), a, b)
    requires Follows(ea, CommandsFor(M.Run(events).out, a)) && Follows(eb, CommandsFor(M.Run(events).out, b))
    requires FounderIsLeft(CommandsFor(M.Run(events).out, a), Forgotten(oa, ea), b)
    requires FounderIsLeft(CommandsFor(M.Run(events).out, b), Forgotten(ob, eb), a)
    ensures Paired(AdapterTasks.Run(oa, ea).relays, a, AdapterTasks.Run(ob, eb).relays, b)
  {
    var forA, forB := CommandsFor(M.Run(events).out, a), CommandsFor(M.Run(events).out, b);
    FellowsAreLinked(events, a, b);
    FounderIsAbout(forA, b, Forgotten(oa, ea));
    FounderIsAbout(forB, a, Forgotten(ob, eb));
    FounderDecides(forA, b);
    FounderDecides(forB, a);
    AdaptersPairedIff(events, a, b, oa, ea, ob, eb);
  }

  /** The proviso is needed: whatever has been carried out, a game that disconnects now takes all
      relays with it, and the lobby does not hear of it. */
  lemma DisconnectLosesMesh(o: Options, events: seq<Event>, commands: seq<L.Command>, game: Game)
    requires Follows(events, commands) && game in AdapterTasks.Run(o, events).games
    ensures Follows(events + [GameDisconnected(game)], commands)
    ensures AdapterTasks.Run(o, events + [GameDisconnected(game)]).relays == map[]
  {
    var longer := events + [GameDisconnected(game)];
    assert longer[..|longer| - 1] == events;
  }

  /** Once an adapter's queue has drained, its game has been told of exactly the peers that the
      commands since the last disconnect amount to. */
  lemma GameKnowsLobbysPeers(out: seq<L.Emission>, p: L.PlayerId, o: Options, events: seq<Event>, game: Game, id: Int32)
    requires Follows(events, CommandsFor(out, p)) && AdmissibleRun(o, events)
    requires game in AdapterTasks.Run(o, events).games && AdapterTasks.Run(o, events).tasks == []
    ensures Forgotten(o, events) <= |CommandsFor(out, p)|
    ensures id in Told(AdapterTasks.Run(o, events).games[game])
       <==> id in ObeyAll(CommandsFor(out, p)[Forgotten(o, events)..])
  {
    AdapterHasLobbysRelays(o, events, CommandsFor(out, p));
    DrainedQueueMeansAgreement(o, events, game);
  }

  /** From the lobby's requests to the game: once a member's queue has drained, its game has been
      told of a fellow member if and only if some command about it has come since the game
      connected and the one before it went. */
  lemma GameKnowsFellowIff(events: seq<M.Event>, a: Int32, b: Int32, o: Options, ea: seq<Event>, game: Game)
    requires Fellows(M.Run(events), a, b) && Follows(ea, CommandsFor(M.Run(events).out, a))
    requires AdmissibleRun(o, ea) && game in AdapterTasks.Run(o, ea).games && AdapterTasks.Run(o, ea).tasks == []
    ensures b in Told(AdapterTasks.Run(o, ea).games[game])
       <==> Recent(CommandsFor(M.Run(events).out, a), Forgotten(o, ea), b)
  {
    RelayToFellowIff(events, a, b, o, ea);
    DrainedQueueMeansAgreement(o, ea, game);
  }

  /** In particular, if no game has disconnected, of every fellow member. */
  lemma GameKnowsAllFellows(events: seq<M.Event>, a: Int32, b: Int32, o: Options, ea: seq<Event>, game: Game)
    requires Fellows(M.Run(events), a, b) && Follows(ea, CommandsFor(M.Run(events).out, a))
    requires forall i :: 0 <= i < |ea| ==> !ea[i].GameDisconnected?
    requires AdmissibleRun(o, ea) && game in AdapterTasks.Run(o, ea).games && AdapterTasks.Run(o, ea).tasks == []
    ensures b in Told(AdapterTasks.Run(o, ea).games[game])
  {
    var commands := CommandsFor(M.Run(events).out, a);
    NothingForgotten(o, ea);
    FellowsAreLinked(events, a, b);
    SuffixDecides(commands, 0, b);
    assert commands[0..] == commands;
    GameKnowsFellowIff(events, a, b, o, ea, game);
  }

  lemma {:induction false} NothingForgotten(o: Options, events: seq<Event>)
    requires forall i :: 0 <= i < |events| ==> !events[i].GameDisconnected?
    ensures Forgotten(o, events) == 0
  {
    if events != [] {
      NothingForgotten(o, events[..|events| - 1]);
    }
  }
}
