/** What the lobby server's commands add up to at the players' adapters: every run keeps each
    game a full mesh of peer connections with exactly one offerer per pair. */
module LobbyMesh {
  import opened Bytes
  import opened LobbyTables
  import opened Order

  // ------------------------------------------------------------------- adapters

  /** The relay table of an adapter: the remote player's id, and whether this side offers. */
  type Relays = map<PlayerId, bool>

  /** A command carried out by an adapter. An existing relay is kept; a disconnect removes it. */
  function Obey(relays: Relays, c: Command): Relays {
    match c
    case JoinGame(_, id) => if id in relays then relays else relays[id := false]
    case ConnectToPeer(_, id, offer) => if id in relays then relays else relays[id := offer]
    case DisconnectFromPeer(id) => relays - {id}
    case _ => relays
  }

  predicate For(e: Emission, p: PlayerId) {
    e.Unicast? && e.player == Some(p)
  }

  /** Player p's relay table after everything sent to it. */
  function View(out: seq<Emission>, p: PlayerId): Relays {
    if out == [] then map[]
    else
      var before := View(out[..|out| - 1], p);
      var e := out[|out| - 1];
      if For(e, p) then Obey(before, e.command) else before
  }

  lemma ViewNext(out: seq<Emission>, e: Emission, p: PlayerId)
    ensures View(out + [e], p) == if For(e, p) then Obey(View(out, p), e.command) else View(out, p)
  {
    assert (out + [e])[..|out|] == out;
  }

  /** Both sides have the relay, and exactly one of them is the offerer. */
  predicate Linked(out: seq<Emission>, a: PlayerId, b: PlayerId) {
    && b in View(out, a) && a in View(out, b)
    && View(out, a)[b] != View(out, b)[a]
  }

  /** Relays exist in pairs, with opposite roles; nobody has a relay to itself. */
  ghost predicate Symmetric(out: seq<Emission>) {
    && (forall a, b :: b in View(out, a) ==> Linked(out, a, b))
    && (forall a :: a !in View(out, a))
  }

  /** Any two distinct members of a game are linked. */
  ghost predicate FullMesh(l: Lobby) {
    forall g, a, b :: g in l.games && a in l.games[g] && b in l.games[g] && a != b ==> Linked(l.out, a, b)
  }

  /** Only game lists ever go out to every socket. */
  predicate NothingPrivateBroadcast(out: seq<Emission>) {
    forall i :: 0 <= i < |out| && out[i].Broadcast? ==> out[i].command.GameList?
  }

  ghost predicate Meshed(l: Lobby) {
    Symmetric(l.out) && FullMesh(l) && NothingPrivateBroadcast(l.out)
  }

  // ----------------------------------------------------- commands sent in pairs

  /** The links of `out` and, if `joined`, one between a and b. */
  ghost predicate LinksOf(out: seq<Emission>, out': seq<Emission>, a: PlayerId, b: PlayerId, joined: bool) {
    forall x, y :: Linked(out', x, y) <==>
        if (x == a && y == b) || (x == b && y == a) then joined else Linked(out, x, y)
  }

  /** Only the tables of a and b change when e1 goes to a and e2 to b. */
  lemma ViewAfterPair(out: seq<Emission>, e1: Emission, e2: Emission, a: PlayerId, b: PlayerId)
    requires For(e1, a) && For(e2, b) && a != b
    ensures forall x :: View(out + [e1] + [e2], x) ==
                        if x == a then Obey(View(out, a), e1.command)
                        else if x == b then Obey(View(out, b), e2.command)
                        else View(out, x)
  {
    forall x
      ensures View(out + [e1] + [e2], x) ==
              if x == a then Obey(View(out, a), e1.command)
              else if x == b then Obey(View(out, b), e2.command)
              else View(out, x)
    {
      ViewNext(out, e1, x);
      ViewNext(out + [e1], e2, x);
    }
  }

  lemma PairLinks(out: seq<Emission>, e1: Emission, e2: Emission, a: PlayerId, b: PlayerId)
    requires Symmetric(out) && a != b
    requires For(e1, a) && e1.command.ConnectToPeer? && e1.command.id == b && e1.command.offer
    requires For(e2, b)
    requires (e2.command.JoinGame? && e2.command.id == a)
          || (e2.command.ConnectToPeer? && e2.command.id == a && !e2.command.offer)
    ensures Symmetric(out + [e1] + [e2]) && LinksOf(out, out + [e1] + [e2], a, b, true)
  {
    ViewAfterPair(out, e1, e2, a, b);
  }

  lemma PairUnlinks(out: seq<Emission>, e1: Emission, e2: Emission, a: PlayerId, b: PlayerId)
    requires Symmetric(out) && a != b
    requires For(e1, a) && e1.command == DisconnectFromPeer(b)
    requires For(e2, b) && e2.command == DisconnectFromPeer(a)
    ensures Symmetric(out + [e1] + [e2]) && LinksOf(out, out + [e1] + [e2], a, b, false)
  {
    ViewAfterPair(out, e1, e2, a, b);
  }

  predicate Neutral(e: Emission) {
    e.Broadcast? || e.command.GameList? || e.command.HostLeft? || e.command.HostGame? || e.command.IceMsg?
  }

  lemma NeutralKeeps(out: seq<Emission>, e: Emission)
    requires Symmetric(out) && Neutral(e)
    ensures Symmetric(out + [e])
    ensures forall x, y :: Linked(out + [e], x, y) <==> Linked(out, x, y)
  {
    forall x
      ensures View(out + [e], x) == View(out, x)
    {
      ViewNext(out, e, x);
    }
  }

  // --------------------------------------------------------- whole batches of mail

  lemma {:induction false} HostLeftKeeps(l: Lobby, out: seq<Emission>, host: PlayerId, fellows: seq<PlayerId>)
    requires Symmetric(out) && NothingPrivateBroadcast(out)
    requires Addressable(l, HostLeftMail(host, fellows))
    ensures var after := out + Stamps(l, HostLeftMail(host, fellows));
            Symmetric(after) && NothingPrivateBroadcast(after)
            && forall x, y :: Linked(after, x, y) <==> Linked(out, x, y)
    decreases |fellows|
  {
    var ms := HostLeftMail(host, fellows);
    if fellows == [] {
      assert out + Stamps(l, ms) == out;
    } else {
      var e := Stamp(l, ms[0]);
      NeutralKeeps(out, e);
      assert ms[1..] == HostLeftMail(host, fellows[1..]);
      HostLeftKeeps(l, out + [e], host, fellows[1..]);
      Associate(out, [e], Stamps(l, ms[1..]));
    }
  }

  lemma {:induction false} UnpairUnlinks(l: Lobby, out: seq<Emission>, p: PlayerId, fellows: seq<PlayerId>)
    requires Symmetric(out) && NothingPrivateBroadcast(out)
    requires Addressable(l, UnpairMail(p, fellows))
    ensures var after := out + Stamps(l, UnpairMail(p, fellows));
            Symmetric(after) && NothingPrivateBroadcast(after)
            && forall x, y :: Linked(after, x, y) <==>
                 Linked(out, x, y) && !(x == p && y in fellows) && !(y == p && x in fellows)
    decreases |fellows|
  {
    var ms := UnpairMail(p, fellows);
    if fellows == [] {
      assert out + Stamps(l, ms) == out;
    } else if fellows[0] == p {
      UnpairUnlinks(l, out, p, fellows[1..]);
      assert !Linked(out, p, p);
    } else {
      var f := fellows[0];
      var e1, e2 := Stamp(l, ms[0]), Stamp(l, ms[1]);
      PairUnlinks(out, e1, e2, f, p);
      assert ms[2..] == UnpairMail(p, fellows[1..]) && ms[1..][1..] == ms[2..];
      assert Stamps(l, ms) == [e1] + ([e2] + Stamps(l, ms[2..]));
      UnpairUnlinks(l, out + [e1] + [e2], p, fellows[1..]);
      Associate(out, [e1], [e2] + Stamps(l, ms[2..]));
      Associate(out + [e1], [e2], Stamps(l, ms[2..]));
    }
  }

  lemma {:induction false} PairMailLinks(logins: map<PlayerId, string>, at: Lobby, out: seq<Emission>,
                                         p: PlayerId, host: PlayerId, fellows: seq<PlayerId>)
    requires Symmetric(out) && NothingPrivateBroadcast(out)
    requires p in logins && forall x :: x in fellows ==> x in logins
    requires Addressable(at, PairMail(logins, p, host, fellows))
    ensures var after := out + Stamps(at, PairMail(logins, p, host, fellows));
            Symmetric(after) && NothingPrivateBroadcast(after)
            && forall x, y :: Linked(after, x, y) <==>
                 Linked(out, x, y)
                 || (x == p && y in fellows && y != p && y != host)
                 || (y == p && x in fellows && x != p && x != host)
    decreases |fellows|
  {
    var ms := PairMail(logins, p, host, fellows);
    if fellows == [] {
      assert out + Stamps(at, ms) == out;
    } else if fellows[0] == p || fellows[0] == host {
      PairMailLinks(logins, at, out, p, host, fellows[1..]);
    } else {
      var f := fellows[0];
      var e1, e2 := Stamp(at, ms[0]), Stamp(at, ms[1]);
      PairLinks(out, e1, e2, f, p);
      assert ms[2..] == PairMail(logins, p, host, fellows[1..]) && ms[1..][1..] == ms[2..];
      assert Stamps(at, ms) == [e1] + ([e2] + Stamps(at, ms[2..]));
      PairMailLinks(logins, at, out + [e1] + [e2], p, host, fellows[1..]);
      Associate(out, [e1], [e2] + Stamps(at, ms[2..]));
      Associate(out + [e1], [e2], Stamps(at, ms[2..]));
    }
  }

  // ------------------------------------------------------------------- requests

  lemma GamelistKeeps(l: Tables)
    requires Meshed(l)
    ensures Meshed(SendGamelist(l))
  {
    NeutralKeeps(l.out, Broadcast(GameList(GameNames(l))));
  }

  lemma EndHostedKeeps(l: Tables, p: PlayerId)
    requires Meshed(l)
    ensures Meshed(EndHosted(l, p))
  {
    if p in l.games {
      var fellows := Ascending(l.games[p]);
      FellowsAddressable(l, p);
      HostLeftKeeps(l, l.out, p, fellows);
      GamelistKeeps(Post(l, HostLeftMail(p, fellows)).(games := l.games - {p}));
    }
  }

  /** Leaving takes down exactly the links between p and the members of the game it names. */
  lemma LeaveJoinedUnlinks(l: Tables, p: PlayerId)
    requires Meshed(l) && p !in l.games
    ensures Meshed(LeaveJoined(l, p))
    ensures LinksRemoved(l.out, LeaveJoined(l, p).out, p,
                         if p in l.playersGames && l.playersGames[p] in l.games
                         then l.games[l.playersGames[p]] else {})
  {
    if p in l.playersGames && l.playersGames[p] in l.games {
      FellowsAddressable(l, p);
      UnpairUnlinks(l, l.out, p, Ascending(l.games[l.playersGames[p]]));
    }
  }

  lemma LeaveKeeps(l: Tables, p: PlayerId)
    requires Meshed(l)
    ensures Meshed(Leave(l, p))
  {
    EndHostedKeeps(l, p);
    LeaveJoinedUnlinks(EndHosted(l, p), p);
  }

  lemma AloneKeeps(l: Lobby, m: Mail)
    requires Meshed(l) && Addressable(l, [m])
    requires m.command.HostGame? || m.command.IceMsg?
    ensures Meshed(Post(l, [m]))
  {
    assert [m][0].player in l.playerSockets && [m][1..] == [];
    assert Stamps(l, [m]) == [Stamp(l, m)];
    NeutralKeeps(l.out, Stamp(l, m));
  }

  lemma HostingKeeps(l: Tables, p: PlayerId)
    requires Meshed(l) && p in l.logins && p !in l.playersGames && p !in l.games
    ensures Meshed(SendGamelist(Post(Hosting(l, p), [Mail(p, HostGame)])))
  {
    AloneKeeps(Hosting(l, p), Mail(p, HostGame));
    GamelistKeeps(Post(Hosting(l, p), [Mail(p, HostGame)]));
  }

  lemma HostKeeps(l: Tables, s: Socket)
    requires Meshed(l) && s in l.sockets
    ensures Meshed(Host(l, s))
  {
    if s in l.socketPlayers {
      var p := l.socketPlayers[s];
      LeaveKeeps(l, p);
      HostingKeeps(Leave(l, p), p);
    }
  }

  lemma HostMailLinks(l: Lobby, p: PlayerId, host: PlayerId)
    requires Symmetric(l.out) && NothingPrivateBroadcast(l.out) && p != host
    requires p in l.logins && host in l.logins && Addressable(l, HostMail(l.logins, p, host))
    ensures var after := Post(l, HostMail(l.logins, p, host)).out;
            Symmetric(after) && NothingPrivateBroadcast(after) && LinksOf(l.out, after, host, p, true)
  {
    var first := HostMail(l.logins, p, host);
    var e1, e2 := Stamp(l, first[0]), Stamp(l, first[1]);
    assert first[1..][1..] == [];
    assert Stamps(l, first) == [e1, e2];
    assert l.out + [e1, e2] == l.out + [e1] + [e2];
    PairLinks(l.out, e1, e2, host, p);
  }

  /** The links of `out`, and those between p and the members given. */
  ghost predicate LinksAdded(out: seq<Emission>, after: seq<Emission>, p: PlayerId, members: set<PlayerId>) {
    forall x, y :: Linked(after, x, y) <==>
        Linked(out, x, y) || (x == p && y in members) || (y == p && x in members)
  }

  /** The links of `out`, without those between p and the members given. */
  ghost predicate LinksRemoved(out: seq<Emission>, after: seq<Emission>, p: PlayerId, members: set<PlayerId>) {
    forall x, y :: Linked(after, x, y) <==>
        Linked(out, x, y) && !(x == p && y in members) && !(y == p && x in members)
  }

  lemma LinksComposed(out0: seq<Emission>, out1: seq<Emission>, out2: seq<Emission>,
                      p: PlayerId, host: PlayerId, members: set<PlayerId>, fellows: seq<PlayerId>)
    requires host in members && p !in members
    requires forall x :: x in fellows <==> x in members || x == p
    requires LinksOf(out0, out1, host, p, true)
    requires forall x, y :: Linked(out2, x, y) <==>
               Linked(out1, x, y)
               || (x == p && y in fellows && y != p && y != host)
               || (y == p && x in fellows && x != p && x != host)
    ensures LinksAdded(out0, out2, p, members)
  {
  }

  /** The commands of "joinGame" add exactly the links between p and the members of the game. */
  lemma JoinCommandsLink(l: Lobby, p: PlayerId, host: PlayerId, members: set<PlayerId>, fellows: seq<PlayerId>)
    requires Symmetric(l.out) && NothingPrivateBroadcast(l.out)
    requires p in l.logins && host in members && p !in members
    requires forall x :: x in fellows <==> x in members || x == p
    requires forall x :: x in fellows ==> x in l.logins && x in l.playerSockets
    ensures host in l.logins
    ensures var first := HostMail(l.logins, p, host);
            var others := PairMail(l.logins, p, host, fellows);
            Addressable(l, first) && Addressable(Post(l, first), others)
            && var after := Post(Post(l, first), others).out;
               Symmetric(after) && NothingPrivateBroadcast(after) && LinksAdded(l.out, after, p, members)
  {
    assert p in fellows && host in fellows;
    HostMailLinks(l, p, host);
    var first := Post(l, HostMail(l.logins, p, host));
    PairMailLinks(l.logins, first, first.out, p, host, fellows);
    LinksComposed(l.out, first.out, Post(first, PairMail(l.logins, p, host, fellows)).out, p, host, members, fellows);
  }

  /** Entering a game adds exactly the links between the new member and those already there. */
  lemma EnterLinks(l: Tables, p: PlayerId, host: PlayerId)
    requires Meshed(l)
    requires p in l.logins && p !in l.playersGames && host in l.games
    ensures var after := Enter(l, p, host).out;
            Symmetric(after) && NothingPrivateBroadcast(after) && LinksAdded(l.out, after, p, l.games[host])
  {
    var joined := Joined(l, p, host);
    var fellows := Ascending(joined.games[host]);
    assert forall x :: x in joined.games[host] ==> x in l.logins && x in l.playerSockets;
    JoinCommandsLink(joined, p, host, l.games[host], fellows);
  }

  lemma EnterKeeps(l: Tables, p: PlayerId, host: PlayerId)
    requires Meshed(l)
    requires p in l.logins && p !in l.playersGames && host in l.games
    ensures Meshed(Enter(l, p, host))
  {
    EnterLinks(l, p, host);
  }

  lemma JoinKeeps(l: Tables, s: Socket, host: Arg)
    requires Meshed(l) && s in l.sockets
    ensures Meshed(Join(l, s, host))
  {
    if s in l.socketPlayers && !host.Missing? {
      var p := l.socketPlayers[s];
      LeaveKeeps(l, p);
      if host.Int? && host.value in Leave(l, p).games {
        EnterKeeps(Leave(l, p), p, host.value);
      }
    }
  }

  lemma SendIceKeeps(l: Tables, s: Socket, remote: Arg, message: string)
    requires Meshed(l) && s in l.socketPlayers
    ensures Meshed(SendIce(l, s, remote, message))
  {
    if remote.Int? && remote.value in l.playerSockets {
      AloneKeeps(l, Mail(remote.value, IceMsg(l.socketPlayers[s], message)));
    }
  }

  // ----------------------------------------------------------------------- runs

  datatype Event =
    | Opened(s: Socket)
    | Closed(s: Socket)
    | LoginRequest(s: Socket, name: NameArg)
    | ReconnectRequest(s: Socket, id: Arg)
    | HostRequest(s: Socket)
    | LeaveRequest(s: Socket)
    | JoinRequest(s: Socket, host: Arg)
    | IceRequest(s: Socket, remote: Arg, message: string)

  /** Requests come from connected sockets; ICE messages from players that are logged in. */
  predicate Possible(l: Lobby, e: Event) {
    match e
    case Opened(s) => s !in l.sockets
    case IceRequest(s, _, _) => s in l.socketPlayers
    case _ => e.s in l.sockets
  }

  ghost function Step(l: Tables, e: Event): (r: Tables)
  {
    if !Possible(l, e) then l
    else
      match e
      case Opened(s) => Open(l, s)
      case Closed(s) => Close(l, s)
      case LoginRequest(s, name) => Login(l, s, name)
      case ReconnectRequest(s, id) => Reconnect(l, s, id)
      case HostRequest(s) => Host(l, s)
      case LeaveRequest(s) => LeaveGame(l, s)
      case JoinRequest(s, host) => Join(l, s, host)
      case IceRequest(s, remote, message) => SendIce(l, s, remote, message)
  }

  /** The server after any sequence of events; impossible events are passed over. */
  ghost function Run(events: seq<Event>): Tables {
    if events == [] then EMPTY else Step(Run(events[..|events| - 1]), events[|events| - 1])
  }

  lemma StepKeeps(l: Tables, e: Event)
    requires Meshed(l)
    ensures Meshed(Step(l, e))
  {
    if Possible(l, e) {
      match e
      case Opened(s) =>
      case Closed(s) => if s in l.socketPlayers { LeaveKeeps(l, l.socketPlayers[s]); }
      case LoginRequest(s, name) =>
      case ReconnectRequest(s, id) =>
      case HostRequest(s) => HostKeeps(l, s);
      case LeaveRequest(s) => if s in l.socketPlayers { LeaveKeeps(l, l.socketPlayers[s]); }
      case JoinRequest(s, host) => JoinKeeps(l, s, host);
      case IceRequest(s, remote, message) => SendIceKeeps(l, s, remote, message);
    }
  }

  /** In every reachable state relays exist on both sides or on neither, with exactly one offerer
      per pair, every game is a full mesh, and no player's command was ever broadcast. */
  lemma {:induction false} EveryGameIsAFullMesh(events: seq<Event>)
    ensures Meshed(Run(events))
  {
    if events == [] {
    } else {
      EveryGameIsAFullMesh(events[..|events| - 1]);
      StepKeeps(Run(events[..|events| - 1]), events[|events| - 1]);
    }
  }

  // ----------------------------------------------------------- across requests

  lemma AddedThenRemoved(out0: seq<Emission>, out1: seq<Emission>, out2: seq<Emission>,
                         p: PlayerId, members: set<PlayerId>)
    requires !Linked(out0, p, p)
    requires LinksAdded(out0, out1, p, members) && LinksRemoved(out1, out2, p, members + {p})
    ensures LinksRemoved(out0, out2, p, members)
  {
  }

  /** A player who leaves right after joining undoes the join: all tables are as before, and so
      are all links but those (left over from earlier games) between the player and the members. */
  lemma LeavingUndoesJoining(l: Tables, p: PlayerId, host: PlayerId)
    requires Meshed(l)
    requires p in l.logins && p !in l.playersGames && host in l.games
    ensures var after := Leave(Enter(l, p, host), p);
            after == l.(out := after.out) && LinksRemoved(l.out, after.out, p, l.games[host])
  {
    EntersAndLeaves(l, p, host);
    LeavingUnlinks(l, p, host);
  }

  lemma LeavingUnlinks(l: Tables, p: PlayerId, host: PlayerId)
    requires Meshed(l)
    requires p in l.logins && p !in l.playersGames && host in l.games
    ensures p !in Enter(l, p, host).games
    ensures LinksRemoved(l.out, LeaveJoined(Enter(l, p, host), p).out, p, l.games[host])
  {
    EnterTables(l, p, host);
    EnterLinks(l, p, host);
    EnterKeeps(l, p, host);
    UnlinksEntered(l.out, Enter(l, p, host), p, host, l.games[host]);
  }

  lemma UnlinksEntered(out: seq<Emission>, entered: Tables, p: PlayerId, host: PlayerId, members: set<PlayerId>)
    requires Meshed(entered) && !Linked(out, p, p) && LinksAdded(out, entered.out, p, members)
    requires p !in entered.games && p in entered.playersGames && entered.playersGames[p] == host
    requires host in entered.games && entered.games[host] == members + {p}
    ensures LinksRemoved(out, LeaveJoined(entered, p).out, p, members)
  {
    LeaveJoinedUnlinks(entered, p);
    AddedThenRemoved(out, entered.out, LeaveJoined(entered, p).out, p, members);
  }

  lemma EnterTables(l: Tables, p: PlayerId, host: PlayerId)
    requires p in l.logins && p !in l.playersGames && host in l.games
    ensures var r := Enter(l, p, host);
            r == l.(games := l.games[host := l.games[host] + {p}],
                    playersGames := l.playersGames[p := host], out := r.out)
  {
    assert Joined(l, p, host).games[host] == l.games[host] + {p};
  }

  lemma LeaveTables(l: Tables, p: PlayerId, g: PlayerId)
    requires p !in l.games && p in l.playersGames && l.playersGames[p] == g && g in l.games
    ensures var r := LeaveJoined(l, p);
            r == l.(games := l.games[g := l.games[g] - {p}], playersGames := l.playersGames - {p}, out := r.out)
  {
  }

  lemma PutBack(l: Lobby, p: PlayerId, host: PlayerId)
    requires host in l.games && p !in l.games[host] && p !in l.playersGames
    ensures var games := l.games[host := l.games[host] + {p}];
            games[host := games[host] - {p}] == l.games && l.playersGames[p := host] - {p} == l.playersGames
  {
    assert l.games[host] + {p} - {p} == l.games[host];
  }

  lemma EntersAndLeaves(l: Tables, p: PlayerId, host: PlayerId)
    requires p in l.logins && p !in l.playersGames && host in l.games
    ensures var after := Leave(Enter(l, p, host), p);
            after == l.(out := after.out) && after == LeaveJoined(Enter(l, p, host), p)
  {
    EnterTables(l, p, host);
    InNoGame(l, p, host);
    LeavesEntered(l, Enter(l, p, host), p, host);
  }

  lemma InNoGame(l: Tables, p: PlayerId, host: PlayerId)
    requires p !in l.playersGames && host in l.games
    ensures p !in l.games && p !in l.games[host]
  {
  }

  lemma LeavesEntered(l: Lobby, entered: Tables, p: PlayerId, host: PlayerId)
    requires host in l.games && p !in l.games && p !in l.games[host] && p !in l.playersGames
    requires entered == l.(games := l.games[host := l.games[host] + {p}],
                           playersGames := l.playersGames[p := host], out := entered.out)
    ensures var after := Leave(entered, p);
            after == l.(out := after.out) && after == LeaveJoined(entered, p)
  {
    PutBack(l, p, host);
    LeaveTables(entered, p, host);
  }

  /** Closing a socket that a reconnect has replaced changes nothing but the set of sockets. */
  lemma LateCloseIsHarmless(l: Tables, s: Socket, id: PlayerId)
    requires s in l.sockets && s !in l.socketPlayers && id in l.playerSockets
    ensures var replaced := LobbyTables.Reconnect(l, s, Int(id));
            var stale := l.playerSockets[id];
            Close(replaced, stale) == replaced.(sockets := replaced.sockets - {stale})
            && replaced.playerSockets[id] == s && s in Close(replaced, stale).sockets
  {
  }

  lemma {:induction false} NamesOfHosts(logins: map<PlayerId, string>, hosts: set<PlayerId>)
    requires hosts <= logins.Keys
    requires forall p, q :: p in hosts && q in hosts && p != q ==> logins[p] != logins[q]
    ensures |set g | g in hosts :: logins[g]| == |hosts|
  {
    HasElement(hosts);
    if hosts != {} {
      var h :| h in hosts;
      var others := hosts - {h};
      NamesOfHosts(logins, others);
      assert (set g | g in hosts :: logins[g]) == (set g | g in others :: logins[g]) + {logins[h]};
      assert logins[h] !in set g | g in others :: logins[g];
    }
  }

  /** The game list has exactly one entry for each game. */
  lemma OneEntryPerGame(l: Tables)
    ensures |GameNames(l)| == |l.games|
    ensures forall g :: g in l.games ==> l.logins[g] in GameNames(l) && GameNames(l)[l.logins[g]] == g
  {
    assert forall g :: g in l.games ==> g in l.logins;
    NamesOfHosts(l.logins, l.games.Keys);
    assert GameNames(l).Keys == set g | g in l.games.Keys :: l.logins[g];
    assert |GameNames(l)| == |GameNames(l).Keys|;
  }

  lemma MemberFacts(l: Tables, g: PlayerId, p: PlayerId)
    requires g in l.games && p in l.games[g]
    ensures g in l.games[g]
    ensures p in l.logins && p in l.playerSockets && l.playerSockets[p] in l.sockets
    ensures forall g' :: g' in l.games && p in l.games[g'] ==> g' == g
  {
    assert p in l.playersGames && l.playersGames[p] == g;
  }

  /** In every reachable state every member of a game is logged in on a connected socket and
      belongs to that game only, and the game contains its host. */
  lemma MembersOfReachableGames(events: seq<Event>, g: PlayerId, p: PlayerId)
    requires g in Run(events).games && p in Run(events).games[g]
    ensures var l := Run(events);
            && g in l.games[g]
            && p in l.logins && p in l.playerSockets && l.playerSockets[p] in l.sockets
            && forall g' :: g' in l.games && p in l.games[g'] ==> g' == g
  {
    MemberFacts(Run(events), g, p);
  }

  lemma PlayerFacts(l: Tables, p: PlayerId, q: PlayerId)
    requires p in l.playerSockets && q in l.playerSockets && p != q
    ensures l.playerSockets[p] != l.playerSockets[q]
    ensures p in l.logins && q in l.logins && l.logins[p] != l.logins[q]
  {
  }

  /** In every reachable state different players have different sockets and different logins. */
  lemma PlayersAreDistinct(events: seq<Event>, p: PlayerId, q: PlayerId)
    requires p in Run(events).playerSockets && q in Run(events).playerSockets && p != q
    ensures var l := Run(events);
            && l.playerSockets[p] != l.playerSockets[q]
            && p in l.logins && q in l.logins && l.logins[p] != l.logins[q]
  {
    PlayerFacts(Run(events), p, q);
  }
}
