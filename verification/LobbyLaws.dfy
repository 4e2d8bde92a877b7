/** What the lobby server's requests mean for the players: who is logged out and unlinked when a
    socket closes, what the list of games says, whom commands name, and who is told what. */
module LobbyLaws {
  import opened Bytes
  import opened Decimal
  import opened LobbyTables
  import opened LobbyMesh
  import opened Order

  // ------------------------------------------------------------ leaving and closing

  /** The members of the game that p has joined, without having opened it. */
  ghost function Joiners(l: Tables, p: PlayerId): set<PlayerId> {
    if p in l.playersGames && l.playersGames[p] in l.games && p !in l.games then l.games[l.playersGames[p]] else {}
  }

  lemma EndHostedTables(l: Tables, p: PlayerId)
    ensures var r := EndHosted(l, p); r == l.(games := l.games - {p}, out := r.out)
  {
    assert p !in l.games ==> l.games - {p} == l.games;
  }

  lemma LeaveJoinedTables(l: Tables, p: PlayerId)
    requires p !in l.games
    ensures var r := LeaveJoined(l, p);
            && r.playersGames == l.playersGames - {p} && r.games.Keys == l.games.Keys
            && (forall g :: g in l.games ==> r.games[g] == l.games[g] - {p})
            && r == l.(games := r.games, playersGames := r.playersGames, out := r.out)
  {
    if p !in l.playersGames {
      assert l.playersGames - {p} == l.playersGames;
    }
    forall g | g in l.games && p !in l.games[g] ensures l.games[g] - {p} == l.games[g] {
    }
  }

  /** Leaving takes a player out of all games, ends its own, and changes nothing else. */
  lemma LeaveTakesOut(l: Tables, p: PlayerId)
    ensures var r := Leave(l, p);
            && r.playersGames == l.playersGames - {p} && r.games.Keys == l.games.Keys - {p}
            && (forall g :: g in r.games ==> r.games[g] == l.games[g] - {p})
            && r == l.(games := r.games, playersGames := r.playersGames, out := r.out)
  {
    EndHostedTables(l, p);
    LeaveJoinedTables(EndHosted(l, p), p);
  }

  /** When the socket of a player closes, the player is forgotten with it, in every table, and
      everybody else is as before. */
  lemma CloseLogsOut(l: Tables, s: Socket)
    requires s in l.socketPlayers
    ensures var p, r := l.socketPlayers[s], Close(l, s);
            && r.sockets == l.sockets - {s} && r.socketPlayers == l.socketPlayers - {s}
            && r.playerSockets == l.playerSockets - {p} && r.logins == l.logins - {p}
            && r.playersGames == l.playersGames - {p} && r.games.Keys == l.games.Keys - {p}
            && (forall g :: g in r.games ==> r.games[g] == l.games[g] - {p})
            && r.nextId == l.nextId
  {
    LeaveTakesOut(l, l.socketPlayers[s]);
  }

  lemma EndHostedLinks(l: Tables, p: PlayerId)
    requires Meshed(l)
    ensures Meshed(EndHosted(l, p))
    ensures forall x, y :: Linked(EndHosted(l, p).out, x, y) <==> Linked(l.out, x, y)
  {
    EndHostedKeeps(l, p);
    if p in l.games {
      FellowsAddressable(l, p);
      ToldLinks(l, p, Ascending(l.games[p]));
    }
  }

  lemma ToldLinks(l: Lobby, p: PlayerId, fellows: seq<PlayerId>)
    requires Symmetric(l.out) && NothingPrivateBroadcast(l.out) && Addressable(l, HostLeftMail(p, fellows))
    ensures forall e, x, y :: Neutral(e) ==>
              (Linked(l.out + Stamps(l, HostLeftMail(p, fellows)) + [e], x, y) <==> Linked(l.out, x, y))
  {
    var told := l.out + Stamps(l, HostLeftMail(p, fellows));
    HostLeftKeeps(l, l.out, p, fellows);
    forall e: Emission | Neutral(e) ensures forall x, y :: Linked(told + [e], x, y) <==> Linked(told, x, y) {
      NeutralKeeps(told, e);
    }
  }

  /** Leaving unlinks a player from those in the game it has joined, and nobody else. */
  lemma LeaveUnlinks(l: Tables, p: PlayerId)
    requires Meshed(l)
    ensures LinksRemoved(l.out, Leave(l, p).out, p, Joiners(l, p))
  {
    EndHostedTables(l, p);
    EndHostedLinks(l, p);
    LeaveJoinedUnlinks(EndHosted(l, p), p);
    assert p in l.games ==> p in l.playersGames && l.playersGames[p] == p;
  }

  /** So does the closing of its socket. */
  lemma CloseUnlinks(l: Tables, s: Socket)
    requires Meshed(l) && s in l.socketPlayers
    ensures LinksRemoved(l.out, Close(l, s).out, l.socketPlayers[s], Joiners(l, l.socketPlayers[s]))
  {
    LeaveUnlinks(l, l.socketPlayers[s]);
  }

  /** Every member of a game that ends is told whose it was. */
  lemma HostLeftIsTold(l: Tables, p: PlayerId, x: PlayerId)
    requires p in l.games && x in l.games[p]
    ensures x in l.playerSockets
    ensures Unicast(l.playerSockets[x], Some(x), HostLeft(p)) in EndHosted(l, p).out[|l.out|..]
  {
    var fellows := Ascending(l.games[p]);
    FellowsAddressable(l, p);
    var ms := HostLeftMail(p, fellows);
    assert x in fellows;
    EveryFellow(l, p, fellows, x);
    assert EndHosted(l, p).out[|l.out|..] == Stamps(l, ms) + EndHosted(l, p).out[|l.out| + |ms|..];
  }

  lemma {:induction false} EveryFellow(l: Lobby, p: PlayerId, fellows: seq<PlayerId>, x: PlayerId)
    requires Addressable(l, HostLeftMail(p, fellows)) && x in fellows
    ensures x in l.playerSockets
    ensures Unicast(l.playerSockets[x], Some(x), HostLeft(p)) in Stamps(l, HostLeftMail(p, fellows))
  {
    var ms := HostLeftMail(p, fellows);
    assert ms[0] == Mail(fellows[0], HostLeft(p)) && ms[1..] == HostLeftMail(p, fellows[1..]);
    if x != fellows[0] {
      EveryFellow(l, p, fellows[1..], x);
    }
  }

  // --------------------------------------------------------------- the list of games

  /** The games in the last list that went to all sockets. */
  function LastList(out: seq<Emission>): map<string, PlayerId> {
    if out == [] then map[]
    else
      match out[|out| - 1]
      case Broadcast(GameList(games)) => games
      case _ => LastList(out[..|out| - 1])
  }

  lemma {:induction false} MailKeepsList(out: seq<Emission>, l: Lobby, ms: seq<Mail>)
    requires Addressable(l, ms)
    ensures LastList(out + Stamps(l, ms)) == LastList(out)
    decreases |ms|
  {
    if ms == [] {
      assert out + Stamps(l, ms) == out;
    } else {
      var e := Stamp(l, ms[0]);
      Associate(out, [e], Stamps(l, ms[1..]));
      MailKeepsList(out + [e], l, ms[1..]);
      assert (out + [e])[..|out|] == out;
    }
  }

  /** Everybody has the right list. */
  ghost predicate Listed(l: Tables) {
    LastList(l.out) == GameNames(l)
  }

  lemma SendingLists(l: Tables)
    ensures Listed(SendGamelist(l))
  {
  }

  /** The list stays right while the hosts and their logins stay. */
  lemma StaysListed(l: Tables, r: Tables)
    requires Listed(l) && LastList(r.out) == LastList(l.out) && r.games.Keys == l.games.Keys
    requires forall g :: g in l.games && g in l.logins ==> g in r.logins && r.logins[g] == l.logins[g]
    ensures Listed(r)
  {
    assert forall g :: g in l.games ==> g in l.logins;
    assert GameNames(r) == GameNames(l);
  }

  /** The lobby when the members have been told, before the new list goes out. */
  lemma EndedGame(l: Tables, p: PlayerId) returns (t: Tables)
    requires p in l.games
    ensures p in l.logins && Addressable(l, HostLeftMail(p, Ascending(l.games[p])))
    ensures t == Post(l, HostLeftMail(p, Ascending(l.games[p]))).(games := l.games - {p})
    ensures EndHosted(l, p) == SendGamelist(t)
  {
    FellowsAddressable(l, p);
    t := Post(l, HostLeftMail(p, Ascending(l.games[p]))).(games := l.games - {p});
  }

  lemma EndHostedLists(l: Tables, p: PlayerId)
    requires Listed(l)
    ensures Listed(EndHosted(l, p))
  {
    if p in l.games {
      var t := EndedGame(l, p);
      SendingLists(t);
    }
  }

  lemma LeaveJoinedLists(l: Tables, p: PlayerId)
    requires Listed(l) && p !in l.games
    ensures Listed(LeaveJoined(l, p))
  {
    LeaveJoinedTables(l, p);
    FellowsAddressable(l, p);
    if p in l.playersGames && l.playersGames[p] in l.games {
      MailKeepsList(l.out, l, UnpairMail(p, Ascending(l.games[l.playersGames[p]])));
    }
    StaysListed(l, LeaveJoined(l, p));
  }

  lemma LeaveLists(l: Tables, p: PlayerId)
    requires Listed(l)
    ensures Listed(Leave(l, p))
  {
    EndHostedTables(l, p);
    EndHostedLists(l, p);
    LeaveJoinedLists(EndHosted(l, p), p);
  }

  lemma MailStaysListed(l: Tables, ms: seq<Mail>)
    requires Listed(l) && Addressable(l, ms)
    ensures Listed(Post(l, ms))
  {
    MailKeepsList(l.out, l, ms);
    StaysListed(l, Post(l, ms));
  }

  lemma HostedLists(l: Tables, p: PlayerId)
    requires p in l.logins && p !in l.playersGames && p !in l.games
    ensures Listed(SendGamelist(Post(Hosting(l, p), [Mail(p, HostGame)])))
  {
    SendingLists(Post(Hosting(l, p), [Mail(p, HostGame)]));
  }

  lemma HostLists(l: Tables, s: Socket)
    requires Listed(l) && s in l.sockets
    ensures Listed(Host(l, s))
  {
    if s in l.socketPlayers {
      HostedLists(Leave(l, l.socketPlayers[s]), l.socketPlayers[s]);
    }
  }

  lemma JoinedLists(l: Tables, p: PlayerId, host: PlayerId)
    requires Listed(l) && p in l.logins && p !in l.playersGames && host in l.games
    ensures Listed(Joined(l, p, host))
  {
    assert Joined(l, p, host).games.Keys == l.games.Keys;
    StaysListed(l, Joined(l, p, host));
  }

  lemma EnterLists(l: Tables, p: PlayerId, host: PlayerId)
    requires Listed(l) && p in l.logins && p !in l.playersGames && host in l.games
    ensures Listed(Enter(l, p, host))
  {
    var joined := Joined(l, p, host);
    var first := HostMail(l.logins, p, host);
    JoinedLists(l, p, host);
    MailStaysListed(joined, first);
    MailStaysListed(Post(joined, first), PairMail(l.logins, p, host, Ascending(joined.games[host])));
  }

  lemma JoinLists(l: Tables, s: Socket, host: Arg)
    requires Listed(l) && s in l.sockets
    ensures Listed(Join(l, s, host))
  {
    if s in l.socketPlayers && !host.Missing? {
      var p := l.socketPlayers[s];
      LeaveLists(l, p);
      if host.Int? && host.value in Leave(l, p).games {
        EnterLists(Leave(l, p), p, host.value);
      }
    }
  }

  lemma CloseLists(l: Tables, s: Socket)
    requires Listed(l)
    ensures Listed(Close(l, s))
  {
    if s in l.socketPlayers {
      var p := l.socketPlayers[s];
      LeaveLists(l, p);
      StaysListed(Leave(l, p), LogOut(Leave(l, p), p, s));
    } else {
      StaysListed(l, Close(l, s));
    }
  }

  lemma IceLists(l: Tables, s: Socket, remote: Arg, message: string)
    requires Listed(l) && s in l.socketPlayers
    ensures Listed(SendIce(l, s, remote, message))
  {
    if remote.Int? && remote.value in l.playerSockets {
      MailStaysListed(l, [Mail(remote.value, IceMsg(l.socketPlayers[s], message))]);
    }
  }

  lemma LoginLists(l: Tables, s: Socket, name: NameArg)
    requires Listed(l) && s in l.sockets
    ensures Listed(Login(l, s, name))
  {
    StaysListed(l, Login(l, s, name));
  }

  lemma ReconnectLists(l: Tables, s: Socket, id: Arg)
    requires Listed(l) && s in l.sockets
    ensures Listed(Reconnect(l, s, id))
  {
    StaysListed(l, Reconnect(l, s, id));
  }

  lemma LeaveGameLists(l: Tables, s: Socket)
    requires Listed(l) && s in l.sockets
    ensures Listed(LeaveGame(l, s))
  {
    if s in l.socketPlayers {
      LeaveLists(l, l.socketPlayers[s]);
    }
  }

  lemma StepLists(l: Tables, e: Event)
    requires Listed(l)
    ensures Listed(Step(l, e))
  {
    if Possible(l, e) {
      match e
      case Opened(s) => StaysListed(l, Open(l, s));
      case Closed(s) => CloseLists(l, s);
      case LoginRequest(s, name) => LoginLists(l, s, name);
      case ReconnectRequest(s, id) => ReconnectLists(l, s, id);
      case HostRequest(s) => HostLists(l, s);
      case LeaveRequest(s) => LeaveGameLists(l, s);
      case JoinRequest(s, host) => JoinLists(l, s, host);
      case IceRequest(s, remote, message) => IceLists(l, s, remote, message);
    }
  }

  /** In every reachable state, the last list sent to all sockets names exactly the games there are,
      each under its host's login. */
  lemma {:induction false} GameListIsCurrent(events: seq<Event>)
    ensures Listed(Run(events))
  {
    if events == [] {
      assert GameNames(EMPTY) == map[];
    } else {
      GameListIsCurrent(events[..|events| - 1]);
      StepLists(Run(events[..|events| - 1]), events[|events| - 1]);
    }
  }

  // ----------------------------------------------------------------- whom commands name

  /** A command to connect names a player that has been there, by its login as long as it is. */
  predicate NamesPlayer(logins: map<PlayerId, string>, nextId: PlayerId, c: Command) {
    c.JoinGame? || c.ConnectToPeer? ==> c.id < nextId && (c.id in logins ==> logins[c.id] == c.login)
  }

  predicate AllName(logins: map<PlayerId, string>, nextId: PlayerId, out: seq<Emission>) {
    forall i :: 0 <= i < |out| ==> NamesPlayer(logins, nextId, out[i].command)
  }

  predicate MailNames(l: Lobby, ms: seq<Mail>) {
    forall i :: 0 <= i < |ms| ==> NamesPlayer(l.logins, l.nextId, ms[i].command)
  }

  predicate Named(l: Lobby) {
    AllName(l.logins, l.nextId, l.out)
  }

  lemma {:induction false} StampsName(l: Lobby, ms: seq<Mail>)
    requires Addressable(l, ms) && MailNames(l, ms)
    ensures AllName(l.logins, l.nextId, Stamps(l, ms))
  {
    if ms != [] {
      StampsName(l, ms[1..]);
    }
  }

  lemma PostNames(l: Lobby, ms: seq<Mail>)
    requires Addressable(l, ms) && MailNames(l, ms) && Named(l)
    ensures Named(Post(l, ms))
  {
    StampsName(l, ms);
  }

  /** A player logs out, or the next one logs in. */
  lemma StaysNamed(l: Lobby, r: Lobby)
    requires Named(l) && r.out == l.out && l.nextId <= r.nextId
    requires forall p :: p in r.logins && p < l.nextId ==> p in l.logins && r.logins[p] == l.logins[p]
    ensures Named(r)
  {
    forall i | 0 <= i < |r.out| ensures NamesPlayer(r.logins, r.nextId, r.out[i].command) {
      assert NamesPlayer(l.logins, l.nextId, l.out[i].command);
    }
  }

  lemma ListNames(l: Tables)
    requires Named(l)
    ensures Named(SendGamelist(l))
  {
  }

  lemma {:induction false} HostLeftNames(l: Lobby, host: PlayerId, fellows: seq<PlayerId>)
    ensures MailNames(l, HostLeftMail(host, fellows))
  {
    if fellows != [] {
      HostLeftNames(l, host, fellows[1..]);
    }
  }

  lemma {:induction false} UnpairNames(l: Lobby, p: PlayerId, fellows: seq<PlayerId>)
    ensures MailNames(l, UnpairMail(p, fellows))
  {
    if fellows != [] {
      UnpairNames(l, p, fellows[1..]);
    }
  }

  lemma {:induction false} PairNames(l: Lobby, p: PlayerId, host: PlayerId, fellows: seq<PlayerId>)
    requires p in l.logins && forall x :: x in fellows ==> x in l.logins
    requires forall x :: x in l.logins ==> x < l.nextId
    ensures MailNames(l, PairMail(l.logins, p, host, fellows))
  {
    if fellows != [] {
      assert fellows[0] in fellows && forall x :: x in fellows[1..] ==> x in fellows;
      PairNames(l, p, host, fellows[1..]);
    }
  }

  lemma HostLeftPosts(l: Tables, p: PlayerId, fellows: seq<PlayerId>)
    requires Named(l) && p in l.logins && Addressable(l, HostLeftMail(p, fellows))
    ensures Named(Post(l, HostLeftMail(p, fellows)))
  {
    HostLeftNames(l, p, fellows);
    PostNames(l, HostLeftMail(p, fellows));
  }

  lemma EndHostedNames(l: Tables, p: PlayerId)
    requires Named(l)
    ensures Named(EndHosted(l, p))
  {
    if p in l.games {
      var t := EndedGame(l, p);
      HostLeftPosts(l, p, Ascending(l.games[p]));
      ListNames(t);
    }
  }

  lemma LeaveNames(l: Tables, p: PlayerId)
    requires Named(l)
    ensures Named(Leave(l, p))
  {
    EndHostedTables(l, p);
    EndHostedNames(l, p);
    LeaveJoinedNames(EndHosted(l, p), p);
  }

  lemma LeaveJoinedNames(l: Tables, p: PlayerId)
    requires Named(l) && p !in l.games
    ensures Named(LeaveJoined(l, p))
  {
    FellowsAddressable(l, p);
    if p in l.playersGames && l.playersGames[p] in l.games {
      var fellows := Ascending(l.games[l.playersGames[p]]);
      UnpairNames(l, p, fellows);
      PostNames(l, UnpairMail(p, fellows));
    }
  }

  lemma HostNames(l: Tables, s: Socket)
    requires Named(l) && s in l.sockets
    ensures Named(Host(l, s))
  {
    if s in l.socketPlayers {
      LeaveNames(l, l.socketPlayers[s]);
      HostingNames(Leave(l, l.socketPlayers[s]), l.socketPlayers[s]);
    }
  }

  lemma HostingNames(l: Tables, p: PlayerId)
    requires Named(l) && p in l.logins && p !in l.playersGames && p !in l.games
    ensures Named(SendGamelist(Post(Hosting(l, p), [Mail(p, HostGame)])))
  {
    PostNames(Hosting(l, p), [Mail(p, HostGame)]);
    ListNames(Post(Hosting(l, p), [Mail(p, HostGame)]));
  }

  lemma EnterNames(l: Tables, p: PlayerId, host: PlayerId)
    requires Named(l) && p in l.logins && p !in l.playersGames && host in l.games
    ensures Named(Enter(l, p, host))
  {
    var joined := Joined(l, p, host);
    var first := HostMail(l.logins, p, host);
    var fellows := Ascending(joined.games[host]);
    PostNames(joined, first);
    PairNames(joined, p, host, fellows);
    PostNames(Post(joined, first), PairMail(l.logins, p, host, fellows));
  }

  lemma JoinNames(l: Tables, s: Socket, host: Arg)
    requires Named(l) && s in l.sockets
    ensures Named(Join(l, s, host))
  {
    if s in l.socketPlayers && !host.Missing? {
      var p := l.socketPlayers[s];
      LeaveNames(l, p);
      if host.Int? && host.value in Leave(l, p).games {
        EnterNames(Leave(l, p), p, host.value);
      }
    }
  }

  lemma StepNames(l: Tables, e: Event)
    requires Named(l)
    ensures Named(Step(l, e))
  {
    if Possible(l, e) {
      match e
      case Opened(s) => StaysNamed(l, Open(l, s));
      case Closed(s) =>
        if s in l.socketPlayers {
          var p := l.socketPlayers[s];
          LeaveNames(l, p);
          StaysNamed(Leave(l, p), LogOut(Leave(l, p), p, s));
        }
      case LoginRequest(s, name) => StaysNamed(l, Login(l, s, name));
      case ReconnectRequest(s, id) => StaysNamed(l, Reconnect(l, s, id));
      case HostRequest(s) => HostNames(l, s);
      case LeaveRequest(s) => if s in l.socketPlayers { LeaveNames(l, l.socketPlayers[s]); }
      case JoinRequest(s, host) => JoinNames(l, s, host);
      case IceRequest(s, remote, message) =>
        if remote.Int? && remote.value in l.playerSockets {
          PostNames(l, [Mail(remote.value, IceMsg(l.socketPlayers[s], message))]);
        }
    }
  }

  /** In every reachable state, every command to join or connect that was ever sent names a player by
      the login that this player had and, if it is still there, has. */
  lemma {:induction false} CommandsNameTheirPlayers(events: seq<Event>)
    ensures Named(Run(events))
  {
    if events != [] {
      CommandsNameTheirPlayers(events[..|events| - 1]);
      StepNames(Run(events[..|events| - 1]), events[|events| - 1]);
    }
  }

  // ---------------------------------------------------------------------- every event

  lemma RunNext(events: seq<Event>, e: Event)
    ensures Run(events + [e]) == Step(Run(events), e)
  {
    assert (events + [e])[..|events|] == events;
  }

  /** In every run: a socket that closes is gone, with its player if it had one; */
  lemma ClosedIsServed(events: seq<Event>, s: Socket)
    requires s in Run(events).sockets
    ensures var l, r := Run(events), Run(events + [Closed(s)]);
            && s !in r.sockets && s !in r.socketPlayers
            && (s in l.socketPlayers ==> l.socketPlayers[s] !in r.logins && l.socketPlayers[s] !in r.playerSockets)
  {
    RunNext(events, Closed(s));
    var l := Run(events);
    if s in l.socketPlayers {
      CloseLogsOut(l, s);
    }
  }

  /** one that opens is there, and all else is as before; */
  lemma OpenedIsServed(events: seq<Event>, s: Socket)
    requires s !in Run(events).sockets
    ensures var l := Run(events); Run(events + [Opened(s)]) == l.(sockets := l.sockets + {s})
  {
    RunNext(events, Opened(s));
  }

  /** a request from a connected socket is served as that request, with what it came with; */
  lemma RequestIsServed(events: seq<Event>, e: Event)
    requires !e.Opened? && !e.Closed? && !e.IceRequest? && e.s in Run(events).sockets
    ensures var l, r := Run(events), Run(events + [e]);
            && (e.LoginRequest? ==> r == Login(l, e.s, e.name))
            && (e.ReconnectRequest? ==> r == Reconnect(l, e.s, e.id))
            && (e.HostRequest? ==> r == Host(l, e.s))
            && (e.LeaveRequest? ==> r == LeaveGame(l, e.s))
            && (e.JoinRequest? ==> r == Join(l, e.s, e.host))
  {
    RunNext(events, e);
  }

  /** and an ICE message from a player reaches the player it is for. */
  lemma IceIsServed(events: seq<Event>, s: Socket, remote: PlayerId, message: string)
    requires s in Run(events).socketPlayers && remote in Run(events).playerSockets
    ensures var l := Run(events);
            Run(events + [IceRequest(s, Int(remote), message)])
            == l.(out := l.out
                         + [Unicast(l.playerSockets[remote], Some(remote), IceMsg(l.socketPlayers[s], message))])
  {
    RunNext(events, IceRequest(s, Int(remote), message));
    IceMessageArrives(Run(events), s, remote, message);
  }

  // ------------------------------------------------------------------ single requests

  /** A player logs in under the next number, on that socket, and in no game; nobody else changes. */
  lemma LoginEnters(l: Tables, s: Socket, name: string)
    requires s in l.sockets && s !in l.socketPlayers
    ensures var p, r := l.nextId, Login(l, s, Name(name));
            && p !in l.logins && r.nextId == p + 1
            && r.playerSockets == l.playerSockets[p := s] && r.socketPlayers == l.socketPlayers[s := p]
            && r.logins.Keys == l.logins.Keys + {p} && (forall q :: q in l.logins ==> r.logins[q] == l.logins[q])
            && r.games == l.games && r.playersGames == l.playersGames && r.sockets == l.sockets && r.out == l.out
            && p !in r.playersGames && p !in r.games
  {
  }

  /** It gets the name it wants if nobody has it, and otherwise that name with the least number behind
      it that makes it free. */
  lemma LoginNames(l: Tables, s: Socket, name: string) returns (k: nat)
    requires s in l.sockets && s !in l.socketPlayers
    ensures l.nextId in Login(l, s, Name(name)).logins
    ensures var login := Login(l, s, Name(name)).logins[l.nextId];
            if Used(l.logins, name)
            then k >= 1 && login == name + ToString(k) && !Used(l.logins, login)
                 && forall i :: 1 <= i < k ==> Used(l.logins, name + ToString(i))
            else login == name
  {
    k := ChosenIsLeast(l.logins, name);
  }

  lemma ChosenIsLeast(logins: map<PlayerId, string>, name: string) returns (k: nat)
    ensures if Used(logins, name)
            then k >= 1 && ChosenLogin(logins, name) == name + ToString(k) && !Used(logins, name + ToString(k))
                 && forall i :: 1 <= i < k ==> Used(logins, name + ToString(i))
            else ChosenLogin(logins, name) == name
  {
    k := 0;
    if Used(logins, name) {
      assert ChosenLogin(logins, name) == FirstFree(logins, name, 1);
      var j: nat :| 1 <= j <= |logins| && FirstFree(logins, name, 1) == name + ToString(j)
                    && forall i :: 1 <= i < j ==> Used(logins, name + ToString(i));
      k := j;
    }
  }

  /** Who is logged in already, or gives no name, is refused. */
  lemma LoginRefused(l: Tables, s: Socket, name: NameArg)
    requires s in l.sockets
    ensures Login(l, s, name) == l <==> s in l.socketPlayers || name == NoName || name == NotAString
  {
    if s !in l.socketPlayers && name.Name? {
      assert Login(l, s, name).nextId == l.nextId + 1;
    }
  }

  /** A player that is known moves to the new socket, with login and game; its old socket has nobody
      any more. Whatever else is asked for is refused. */
  lemma ReconnectMoves(l: Tables, s: Socket, id: Arg)
    requires s in l.sockets
    ensures var r := Reconnect(l, s, id);
            if s !in l.socketPlayers && id.Int? && id.value in l.playerSockets then
              && r.playerSockets[id.value] == s && s in r.socketPlayers && r.socketPlayers[s] == id.value
              && l.playerSockets[id.value] !in r.socketPlayers
              && (forall q :: q in l.playerSockets && q != id.value ==>
                    q in r.playerSockets && r.playerSockets[q] == l.playerSockets[q]
                    && l.playerSockets[q] in r.socketPlayers && r.socketPlayers[l.playerSockets[q]] == q)
              && r == l.(playerSockets := r.playerSockets, socketPlayers := r.socketPlayers)
            else r == l
  {
  }

  /** An ICE message goes to the player it is for, and names the one it is from. */
  lemma IceMessageArrives(l: Tables, s: Socket, remote: PlayerId, message: string)
    requires s in l.socketPlayers && remote in l.playerSockets
    ensures SendIce(l, s, Int(remote), message)
         == l.(out := l.out
                      + [Unicast(l.playerSockets[remote], Some(remote), IceMsg(l.socketPlayers[s], message))])
  {
    var ms := [Mail(remote, IceMsg(l.socketPlayers[s], message))];
    assert ms[1..] == [];
    assert Stamps(l, ms) == [Stamp(l, ms[0])];
  }

  /** One from a stranger names player 0, whoever that is. */
  lemma StrangersMessageArrives(l: Tables, s: Socket, remote: PlayerId, message: string)
    requires s !in l.socketPlayers && remote in l.playerSockets
    ensures var r := SendIceFrom(l, s, Int(remote), message);
            && r.out == l.out + [Unicast(l.playerSockets[remote], Some(remote), IceMsg(0, message))]
            && r == l.(socketPlayers := l.socketPlayers[s := 0], out := r.out)
  {
    var at, ms := l.(socketPlayers := l.socketPlayers[s := 0]), [Mail(remote, IceMsg(0, message))];
    assert ms[1..] == [];
    assert Stamps(at, ms) == [Stamp(at, ms[0])];
  }

  /** The host of a new game is told to host, as the last command before the new list. */
  lemma HostIsTold(l: Tables, s: Socket)
    requires s in l.socketPlayers
    ensures var p, r := l.socketPlayers[s], Host(l, s);
            && p in r.games && r.games[p] == {p} && p in r.playersGames && r.playersGames[p] == p
            && |r.out| >= 2 && r.out[|r.out| - 2] == Unicast(s, Some(p), HostGame)
            && r.out[|r.out| - 1] == Broadcast(GameList(GameNames(r)))
  {
    var p := l.socketPlayers[s];
    var h := Hosting(Leave(l, p), p);
    var ms := [Mail(p, HostGame)];
    assert ms[1..] == [];
    assert Stamps(h, ms) == [Stamp(h, ms[0])];
  }
}
