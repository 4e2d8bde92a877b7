/** What becomes of the roles when two players are paired a second time. A host that leaves ends its
    game without any disconnect, so that both keep the relays between them; if one has lost its own
    by then, the other kept, the roles of the second pairing need not fit those of the first. */
module LobbyRoles {
  import opened Bytes
  import opened LobbyTables
  import opened LobbyAdapters
  import M = LobbyMesh
  import AdapterTasks
  import opened Order

  lemma {:induction false} CommandsOfBoth(a: seq<Emission>, b: seq<Emission>, x: PlayerId)
    ensures CommandsFor(a + b, x) == CommandsFor(a, x) + CommandsFor(b, x)
    decreases |b|
  {
    if b == [] {
      assert a + b == a;
    } else {
      var front, e := b[..|b| - 1], b[|b| - 1];
      assert (a + b)[..|a + b| - 1] == a + front;
      CommandsOfBoth(a, front, x);
    }
  }

  predicate Quiet(ms: seq<Mail>) {
    forall i :: 0 <= i < |ms| ==> !AboutRelays(ms[i].command)
  }

  lemma OneEmission(e: Emission, x: PlayerId)
    ensures CommandsFor([e], x)
         == if e.Unicast? && e.player == Some(x) && AboutRelays(e.command) then [e.command] else []
  {
    assert [e][..0] == [];
  }

  lemma {:induction false} QuietStamps(l: Lobby, ms: seq<Mail>, x: PlayerId)
    requires Addressable(l, ms) && Quiet(ms)
    ensures CommandsFor(Stamps(l, ms), x) == []
  {
    if ms != [] {
      QuietStamps(l, ms[1..], x);
      OneEmission(Stamp(l, ms[0]), x);
      CommandsOfBoth([Stamp(l, ms[0])], Stamps(l, ms[1..]), x);
    }
  }

  lemma QuietPost(l: Lobby, ms: seq<Mail>, x: PlayerId)
    requires Addressable(l, ms) && Quiet(ms)
    ensures CommandsFor(Post(l, ms).out, x) == CommandsFor(l.out, x)
  {
    QuietStamps(l, ms, x);
    CommandsOfBoth(l.out, Stamps(l, ms), x);
    assert CommandsFor(l.out, x) + [] == CommandsFor(l.out, x);
  }

  lemma QuietList(l: Tables, x: PlayerId)
    ensures CommandsFor(SendGamelist(l).out, x) == CommandsFor(l.out, x)
  {
    var e := Broadcast(GameList(GameNames(l)));
    OneEmission(e, x);
    CommandsOfBoth(l.out, [e], x);
    assert CommandsFor(l.out, x) + [] == CommandsFor(l.out, x);
  }

  lemma {:induction false} HostLeftIsQuiet(host: PlayerId, fellows: seq<PlayerId>)
    ensures Quiet(HostLeftMail(host, fellows))
  {
    if fellows != [] {
      HostLeftIsQuiet(host, fellows[1..]);
      var rest := HostLeftMail(host, fellows[1..]);
      assert forall i :: 0 < i < |HostLeftMail(host, fellows)| ==> HostLeftMail(host, fellows)[i] == rest[i - 1];
    }
  }

  // -------------------------------------------------------------- the requests

  lemma LeavesNothing(l: Tables, p: PlayerId)
    requires p !in l.games && (p in l.playersGames ==> l.playersGames[p] !in l.games)
    ensures Leave(l, p) == l.(playersGames := l.playersGames - {p})
  {
    assert p !in l.playersGames ==> l.playersGames - {p} == l.playersGames;
  }

  lemma AnnouncesGame(l: Tables, p: PlayerId, x: PlayerId)
    requires p in l.playerSockets
    ensures var r := SendGamelist(Post(l, [Mail(p, HostGame)]));
            r == l.(out := r.out) && CommandsFor(r.out, x) == CommandsFor(l.out, x)
  {
    QuietPost(l, [Mail(p, HostGame)], x);
    QuietList(Post(l, [Mail(p, HostGame)]), x);
  }

  /** A player that is in no game, or whose game has ended, opens one. */
  lemma OpensGame(l: Tables, s: Socket, p: PlayerId, x: PlayerId)
    requires s in l.socketPlayers && l.socketPlayers[s] == p
    requires p !in l.games && (p in l.playersGames ==> l.playersGames[p] !in l.games)
    ensures var r := Host(l, s);
            r == l.(games := l.games[p := {p}], playersGames := l.playersGames[p := p], out := r.out)
            && CommandsFor(r.out, x) == CommandsFor(l.out, x)
  {
    LeavesNothing(l, p);
    AnnouncesGame(Hosting(Leave(l, p), p), p, x);
    assert (l.playersGames - {p})[p := p] == l.playersGames[p := p];
  }

  /** A host leaves: its game ends without any disconnect. */
  lemma EndsGame(l: Tables, s: Socket, p: PlayerId, x: PlayerId)
    requires s in l.socketPlayers && l.socketPlayers[s] == p
    requires p in l.games && p in l.playersGames && l.playersGames[p] == p
    ensures var r := LeaveGame(l, s);
            r == l.(games := l.games - {p}, playersGames := l.playersGames - {p}, out := r.out)
            && CommandsFor(r.out, x) == CommandsFor(l.out, x)
  {
    FellowsAddressable(l, p);
    var ms := HostLeftMail(p, Ascending(l.games[p]));
    HostLeftIsQuiet(p, Ascending(l.games[p]));
    QuietPost(l, ms, x);
    QuietList(Post(l, ms).(games := l.games - {p}), x);
  }

  lemma NobodyElse(logins: map<PlayerId, string>, p: PlayerId, host: PlayerId)
    requires p in logins && host in logins
    ensures PairMail(logins, p, host, Ascending({host} + {p})) == []
  {
    NoPairs(logins, p, host, Ascending({host} + {p}));
  }

  lemma {:induction false} NoPairs(logins: map<PlayerId, string>, p: PlayerId, host: PlayerId, fellows: seq<PlayerId>)
    requires p in logins && host in logins && forall x :: x in fellows ==> x == p || x == host
    ensures PairMail(logins, p, host, fellows) == []
  {
    if fellows != [] {
      assert fellows[0] in fellows && forall x :: x in fellows[1..] ==> x in fellows;
      NoPairs(logins, p, host, fellows[1..]);
    }
  }

  lemma TwoStamps(l: Lobby, a: Mail, b: Mail, x: PlayerId)
    requires Addressable(l, [a, b]) && AboutRelays(a.command) && AboutRelays(b.command) && a.player != b.player
    ensures CommandsFor(Post(l, [a, b]).out, x)
         == if x == a.player then CommandsFor(l.out, x) + [a.command]
            else if x == b.player then CommandsFor(l.out, x) + [b.command]
            else CommandsFor(l.out, x)
  {
    assert a == [a, b][0] && b == [a, b][1];
    var ea, eb := Stamp(l, a), Stamp(l, b);
    assert Stamps(l, [b]) == [eb] + Stamps(l, []);
    assert [a, b][1..] == [b];
    assert Stamps(l, [a, b]) == [ea] + [eb];
    OneEmission(ea, x);
    OneEmission(eb, x);
    CommandsOfBoth([ea], [eb], x);
    CommandsOfBoth(l.out, [ea] + [eb], x);
    assert CommandsFor(l.out, x) + [] == CommandsFor(l.out, x);
  }

  /** A player in no game joins a host that is alone. */
  lemma JoinsHost(l: Tables, s: Socket, p: PlayerId, host: PlayerId, x: PlayerId)
    requires s in l.socketPlayers && l.socketPlayers[s] == p && p != host
    requires p !in l.games && p !in l.playersGames && host in l.games && l.games[host] == {host}
    requires host in l.logins && p in l.logins
    ensures var r := Join(l, s, Int(host));
            && r == l.(games := l.games[host := {host} + {p}], playersGames := l.playersGames[p := host], out := r.out)
            && CommandsFor(r.out, x)
               == if x == host then CommandsFor(l.out, x) + [ConnectToPeer(l.logins[p], p, true)]
                  else if x == p then CommandsFor(l.out, x) + [JoinGame(l.logins[host], host)]
                  else CommandsFor(l.out, x)
  {
    var joined := Joined(l, p, host);
    NobodyElse(l.logins, p, host);
    TwoStamps(joined, Mail(host, ConnectToPeer(l.logins[p], p, true)), Mail(p, JoinGame(l.logins[host], host)), x);
    assert Post(joined, HostMail(l.logins, p, host)).out + [] == Post(joined, HostMail(l.logins, p, host)).out;
  }

  // ------------------------------------------------------------ paired a second time

  lemma RunSnoc(events: seq<M.Event>, e: M.Event)
    ensures M.Run(events + [e]) == M.Step(M.Run(events), e)
  {
    assert (events + [e])[..|events|] == events;
  }

  /** Both players are logged in. */
  predicate LoggedIn(l: Lobby, s: Socket, p: PlayerId) {
    s in l.sockets && s in l.socketPlayers && l.socketPlayers[s] == p && p in l.logins
  }

  predicate InNoGame(l: Lobby, p: PlayerId) {
    p !in l.games && p !in l.playersGames
  }

  /** One player hosts, the other joins. */
  lemma Pairing(l: Lobby, h: Tables, r: Tables, p: PlayerId, t: Socket, q: PlayerId, x: PlayerId)
    requires LoggedIn(l, t, q) && p in l.logins && p != q && InNoGame(l, q)
    requires h == l.(games := l.games[p := {p}], playersGames := l.playersGames[p := p], out := h.out)
    requires r == Join(h, t, Int(p))
    ensures r == l.(games := l.games[p := {p} + {q}], playersGames := l.playersGames[p := p][q := p], out := r.out)
    ensures CommandsFor(r.out, x)
         == if x == p then CommandsFor(h.out, x) + [ConnectToPeer(l.logins[q], q, true)]
            else if x == q then CommandsFor(h.out, x) + [JoinGame(l.logins[p], p)]
            else CommandsFor(h.out, x)
  {
    JoinsHost(h, t, q, p, x);
    assert h.games[p := {p} + {q}] == l.games[p := {p} + {q}];
  }

  lemma WithoutHost(games: map<PlayerId, set<PlayerId>>, playersGames: map<PlayerId, PlayerId>,
                    p: PlayerId, q: PlayerId)
    requires p !in games && p !in playersGames && p != q
    ensures games[p := {p} + {q}] - {p} == games && playersGames[p := p][q := p] - {p} == playersGames[q := p]
  {
  }

  /** And the host leaves again: the one who joined stays entered in a game that is no more. */
  lemma Parting(l: Lobby, r: Tables, e: Tables, s: Socket, p: PlayerId, q: PlayerId, x: PlayerId)
    requires s in r.socketPlayers && r.socketPlayers[s] == p && p != q && InNoGame(l, p)
    requires r == l.(games := l.games[p := {p} + {q}], playersGames := l.playersGames[p := p][q := p], out := r.out)
    requires e == LeaveGame(r, s)
    ensures e == l.(playersGames := l.playersGames[q := p], out := e.out)
    ensures CommandsFor(e.out, x) == CommandsFor(r.out, x)
  {
    EndsGame(r, s, p, x);
    WithoutHost(l.games, l.playersGames, p, q);
  }

  /** All three requests. */
  lemma FirstTime(l: Tables, h: Tables, r: Tables, e: Tables, s: Socket, p: PlayerId, t: Socket, q: PlayerId,
                  x: PlayerId)
    requires LoggedIn(l, s, p) && LoggedIn(l, t, q) && p != q && InNoGame(l, p) && InNoGame(l, q)
    requires h == Host(l, s) && t in h.sockets && r == Join(h, t, Int(p)) && s in r.sockets && e == LeaveGame(r, s)
    ensures e == l.(playersGames := l.playersGames[q := p], out := e.out)
    ensures CommandsFor(e.out, x)
         == if x == p then CommandsFor(l.out, x) + [ConnectToPeer(l.logins[q], q, true)]
            else if x == q then CommandsFor(l.out, x) + [JoinGame(l.logins[p], p)]
            else CommandsFor(l.out, x)
  {
    OpensGame(l, s, p, x);
    Pairing(l, h, r, p, t, q, x);
    Parting(l, r, e, s, p, q, x);
  }

  /** Now the other hosts, and the first joins. */
  lemma SecondTime(l: Tables, h: Tables, r: Tables, s: Socket, p: PlayerId, t: Socket, q: PlayerId, x: PlayerId)
    requires LoggedIn(l, s, p) && LoggedIn(l, t, q) && p != q && InNoGame(l, p)
    requires q !in l.games && q in l.playersGames && l.playersGames[q] == p
    requires h == Host(l, t) && s in h.sockets && r == Join(h, s, Int(q))
    ensures CommandsFor(r.out, x)
         == if x == q then CommandsFor(l.out, x) + [ConnectToPeer(l.logins[p], p, true)]
            else if x == p then CommandsFor(l.out, x) + [JoinGame(l.logins[q], q)]
            else CommandsFor(l.out, x)
  {
    OpensGame(l, t, q, x);
    Pairing(l, h, r, q, s, p, x);
  }

  lemma HostStep(l: Tables, s: Socket)
    requires s in l.sockets
    ensures M.Step(l, M.HostRequest(s)) == Host(l, s) && Host(l, s).sockets == l.sockets
  {
  }

  lemma LeaveStep(l: Tables, s: Socket)
    requires s in l.sockets
    ensures M.Step(l, M.LeaveRequest(s)) == LeaveGame(l, s)
  {
  }

  lemma LeaveKeepsSockets(l: Tables, s: Socket)
    requires s in l.sockets
    ensures LeaveGame(l, s).sockets == l.sockets
  {
  }

  lemma JoinStep(l: Tables, s: Socket, id: PlayerId)
    requires s in l.sockets
    ensures M.Step(l, M.JoinRequest(s, Int(id))) == Join(l, s, Int(id))
  {
  }

  lemma JoinKeepsSockets(l: Tables, s: Socket, id: PlayerId)
    requires s in l.sockets
    ensures Join(l, s, Int(id)).sockets == l.sockets
  {
  }

  lemma AfterHost(events: seq<M.Event>, l: Tables, s: Socket)
    requires l == M.Run(events) && s in l.sockets
    ensures M.Run(events + [M.HostRequest(s)]) == Host(l, s) && Host(l, s).sockets == l.sockets
  {
    RunSnoc(events, M.HostRequest(s));
    HostStep(l, s);
  }

  lemma AfterJoin(events: seq<M.Event>, l: Tables, s: Socket, id: PlayerId)
    requires l == M.Run(events) && s in l.sockets
    ensures M.Run(events + [M.JoinRequest(s, Int(id))]) == Join(l, s, Int(id))
    ensures Join(l, s, Int(id)).sockets == l.sockets
  {
    RunSnoc(events, M.JoinRequest(s, Int(id)));
    JoinStep(l, s, id);
    JoinKeepsSockets(l, s, id);
  }

  lemma AfterLeave(events: seq<M.Event>, l: Tables, s: Socket)
    requires l == M.Run(events) && s in l.sockets
    ensures M.Run(events + [M.LeaveRequest(s)]) == LeaveGame(l, s) && LeaveGame(l, s).sockets == l.sockets
  {
    RunSnoc(events, M.LeaveRequest(s));
    LeaveStep(l, s);
    LeaveKeepsSockets(l, s);
  }

  /** The five requests. */
  function TwoPairings(s: Socket, p: PlayerId, t: Socket, q: PlayerId): seq<M.Event> {
    [M.HostRequest(s)] + [M.JoinRequest(t, Int(p))] + [M.LeaveRequest(s)]
    + [M.HostRequest(t)] + [M.JoinRequest(s, Int(q))]
  }

  ghost predicate Strangers(l: Lobby, s: Socket, p: PlayerId, t: Socket, q: PlayerId) {
    && LoggedIn(l, s, p) && LoggedIn(l, t, q) && p != q && InNoGame(l, p) && InNoGame(l, q)
    && q !in ObeyAll(CommandsFor(l.out, p)) && p !in ObeyAll(CommandsFor(l.out, q))
  }

  lemma OneByOne<T>(s: seq<T>, a: T, b: T, c: T, d: T, e: T)
    ensures s + ([a] + [b] + [c] + [d] + [e]) == s + [a] + [b] + [c] + [d] + [e]
  {
  }

  /** What the two players are sent: the roles are turned the second time. */
  lemma PairedTwice(events: seq<M.Event>, s: Socket, p: PlayerId, t: Socket, q: PlayerId)
    requires Strangers(M.Run(events), s, p, t, q)
    ensures var l, out := M.Run(events), M.Run(events + TwoPairings(s, p, t, q)).out;
            && CommandsFor(out, p)
               == CommandsFor(l.out, p) + [ConnectToPeer(l.logins[q], q, true)] + [JoinGame(l.logins[q], q)]
            && CommandsFor(out, q)
               == CommandsFor(l.out, q) + [JoinGame(l.logins[p], p)] + [ConnectToPeer(l.logins[p], p, true)]
  {
    var e0, e1, e2 := M.HostRequest(s), M.JoinRequest(t, Int(p)), M.LeaveRequest(s);
    var e3, e4 := M.HostRequest(t), M.JoinRequest(s, Int(q));
    OneByOne(events, e0, e1, e2, e3, e4);
    var hosting := events + [e0];
    var joined := hosting + [e1];
    var ended := joined + [e2];
    var hosting' := ended + [e3];
    AfterHost(events, M.Run(events), s);
    AfterJoin(hosting, M.Run(hosting), t, p);
    AfterLeave(joined, M.Run(joined), s);
    AfterHost(ended, M.Run(ended), t);
    AfterJoin(hosting', M.Run(hosting'), s, q);
    TwoPairs(M.Run(events), M.Run(hosting), M.Run(joined), M.Run(ended), M.Run(hosting'), M.Run(hosting' + [e4]),
             s, p, t, q, p);
    TwoPairs(M.Run(events), M.Run(hosting), M.Run(joined), M.Run(ended), M.Run(hosting'), M.Run(hosting' + [e4]),
             s, p, t, q, q);
  }

  lemma TwoPairs(l: Tables, h: Tables, r: Tables, e: Tables, h': Tables, r': Tables,
                 s: Socket, p: PlayerId, t: Socket, q: PlayerId, x: PlayerId)
    requires LoggedIn(l, s, p) && LoggedIn(l, t, q) && p != q && InNoGame(l, p) && InNoGame(l, q)
    requires h == Host(l, s) && t in h.sockets && r == Join(h, t, Int(p)) && s in r.sockets && e == LeaveGame(r, s)
    requires t in e.sockets && h' == Host(e, t) && s in h'.sockets && r' == Join(h', s, Int(q))
    ensures x == p ==>
              CommandsFor(r'.out, p)
              == CommandsFor(l.out, p) + [ConnectToPeer(l.logins[q], q, true)] + [JoinGame(l.logins[q], q)]
    ensures x == q ==>
              CommandsFor(r'.out, q)
              == CommandsFor(l.out, q) + [JoinGame(l.logins[p], p)] + [ConnectToPeer(l.logins[p], p, true)]
  {
    FirstTime(l, h, r, e, s, p, t, q, x);
    SecondTime(e, h', r', s, p, t, q, x);
  }

  /** Without a relay before, the first of two commands about a player sets the role; with the first
      one dropped, the second does. */
  lemma FirstSetsRole(before: seq<Command>, c: Command, d: Command, id: PlayerId)
    requires id !in ObeyAll(before)
    requires About(c, id) && !c.DisconnectFromPeer? && About(d, id) && !d.DisconnectFromPeer?
    ensures var all := ObeyAll(before + [c] + [d]);
            id in all && all[id] == (c.ConnectToPeer? && c.offer)
    ensures var rest := ObeyAll((before + [c] + [d])[|before| + 1..]);
            id in rest && rest[id] == (d.ConnectToPeer? && d.offer)
  {
    ObeySnoc(before, c);
    ObeySnoc(before + [c], d);
    assert (before + [c] + [d])[|before| + 1..] == [] + [d];
    ObeySnoc([], d);
  }

  /** Any two players in no game and without relays to each other may be paired twice, with the
      roles turned. If the first one's game disconnects between the two pairings, both adapters
      answer and nobody offers. */
  lemma BothMayAnswer(events: seq<M.Event>, s: Socket, p: Int32, t: Socket, q: Int32,
                      op: AdapterTasks.Options, ep: seq<AdapterTasks.Event>,
                      oq: AdapterTasks.Options, eq: seq<AdapterTasks.Event>)
    requires Strangers(M.Run(events), s, p, t, q)
    requires var out := M.Run(events + TwoPairings(s, p, t, q)).out;
             Follows(ep, CommandsFor(out, p)) && Follows(eq, CommandsFor(out, q))
    requires Forgotten(op, ep) == |CommandsFor(M.Run(events).out, p)| + 1 && Forgotten(oq, eq) == 0
    ensures var atP, atQ := AdapterTasks.Run(op, ep).relays, AdapterTasks.Run(oq, eq).relays;
            q in atP && p in atQ && !atP[q].offerer && !atQ[p].offerer
  {
    var l, out := M.Run(events), M.Run(events + TwoPairings(s, p, t, q)).out;
    PairedTwice(events, s, p, t, q);
    FirstSetsRole(CommandsFor(l.out, p), ConnectToPeer(l.logins[q], q, true), JoinGame(l.logins[q], q), q);
    FirstSetsRole(CommandsFor(l.out, q), JoinGame(l.logins[p], p), ConnectToPeer(l.logins[p], p, true), p);
    AdapterHasLobbysRelays(op, ep, CommandsFor(out, p));
    AdapterHasLobbysRelays(oq, eq, CommandsFor(out, q));
    assert CommandsFor(out, q)[0..] == CommandsFor(out, q);
  }

  // ------------------------------------------------------------------- an example

  /** Two players log in. */
  const TWO_PLAYERS: seq<M.Event> :=
    [] + [M.Opened(0)] + [M.Opened(1)] + [M.LoginRequest(0, Name("a"))] + [M.LoginRequest(1, Name("b"))]

  lemma AfterOpened(events: seq<M.Event>, l: Tables, s: Socket)
    requires l == M.Run(events) && s !in l.sockets
    ensures M.Run(events + [M.Opened(s)]) == l.(sockets := l.sockets + {s})
  {
    RunSnoc(events, M.Opened(s));
  }

  lemma TwoConnections(none: seq<M.Event>)
    requires none == []
    ensures M.Run(none + [M.Opened(0)] + [M.Opened(1)]) == EMPTY.(sockets := {0, 1})
  {
    AfterOpened(none, EMPTY, 0);
    AfterOpened(none + [M.Opened(0)], EMPTY.(sockets := {0}), 1);
  }

  /** The next player logs in; everybody else stays. */
  lemma LoginAdds(l: Tables, s: Socket, name: string)
    requires s in l.sockets && s !in l.socketPlayers
    ensures var r := Login(l, s, Name(name));
            && r.nextId == l.nextId + 1
            && r.out == l.out && r.games == l.games && r.playersGames == l.playersGames && r.sockets == l.sockets
            && r.socketPlayers == l.socketPlayers[s := l.nextId] && r.logins.Keys == l.logins.Keys + {l.nextId}
  {
  }

  lemma AfterLogin(events: seq<M.Event>, l: Tables, s: Socket, name: string)
    requires l == M.Run(events) && s in l.sockets && s !in l.socketPlayers
    ensures M.Run(events + [M.LoginRequest(s, Name(name))]) == Login(l, s, Name(name))
  {
    RunSnoc(events, M.LoginRequest(s, Name(name)));
  }

  lemma TwoLogins(l: Tables, r: Tables, q: Tables)
    requires l == EMPTY.(sockets := {0, 1})
    requires r == Login(l, 0, Name("a")) && 1 in r.sockets && q == Login(r, 1, Name("b"))
    ensures Strangers(q, 0, 0, 1, 1) && q.out == []
  {
    LoginAdds(l, 0, "a");
    LoginAdds(r, 1, "b");
  }

  lemma TwoPlayersLoggedIn()
    ensures Strangers(M.Run(TWO_PLAYERS), 0, 0, 1, 1) && M.Run(TWO_PLAYERS).out == []
  {
    var two := [] + [M.Opened(0)] + [M.Opened(1)];
    var three := two + [M.LoginRequest(0, Name("a"))];
    TwoConnections([]);
    AfterLogin(two, M.Run(two), 0, "a");
    LoginAdds(M.Run(two), 0, "a");
    AfterLogin(three, M.Run(three), 1, "b");
    TwoLogins(M.Run(two), M.Run(three), M.Run(TWO_PLAYERS));
  }

  /** The first one's adapter: it offers, its game comes and goes, and it answers. */
  const FIRST: seq<AdapterTasks.Event> :=
    [] + [AdapterTasks.Connect([], 1, true, 0)] + [AdapterTasks.GameConnected(0)] + [AdapterTasks.GameDisconnected(0)]
    + [AdapterTasks.Join([], 1, 0)]

  /** The second one's: it answers, and keeps its relay when it is asked to offer. */
  const SECOND: seq<AdapterTasks.Event> :=
    [] + [AdapterTasks.Join([], 0, 0)] + [AdapterTasks.Connect([], 0, true, 0)]

  lemma FollowsSnoc(events: seq<AdapterTasks.Event>, e: AdapterTasks.Event, commands: seq<Command>, c: Command)
    requires Follows(events, commands) && ChangesRelays(e) && CarriesOut(e, c)
    ensures Follows(events + [e], commands + [c])
  {
    assert (events + [e])[..|events|] == events && (commands + [c])[..|commands|] == commands;
  }

  lemma FollowsOther(events: seq<AdapterTasks.Event>, e: AdapterTasks.Event, commands: seq<Command>)
    requires Follows(events, commands) && !ChangesRelays(e)
    ensures Follows(events + [e], commands)
  {
    assert (events + [e])[..|events|] == events;
  }

  /** A first command, a game that comes and goes, and a second command. */
  lemma FirstFollows(none: seq<AdapterTasks.Event>, e: AdapterTasks.Event, g: AdapterTasks.Game,
                     f: AdapterTasks.Event, before: seq<Command>, c: Command, d: Command)
    requires none == [] && before == [] && CarriesOut(e, c) && CarriesOut(f, d)
    requires ChangesRelays(e) && ChangesRelays(f)
    ensures Follows(none + [e] + [AdapterTasks.GameConnected(g)] + [AdapterTasks.GameDisconnected(g)] + [f],
                    before + [c] + [d])
  {
    FollowsSnoc(none, e, before, c);
    FollowsOther(none + [e], AdapterTasks.GameConnected(g), before + [c]);
    FollowsOther(none + [e] + [AdapterTasks.GameConnected(g)], AdapterTasks.GameDisconnected(g), before + [c]);
    FollowsSnoc(none + [e] + [AdapterTasks.GameConnected(g)] + [AdapterTasks.GameDisconnected(g)], f, before + [c], d);
  }

  lemma SecondFollows(o: AdapterTasks.Options, none: seq<AdapterTasks.Event>, e: AdapterTasks.Event,
                      f: AdapterTasks.Event, before: seq<Command>, c: Command, d: Command)
    requires none == [] && before == [] && CarriesOut(e, c) && CarriesOut(f, d)
    requires ChangesRelays(e) && ChangesRelays(f)
    ensures Follows(none + [e] + [f], before + [c] + [d]) && Forgotten(o, none + [e] + [f]) == 0
  {
    FollowsSnoc(none, e, before, c);
    FollowsSnoc(none + [e], f, before + [c], d);
    NothingForgotten(o, none + [e] + [f]);
  }

  lemma ForgottenSnoc(o: AdapterTasks.Options, events: seq<AdapterTasks.Event>, e: AdapterTasks.Event)
    ensures Forgotten(o, events + [e])
         == if LosesRelays(AdapterTasks.Run(o, events), e) then Executed(events) else Forgotten(o, events)
    ensures Executed(events + [e]) == Executed(events) + (if ChangesRelays(e) then 1 else 0)
    ensures AdapterTasks.Run(o, events + [e]) == AdapterTasks.Step(o, AdapterTasks.Run(o, events), e)
  {
    assert (events + [e])[..|events|] == events;
  }

  lemma FirstForgets(o: AdapterTasks.Options, none: seq<AdapterTasks.Event>, e: AdapterTasks.Event,
                     g: AdapterTasks.Game, f: AdapterTasks.Event)
    requires none == [] && ChangesRelays(e) && ChangesRelays(f)
    ensures Forgotten(o, none + [e] + [AdapterTasks.GameConnected(g)] + [AdapterTasks.GameDisconnected(g)] + [f]) == 1
  {
    var c, d := AdapterTasks.GameConnected(g), AdapterTasks.GameDisconnected(g);
    ForgottenSnoc(o, none, e);
    ForgottenSnoc(o, none + [e], c);
    ForgottenSnoc(o, none + [e] + [c], d);
    ForgottenSnoc(o, none + [e] + [c] + [d], f);
    Connected(o, AdapterTasks.Run(o, none + [e]), g);
  }

  lemma Connected(o: AdapterTasks.Options, a: AdapterTasks.Adapter, g: AdapterTasks.Game)
    ensures g in AdapterTasks.Step(o, a, AdapterTasks.GameConnected(g)).games
  {
  }

  /** So it happens: two players log in, are paired twice, and their adapters do as they are told. */
  lemma BothDoAnswer(o: AdapterTasks.Options)
    ensures var out := M.Run(TWO_PLAYERS + TwoPairings(0, 0, 1, 1)).out;
            Follows(FIRST, CommandsFor(out, 0)) && Follows(SECOND, CommandsFor(out, 1))
    ensures var at0, at1 := AdapterTasks.Run(o, FIRST).relays, AdapterTasks.Run(o, SECOND).relays;
            1 in at0 && 0 in at1 && !at0[1].offerer && !at1[0].offerer
  {
    var l := M.Run(TWO_PLAYERS);
    TwoPlayersLoggedIn();
    PairedTwice(TWO_PLAYERS, 0, 0, 1, 1);
    var connect, join := AdapterTasks.Connect([], 1, true, 0), AdapterTasks.Join([], 1, 0);
    FirstFollows([], connect, 0, join, [], ConnectToPeer(l.logins[1], 1, true), JoinGame(l.logins[1], 1));
    FirstForgets(o, [], connect, 0, join);
    SecondFollows(o, [], AdapterTasks.Join([], 0, 0), AdapterTasks.Connect([], 0, true, 0),
                  [], JoinGame(l.logins[0], 0), ConnectToPeer(l.logins[0], 0, true));
    BothMayAnswer(TWO_PLAYERS, 0, 0, 1, 1, o, FIRST, o, SECOND);
  }
}
