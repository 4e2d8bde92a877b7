/** The lobby server's tables and what each request does to them, as functions on values; the
    server itself, which updates its tables in place, is in `LobbyServer`. */
module LobbyTables {
  import opened Bytes
  import opened Decimal
  import opened Order

  type PlayerId = int
  /** The identity of a client connection. */
  type Socket = int

  /** What the server sends. All but the game list go through the client to its adapter or
      concern one player only. */
  datatype Command =
    | GameList(games: map<string, PlayerId>)
    | HostLeft(host: PlayerId)
    | HostGame
    | JoinGame(login: string, id: PlayerId)
    | ConnectToPeer(login: string, id: PlayerId, offer: bool)
    | DisconnectFromPeer(id: PlayerId)
    | IceMsg(sender: PlayerId, message: string)

  /** A write of `sendJson`: to one connected socket (and the player logged in there, if any), or
      to every connected socket when the one named is not connected. */
  datatype Emission =
    | Unicast(socket: Socket, player: Option<PlayerId>, command: Command)
    | Broadcast(command: Command)

  datatype Lobby = Lobby(
    sockets: set<Socket>,
    playerSockets: map<PlayerId, Socket>,
    socketPlayers: map<Socket, PlayerId>,
    logins: map<PlayerId, string>,
    playersGames: map<PlayerId, PlayerId>,
    games: map<PlayerId, set<PlayerId>>,
    nextId: PlayerId,
    out: seq<Emission>)

  const EMPTY := Lobby({}, map[], map[], map[], map[], map[], 0, [])

  /** A request's `paramsArray[0]` where an integer is expected. */
  datatype Arg = Missing | NotAnInt | Int(value: int)

  /** The same where a string is expected. */
  datatype NameArg = NoName | NotAString | Name(value: string)

  // ------------------------------------------------------------- consistency

  ghost predicate SocketsInverse(l: Lobby) {
    && (forall p :: p in l.playerSockets ==>
          l.playerSockets[p] in l.sockets && l.playerSockets[p] in l.socketPlayers
          && l.socketPlayers[l.playerSockets[p]] == p)
    && (forall s :: s in l.socketPlayers ==>
          l.socketPlayers[s] in l.playerSockets && l.playerSockets[l.socketPlayers[s]] == s)
  }

  ghost predicate LoginsDistinct(l: Lobby) {
    && (forall p :: p in l.logins <==> p in l.playerSockets)
    && l.nextId >= 0
    && (forall p :: p in l.logins ==> 0 <= p < l.nextId)
    && (forall p, q :: p in l.logins && q in l.logins && p != q ==> l.logins[p] != l.logins[q])
  }

  ghost predicate GamesConsistent(l: Lobby) {
    && (forall p :: p in l.playersGames ==> p in l.playerSockets)
    && (forall g :: g in l.games ==> g in l.games[g])
    && (forall g, p :: g in l.games && p in l.games[g] ==> p in l.playersGames && l.playersGames[p] == g)
  }

  ghost predicate Consistent(l: Lobby) {
    SocketsInverse(l) && LoginsDistinct(l) && GamesConsistent(l)
  }

  /** The tables that every request may rely on. */
  type Tables = l: Lobby | Consistent(l) ghost witness EMPTY

  // ------------------------------------------------------------------ sending

  /** A command for one player, to be written to that player's socket. */
  datatype Mail = Mail(player: PlayerId, command: Command)

  function Stamp(l: Lobby, m: Mail): Emission
    requires m.player in l.playerSockets
  {
    Unicast(l.playerSockets[m.player], Some(m.player), m.command)
  }

  predicate Addressable(l: Lobby, ms: seq<Mail>) {
    forall i :: 0 <= i < |ms| ==> ms[i].player in l.playerSockets
  }

  function Stamps(l: Lobby, ms: seq<Mail>): (es: seq<Emission>)
    requires Addressable(l, ms)
    ensures |es| == |ms|
  {
    if ms == [] then [] else [Stamp(l, ms[0])] + Stamps(l, ms[1..])
  }

  function Post(l: Lobby, ms: seq<Mail>): Lobby
    requires Addressable(l, ms)
  {
    l.(out := l.out + Stamps(l, ms))
  }

  /** The members of the game list: each hosted game under its host's login. */
  ghost function GameNames(l: Tables): map<string, PlayerId> {
    map g | g in l.games :: l.logins[g] := g
  }

  ghost function SendGamelist(l: Tables): Tables {
    l.(out := l.out + [Broadcast(GameList(GameNames(l)))])
  }

  // ------------------------------------------------------------------- logins

  predicate Used(logins: map<PlayerId, string>, login: string) {
    exists p :: p in logins && logins[p] == login
  }

  /** `name` and its first k - 1 numbered variants. */
  ghost function Variants(name: string, k: nat): set<string> {
    if k <= 1 then {name} else Variants(name, k - 1) + {name + ToString(k - 1)}
  }

  lemma {:induction false} VariantsMembers(name: string, k: nat, s: string)
    ensures s in Variants(name, k) <==> s == name || exists j: nat :: 1 <= j < k && s == name + ToString(j)
  {
    if k <= 1 {
    } else {
      VariantsMembers(name, k - 1, s);
      if exists j: nat :: 1 <= j < k && s == name + ToString(j) {
        var j: nat :| 1 <= j < k && s == name + ToString(j);
        assert j == k - 1 || 1 <= j < k - 1;
      }
    }
  }

  lemma {:induction false} VariantsDistinct(name: string, k: nat)
    requires k >= 1
    ensures |Variants(name, k)| == k
  {
    if k == 1 {
    } else {
      var last := name + ToString(k - 1);
      VariantsDistinct(name, k - 1);
      VariantsMembers(name, k - 1, last);
      if last in Variants(name, k - 1) {
        assert last != name by {
          assert |last| > |name|;
        }
        var j: nat :| 1 <= j < k - 1 && last == name + ToString(j);
        assert last[|name|..] == ToString(k - 1) && (name + ToString(j))[|name|..] == ToString(j);
        NumeralInjective(k - 1, j);
        assert false;
      }
    }
  }

  lemma {:induction false} FewerValuesThanKeys<K, V>(m: map<K, V>)
    ensures |m.Values| <= |m|
    decreases |m|
  {
    if m.Keys == {} {
      assert m == map[];
      assert m.Values == {};
    } else {
      var k :| k in m.Keys;
      var rest := m - {k};
      assert m.Keys == rest.Keys + {k};
      FewerValuesThanKeys(rest);
      assert m.Values <= rest.Values + {m[k]};
      SubsetSize(m.Values, rest.Values + {m[k]});
    }
  }

  /** Pigeonhole: with n logins in use, at most n variants of a name can be taken. */
  lemma VariantsRunOut(logins: map<PlayerId, string>, name: string, k: nat)
    requires k >= 1 && Used(logins, name)
    requires forall j :: 1 <= j < k ==> Used(logins, name + ToString(j))
    ensures k <= |logins|
  {
    forall s | s in Variants(name, k)
      ensures s in logins.Values
    {
      VariantsMembers(name, k, s);
      assert Used(logins, s);
    }
    VariantsDistinct(name, k);
    SubsetSize(Variants(name, k), logins.Values);
    FewerValuesThanKeys(logins);
  }

  /** The unbounded suffix search, from suffix k on. */
  function FirstFree(logins: map<PlayerId, string>, name: string, k: nat): (r: string)
    requires k >= 1 && Used(logins, name)
    requires forall j :: 1 <= j < k ==> Used(logins, name + ToString(j))
    ensures !Used(logins, r)
    ensures exists j: nat :: k <= j <= |logins| && r == name + ToString(j)
                        && forall i :: 1 <= i < j ==> Used(logins, name + ToString(i))
    decreases |logins| - k
  {
    VariantsRunOut(logins, name, k);
    if !Used(logins, name + ToString(k)) then name + ToString(k)
    else
      VariantsRunOut(logins, name, k + 1);
      FirstFree(logins, name, k + 1)
  }

  function ChosenLogin(logins: map<PlayerId, string>, name: string): (r: string)
    ensures !Used(logins, r)
  {
    if Used(logins, name) then FirstFree(logins, name, 1) else name
  }

  // ----------------------------------------------------------------- requests

  function HostLeftMail(host: PlayerId, fellows: seq<PlayerId>): (ms: seq<Mail>)
    ensures forall i :: 0 <= i < |ms| ==> ms[i].player in fellows
  {
    if fellows == [] then [] else [Mail(fellows[0], HostLeft(host))] + HostLeftMail(host, fellows[1..])
  }

  /** The commands that take every connection between p and its fellows down, on both sides. */
  function UnpairMail(p: PlayerId, fellows: seq<PlayerId>): (ms: seq<Mail>)
    ensures forall i :: 0 <= i < |ms| ==> ms[i].player == p || ms[i].player in fellows
  {
    if fellows == [] then []
    else if fellows[0] == p then UnpairMail(p, fellows[1..])
    else
      [Mail(fellows[0], DisconnectFromPeer(p)), Mail(p, DisconnectFromPeer(fellows[0]))]
      + UnpairMail(p, fellows[1..])
  }

  /** The commands that connect p to the host of a game. */
  function HostMail(logins: map<PlayerId, string>, p: PlayerId, host: PlayerId): (ms: seq<Mail>)
    requires p in logins && host in logins
    ensures forall i :: 0 <= i < |ms| ==> ms[i].player == p || ms[i].player == host
  {
    [Mail(host, ConnectToPeer(logins[p], p, true)), Mail(p, JoinGame(logins[host], host))]
  }

  /** The commands that connect p to the members of a game other than its host. */
  function PairMail(logins: map<PlayerId, string>, p: PlayerId, host: PlayerId, fellows: seq<PlayerId>): (ms: seq<Mail>)
    requires p in logins && forall x :: x in fellows ==> x in logins
    ensures forall i :: 0 <= i < |ms| ==> ms[i].player == p || ms[i].player in fellows
  {
    if fellows == [] then []
    else
      assert fellows[0] in fellows;
      if fellows[0] == p || fellows[0] == host then PairMail(logins, p, host, fellows[1..])
    else
      [Mail(fellows[0], ConnectToPeer(logins[p], p, true)),
       Mail(p, ConnectToPeer(logins[fellows[0]], fellows[0], false))]
      + PairMail(logins, p, host, fellows[1..])
  }

  /** Everyone that a leaving player's commands go to is logged in. */
  lemma FellowsAddressable(l: Tables, p: PlayerId)
    ensures p in l.games ==> Addressable(l, HostLeftMail(p, Ascending(l.games[p])))
    ensures p in l.playersGames && l.playersGames[p] in l.games ==>
              Addressable(l, UnpairMail(p, Ascending(l.games[l.playersGames[p]])))
  {
    forall g, x | g in l.games && x in l.games[g]
      ensures x in l.playerSockets
    {
      assert x in l.playersGames;
    }
    if p in l.playersGames && l.playersGames[p] in l.games {
      var fellows := Ascending(l.games[l.playersGames[p]]);
      assert forall x :: x in fellows ==> x in l.playerSockets;
    }
  }

  /** First half of `disconnectPlayerFromGame`: a game hosted by p ends. */
  ghost function EndHosted(l: Tables, p: PlayerId): (r: Tables) {
    FellowsAddressable(l, p);
    if p in l.games then
      var told := Post(l, HostLeftMail(p, Ascending(l.games[p])));
      SendGamelist(told.(games := l.games - {p}))
    else l
  }

  /** Second half: p leaves the game it joined. */
  ghost function LeaveJoined(l: Tables, p: PlayerId): (r: Tables)
    requires p !in l.games
  {
    FellowsAddressable(l, p);
    if p in l.playersGames then
      var g := l.playersGames[p];
      var left := if g in l.games
                  then Post(l, UnpairMail(p, Ascending(l.games[g]))).(games := l.games[g := l.games[g] - {p}])
                  else l;
      left.(playersGames := l.playersGames - {p})
    else l
  }

  /** `disconnectPlayerFromGame`. */
  ghost function Leave(l: Tables, p: PlayerId): (r: Tables)
    ensures p !in r.games && p !in r.playersGames && forall g :: g in r.games ==> p !in r.games[g]
    ensures r.playerSockets == l.playerSockets && r.socketPlayers == l.socketPlayers && r.sockets == l.sockets
    ensures r.logins == l.logins && r.nextId == l.nextId
  {
    LeaveJoined(EndHosted(l, p), p)
  }

  /** The "login" request. */
  ghost function Login(l: Tables, s: Socket, name: NameArg): (r: Tables)
    requires s in l.sockets
  {
    if s in l.socketPlayers || !name.Name? then l
    else
      l.(playerSockets := l.playerSockets[l.nextId := s],
         socketPlayers := l.socketPlayers[s := l.nextId],
         logins := l.logins[l.nextId := ChosenLogin(l.logins, name.value)],
         nextId := l.nextId + 1)
  }

  /** The "reconnect" request. */
  ghost function Reconnect(l: Tables, s: Socket, id: Arg): (r: Tables)
    requires s in l.sockets
  {
    if s in l.socketPlayers || !id.Int? || id.value !in l.playerSockets then l
    else
      l.(socketPlayers := (l.socketPlayers - {l.playerSockets[id.value]})[s := id.value],
         playerSockets := l.playerSockets[id.value := s])
  }

  /** p opens a game of its own. */
  ghost function Hosting(l: Tables, p: PlayerId): (r: Tables)
    requires p in l.logins && p !in l.playersGames && p !in l.games
  {
    l.(games := l.games[p := {p}], playersGames := l.playersGames[p := p])
  }

  /** The "hostGame" request. */
  ghost function Host(l: Tables, s: Socket): (r: Tables)
    requires s in l.sockets
  {
    if s !in l.socketPlayers then l
    else
      var p := l.socketPlayers[s];
      SendGamelist(Post(Hosting(Leave(l, p), p), [Mail(p, HostGame)]))
  }

  /** The "leaveGame" request. */
  ghost function LeaveGame(l: Tables, s: Socket): (r: Tables)
    requires s in l.sockets
  {
    if s in l.socketPlayers then Leave(l, l.socketPlayers[s]) else l
  }

  /** p becomes a member of the game of a host. */
  ghost function Joined(l: Tables, p: PlayerId, host: PlayerId): (r: Tables)
    requires p in l.logins && p !in l.playersGames && host in l.games
    ensures host in r.games && p in r.games[host]
    ensures r.logins == l.logins && r.playerSockets == l.playerSockets && r.out == l.out
    ensures forall x :: x in r.games[host] ==> x in r.logins
  {
    l.(games := l.games[host := l.games[host] + {p}], playersGames := l.playersGames[p := host])
  }

  /** p enters the game of a host. */
  ghost function Enter(l: Tables, p: PlayerId, host: PlayerId): (r: Tables)
    requires p in l.logins && p !in l.playersGames && host in l.games
  {
    var joined := Joined(l, p, host);
    Post(Post(joined, HostMail(l.logins, p, host)), PairMail(l.logins, p, host, Ascending(joined.games[host])))
  }

  /** The "joinGame" request. */
  ghost function Join(l: Tables, s: Socket, host: Arg): (r: Tables)
    requires s in l.sockets
  {
    if host.Missing? || s !in l.socketPlayers then l
    else
      var p := l.socketPlayers[s];
      var left := Leave(l, p);
      if host.NotAnInt? || host.value !in left.games then left else Enter(left, p, host.value)
  }

  /** The "sendIceMsg" request of a player that is logged in. */
  ghost function SendIce(l: Tables, s: Socket, remote: Arg, message: string): (r: Tables)
    requires s in l.socketPlayers
  {
    if !remote.Int? || remote.value !in l.playerSockets then l
    else Post(l, [Mail(remote.value, IceMsg(l.socketPlayers[s], message))])
  }

  /** The "sendIceMsg" request of any connected socket. `mSocketPlayers[socket]` makes player 0 of a
      sender that is not logged in, before the message goes out. */
  function SendIceFrom(l: Lobby, s: Socket, remote: Arg, message: string): Lobby {
    if !remote.Int? || remote.value !in l.playerSockets then l
    else if s in l.socketPlayers then Post(l, [Mail(remote.value, IceMsg(l.socketPlayers[s], message))])
    else Post(l.(socketPlayers := l.socketPlayers[s := 0]), [Mail(remote.value, IceMsg(0, message))])
  }

  /** The tables survive this if and only if the sender is logged in or the request is refused. */
  lemma SendIceKeepsTablesIff(l: Tables, s: Socket, remote: Arg, message: string)
    requires s in l.sockets
    ensures Consistent(SendIceFrom(l, s, remote, message))
       <==> s in l.socketPlayers || !remote.Int? || remote.value !in l.playerSockets
  {
    var r := SendIceFrom(l, s, remote, message);
    if remote.Int? && remote.value in l.playerSockets {
      if s in l.socketPlayers {
        assert r == SendIce(l, s, remote, message);
      } else {
        assert r.socketPlayers[s] == 0 && r.playerSockets == l.playerSockets;
        assert !SocketsInverse(r);
      }
    }
  }

  /** A new connection. */
  ghost function Open(l: Tables, s: Socket): (r: Tables) {
    l.(sockets := l.sockets + {s})
  }

  /** p, who is in no game, is forgotten together with its socket. */
  ghost function LogOut(l: Tables, p: PlayerId, s: Socket): (r: Tables)
    requires p !in l.playersGames && forall g :: g in l.games ==> p !in l.games[g]
    requires s in l.socketPlayers && l.socketPlayers[s] == p
  {
    l.(playerSockets := l.playerSockets - {p},
       socketPlayers := l.socketPlayers - {s},
       logins := l.logins - {p},
       sockets := l.sockets - {s})
  }

  /** The `disconnected` signal followed by the removal of the socket. */
  ghost function Close(l: Tables, s: Socket): (r: Tables) {
    if s in l.socketPlayers then
      LogOut(Leave(l, l.socketPlayers[s]), l.socketPlayers[s], s)
    else l.(sockets := l.sockets - {s})
  }
}
