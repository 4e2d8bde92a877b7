/** The lobby server as it runs: request handlers that update its tables in place and loop over
    members, each proved to do what `LobbyTables` says. Every look-up in a table below is one the
    original makes with `at`, `operator[]` or a dereferenced iterator; that it is allowed here
    means that `at` never throws and `operator[]` never inserts a null socket. */
module LobbyServer {
  import opened Bytes
  import opened Decimal
  import opened LobbyTables
  import opened Order

  /** What a handler leaves in `result` and `error`. */
  datatype Reply =
    | LoggedIn(id: PlayerId, login: string, games: map<string, PlayerId>)
    | Ok
    | Error(text: string)
    | Nothing
    | Threw

  lemma AscendingStep(s: set<int>)
    requires s != {}
    ensures Ascending(s) == [Min(s)] + Ascending(s - {Min(s)})
    ensures Ascending(s)[1..] == Ascending(s - {Min(s)})
  {
  }

  lemma HostLeftStep(host: PlayerId, todo: set<PlayerId>)
    requires todo != {}
    ensures var f := Min(todo);
            HostLeftMail(host, Ascending(todo))
            == [Mail(f, HostLeft(host))] + HostLeftMail(host, Ascending(todo - {f}))
  {
    AscendingStep(todo);
  }

  lemma UnpairStep(p: PlayerId, todo: set<PlayerId>)
    requires todo != {}
    ensures var f := Min(todo);
            var later := UnpairMail(p, Ascending(todo - {f}));
            UnpairMail(p, Ascending(todo))
            == if f == p then later
               else [Mail(f, DisconnectFromPeer(p))] + ([Mail(p, DisconnectFromPeer(f))] + later)
  {
    AscendingStep(todo);
  }

  lemma PairFirst(logins: map<PlayerId, string>, p: PlayerId, host: PlayerId, f: PlayerId, later: seq<PlayerId>)
    requires p in logins && f in logins && forall x :: x in later ==> x in logins
    ensures forall x :: x in [f] + later ==> x in logins
    ensures PairMail(logins, p, host, [f] + later)
         == if f == p || f == host then PairMail(logins, p, host, later)
            else [Mail(f, ConnectToPeer(logins[p], p, true))]
                 + ([Mail(p, ConnectToPeer(logins[f], f, false))] + PairMail(logins, p, host, later))
  {
    assert ([f] + later)[0] == f && ([f] + later)[1..] == later;
  }

  lemma PairStep(logins: map<PlayerId, string>, p: PlayerId, host: PlayerId, todo: set<PlayerId>)
    requires todo != {} && p in logins && forall x :: x in todo ==> x in logins
    ensures var f := Min(todo);
            var later := PairMail(logins, p, host, Ascending(todo - {f}));
            PairMail(logins, p, host, Ascending(todo))
            == if f == p || f == host then later
               else [Mail(f, ConnectToPeer(logins[p], p, true))]
                    + ([Mail(p, ConnectToPeer(logins[f], f, false))] + later)
  {
    AscendingStep(todo);
    PairFirst(logins, p, host, Min(todo), Ascending(todo - {Min(todo)}));
  }

  /** A batch of commands on its way out: from `start`, the commands in `pending` are still to be
      written for the network log to reach `goal`. */
  ghost predicate Sending(now: Lobby, start: Lobby, pending: seq<Mail>, goal: seq<Emission>) {
    && now == start.(out := now.out)
    && Addressable(start, pending)
    && now.out + Stamps(start, pending) == goal
  }

  lemma SendingStarts(l: Lobby, ms: seq<Mail>)
    requires Addressable(l, ms)
    ensures Sending(l, l, ms, Post(l, ms).out)
  {
  }

  lemma SendingEnds(now: Lobby, start: Lobby, ms: seq<Mail>)
    requires Addressable(start, ms) && Sending(now, start, [], Post(start, ms).out)
    ensures now == Post(start, ms)
  {
    assert now.out + [] == now.out;
  }

  lemma SentOne(now: Lobby, start: Lobby, m: Mail, later: seq<Mail>, goal: seq<Emission>)
    requires Sending(now, start, [m] + later, goal)
    ensures m.player in start.playerSockets
    ensures Sending(now.(out := now.out + [Stamp(start, m)]), start, later, goal)
  {
    var ms := [m] + later;
    assert ms[0] == m && ms[1..] == later;
    assert forall i :: 0 <= i < |later| ==> later[i] == ms[i + 1];
    Associate(now.out, [Stamp(start, m)], Stamps(start, later));
  }

  lemma NamesUnique(l: Lobby, names: map<string, PlayerId>)
    requires Consistent(l)
    requires forall g :: g in l.games ==> l.logins[g] in names && names[l.logins[g]] == g
    requires forall name :: name in names ==> exists g :: g in l.games && l.logins[g] == name
    ensures names == GameNames(l)
  {
    forall name
      ensures name in names <==> name in GameNames(l)
    {
    }
  }

  class Server {
    var mSockets: set<Socket>
    var mPlayerSockets: map<PlayerId, Socket>
    var mSocketPlayers: map<Socket, PlayerId>
    var mPlayersLogins: map<PlayerId, string>
    var mPlayersGames: map<PlayerId, PlayerId>
    var mGames: map<PlayerId, set<PlayerId>>
    var mCurrentPlayerId: PlayerId
    /** Everything written to the network. */
    ghost var out: seq<Emission>

    ghost function State(): Lobby
      reads this
    {
      Lobby(mSockets, mPlayerSockets, mSocketPlayers, mPlayersLogins, mPlayersGames, mGames, mCurrentPlayerId, out)
    }

    constructor ()
      ensures State() == EMPTY
    {
      mSockets, mPlayerSockets, mSocketPlayers, mPlayersLogins := {}, map[], map[], map[];
      mPlayersGames, mGames, mCurrentPlayerId, out := map[], map[], 0, [];
    }

    /** `sendJson`: a socket that is not connected (a null one, for instance) means all of them. */
    method SendJson(socket: Option<Socket>, command: Command)
      modifies this`out
      ensures out == old(out) + [
                if socket.Some? && socket.value in mSockets
                then Unicast(socket.value,
                             if socket.value in mSocketPlayers then Some(mSocketPlayers[socket.value]) else None,
                             command)
                else Broadcast(command)]
    {
      if socket.Some? && socket.value in mSockets {
        var player := if socket.value in mSocketPlayers then Some(mSocketPlayers[socket.value]) else None;
        out := out + [Unicast(socket.value, player, command)];
      } else {
        out := out + [Broadcast(command)];
      }
    }

    /** `sendRequest` of a command to `mPlayerSockets[player]`, the first of a pending batch. */
    method SendToPlayer(player: PlayerId, command: Command,
                        ghost start: Lobby, ghost later: seq<Mail>, ghost goal: seq<Emission>)
      requires Consistent(start) && Sending(State(), start, [Mail(player, command)] + later, goal)
      modifies this`out
      ensures Sending(State(), start, later, goal)
      ensures State() == old(State()).(out := out)
    {
      SentOne(State(), start, Mail(player, command), later, goal);
      SendJson(Some(mPlayerSockets[player]), command);
    }

    /** `sendRequest` of a single command to a player's socket. */
    method SendAlone(player: PlayerId, command: Command)
      requires Consistent(State()) && player in mPlayerSockets
      modifies this`out
      ensures State() == Post(old(State()), [Mail(player, command)])
    {
      ghost var start, mail := State(), [Mail(player, command)];
      SendingStarts(start, mail);
      assert mail == mail + [];
      SendToPlayer(player, command, start, [], Post(start, mail).out);
      SendingEnds(State(), start, mail);
    }

    /** `gamelistJson`. */
    method GamelistJson() returns (result: map<string, PlayerId>)
      requires Consistent(State())
      ensures result == GameNames(State())
    {
      result := map[];
      var todo := mGames.Keys;
      while todo != {}
        invariant todo <= mGames.Keys
        invariant forall g :: g in mGames && g !in todo ==>
                    mPlayersLogins[g] in result && result[mPlayersLogins[g]] == g
        invariant forall name :: name in result ==> exists g :: g in mGames && mPlayersLogins[g] == name
        decreases todo
      {
        var host := Min(todo);
        result := result[mPlayersLogins[host] := host];
        todo := todo - {host};
      }
      NamesUnique(State(), result);
    }

    /** `sendGamelist()` without a socket. */
    method SendGamelistToAll()
      requires Consistent(State())
      modifies this`out
      ensures State() == SendGamelist(old(State()))
    {
      var games := GamelistJson();
      SendJson(None, GameList(games));
    }

    /** The loop over the fellows of a leaving host. */
    method TellHostLeft(leaving: PlayerId)
      requires Consistent(State()) && leaving in mGames
      modifies this`out
      ensures Addressable(old(State()), HostLeftMail(leaving, Ascending(mGames[leaving])))
      ensures State() == Post(old(State()), HostLeftMail(leaving, Ascending(mGames[leaving])))
    {
      ghost var start := State();
      var todo := mGames[leaving];
      ghost var mail := HostLeftMail(leaving, Ascending(todo));
      SendingStarts(start, mail);
      while todo != {}
        invariant Sending(State(), start, HostLeftMail(leaving, Ascending(todo)), Post(start, mail).out)
        decreases todo
      {
        var fellow := Min(todo);
        HostLeftStep(leaving, todo);
        SendToPlayer(fellow, HostLeft(leaving), start, HostLeftMail(leaving, Ascending(todo - {fellow})),
                     Post(start, mail).out);
        todo := todo - {fellow};
      }
      SendingEnds(State(), start, mail);
    }

    /** The loop that disconnects a leaving player from the members of a game. */
    method DisconnectFellows(leaving: PlayerId, game: PlayerId)
      requires Consistent(State()) && game in mGames && leaving in mPlayerSockets
      modifies this`out
      ensures Addressable(old(State()), UnpairMail(leaving, Ascending(mGames[game])))
      ensures State() == Post(old(State()), UnpairMail(leaving, Ascending(mGames[game])))
    {
      ghost var start := State();
      var todo := mGames[game];
      ghost var mail := UnpairMail(leaving, Ascending(todo));
      ghost var goal := Post(start, mail).out;
      SendingStarts(start, mail);
      while todo != {}
        invariant Sending(State(), start, UnpairMail(leaving, Ascending(todo)), goal)
        decreases todo
      {
        var fellow := Min(todo);
        UnpairStep(leaving, todo);
        if fellow != leaving {
          ghost var later := UnpairMail(leaving, Ascending(todo - {fellow}));
          SendToPlayer(fellow, DisconnectFromPeer(leaving),
                       start, [Mail(leaving, DisconnectFromPeer(fellow))] + later, goal);
          SendToPlayer(leaving, DisconnectFromPeer(fellow), start, later, goal);
        }
        todo := todo - {fellow};
      }
      SendingEnds(State(), start, mail);
    }

    /** `disconnectPlayerFromGame`. */
    method DisconnectPlayerFromGame(leaving: PlayerId)
      requires Consistent(State())
      modifies this
      ensures State() == Leave(old(State()), leaving)
    {
      if leaving in mGames {
        TellHostLeft(leaving);
        mGames := mGames - {leaving};
        SendGamelistToAll();
      }
      assert State() == EndHosted(old(State()), leaving);
      if leaving in mPlayersGames {
        var gameId := mPlayersGames[leaving];
        if gameId in mGames {
          DisconnectFellows(leaving, gameId);
          mGames := mGames[gameId := mGames[gameId] - {leaving}];
        }
        mPlayersGames := mPlayersGames - {leaving};
      }
    }

    /** A new connection. */
    method OnConnected(socket: Socket)
      requires Consistent(State())
      modifies this
      ensures State() == Open(old(State()), socket)
    {
      mSockets := mSockets + {socket};
    }

    /** The `disconnected` handler, and the server's own removal of the socket after it. */
    method OnDisconnected(socket: Socket)
      requires Consistent(State())
      modifies this
      ensures State() == Close(old(State()), socket)
    {
      if socket in mSocketPlayers {
        var leaving := mSocketPlayers[socket];
        DisconnectPlayerFromGame(leaving);
        mPlayerSockets := mPlayerSockets - {leaving};
        mSocketPlayers := mSocketPlayers - {socket};
        mPlayersLogins := mPlayersLogins - {leaving};
      }
      mSockets := mSockets - {socket};
    }

    /** The `loginExists` loop. */
    method LoginExists(login: string) returns (found: bool)
      ensures found <==> Used(mPlayersLogins, login)
    {
      var todo := mPlayersLogins.Keys;
      while todo != {}
        invariant todo <= mPlayersLogins.Keys
        invariant forall p :: p in mPlayersLogins && p !in todo ==> mPlayersLogins[p] != login
        decreases todo
      {
        var p := Min(todo);
        if mPlayersLogins[p] == login {
          return true;
        }
        todo := todo - {p};
      }
      found := false;
    }

    /** The choice of a login nobody uses; the search loop is unbounded in the original. */
    method ChooseLogin(name: string) returns (login: string)
      ensures login == ChosenLogin(mPlayersLogins, name)
    {
      login := name;
      var taken := LoginExists(login);
      if taken {
        var suffix := 1;
        VariantsRunOut(mPlayersLogins, name, 1);
        while true
          invariant 1 <= suffix <= |mPlayersLogins| && login == name && Used(mPlayersLogins, name)
          invariant forall j :: 1 <= j < suffix ==> Used(mPlayersLogins, name + ToString(j))
          invariant FirstFree(mPlayersLogins, name, suffix) == FirstFree(mPlayersLogins, name, 1)
          decreases |mPlayersLogins| - suffix
        {
          var newLogin := login + ToString(suffix);
          suffix := suffix + 1;
          taken := LoginExists(newLogin);
          if !taken {
            login := newLogin;
            break;
          }
          VariantsRunOut(mPlayersLogins, name, suffix);
        }
      }
    }

    /** The "login" handler. */
    method OnLogin(socket: Socket, name: NameArg) returns (reply: Reply)
      requires Consistent(State()) && socket in mSockets
      modifies this
      ensures State() == Login(old(State()), socket, name)
      ensures reply == if socket in old(mSocketPlayers) then Error("Already logged in")
                       else if name.NoName? then Error("Need 1 parameters: login (string)")
                       else if name.NotAString? then Threw
                       else LoggedIn(old(mCurrentPlayerId), ChosenLogin(old(mPlayersLogins), name.value),
                                     GameNames(State()))
    {
      if socket in mSocketPlayers {
        return Error("Already logged in");
      }
      if name.NoName? {
        return Error("Need 1 parameters: login (string)");
      }
      if name.NotAString? {
        return Threw;
      }
      var login := ChooseLogin(name.value);
      mPlayerSockets := mPlayerSockets[mCurrentPlayerId := socket];
      mSocketPlayers := mSocketPlayers[socket := mCurrentPlayerId];
      mPlayersLogins := mPlayersLogins[mCurrentPlayerId := login];
      mCurrentPlayerId := mCurrentPlayerId + 1;
      assert State() == Login(old(State()), socket, name);
      var games := GamelistJson();
      reply := LoggedIn(mCurrentPlayerId - 1, login, games);
    }

    /** The "reconnect" handler. */
    method OnReconnect(socket: Socket, arg: Arg) returns (reply: Reply)
      requires Consistent(State()) && socket in mSockets
      modifies this
      ensures State() == Reconnect(old(State()), socket, arg)
      ensures reply == if socket in old(mSocketPlayers) then Error("Already logged in")
                       else if arg.Missing? then Error("Need 1 parameters: id (int)")
                       else if arg.NotAnInt? then Threw
                       else if arg.value !in old(mPlayerSockets) then Error("id not found")
                       else Ok
    {
      if socket in mSocketPlayers {
        return Error("Already logged in");
      }
      if arg.Missing? {
        return Error("Need 1 parameters: id (int)");
      }
      if arg.NotAnInt? {
        return Threw;
      }
      var id := arg.value;
      if id !in mPlayerSockets {
        return Error("id not found");
      }
      mSocketPlayers := mSocketPlayers - {mPlayerSockets[id]};
      mPlayerSockets := mPlayerSockets - {id};
      mPlayerSockets := mPlayerSockets[id := socket];
      mSocketPlayers := mSocketPlayers[socket := id];
      reply := Ok;
    }

    /** The "hostGame" handler. */
    method OnHostGame(socket: Socket) returns (reply: Reply)
      requires Consistent(State()) && socket in mSockets
      modifies this
      ensures State() == Host(old(State()), socket)
      ensures reply == Nothing
    {
      if socket in mSocketPlayers {
        var hosting := mSocketPlayers[socket];
        DisconnectPlayerFromGame(hosting);
        ghost var left := State();
        // not a host any more: `mGames[hosting]` starts from an empty set
        mGames := mGames[hosting := {hosting}];
        mPlayersGames := mPlayersGames[hosting := hosting];
        assert State() == Hosting(left, hosting);
        SendAlone(hosting, HostGame);
        SendGamelistToAll();
      }
      reply := Nothing;
    }

    /** The "leaveGame" handler. */
    method OnLeaveGame(socket: Socket) returns (reply: Reply)
      requires Consistent(State()) && socket in mSockets
      modifies this
      ensures State() == LeaveGame(old(State()), socket)
      ensures reply == Nothing
    {
      if socket in mSocketPlayers {
        DisconnectPlayerFromGame(mSocketPlayers[socket]);
      }
      reply := Nothing;
    }

    /** The loop that connects a joining player to the members other than the host. */
    method ConnectFellows(joining: PlayerId, host: PlayerId)
      requires Consistent(State()) && host in mGames && joining in mGames[host]
      requires forall x :: x in mGames[host] ==> x in mPlayersLogins
      modifies this`out
      ensures Addressable(old(State()), PairMail(mPlayersLogins, joining, host, Ascending(mGames[host])))
      ensures State() == Post(old(State()), PairMail(mPlayersLogins, joining, host, Ascending(mGames[host])))
    {
      ghost var start := State();
      var todo := mGames[host];
      ghost var mail := PairMail(mPlayersLogins, joining, host, Ascending(todo));
      ghost var goal := Post(start, mail).out;
      SendingStarts(start, mail);
      while todo != {}
        invariant todo <= mGames[host]
        invariant Sending(State(), start, PairMail(mPlayersLogins, joining, host, Ascending(todo)), goal)
        decreases todo
      {
        var existing := Min(todo);
        PairStep(mPlayersLogins, joining, host, todo);
        if existing != joining && existing != host {
          ghost var later := PairMail(mPlayersLogins, joining, host, Ascending(todo - {existing}));
          var toJoining := ConnectToPeer(mPlayersLogins[existing], existing, false);
          SendToPlayer(existing, ConnectToPeer(mPlayersLogins[joining], joining, true),
                       start, [Mail(joining, toJoining)] + later, goal);
          SendToPlayer(joining, toJoining, start, later, goal);
        }
        todo := todo - {existing};
      }
      SendingEnds(State(), start, mail);
    }

    /** The two commands that connect a joining player to the host. */
    method ConnectHost(joining: PlayerId, host: PlayerId)
      requires Consistent(State()) && joining in mPlayersLogins && host in mPlayersLogins
      modifies this`out
      ensures State() == Post(old(State()), HostMail(mPlayersLogins, joining, host))
      ensures Consistent(State())
    {
      ghost var start := State();
      ghost var first := HostMail(mPlayersLogins, joining, host);
      ghost var goal := Post(start, first).out;
      assert first == [first[0]] + ([first[1]] + []);
      SendingStarts(start, first);
      SendToPlayer(host, ConnectToPeer(mPlayersLogins[joining], joining, true), start, [first[1]] + [], goal);
      SendToPlayer(joining, JoinGame(mPlayersLogins[host], host), start, [], goal);
      SendingEnds(State(), start, first);
    }

    /** The part of the "joinGame" handler after its checks. */
    method EnterGame(joining: PlayerId, host: PlayerId)
      requires Consistent(State()) && joining in mPlayersLogins && joining !in mPlayersGames && host in mGames
      modifies this
      ensures State() == Enter(old(State()), joining, host)
    {
      mGames := mGames[host := mGames[host] + {joining}];
      mPlayersGames := mPlayersGames[joining := host];
      assert State() == Joined(old(State()), joining, host);
      ConnectHost(joining, host);
      ConnectFellows(joining, host);
    }

    /** The "joinGame" handler. */
    method OnJoinGame(socket: Socket, arg: Arg) returns (reply: Reply)
      requires Consistent(State()) && socket in mSockets
      modifies this
      ensures State() == Join(old(State()), socket, arg)
      ensures arg.Missing? ==> reply == Error("Need 1 parameters: remotePlayerId (int)")
      ensures !arg.Missing? && socket !in old(mSocketPlayers) ==> reply == Error("playerId not found")
      ensures !arg.Missing? && socket in old(mSocketPlayers) ==>
                reply == if arg.NotAnInt? then Threw
                         else if arg.value !in Leave(old(State()), old(mSocketPlayers)[socket]).games
                         then Error("game not found")
                         else Nothing
    {
      if arg.Missing? {
        return Error("Need 1 parameters: remotePlayerId (int)");
      }
      if socket !in mSocketPlayers {
        return Error("playerId not found");
      }
      var joining := mSocketPlayers[socket];
      DisconnectPlayerFromGame(joining);
      if arg.NotAnInt? {
        return Threw;
      }
      var host := arg.value;
      if host !in mGames {
        return Error("game not found");
      }
      EnterGame(joining, host);
      reply := Nothing;
    }

    /** The "sendIceMsg" handler. A sender that is not logged in becomes player 0. */
    method OnSendIceMsg(socket: Socket, params: nat, remote: Arg, message: string) returns (reply: Reply)
      requires Consistent(State()) && socket in mSockets
      modifies this
      ensures State() == if params < 3 then old(State()) else SendIceFrom(old(State()), socket, remote, message)
      ensures reply == if params < 3 then Error("Need 3 parameters: playerId (int), remotePlayerId (int), sdp (string)")
                       else if !remote.Int? then Threw
                       else if remote.value !in old(mPlayerSockets) then Error("remotePlayerId not found")
                       else Nothing
    {
      if params < 3 {
        return Error("Need 3 parameters: playerId (int), remotePlayerId (int), sdp (string)");
      }
      if !remote.Int? {
        return Threw;
      }
      if remote.value !in mPlayerSockets {
        return Error("remotePlayerId not found");
      }
      if socket !in mSocketPlayers {
        mSocketPlayers := mSocketPlayers[socket := 0];
      }
      OneStamp(State(), Mail(remote.value, IceMsg(mSocketPlayers[socket], message)));
      SendJson(Some(mPlayerSockets[remote.value]), IceMsg(mSocketPlayers[socket], message));
      reply := Nothing;
    }
  }

  lemma OneStamp(l: Lobby, m: Mail)
    requires m.player in l.playerSockets
    ensures Stamps(l, [m]) == [Unicast(l.playerSockets[m.player], Some(m.player), m.command)]
  {
    assert [m][0].player in l.playerSockets && [m][1..] == [];
  }
}
