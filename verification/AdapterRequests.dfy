/** From the client's requests to the games: what each command does when it arrives as a message, and
    what is answered. */
module AdapterRequests {
  import opened Bytes
  import opened Decimal
  import opened JsonText
  import opened RpcCalls
  import opened AdapterCommands
  import AdapterMessages
  import AdapterTasks
  import GpgNetMessage

  /** The parameters in a message: those of an array, and none if there is no array. */
  function ParamsOf(message: Fields): Items {
    var params := MemberOrNull(message, "params");
    if params.Arr? then params.items else NoItems
  }

  /** A request whose method is in the table is handled with the parameters it has, and answered with
      its id and the result or the error of the handler. */
  lemma RequestReachesHandler(o: AdapterTasks.Options, text: Str -> string, s: Server, message: Fields, w: World,
                              reports: seq<Report>, name: string)
    requires Member(message, "method") == Some(Str(name)) && name in TABLE
    ensures var h := Handle(o, s.adapter, w, name, ParamsOf(message));
            var r := Absorb(o, text, s, Received(message, w, reports));
            && r.adapter == h.0 && h.1.Returned?
            && Responses(r.peer.sent)
               == match Member(message, "id")
                  case None => Responses(s.peer.sent)
                  case Some(id) =>
                    Responses(s.peer.sent)
                    + [if h.1.result != Null then ResultResponse(Some(id), h.1.result)
                       else ErrorResponse(Some(id), h.1.error)]
  {
    var h := Handle(o, s.adapter, w, name, ParamsOf(message));
    HandlersAnswer(o, s.adapter, w, name, ParamsOf(message));
    assert Params(message) == ParamsOf(message);
    OneResponse(s.peer, message, h.1, ReportNotices(o, reports));
  }

  /** Such a request as `sendRequest` writes it. */
  function Call(name: string, params: Items, id: int): Fields {
    Request(name, Arr(params), Some(Int(id)))
  }

  lemma CallReachesHandler(o: AdapterTasks.Options, text: Str -> string, s: Server, w: World, reports: seq<Report>,
                           name: string, params: Items, id: int)
    requires name in TABLE
    ensures var h := Handle(o, s.adapter, w, name, params);
            var r := Absorb(o, text, s, Received(Call(name, params, id), w, reports));
            && r.adapter == h.0 && h.1.Returned?
            && Responses(r.peer.sent)
               == Responses(s.peer.sent)
                  + [if h.1.result != Null then ResultResponse(Some(Int(id)), h.1.result)
                     else ErrorResponse(Some(Int(id)), h.1.error)]
  {
    RequestMembers(name, Arr(params), Some(Int(id)));
    RequestReachesHandler(o, text, s, Call(name, params, id), w, reports, name);
  }

  /** The call is carried out as the event, and answered "ok". */
  predicate DoneAs(o: AdapterTasks.Options, s: Server, r: Server, id: int, e: AdapterTasks.Event) {
    r.adapter == AdapterTasks.Step(o, s.adapter, e)
    && Responses(r.peer.sent) == Responses(s.peer.sent) + [ResultResponse(Some(Int(id)), Str("ok"))]
  }

  function After(o: AdapterTasks.Options, text: Str -> string, s: Server, w: World, reports: seq<Report>,
                 name: string, params: Items, id: int): Server
  {
    Absorb(o, text, s, Received(Call(name, params, id), w, reports))
  }

  /** The handler's answer to the call. */
  predicate Does(o: AdapterTasks.Options, a: AdapterTasks.Adapter, w: World, name: string, params: Items,
                 e: AdapterTasks.Event) {
    Handle(o, a, w, name, params) == (AdapterTasks.Step(o, a, e), Returned(Str("ok"), Null))
  }

  lemma DoneByHandler(o: AdapterTasks.Options, text: Str -> string, s: Server, w: World, reports: seq<Report>,
                      name: string, params: Items, id: int, e: AdapterTasks.Event)
    requires name in TABLE && Does(o, s.adapter, w, name, params, e)
    ensures DoneAs(o, s, After(o, text, s, w, reports, name, params, id), id, e)
  {
    CallReachesHandler(o, text, s, w, reports, name, params, id);
  }

  lemma HostRequest(o: AdapterTasks.Options, text: Str -> string, s: Server, w: World, reports: seq<Report>,
                    hostMap: string, id: int)
    ensures DoneAs(o, s, After(o, text, s, w, reports, "hostGame", Single(Str(hostMap)), id), id,
                   AdapterTasks.Host(w.bytes(hostMap)))
  {
    var e := AdapterTasks.Host(w.bytes(hostMap));
    assert Does(o, s.adapter, w, "hostGame", Single(Str(hostMap)), e);
    DoneByHandler(o, text, s, w, reports, "hostGame", Single(Str(hostMap)), id, e);
  }

  lemma JoinRequest(o: AdapterTasks.Options, text: Str -> string, s: Server, w: World, reports: seq<Report>,
                    login: string, remote: Int32, id: int)
    ensures DoneAs(o, s, After(o, text, s, w, reports, "joinGame", Pair(Str(login), Int(remote)), id), id,
                   AdapterTasks.Join(w.bytes(login), remote, w.udpPort))
  {
    var e := AdapterTasks.Join(w.bytes(login), remote, w.udpPort);
    assert Does(o, s.adapter, w, "joinGame", Pair(Str(login), Int(remote)), e);
    DoneByHandler(o, text, s, w, reports, "joinGame", Pair(Str(login), Int(remote)), id, e);
  }

  /** The three values of a call to connect, as given and as converted. */
  lemma ConnectDoes(o: AdapterTasks.Options, a: AdapterTasks.Adapter, w: World, params: Items,
                    login: string, remote: Int32, offer: bool)
    requires Size(params) == 3
    requires AsString(At(params, 0)) == Some(login)
    requires AsInt(At(params, 1)) == Some(remote) && AsBool(At(params, 2)) == Some(offer)
    ensures Does(o, a, w, "connectToPeer", params, AdapterTasks.Connect(w.bytes(login), remote, offer, w.udpPort))
  {
  }

  lemma ConnectRequest(o: AdapterTasks.Options, text: Str -> string, s: Server, w: World, reports: seq<Report>,
                       login: string, remote: Int32, offer: bool, id: int)
    ensures DoneAs(o, s, After(o, text, s, w, reports, "connectToPeer",
                               Triple(Str(login), Int(remote), Bool(offer)), id),
                   id, AdapterTasks.Connect(w.bytes(login), remote, offer, w.udpPort))
  {
    var params := Triple(Str(login), Int(remote), Bool(offer));
    ConnectDoes(o, s.adapter, w, params, login, remote, offer);
    DoneByHandler(o, text, s, w, reports, "connectToPeer", params, id,
                  AdapterTasks.Connect(w.bytes(login), remote, offer, w.udpPort));
  }

  /** Other JSON values stand for the text, number or boolean that jsoncpp makes of them; and whatever
      it makes nothing of is no value for a command. */
  predicate Converted(login: Json, remote: Json, offer: Json, asText: string, asNumber: Int32, asTruth: bool) {
    && match login {
         case Null => asText == ""
         case Bool(b) => asText == (if b then "true" else "false")
         case Int(i) => asText == ToString(i)
         case Str(t) => asText == t
         case _ => false
       }
    && match remote {
         case Null => asNumber == 0
         case Bool(b) => asNumber == (if b then 1 else 0)
         case Int(i) => asNumber == i
         case _ => false
       }
    && match offer {
         case Null => !asTruth
         case Bool(b) => asTruth == b
         case Int(i) => asTruth == (i != 0)
         case _ => false
       }
  }

  lemma ConvertedRequest(o: AdapterTasks.Options, text: Str -> string, s: Server, w: World, reports: seq<Report>,
                         login: Json, remote: Json, offer: Json, id: int,
                         asText: string, asNumber: Int32, asTruth: bool)
    requires Converted(login, remote, offer, asText, asNumber, asTruth)
    ensures DoneAs(o, s, After(o, text, s, w, reports, "connectToPeer", Triple(login, remote, offer), id), id,
                   AdapterTasks.Connect(w.bytes(asText), asNumber, asTruth, w.udpPort))
  {
    var params := Triple(login, remote, offer);
    ConnectDoes(o, s.adapter, w, params, asText, asNumber, asTruth);
    DoneByHandler(o, text, s, w, reports, "connectToPeer", params, id,
                  AdapterTasks.Connect(w.bytes(asText), asNumber, asTruth, w.udpPort));
  }

  lemma DisconnectRequest(o: AdapterTasks.Options, text: Str -> string, s: Server, w: World, reports: seq<Report>,
                          remote: Int32, id: int)
    ensures DoneAs(o, s, After(o, text, s, w, reports, "disconnectFromPeer", Single(Int(remote)), id), id,
                   AdapterTasks.Disconnect(remote))
  {
    assert Does(o, s.adapter, w, "disconnectFromPeer", Single(Int(remote)), AdapterTasks.Disconnect(remote));
    DoneByHandler(o, text, s, w, reports, "disconnectFromPeer", Single(Int(remote)), id,
                  AdapterTasks.Disconnect(remote));
  }

  lemma SetModeRequest(o: AdapterTasks.Options, text: Str -> string, s: Server, w: World, reports: seq<Report>,
                       mode: string, id: int)
    ensures DoneAs(o, s, After(o, text, s, w, reports, "setLobbyInitMode", Single(Str(mode)), id), id,
                   AdapterTasks.SetInitMode(w.bytes(mode)))
  {
    assert Does(o, s.adapter, w, "setLobbyInitMode", Single(Str(mode)), AdapterTasks.SetInitMode(w.bytes(mode)));
    DoneByHandler(o, text, s, w, reports, "setLobbyInitMode", Single(Str(mode)), id,
                  AdapterTasks.SetInitMode(w.bytes(mode)));
  }

  /** The chunks of a forwarded message: numbers, booleans and strings as such, and a chunk that the
      wire format cannot carry for everything else. */
  predicate ChunkFor(w: World, j: Json, c: GpgNetMessage.Chunk) {
    match j
    case Int(i) => c == GpgNetMessage.IntValue(i)
    case Bool(b) => c == GpgNetMessage.BoolValue(b)
    case Str(t) => c == GpgNetMessage.StringValue(w.bytes(t))
    case _ => c == GpgNetMessage.OtherValue
  }

  lemma ForwardRequest(o: AdapterTasks.Options, text: Str -> string, s: Server, w: World, reports: seq<Report>,
                       header: string, chunks: Items, id: int)
    requires NumbersFit(chunks)
    ensures var cs := ChunksOf(w, chunks);
            && |cs| == Size(chunks) && (forall i :: 0 <= i < |cs| ==> ChunkFor(w, At(chunks, i), cs[i]))
            && DoneAs(o, s, After(o, text, s, w, reports, "sendToGpgNet", Pair(Str(header), Arr(chunks)), id), id,
                      AdapterTasks.Forward(GpgNetMessage.Message(w.bytes(header), cs)))
  {
    var e := AdapterTasks.Forward(GpgNetMessage.Message(w.bytes(header), ChunksOf(w, chunks)));
    ChunksAt(w, chunks);
    ThrowsIff(w, s.adapter, w.bytes(header), chunks);
    assert Does(o, s.adapter, w, "sendToGpgNet", Pair(Str(header), Arr(chunks)), e);
    DoneByHandler(o, text, s, w, reports, "sendToGpgNet", Pair(Str(header), Arr(chunks)), id, e);
  }

  /** The call has no effect and is answered with the error. */
  predicate RefusedWith(s: Server, r: Server, id: int, error: string) {
    r.adapter == s.adapter
    && Responses(r.peer.sent) == Responses(s.peer.sent) + [ErrorResponse(Some(Int(id)), Str(error))]
  }

  lemma RefusedByHandler(o: AdapterTasks.Options, text: Str -> string, s: Server, w: World, reports: seq<Report>,
                         name: string, params: Items, id: int, error: string)
    requires name in TABLE && Handle(o, s.adapter, w, name, params) == (s.adapter, Returned(Null, Str(error)))
    ensures RefusedWith(s, After(o, text, s, w, reports, name, params, id), id, error)
  {
    CallReachesHandler(o, text, s, w, reports, name, params, id);
  }

  const WITH_PARAMETERS := COMMANDS + {"iceMsg", "setIceServers"}

  lemma EmptyIsNotAccepted(name: string, none: Items)
    requires name in WITH_PARAMETERS && Size(none) == 0
    ensures !Accepts(name, none)
  {
  }

  lemma NotAccepted(o: AdapterTasks.Options, a: AdapterTasks.Adapter, w: World, name: string, params: Items)
    requires name in WITH_PARAMETERS && !Accepts(name, params)
    ensures Handle(o, a, w, name, params) == (a, Returned(Null, Str(Complaint(name))))
  {
  }

  /** A message whose chunks are no array is not accepted, nor a mode that is no string. */
  lemma WrongKindIsRefused(o: AdapterTasks.Options, a: AdapterTasks.Adapter, w: World, params: Items)
    ensures Size(params) >= 2 && !At(params, 1).Arr? ==>
              Handle(o, a, w, "sendToGpgNet", params) == (a, Returned(Null, Str(Complaint("sendToGpgNet"))))
    ensures Size(params) >= 1 && !At(params, 0).Str? ==>
              Handle(o, a, w, "setLobbyInitMode", params) == (a, Returned(Null, Str(Complaint("setLobbyInitMode"))))
  {
    if Size(params) >= 2 && !At(params, 1).Arr? {
      NotAccepted(o, a, w, "sendToGpgNet", params);
    }
    if Size(params) >= 1 && !At(params, 0).Str? {
      NotAccepted(o, a, w, "setLobbyInitMode", params);
    }
  }

  /** Without the parameters it needs, a command says which. */
  lemma EmptyCallIsRefused(o: AdapterTasks.Options, text: Str -> string, s: Server, w: World, reports: seq<Report>,
                           name: string, none: Items, id: int)
    requires name in WITH_PARAMETERS && Size(none) == 0
    ensures RefusedWith(s, After(o, text, s, w, reports, name, none, id), id, Complaint(name))
  {
    EmptyIsNotAccepted(name, none);
    NotAccepted(o, s.adapter, w, name, none);
    RefusedByHandler(o, text, s, w, reports, name, none, id, Complaint(name));
  }

  /** What they say. */
  lemma GameComplaints()
    ensures Complaint("hostGame") == "Need 1 parameter: mapName (string)"
    ensures Complaint("joinGame") == "Need 2 parameters: remotePlayerLogin (string), remotePlayerId (int)"
  {
  }

  lemma PeerComplaints()
    ensures Complaint("connectToPeer")
         == "Need 3 parameters: remotePlayerLogin (string), remotePlayerId (int), createOffer (bool)"
    ensures Complaint("disconnectFromPeer") == "Need 1 parameters: remotePlayerId (int)"
  {
  }

  lemma MessageComplaints()
    ensures Complaint("iceMsg") == "Need 2 parameters: remotePlayerId (int), msg (object)"
    ensures Complaint("sendToGpgNet") == "Need 2 parameters: header (string), chunks (array)"
  {
  }

  lemma SettingComplaints()
    ensures Complaint("setLobbyInitMode") == "Need 1 parameters: initMode (string)"
    ensures Complaint("setIceServers") == "Need 1 parameters: iceServers (array) "
  {
  }

  /** The call is answered with the result, and has no effect on queue, relays and games. */
  predicate AnsweredWith(s: Server, r: Server, id: int, result: Json) {
    r.adapter == s.adapter
    && Responses(r.peer.sent) == Responses(s.peer.sent) + [ResultResponse(Some(Int(id)), result)]
  }

  /** These two take any parameters. */
  lemma QuitAndStatusRequests(o: AdapterTasks.Options, text: Str -> string, s: Server, w: World,
                              reports: seq<Report>, params: Items, id: int)
    ensures AnsweredWith(s, After(o, text, s, w, reports, "quit", params, id), id, Str("ok"))
    ensures AnsweredWith(s, After(o, text, s, w, reports, "status", params, id), id, Obj(w.status))
  {
    CallReachesHandler(o, text, s, w, reports, "quit", params, id);
    CallReachesHandler(o, text, s, w, reports, "status", params, id);
  }

  /** What jsoncpp makes an `int` of, without throwing. */
  predicate IsInt(j: Json, i: int) {
    match j
    case Null => i == 0
    case Bool(b) => i == if b then 1 else 0
    case Int(k) => i == k && -0x8000_0000 <= k < 0x8000_0000
    case _ => false
  }

  predicate IsNoInt(j: Json) {
    match j
    case Int(k) => k < -0x8000_0000 || k >= 0x8000_0000
    case Str(_) => true
    case Arr(_) => true
    case Obj(_) => true
    case _ => false
  }

  predicate IsIceMessage(params: Items) {
    Size(params) >= 2 && At(params, 1).Obj?
  }

  /** An ICE message for a peer without a relay is dropped; otherwise the relay may throw. */
  lemma IceMessageTaken(o: AdapterTasks.Options, a: AdapterTasks.Adapter, w: World, params: Items, remote: Int32)
    requires IsIceMessage(params) && IsInt(At(params, 0), remote)
    ensures Handle(o, a, w, "iceMsg", params)
         == (a, if remote in a.relays && w.fault.Some? then Returned(Null, Str(w.fault.value))
                else Returned(Str("ok"), Null))
  {
  }

  lemma IceMessageRefused(o: AdapterTasks.Options, a: AdapterTasks.Adapter, w: World, params: Items)
    requires !IsIceMessage(params) || IsNoInt(At(params, 0))
    ensures Handle(o, a, w, "iceMsg", params)
         == (a, Returned(Null, Str(if IsIceMessage(params) then w.what else Complaint("iceMsg"))))
  {
  }

  lemma ServersHandled(o: AdapterTasks.Options, a: AdapterTasks.Adapter, w: World, params: Items)
    ensures var taken := Size(params) >= 1 && At(params, 0).Arr?;
            Handle(o, a, w, "setIceServers", params)
            == (a, if taken && w.fault.None? then Returned(Str("ok"), Null)
                   else Returned(Null, Str(if taken then w.fault.value else Complaint("setIceServers"))))
  {
  }

  /** All the way: the client asks for a peer while a game is in the lobby and nothing waits, and
      every game is told to connect to it, at the address of its relay. */
  lemma ConnectReachesGames(o: AdapterTasks.Options, text: Str -> string, s: Server, w: World, reports: seq<Report>,
                            login: string, remote: Int32, offer: bool, id: int)
    requires AdapterMessages.Ready(s.adapter) && remote !in s.adapter.relays
    ensures var r := After(o, text, s, w, reports, "connectToPeer",
                           Triple(Str(login), Int(remote), Bool(offer)), id);
            var m := GpgNetMessage.Message(
                       Ascii("ConnectToPeer"),
                       [GpgNetMessage.StringValue(Ascii("127.0.0.1:") + Ascii(ToString(w.udpPort))),
                        GpgNetMessage.StringValue(w.bytes(login)), GpgNetMessage.IntValue(remote)]);
            AdapterMessages.AllGet(s.adapter, r.adapter, [m])
  {
    ConnectRequest(o, text, s, w, reports, login, remote, offer, id);
    AdapterMessages.ConnectIsTold(o, s.adapter, w.bytes(login), remote, offer, w.udpPort);
  }
}
