/** What a relay does with what arrives over the data channel, and with what its game sends: who
    gets the checker's words, who the game's datagrams. */
module PeerChannel {
  import opened Bytes
  import C = ConnectivityChecker
  import opened RelayMachine

  datatype Route = ToChecker | ToPeer(answer: Str) | ToGame(data: Str)

  /** `_onRemoteMessage`. */
  function Routed(r: Relay, data: Str): Route {
    if r.checker && data == C.PONG then ToChecker
    else if !r.isOfferer && data == C.PING && r.channel then ToPeer(C.PONG)
    else ToGame(data)
  }

  /** `_onPeerdataFromGame`. */
  function Forwarded(r: Relay, data: Str): Option<Str> {
    if r.notes.isConnected && data != [] && r.channel then Some(data) else None
  }

  /** What the other side's game gets of a datagram, when the channel between the relays delivers. */
  function Conveyed(sender: Relay, receiver: Relay, data: Str): Option<Str> {
    match Forwarded(sender, data)
    case None => None
    case Some(sent) =>
      match Routed(receiver, sent)
      case ToGame(got) => Some(got)
      case _ => None
  }

  /** The two words, with the zero at their ends. */
  lemma Words()
    ensures C.PING == [73, 67, 69, 65, 68, 65, 80, 84, 69, 82, 80, 73, 78, 71, 0]
    ensures C.PONG == [73, 67, 69, 65, 68, 65, 80, 84, 69, 82, 80, 79, 78, 71, 0]
    ensures C.PING != C.PONG
  {
    assert C.PING[11] == 73 && C.PONG[11] == 79;
  }

  /** In every run, exactly the following is kept from the game: from an offerer's, the pong while
      there is a checker, and there is one unless a reinit is scheduled; from an answerer's, the ping
      once the other side has opened a channel on the present connection. */
  lemma GameGetsIff(isOfferer: bool, offering: seq<IceState>, events: seq<Event>, data: Str)
    ensures var r := StepAll(Created(isOfferer, offering), events);
            (Routed(r, data) == ToGame(data)
             <==> if isOfferer then data != C.PONG || !r.checker
                  else data != C.PING || !OpenedSince(Created(isOfferer, offering), events))
            && (isOfferer && !r.checker ==> Scheduled(r))
  {
    RoleOfRun(isOfferer, offering, events);
    OffererIsNeverStranded(isOfferer, offering, events);
    ChannelIff(isOfferer, offering, events);
    Words();
  }

  lemma RoleOfRun(isOfferer: bool, offering: seq<IceState>, events: seq<Event>)
    ensures StepAll(Created(isOfferer, offering), events).isOfferer == isOfferer
  {
    CreatedSettled(isOfferer, offering);
    RoleIsKept(Created(isOfferer, offering), isOfferer, events);
  }

  lemma RoleIsKept(r: Relay, isOfferer: bool, events: seq<Event>)
    requires Settled(r) && r.isOfferer == isOfferer
    ensures StepAll(r, events).isOfferer == isOfferer
  {
    StepsSettle(r, events);
  }

  /** The checker's ping comes back to the checker, and neither game sees it. */
  lemma PingComesBack(offering: seq<IceState>, events: seq<Event>, others: seq<Event>, none: seq<IceState>)
    requires StepAll(Created(true, offering), events).checker && OpenedSince(Created(false, none), others)
    ensures Routed(StepAll(Created(false, none), others), C.PING) == ToPeer(C.PONG)
    ensures Routed(StepAll(Created(true, offering), events), C.PONG) == ToChecker
  {
    GameGetsIff(false, none, others, C.PING);
    GameGetsIff(true, offering, events, C.PONG);
    RoleOfRun(false, none, others);
    OffererIsNeverStranded(false, none, others);
  }

  /** The answer to a ping from before a failure is not recognised any more: the game gets it. */
  lemma LateAnswerReachesGame(r: Relay, s: IceState)
    requires Settled(r) && r.isOfferer && (s == Failed || s == Disconnected || s == IceState.Closed)
    ensures Routed(Step(r, IceChange(s)), C.PONG) == ToGame(C.PONG)
  {
    FailureReconnects(r, s);
  }

  /** The game's datagrams are conveyed as they are: exactly if they are not empty, the sender is
      connected and has a channel, and they are not the word that the receiver waits for. */
  lemma ConveyedIff(isOfferer: bool, sender: Relay, offering: seq<IceState>, events: seq<Event>, data: Str)
    ensures var r := StepAll(Created(isOfferer, offering), events);
            && (Conveyed(sender, r, data).Some? ==> Conveyed(sender, r, data) == Some(data))
            && (Conveyed(sender, r, data).Some?
                <==> && data != [] && sender.notes.isConnected && sender.channel
                     && if isOfferer then data != C.PONG || !r.checker
                        else data != C.PING || !OpenedSince(Created(isOfferer, offering), events))
  {
    GameGetsIff(isOfferer, offering, events, data);
  }
}
