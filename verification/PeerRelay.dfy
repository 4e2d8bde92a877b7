/** `PeerRelay` as it runs. What the WebRTC objects report while they are being closed or asked for
    an offer is a parameter of the methods that use them. */
module PeerRelay {
  import opened Bytes
  import C = ConnectivityChecker
  import opened PeerChannel
  import opened RelayMachine
  import T = Timer

  class PeerRelay {
    const isOfferer: bool
    const reinitTimer: T.Timer
    /** Whether `_peerConnection`, `_dataChannel` and `_connectionChecker` are not null. */
    var peerConnection: bool
    var dataChannel: bool
    var connectionChecker: bool
    var closing: bool
    var isConnected: bool
    var iceState: Option<IceState>
    ghost var created: nat
    ghost var closed: nat
    ghost var states: seq<IceState>
    ghost var connectedNotes: seq<bool>
    ghost var own: Option<IceState>
    /** Whether the checker's lost-callback is on the stack. */
    ghost var inLostCallback: bool

    ghost function State(): Relay
      reads this, reinitTimer
    {
      Relay(isOfferer, peerConnection, dataChannel, connectionChecker, closing, reinitTimer.State(), created, closed,
            Said())
    }

    ghost function Said(): Notes
      reads this
    {
      Notes(iceState, isConnected, states, connectedNotes, own)
    }

    constructor (offerer: bool, offering: seq<IceState>)
      ensures State() == Created(offerer, offering) && !inLostCallback && fresh(reinitTimer)
    {
      isOfferer := offerer;
      reinitTimer := new T.Timer();
      peerConnection, dataChannel, connectionChecker, closing := false, false, false, false;
      isConnected, iceState, created, closed, states, connectedNotes := false, None, 0, 0, [], [];
      own, inLostCallback := None, false;
      new;
      if isOfferer {
        ReinitPeerconnection([], offering);
      }
    }

    /** `_setConnected`; `GetStats` is called on a connection that exists. */
    method ChangeConnected(connected: bool)
      requires connected ==> peerConnection
      modifies this`isConnected, this`connectedNotes
      ensures Said() == SetConnected(old(Said()), connected)
    {
      if connected != isConnected {
        isConnected := connected;
        connectedNotes := connectedNotes + [connected];
      }
    }

    /** The middle of `_setIceState`: the client hears of the state. */
    method TellClient(state: IceState)
      requires Up(state) ==> peerConnection
      requires iceState == Some(state)
      modifies this`isConnected, this`connectedNotes, this`states, this`own
      ensures Said() == Told(old(Said()), state)
    {
      ChangeConnected(Up(state));
      states := states + [state];
      own := Some(state);
    }

    /** `_setIceState`. The checker is destroyed on a failure; it must not be running. */
    method ChangeIceState(state: IceState)
      requires peerConnection && !inLostCallback
      modifies this`iceState, this`isConnected, this`connectedNotes, this`states, this`own, this`connectionChecker,
               reinitTimer
      ensures State() == SetIceState(old(State()), state)
    {
      iceState := Some(state);
      if closing {
        return;
      }
      TellClient(state);
      if isOfferer {
        if Failure(state) {
          ForceReconnect();
        }
      }
    }

    /** The end of `_setIceState` after a failure. */
    method ForceReconnect()
      requires !inLostCallback
      modifies this`connectionChecker, reinitTimer
      ensures State() == Schedule(old(State()).(checker := false), 100)
    {
      connectionChecker := false;
      ScheduleReinit(100);
    }

    method Report(reports: seq<IceState>)
      requires peerConnection && !inLostCallback
      modifies this`iceState, this`isConnected, this`connectedNotes, this`states, this`own, this`connectionChecker,
               reinitTimer
      ensures State() == ReportAll(old(State()), reports)
    {
      var i := 0;
      while i < |reports|
        invariant i <= |reports| && State() == ReportAll(old(State()), reports[..i])
      {
        ChangeIceState(reports[i]);
        i := i + 1;
        assert reports[..i][..i - 1] == reports[..i - 1];
      }
      assert reports[..i] == reports;
    }

    /** `_close`. */
    method CloseConnection(reports: seq<IceState>)
      requires !closing && !inLostCallback
      modifies this, reinitTimer
      ensures State() == Close(old(State()), reports)
      ensures !peerConnection && !connectionChecker && !closing && !inLostCallback
    {
      closing := true;
      if connectionChecker {
        connectionChecker := false;
      }
      if dataChannel {
        dataChannel := false;
      }
      if peerConnection {
        ReportWhileClosing(reports);
        peerConnection := false;
        closed := closed + 1;
      }
      closing := false;
    }

    /** What a connection reports while it is being closed is only recorded. */
    method ReportWhileClosing(reports: seq<IceState>)
      requires peerConnection && closing && !inLostCallback
      modifies this`iceState, this`isConnected, this`connectedNotes, this`states, this`own, this`connectionChecker,
               reinitTimer
      ensures State() == ReportAll(old(State()), reports)
      ensures connectionChecker == old(connectionChecker)
    {
      ClosingIsSilent(State(), reports);
      Report(reports);
    }

    /** The second part of `reinitFunction`; `std::exit` stands in the place of a failed
        `CreatePeerConnection`. */
    method Renew(offering: seq<IceState>)
      requires !closing && !connectionChecker && !inLostCallback
      modifies this, reinitTimer
      ensures State() == Renewed(old(State()), offering)
      ensures peerConnection && !closing && connectionChecker == isOfferer && !inLostCallback
    {
      peerConnection := true;
      created := created + 1;
      own := None;
      if isOfferer {
        CreateOffer(offering);
      }
    }

    /** The channel, the offer, and last the checker. */
    method CreateOffer(offering: seq<IceState>)
      requires peerConnection && !closing && !inLostCallback
      modifies this`iceState, this`isConnected, this`connectedNotes, this`states, this`own, this`connectionChecker,
               this`dataChannel, reinitTimer
      ensures State() == MakeOffer(old(State()), offering) && connectionChecker
    {
      dataChannel := true;
      Report(offering);
      connectionChecker := true;
    }

    /** `reinitFunction`. */
    method ReinitPeerconnection(reports: seq<IceState>, offering: seq<IceState>)
      requires !closing && !inLostCallback
      modifies this, reinitTimer
      ensures State() == Reinit(old(State()), reports, offering)
      ensures peerConnection && !closing && connectionChecker == isOfferer && !inLostCallback
    {
      CloseConnection(reports);
      Renew(offering);
    }

    /** `_reinitPeerconnection` with a delay. */
    method ScheduleReinit(delayMs: int)
      requires delayMs > 0
      modifies reinitTimer
      ensures State() == Schedule(old(State()), delayMs)
    {
      if closing {
        return;
      }
      if !reinitTimer.Started() {
        reinitTimer.StartOnce(delayMs, REINIT);
      }
    }

    /** The checker finds the connection lost: its callback runs, and the checker is still there. */
    method OnConnectivityLost()
      requires connectionChecker && !inLostCallback
      modifies this`inLostCallback, reinitTimer
      ensures State() == Step(old(State()), Lost) && connectionChecker && !inLostCallback
    {
      inLostCallback := true;
      ScheduleReinit(1);
      inLostCallback := false;
    }

    /** The message of the reinit timer arrives. */
    method OnReinitTimer(reports: seq<IceState>, offering: seq<IceState>)
      requires reinitTimer.posted != [] && !closing && !inLostCallback
      modifies this, reinitTimer
      ensures State() == Step(old(State()), TimerMessage(reports, offering)) && !inLostCallback
    {
      var call := reinitTimer.TakeMessage();
      if call {
        ReinitPeerconnection(reports, offering);
        reinitTimer.CallbackReturned();
      }
    }

    /** `addIceMessage` with an offer or an answer: the remote description is set on a connection
        that exists, also on the answerer's side. */
    method AddDescription(reports: seq<IceState>, offering: seq<IceState>)
      requires !closing && !inLostCallback && (isOfferer ==> peerConnection)
      modifies this, reinitTimer
      ensures State() == Step(old(State()), Description(reports, offering)) && peerConnection && !inLostCallback
    {
      if !isOfferer {
        ReinitPeerconnection(reports, offering);
      }
    }

    /** `OnDataChannel`. */
    method OnDataChannel()
      requires peerConnection
      modifies this`dataChannel
      ensures State() == Step(old(State()), ChannelOpened)
    {
      dataChannel := true;
    }

    /** `_onRemoteMessage`: where a message of the other side goes. The checker, if there is one,
        takes note of every message. */
    method OnRemoteMessage(checker: C.PeerConnectivityChecker?, data: Str, now: int) returns (route: Route)
      requires (checker != null) == connectionChecker
      modifies checker
      ensures route == Routed(State(), data)
      ensures checker != null ==> checker.State() == C.Hear(old(checker.State()), data == C.PONG, now)
    {
      if checker != null {
        var pong := checker.HandleMessageFromPeer(data, now);
        if pong {
          return ToChecker;
        }
      }
      if !isOfferer && |data| == |C.PING| && data == C.PING && dataChannel {
        return ToPeer(C.PONG);
      }
      route := ToGame(data);
    }

    /** `_onPeerdataFromGame`: what is sent to the other side, if anything. */
    method OnPeerdataFromGame(data: Str) returns (sent: Option<Str>)
      ensures sent == Forwarded(State(), data)
    {
      if !isConnected {
        return None;
      }
      if |data| > 0 && dataChannel {
        return Some(data);
      }
      sent := None;
    }

    /** The destructor, with that of the timer: nothing is left open or on its way. */
    method Destroy(reports: seq<IceState>)
      requires Settled(State()) && !inLostCallback
      modifies this, reinitTimer
      ensures !peerConnection && !dataChannel && !connectionChecker && created == closed
      ensures reinitTimer.posted == [] && !reinitTimer.Started()
    {
      CloseLeaves(State(), reports);
      CloseConnection(reports);
      reinitTimer.StopTimer();
    }
  }
}
