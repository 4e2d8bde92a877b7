/** The connection of `PeerRelay` to one peer, and how it is made anew when it is lost: functions
    on values. The WebRTC objects appear through what they report: closing a connection, and
    creating an offer on a new one, may call `_setIceState` before they return. */
module RelayMachine {
  import opened Bytes
  import opened Timer

  datatype IceState = New | Checking | Connected | Completed | Failed | Disconnected | Closed

  /** What the client is told: `_iceState` and `_isConnected`, and the callbacks so far; and what the
      present connection has last reported itself, before it is being closed. */
  datatype Notes = Notes(
    iceState: Option<IceState>,
    isConnected: bool,
    states: seq<IceState>,
    connectedNotes: seq<bool>,
    own: Option<IceState>)

  datatype Relay = Relay(
    isOfferer: bool,
    /** `_peerConnection`, `_dataChannel` and `_connectionChecker` are not null */
    connection: bool,
    channel: bool,
    checker: bool,
    closing: bool,
    timer: Clock,
    /** history: connections created and closed */
    created: nat,
    closed: nat,
    notes: Notes)

  const REINIT: Callback := 0

  predicate Up(s: IceState) {
    s.Connected? || s.Completed?
  }

  predicate Failure(s: IceState) {
    s.Failed? || s.Disconnected? || s.Closed?
  }

  /** `_setConnected`. */
  function SetConnected(n: Notes, connected: bool): Notes {
    if connected == n.isConnected then n
    else n.(isConnected := connected, connectedNotes := n.connectedNotes + [connected])
  }

  /** The callbacks for a state. */
  function Told(n: Notes, s: IceState): Notes {
    var n1 := SetConnected(n.(iceState := Some(s)), Up(s));
    n1.(states := n1.states + [s], own := Some(s))
  }

  /** `_reinitPeerconnection` with a delay: the reinit function is scheduled, unless it is already. */
  function Schedule(r: Relay, delay: int): Relay {
    if r.closing || r.timer.callback.Some? then r
    else r.(timer := Apply(r.timer, SingleShot(delay, REINIT)))
  }

  /** `_setIceState`. */
  function SetIceState(r: Relay, s: IceState): Relay {
    if r.closing then r.(notes := r.notes.(iceState := Some(s)))
    else
      var r1 := r.(notes := Told(r.notes, s));
      if r.isOfferer && Failure(s) then Schedule(r1.(checker := false), 100) else r1
  }

  function ReportAll(r: Relay, reports: seq<IceState>): Relay {
    if reports == [] then r else SetIceState(ReportAll(r, reports[..|reports| - 1]), reports[|reports| - 1])
  }

  /** `_close`; the connection reports while it is being closed. */
  function Close(r: Relay, reports: seq<IceState>): Relay {
    var r1 := r.(closing := true, checker := false, channel := false);
    var r2 := if r.connection then ReportAll(r1, reports).(connection := false, closed := r.closed + 1) else r1;
    r2.(closing := false)
  }

  /** A channel, an offer, and last the checker. */
  function MakeOffer(r: Relay, reports: seq<IceState>): Relay {
    ReportAll(r.(channel := true), reports).(checker := true)
  }

  /** A new connection, which reports while the offer is being created. */
  function Renewed(r: Relay, offering: seq<IceState>): Relay {
    var r1 := r.(connection := true, created := r.created + 1, notes := r.notes.(own := None));
    if r.isOfferer then MakeOffer(r1, offering) else r1
  }

  /** The reinit function. */
  function Reinit(r: Relay, closing: seq<IceState>, offering: seq<IceState>): Relay {
    Renewed(Close(r, closing), offering)
  }

  /** The constructor. */
  function Created(isOfferer: bool, offering: seq<IceState>): Relay {
    if isOfferer then Reinit(Blank(isOfferer), [], offering) else Blank(isOfferer)
  }

  function Blank(isOfferer: bool): Relay {
    Relay(isOfferer, false, false, false, false, IDLE, 0, 0, Notes(None, false, [], [], None))
  }

  datatype Event =
    /** the connection reports a state */
    | IceChange(state: IceState)
    /** the checker calls its lost-callback */
    | Lost
    /** the message of the reinit timer arrives */
    | TimerMessage(closing: seq<IceState>, offering: seq<IceState>)
    /** `addIceMessage` with an offer or an answer */
    | Description(closing: seq<IceState>, offering: seq<IceState>)
    /** `OnDataChannel` */
    | ChannelOpened

  /** What the outside can do: only a connection reports, only a checker finds a loss, and only a
      posted message arrives. */
  predicate Possible(r: Relay, e: Event) {
    match e
    case IceChange(_) => r.connection
    case Lost => r.checker
    case TimerMessage(_, _) => r.timer.posted != []
    case Description(_, _) => true
    case ChannelOpened => r.connection
  }

  /** What an event does; one that is not possible does not happen. */
  function Step(r: Relay, e: Event): Relay {
    if !Possible(r, e) then r else
    match e
    case IceChange(state) => SetIceState(r, state)
    case Lost => Schedule(r, 1)
    case TimerMessage(closing, offering) =>
      var taken := r.(timer := r.timer.(posted := r.timer.posted[1..]));
      if r.timer.callback.None? then taken
      else
        var done := Reinit(taken, closing, offering);
        done.(timer := AfterCallback(done.timer))
    case Description(closing, offering) => if r.isOfferer then r else Reinit(r, closing, offering)
    case ChannelOpened => r.(channel := true)
  }

  function StepAll(r: Relay, events: seq<Event>): Relay {
    if events == [] then r else Step(StepAll(r, events[..|events| - 1]), events[|events| - 1])
  }

  function One(b: bool): nat {
    if b then 1 else 0
  }

  /** The reinit function is going to run: exactly one message is on its way for it. */
  predicate Scheduled(r: Relay) {
    r.timer.callback.Some? && |r.timer.posted| == 1 && r.timer.single
  }

  predicate Unscheduled(r: Relay) {
    r.timer.callback.None? && r.timer.posted == []
  }

  /** What holds between any two events. */
  predicate Settled(r: Relay) {
    && !r.closing
    && r.created == r.closed + One(r.connection)
    && (Scheduled(r) || Unscheduled(r))
    && (r.isOfferer ==> r.connection && (r.checker || Scheduled(r)))
    && (!r.isOfferer ==> !r.checker && Unscheduled(r))
  }

  /** Closing a connection changes nothing but what is closed, whatever the connection reports
      meanwhile; nothing is scheduled and nobody is told. */
  lemma {:induction false} ClosingIsSilent(r: Relay, reports: seq<IceState>)
    requires r.closing
    ensures ReportAll(r, reports)
         == r.(notes := r.notes.(iceState := if reports == [] then r.notes.iceState else Some(reports[|reports| - 1])))
  {
    if reports != [] {
      ClosingIsSilent(r, reports[..|reports| - 1]);
    }
  }

  lemma CloseLeaves(r: Relay, reports: seq<IceState>)
    ensures var c := Close(r, reports);
            && !c.closing && !c.connection && !c.channel && !c.checker
            && c.isOfferer == r.isOfferer && c.timer == r.timer
            && c.notes == r.notes.(iceState := if r.connection && reports != [] then Some(reports[|reports| - 1])
                                               else r.notes.iceState)
            && c.created == r.created && c.closed == r.closed + One(r.connection)
  {
    ClosingIsSilent(r.(closing := true, checker := false, channel := false), reports);
  }

  /** Outside of closing, every report is passed on to the client, in order. */
  lemma {:induction false} ReportsArePassedOn(r: Relay, reports: seq<IceState>)
    requires !r.closing
    ensures var q := ReportAll(r, reports);
            !q.closing && q.notes.states == r.notes.states + reports
            && q.notes.iceState == if reports == [] then r.notes.iceState else Some(reports[|reports| - 1])
  {
    if reports == [] {
      assert r.notes.states + [] == r.notes.states;
    } else {
      var front, s := reports[..|reports| - 1], reports[|reports| - 1];
      ReportsArePassedOn(r, front);
      Associate(r.notes.states, front, [s]);
      assert front + [s] == reports;
    }
  }

  predicate AnyFailure(reports: seq<IceState>) {
    reports != [] && (AnyFailure(reports[..|reports| - 1]) || Failure(reports[|reports| - 1]))
  }

  lemma ReportOnlySchedules(r: Relay, s: IceState)
    requires !r.closing
    ensures var q, failed := SetIceState(r, s), r.isOfferer && Failure(s);
            && !q.closing && q.isOfferer == r.isOfferer && q.connection == r.connection && q.channel == r.channel
            && q.created == r.created && q.closed == r.closed
            && q.timer == (if failed then Schedule(r, 100).timer else r.timer)
            && (q.checker <==> r.checker && !failed)
  {
  }

  /** What any number of reports leaves alone, and what it does to timer and checker. */
  lemma {:induction false} ReportsOnlySchedule(r: Relay, reports: seq<IceState>)
    requires !r.closing
    ensures var q, failed := ReportAll(r, reports), r.isOfferer && AnyFailure(reports);
            && !q.closing && q.isOfferer == r.isOfferer && q.connection == r.connection && q.channel == r.channel
            && q.created == r.created && q.closed == r.closed
            && q.timer == (if failed then Schedule(r, 100).timer else r.timer)
            && (q.checker <==> r.checker && !failed)
  {
    if reports != [] {
      var before := ReportAll(r, reports[..|reports| - 1]);
      ReportsOnlySchedule(r, reports[..|reports| - 1]);
      ReportOnlySchedules(before, reports[|reports| - 1]);
    }
  }

  /** The reinit function leaves one connection, and an offerer with a live checker. */
  lemma ReinitResult(r: Relay, closing: seq<IceState>, offering: seq<IceState>)
    requires !r.closing
    ensures var q := Reinit(r, closing, offering);
            && !q.closing && q.isOfferer == r.isOfferer && q.connection && q.checker == r.isOfferer
            && q.created == r.created + 1 && q.closed == r.closed + One(r.connection)
            && q.timer == (if r.isOfferer && AnyFailure(offering) then Schedule(r, 100).timer else r.timer)
  {
    CloseLeaves(r, closing);
    var r1 := Close(r, closing);
    var r2 := r1.(connection := true, created := r1.created + 1, notes := r1.notes.(own := None));
    ReportsOnlySchedule(r2.(channel := true), offering);
  }

  lemma StepSettles(r: Relay, e: Event)
    requires Settled(r)
    ensures Settled(Step(r, e))
  {
    if Possible(r, e) {
      match e
      case TimerMessage(closing, offering) =>
        var taken := r.(timer := r.timer.(posted := r.timer.posted[1..]));
        ReinitResult(taken, closing, offering);
      case Description(closing, offering) =>
        if !r.isOfferer {
          ReinitResult(r, closing, offering);
        }
      case _ =>
    }
  }

  /** Which states make an offerer connect anew, a tenth of a second later: failed, disconnected and
      closed ones, and no others. Its checker is gone from then on. */
  lemma FailureReconnects(r: Relay, s: IceState)
    requires Settled(r) && r.isOfferer
    ensures var q, failed := Step(r, IceChange(s)), s == Failed || s == Disconnected || s == Closed;
            && (Scheduled(q) <==> Scheduled(r) || failed)
            && (q.checker <==> r.checker && !failed)
            && q.timer.posted == (if Unscheduled(r) && failed then [100] else r.timer.posted)
  {
  }

  /** An answerer waits for the next offer whatever its connection reports. */
  lemma AnswererWaits(r: Relay, s: IceState)
    requires Settled(r) && !r.isOfferer
    ensures Unscheduled(Step(r, IceChange(s)))
  {
  }

  /** A loss that the checker finds makes an offerer connect anew after one millisecond; the checker
      is still there meanwhile. */
  lemma LossReconnects(r: Relay)
    requires Settled(r) && r.checker && Unscheduled(r)
    ensures var q := Step(r, Lost);
            Scheduled(q) && q.timer.posted == [1] && q.timer.callback == Some(REINIT) && q.checker
            && q.connection == r.connection && q.created == r.created
  {
  }

  /** What the client is told when a connection reports a state: that state, and that the peer is
      connected exactly in the states connected and completed. */
  lemma ReportIsPassedOn(r: Relay, s: IceState)
    requires Settled(r) && r.connection
    ensures var q, up := Step(r, IceChange(s)).notes, s == Connected || s == Completed;
            && q.states == r.notes.states + [s] && q.iceState == Some(s) && q.own == Some(s)
            && (q.isConnected <==> up)
            && q.connectedNotes == (if up == r.notes.isConnected then r.notes.connectedNotes
                                    else r.notes.connectedNotes + [up])
  {
  }

  lemma CreatedSettled(isOfferer: bool, offering: seq<IceState>)
    ensures Settled(Created(isOfferer, offering)) && Created(isOfferer, offering).isOfferer == isOfferer
  {
    if isOfferer {
      ReinitResult(Blank(isOfferer), [], offering);
    }
  }

  /** An offerer begins with a connection and its channel, and passes on what that reports; an answerer
      begins with nothing. */
  lemma CreatedHas(isOfferer: bool, offering: seq<IceState>)
    ensures var r := Created(isOfferer, offering);
            && r.connection == isOfferer && r.channel == isOfferer && r.created == One(isOfferer) && r.closed == 0
            && r.notes.states == (if isOfferer then offering else [])
            && (r.notes.iceState.Some? <==> isOfferer && offering != [])
            && (!isOfferer ==> !r.notes.isConnected && r.notes.connectedNotes == [])
  {
    if isOfferer {
      var blank := Blank(isOfferer);
      CloseLeaves(blank, []);
      MadeHas(Close(blank, []), offering);
    }
  }

  lemma MadeHas(c: Relay, offering: seq<IceState>)
    requires !c.closing && c.isOfferer
    ensures var r := Renewed(c, offering);
            && r.connection && r.channel && r.created == c.created + 1 && r.closed == c.closed
            && r.notes.states == c.notes.states + offering
            && r.notes.iceState == if offering == [] then c.notes.iceState else Some(offering[|offering| - 1])
  {
    var made := c.(connection := true, created := c.created + 1, channel := true, notes := c.notes.(own := None));
    ReportsOnlySchedule(made, offering);
    ReportsArePassedOn(made, offering);
  }

  /** Whether the other side has opened a channel on the present connection of an answerer. */
  predicate OpenedSince(r: Relay, events: seq<Event>) {
    events != []
    && match events[|events| - 1]
       case ChannelOpened => StepAll(r, events[..|events| - 1]).connection || OpenedSince(r, events[..|events| - 1])
       case Description(_, _) => false
       case _ => OpenedSince(r, events[..|events| - 1])
  }

  lemma StepChannel(r: Relay, e: Event)
    requires Settled(r)
    ensures r.isOfferer && r.channel ==> Step(r, e).channel
    ensures !r.isOfferer ==>
              (Step(r, e).channel
               <==> (e.ChannelOpened? && r.connection) || (!e.Description? && r.channel))
  {
    if Possible(r, e) {
      match e
      case TimerMessage(closing, offering) =>
        var taken := r.(timer := r.timer.(posted := r.timer.posted[1..]));
        CloseLeaves(taken, closing);
        if r.isOfferer {
          MadeHas(Close(taken, closing), offering);
        }
      case Description(closing, offering) => CloseLeaves(r, closing);
      case _ =>
    }
  }

  lemma {:induction false} ChannelOfRun(r: Relay, events: seq<Event>)
    requires Settled(r) && r.channel == r.isOfferer
    ensures StepAll(r, events).channel <==> r.isOfferer || OpenedSince(r, events)
  {
    if events != [] {
      var before := events[..|events| - 1];
      ChannelOfRun(r, before);
      StepsSettle(r, before);
      StepChannel(StepAll(r, before), events[|events| - 1]);
    }
  }

  /** In every run, an offerer has a channel, and an answerer exactly if the other side has opened one
      on the present connection. */
  lemma ChannelIff(isOfferer: bool, offering: seq<IceState>, events: seq<Event>)
    ensures StepAll(Created(isOfferer, offering), events).channel
       <==> isOfferer || OpenedSince(Created(isOfferer, offering), events)
  {
    CreatedChannel(isOfferer, offering);
    CreatedSettled(isOfferer, offering);
    ChannelSince(Created(isOfferer, offering), isOfferer, events);
  }

  lemma ChannelSince(r: Relay, isOfferer: bool, events: seq<Event>)
    requires Settled(r) && r.isOfferer == isOfferer && r.channel == isOfferer
    ensures StepAll(r, events).channel <==> isOfferer || OpenedSince(r, events)
  {
    ChannelOfRun(r, events);
  }

  lemma CreatedChannel(isOfferer: bool, offering: seq<IceState>)
    ensures Created(isOfferer, offering).channel == isOfferer
  {
    CreatedHas(isOfferer, offering);
  }

  lemma {:induction false} StepsSettle(r: Relay, events: seq<Event>)
    requires Settled(r)
    ensures Settled(StepAll(r, events)) && StepAll(r, events).isOfferer == r.isOfferer
  {
    if events != [] {
      var before, e := StepAll(r, events[..|events| - 1]), events[|events| - 1];
      StepsSettle(r, events[..|events| - 1]);
      StepSettles(before, e);
      KeepsRole(before, e);
    }
  }

  lemma KeepsRole(r: Relay, e: Event)
    requires Settled(r)
    ensures Step(r, e).isOfferer == r.isOfferer
  {
    match e
    case TimerMessage(closing, offering) =>
      var taken := if r.timer.posted == [] then r else r.(timer := r.timer.(posted := r.timer.posted[1..]));
      ReinitResult(taken, closing, offering);
    case Description(closing, offering) => ReinitResult(r, closing, offering);
    case _ =>
  }

  /** In every run, between any two events: connections created minus connections closed is one
      exactly when there is a connection; an offerer always has one, and either a live checker or
      a reinit on its way with exactly one message; an answerer has no checker and no timer. */
  lemma OffererIsNeverStranded(isOfferer: bool, offering: seq<IceState>, events: seq<Event>)
    ensures var r := StepAll(Created(isOfferer, offering), events);
            && r.created - r.closed == One(r.connection)
            && (isOfferer ==> r.connection && (r.checker || Scheduled(r)) && |r.timer.posted| <= 1)
            && (!isOfferer ==> !r.checker && Unscheduled(r))
  {
    CreatedSettled(isOfferer, offering);
    StayingSettled(Created(isOfferer, offering), isOfferer, events);
  }

  lemma StayingSettled(r: Relay, isOfferer: bool, events: seq<Event>)
    requires Settled(r) && r.isOfferer == isOfferer
    ensures var q := StepAll(r, events);
            && q.created - q.closed == One(q.connection)
            && (isOfferer ==> q.connection && (q.checker || Scheduled(q)) && |q.timer.posted| <= 1)
            && (!isOfferer ==> !q.checker && Unscheduled(q))
  {
    StepsSettle(r, events);
  }

  // --------------------------------------------------------------- coalescing

  /** A signal that the connection is lost, or any other event before the timer's message. */
  predicate Signals(e: Event) {
    e.Lost? || (e.IceChange? && Failure(e.state))
  }

  predicate AnySignal(r: Relay, events: seq<Event>) {
    events != []
    && (AnySignal(r, events[..|events| - 1])
        || (Signals(events[|events| - 1]) && Possible(StepAll(r, events[..|events| - 1]), events[|events| - 1])))
  }

  predicate NoTimerMessage(events: seq<Event>) {
    events == [] || (NoTimerMessage(events[..|events| - 1]) && !events[|events| - 1].TimerMessage?)
  }

  /** Signals of an offerer before the timer's message: however many there are, one reinit is
      scheduled and none takes place; without a signal, none is scheduled. */
  lemma {:induction false} SignalsScheduleOne(r: Relay, events: seq<Event>)
    requires Settled(r) && r.isOfferer && NoTimerMessage(events)
    ensures var q := StepAll(r, events);
            && Settled(q) && q.isOfferer && q.created == r.created && q.closed == r.closed
            && (Scheduled(q) <==> Scheduled(r) || AnySignal(r, events))
            && (Scheduled(r) ==> q.timer == r.timer)
  {
    if events != [] {
      var n := |events| - 1;
      SignalsScheduleOne(r, events[..n]);
      StepSettles(StepAll(r, events[..n]), events[n]);
    }
  }

  /** Failures coalesce: after any number of signals, the timer's message makes exactly one new
      connection, closes exactly the old one, and leaves nothing scheduled, although closing the
      old one and making the offer may report further failures. */
  lemma FailuresCoalesce(r: Relay, events: seq<Event>, closing: seq<IceState>, offering: seq<IceState>)
    requires Settled(r) && r.isOfferer && NoTimerMessage(events) && (Scheduled(r) || AnySignal(r, events))
    ensures var q := Step(StepAll(r, events), TimerMessage(closing, offering));
            q.created == r.created + 1 && q.closed == r.closed + 1 && Unscheduled(q) && q.checker && q.connection
  {
    SignalsScheduleOne(r, events);
    var p := StepAll(r, events);
    ReinitResult(p.(timer := p.timer.(posted := p.timer.posted[1..])), closing, offering);
  }

  // ------------------------------------------------------------- notifications

  /** The `connected` notifications alternate, beginning with true, and the last is the state. */
  predicate Alternating(notes: seq<bool>, last: bool) {
    if notes == [] then !last
    else notes[|notes| - 1] == last && Alternating(notes[..|notes| - 1], !last)
  }

  /** And the state is that of the present connection as soon as it has reported one. */
  predicate Truthful(n: Notes) {
    Alternating(n.connectedNotes, n.isConnected) && (n.own.Some? ==> n.isConnected == Up(n.own.value))
  }

  lemma ToldIsTruthful(n: Notes, s: IceState)
    requires Truthful(n)
    ensures Truthful(Told(n, s))
  {
    var notes := n.connectedNotes + [Up(s)];
    assert notes[..|notes| - 1] == n.connectedNotes;
  }

  lemma NotesOfReport(r: Relay, s: IceState)
    ensures SetIceState(r, s).notes == if r.closing then r.notes.(iceState := Some(s)) else Told(r.notes, s)
  {
  }

  lemma {:induction false} ReportsAreTruthful(r: Relay, reports: seq<IceState>)
    requires Truthful(r.notes)
    ensures Truthful(ReportAll(r, reports).notes)
  {
    if reports != [] {
      var before, s := ReportAll(r, reports[..|reports| - 1]), reports[|reports| - 1];
      ReportsAreTruthful(r, reports[..|reports| - 1]);
      NotesOfReport(before, s);
      ToldIsTruthful(before.notes, s);
    }
  }

  lemma RenewedIsTruthful(r: Relay, offering: seq<IceState>)
    requires Truthful(r.notes)
    ensures Truthful(Renewed(r, offering).notes)
  {
    if r.isOfferer {
      ReportsAreTruthful(r.(connection := true, created := r.created + 1, channel := true,
                            notes := r.notes.(own := None)), offering);
    }
  }

  lemma ReinitIsTruthful(r: Relay, closing: seq<IceState>, offering: seq<IceState>)
    requires Truthful(r.notes)
    ensures Truthful(Reinit(r, closing, offering).notes)
  {
    CloseLeaves(r, closing);
    RenewedIsTruthful(Close(r, closing), offering);
  }

  lemma StepIsTruthful(r: Relay, e: Event)
    requires Truthful(r.notes)
    ensures Truthful(Step(r, e).notes)
  {
    if Possible(r, e) {
      match e
      case IceChange(state) =>
        NotesOfReport(r, state);
        ToldIsTruthful(r.notes, state);
      case TimerMessage(closing, offering) =>
        ReinitIsTruthful(r.(timer := r.timer.(posted := r.timer.posted[1..])), closing, offering);
      case Description(closing, offering) => ReinitIsTruthful(r, closing, offering);
      case _ =>
    }
  }

  lemma {:induction false} RunIsTruthful(isOfferer: bool, offering: seq<IceState>, events: seq<Event>)
    ensures Truthful(StepAll(Created(isOfferer, offering), events).notes)
  {
    if events == [] {
      ReinitIsTruthful(Blank(isOfferer), [], offering);
    } else {
      RunIsTruthful(isOfferer, offering, events[..|events| - 1]);
      StepIsTruthful(StepAll(Created(isOfferer, offering), events[..|events| - 1]), events[|events| - 1]);
    }
  }

  /** In every run, the client is told "connected" and "disconnected" in turn, starting with
      "connected", and what it was told last is the flag. */
  lemma NotificationsAlternate(isOfferer: bool, offering: seq<IceState>, events: seq<Event>)
    ensures var n := StepAll(Created(isOfferer, offering), events).notes;
            Alternating(n.connectedNotes, n.isConnected)
  {
    RunIsTruthful(isOfferer, offering, events);
  }

  /** Whether the present connection is up, as far as it has said itself. */
  predicate OwnUp(n: Notes) {
    n.own.Some? && Up(n.own.value)
  }

  /** The flag says what the present connection has said. */
  predicate Agrees(r: Relay) {
    r.notes.isConnected == OwnUp(r.notes)
  }

  /** The event makes a new connection: the reinit message at a relay that waits for it, or an offer
      at an answerer. */
  predicate Replaces(r: Relay, e: Event) {
    match e
    case TimerMessage(_, _) => r.timer.posted != [] && r.timer.callback.Some?
    case Description(_, _) => !r.isOfferer
    case _ => false
  }

  /** The event lets the present connection, or a new one, report its state. */
  predicate Speaks(r: Relay, e: Event) {
    (e.IceChange? && r.connection) || (Replaces(r, e) && r.isOfferer && e.offering != [])
  }

  lemma {:induction false} ReportsAgree(r: Relay, reports: seq<IceState>)
    requires !r.closing && (reports == [] ==> Agrees(r))
    ensures Agrees(ReportAll(r, reports))
  {
    if reports != [] {
      var before, s := ReportAll(r, reports[..|reports| - 1]), reports[|reports| - 1];
      ReportsOnlySchedule(r, reports[..|reports| - 1]);
      NotesOfReport(before, s);
    }
  }

  /** A new connection that says nothing while its offer is created leaves the flag as it was. */
  lemma ReinitAgreesIff(r: Relay, closing: seq<IceState>, offering: seq<IceState>)
    requires !r.closing
    ensures var q := Reinit(r, closing, offering);
            Agrees(q) <==> (r.isOfferer && offering != []) || !r.notes.isConnected
    ensures (!r.isOfferer || offering == []) ==>
              Reinit(r, closing, offering).notes.isConnected == r.notes.isConnected
  {
    CloseLeaves(r, closing);
    var c := Close(r, closing);
    var made := c.(connection := true, created := c.created + 1, channel := true, notes := c.notes.(own := None));
    if r.isOfferer && offering != [] {
      ReportsAgree(made, offering);
    }
  }

  /** After an event, the flag agrees with the present connection if that has spoken; if it has been
      replaced without a word, exactly if the flag was down; and otherwise if it did before. */
  lemma StepAgreesIff(r: Relay, e: Event)
    requires Settled(r)
    ensures Agrees(Step(r, e))
       <==> if Speaks(r, e) then true else if Replaces(r, e) then !r.notes.isConnected else Agrees(r)
  {
    if Possible(r, e) {
      match e
      case IceChange(state) => NotesOfReport(r, state);
      case TimerMessage(closing, offering) =>
        ReinitAgreesIff(r.(timer := r.timer.(posted := r.timer.posted[1..])), closing, offering);
      case Description(closing, offering) => ReinitAgreesIff(r, closing, offering);
      case _ =>
    }
  }

  /** The event that spoils agreement: it replaces a connection that the client takes to be up, and
      the new one says nothing. */
  predicate ReplacesUpSilently(r: Relay, e: Event) {
    r.notes.isConnected && Replaces(r, e) && !Speaks(r, e)
  }

  /** Agreement is kept by every event but that. */
  lemma StepKeepsAgreementIff(r: Relay, e: Event)
    requires Settled(r) && Agrees(r)
    ensures Agrees(Step(r, e)) <==> !ReplacesUpSilently(r, e)
  {
    StepAgreesIff(r, e);
  }

  /** Since a connection last spoke, one that was taken to be up has been replaced. */
  predicate LeftBehind(r: Relay, events: seq<Event>) {
    events != []
    && var before, e := StepAll(r, events[..|events| - 1]), events[|events| - 1];
       !Speaks(before, e) && (ReplacesUpSilently(before, e) || LeftBehind(r, events[..|events| - 1]))
  }

  lemma {:induction false} RunAgreesIff(r: Relay, events: seq<Event>)
    requires Settled(r) && Agrees(r)
    ensures Agrees(StepAll(r, events)) <==> !LeftBehind(r, events)
    ensures LeftBehind(r, events) ==> StepAll(r, events).notes.isConnected
  {
    if events != [] {
      var before, e := StepAll(r, events[..|events| - 1]), events[|events| - 1];
      RunAgreesIff(r, events[..|events| - 1]);
      StepsSettle(r, events[..|events| - 1]);
      StepAgreesIff(before, e);
      if !Speaks(before, e) {
        SilentStepKeepsFlag(before, e);
      }
    }
  }

  lemma SilentStepKeepsFlag(r: Relay, e: Event)
    requires Settled(r) && !Speaks(r, e)
    ensures Step(r, e).notes.isConnected == r.notes.isConnected
  {
    if Possible(r, e) {
      match e
      case TimerMessage(closing, offering) =>
        ReinitAgreesIff(r.(timer := r.timer.(posted := r.timer.posted[1..])), closing, offering);
      case Description(closing, offering) => ReinitAgreesIff(r, closing, offering);
      case _ =>
    }
  }

  lemma CreatedAgrees(isOfferer: bool, offering: seq<IceState>)
    ensures Agrees(Created(isOfferer, offering))
  {
    if isOfferer {
      ReinitAgreesIff(Blank(isOfferer), [], offering);
    }
  }

  /** In every run, the flag agrees with the present connection if and only if no connection that was
      taken to be up has been replaced since one last spoke. */
  lemma FlagAgreesIff(isOfferer: bool, offering: seq<IceState>, events: seq<Event>)
    ensures Agrees(StepAll(Created(isOfferer, offering), events)) <==> !LeftBehind(Created(isOfferer, offering), events)
  {
    CreatedSettled(isOfferer, offering);
    CreatedAgrees(isOfferer, offering);
    FlagOfRun(Created(isOfferer, offering), events);
  }

  lemma FlagOfRun(r: Relay, events: seq<Event>)
    requires Settled(r) && Agrees(r)
    ensures Agrees(StepAll(r, events)) <==> !LeftBehind(r, events)
  {
    RunAgreesIff(r, events);
  }

  /** It happens to an offerer whose checker finds a connection lost that is up: closing it is
      silent, and the flag stays true for a new connection that has not reported anything. */
  lemma FlagSurvivesReinit(r: Relay, closing: seq<IceState>)
    requires Settled(r) && r.isOfferer && r.checker && r.notes.isConnected
    ensures var q := Step(Step(r, Lost), TimerMessage(closing, []));
            q.notes.isConnected && q.notes.own.None? && q.notes.connectedNotes == r.notes.connectedNotes
            && q.created == r.created + 1
  {
    var p := Step(r, Lost);
    CloseLeaves(p.(timer := p.timer.(posted := p.timer.posted[1..])), closing);
  }

  /** And to an answerer that gets a new offer while it is connected. */
  lemma FlagSurvivesOffer(r: Relay, closing: seq<IceState>, offering: seq<IceState>)
    requires Settled(r) && !r.isOfferer && r.notes.isConnected
    ensures var q := Step(r, Description(closing, offering));
            q.notes.isConnected && q.notes.own.None? && q.notes.connectedNotes == r.notes.connectedNotes
            && q.created == r.created + 1
  {
    CloseLeaves(r, closing);
  }

  /** A relay with its first connection: an answerer makes it for the first offer. */
  function WithConnection(isOfferer: bool, offering: seq<IceState>): Relay {
    if isOfferer then Created(isOfferer, offering)
    else Step(Created(isOfferer, offering), Description(offering, offering))
  }

  lemma OfferConnects(r: Relay, closing: seq<IceState>, offering: seq<IceState>)
    requires Settled(r) && !r.isOfferer
    ensures var q := Step(r, Description(closing, offering)); q.connection && !q.isOfferer && !q.checker
  {
    ReinitResult(r, closing, offering);
  }

  lemma CreatedHasChecker(offering: seq<IceState>)
    ensures Created(true, offering).checker && Created(true, offering).connection
  {
    ReinitResult(Blank(true), [], offering);
  }

  lemma WithConnectionSettled(isOfferer: bool, offering: seq<IceState>)
    ensures var r := WithConnection(isOfferer, offering);
            Settled(r) && r.connection && r.isOfferer == isOfferer && r.checker == isOfferer
  {
    var r := Created(isOfferer, offering);
    CreatedSettled(isOfferer, offering);
    if isOfferer {
      CreatedHasChecker(offering);
    } else {
      StepSettles(r, Description(offering, offering));
      OfferConnects(r, offering, offering);
    }
  }

  /** Both can happen: a relay of either kind may come up. */
  lemma EitherMayBeUp(isOfferer: bool, offering: seq<IceState>)
    ensures var r := Step(WithConnection(isOfferer, offering), IceChange(Connected));
            Settled(r) && r.isOfferer == isOfferer && r.notes.isConnected && r.checker == isOfferer
  {
    WithConnectionSettled(isOfferer, offering);
    UpOnceConnected(WithConnection(isOfferer, offering));
  }

  lemma UpOnceConnected(r: Relay)
    requires Settled(r) && r.connection
    ensures var q := Step(r, IceChange(Connected));
            Settled(q) && q.isOfferer == r.isOfferer && q.notes.isConnected && q.checker == r.checker
  {
    StepSettles(r, IceChange(Connected));
  }
}
