/** What the adapter makes of the bytes its games send. Every accepted connection has a receive
    buffer of its own, which is deleted with it. */
module AdapterSessions {
  import opened Bytes
  import opened GpgNetMessage
  import opened GpgNetConnection
  import opened AdapterTasks
  import opened AdapterView
  import opened AdapterWire

  /** What reaches the adapter from outside: bytes from a game, or anything else. */
  datatype Input = Arrived(game: Game, piece: Str) | Other(event: Event)

  /** A connection, by number in the order of connecting, and its `GPGNetConnectionHandler`. */
  datatype Session = Session(number: nat, handler: Drained)

  /** A message passed on by a handler. */
  datatype Delivery = Delivery(session: nat, message: Message)

  datatype System = System(
    adapter: Adapter,
    open: map<Game, Session>,
    /** history: connections so far, messages passed on, and how many of them came before the last
        disconnect */
    sessions: nat,
    deliveries: seq<Delivery>,
    cleared: nat)

  const INITIAL := System(START, map[], 0, [], 0)

  function Tagged(session: nat, ms: seq<Message>): (ds: seq<Delivery>)
    ensures |ds| == |ms|
  {
    if ms == [] then [] else Tagged(session, ms[..|ms| - 1]) + [Delivery(session, ms[|ms| - 1])]
  }

  /** The messages completed by a piece. */
  function CompletedBy(h: Drained, piece: Str): seq<Message> {
    Receive(h, piece).messages[|h.messages|..]
  }

  /** A piece arrives at a connection, and what it completes is handed to the adapter. */
  function Read(o: Options, s: System, g: Game, piece: Str): System
    requires g in s.open
  {
    var n, h := s.open[g].number, s.open[g].handler;
    s.(adapter := ReactAll(o, s.adapter, CompletedBy(h, piece)),
       open := s.open[g := Session(n, Receive(h, piece))],
       deliveries := s.deliveries + Tagged(n, CompletedBy(h, piece)))
  }

  /** Bytes of a game that is not connected do not arrive; decoded messages only arise from bytes. */
  function Absorb(o: Options, s: System, input: Input): System {
    match input
    case Arrived(g, piece) => if g in s.open then Read(o, s, g, piece) else s
    case Other(e) =>
      match e
      case GameMessage(_) => s
      case GameConnected(g) =>
        if g in s.open then s
        else s.(adapter := Step(o, s.adapter, e), open := s.open[g := Session(s.sessions, FRESH)],
                sessions := s.sessions + 1)
      case GameDisconnected(g) =>
        if g !in s.open then s
        else s.(adapter := Step(o, s.adapter, e), open := s.open - {g}, cleared := |s.deliveries|)
      case _ => s.(adapter := Step(o, s.adapter, e))
  }

  function AbsorbAll(o: Options, inputs: seq<Input>): System {
    if inputs == [] then INITIAL
    else Absorb(o, AbsorbAll(o, inputs[..|inputs| - 1]), inputs[|inputs| - 1])
  }

  predicate ReadBy(s: System, input: Input, session: nat) {
    input.Arrived? && input.game in s.open && s.open[input.game].number == session
  }

  /** What one connection has received, read by read. */
  function PiecesOf(o: Options, inputs: seq<Input>, session: nat): seq<Str> {
    if inputs == [] then []
    else
      var before, input := inputs[..|inputs| - 1], inputs[|inputs| - 1];
      if ReadBy(AbsorbAll(o, before), input, session) then PiecesOf(o, before, session) + [input.piece]
      else PiecesOf(o, before, session)
  }

  function Messages(ds: seq<Delivery>): (ms: seq<Message>)
    ensures |ms| == |ds|
  {
    if ds == [] then [] else Messages(ds[..|ds| - 1]) + [ds[|ds| - 1].message]
  }

  /** The messages that one connection has passed on. */
  function From(ds: seq<Delivery>, session: nat): seq<Message> {
    if ds == [] then []
    else
      var before, d := From(ds[..|ds| - 1], session), ds[|ds| - 1];
      if d.session == session then before + [d.message] else before
  }

  lemma {:induction false} AppendTagged(ds: seq<Delivery>, session: nat, ms: seq<Message>, n: nat)
    ensures Messages(ds + Tagged(session, ms)) == Messages(ds) + ms
    ensures From(ds + Tagged(session, ms), n) == if n == session then From(ds, n) + ms else From(ds, n)
  {
    if ms == [] {
      NothingAppended(ds, n);
    } else {
      var front, last := ms[..|ms| - 1], ms[|ms| - 1];
      AppendTagged(ds, session, front, n);
      Associate(ds, Tagged(session, front), [Delivery(session, last)]);
      AppendDelivery(ds + Tagged(session, front), Delivery(session, last), n);
      AppendLast(Messages(ds), ms);
      AppendLast(From(ds, n), ms);
    }
  }

  lemma NothingAppended(ds: seq<Delivery>, n: nat)
    ensures ds + [] == ds && Messages(ds) + [] == Messages(ds) && From(ds, n) + [] == From(ds, n)
  {
  }

  lemma AppendLast(before: seq<Message>, ms: seq<Message>)
    requires ms != []
    ensures before + ms[..|ms| - 1] + [ms[|ms| - 1]] == before + ms
  {
    assert ms[..|ms| - 1] + [ms[|ms| - 1]] == ms;
    Associate(before, ms[..|ms| - 1], [ms[|ms| - 1]]);
  }

  lemma AppendDelivery(ds: seq<Delivery>, d: Delivery, n: nat)
    ensures Messages(ds + [d]) == Messages(ds) + [d.message]
    ensures From(ds + [d], n) == if d.session == n then From(ds, n) + [d.message] else From(ds, n)
  {
    assert (ds + [d])[..|ds|] == ds;
  }

  // ---------------------------------------------------------------- each connection

  /** The handlers of open connections are where their bytes take them, and what any connection,
      open or closed, has passed on is what its bytes decode to. */
  ghost predicate Faithful(o: Options, inputs: seq<Input>, session: nat) {
    var s, all := AbsorbAll(o, inputs), ReceiveAll(FRESH, PiecesOf(o, inputs, session));
    && (forall g :: g in s.open && s.open[g].number == session ==> s.open[g].handler == all)
    && From(s.deliveries, session) == all.messages
  }

  /** Numbers are given once. */
  ghost predicate Numbered(s: System) {
    && (forall g :: g in s.open ==> s.open[g].number < s.sessions)
    && (forall g, h :: g in s.open && h in s.open && s.open[g].number == s.open[h].number ==> g == h)
  }

  lemma {:induction false} RunIsNumbered(o: Options, inputs: seq<Input>)
    ensures Numbered(AbsorbAll(o, inputs))
  {
    if inputs != [] {
      RunIsNumbered(o, inputs[..|inputs| - 1]);
    }
  }

  /** A connection that has not been made yet has received nothing and passed on nothing. */
  lemma {:induction false} NothingBeforeConnecting(o: Options, inputs: seq<Input>, session: nat)
    requires session >= AbsorbAll(o, inputs).sessions
    ensures PiecesOf(o, inputs, session) == [] && From(AbsorbAll(o, inputs).deliveries, session) == []
  {
    if inputs != [] {
      var before, input := inputs[..|inputs| - 1], inputs[|inputs| - 1];
      var s := AbsorbAll(o, before);
      NothingBeforeConnecting(o, before, session);
      RunIsNumbered(o, before);
      if input.Arrived? && input.game in s.open {
        AppendTagged(s.deliveries, s.open[input.game].number,
                     CompletedBy(s.open[input.game].handler, input.piece), session);
      }
    }
  }

  lemma ReadIsFaithful(o: Options, before: seq<Input>, g: Game, piece: Str, session: nat)
    requires Faithful(o, before, session) && g in AbsorbAll(o, before).open
    ensures Faithful(o, before + [Arrived(g, piece)], session)
  {
    var s, inputs := AbsorbAll(o, before), before + [Arrived(g, piece)];
    var n, h := s.open[g].number, s.open[g].handler;
    assert inputs[..|inputs| - 1] == before;
    RunIsNumbered(o, before);
    AppendTagged(s.deliveries, n, CompletedBy(h, piece), session);
    if n == session {
      var pieces := PiecesOf(o, before, session);
      assert (pieces + [piece])[..|pieces|] == pieces;
      assert Receive(h, piece).messages == h.messages + CompletedBy(h, piece);
    }
  }

  lemma OtherIsFaithful(o: Options, before: seq<Input>, e: Event, session: nat)
    requires Faithful(o, before, session)
    ensures Faithful(o, before + [Other(e)], session)
  {
    var s, inputs := AbsorbAll(o, before), before + [Other(e)];
    assert inputs[..|inputs| - 1] == before;
    if e.GameConnected? && e.game !in s.open && session == s.sessions {
      NothingBeforeConnecting(o, before, session);
    }
  }

  lemma {:induction false} RunIsFaithful(o: Options, inputs: seq<Input>, session: nat)
    ensures Faithful(o, inputs, session)
  {
    if inputs != [] {
      var before, input := inputs[..|inputs| - 1], inputs[|inputs| - 1];
      RunIsFaithful(o, before, session);
      assert inputs == before + [input];
      match input
      case Arrived(g, piece) =>
        if g in AbsorbAll(o, before).open {
          ReadIsFaithful(o, before, g, piece, session);
        }
      case Other(e) => OtherIsFaithful(o, before, e, session);
    }
  }

  /** In every run, with any number of connections one after the other or side by side, and for any
      cutting of the bytes: the client is notified of what the connections pass on, in order, and
      what each has passed on is what the bytes it received decode to. */
  lemma NotificationsAreTheDecodedStreams(o: Options, inputs: seq<Input>, session: nat)
    ensures var s := AbsorbAll(o, inputs);
            && Notified(s.adapter.notes) == Messages(s.deliveries)
            && From(s.deliveries, session) == Drain(Stream(PiecesOf(o, inputs, session))).messages
  {
    RunIsFaithful(o, inputs, session);
    ChunkingIndependence(PiecesOf(o, inputs, session));
    NotifiesDeliveries(o, inputs);
  }

  lemma ReadNotifies(o: Options, s: System, g: Game, piece: Str)
    requires g in s.open && Notified(s.adapter.notes) == Messages(s.deliveries)
    ensures Notified(Read(o, s, g, piece).adapter.notes) == Messages(Read(o, s, g, piece).deliveries)
  {
    var n, news := s.open[g].number, CompletedBy(s.open[g].handler, piece);
    ReactAllNotifies(o, s.adapter, news);
    AppendTagged(s.deliveries, n, news, n);
  }

  lemma InputNotifies(o: Options, s: System, input: Input)
    requires Notified(s.adapter.notes) == Messages(s.deliveries)
    ensures Notified(Absorb(o, s, input).adapter.notes) == Messages(Absorb(o, s, input).deliveries)
  {
    match input
    case Arrived(g, piece) =>
      if g in s.open {
        ReadNotifies(o, s, g, piece);
      }
    case Other(e) =>
      if !e.GameMessage? {
        CommandNotifiesNoMessage(o, s.adapter, e);
      }
  }

  lemma {:induction false} NotifiesDeliveries(o: Options, inputs: seq<Input>)
    ensures Notified(AbsorbAll(o, inputs).adapter.notes) == Messages(AbsorbAll(o, inputs).deliveries)
  {
    if inputs != [] {
      NotifiesDeliveries(o, inputs[..|inputs| - 1]);
      InputNotifies(o, AbsorbAll(o, inputs[..|inputs| - 1]), inputs[|inputs| - 1]);
    }
  }

  /** The connections are those the adapter knows. */
  lemma {:induction false} OpenGamesAreConnected(o: Options, inputs: seq<Input>)
    ensures AbsorbAll(o, inputs).open.Keys == AbsorbAll(o, inputs).adapter.games.Keys
  {
    if inputs != [] {
      var s, input := AbsorbAll(o, inputs[..|inputs| - 1]), inputs[|inputs| - 1];
      OpenGamesAreConnected(o, inputs[..|inputs| - 1]);
      match input
      case Arrived(g, piece) =>
        if g in s.open {
          ReactAllKeepsGames(o, s.adapter, CompletedBy(s.open[g].handler, piece));
        }
      case Other(e) =>
        if !e.GameConnected? && !e.GameDisconnected? && !e.GameMessage? {
          StepKeepsGames(o, s.adapter, e);
        }
    }
  }

  // ------------------------------------------------------------------ the game state

  /** The payload of the last report among the messages, or d. */
  function LastReportIn(ms: seq<Message>, d: Str): Str {
    if ms == [] then d
    else if ReportsState(ms[|ms| - 1]) then AsString(ms[|ms| - 1].chunks[0])
    else LastReportIn(ms[..|ms| - 1], d)
  }

  lemma {:induction false} LastReportOfBoth(a: seq<Message>, b: seq<Message>, d: Str)
    ensures LastReportIn(a + b, d) == LastReportIn(b, LastReportIn(a, d))
    decreases |b|
  {
    if b == [] {
      assert a + b == a;
    } else {
      assert (a + b)[..|a + b| - 1] == a + b[..|b| - 1];
      LastReportOfBoth(a, b[..|b| - 1], d);
    }
  }

  lemma {:induction false} ReactAllState(o: Options, a: Adapter, ms: seq<Message>)
    ensures ReactAll(o, a, ms).gameState == LastReportIn(ms, a.gameState)
  {
    if ms != [] {
      ReactAllState(o, a, ms[..|ms| - 1]);
      ReactNotifies(o, ReactAll(o, a, ms[..|ms| - 1]), ms[|ms| - 1]);
    }
  }

  /** What has been passed on since the last disconnect. */
  function Recent(s: System): seq<Message> {
    if s.cleared <= |s.deliveries| then Messages(s.deliveries[s.cleared..]) else []
  }

  lemma RecentAppends(s: System, session: nat, ms: seq<Message>)
    requires s.cleared <= |s.deliveries|
    ensures Recent(s.(deliveries := s.deliveries + Tagged(session, ms))) == Recent(s) + ms
  {
    Extended(s.deliveries, Tagged(session, ms), s.cleared);
    AppendTagged(s.deliveries[s.cleared..], session, ms, session);
  }

  /** In every run, the game state is the payload of the last one-chunk "GameState" message that was
      decoded since a game last disconnected, or "None". */
  lemma {:induction false} GameStateIsLastDecodedReport(o: Options, inputs: seq<Input>)
    ensures var s := AbsorbAll(o, inputs);
            s.cleared <= |s.deliveries| && s.adapter.gameState == LastReportIn(Recent(s), NONE)
  {
    if inputs != [] {
      var s, input := AbsorbAll(o, inputs[..|inputs| - 1]), inputs[|inputs| - 1];
      GameStateIsLastDecodedReport(o, inputs[..|inputs| - 1]);
      match input
      case Arrived(g, piece) =>
        if g in s.open {
          var n, news := s.open[g].number, CompletedBy(s.open[g].handler, piece);
          ReactAllState(o, s.adapter, news);
          RecentAppends(s, n, news);
          LastReportOfBoth(Recent(s), news, NONE);
        }
      case Other(e) =>
        OpenGamesAreConnected(o, inputs[..|inputs| - 1]);
        if e.GameDisconnected? && e.game in s.open {
          assert s.deliveries[|s.deliveries|..] == [];
        } else if !e.GameMessage? && !e.GameDisconnected? {
          CommandKeepsState(o, s.adapter, e);
        }
    }
  }

  /** No game connects while another is connected. */
  predicate OneAtATime(o: Options, inputs: seq<Input>) {
    inputs == []
    || (OneAtATime(o, inputs[..|inputs| - 1])
        && (inputs[|inputs| - 1].Other? && inputs[|inputs| - 1].event.GameConnected? ==>
              AbsorbAll(o, inputs[..|inputs| - 1]).open.Keys == {}))
  }

  /** With one game at a time, what is recent is what the connected game has sent. */
  ghost predicate RecentIsCurrent(s: System) {
    && s.cleared <= |s.deliveries|
    && (s.open.Keys == {} ==> Recent(s) == [])
    && (forall g, h :: g in s.open && h in s.open ==> g == h)
    && (forall g :: g in s.open ==> Recent(s) == From(s.deliveries, s.open[g].number))
  }

  lemma OnlyOne(open: map<Game, Session>, g: Game)
    requires g in open && forall h :: h in open ==> h == g
    ensures (open - {g}).Keys == {}
  {
    assert forall h :: h !in (open - {g}).Keys;
  }

  lemma {:induction false} OneAtATimeIsCurrent(o: Options, inputs: seq<Input>)
    requires OneAtATime(o, inputs)
    ensures RecentIsCurrent(AbsorbAll(o, inputs))
  {
    if inputs != [] {
      var s, input := AbsorbAll(o, inputs[..|inputs| - 1]), inputs[|inputs| - 1];
      OneAtATimeIsCurrent(o, inputs[..|inputs| - 1]);
      match input
      case Arrived(g, piece) =>
        if g in s.open {
          var n, news := s.open[g].number, CompletedBy(s.open[g].handler, piece);
          RecentAppends(s, n, news);
          AppendTagged(s.deliveries, n, news, n);
        }
      case Other(e) =>
        if e.GameConnected? && e.game !in s.open {
          NothingBeforeConnecting(o, inputs[..|inputs| - 1], s.sessions);
        } else if e.GameDisconnected? && e.game in s.open {
          assert s.deliveries[|s.deliveries|..] == [];
          OnlyOne(s.open, e.game);
        }
    }
  }

  /** From bytes to the game state: with one game at a time, it is what the bytes of the current
      connection say last, however they are cut, and "None" before they say anything or without a
      connection. */
  lemma GameStateFromBytes(o: Options, inputs: seq<Input>)
    requires OneAtATime(o, inputs)
    ensures var s := AbsorbAll(o, inputs);
            && (s.open.Keys == {} ==> s.adapter.gameState == NONE)
            && (forall g :: g in s.open ==>
                  s.adapter.gameState
                  == LastReportIn(Drain(Stream(PiecesOf(o, inputs, s.open[g].number))).messages, NONE))
  {
    var s := AbsorbAll(o, inputs);
    GameStateIsLastDecodedReport(o, inputs);
    OneAtATimeIsCurrent(o, inputs);
    forall g | g in s.open
      ensures s.adapter.gameState
           == LastReportIn(Drain(Stream(PiecesOf(o, inputs, s.open[g].number))).messages, NONE)
    {
      NotificationsAreTheDecodedStreams(o, inputs, s.open[g].number);
    }
  }

  lemma AbsorbSnoc(o: Options, inputs: seq<Input>, input: Input)
    ensures AbsorbAll(o, inputs + [input]) == Absorb(o, AbsorbAll(o, inputs), input)
  {
    assert (inputs + [input])[..|inputs|] == inputs;
  }

  /** One game connects, sends a piece that completes nothing, and disconnects. */
  function Visit(g: Game, piece: Str): seq<Input> {
    [Other(GameConnected(g))] + [Arrived(g, piece)] + [Other(GameDisconnected(g))]
  }

  lemma FirstConnects(o: Options, g: Game)
    ensures var s := AbsorbAll(o, [Other(GameConnected(g))]);
            s.open == map[g := Session(0, FRESH)] && s.deliveries == []
  {
    assert [Other(GameConnected(g))] == [] + [Other(GameConnected(g))];
    AbsorbSnoc(o, [], Other(GameConnected(g)));
  }

  lemma VisitLeavesNothing(o: Options, g: Game, piece: Str)
    requires Drain(piece).messages == []
    ensures var s := AbsorbAll(o, Visit(g, piece)); s.open.Keys == {} && s.deliveries == []
  {
    var i1 := [Other(GameConnected(g))];
    var s1 := AbsorbAll(o, i1);
    FirstConnects(o, g);
    AbsorbSnoc(o, i1, Arrived(g, piece));
    AbsorbSnoc(o, i1 + [Arrived(g, piece)], Other(GameDisconnected(g)));
    EmptyPiece(o, s1, g, piece);
  }

  /** A first piece that completes nothing, and the end of the connection. */
  lemma EmptyPiece(o: Options, s: System, g: Game, piece: Str)
    requires s.open == map[g := Session(0, FRESH)] && s.deliveries == [] && Drain(piece).messages == []
    ensures var r := Absorb(o, Read(o, s, g, piece), Other(GameDisconnected(g)));
            r.open.Keys == {} && r.deliveries == []
  {
    assert [] + piece == piece;
    var r := Read(o, s, g, piece);
    assert CompletedBy(FRESH, piece) == [] && r.deliveries == [];
    OnlyOne(r.open, g);
  }

  lemma NextVisit(o: Options, before: seq<Input>, h: Game, piece: Str)
    requires AbsorbAll(o, before).open.Keys == {} && AbsorbAll(o, before).deliveries == []
    ensures Notified(AbsorbAll(o, before + [Other(GameConnected(h))] + [Arrived(h, piece)]).adapter.notes)
         == Drain(piece).messages
  {
    var n := AbsorbAll(o, before).sessions;
    var inputs := before + [Other(GameConnected(h))];
    AbsorbSnoc(o, before, Other(GameConnected(h)));
    AbsorbSnoc(o, inputs, Arrived(h, piece));
    NotifiesDeliveries(o, inputs + [Arrived(h, piece)]);
    AppendTagged([], n, Drain(piece).messages, n);
    assert [] + piece == piece && [] + Drain(piece).messages == Drain(piece).messages;
  }

  /** A message begun on one connection and finished on the next is not a message: what remains of
      it is read as the beginning of something else. */
  lemma ReconnectDropsResidue(o: Options, m: Message, n: nat, g: Game, h: Game)
    requires Deliverable(m) && n < |Encode(m)|
    ensures Notified(AbsorbAll(o, Visit(g, Encode(m)[..n]) + [Other(GameConnected(h))] + [Arrived(h, Encode(m)[n..])])
                     .adapter.notes)
         == Drain(Encode(m)[n..]).messages
  {
    ProperPrefixWaits(m, n);
    VisitLeavesNothing(o, g, Encode(m)[..n]);
    NextVisit(o, Visit(g, Encode(m)[..n]), h, Encode(m)[n..]);
  }

  // ----------------------------------------------------- both directions, in bytes

  function MessageEvents(ms: seq<Message>): seq<Event> {
    if ms == [] then [] else MessageEvents(ms[..|ms| - 1]) + [GameMessage(ms[|ms| - 1])]
  }

  /** What an input amounts to for the adapter. */
  function Amounts(s: System, input: Input): seq<Event> {
    match input
    case Arrived(g, piece) => if g in s.open then MessageEvents(CompletedBy(s.open[g].handler, piece)) else []
    case Other(e) => if e.GameMessage? then [] else [e]
  }

  function AllAmounts(o: Options, inputs: seq<Input>): seq<Event> {
    if inputs == [] then []
    else
      var before := inputs[..|inputs| - 1];
      AllAmounts(o, before) + Amounts(AbsorbAll(o, before), inputs[|inputs| - 1])
  }

  lemma {:induction false} RunMessages(o: Options, events: seq<Event>, ms: seq<Message>)
    ensures Run(o, events + MessageEvents(ms)) == ReactAll(o, Run(o, events), ms)
    decreases |ms|
  {
    if ms == [] {
      assert events + [] == events;
    } else {
      var front, last := ms[..|ms| - 1], ms[|ms| - 1];
      RunMessages(o, events, front);
      Associate(events, MessageEvents(front), [GameMessage(last)]);
      RunSnoc(o, events + MessageEvents(front), GameMessage(last));
    }
  }

  /** The system of connections in bytes is the adapter of events, on the messages decoded. */
  lemma {:induction false} BytesRefineEvents(o: Options, inputs: seq<Input>)
    ensures AbsorbAll(o, inputs).adapter == Run(o, AllAmounts(o, inputs))
  {
    if inputs != [] {
      var before, input := inputs[..|inputs| - 1], inputs[|inputs| - 1];
      var s, events := AbsorbAll(o, before), AllAmounts(o, before);
      BytesRefineEvents(o, before);
      OpenGamesAreConnected(o, before);
      match input
      case Arrived(g, piece) =>
        if g in s.open {
          RunMessages(o, events, CompletedBy(s.open[g].handler, piece));
        } else {
          assert events + [] == events;
        }
      case Other(e) =>
        if e.GameMessage? {
          assert events + [] == events;
        } else {
          RunSnoc(o, events, e);
          OtherStep(o, s, e);
        }
    }
  }

  lemma OtherStep(o: Options, s: System, e: Event)
    requires s.open.Keys == s.adapter.games.Keys && !e.GameMessage?
    ensures Absorb(o, s, Other(e)).adapter == Step(o, s.adapter, e)
  {
    assert e.GameConnected? || e.GameDisconnected? ==> (e.game in s.open.Keys <==> e.game in s.adapter.games);
  }

  /** Whether an input fits the wire format, and whether it is admissible when it comes. */
  predicate Fair(s: System, input: Input) {
    input.Other? && !input.event.GameMessage? ==> Sized(input.event) && Admissible(s.adapter, input.event)
  }

  predicate FairRun(o: Options, inputs: seq<Input>) {
    inputs == []
    || (FairRun(o, inputs[..|inputs| - 1]) && Fair(AbsorbAll(o, inputs[..|inputs| - 1]), inputs[|inputs| - 1]))
  }

  ghost predicate AllSized(events: seq<Event>) {
    forall i :: 0 <= i < |events| ==> Sized(events[i])
  }

  lemma AdmissibleSnoc(o: Options, events: seq<Event>, e: Event)
    requires AdmissibleRun(o, events) && AllSized(events) && Admissible(Run(o, events), e) && Sized(e)
    ensures AdmissibleRun(o, events + [e]) && AllSized(events + [e])
  {
    assert (events + [e])[..|events|] == events;
  }

  lemma {:induction false} MessagesAreAdmissible(o: Options, events: seq<Event>, ms: seq<Message>)
    requires AdmissibleRun(o, events) && AllSized(events)
    ensures AdmissibleRun(o, events + MessageEvents(ms)) && AllSized(events + MessageEvents(ms))
    decreases |ms|
  {
    if ms == [] {
      assert events + [] == events;
    } else {
      var front, last := ms[..|ms| - 1], ms[|ms| - 1];
      MessagesAreAdmissible(o, events, front);
      AdmissibleSnoc(o, events + MessageEvents(front), GameMessage(last));
      Associate(events, MessageEvents(front), [GameMessage(last)]);
    }
  }

  lemma {:induction false} FairRunsAreAdmissible(o: Options, inputs: seq<Input>)
    requires FairRun(o, inputs)
    ensures AdmissibleRun(o, AllAmounts(o, inputs)) && AllSized(AllAmounts(o, inputs))
  {
    if inputs != [] {
      var before, input := inputs[..|inputs| - 1], inputs[|inputs| - 1];
      var s, events := AbsorbAll(o, before), AllAmounts(o, before);
      FairRunsAreAdmissible(o, before);
      BytesRefineEvents(o, before);
      if input.Other? && !input.event.GameMessage? {
        AdmissibleSnoc(o, events, input.event);
      } else if input.Arrived? && input.game in s.open {
        MessagesAreAdmissible(o, events, CompletedBy(s.open[input.game].handler, input.piece));
      } else {
        assert events + [] == events;
      }
    }
  }

  /** From bytes to bytes: whatever the games' bytes and their cutting, a game that decodes the bytes
      sent to it, in any pieces, knows exactly the peers with relays once the queue is empty. */
  lemma BytesToBytes(o: Options, inputs: seq<Input>, g: Game, pieces: seq<Str>)
    requires SizedOptions(o) && FairRun(o, inputs)
    requires var a := AbsorbAll(o, inputs).adapter;
             g in a.games && a.tasks == [] && Stream(pieces) == EncodeAll(a.games[g])
    ensures GameConcludes(pieces) == AbsorbAll(o, inputs).adapter.relays.Keys
  {
    BytesRefineEvents(o, inputs);
    FairRunsAreAdmissible(o, inputs);
    BytesConveyRelays(o, AllAmounts(o, inputs), g, pieces);
  }
}
