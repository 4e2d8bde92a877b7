/** `PeerConnectivityChecker`: when it takes the connection to a peer for lost. Times are
    milliseconds of the steady clock. */
module ConnectivityChecker {
  import opened Bytes
  import T = Timer

  const TIMEOUT := 10000
  const CHECK_INTERVAL := 1000
  const PING_START_DELAY := 5000
  const PING_INTERVAL := 500

  /** The arrays are initialised from string literals and so contain the final zero. */
  const PING: Str := Ascii("ICEADAPTERPING") + [0]
  const PONG: Str := Ascii("ICEADAPTERPONG") + [0]

  const CHECK: T.Callback := 0
  const START_PING: T.Callback := 1
  const SEND_PING: T.Callback := 2

  datatype Times = Times(start: int, lastData: Option<int>, lastPong: Option<int>)

  /** The decision of `_checkConnectivity`. */
  predicate Lost(c: Times, now: int) {
    var assumption := now - TIMEOUT;
    && !(c.lastData.None? && c.lastPong.None? && c.start > assumption)
    && !(c.lastData.Some? && c.lastData.value > assumption)
    && !(c.lastPong.Some? && c.lastPong.value > assumption)
  }

  /** `handleMessageFromPeer`. */
  function Hear(c: Times, pong: bool, now: int): Times {
    if pong then c.(lastPong := Some(now)) else c.(lastData := Some(now))
  }

  /** What happens to a checker, in order and with its time. */
  datatype Event = Heard(time: int, pong: bool) | Check(time: int)

  function Run(start: int, trace: seq<Event>): Times {
    if trace == [] then Times(start, None, None)
    else
      var c := Run(start, trace[..|trace| - 1]);
      match trace[|trace| - 1]
      case Heard(time, pong) => Hear(c, pong, time)
      case Check(_) => c
  }

  /** Time does not run backwards. */
  predicate Timed(start: int, trace: seq<Event>) {
    (forall i :: 0 <= i < |trace| ==> start <= trace[i].time)
    && (forall i, j :: 0 <= i < j < |trace| ==> trace[i].time <= trace[j].time)
  }

  /** Whether event i reports the connection lost. */
  predicate Reports(start: int, trace: seq<Event>, i: nat)
    requires i < |trace|
  {
    trace[i].Check? && Lost(Run(start, trace[..i]), trace[i].time)
  }

  function Max(a: int, b: int): int {
    if a >= b then a else b
  }

  /** The time since when there has been silence: the last message of the trace, or the start. */
  function LastHeard(start: int, trace: seq<Event>): int {
    if trace == [] then start
    else if trace[|trace| - 1].Heard? then trace[|trace| - 1].time
    else LastHeard(start, trace[..|trace| - 1])
  }

  function LastTime(c: Times): int {
    match (c.lastData, c.lastPong)
    case (None, None) => c.start
    case (Some(d), None) => d
    case (None, Some(p)) => p
    case (Some(d), Some(p)) => Max(d, p)
  }

  lemma TimedPrefix(start: int, trace: seq<Event>, n: nat)
    requires Timed(start, trace) && n <= |trace|
    ensures Timed(start, trace[..n])
  {
  }

  /** The three fields tell since when there has been silence. */
  lemma {:induction false} FieldsTellSilence(start: int, trace: seq<Event>)
    requires Timed(start, trace)
    ensures LastTime(Run(start, trace)) == LastHeard(start, trace)
    ensures Run(start, trace).start == start
    ensures trace != [] ==> start <= LastHeard(start, trace) <= trace[|trace| - 1].time
    ensures trace == [] ==> LastHeard(start, trace) == start
  {
    if trace != [] {
      var n := |trace| - 1;
      TimedPrefix(start, trace, n);
      FieldsTellSilence(start, trace[..n]);
      assert n > 0 ==> trace[..n][n - 1] == trace[n - 1];
    }
  }

  /** A check reports a loss exactly if nothing has been heard for the whole timeout. */
  lemma ReportsIffSilent(start: int, trace: seq<Event>, i: nat)
    requires Timed(start, trace) && i < |trace| && trace[i].Check?
    ensures Reports(start, trace, i) <==> LastHeard(start, trace[..i]) + TIMEOUT <= trace[i].time
  {
    TimedPrefix(start, trace, i);
    FieldsTellSilence(start, trace[..i]);
  }

  /** The last pong, and the last message that is not a pong, are what the fields remember. */
  lemma {:induction false} LastOfItsKind(start: int, trace: seq<Event>, i: nat)
    requires i < |trace| && trace[i].Heard?
    requires forall j :: i < j < |trace| ==> !(trace[j].Heard? && trace[j].pong == trace[i].pong)
    ensures var c := Run(start, trace);
            (if trace[i].pong then c.lastPong else c.lastData) == Some(trace[i].time)
  {
    var n := |trace| - 1;
    if i < n {
      LastOfItsKind(start, trace[..n], i);
    }
  }

  lemma {:induction false} NoneOfItsKind(start: int, trace: seq<Event>, pong: bool)
    requires forall j :: 0 <= j < |trace| ==> !(trace[j].Heard? && trace[j].pong == pong)
    ensures var c := Run(start, trace);
            (if pong then c.lastPong else c.lastData) == None
  {
    if trace != [] {
      NoneOfItsKind(start, trace[..|trace| - 1], pong);
    }
  }

  /** Every message heard ends a silence. */
  lemma {:induction false} HeardEndsSilence(start: int, trace: seq<Event>, j: nat)
    requires Timed(start, trace) && j < |trace| && trace[j].Heard?
    ensures LastHeard(start, trace) >= trace[j].time
    decreases |trace|
  {
    var n := |trace| - 1;
    if !trace[n].Heard? {
      TimedPrefix(start, trace, n);
      HeardEndsSilence(start, trace[..n], j);
    }
  }

  /** The time of the last check before event i, or the start. */
  function CheckBefore(start: int, trace: seq<Event>, i: nat): int
    requires i <= |trace|
  {
    if i == 0 then start else if trace[i - 1].Check? then trace[i - 1].time else CheckBefore(start, trace, i - 1)
  }

  /** Checks are at most one interval apart. */
  predicate ChecksClose(start: int, trace: seq<Event>) {
    forall i :: 0 <= i < |trace| && trace[i].Check? ==> trace[i].time <= CheckBefore(start, trace, i) + CHECK_INTERVAL
  }

  lemma {:induction false} SilenceGrows(start: int, trace: seq<Event>, i: nat, k: nat)
    requires Timed(start, trace) && i <= k <= |trace|
    ensures LastHeard(start, trace[..i]) <= LastHeard(start, trace[..k])
    decreases k
  {
    if i < k {
      assert trace[..k][..k - 1] == trace[..k - 1];
      SilenceGrows(start, trace, i, k - 1);
      TimedPrefix(start, trace, k - 1);
      FieldsTellSilence(start, trace[..k - 1]);
      if k - 1 > 0 {
        assert trace[..k - 1][k - 2] == trace[k - 2];
      }
    }
  }

  /** When no check before i has reported a loss, the last of them was less than the timeout away
      from a message. */
  lemma {:induction false} NotYetSilent(start: int, trace: seq<Event>, i: nat)
    requires Timed(start, trace) && i <= |trace|
    requires forall k :: 0 <= k < i ==> !Reports(start, trace, k)
    ensures CheckBefore(start, trace, i) < LastHeard(start, trace[..i]) + TIMEOUT
  {
    TimedPrefix(start, trace, i);
    FieldsTellSilence(start, trace[..i]);
    if i == 0 {
    } else if trace[i - 1].Check? {
      ReportsIffSilent(start, trace, i - 1);
      SilenceGrows(start, trace, i - 1, i);
    } else {
      NotYetSilent(start, trace, i - 1);
      SilenceGrows(start, trace, i - 1, i);
    }
  }

  /** The first report of a loss comes no earlier than 10 s after the last message, or after the
      start if there was none, and less than 11 s after it. */
  lemma FirstReportInWindow(start: int, trace: seq<Event>, i: nat)
    requires Timed(start, trace) && ChecksClose(start, trace) && i < |trace| && Reports(start, trace, i)
    requires forall k :: 0 <= k < i ==> !Reports(start, trace, k)
    ensures var silentSince := LastHeard(start, trace[..i]);
            silentSince + 10000 <= trace[i].time < silentSince + 11000
  {
    ReportsIffSilent(start, trace, i);
    NotYetSilent(start, trace, i);
  }

  lemma {:induction false} FirstReport(start: int, trace: seq<Event>, i: nat) returns (j: nat)
    requires i < |trace| && Reports(start, trace, i)
    ensures j <= i && Reports(start, trace, j) && forall k :: 0 <= k < j ==> !Reports(start, trace, k)
  {
    j := 0;
    while !Reports(start, trace, j)
      invariant j <= i && forall k :: 0 <= k < j ==> !Reports(start, trace, k)
      decreases i - j
    {
      j := j + 1;
    }
  }

  /** Silence that lasts until a check finds it long enough was reported in that window. */
  lemma {:induction false} LossIsDetected(start: int, trace: seq<Event>, i: nat) returns (j: nat)
    requires Timed(start, trace) && ChecksClose(start, trace) && i < |trace| && trace[i].Check?
    requires LastHeard(start, trace[..i]) + TIMEOUT <= trace[i].time
    ensures j <= i && Reports(start, trace, j) && forall k :: 0 <= k < j ==> !Reports(start, trace, k)
    ensures var silentSince := LastHeard(start, trace[..j]);
            silentSince + 10000 <= trace[j].time < silentSince + 11000
  {
    ReportsIffSilent(start, trace, i);
    j := FirstReport(start, trace, i);
    FirstReportInWindow(start, trace, j);
  }

  // --------------------------------------------------------------------- pings

  /** The start delay and then one interval per ping. */
  function PingTime(start: int, k: nat): int {
    start + PING_START_DELAY + PING_INTERVAL * (k + 1)
  }

  /** That is when the two timers that the constructor and `_startPing` set call `_sendPing`. */
  lemma PingSchedule(start: int, k: nat)
    ensures var delay := T.Apply(T.IDLE, T.SingleShot(PING_START_DELAY, START_PING));
            var pings := T.Apply(T.IDLE, T.Start(PING_INTERVAL, SEND_PING));
            T.Arrival(pings, T.Arrival(delay, start, 0), k) == PingTime(start, k) == start + 5000 + 500 * (k + 1)
  {
    T.PeriodicArrivals(T.Apply(T.IDLE, T.Start(PING_INTERVAL, SEND_PING)), PING_INTERVAL, SEND_PING,
                       start + PING_START_DELAY, k);
  }

  /** And the checks are one interval apart, the first one interval after the start. */
  lemma CheckSchedule(start: int, k: nat)
    ensures var checks := T.Apply(T.IDLE, T.Start(CHECK_INTERVAL, CHECK));
            T.Arrival(checks, start, k) == start + 1000 * (k + 1)
  {
    T.PeriodicArrivals(T.Apply(T.IDLE, T.Start(CHECK_INTERVAL, CHECK)), CHECK_INTERVAL, CHECK, start, k);
  }

  /** Every ping is answered within d: a check later than that comes after the answer. */
  ghost predicate Answered(start: int, trace: seq<Event>, d: int) {
    forall i: nat, k: nat :: i < |trace| && trace[i].Check? && PingTime(start, k) + d < trace[i].time ==>
      HeardSince(trace[..i], PingTime(start, k))
  }

  predicate HeardSince(trace: seq<Event>, time: int) {
    exists j :: 0 <= j < |trace| && trace[j].Heard? && trace[j].time >= time
  }

  /** As long as every ping is answered in less than 4.5 s, no loss is ever reported. */
  lemma AnsweredPingsPreventReport(start: int, trace: seq<Event>, d: int, i: nat)
    requires Timed(start, trace) && 0 <= d < 4500 && Answered(start, trace, d) && i < |trace|
    ensures !Reports(start, trace, i)
  {
    if trace[i].Check? {
      var t := trace[i].time;
      ReportsIffSilent(start, trace, i);
      TimedPrefix(start, trace, i);
      FieldsTellSilence(start, trace[..i]);
      if t >= start + TIMEOUT {
        var k: nat := (t - start - PING_START_DELAY - PING_INTERVAL - d - 1) / PING_INTERVAL;
        assert PingTime(start, k) + d < t <= PingTime(start, k) + d + PING_INTERVAL;
        assert HeardSince(trace[..i], PingTime(start, k));
        var j: nat :| j < |trace[..i]| && trace[..i][j].Heard? && trace[..i][j].time >= PingTime(start, k);
        HeardEndsSilence(start, trace[..i], j);
      }
    }
  }

  /** The bound is tight: when the first answer takes 4.5 s, a check at the same time reports a
      loss if it comes first. */
  lemma SlowFirstAnswerIsReported(start: int)
    ensures var trace := [Check(start + TIMEOUT), Heard(start + TIMEOUT, true)];
            Timed(start, trace) && Answered(start, trace, 4500) && Reports(start, trace, 0)
            && trace[1].time == PingTime(start, 0) + 4500
  {
    var trace := [Check(start + TIMEOUT), Heard(start + TIMEOUT, true)];
    assert trace[..0] == [];
  }

  // ------------------------------------------------------------ implementation

  class PeerConnectivityChecker {
    const timerStartTime: int
    const connectivityCheckTimer: T.Timer
    const pingStartDelayTimer: T.Timer
    const pingTimer: T.Timer
    var lastReceivedDataTime: Option<int>
    var lastReceivedPongTime: Option<int>
    var lastSentPingTime: Option<int>
    /** Messages sent over the data channel. */
    var sent: seq<Str>

    ghost function State(): Times
      reads this
    {
      Times(timerStartTime, lastReceivedDataTime, lastReceivedPongTime)
    }

    constructor (now: int)
      ensures State() == Run(now, []) && sent == []
      ensures fresh(connectivityCheckTimer) && fresh(pingStartDelayTimer) && fresh(pingTimer)
      ensures connectivityCheckTimer.State() == T.Apply(T.IDLE, T.Start(CHECK_INTERVAL, CHECK))
      ensures pingStartDelayTimer.State() == T.Apply(T.IDLE, T.SingleShot(PING_START_DELAY, START_PING))
      ensures pingTimer.State() == T.IDLE
    {
      timerStartTime := now;
      lastReceivedDataTime, lastReceivedPongTime, lastSentPingTime, sent := None, None, None, [];
      connectivityCheckTimer := new T.Timer();
      pingStartDelayTimer := new T.Timer();
      pingTimer := new T.Timer();
      new;
      connectivityCheckTimer.StartPeriodic(CHECK_INTERVAL, CHECK);
      pingStartDelayTimer.StartOnce(PING_START_DELAY, START_PING);
    }

    /** `handleMessageFromPeer`: true for a pong, which is not passed on to the game. */
    method HandleMessageFromPeer(data: Str, now: int) returns (pong: bool)
      modifies this`lastReceivedDataTime, this`lastReceivedPongTime
      ensures pong == (data == PONG) && State() == Hear(old(State()), pong, now)
    {
      if |data| == |PONG| {
        if data == PONG {
          lastReceivedPongTime := Some(now);
          return true;
        }
      }
      lastReceivedDataTime := Some(now);
      pong := false;
    }

    /** `_startPing`. */
    method StartPing()
      modifies pingTimer
      ensures pingTimer.State() == T.Apply(old(pingTimer.State()), T.Start(PING_INTERVAL, SEND_PING))
    {
      pingTimer.StartPeriodic(PING_INTERVAL, SEND_PING);
    }

    /** `_sendPing`. */
    method SendPing(now: int)
      modifies this`sent, this`lastSentPingTime
      ensures sent == old(sent) + [PING] && lastSentPingTime == Some(now)
    {
      sent := sent + [PING];
      lastSentPingTime := Some(now);
    }

    /** `_checkConnectivity`; true if it calls the lost-callback: when the last sign of life, or the
        start if there was none, is as long ago as the timeout. */
    method CheckConnectivity(now: int) returns (lost: bool)
      ensures lost <==> LastTime(State()) + 10000 <= now
      ensures lost <==> Lost(State(), now)
    {
      var connectionLostAssumptionTime := now - TIMEOUT;
      lost := true;
      if lastReceivedDataTime.None? && lastReceivedPongTime.None? && timerStartTime > connectionLostAssumptionTime {
        lost := false;
      }
      if lastReceivedDataTime.Some? && lastReceivedDataTime.value > connectionLostAssumptionTime {
        lost := false;
      }
      if lastReceivedPongTime.Some? && lastReceivedPongTime.value > connectionLostAssumptionTime {
        lost := false;
      }
    }
  }
}
