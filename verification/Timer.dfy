/** `Timer`: a callback that is called when a message posted to the thread's queue arrives. */
module Timer {
  import opened Bytes

  /** A callback, by name; what it does is up to the caller of `OnMessage`. */
  type Callback = nat

  /** The fields of a timer, and the delays of its messages that are in the thread's queue. */
  datatype Clock = Clock(callback: Option<Callback>, single: bool, interval: int, posted: seq<int>)

  const IDLE := Clock(None, false, 0, [])

  datatype Operation = Start(interval: int, callback: Callback) | SingleShot(delay: int, callback: Callback) | Stop

  function Apply(c: Clock, op: Operation): Clock {
    match op
    case Start(interval, callback) => Clock(Some(callback), false, interval, [interval])
    case SingleShot(delay, callback) => Clock(Some(callback), true, c.interval, [delay])
    case Stop => c.(callback := None, posted := [])
  }

  function ApplyAll(c: Clock, ops: seq<Operation>): Clock {
    if ops == [] then c else Apply(ApplyAll(c, ops[..|ops| - 1]), ops[|ops| - 1])
  }

  /** What `OnMessage` does once the callback has returned. */
  function AfterCallback(c: Clock): Clock {
    if c.single then c.(callback := None) else c.(posted := c.posted + [c.interval])
  }

  /** A message arrives; the callback operates on its own timer as given by ops. */
  function Fire(c: Clock, ops: seq<Operation>): Clock
    requires c.posted != []
  {
    var taken := c.(posted := c.posted[1..]);
    if c.callback.None? then taken else AfterCallback(ApplyAll(taken, ops))
  }

  /** `started()` says whether a message is on its way, and there is never a second one. */
  predicate Regular(c: Clock) {
    |c.posted| == if c.callback.Some? then 1 else 0
  }

  /** Starting and stopping from outside always leaves a regular timer. */
  lemma {:induction false} OperationsAreRegular(c: Clock, ops: seq<Operation>)
    requires ops != []
    ensures Regular(ApplyAll(c, ops))
    ensures ApplyAll(c, ops).callback.None? <==> ops[|ops| - 1].Stop?
  {
  }

  /** The message of a regular timer leaves it regular if and only if its callback left its own
      timer alone, or stopped a single-shot timer. A periodic timer stopped by its own callback
      posts once more, one restarted by it runs twice, and a single shot set by it is forgotten. */
  lemma FireRegularIff(c: Clock, ops: seq<Operation>)
    requires Regular(c) && c.posted != []
    ensures Regular(Fire(c, ops))
       <==> ops == [] || (ops[|ops| - 1].Stop? && ApplyAll(c.(posted := []), ops).single)
  {
    assert c.posted[1..] == [];
    if ops != [] {
      OperationsAreRegular(c.(posted := []), ops);
    }
  }

  /** A message that arrives at a stopped timer calls nothing and posts nothing. */
  lemma LateMessageIsIgnored(c: Clock, ops: seq<Operation>)
    requires c.posted != [] && c.callback.None?
    ensures Fire(c, ops).callback.None? && Fire(c, ops).posted == c.posted[1..]
  {
  }

  datatype Step = Operate(op: Operation) | Arrive

  function Run(steps: seq<Step>): Clock {
    if steps == [] then IDLE
    else
      var c := Run(steps[..|steps| - 1]);
      match steps[|steps| - 1]
      case Operate(op) => Apply(c, op)
      case Arrive => if c.posted == [] then c else Fire(c, [])
  }

  /** As long as no callback operates on its own timer, a timer is started exactly when one message
      is on its way. */
  lemma {:induction false} RunIsRegular(steps: seq<Step>)
    ensures Regular(Run(steps))
  {
    if steps != [] {
      RunIsRegular(steps[..|steps| - 1]);
    }
  }

  /** When the message number k of a timer arrives, if its first was posted at the given time, every
      message arrives exactly after its delay, and the callback leaves the timer alone. */
  function Arrival(c: Clock, time: int, k: nat): int
    decreases k
  {
    if c.posted == [] then time
    else if k == 0 then time + c.posted[0]
    else Arrival(Fire(c, []), time + c.posted[0], k - 1)
  }

  lemma {:induction false} PeriodicArrivals(c: Clock, interval: int, callback: Callback, time: int, k: nat)
    requires c.callback == Some(callback) && !c.single && c.interval == interval && c.posted == [interval]
    ensures Arrival(c, time, k) == time + interval * (k + 1)
    decreases k
  {
    assert c.posted[1..] == [];
    if k > 0 {
      PeriodicArrivals(Fire(c, []), interval, callback, time + interval, k - 1);
      assert interval * (k + 1) == interval + interval * (k - 1 + 1);
    }
  }

  class Timer {
    var callback: Option<Callback>
    var single: bool
    var interval: int
    /** The delays of the messages that `PostDelayed` put into the queue. */
    var posted: seq<int>

    ghost function State(): Clock
      reads this
    {
      Clock(callback, single, interval, posted)
    }

    constructor ()
      ensures State() == IDLE
    {
      callback, single, interval, posted := None, false, 0, [];
    }

    method StartPeriodic(intervalMs: int, cb: Callback)
      modifies this
      ensures State() == Apply(old(State()), Start(intervalMs, cb))
    {
      StopTimer();
      interval := intervalMs;
      callback := Some(cb);
      single := false;
      posted := posted + [interval];
    }

    method StartOnce(delay: int, cb: Callback)
      modifies this
      ensures State() == Apply(old(State()), SingleShot(delay, cb))
    {
      StopTimer();
      callback := Some(cb);
      single := true;
      posted := posted + [delay];
    }

    predicate Started()
      reads this
    {
      callback.Some?
    }

    method StopTimer()
      modifies this
      ensures State() == Apply(old(State()), Stop)
    {
      callback := None;
      posted := [];
    }

    /** The first part of `OnMessage`: whether a callback is to be called. */
    method TakeMessage() returns (call: bool)
      requires posted != []
      modifies this`posted
      ensures State() == old(State()).(posted := old(posted)[1..]) && call == Started()
    {
      posted := posted[1..];
      call := callback.Some?;
    }

    /** The second part, once the callback has returned. */
    method CallbackReturned()
      modifies this
      ensures State() == AfterCallback(old(State()))
    {
      if single {
        callback := None;
      } else {
        posted := posted + [interval];
      }
    }
  }
}
