/** The bookkeeping of the test game's `Pingtracker`: every ping it sends is pending until it is
    answered or given up. Times are milliseconds of the system clock. */
module PingLedger {
  import opened Bytes
  import opened Order

  const EXPIRY := 5000
  const SEND_INTERVAL := 20

  datatype Ledger = Ledger(
    pending: map<int, int>,
    lost: nat,
    successful: nat,
    currentPingId: int,
    /** history: when each ping was sent; the id is the index */
    sends: seq<int>)

  const EMPTY := Ledger(map[], 0, 0, 0, [])

  /** `_sendPing`. */
  function Send(l: Ledger, now: int): Ledger {
    l.(pending := l.pending[l.currentPingId := now], currentPingId := l.currentPingId + 1, sends := l.sends + [now])
  }

  /** A pong for this peer. */
  function Pong(l: Ledger, id: int): Ledger {
    if id in l.pending then l.(pending := l.pending - {id}, successful := l.successful + 1) else l
  }

  predicate Expired(l: Ledger, id: int, now: int)
    requires id in l.pending
  {
    now - l.pending[id] > EXPIRY
  }

  /** `_update`: expired pings are given up from the lowest id on, up to the first that is not. */
  function Update(l: Ledger, now: int): Ledger
    decreases |l.pending|
  {
    if l.pending.Keys == {} then l
    else
      var id := Min(l.pending.Keys);
      Shrinks(l.pending, id);
      if Expired(l, id, now) then Update(l.(pending := l.pending - {id}, lost := l.lost + 1), now) else l
  }

  lemma Shrinks(m: map<int, int>, id: int)
    requires id in m
    ensures (m - {id}).Keys == m.Keys - {id}
    ensures |m - {id}| == |m| - 1
  {
    assert (m - {id}).Keys == m.Keys - {id};
  }

  /** One turn of the loop. */
  lemma UpdateTurn(l: Ledger, now: int)
    ensures l.pending.Keys == {} ==> Update(l, now) == l
    ensures l.pending.Keys != {} ==>
              var id := Min(l.pending.Keys);
              Update(l, now)
              == if Expired(l, id, now) then Update(l.(pending := l.pending - {id}, lost := l.lost + 1), now) else l
  {
  }

  /** The pings that are still pending when every expired one is given up. */
  function Unexpired(l: Ledger, now: int): map<int, int> {
    map id | id in l.pending && !Expired(l, id, now) :: l.pending[id]
  }

  function FullSweep(l: Ledger, now: int): Ledger {
    UnexpiredBound(l, now);
    l.(pending := Unexpired(l, now), lost := l.lost + (|l.pending| - |Unexpired(l, now)|))
  }

  lemma UnexpiredBound(l: Ledger, now: int)
    ensures |Unexpired(l, now)| <= |l.pending|
  {
    SubsetSize(Unexpired(l, now).Keys, l.pending.Keys);
  }

  /** Behind a ping that has not expired, none has. */
  predicate InOrder(l: Ledger, now: int) {
    forall a, b :: a in l.pending && b in l.pending && a < b && Expired(l, b, now) ==> Expired(l, a, now)
  }

  lemma {:induction false} FirstExpired(l: Ledger, id: int, now: int)
    requires id in l.pending && (forall k :: k in l.pending ==> id <= k) && Expired(l, id, now)
    ensures var m := l.(pending := l.pending - {id}, lost := l.lost + 1);
            FullSweep(m, now) == FullSweep(l, now) && (InOrder(m, now) <==> InOrder(l, now))
  {
    var m := l.(pending := l.pending - {id}, lost := l.lost + 1);
    Shrinks(l.pending, id);
    assert Unexpired(m, now) == Unexpired(l, now);
    assert InOrder(l, now) ==> InOrder(m, now);
    if InOrder(m, now) {
      forall a, b | a in l.pending && b in l.pending && a < b && Expired(l, b, now) ensures Expired(l, a, now) {
        if a != id {
          assert a in m.pending && b in m.pending && Expired(m, b, now);
        }
      }
    }
  }

  lemma {:induction false} FirstUnexpired(l: Ledger, id: int, now: int)
    requires id in l.pending && (forall k :: k in l.pending ==> id <= k) && !Expired(l, id, now)
    ensures FullSweep(l, now) == l <==> InOrder(l, now)
  {
    if InOrder(l, now) {
      assert forall k :: k in l.pending ==> !Expired(l, k, now);
      assert Unexpired(l, now) == l.pending;
    }
    if FullSweep(l, now) == l {
      assert forall k :: k in l.pending ==> k in Unexpired(l, now);
    }
  }

  /** Stopping at the first ping that has not expired is as good as looking at all of them exactly
      if none behind such a ping has expired. */
  lemma {:induction false} UpdateIsFullSweepIff(l: Ledger, now: int)
    ensures Update(l, now) == FullSweep(l, now) <==> InOrder(l, now)
    decreases |l.pending|
  {
    if l.pending.Keys == {} {
      assert Unexpired(l, now) == l.pending;
    } else {
      var id := Min(l.pending.Keys);
      Shrinks(l.pending, id);
      if Expired(l, id, now) {
        FirstExpired(l, id, now);
        UpdateIsFullSweepIff(l.(pending := l.pending - {id}, lost := l.lost + 1), now);
      } else {
        FirstUnexpired(l, id, now);
      }
    }
  }

  // ------------------------------------------------------------------- whole runs

  datatype Event = Sent(time: int) | Answered(id: int) | Updated(time: int)

  function Step(l: Ledger, e: Event): Ledger {
    match e
    case Sent(time) => Send(l, time)
    case Answered(id) => Pong(l, id)
    case Updated(time) => Update(l, time)
  }

  function Run(events: seq<Event>): Ledger {
    if events == [] then EMPTY else Step(Run(events[..|events| - 1]), events[|events| - 1])
  }

  ghost predicate Balanced(l: Ledger) {
    && l.currentPingId == |l.sends| == l.successful + l.lost + |l.pending|
    && forall id :: id in l.pending ==> 0 <= id < |l.sends| && l.pending[id] == l.sends[id]
  }

  lemma {:induction false} UpdateBalances(l: Ledger, now: int)
    requires Balanced(l)
    ensures Balanced(Update(l, now)) && Update(l, now).sends == l.sends
    decreases |l.pending|
  {
    if l.pending.Keys != {} {
      var id := Min(l.pending.Keys);
      Shrinks(l.pending, id);
      if Expired(l, id, now) {
        UpdateBalances(l.(pending := l.pending - {id}, lost := l.lost + 1), now);
      }
    }
  }

  lemma SendBalances(l: Ledger, now: int)
    requires Balanced(l)
    ensures Balanced(Send(l, now))
  {
    assert l.pending[l.currentPingId := now].Keys == l.pending.Keys + {l.currentPingId};
  }

  /** In every run, whatever pongs arrive twice, late or unasked and however the clock jumps: the
      pings sent are those answered, those lost and those pending. */
  lemma {:induction false} PingsAreConserved(events: seq<Event>)
    ensures Balanced(Run(events))
  {
    if events != [] {
      var l := Run(events[..|events| - 1]);
      PingsAreConserved(events[..|events| - 1]);
      match events[|events| - 1]
      case Sent(time) => SendBalances(l, time);
      case Answered(id) =>
        if id in l.pending {
          Shrinks(l.pending, id);
        }
      case Updated(time) => UpdateBalances(l, time);
    }
  }

  /** Successive sends are at least the given time apart; with zero, time just does not run
      backwards. */
  predicate Spaced(sends: seq<int>, gap: nat) {
    forall i :: 0 <= i && i + 1 < |sends| ==> sends[i] + gap <= sends[i + 1]
  }

  lemma {:induction false} SpacedApart(sends: seq<int>, gap: nat, i: nat, j: nat)
    requires Spaced(sends, gap) && i <= j < |sends|
    ensures sends[i] + gap * (j - i) <= sends[j]
    decreases j
  {
    if i < j {
      SpacedApart(sends, gap, i, j - 1);
      assert sends[j - 1] + gap <= sends[j - 1 + 1];
      assert gap * (j - i) == gap * (j - 1 - i) + gap;
    }
  }

  /** While the clock does not run backwards between sends, every `_update` of a run is a full
      sweep. */
  lemma UpdateSweepsAll(events: seq<Event>, now: int)
    requires Spaced(Run(events).sends, 0)
    ensures Update(Run(events), now) == FullSweep(Run(events), now)
    ensures forall id :: id in Run(events).pending ==>
              (id in Update(Run(events), now).pending <==> now <= Run(events).pending[id] + 5000)
  {
    var l := Run(events);
    PingsAreConserved(events);
    forall a, b | a in l.pending && b in l.pending && a < b && Expired(l, b, now) ensures Expired(l, a, now) {
      SpacedApart(l.sends, 0, a, b);
    }
    UpdateIsFullSweepIff(l, now);
  }

  /** The clock that runs backwards: the early break then keeps an expired ping. */
  lemma BackwardsClockKeepsExpired()
    ensures var l := Run([Sent(100), Sent(0)]);
            1 in l.pending && Expired(l, 1, 5050) && 1 in Update(l, 5050).pending
  {
    var events := [Sent(100), Sent(0)];
    assert events[..1] == [Sent(100)] && [Sent(100)][..0] == [];
    var l := Run(events);
    assert Run([Sent(100)]) == Send(EMPTY, 100);
    assert l == Send(Send(EMPTY, 100), 0);
    assert 0 in l.pending.Keys && 1 in l.pending.Keys;
    assert Min(l.pending.Keys) == 0;
  }

  function Range(low: int, n: nat): (s: set<int>)
    ensures forall x :: x in s <==> low <= x < low + n
    ensures |s| == n
  {
    if n == 0 then {} else Range(low, n - 1) + {low + n - 1}
  }

  lemma FewKeys(keys: set<int>, n: nat)
    requires forall a, b :: a in keys && b in keys && a < b ==> b - a < n
    requires n > 0
    ensures |keys| <= n
  {
    if keys != {} {
      SubsetSize(keys, Range(Min(keys), n));
    }
  }

  lemma UnexpiredAreClose(l: Ledger, now: int)
    requires Balanced(l) && Spaced(l.sends, SEND_INTERVAL)
    requires l.sends != [] ==> l.sends[|l.sends| - 1] <= now
    ensures |Unexpired(l, now)| <= EXPIRY / SEND_INTERVAL + 1
  {
    var keys := Unexpired(l, now).Keys;
    forall a, b | a in keys && b in keys && a < b ensures b - a < EXPIRY / SEND_INTERVAL + 1 {
      SpacedApart(l.sends, SEND_INTERVAL, a, b);
      SpacedApart(l.sends, SEND_INTERVAL, b, |l.sends| - 1);
    }
    FewKeys(keys, EXPIRY / SEND_INTERVAL + 1);
  }

  /** With pings sent at least 20 ms apart, at most 5000 / 20 + 1 are pending after an update. */
  lemma FewPendingAfterUpdate(events: seq<Event>, now: int)
    requires var sends := Run(events).sends;
             Spaced(sends, 20) && (sends != [] ==> sends[|sends| - 1] <= now)
    ensures |Update(Run(events), now).pending| <= 251
  {
    PingsAreConserved(events);
    UnexpiredAreClose(Run(events), now);
    UpdateSweepsAll(events, now);
  }

  // -------------------------------------------------------------------- packets

  datatype Kind = Ping | PongKind | OtherKind

  datatype Packet = Packet(kind: Kind, senderId: nat, answererId: nat, pingId: nat)

  /** An `int` as `uint32_t`. */
  function Unsigned(i: int): nat {
    i % 0x1_0000_0000
  }

  function PingPacket(localId: int, remoteId: int, id: int): Packet {
    Packet(Ping, Unsigned(localId), Unsigned(remoteId), Unsigned(id))
  }

  /** What is sent back for a packet. */
  function Response(localId: int, p: Packet): Option<Packet> {
    if p.kind.Ping? && p.answererId == Unsigned(localId) then Some(p.(kind := PongKind)) else None
  }

  /** What a packet does to the ledger. */
  function Receive(l: Ledger, localId: int, p: Packet): Ledger {
    if p.kind.PongKind? && p.senderId == Unsigned(localId) then Pong(l, LowInt32(p.pingId)) else l
  }

  /** The answer that the remote side gives to a pending ping settles that ping; arriving once more
      it changes nothing. */
  lemma AnswerSettlesPing(l: Ledger, localId: int, remoteId: int, id: int)
    requires Balanced(l) && id in l.pending && id < 0x8000_0000
    ensures var answer := Response(remoteId, PingPacket(localId, remoteId, id));
            answer.Some?
            && Receive(l, localId, answer.value) == l.(pending := l.pending - {id}, successful := l.successful + 1)
            && Receive(Receive(l, localId, answer.value), localId, answer.value) == Receive(l, localId, answer.value)
  {
    assert Unsigned(id) == id && LowInt32(Unsigned(id)) == id;
  }

  /** The conversions to and from `uint32_t` lose nothing of an `int`. */
  lemma SameInt(i: Int32)
    ensures 0 <= Unsigned(i) < 0x1_0000_0000 && LowInt32(Unsigned(i)) == i
  {
  }

  /** A ping is answered exactly if it is meant for this peer, and nothing but the answer to an own
      pending ping changes the ledger. */
  lemma PacketMattersIff(l: Ledger, localId: Int32, p: Packet)
    requires Balanced(l)
    requires p.senderId < 0x1_0000_0000 && p.answererId < 0x1_0000_0000 && p.pingId < 0x1_0000_0000
    ensures Response(localId, p).Some? <==> p.kind == Ping && LowInt32(p.answererId) == localId
    ensures Receive(l, localId, p) != l
       <==> p.kind == PongKind && LowInt32(p.senderId) == localId
            && p.pingId < 0x8000_0000 && p.pingId in l.pending
  {
    SameInt(localId);
  }
}
