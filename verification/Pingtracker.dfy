/** `Pingtracker` as it runs; its two timers call `SendPing` and `Sweep`. */
module Pingtracker {
  import opened Bytes
  import opened Order
  import opened PingLedger

  class Pingtracker {
    const localPeerId: int
    const remotePeerId: int
    var pendingPings: map<int, int>
    var lostPings: nat
    var successfulPings: nat
    var currentPingId: int
    /** Packets written to the game's lobby socket. */
    var sent: seq<Packet>
    ghost var sends: seq<int>

    ghost function State(): Ledger
      reads this
    {
      Ledger(pendingPings, lostPings, successfulPings, currentPingId, sends)
    }

    constructor (local: int, remote: int)
      ensures State() == EMPTY && sent == [] && localPeerId == local && remotePeerId == remote
    {
      localPeerId, remotePeerId := local, remote;
      pendingPings, lostPings, successfulPings, currentPingId, sent, sends := map[], 0, 0, 0, [], [];
    }

    /** `_sendPing`. */
    method SendPing(now: int)
      modifies this
      ensures State() == Send(old(State()), now)
      ensures sent == old(sent) + [PingPacket(localPeerId, remotePeerId, old(currentPingId))]
    {
      sent := sent + [PingPacket(localPeerId, remotePeerId, currentPingId)];
      pendingPings := pendingPings[currentPingId := now];
      currentPingId := currentPingId + 1;
      sends := sends + [now];
    }

    /** `onPingPacket`. */
    method OnPingPacket(p: Packet)
      modifies this
      ensures State() == Receive(old(State()), localPeerId, p)
      ensures sent == old(sent)
                      + (match Response(localPeerId, p) { case Some(answer) => [answer] case None => [] })
    {
      if p.kind.Ping? {
        if p.answererId != Unsigned(localPeerId) {
          return;
        }
        sent := sent + [p.(kind := PongKind)];
      } else if p.kind.PongKind? {
        if p.senderId != Unsigned(localPeerId) {
          return;
        }
        var id := LowInt32(p.pingId);
        if id !in pendingPings {
          return;
        }
        pendingPings := pendingPings - {id};
        successfulPings := successfulPings + 1;
      }
    }

    /** One turn of the loop of `_update`; false stands for its `break`. */
    method SweepOnce(now: int) returns (more: bool)
      requires pendingPings.Keys != {}
      modifies this`pendingPings, this`lostPings
      ensures Update(State(), now) == Update(old(State()), now)
      ensures if more then |pendingPings| < |old(pendingPings)| else State() == Update(old(State()), now)
    {
      UpdateTurn(State(), now);
      var id := Min(pendingPings.Keys);
      Shrinks(pendingPings, id);
      if now - pendingPings[id] > EXPIRY {
        pendingPings := pendingPings - {id};
        lostPings := lostPings + 1;
        more := true;
      } else {
        more := false;
      }
    }

    /** `_update`. */
    method Sweep(now: int)
      modifies this`pendingPings, this`lostPings
      ensures State() == Update(old(State()), now)
    {
      while pendingPings.Keys != {}
        invariant Update(State(), now) == Update(old(State()), now)
        decreases |pendingPings|
      {
        var more := SweepOnce(now);
        if !more {
          return;
        }
      }
      UpdateTurn(State(), now);
    }
  }
}
