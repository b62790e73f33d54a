/** The relay towards the UDP peers as an object, and what its queue means for peers that sent datagrams. */
module UdpRelay {
  import opened FrameReader
  import opened Wire
  import opened Address
  import opened UdpQueue

  function Outcomes(packets: seq<Received>): (outcomes: seq<Outcome>)
    ensures |outcomes| == |packets|
  {
    if packets == [] then [] else [Addressed(packets[0])] + Outcomes(packets[1..])
  }

  /** Peers with a port and a datagram whose frame is within the decoder's limit. */
  predicate Replies(peers: seq<AdrTuple>, data: seq<string>) {
    && |peers| == |data|
    && forall i :: 0 <= i < |peers| ==> Relayable(peers[i], data[i])
  }

  predicate Relayable(peer: AdrTuple, data: string) {
    peer.port < 0x1_0000 && Deliverable(Packet(TupleText(peer), data))
  }

  /** The frames for these peers as they arrive at the queue. */
  function ReplyPackets(peers: seq<AdrTuple>, data: seq<string>): (packets: seq<Received>)
    requires Replies(peers, data)
    ensures |packets| == |peers|
  {
    if peers == [] then []
    else [AsReceived(Packet(TupleText(peers[0]), data[0]))] + ReplyPackets(peers[1..], data[1..])
  }

  lemma {:induction false} OutcomesAt(packets: seq<Received>, i: nat)
    requires i < |packets|
    ensures Outcomes(packets)[i] == Addressed(packets[i])
    decreases |packets|
  {
    if i > 0 {
      OutcomesAt(packets[1..], i - 1);
    }
  }

  lemma {:induction false} ReplyPacketsAt(peers: seq<AdrTuple>, data: seq<string>, i: nat)
    requires Replies(peers, data) && i < |peers|
    ensures ReplyPackets(peers, data)[i] == AsReceived(Packet(TupleText(peers[i]), data[i]))
    decreases |peers|
  {
    if i > 0 {
      ReplyPacketsAt(peers[1..], data[1..], i - 1);
    }
  }

  lemma ReplyOutcome(peers: seq<AdrTuple>, data: seq<string>, i: nat)
    requires Replies(peers, data) && i < |peers|
    ensures Outcomes(ReplyPackets(peers, data))[i] == Send(Datagram(peers[i].address, peers[i].port, data[i]))
  {
    assert Relayable(peers[i], data[i]);
    ReplyPacketsAt(peers, data, i);
    OutcomesAt(ReplyPackets(peers, data), i);
    PacketAddressed(peers[i], data[i]);
  }

  /**
   Whatever the schedule and the failures, a reply that has left the queue was sent to the peer its frame was
   made for, with its data.
   */
  lemma RepliesReachTheirPeers(events: seq<Event>, peers: seq<AdrTuple>, data: seq<string>, i: nat)
    requires Run(INITIAL, events) && Replies(peers, data)
    requires Arrivals(events) == Outcomes(ReplyPackets(peers, data))
    requires i < |After(INITIAL, events).popped|
    ensures i < |peers|
    ensures var s := After(INITIAL, events);
            exists k :: 0 <= k < |s.sends| && s.sends[k] == Sent(i, Datagram(peers[i].address, peers[i].port, data[i]))
  {
    var s := After(INITIAL, events);
    forall j | 0 <= j < |Arrivals(events)|
      ensures WellFormed(Arrivals(events)[j])
    {
      ReplyOutcome(peers, data, j);
    }
    AtLeastOnce(events, i);
    ReplyOutcome(peers, data, i);
  }

  // ---------------------------------------------------------------- the object

  function QueuedOutcomes(queue: seq<Queued>): (outcomes: seq<Outcome>)
    ensures |outcomes| == |queue|
  {
    if queue == [] then [] else [OutcomeOf(queue[0])] + QueuedOutcomes(queue[1..])
  }

  lemma {:induction false} OutcomesPushed(queue: seq<Queued>, q: Queued)
    ensures QueuedOutcomes(queue + [q]) == QueuedOutcomes(queue) + [OutcomeOf(q)]
  {
    if queue == [] {
      assert queue + [q] == [q];
      assert [q][1..] == [];
    } else {
      OutcomesPushed(queue[1..], q);
      assert (queue + [q])[1..] == queue[1..] + [q] && (queue + [q])[0] == queue[0];
      var first, rest := [OutcomeOf(queue[0])], QueuedOutcomes(queue[1..]);
      assert first + (rest + [OutcomeOf(q)]) == (first + rest) + [OutcomeOf(q)];
    }
  }

  class Relay {
    var queue: seq<Queued>
    var flight: nat
    var crashed: bool
    ghost var arrived: seq<Outcome>
    ghost var popped: seq<Outcome>
    ghost var sends: seq<Sent>
    ghost var completions: nat
    ghost var failures: nat

    ghost predicate Valid()
      reads this
    {
      Inv(View())
    }

    ghost function View(): (s: State)
      reads this
    {
      State(QueuedOutcomes(queue), flight, crashed, arrived, popped, sends, completions, failures)
    }

    constructor ()
      ensures View() == INITIAL
    {
      queue, flight, crashed := [], 0, false;
      arrived, popped, sends, completions, failures := [], [], [], 0, 0;
    }

    method PopTcpPacket()
      requires queue != []
      modifies this`queue, this`popped
      ensures View() == Pop(old(View()))
    {
      popped := popped + [OutcomeOf(queue[0])];
      queue := queue[1..];
    }

    method DeliverToUdpPeer()
      modifies this`queue, this`popped, this`flight, this`crashed, this`sends
      ensures View() == Deliver(old(View()))
    {
      if queue == [] {
        return;
      }
      var outcome := OutcomeOf(queue[0]);
      if outcome.BadPeer? {
        PopTcpPacket();
      } else if outcome.Send? {
        flight := flight + 1;
        sends := sends + [Sent(|popped|, outcome.datagram)];
      } else {
        crashed := true;
      }
    }

    /** A packet came in from the server: handed to the queue, then delivered once more by the session that read it. */
    method HandlePacket(q: Queued)
      requires Valid() && !crashed
      modifies this
      ensures Valid() && View() == ArriveStep(old(View()), OutcomeOf(q))
    {
      ArriveKeepsInv(View(), OutcomeOf(q));
      OutcomesPushed(queue, q);
      var idle := queue == [];
      queue := queue + [q];
      arrived := arrived + [OutcomeOf(q)];
      if !idle {
        DeliverToUdpPeer();
      }
      if !crashed {
        DeliverToUdpPeer();
      }
    }

    method HandleDeliverToUdpPeer(ok: bool)
      requires Valid() && !crashed && 0 < flight
      modifies this
      ensures View() == DoneStep(old(View()), ok) && Valid()
    {
      DoneKeepsInv(View(), ok);
      TakeDoneStep(ok);
    }

    method TakeDoneStep(ok: bool)
      requires 0 < flight
      modifies this
      ensures View() == DoneStep(old(View()), ok)
    {
      flight := flight - 1;
      if ok {
        HandleSent();
      } else {
        failures := failures + 1;
      }
    }

    method HandleSent()
      modifies this`completions, this`queue, this`popped, this`flight, this`crashed, this`sends
      ensures var s := old(View()).(completions := old(completions) + 1);
              View() == if s.queue == [] then s else Deliver(Pop(s))
    {
      completions := completions + 1;
      if queue != [] {
        PopTcpPacket();
        DeliverToUdpPeer();
      }
    }
  }
}
