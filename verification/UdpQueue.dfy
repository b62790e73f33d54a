/** The one queue of packets towards the UDP peers, shared by all sessions, and the sends that empty it. */
module UdpQueue {
  import opened Address

  /** A started send: where in the order of arrival its packet stands, and what was sent. */
  datatype Sent = Sent(position: nat, datagram: Datagram)

  /** A queued packet counts for what deliver_to_udp_peer makes of it; UdpRelay has the packets themselves. */
  datatype State = State(
    queue: seq<Outcome>,
    flight: nat,            // sends without a completion yet
    crashed: bool,          // an exception or an overrun has ended the only thread that runs handlers
    // history
    arrived: seq<Outcome>,
    popped: seq<Outcome>,
    sends: seq<Sent>,
    completions: nat,
    failures: nat)

  const INITIAL := State([], 0, false, [], [], [], 0, 0)

  datatype Event = Arrive(packet: Outcome) | SendDone(ok: bool)

  predicate Possible(s: State, e: Event) {
    !s.crashed && (e.SendDone? ==> 0 < s.flight)
  }

  function Pop(s: State): (s': State)
    requires s.queue != []
  {
    s.(queue := s.queue[1..], popped := s.popped + [s.queue[0]])
  }

  /** deliver_to_udp_peer: send the front and leave it queued; a packet without a peer text is dropped instead. */
  function Deliver(s: State): (s': State) {
    if s.queue == [] then s
    else
      match s.queue[0]
      case BadPeer => Pop(s)
      case Fatal => s.(crashed := true)
      case Send(datagram) => s.(flight := s.flight + 1, sends := s.sends + [Sent(|s.popped|, datagram)])
  }

  /** add_tcp_packet delivers if the queue was not empty before; its caller then delivers in any case. */
  function ArriveStep(s: State, packet: Outcome): (s': State) {
    var pushed := s.(queue := s.queue + [packet], arrived := s.arrived + [packet]);
    var s1 := if s.queue != [] then Deliver(pushed) else pushed;
    if s1.crashed then s1 else Deliver(s1)
  }

  /** handle_deliver_to_udp_peer: whatever was sent, it is the front that is popped. */
  function DoneStep(s: State, ok: bool): (s': State)
    requires 0 < s.flight
  {
    if !ok then s.(flight := s.flight - 1, failures := s.failures + 1)
    else if s.queue == [] then Completed(s)
    else Deliver(Pop(Completed(s)))
  }

  function Completed(s: State): (s': State)
    requires 0 < s.flight
  {
    s.(flight := s.flight - 1, completions := s.completions + 1)
  }

  function Step(s: State, e: Event): (s': State)
    requires Possible(s, e)
  {
    match e
    case Arrive(packet) => ArriveStep(s, packet)
    case SendDone(ok) => DoneStep(s, ok)
  }

  predicate Run(s: State, events: seq<Event>)
    decreases |events|
  {
    events == [] || (Possible(s, events[0]) && Run(Step(s, events[0]), events[1..]))
  }

  function After(s: State, events: seq<Event>): (s': State)
    requires Run(s, events)
    decreases |events|
  {
    if events == [] then s else After(Step(s, events[0]), events[1..])
  }

  // ---------------------------------------------------------------- invariant

  predicate WellFormed(r: Outcome) {
    r.Send?
  }

  predicate AllWellFormed(packets: seq<Outcome>) {
    forall i :: 0 <= i < |packets| ==> WellFormed(packets[i])
  }

  /** None of the first packets was dropped for its peer. */
  predicate NoneDropped(packets: seq<Outcome>, n: nat)
    requires n <= |packets|
  {
    forall i :: 0 <= i < n ==> packets[i] != BadPeer
  }

  predicate Started(sends: seq<Sent>, position: nat) {
    exists k :: 0 <= k < |sends| && sends[k].position == position
  }

  /** Every send was for the packet at its position, and positions never go back. */
  predicate SendsAreOfArrivals(s: State) {
    && (forall k :: 0 <= k < |s.sends| ==>
          && s.sends[k].position < |s.arrived|
          && s.sends[k].position <= |s.popped|
          && s.arrived[s.sends[k].position] == Send(s.sends[k].datagram))
    && (forall j, k :: 0 <= j < k < |s.sends| ==> s.sends[j].position <= s.sends[k].position)
  }

  /** A well-formed packet with no dropped packet before it leaves only after a send of it was started. */
  predicate SentBeforePopped(popped: seq<Outcome>, sends: seq<Sent>, i: nat) {
    i < |popped| && WellFormed(popped[i]) && NoneDropped(popped, i) ==> Started(sends, i)
  }

  /** The same for the front, between handlers. */
  predicate FrontStarted(s: State) {
    s.queue != [] && WellFormed(s.queue[0]) && NoneDropped(s.popped, |s.popped|) ==> Started(s.sends, |s.popped|)
  }

  predicate Base(s: State) {
    && s.arrived == s.popped + s.queue
    && SendsAreOfArrivals(s)
    && (forall i: nat :: i < |s.popped| ==> SentBeforePopped(s.popped, s.sends, i))
    && |s.sends| == s.flight + s.completions + s.failures
    && (AllWellFormed(s.popped) ==> |s.popped| <= s.completions)
  }

  predicate Inv(s: State) {
    && Base(s)
    && FrontStarted(s)
    && (s.crashed ==> s.queue != [] && s.queue[0].Fatal?)
    && (AllWellFormed(s.arrived) && s.failures == 0 && s.queue != [] ==> 0 < s.flight)
  }

  lemma PopKeepsBase(s: State)
    requires Base(s) && FrontStarted(s) && s.queue != []
    requires AllWellFormed(s.popped + [s.queue[0]]) ==> |s.popped| < s.completions
    ensures Base(Pop(s))
  {
    var s' := Pop(s);
    assert s'.popped + s'.queue == s.popped + s.queue;
    forall i: nat | i < |s'.popped|
      ensures SentBeforePopped(s'.popped, s'.sends, i)
    {
      if i < |s.popped| {
        assert SentBeforePopped(s.popped, s.sends, i);
      }
      assert forall j :: 0 <= j < |s.popped| ==> s'.popped[j] == s.popped[j];
    }
  }

  lemma SendKeepsBase(s: State, datagram: Datagram)
    requires Base(s) && s.queue != [] && s.queue[0] == Send(datagram)
    ensures Base(Deliver(s)) && Started(Deliver(s).sends, |s.popped|)
  {
    var s' := Deliver(s);
    assert s.arrived[|s.popped|] == s.queue[0];
    assert s'.sends[|s.sends|].position == |s.popped|;
    forall i: nat | i < |s.popped|
      ensures SentBeforePopped(s'.popped, s'.sends, i)
    {
      assert SentBeforePopped(s.popped, s.sends, i);
      if Started(s.sends, i) {
        var k :| 0 <= k < |s.sends| && s.sends[k].position == i;
        assert s'.sends[k].position == i;
      }
    }
  }

  /** Delivering restores the whole invariant from its history part, whichever way the front is treated. */
  lemma DeliverEstablishesInv(s: State)
    requires Base(s) && !s.crashed
    ensures Inv(Deliver(s))
  {
    if s.queue != [] {
      assert s.arrived[|s.popped|] == s.queue[0];
      if s.queue[0] == BadPeer {
        assert (s.popped + [s.queue[0]])[|s.popped|] == s.queue[0];
        PopKeepsBase(s);
      } else if s.queue[0].Send? {
        SendKeepsBase(s, s.queue[0].datagram);
      }
    }
  }

  lemma ArriveKeepsInv(s: State, packet: Outcome)
    requires Inv(s) && !s.crashed
    ensures Inv(ArriveStep(s, packet))
  {
    var pushed := s.(queue := s.queue + [packet], arrived := s.arrived + [packet]);
    assert pushed.arrived == pushed.popped + pushed.queue;
    assert Base(pushed);
    DeliverEstablishesInv(pushed);
    if s.queue != [] && !Deliver(pushed).crashed {
      DeliverEstablishesInv(Deliver(pushed));
    }
  }

  lemma PopKeepsInv(s: State)
    requires Inv(s) && !s.crashed && 0 < s.flight && s.queue != []
    ensures Inv(Deliver(Pop(Completed(s))))
  {
    var s2 := Completed(s);
    if AllWellFormed(s.popped + [s.queue[0]]) {
      assert forall i :: 0 <= i < |s.popped| ==> (s.popped + [s.queue[0]])[i] == s.popped[i];
    }
    PopKeepsBase(s2);
    DeliverEstablishesInv(Pop(s2));
  }

  lemma FailureKeepsInv(s: State)
    requires Inv(s) && !s.crashed && 0 < s.flight
    ensures Inv(s.(flight := s.flight - 1, failures := s.failures + 1))
  {
  }

  lemma SurplusKeepsInv(s: State)
    requires Inv(s) && !s.crashed && 0 < s.flight && s.queue == []
    ensures Inv(Completed(s))
  {
  }

  lemma DoneKeepsInv(s: State, ok: bool)
    requires Inv(s) && !s.crashed && 0 < s.flight
    ensures Inv(DoneStep(s, ok))
  {
    if !ok {
      FailureKeepsInv(s);
    } else if s.queue == [] {
      SurplusKeepsInv(s);
    } else {
      PopKeepsInv(s);
    }
  }

  lemma {:induction false} RunKeepsInv(s: State, events: seq<Event>)
    requires Inv(s) && Run(s, events)
    ensures Inv(After(s, events))
    decreases |events|
  {
    if events != [] {
      match events[0] {
        case Arrive(packet) => ArriveKeepsInv(s, packet);
        case SendDone(ok) => DoneKeepsInv(s, ok);
      }
      RunKeepsInv(Step(s, events[0]), events[1..]);
    }
  }

  // ---------------------------------------------------------------- whole runs

  function Arrivals(events: seq<Event>): (packets: seq<Outcome>) {
    if events == [] then [] else (if events[0].Arrive? then [events[0].packet] else []) + Arrivals(events[1..])
  }

  lemma StepArrives(s: State, e: Event)
    requires Possible(s, e)
    ensures Step(s, e).arrived == s.arrived + (if e.Arrive? then [e.packet] else [])
  {
  }

  lemma {:induction false} ArrivedAreTheEvents(s: State, events: seq<Event>)
    requires Run(s, events)
    ensures After(s, events).arrived == s.arrived + Arrivals(events)
    decreases |events|
  {
    if events == [] {
      assert s.arrived + Arrivals(events) == s.arrived;
    } else {
      var s1, rest := Step(s, events[0]), events[1..];
      ArrivedAreTheEvents(s1, rest);
      StepArrives(s, events[0]);
      Unroll(s, events, s1);
      var first := if events[0].Arrive? then [events[0].packet] else [];
      assert (s.arrived + first) + Arrivals(rest) == s.arrived + (first + Arrivals(rest));
    }
  }

  lemma InvHolds(events: seq<Event>)
    requires Run(INITIAL, events)
    ensures Inv(After(INITIAL, events))
  {
    RunKeepsInv(INITIAL, events);
  }

  /**
   Packets leave in the order of arrival; every send is of an arrived packet, to its own peer, and sends never
   go back.
   */
  lemma LeaveInOrder(events: seq<Event>)
    requires Run(INITIAL, events)
    ensures var s := After(INITIAL, events); s.popped + s.queue == Arrivals(events) && SendsAreOfArrivals(s)
  {
    InvHolds(events);
    ArrivedAreTheEvents(INITIAL, events);
    assert [] + Arrivals(events) == Arrivals(events);
  }

  lemma PoppedAreSent(events: seq<Event>)
    requires Run(INITIAL, events)
    ensures var s := After(INITIAL, events);
            forall i: nat :: i < |s.popped| ==> SentBeforePopped(s.popped, s.sends, i)
  {
    InvHolds(events);
  }

  lemma PoppedAreArrivals(events: seq<Event>)
    requires Run(INITIAL, events)
    ensures After(INITIAL, events).popped <= Arrivals(events)
  {
    LeaveInOrder(events);
  }

  /** With well-formed peers every packet that left had a send started, failed sends or not. */
  lemma AtLeastOnce(events: seq<Event>, i: nat)
    requires Run(INITIAL, events) && AllWellFormed(Arrivals(events))
    requires i < |After(INITIAL, events).popped|
    ensures var s := After(INITIAL, events);
            && i < |Arrivals(events)|
            && exists k :: 0 <= k < |s.sends| && s.sends[k].position == i
                           && Send(s.sends[k].datagram) == Arrivals(events)[i]
  {
    var s := After(INITIAL, events);
    PoppedAreArrivals(events);
    PoppedAreSent(events);
    SendsOfArrivals(events);
    assert forall j :: 0 <= j < |s.popped| ==> s.popped[j] == Arrivals(events)[j];
    assert SentBeforePopped(s.popped, s.sends, i) && Started(s.sends, i);
  }

  lemma SendsOfArrivals(events: seq<Event>)
    requires Run(INITIAL, events)
    ensures var s := After(INITIAL, events);
            s.arrived == Arrivals(events) && SendsAreOfArrivals(s)
  {
    LeaveInOrder(events);
    ArrivedAreTheEvents(INITIAL, events);
    assert [] + Arrivals(events) == Arrivals(events);
  }

  /**
   With well-formed peers no more packets leave than sends completed, so a completed send releases one packet
   at most.
   */
  lemma PopsAreCompletions(events: seq<Event>)
    requires Run(INITIAL, events) && AllWellFormed(Arrivals(events))
    ensures |After(INITIAL, events).popped| <= After(INITIAL, events).completions
  {
    PoppedAreArrivals(events);
    InvHolds(events);
  }

  /** With well-formed peers and no failed send, something is in flight whenever something is queued. */
  lemma {:induction false} AlwaysInFlight(events: seq<Event>)
    requires Run(INITIAL, events) && AllWellFormed(Arrivals(events))
    requires forall i :: 0 <= i < |events| ==> events[i] != SendDone(false)
    ensures After(INITIAL, events).queue != [] ==> 0 < After(INITIAL, events).flight
  {
    InvHolds(events);
    LeaveInOrder(events);
    NoFailures(INITIAL, events);
  }

  lemma {:induction false} NoFailures(s: State, events: seq<Event>)
    requires Run(s, events)
    requires forall i :: 0 <= i < |events| ==> events[i] != SendDone(false)
    ensures After(s, events).failures == s.failures
    decreases |events|
  {
    if events != [] {
      assert events[0] != SendDone(false);
      NoFailures(Step(s, events[0]), events[1..]);
    }
  }

  // ---------------------------------------------------------------- exactly when nothing is lost

  predicate Drawn(events: seq<Event>, packets: set<Outcome>) {
    forall i :: 0 <= i < |events| && events[i].Arrive? ==> events[i].packet in packets
  }

  /** Some continuation starts a send of the packet at the position. */
  ghost predicate MayStart(s: State, position: nat, packets: set<Outcome>) {
    exists events :: Continues(s, events, position) && Drawn(events, packets)
  }

  predicate Continues(s: State, events: seq<Event>, position: nat) {
    Run(s, events) && Started(After(s, events).sends, position)
  }

  /** Every well-formed packet that arrived was sent or can still be: neither popped unsent nor stuck for good. */
  ghost predicate NothingLost(s: State, packets: set<Outcome>) {
    forall i: nat :: i < |s.arrived| && WellFormed(s.arrived[i]) ==> MayStart(s, i, packets)
  }

  ghost predicate NeverLoses(packets: set<Outcome>) {
    forall events :: Run(INITIAL, events) && Drawn(events, packets) ==> NothingLost(After(INITIAL, events), packets)
  }

  lemma Unroll(s: State, events: seq<Event>, next: State)
    requires events != [] && Possible(s, events[0]) && Step(s, events[0]) == next
    ensures Run(s, events) <==> Run(next, events[1..])
    ensures Run(next, events[1..]) ==> After(s, events) == After(next, events[1..])
  {
  }

  lemma ContinuesLater(s: State, first: Event, events: seq<Event>, position: nat)
    requires Possible(s, first) && Continues(Step(s, first), events, position)
    ensures Continues(s, [first] + events, position)
  {
    assert ([first] + events)[1..] == events;
    Unroll(s, [first] + events, Step(s, first));
  }

  lemma FrontOrPopped(s: State, i: nat)
    requires Inv(s) && AllWellFormed(s.arrived) && i <= |s.popped| && i < |s.arrived|
    ensures Started(s.sends, i)
  {
    assert forall j :: 0 <= j < |s.popped| ==> s.popped[j] == s.arrived[j];
    if i < |s.popped| {
      assert WellFormed(s.arrived[i]);
      assert SentBeforePopped(s.popped, s.sends, i);
    } else {
      assert s.queue[0] == s.arrived[i] && WellFormed(s.arrived[i]);
    }
  }

  lemma CompletionMovesOn(s: State)
    requires Inv(s) && AllWellFormed(s.arrived) && 0 < s.flight && 1 < |s.queue|
    ensures !s.crashed
    ensures var s' := Step(s, SendDone(true));
            Inv(s') && s'.arrived == s.arrived && |s'.popped| == |s.popped| + 1 && 0 < s'.flight
  {
    assert s.queue[0] == s.arrived[|s.popped|] && WellFormed(s.arrived[|s.popped|]);
    assert s.queue[1] == s.arrived[|s.popped| + 1] && WellFormed(s.arrived[|s.popped| + 1]);
    DoneKeepsInv(s, true);
  }

  /** While something is in flight, successful completions alone get every queued packet sent. */
  lemma {:induction false} CompletionsSuffice(s: State, i: nat) returns (events: seq<Event>)
    requires Inv(s) && AllWellFormed(s.arrived) && i < |s.arrived| && (0 < s.flight || i <= |s.popped|)
    ensures Continues(s, events, i) && forall k :: 0 <= k < |events| ==> events[k] == SendDone(true)
    decreases |s.arrived| - |s.popped|
  {
    if i <= |s.popped| {
      FrontOrPopped(s, i);
      events := [];
    } else {
      CompletionMovesOn(s);
      var rest := CompletionsSuffice(Step(s, SendDone(true)), i);
      ContinuesLater(s, SendDone(true), rest, i);
      events := [SendDone(true)] + rest;
    }
  }

  lemma ArrivalRestarts(s: State, p: Outcome)
    requires Inv(s) && AllWellFormed(s.arrived + [p]) && s.queue != []
    ensures !s.crashed
    ensures var s' := Step(s, Arrive(p));
            Inv(s') && s'.arrived == s.arrived + [p] && s'.popped == s.popped && 0 < s'.flight
  {
    assert s.queue[0] == (s.arrived + [p])[|s.popped|] && WellFormed(s.queue[0]);
    ArriveKeepsInv(s, p);
  }

  /** Even after failed sends a further arrival gets the queue going again. */
  lemma StillStarts(s: State, i: nat, packets: set<Outcome>)
    requires Inv(s) && AllWellFormed(s.arrived) && i < |s.arrived| && forall r :: r in s.arrived ==> r in packets
    ensures MayStart(s, i, packets)
  {
    if 0 < s.flight || i <= |s.popped| {
      var events := CompletionsSuffice(s, i);
      assert Drawn(events, packets);
    } else {
      var p := s.arrived[i];
      assert forall j :: 0 <= j < |s.arrived| ==> (s.arrived + [p])[j] == s.arrived[j];
      ArrivalRestarts(s, p);
      var rest := CompletionsSuffice(Step(s, Arrive(p)), i);
      ContinuesLater(s, Arrive(p), rest, i);
      assert Drawn([Arrive(p)] + rest, packets);
    }
  }

  // ---------------------------------------------------------------- losing runs

  lemma DeliverStartsFront(s: State, i: nat)
    requires i < |s.popped| && !Started(s.sends, i)
    ensures i < |Deliver(s).popped| && !Started(Deliver(s).sends, i)
  {
  }

  lemma StepStartsFront(s: State, e: Event, i: nat)
    requires Possible(s, e) && i < |s.popped| && !Started(s.sends, i)
    ensures i < |Step(s, e).popped| && !Started(Step(s, e).sends, i)
  {
    match e
    case Arrive(packet) =>
      var pushed := s.(queue := s.queue + [packet], arrived := s.arrived + [packet]);
      DeliverStartsFront(pushed, i);
      DeliverStartsFront(Deliver(pushed), i);
    case SendDone(ok) =>
      if ok && s.queue != [] {
        DeliverStartsFront(Pop(Completed(s)), i);
      }
  }

  /** A packet that has left unsent is never sent. */
  lemma {:induction false} GoneForGood(s: State, events: seq<Event>, i: nat)
    requires Run(s, events) && i < |s.popped| && !Started(s.sends, i)
    ensures !Started(After(s, events).sends, i)
    decreases |events|
  {
    if events != [] {
      StepStartsFront(s, events[0], i);
      GoneForGood(Step(s, events[0]), events[1..], i);
    }
  }

  /** The surplus sends started for a busy queue pop the packet behind a dropped one before it is sent. */
  lemma DropLosesTheNext(good: Outcome, packets: set<Outcome>)
    requires WellFormed(good)
    ensures var events := [Arrive(good), Arrive(BadPeer), Arrive(good), SendDone(true), SendDone(true)];
            Run(INITIAL, events) && !NothingLost(After(INITIAL, events), packets)
  {
    var d := good.datagram;
    var events := [Arrive(good), Arrive(BadPeer), Arrive(good), SendDone(true), SendDone(true)];
    var sent := Sent(0, d);
    var all := [good, BadPeer, good];
    var s1 := State([good], 1, false, [good], [], [sent], 0, 0);
    var s2 := State([good, BadPeer], 3, false, [good, BadPeer], [], [sent, sent, sent], 0, 0);
    var s3 := State(all, 5, false, all, [], [sent, sent, sent, sent, sent], 0, 0);
    var s4 := State([good], 4, false, all, [good, BadPeer], [sent, sent, sent, sent, sent], 1, 0);
    var s5 := State([], 3, false, all, all, [sent, sent, sent, sent, sent], 2, 0);
    assert Step(INITIAL, events[0]) == s1;
    assert Step(s1, events[1]) == s2;
    assert Step(s2, events[2]) == s3;
    assert Step(s3, events[3]) == s4;
    assert Step(s4, events[4]) == s5;
    Unroll(INITIAL, events, s1);
    Unroll(s1, events[1..], s2);
    Unroll(s2, events[1..][1..], s3);
    Unroll(s3, events[1..][1..][1..], s4);
    Unroll(s4, events[1..][1..][1..][1..], s5);
    NeverStarts(s5, 2, packets);
  }

  lemma NeverStarts(s: State, i: nat, packets: set<Outcome>)
    requires i < |s.arrived| && WellFormed(s.arrived[i]) && !Started(s.sends, i)
    requires i < |s.popped| || s.crashed
    ensures !NothingLost(s, packets)
  {
    forall events | Run(s, events)
      ensures !Continues(s, events, i)
    {
      if i < |s.popped| {
        GoneForGood(s, events, i);
      }
    }
  }

  /** A peer text without an address ends the program with well-formed packets still queued. */
  lemma FatalLosesTheRest(good: Outcome, packets: set<Outcome>)
    requires WellFormed(good)
    ensures var events := [Arrive(good), Arrive(Fatal), Arrive(good), SendDone(true)];
            Run(INITIAL, events) && !NothingLost(After(INITIAL, events), packets)
  {
    var d := good.datagram;
    var events := [Arrive(good), Arrive(Fatal), Arrive(good), SendDone(true)];
    var sent := Sent(0, d);
    var all := [good, Fatal, good];
    var s1 := State([good], 1, false, [good], [], [sent], 0, 0);
    var s2 := State([good, Fatal], 3, false, [good, Fatal], [], [sent, sent, sent], 0, 0);
    var s3 := State(all, 5, false, all, [], [sent, sent, sent, sent, sent], 0, 0);
    var s4 := State([Fatal, good], 4, true, all, [good], [sent, sent, sent, sent, sent], 1, 0);
    assert Step(INITIAL, events[0]) == s1;
    assert Step(s1, events[1]) == s2;
    assert Step(s2, events[2]) == s3;
    assert Step(s3, events[3]) == s4;
    Unroll(INITIAL, events, s1);
    Unroll(s1, events[1..], s2);
    Unroll(s2, events[1..][1..], s3);
    Unroll(s3, events[1..][1..][1..], s4);
    NeverStarts(s4, 2, packets);
  }

  // ---------------------------------------------------------------- the exact condition

  lemma {:induction false} ArrivalsDrawn(events: seq<Event>, packets: set<Outcome>)
    requires Drawn(events, packets)
    ensures forall r :: r in Arrivals(events) ==> r in packets
  {
    if events != [] {
      ArrivalsDrawn(events[1..], packets);
      assert events[0].Arrive? ==> events[0].packet in packets;
    }
  }

  lemma LosslessRun(events: seq<Event>, packets: set<Outcome>)
    requires Run(INITIAL, events) && Drawn(events, packets)
    requires (forall r :: r in packets ==> WellFormed(r)) || (forall r :: r in packets ==> !WellFormed(r))
    ensures NothingLost(After(INITIAL, events), packets)
  {
    var s := After(INITIAL, events);
    SendsOfArrivals(events);
    ArrivalsDrawn(events, packets);
    forall i: nat | i < |s.arrived| && WellFormed(s.arrived[i])
      ensures MayStart(s, i, packets)
    {
      assert s.arrived[i] in packets;
      forall j | 0 <= j < |s.arrived|
        ensures WellFormed(s.arrived[j])
      {
        assert s.arrived[j] in packets;
      }
      InvHolds(events);
      StillStarts(s, i, packets);
    }
  }

  /**
   Over a set of packets no run loses a well-formed one exactly when all of them are well-formed, or none is.
   Runs include those with failed sends.
   */
  lemma NothingLostExactlyWhen(packets: set<Outcome>)
    ensures NeverLoses(packets)
       <==> (forall r :: r in packets ==> WellFormed(r)) || (forall r :: r in packets ==> !WellFormed(r))
  {
    if good, other :| good in packets && other in packets && WellFormed(good) && !WellFormed(other) {
      if other == BadPeer {
        DropLosesTheNext(good, packets);
        assert Drawn([Arrive(good), Arrive(BadPeer), Arrive(good), SendDone(true), SendDone(true)], packets);
      } else {
        FatalLosesTheRest(good, packets);
        assert Drawn([Arrive(good), Arrive(Fatal), Arrive(good), SendDone(true)], packets);
      }
    } else {
      forall events | Run(INITIAL, events) && Drawn(events, packets)
        ensures NothingLost(After(INITIAL, events), packets)
      {
        LosslessRun(events, packets);
      }
    }
  }

  /** With well-formed peers and no failed send, completions alone get everything sent that has arrived. */
  lemma CompletionsDeliverAll(events: seq<Event>, i: nat) returns (more: seq<Event>)
    requires Run(INITIAL, events) && AllWellFormed(Arrivals(events)) && i < |Arrivals(events)|
    requires forall k :: 0 <= k < |events| ==> events[k] != SendDone(false)
    ensures Continues(After(INITIAL, events), more, i) && forall k :: 0 <= k < |more| ==> more[k] == SendDone(true)
  {
    AlwaysInFlight(events);
    SendsOfArrivals(events);
    PoppedAreArrivals(events);
    InvHolds(events);
    var s := After(INITIAL, events);
    assert s.queue == [] ==> |s.popped| == |s.arrived|;
    more := CompletionsSuffice(s, i);
  }

  /**
   What an arrival starts in any reachable state: one send for an idle queue, and two sends of the front, which
   stays, for a busy one.
   */
  lemma ArrivalStarts(events: seq<Event>, packet: Outcome)
    requires Run(INITIAL, events) && !After(INITIAL, events).crashed
    ensures var s := After(INITIAL, events);
            var s' := Step(s, Arrive(packet));
            && s'.arrived == s.arrived + [packet]
            && s'.completions == s.completions && s'.failures == s.failures
            && (s.queue == [] && packet.Send? ==>
                  && s'.queue == [packet] && s'.popped == s.popped && s'.flight == s.flight + 1
                  && s'.sends == s.sends + [Sent(|s.popped|, packet.datagram)])
            && (s.queue == [] && packet.BadPeer? ==>
                  s'.queue == [] && s'.popped == s.popped + [packet] && s'.sends == s.sends)
            && (s.queue == [] && packet.Fatal? ==> s'.crashed)
            && (s.queue != [] && s.queue[0].Send? ==>
                  && s'.queue == s.queue + [packet] && s'.popped == s.popped && s'.flight == s.flight + 2
                  && var sent := Sent(|s.popped|, s.queue[0].datagram); s'.sends == s.sends + [sent, sent])
  {
  }

  /**
   What a completion does in any reachable state: a failed one only counts; a successful one takes the front away
   and starts the send of the packet behind it.
   */
  lemma CompletionDoes(events: seq<Event>, ok: bool)
    requires Run(INITIAL, events) && Possible(After(INITIAL, events), SendDone(ok))
    ensures var s := After(INITIAL, events);
            var s' := Step(s, SendDone(ok));
            && s'.arrived == s.arrived
            && (!ok ==>
                  && s'.queue == s.queue && s'.popped == s.popped && s'.sends == s.sends && !s'.crashed
                  && s'.flight == s.flight - 1 && s'.failures == s.failures + 1 && s'.completions == s.completions)
            && (ok ==> s'.completions == s.completions + 1 && s'.failures == s.failures)
            && (ok && s.queue == [] ==>
                  s'.queue == [] && s'.popped == s.popped && s'.sends == s.sends && s'.flight == s.flight - 1)
            && (ok && |s.queue| == 1 ==>
                  && s'.queue == [] && s'.popped == s.popped + s.queue
                  && s'.sends == s.sends && s'.flight == s.flight - 1)
            && (ok && 1 < |s.queue| && s.queue[1].Send? ==>
                  && s'.queue == s.queue[1..] && s'.popped == s.popped + [s.queue[0]] && s'.flight == s.flight
                  && s'.sends == s.sends + [Sent(|s.popped| + 1, s.queue[1].datagram)])
  {
  }

  /** After a failed send of the only packet the packet stays queued, and nothing happens before the next arrival. */
  lemma FailedSendStalls(p: Outcome, more: seq<Event>)
    requires WellFormed(p)
    ensures Run(INITIAL, [Arrive(p), SendDone(false)])
    ensures var s := After(INITIAL, [Arrive(p), SendDone(false)]);
            && s.queue == [p] && s.flight == 0 && !s.crashed && s.sends == [Sent(0, p.datagram)]
            && (more != [] && Run(s, more) ==> more[0].Arrive?)
  {
    var events := [Arrive(p), SendDone(false)];
    Unroll(INITIAL, events, ArriveStep(INITIAL, p));
    Unroll(ArriveStep(INITIAL, p), events[1..], DoneStep(ArriveStep(INITIAL, p), false));
  }

  /** A packet for a busy queue is sent again and again: two arrivals start three sends of the first. */
  lemma NotExactlyOnce(p: Outcome, q: Outcome)
    requires WellFormed(p)
    ensures Run(INITIAL, [Arrive(p), Arrive(q)])
    ensures var s := After(INITIAL, [Arrive(p), Arrive(q)]);
            |s.sends| == 3 && forall k :: 0 <= k < 3 ==> s.sends[k] == Sent(0, p.datagram)
  {
    var events := [Arrive(p), Arrive(q)];
    Unroll(INITIAL, events, ArriveStep(INITIAL, p));
    Unroll(ArriveStep(INITIAL, p), events[1..], ArriveStep(ArriveStep(INITIAL, p), q));
  }
}
