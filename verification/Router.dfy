/**
 All sessions together on the way back: every session reads its own TCP stream, byte by byte and in any
 interleaving, and all packets go into the one queue towards the UDP peers.
 */
module Router {
  import opened Text
  import opened FrameReader
  import opened Address
  import opened UdpRelay
  import Q = UdpQueue

  /** Readers by session, the queue, and the session that every arrival came from. */
  datatype State = State(readers: map<nat, Reader>, queue: Q.State, sources: seq<nat>)

  const INITIAL := State(map[], Q.INITIAL, [])

  /** A byte for a session, or the completion of a send. */
  datatype Event = Byte(session: nat, c: char) | SendDone(ok: bool)

  function ReaderOf(s: State, k: nat): (r: Reader) {
    if k in s.readers then s.readers[k] else START
  }

  /** What a byte hands to the queue. */
  function Handed(before: Reader, after: Reader): (packets: seq<Received>)
    requires before.received <= after.received
  {
    after.received[|before.received|..]
  }

  lemma TakeGrows(r: Reader, c: char)
    ensures r.received <= Take(r, c).received && |Take(r, c).received| <= |r.received| + 1
  {
  }

  /** The queue's own event, if any. */
  function Emitted(s: State, e: Event): (events: seq<Q.Event>)
    ensures |events| <= 1
  {
    match e
    case SendDone(ok) => [Q.SendDone(ok)]
    case Byte(k, c) =>
      var r := ReaderOf(s, k);
      TakeGrows(r, c);
      var packets := Handed(r, Take(r, c));
      if packets == [] then [] else [Q.Arrive(Addressed(packets[0]))]
  }

  predicate Possible(s: State, e: Event) {
    !s.queue.crashed && (Emitted(s, e) != [] ==> Q.Possible(s.queue, Emitted(s, e)[0]))
  }

  function Step(s: State, e: Event): (s': State)
    requires Possible(s, e)
  {
    var queue := if Emitted(s, e) == [] then s.queue else Q.Step(s.queue, Emitted(s, e)[0]);
    match e
    case SendDone(ok) => s.(queue := queue)
    case Byte(k, c) =>
      State(s.readers[k := Take(ReaderOf(s, k), c)], queue, if Emitted(s, e) == [] then s.sources else s.sources + [k])
  }

  predicate Run(s: State, events: seq<Event>)
    decreases |events|
  {
    events == [] || (Possible(s, events[0]) && Run(Step(s, events[0]), events[1..]))
  }

  function After(s: State, events: seq<Event>): (s': State)
    requires Run(s, events)
    decreases |events|
  {
    if events == [] then s else After(Step(s, events[0]), events[1..])
  }

  // ---------------------------------------------------------------- the queue's run

  function QueueEvents(s: State, events: seq<Event>): (r: seq<Q.Event>)
    requires Run(s, events)
    decreases |events|
  {
    if events == [] then [] else Emitted(s, events[0]) + QueueEvents(Step(s, events[0]), events[1..])
  }

  lemma {:induction false} QueueRuns(s: State, events: seq<Event>)
    requires Run(s, events)
    ensures Q.Run(s.queue, QueueEvents(s, events))
    ensures After(s, events).queue == Q.After(s.queue, QueueEvents(s, events))
    decreases |events|
  {
    if events != [] {
      var s1, first, rest := Step(s, events[0]), Emitted(s, events[0]), QueueEvents(Step(s, events[0]), events[1..]);
      QueueRuns(s1, events[1..]);
      if first == [] {
        assert first + rest == rest;
      } else {
        assert (first + rest)[1..] == rest && (first + rest)[0] == first[0];
        Q.Unroll(s.queue, first + rest, s1.queue);
      }
    }
  }

  // ---------------------------------------------------------------- each session's stream

  /** The bytes that a session got. */
  function Stream(events: seq<Event>, k: nat): (s: string) {
    if events == [] then ""
    else (if events[0].Byte? && events[0].session == k then [events[0].c] else "") + Stream(events[1..], k)
  }

  /** Each session's reader depends on its own stream alone. */
  lemma {:induction false} ReadersAreSeparate(s: State, events: seq<Event>, k: nat)
    requires Run(s, events)
    ensures ReaderOf(After(s, events), k) == Feed(ReaderOf(s, k), Stream(events, k))
    decreases |events|
  {
    if events != [] {
      var s1, rest := Step(s, events[0]), Stream(events[1..], k);
      ReadersAreSeparate(s1, events[1..], k);
      if events[0].Byte? && events[0].session == k {
        assert ([events[0].c] + rest)[1..] == rest;
      } else {
        assert "" + rest == rest;
      }
    }
  }

  // ---------------------------------------------------------------- who sent what

  /** The arrivals from one session. */
  function From(arrived: seq<Outcome>, sources: seq<nat>, k: nat): (r: seq<Outcome>)
    requires |arrived| == |sources|
  {
    if arrived == [] then []
    else
      var n := |arrived| - 1;
      From(arrived[..n], sources[..n], k) + if sources[n] == k then [arrived[n]] else []
  }

  lemma FromMore(arrived: seq<Outcome>, sources: seq<nat>, k: nat, o: Outcome, from: nat)
    requires |arrived| == |sources|
    ensures From(arrived + [o], sources + [from], k) == From(arrived, sources, k) + if from == k then [o] else []
  {
    assert (arrived + [o])[..|arrived|] == arrived && (sources + [from])[..|arrived|] == sources;
  }

  lemma {:induction false} FromHas(arrived: seq<Outcome>, sources: seq<nat>, i: nat)
    requires |arrived| == |sources| && i < |arrived|
    ensures arrived[i] in From(arrived, sources, sources[i])
  {
    var n := |arrived| - 1;
    if i < n {
      FromHas(arrived[..n], sources[..n], i);
    }
  }

  lemma {:induction false} OutcomesMore(packets: seq<Received>, p: Received)
    ensures Outcomes(packets + [p]) == Outcomes(packets) + [Addressed(p)]
  {
    if packets == [] {
      assert packets + [p] == [p] && [p][1..] == [];
    } else {
      OutcomesMore(packets[1..], p);
      assert (packets + [p])[1..] == packets[1..] + [p] && (packets + [p])[0] == packets[0];
      var first, rest := [Addressed(packets[0])], Outcomes(packets[1..]);
      assert first + (rest + [Addressed(p)]) == (first + rest) + [Addressed(p)];
    }
  }

  /** The queue has got from each session what its reader received, in that order. */
  ghost predicate Inv(s: State) {
    && |s.sources| == |s.queue.arrived|
    && forall k: nat :: Agrees(s, k)
  }

  predicate Agrees(s: State, k: nat)
    requires |s.sources| == |s.queue.arrived|
  {
    From(s.queue.arrived, s.sources, k) == Outcomes(ReaderOf(s, k).received)
  }

  /** The byte completes a packet. */
  predicate Completes(s: State, k: nat, c: char, p: Received) {
    && Take(ReaderOf(s, k), c).received == ReaderOf(s, k).received + [p]
    && Emitted(s, Byte(k, c)) == [Q.Arrive(Addressed(p))]
  }

  /** A byte that completes no packet leaves what the session has received; another one adds a packet. */
  lemma ByteReceives(s: State, k: nat, c: char)
    ensures var r := ReaderOf(s, k);
            if Emitted(s, Byte(k, c)) == [] then Take(r, c).received == r.received
            else exists p :: Completes(s, k, c, p)
  {
    var r := ReaderOf(s, k);
    TakeGrows(r, c);
    if Emitted(s, Byte(k, c)) == [] {
      assert Take(r, c).received == r.received;
    } else {
      var p := Take(r, c).received[|r.received|];
      assert Handed(r, Take(r, c)) == [p];
      assert Take(r, c).received == r.received + [p];
      assert Completes(s, k, c, p);
    }
  }

  lemma ArrivalAgrees(s: State, from: nat, c: char, p: Received, k: nat)
    requires |s.sources| == |s.queue.arrived| && Agrees(s, k)
    requires Possible(s, Byte(from, c)) && Completes(s, from, c, p)
    ensures var s' := Step(s, Byte(from, c)); |s'.sources| == |s'.queue.arrived| && Agrees(s', k)
  {
    Q.StepArrives(s.queue, Q.Arrive(Addressed(p)));
    OutcomesMore(ReaderOf(s, from).received, p);
    FromMore(s.queue.arrived, s.sources, k, Addressed(p), from);
  }

  lemma StillAgrees(s: State, e: Event, k: nat)
    requires |s.sources| == |s.queue.arrived| && Agrees(s, k) && Possible(s, e)
    ensures var s' := Step(s, e); |s'.sources| == |s'.queue.arrived| && Agrees(s', k)
  {
    match e
    case SendDone(ok) => Q.StepArrives(s.queue, Q.SendDone(ok));
    case Byte(from, c) =>
      ByteReceives(s, from, c);
      if Emitted(s, e) != [] {
        var p :| Completes(s, from, c, p);
        ArrivalAgrees(s, from, c, p, k);
      }
  }

  lemma StepKeepsInv(s: State, e: Event)
    requires Inv(s) && Possible(s, e)
    ensures Inv(Step(s, e))
  {
    assert Agrees(s, 0);
    StillAgrees(s, e, 0);
    forall k: nat
      ensures Agrees(Step(s, e), k)
    {
      assert Agrees(s, k);
      StillAgrees(s, e, k);
    }
  }

  lemma {:induction false} RunKeepsInv(s: State, events: seq<Event>)
    requires Inv(s) && Run(s, events)
    ensures Inv(After(s, events))
    decreases |events|
  {
    if events != [] {
      StepKeepsInv(s, events[0]);
      RunKeepsInv(Step(s, events[0]), events[1..]);
    }
  }

  // ---------------------------------------------------------------- replies

  /** What the server sends on a session: data for peers, each a peer whose datagram could be relayed. */
  datatype Reply = Reply(peer: AdrTuple, data: string)

  predicate AllRelayable(replies: seq<Reply>) {
    forall j :: 0 <= j < |replies| ==> Relayable(replies[j].peer, replies[j].data)
  }

  function PacketsOf(replies: seq<Reply>): (packets: seq<Packet>)
    ensures |packets| == |replies|
    ensures forall j :: 0 <= j < |replies| ==> packets[j] == Packet(TupleText(replies[j].peer), replies[j].data)
  {
    if replies == [] then []
    else [Packet(TupleText(replies[0].peer), replies[0].data)] + PacketsOf(replies[1..])
  }

  lemma {:induction false} ReceivedGrows(r: Reader, s: string)
    ensures r.received <= Feed(r, s).received
    decreases |s|
  {
    if s != "" {
      TakeGrows(r, s[0]);
      ReceivedGrows(Take(r, s[0]), s[1..]);
    }
  }

  lemma {:induction false} AllReceivedLength(packets: seq<Packet>)
    ensures |AllReceived(packets)| == |packets|
  {
    if packets != [] {
      AllReceivedLength(packets[1..]);
    }
  }

  lemma {:induction false} AllReceivedAt(packets: seq<Packet>, j: nat)
    requires j < |packets|
    ensures j < |AllReceived(packets)| && AllReceived(packets)[j] == AsReceived(packets[j])
    decreases |packets|
  {
    if j > 0 {
      AllReceivedAt(packets[1..], j - 1);
    }
  }

  /** A stream cut off anywhere gives a prefix of its packets. */
  lemma CutStream(packets: seq<Packet>, s: string)
    requires (forall j :: 0 <= j < |packets| ==> Deliverable(packets[j])) && s <= Frames(packets)
    ensures Feed(START, s).received <= AllReceived(packets)
  {
    var rest := Frames(packets)[|s|..];
    assert Frames(packets) == s + rest;
    FeedAppend(START, s, rest);
    ReceivedGrows(Feed(START, s), rest);
    StreamRoundTrip(packets, []);
    assert [] + AllReceived(packets) == AllReceived(packets);
  }

  /** The j-th packet of a session is sent as the j-th reply of its stream. */
  lemma ReplySent(replies: seq<Reply>, s: string, j: nat)
    requires AllRelayable(replies) && s <= Frames(PacketsOf(replies)) && j < |Feed(START, s).received|
    ensures j < |replies|
    ensures Addressed(Feed(START, s).received[j])
         == Sends(replies[j])
  {
    var packets := PacketsOf(replies);
    forall k | 0 <= k < |packets|
      ensures Deliverable(packets[k])
    {
      assert Relayable(replies[k].peer, replies[k].data);
    }
    CutStream(packets, s);
    AllReceivedLength(packets);
    AllReceivedAt(packets, j);
    assert Relayable(replies[j].peer, replies[j].data);
    PacketAddressed(replies[j].peer, replies[j].data);
  }

  /** Every session's stream is what the server sent on it, as far as it has come. */
  ghost predicate Served(events: seq<Event>, traffic: nat -> seq<Reply>) {
    forall k: nat :: AllRelayable(traffic(k)) && Stream(events, k) <= Frames(PacketsOf(traffic(k)))
  }

  function Sends(r: Reply): (o: Outcome) {
    Send(Datagram(r.peer.address, r.peer.port, r.data))
  }

  /** An arrival is one of the replies of its own session. */
  ghost predicate IsReply(o: Outcome, replies: seq<Reply>) {
    exists j :: 0 <= j < |replies| && o == Sends(replies[j])
  }

  lemma ArrivalsAreReplies(events: seq<Event>, traffic: nat -> seq<Reply>, i: nat)
    requires Run(INITIAL, events) && Served(events, traffic)
    requires i < |After(INITIAL, events).queue.arrived|
    ensures var s := After(INITIAL, events);
            |s.sources| == |s.queue.arrived| && IsReply(s.queue.arrived[i], traffic(s.sources[i]))
  {
    var s := After(INITIAL, events);
    InitialInv();
    RunKeepsInv(INITIAL, events);
    var k := s.sources[i];
    assert Agrees(s, k);
    ReadersAreSeparate(INITIAL, events, k);
    var received := Feed(START, Stream(events, k)).received;
    FromHas(s.queue.arrived, s.sources, i);
    var j :| 0 <= j < |Outcomes(received)| && Outcomes(received)[j] == s.queue.arrived[i];
    OutcomesAt(received, j);
    ReplySent(traffic(k), Stream(events, k), j);
  }

  lemma InitialInv()
    ensures Inv(INITIAL)
  {
    forall k: nat
      ensures Agrees(INITIAL, k)
    {
    }
  }

  /**
   Whatever the interleaving of the sessions' bytes and of the sends, every packet that has left the queue is a
   reply that some session's server sent, and was sent to that reply's peer with its data.
   */
  lemma AllRepliesReachTheirPeers(events: seq<Event>, traffic: nat -> seq<Reply>, i: nat)
    requires Run(INITIAL, events) && Served(events, traffic)
    requires i < |After(INITIAL, events).queue.popped|
    ensures var s := After(INITIAL, events);
            && i < |s.sources|
            && exists n :: (&& 0 <= n < |s.queue.sends| && s.queue.sends[n].position == i
                            && IsReply(Send(s.queue.sends[n].datagram), traffic(s.sources[i])))
  {
    var s, events' := After(INITIAL, events), QueueEvents(INITIAL, events);
    QueueRuns(INITIAL, events);
    Q.SendsOfArrivals(events');
    forall m | 0 <= m < |Q.Arrivals(events')|
      ensures Q.WellFormed(Q.Arrivals(events')[m])
    {
      ArrivalsAreReplies(events, traffic, m);
    }
    Q.AtLeastOnce(events', i);
    ArrivalsAreReplies(events, traffic, i);
  }

  // ---------------------------------------------------------------- a run that delivers

  lemma {:induction false} RunOn(s: State, first: seq<Event>, second: seq<Event>)
    requires Run(s, first) && Run(After(s, first), second)
    ensures Run(s, first + second) && After(s, first + second) == After(After(s, first), second)
    decreases |first|
  {
    if first == [] {
      assert first + second == second;
    } else {
      RunOn(Step(s, first[0]), first[1..], second);
      assert (first + second)[0] == first[0] && (first + second)[1..] == first[1..] + second;
    }
  }

  function Bytes(k: nat, text: string): (events: seq<Event>) {
    if text == "" then [] else [Byte(k, text[0])] + Bytes(k, text[1..])
  }

  lemma {:induction false} StreamOfBytes(k: nat, text: string, rest: seq<Event>)
    requires forall i :: 0 <= i < |rest| ==> rest[i] == SendDone(true)
    ensures Stream(Bytes(k, text) + rest, k) == text
    decreases |text| + |rest|
  {
    var events := Bytes(k, text) + rest;
    if text != "" {
      assert events[0] == Byte(k, text[0]) && events[1..] == Bytes(k, text[1..]) + rest;
      StreamOfBytes(k, text[1..], rest);
    } else if rest != [] {
      assert Bytes(k, "") == [] && events[0] == SendDone(true) && events[1..] == Bytes(k, "") + rest[1..];
      StreamOfBytes(k, "", rest[1..]);
    } else {
      assert events == [];
    }
  }

  /** A queue that has got well-formed packets only, and lost none. */
  predicate Alive(q: Q.State) {
    Q.Inv(q) && !q.crashed && q.failures == 0 && Q.AllWellFormed(q.arrived)
  }

  lemma StaysAlive(q: Q.State, o: Outcome)
    requires Alive(q) && o.Send?
    ensures var q' := Q.Step(q, Q.Arrive(o)); Alive(q') && q'.arrived == q.arrived + [o]
  {
    Q.ArriveKeepsInv(q, o);
    Q.StepArrives(q, Q.Arrive(o));
    var q' := Q.Step(q, Q.Arrive(o));
    assert q'.queue != [] ==> q'.arrived[|q'.popped|] == q'.queue[0] && Q.WellFormed(q'.arrived[|q'.popped|]);
  }

  predicate Sendable(packets: seq<Received>, from: nat) {
    forall j :: from <= j < |packets| ==> Addressed(packets[j]).Send?
  }

  /** One byte of a stream of sendable packets. */
  lemma ByteRuns(s: State, k: nat, c: char)
    requires Alive(s.queue) && s.queue.arrived == Outcomes(ReaderOf(s, k).received)
    requires Sendable(Take(ReaderOf(s, k), c).received, |ReaderOf(s, k).received|)
    ensures Possible(s, Byte(k, c))
    ensures var s' := Step(s, Byte(k, c));
            && Alive(s'.queue) && s'.queue.arrived == Outcomes(ReaderOf(s', k).received)
            && ReaderOf(s', k) == Take(ReaderOf(s, k), c)
  {
    ByteReceives(s, k, c);
    if Emitted(s, Byte(k, c)) != [] {
      var p :| Completes(s, k, c, p);
      assert Take(ReaderOf(s, k), c).received[|ReaderOf(s, k).received|] == p;
      StaysAlive(s.queue, Addressed(p));
      OutcomesMore(ReaderOf(s, k).received, p);
    }
  }

  lemma {:induction false} BytesRun(s: State, k: nat, text: string)
    requires Alive(s.queue) && s.queue.arrived == Outcomes(ReaderOf(s, k).received)
    requires Sendable(Feed(ReaderOf(s, k), text).received, |ReaderOf(s, k).received|)
    ensures Run(s, Bytes(k, text))
    ensures var s' := After(s, Bytes(k, text));
            Alive(s'.queue) && s'.queue.arrived == Outcomes(Feed(ReaderOf(s, k), text).received)
    decreases |text|
  {
    if text != "" {
      var r := ReaderOf(s, k);
      TakeGrows(r, text[0]);
      ReceivedGrows(Take(r, text[0]), text[1..]);
      ByteRuns(s, k, text[0]);
      BytesRun(Step(s, Byte(k, text[0])), k, text[1..]);
      assert Bytes(k, text)[1..] == Bytes(k, text[1..]);
    }
  }

  function Completions(n: nat): (events: seq<Event>)
    ensures |events| == n && forall i :: 0 <= i < n ==> events[i] == SendDone(true)
  {
    if n == 0 then [] else [SendDone(true)] + Completions(n - 1)
  }

  lemma {:induction false} CompletionsRun(s: State, more: seq<Q.Event>)
    requires Q.Run(s.queue, more) && forall i :: 0 <= i < |more| ==> more[i] == Q.SendDone(true)
    ensures Run(s, Completions(|more|))
    ensures After(s, Completions(|more|)).queue == Q.After(s.queue, more)
    ensures Q.After(s.queue, more).arrived == s.queue.arrived
    decreases |more|
  {
    if more != [] {
      assert more[0] == Q.SendDone(true) && Emitted(s, SendDone(true)) == [more[0]];
      Q.StepArrives(s.queue, more[0]);
      CompletionsRun(Step(s, SendDone(true)), more[1..]);
      assert Completions(|more|)[1..] == Completions(|more| - 1);
    }
  }

  /** The outcomes of a server's replies. */
  lemma RepliesReceived(replies: seq<Reply>)
    requires AllRelayable(replies)
    ensures var received := Feed(START, Frames(PacketsOf(replies))).received;
            && |received| == |replies| && Sendable(received, 0)
            && forall j :: 0 <= j < |replies| ==> Outcomes(received)[j] == Sends(replies[j])
  {
    var packets := PacketsOf(replies);
    var text := Frames(packets);
    forall k | 0 <= k < |packets|
      ensures Deliverable(packets[k])
    {
      assert Relayable(replies[k].peer, replies[k].data);
    }
    StreamRoundTrip(packets, []);
    AllReceivedLength(packets);
    var received := Feed(START, text).received;
    assert received == AllReceived(packets);
    forall j | 0 <= j < |replies|
      ensures Addressed(received[j]).Send? && Outcomes(received)[j] == Sends(replies[j])
    {
      ReplySent(replies, text, j);
      OutcomesAt(received, j);
    }
  }

  /** The state after a server's replies have all been read, and nothing else has happened. */
  lemma RepliesRead(k: nat, replies: seq<Reply>)
    requires AllRelayable(replies)
    ensures var events := Bytes(k, Frames(PacketsOf(replies)));
            && Run(INITIAL, events) && Alive(After(INITIAL, events).queue)
            && var arrived := After(INITIAL, events).queue.arrived;
               |arrived| == |replies| && forall j :: 0 <= j < |replies| ==> arrived[j] == Sends(replies[j])
  {
    RepliesReceived(replies);
    BytesFromStart(k, Frames(PacketsOf(replies)));
  }

  lemma BytesFromStart(k: nat, text: string)
    requires Sendable(Feed(START, text).received, 0)
    ensures Run(INITIAL, Bytes(k, text))
    ensures var q := After(INITIAL, Bytes(k, text)).queue;
            Alive(q) && q.arrived == Outcomes(Feed(START, text).received)
  {
    StartAlive();
    BytesRun(INITIAL, k, text);
  }

  lemma StartAlive()
    ensures Alive(INITIAL.queue) && INITIAL.queue.arrived == Outcomes(START.received)
  {
  }

  lemma StartedSend(q: Q.State, i: nat, d: Datagram)
    requires Q.Inv(q) && Q.Started(q.sends, i) && i < |q.arrived| && q.arrived[i] == Send(d)
    ensures Q.Sent(i, d) in q.sends
  {
    var n :| 0 <= n < |q.sends| && q.sends[n].position == i;
    assert q.sends[n] == Q.Sent(i, d);
  }

  lemma QueueSends(q: Q.State, i: nat, d: Datagram) returns (more: seq<Q.Event>)
    requires Alive(q) && i < |q.arrived| && q.arrived[i] == Send(d)
    ensures Q.Run(q, more) && forall j :: 0 <= j < |more| ==> more[j] == Q.SendDone(true)
    ensures Q.Sent(i, d) in Q.After(q, more).sends
  {
    more := Q.CompletionsSuffice(q, i);
    Q.RunKeepsInv(q, more);
    Q.ArrivedAreTheEvents(q, more);
    StartedSend(Q.After(q, more), i, d);
  }

  /** Any list of replies can be written on a session, and each of them then reaches its peer. */
  lemma ReplyCanReachItsPeer(k: nat, replies: seq<Reply>, i: nat) returns (events: seq<Event>)
    requires AllRelayable(replies) && i < |replies|
    ensures Run(INITIAL, events) && Stream(events, k) == Frames(PacketsOf(replies))
    ensures var Reply(peer, data) := replies[i];
            Q.Sent(i, Datagram(peer.address, peer.port, data)) in After(INITIAL, events).queue.sends
  {
    var front := Bytes(k, Frames(PacketsOf(replies)));
    RepliesRead(k, replies);
    var s := After(INITIAL, front);
    var more := QueueSends(s.queue, i, Sends(replies[i]).datagram);
    CompletionsRun(s, more);
    RunOn(INITIAL, front, Completions(|more|));
    events := front + Completions(|more|);
    StreamOfBytes(k, Frames(PacketsOf(replies)), Completions(|more|));
  }
}
