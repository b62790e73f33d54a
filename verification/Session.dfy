/** The write side of a session: packets queued towards the TCP server, and the connection they wait for. */
module Session {
  import opened Text
  import opened FrameReader
  import opened Wire
  import opened Address

  type Endpoint = string

  /** Everything the handlers decide on, the asynchronous operations they left running, and what has happened so far. */
  datatype State = State(
    queue: seq<string>,
    open: bool,
    // outstanding operations; each connect keeps the endpoints its handler may still try
    resolves: nat,
    connects: seq<seq<Endpoint>>,
    writes: seq<string>,
    reading: nat,
    closes: nat,
    // history
    accepted: seq<string>,
    completed: seq<string>,
    resolved: seq<Endpoint>,
    attempted: seq<Endpoint>,
    readers: nat,
    writeFailed: bool,
    readCloses: nat)

  const INITIAL := State([], false, 0, [], [], 0, 0, [], [], [], [], 0, false, 0)

  /** An accepted packet or the completion of any outstanding operation. */
  datatype Event =
    | Accept(packet: string)
    | Resolved(endpoints: seq<Endpoint>)
    | ResolveFailed(endpoints: seq<Endpoint>)
    | Connected(op: nat)
    | ConnectFailed(op: nat)
    | Written(op: nat)
    | WriteFailed(op: nat)
    | ReadEnded(closes: nat)

  /** Completions come for outstanding operations only, and a successful resolve names an endpoint. */
  predicate Possible(s: State, e: Event) {
    match e
    case Accept(_) => true
    case Resolved(endpoints) => 0 < s.resolves && endpoints != []
    case ResolveFailed(_) => 0 < s.resolves
    case Connected(op) => op < |s.connects|
    case ConnectFailed(op) => op < |s.connects|
    case Written(op) => op < |s.writes|
    case WriteFailed(op) => op < |s.writes|
    case ReadEnded(closes) => 0 < s.reading && closes <= 2
  }

  function Without<T>(s: seq<T>, i: nat): (r: seq<T>)
    requires i < |s|
  {
    s[..i] + s[i + 1..]
  }

  /** deliver_to_tcp_peer. */
  function Deliver(s: State): (s': State) {
    if !s.open then s.(resolves := s.resolves + 1)
    else if s.queue != [] then s.(writes := s.writes + [s.queue[0]])
    else s
  }

  /** async_connect to the first endpoint, which opens the socket. */
  function Connect(s: State, endpoints: seq<Endpoint>): (s': State)
    requires endpoints != []
  {
    s.(open := true, connects := s.connects + [endpoints[1..]], attempted := s.attempted + [endpoints[0]])
  }

  /** The next endpoint on a socket opened anew, or the end of the session. */
  function Retry(s: State, endpoints: seq<Endpoint>): (s': State) {
    if endpoints != [] then Connect(s.(open := false), endpoints) else s.(closes := s.closes + 1)
  }

  function AcceptStep(s: State, packet: string): (s': State) {
    var pushed := s.(queue := s.queue + [packet], accepted := s.accepted + [packet]);
    if s.queue == [] then Deliver(pushed) else pushed
  }

  /** handle_resolve; without an error the first endpoint is not checked. */
  function ResolveStep(s: State, ok: bool, endpoints: seq<Endpoint>): (s': State)
    requires 0 < s.resolves && (ok ==> endpoints != [])
  {
    var s1 := s.(resolves := s.resolves - 1, resolved := s.resolved + endpoints);
    if ok then Connect(s1, endpoints) else Retry(s1, endpoints)
  }

  /** handle_connection. */
  function ConnectStep(s: State, ok: bool, op: nat): (s': State)
    requires op < |s.connects|
  {
    var rest := s.connects[op];
    var s1 := s.(connects := Without(s.connects, op));
    if ok && s1.open then
      var s2 := Deliver(s1);
      s2.(reading := s2.reading + 1, readers := s2.readers + 1)
    else Retry(s1, rest)
  }

  /** handle_deliver_tcp: the completed write is recorded for what it wrote, the queue loses its front. */
  function WriteStep(s: State, ok: bool, op: nat): (s': State)
    requires op < |s.writes|
  {
    var s1 := s.(writes := Without(s.writes, op));
    if !ok then s1.(closes := s1.closes + 1, writeFailed := true)
    else
      var s2 := s1.(completed := s1.completed + [s.writes[op]], queue := if s1.queue == [] then [] else s1.queue[1..]);
      if s2.queue != [] then Deliver(s2) else s2
  }

  /** The read loop ends: after a bad peer length without closing, after a payload read without bytes closing twice. */
  function ReadStep(s: State, closes: nat): (s': State)
    requires 0 < s.reading
  {
    s.(reading := s.reading - 1, closes := s.closes + closes, readCloses := s.readCloses + closes)
  }

  function Step(s: State, e: Event): (s': State)
    requires Possible(s, e)
  {
    match e
    case Accept(packet) => AcceptStep(s, packet)
    case Resolved(endpoints) => ResolveStep(s, true, endpoints)
    case ResolveFailed(endpoints) => ResolveStep(s, false, endpoints)
    case Connected(op) => ConnectStep(s, true, op)
    case ConnectFailed(op) => ConnectStep(s, false, op)
    case Written(op) => WriteStep(s, true, op)
    case WriteFailed(op) => WriteStep(s, false, op)
    case ReadEnded(closes) => ReadStep(s, closes)
  }

  predicate Run(s: State, events: seq<Event>)
    decreases |events|
  {
    events == [] || (Possible(s, events[0]) && Run(Step(s, events[0]), events[1..]))
  }

  function After(s: State, events: seq<Event>): (s': State)
    requires Run(s, events)
    decreases |events|
  {
    if events == [] then s else After(Step(s, events[0]), events[1..])
  }

  // ---------------------------------------------------------------- invariant

  /** The connection is up once its reader was started. */
  predicate Up(s: State) {
    0 < s.readers
  }

  /** How many operations of the write side are outstanding. */
  function Waiting(s: State): (n: nat) {
    s.resolves + |s.connects| + |s.writes|
  }

  function Count(b: bool): (n: nat) {
    if b then 1 else 0
  }

  predicate Inv(s: State) {
    && s.accepted == s.completed + s.queue
    && Waiting(s) <= 1 && s.reading <= s.readers <= 1
    && (if Up(s) then InvUp(s) else InvDown(s))
    && (s.queue != [] && s.closes == 0 ==> Waiting(s) == 1)
    && s.attempted <= s.resolved
  }

  /**
   Connected: a write is outstanding, for the front, exactly while there is something to write and no write
   failed.
   */
  predicate InvUp(s: State) {
    && s.open && s.resolves == 0 && s.connects == []
    && (s.writes == [] <==> s.queue == [] || s.writeFailed)
    && (s.writes != [] ==> s.writes[0] == s.queue[0])
    && (s.writeFailed ==> s.queue != [])
    && s.closes == s.readCloses + Count(s.writeFailed)
    && s.readCloses <= 2 && (0 < s.readCloses ==> s.reading == 0)
  }

  /** Not connected: nothing is written, and after giving up nothing is attempted. */
  predicate InvDown(s: State) {
    && s.completed == [] && s.writes == [] && s.reading == 0
    && s.readCloses == 0 && !s.writeFailed && s.closes <= 1
    && (s.closes == 1 ==> s.queue != [] && Waiting(s) == 0 && s.attempted == s.resolved)
    && (s.queue == [] ==> s == INITIAL)
    && (!s.open ==> s.connects == [] && s.attempted == [])
    && (s.resolves == 1 ==> !s.open && s.resolved == [])
    && (s.connects != [] ==> s.attempted + s.connects[0] == s.resolved)
  }

  lemma AcceptKeepsInv(s: State, packet: string)
    requires Inv(s)
    ensures Inv(AcceptStep(s, packet))
  {
    assert s.accepted + [packet] == s.completed + (s.queue + [packet]);
  }

  lemma ConnectProgress(tried: seq<Endpoint>, rest: seq<Endpoint>, all: seq<Endpoint>)
    requires rest != [] && tried + rest == all
    ensures (tried + [rest[0]]) + rest[1..] == all && tried + [rest[0]] <= all
  {
    assert rest == [rest[0]] + rest[1..];
    assert tried + rest == (tried + [rest[0]]) + rest[1..];
  }

  lemma ResolveKeepsInv(s: State, ok: bool, endpoints: seq<Endpoint>)
    requires Inv(s) && 0 < s.resolves && (ok ==> endpoints != [])
    ensures Inv(ResolveStep(s, ok, endpoints))
  {
    assert [] + endpoints == endpoints;
    if endpoints != [] {
      ConnectProgress([], endpoints, endpoints);
    }
  }

  lemma ConnectKeepsInv(s: State, ok: bool, op: nat)
    requires Inv(s) && op < |s.connects|
    ensures Inv(ConnectStep(s, ok, op))
  {
    assert Without(s.connects, op) == [];
    if s.connects[op] != [] {
      ConnectProgress(s.attempted, s.connects[op], s.resolved);
    }
  }

  lemma WriteKeepsInv(s: State, ok: bool, op: nat)
    requires Inv(s) && op < |s.writes|
    ensures Inv(WriteStep(s, ok, op))
  {
    assert Without(s.writes, op) == [];
    assert s.completed + [s.queue[0]] + s.queue[1..] == s.completed + s.queue;
  }

  lemma StepKeepsInv(s: State, e: Event)
    requires Inv(s) && Possible(s, e)
    ensures Inv(Step(s, e))
  {
    match e
    case Accept(packet) => AcceptKeepsInv(s, packet);
    case Resolved(endpoints) => ResolveKeepsInv(s, true, endpoints);
    case ResolveFailed(endpoints) => ResolveKeepsInv(s, false, endpoints);
    case Connected(op) => ConnectKeepsInv(s, true, op);
    case ConnectFailed(op) => ConnectKeepsInv(s, false, op);
    case Written(op) => WriteKeepsInv(s, true, op);
    case WriteFailed(op) => WriteKeepsInv(s, false, op);
    case ReadEnded(closes) =>
  }

  lemma {:induction false} RunKeepsInv(s: State, events: seq<Event>)
    requires Inv(s) && Run(s, events)
    ensures Inv(After(s, events))
    decreases |events|
  {
    if events != [] {
      StepKeepsInv(s, events[0]);
      RunKeepsInv(Step(s, events[0]), events[1..]);
    }
  }

  // ---------------------------------------------------------------- whole runs of a session

  /** Packets are completed in the order they were accepted, and all others are still queued. */
  lemma DeliveredInOrder(events: seq<Event>)
    requires Run(INITIAL, events)
    ensures var s := After(INITIAL, events); Packets(events) == s.completed + s.queue
  {
    RunKeepsInv(INITIAL, events);
    AcceptedAreTheEvents(INITIAL, events);
    assert [] + Packets(events) == Packets(events);
  }

  /**
   At most one write is outstanding and it writes the front; while connected and unharmed there is one exactly
   when the queue is not empty.
   */
  lemma OneWriteForTheFront(events: seq<Event>)
    requires Run(INITIAL, events)
    ensures var s := After(INITIAL, events);
            && |s.writes| <= 1
            && (s.writes != [] ==> s.queue != [] && s.writes == [s.queue[0]])
            && (Up(s) && !s.writeFailed ==> (s.writes != [] <==> s.queue != []))
            && (!Up(s) ==> s.writes == [])
  {
    RunKeepsInv(INITIAL, events);
  }

  /**
   Endpoints are tried in the order resolved, each at most once; there is one resolve at a time and one connect
   at a time.
   */
  lemma EndpointsTriedInOrder(events: seq<Event>)
    requires Run(INITIAL, events)
    ensures var s := After(INITIAL, events);
            s.attempted <= s.resolved && |s.attempted| <= |s.resolved| && s.resolves + |s.connects| <= 1
  {
    RunKeepsInv(INITIAL, events);
  }

  /** A session with packets is waiting for exactly one completion, or has asked to be closed. */
  lemma NeverForgotten(events: seq<Event>)
    requires Run(INITIAL, events)
    ensures var s := After(INITIAL, events); s.queue != [] ==> Waiting(s) == 1 || 0 < s.closes
  {
    RunKeepsInv(INITIAL, events);
  }

  /** A session that was never connected asks to be closed only after every endpoint was tried. */
  lemma GivesUpAfterAll(events: seq<Event>)
    requires Run(INITIAL, events) && !ConnectedIn(events)
    ensures var s := After(INITIAL, events);
            && s.resolved == EndpointsOf(events)
            && (0 < s.closes ==> s.attempted == s.resolved && Waiting(s) == 0)
            && (0 < s.closes <==> s.queue != [] && Waiting(s) == 0)
  {
    RunKeepsInv(INITIAL, events);
    HistoryIsTheEvents(INITIAL, events);
    assert [] + EndpointsOf(events) == EndpointsOf(events);
  }

  /** After a failed connect the next endpoint is tried, if there is one; nothing else is outstanding then. */
  lemma FailedConnectTriesNext(events: seq<Event>, op: nat)
    requires Run(INITIAL, events) && Possible(After(INITIAL, events), ConnectFailed(op))
    ensures var s, s' := After(INITIAL, events), Step(After(INITIAL, events), ConnectFailed(op));
            && s.attempted <= s.resolved == s'.resolved && |s.attempted| <= |s.resolved|
            && s'.queue == s.queue && s'.resolves == 0 && s'.writes == []
            && if |s.attempted| < |s.resolved| then
                 && s'.attempted == s.attempted + [s.resolved[|s.attempted|]]
                 && s'.open && |s'.connects| == 1 && s'.closes == s.closes == 0
               else s'.attempted == s.attempted && s'.connects == [] && s'.closes == 1
  {
    RunKeepsInv(INITIAL, events);
    var s := After(INITIAL, events);
    assert s.connects[op] == s.resolved[|s.attempted|..];
    ConnectKeepsInv(s, false, op);
  }

  /** A resolve leads to a connect to the first endpoint, even one that failed, and asks for closing without any. */
  lemma ResolveTriesFirst(events: seq<Event>, ok: bool, endpoints: seq<Endpoint>)
    requires Run(INITIAL, events)
    requires Possible(After(INITIAL, events), if ok then Resolved(endpoints) else ResolveFailed(endpoints))
    ensures var s := After(INITIAL, events);
            var s' := Step(s, if ok then Resolved(endpoints) else ResolveFailed(endpoints));
            && s.attempted == [] == s.resolved && s'.resolved == endpoints && s'.queue == s.queue
            && s'.resolves == 0 && s'.writes == []
            && if endpoints != [] then
                 s'.attempted == [endpoints[0]] && s'.open && |s'.connects| == 1 && s'.closes == 0
               else s'.attempted == [] && s'.connects == [] && s'.closes == 1
  {
    RunKeepsInv(INITIAL, events);
    ResolveKeepsInv(After(INITIAL, events), ok, endpoints);
    assert [] + endpoints == endpoints;
  }

  /** Some connect of the run succeeded. */
  predicate ConnectedIn(events: seq<Event>) {
    exists i :: 0 <= i < |events| && events[i].Connected?
  }

  function EndpointsOf(events: seq<Event>): (endpoints: seq<Endpoint>) {
    if events == [] then []
    else
      var first := if events[0].Resolved? || events[0].ResolveFailed? then events[0].endpoints else [];
      first + EndpointsOf(events[1..])
  }

  function Connects(events: seq<Event>): (n: nat) {
    if events == [] then 0 else Count(events[0].Connected?) + Connects(events[1..])
  }

  function ReadersEnded(events: seq<Event>): (n: nat) {
    if events == [] then 0 else Count(events[0].ReadEnded?) + ReadersEnded(events[1..])
  }

  function ReadersClosing(events: seq<Event>): (n: nat) {
    if events == [] then 0
    else (if events[0].ReadEnded? then events[0].closes else 0) + ReadersClosing(events[1..])
  }

  function WriteFailures(events: seq<Event>): (n: nat) {
    if events == [] then 0 else Count(events[0].WriteFailed?) + WriteFailures(events[1..])
  }

  lemma {:induction false} NoConnects(events: seq<Event>)
    ensures Connects(events) == 0 <==> !ConnectedIn(events)
  {
    if events != [] {
      NoConnects(events[1..]);
      assert forall i :: 0 < i < |events| ==> events[i] == events[1..][i - 1];
      if i :| 0 <= i < |events[1..]| && events[1..][i].Connected? {
        assert events[i + 1].Connected?;
      }
    }
  }

  lemma StepHistory(s: State, e: Event)
    requires Inv(s) && Possible(s, e)
    ensures var s' := Step(s, e);
            && s'.resolved == s.resolved + (if e.Resolved? || e.ResolveFailed? then e.endpoints else [])
            && s'.readers == s.readers + Count(e.Connected?)
            && s'.reading + Count(e.ReadEnded?) == s.reading + Count(e.Connected?)
            && s'.readCloses == s.readCloses + (if e.ReadEnded? then e.closes else 0)
            && Count(s'.writeFailed) == Count(s.writeFailed) + Count(e.WriteFailed?)
  {
  }

  /** What a run leaves behind, counted from its events. */
  lemma {:induction false} HistoryIsTheEvents(s: State, events: seq<Event>)
    requires Inv(s) && Run(s, events)
    ensures var s' := After(s, events);
            && s'.resolved == s.resolved + EndpointsOf(events)
            && s'.readers == s.readers + Connects(events)
            && s'.reading + ReadersEnded(events) == s.reading + Connects(events)
            && s'.readCloses == s.readCloses + ReadersClosing(events)
            && Count(s'.writeFailed) == Count(s.writeFailed) + WriteFailures(events)
    ensures Connects(events) == 0 <==> !ConnectedIn(events)
    decreases |events|
  {
    NoConnects(events);
    if events == [] {
      assert s.resolved + EndpointsOf(events) == s.resolved;
    } else {
      StepKeepsInv(s, events[0]);
      StepHistory(s, events[0]);
      HistoryIsTheEvents(Step(s, events[0]), events[1..]);
      EndpointsStep(s.resolved, events);
    }
  }

  lemma EndpointsStep(before: seq<Endpoint>, events: seq<Event>)
    requires events != []
    ensures var first := if events[0].Resolved? || events[0].ResolveFailed? then events[0].endpoints else [];
            (before + first) + EndpointsOf(events[1..]) == before + EndpointsOf(events)
  {
  }

  /**
   Every request to close has its failure: one for a failed write, those of the ended reader, and one for having
   run out of endpoints. Exactly the successful connect starts a reader.
   */
  lemma ClosesAreFailures(events: seq<Event>)
    requires Run(INITIAL, events)
    ensures var s := After(INITIAL, events);
            && s.closes == WriteFailures(events) + ReadersClosing(events)
                           + Count(!ConnectedIn(events) && s.queue != [] && Waiting(s) == 0)
            && s.reading + ReadersEnded(events) == Connects(events) <= 1
            && (ConnectedIn(events) ==> s.open && s.resolves == 0 && s.connects == [])
  {
    RunKeepsInv(INITIAL, events);
    HistoryIsTheEvents(INITIAL, events);
  }

  /** The packets accepted by a run. */
  function Packets(events: seq<Event>): (packets: seq<string>) {
    if events == [] then []
    else (if events[0].Accept? then [events[0].packet] else []) + Packets(events[1..])
  }

  lemma StepAccepts(s: State, e: Event)
    requires Possible(s, e)
    ensures Step(s, e).accepted == s.accepted + if e.Accept? then [e.packet] else []
  {
  }

  lemma {:induction false} AcceptedAreTheEvents(s: State, events: seq<Event>)
    requires Run(s, events)
    ensures After(s, events).accepted == s.accepted + Packets(events)
    decreases |events|
  {
    if events == [] {
      assert s.accepted + Packets(events) == s.accepted;
    } else {
      var s1, rest := Step(s, events[0]), events[1..];
      AcceptedAreTheEvents(s1, rest);
      StepAccepts(s, events[0]);
      assert After(s, events) == After(s1, rest);
      var first := if events[0].Accept? then [events[0].packet] else [];
      assert (s.accepted + first) + Packets(rest) == s.accepted + (first + Packets(rest));
    }
  }

  function WriteAll(n: nat): (events: seq<Event>) {
    if n == 0 then [] else [Written(0)] + WriteAll(n - 1)
  }

  lemma Unroll(s: State, first: Event, rest: seq<Event>)
    requires Possible(s, first)
    ensures Run(s, [first] + rest) <==> Run(Step(s, first), rest)
    ensures Run(Step(s, first), rest) ==> After(s, [first] + rest) == After(Step(s, first), rest)
  {
    assert ([first] + rest)[1..] == rest;
  }

  lemma WriteMovesOn(s: State)
    requires Inv(s) && Up(s) && !s.writeFailed && s.queue != []
    ensures Possible(s, Written(0))
    ensures var s' := Step(s, Written(0));
            && Inv(s') && Up(s') && !s'.writeFailed
            && s'.accepted == s.accepted && s'.queue == s.queue[1..]
  {
    WriteKeepsInv(s, true, 0);
  }

  /** A connected session whose writes succeed empties its queue, one completion per packet. */
  lemma {:induction false} QueueDrains(s: State)
    requires Inv(s) && Up(s) && !s.writeFailed
    ensures Run(s, WriteAll(|s.queue|))
    ensures var s' := After(s, WriteAll(|s.queue|)); s'.queue == [] && s'.completed == s.accepted
    decreases |s.queue|
  {
    if s.queue == [] {
      assert s.completed + s.queue == s.completed;
    } else {
      WriteMovesOn(s);
      var s1 := Step(s, Written(0));
      QueueDrains(s1);
      Unroll(s, Written(0), WriteAll(|s1.queue|));
    }
  }

  // ---------------------------------------------------------------- a run that delivers

  lemma {:induction false} RunOn(s: State, first: seq<Event>, second: seq<Event>)
    requires Run(s, first) && Run(After(s, first), second)
    ensures Run(s, first + second) && After(s, first + second) == After(After(s, first), second)
    decreases |first|
  {
    if first == [] {
      assert first + second == second;
    } else {
      RunOn(Step(s, first[0]), first[1..], second);
      assert first + second == [first[0]] + (first[1..] + second);
      Unroll(s, first[0], first[1..] + second);
    }
  }

  function Accepts(packets: seq<string>): (events: seq<Event>) {
    if packets == [] then [] else [Accept(packets[0])] + Accepts(packets[1..])
  }

  function Failures(n: nat): (events: seq<Event>) {
    if n == 0 then [] else [ConnectFailed(0)] + Failures(n - 1)
  }

  /** While a session connects, packets are only queued. */
  lemma {:induction false} AcceptsRun(s: State, packets: seq<string>)
    requires s.queue != []
    ensures Run(s, Accepts(packets))
    ensures After(s, Accepts(packets)) == s.(queue := s.queue + packets, accepted := s.accepted + packets)
    decreases |packets|
  {
    if packets == [] {
      assert s.queue + packets == s.queue && s.accepted + packets == s.accepted;
    } else {
      var s1 := Step(s, Accept(packets[0]));
      AcceptsRun(s1, packets[1..]);
      Unroll(s, Accept(packets[0]), Accepts(packets[1..]));
      assert s1.queue + packets[1..] == s.queue + packets && s1.accepted + packets[1..] == s.accepted + packets;
    }
  }

  lemma FirstAccepts(packets: seq<string>)
    requires packets != []
    ensures Run(INITIAL, Accepts(packets))
    ensures After(INITIAL, Accepts(packets)) == INITIAL.(queue := packets, accepted := packets, resolves := 1)
  {
    var s1 := Step(INITIAL, Accept(packets[0]));
    AcceptsRun(s1, packets[1..]);
    Unroll(INITIAL, Accept(packets[0]), Accepts(packets[1..]));
    assert s1.queue == [packets[0]] == s1.accepted && [packets[0]] + packets[1..] == packets;
  }

  lemma {:induction false} FailuresRun(s: State, n: nat)
    requires s.open && |s.connects| == 1 && n <= |s.connects[0]|
    ensures Run(s, Failures(n))
    ensures After(s, Failures(n))
         == s.(connects := [s.connects[0][n..]], attempted := s.attempted + s.connects[0][..n])
    decreases n
  {
    if n == 0 {
      assert s.connects[0][0..] == s.connects[0] && s.connects == [s.connects[0]];
      assert s.attempted + s.connects[0][..0] == s.attempted;
    } else {
      var rest := s.connects[0];
      var s1 := Step(s, ConnectFailed(0));
      assert Without(s.connects, 0) == [] && s1.connects == [rest[1..]];
      FailuresRun(s1, n - 1);
      Unroll(s, ConnectFailed(0), Failures(n - 1));
      assert rest[1..][n - 1..] == rest[n..] && rest[..n] == [rest[0]] + rest[1..][..n - 1];
      assert s1.attempted + rest[1..][..n - 1] == s.attempted + rest[..n];
    }
  }

  /** A resolve, some failed connects, and one that succeeds. */
  function Connecting(endpoints: seq<Endpoint>, failures: nat): (events: seq<Event>) {
    [Resolved(endpoints)] + (Failures(failures) + [Connected(0)])
  }

  lemma ConnectingRuns(s: State, endpoints: seq<Endpoint>, failures: nat)
    requires s == INITIAL.(queue := s.queue, accepted := s.queue, resolves := 1) && failures < |endpoints|
    requires s.queue != []
    ensures Run(s, Connecting(endpoints, failures))
    ensures var s' := After(s, Connecting(endpoints, failures));
            && Up(s') && !s'.writeFailed && s'.queue == s.queue && s'.accepted == s.accepted && s'.closes == 0
            && s'.attempted == endpoints[..failures + 1]
  {
    var s1 := Step(s, Resolved(endpoints));
    FailuresRun(s1, failures);
    var s2 := After(s1, Failures(failures));
    Unroll(s2, Connected(0), []);
    assert [Connected(0)] + [] == [Connected(0)];
    RunOn(s1, Failures(failures), [Connected(0)]);
    Unroll(s, Resolved(endpoints), Failures(failures) + [Connected(0)]);
    assert s1.attempted == [endpoints[0]] && [endpoints[0]] + endpoints[1..][..failures] == endpoints[..failures + 1];
  }

  /**
   Whatever packets a session gets and whichever endpoint answers first, there is a run in which it connects to that
   endpoint and writes all packets, with nothing left and no request to close.
   */
  lemma EverythingDelivered(packets: seq<string>, endpoints: seq<Endpoint>, failures: nat) returns (events: seq<Event>)
    requires packets != [] && failures < |endpoints|
    ensures Run(INITIAL, events) && Packets(events) == packets
    ensures var s := After(INITIAL, events);
            && s.completed == packets && s.queue == [] && s.writes == [] && s.closes == 0
            && s.attempted == endpoints[..failures + 1]
  {
    FirstAccepts(packets);
    var s1 := After(INITIAL, Accepts(packets));
    ConnectingRuns(s1, endpoints, failures);
    RunOn(INITIAL, Accepts(packets), Connecting(endpoints, failures));
    var front := Accepts(packets) + Connecting(endpoints, failures);
    var s2 := After(INITIAL, front);
    RunKeepsInv(INITIAL, front);
    QueueDrains(s2);
    RunOn(INITIAL, front, WriteAll(|s2.queue|));
    events := front + WriteAll(|s2.queue|);
    WritesOnly(s2, |s2.queue|);
    RunKeepsInv(INITIAL, events);
    AcceptedAreTheEvents(INITIAL, events);
    assert [] + Packets(events) == Packets(events);
  }

  /** Completed writes try no endpoint and close nothing. */
  lemma {:induction false} WritesOnly(s: State, n: nat)
    requires Run(s, WriteAll(n))
    ensures var s' := After(s, WriteAll(n));
            s'.accepted == s.accepted && s'.attempted == s.attempted && s'.closes == s.closes
    decreases n
  {
    if n > 0 {
      var s1 := Step(s, Written(0));
      assert WriteAll(n)[1..] == WriteAll(n - 1);
      WritesOnly(s1, n - 1);
    }
  }

  // ---------------------------------------------------------------- the stream the server sees

  function FramesOf(packets: seq<Packet>): (frames: seq<string>)
    ensures |frames| == |packets|
  {
    if packets == [] then [] else [Frame(packets[0].peer, packets[0].data)] + FramesOf(packets[1..])
  }

  lemma {:induction false} FramesPrefix(packets: seq<Packet>, n: nat)
    requires n <= |packets|
    ensures Concat(FramesOf(packets)[..n]) == Frames(packets[..n])
    decreases |packets|
  {
    if n > 0 {
      FramesPrefix(packets[1..], n - 1);
      var frames := FramesOf(packets);
      assert frames[..n][1..] == FramesOf(packets[1..])[..n - 1];
      assert packets[..n][1..] == packets[1..][..n - 1];
      assert frames[..n][0] == frames[0] && packets[..n][0] == packets[0];
    }
  }

  /**
   After any run, the bytes of the completed writes are read as a prefix of the accepted packets, nothing
   damaged or left over.
   */
  lemma ServerReadsAPrefix(events: seq<Event>, packets: seq<Packet>)
    requires Run(INITIAL, events) && Packets(events) == FramesOf(packets)
    requires forall i :: 0 <= i < |packets| ==> Deliverable(packets[i])
    ensures var s := After(INITIAL, events);
            && |s.completed| + |s.queue| == |packets|
            && Feed(START, Concat(s.completed)) == Reader(ReadHeader(""), AllReceived(packets[..|s.completed|]))
  {
    DeliveredInOrder(events);
    var s := After(INITIAL, events);
    var n := |s.completed|;
    assert s.completed == FramesOf(packets)[..n];
    FramesPrefix(packets, n);
    StreamRoundTrip(packets[..n], []);
    assert [] + AllReceived(packets[..n]) == AllReceived(packets[..n]);
  }

  // ---------------------------------------------------------------- the session object

  class RouterSession {
    var tuple: AdrTuple
    var queue: seq<string>
    var open: bool
    // what has been handed to asio, and what asio has been told
    var resolves: nat
    var connects: seq<seq<Endpoint>>
    var writes: seq<string>
    var reading: nat
    var closes: nat
    ghost var accepted: seq<string>
    ghost var completed: seq<string>
    ghost var resolved: seq<Endpoint>
    ghost var attempted: seq<Endpoint>
    ghost var readers: nat
    ghost var writeFailed: bool
    ghost var readCloses: nat
    /** All of the above as one value, brought up to date by every handler. */
    ghost var view: State

    ghost function Fields(): (s: State)
      reads this
    {
      State(queue, open, resolves, connects, writes, reading, closes,
            accepted, completed, resolved, attempted, readers, writeFailed, readCloses)
    }

    ghost predicate Valid()
      reads this
    {
      view == Fields() && Inv(view)
    }

    constructor (tuple: AdrTuple)
      ensures this.tuple == tuple && view == INITIAL && Valid()
    {
      this.tuple := tuple;
      queue, open, resolves, connects, writes, reading, closes := [], false, 0, [], [], 0, 0;
      accepted, completed, resolved, attempted, readers, writeFailed, readCloses := [], [], [], [], 0, false, 0;
      view := INITIAL;
    }

    /** The end of every handler. */
    ghost method Reach(next: State)
      requires Fields() == next && Inv(next)
      modifies this`view
      ensures view == next && Valid()
    {
      view := next;
    }

    method CloseSession()
      modifies this`closes
      ensures closes == old(closes) + 1
    {
      closes := closes + 1;
    }

    method DeliverToTcpPeer()
      modifies this`resolves, this`writes
      ensures Fields() == Deliver(old(Fields()))
    {
      if !open {
        resolves := resolves + 1;
      } else if queue != [] {
        writes := writes + [queue[0]];
      }
    }

    method AsyncConnect(endpoints: seq<Endpoint>)
      requires endpoints != []
      modifies this`open, this`connects, this`attempted
      ensures Fields() == Connect(old(Fields()), endpoints)
    {
      open := true;
      connects := connects + [endpoints[1..]];
      attempted := attempted + [endpoints[0]];
    }

    method RetryOrClose(endpoints: seq<Endpoint>)
      modifies this`open, this`connects, this`attempted, this`closes
      ensures Fields() == Retry(old(Fields()), endpoints)
    {
      if endpoints != [] {
        open := false;
        AsyncConnect(endpoints);
      } else {
        CloseSession();
      }
    }

    /** "Write in progress" is read off the queue: it was not empty before the packet came. */
    method AddRouterPacket(packet: string)
      requires Valid()
      modifies this
      ensures tuple == old(tuple) && view == Step(old(view), Accept(packet)) && Valid()
    {
      AcceptKeepsInv(view, packet);
      ghost var next := AcceptStep(view, packet);
      var writeInProgress := queue != [];
      queue, accepted := queue + [packet], accepted + [packet];
      if !writeInProgress {
        DeliverToTcpPeer();
      }
      Reach(next);
    }

    method HandleResolve(ok: bool, endpoints: seq<Endpoint>)
      requires Valid() && 0 < resolves && (ok ==> endpoints != [])
      modifies this
      ensures tuple == old(tuple) && view == ResolveStep(old(view), ok, endpoints) && Valid()
    {
      ResolveKeepsInv(view, ok, endpoints);
      ghost var next := ResolveStep(view, ok, endpoints);
      resolves, resolved := resolves - 1, resolved + endpoints;
      if ok {
        AsyncConnect(endpoints);
      } else {
        RetryOrClose(endpoints);
      }
      Reach(next);
    }

    method HandleConnection(ok: bool, op: nat)
      requires Valid() && op < |connects|
      modifies this
      ensures tuple == old(tuple) && view == ConnectStep(old(view), ok, op) && Valid()
    {
      ConnectKeepsInv(view, ok, op);
      ghost var next := ConnectStep(view, ok, op);
      var rest := connects[op];
      connects := Without(connects, op);
      if ok && open {
        DeliverToTcpPeer();
        reading, readers := reading + 1, readers + 1;
      } else {
        RetryOrClose(rest);
      }
      Reach(next);
    }

    method PopAndDeliverNext(written: string)
      requires queue != []
      modifies this`queue, this`completed, this`resolves, this`writes
      ensures var s := old(Fields()).(queue := old(queue)[1..], completed := old(completed) + [written]);
              Fields() == if s.queue != [] then Deliver(s) else s
    {
      queue, completed := queue[1..], completed + [written];
      if queue != [] {
        DeliverToTcpPeer();
      }
    }

    /** pop_front is never called on an empty queue: the invariant gives the precondition below. */
    method HandleDeliverTcp(ok: bool, op: nat)
      requires Valid() && op < |writes|
      modifies this
      ensures tuple == old(tuple) && view == WriteStep(old(view), ok, op) && Valid()
    {
      WriteKeepsInv(view, ok, op);
      ghost var next := WriteStep(view, ok, op);
      var written := writes[op];
      writes := Without(writes, op);
      if ok {
        PopAndDeliverNext(written);
      } else {
        CloseSession();
        writeFailed := true;
      }
      Reach(next);
    }

    method HandleReadEnded(asked: nat)
      requires Valid() && 0 < reading && asked <= 2
      modifies this
      ensures tuple == old(tuple) && view == ReadStep(old(view), asked) && Valid()
    {
      StepKeepsInv(view, ReadEnded(asked));
      ghost var next := ReadStep(view, asked);
      reading := reading - 1;
      if asked > 0 {
        CloseSession();
      }
      if asked > 1 {
        CloseSession();
      }
      readCloses := readCloses + asked;
      Reach(next);
    }

    /** The handler that a completion is bound to. */
    method Handle(event: Event)
      requires Valid() && Possible(view, event)
      modifies this
      ensures tuple == old(tuple) && view == Step(old(view), event) && Valid()
    {
      match event {
        case Accept(packet) => AddRouterPacket(packet);
        case Resolved(endpoints) => HandleResolve(true, endpoints);
        case ResolveFailed(endpoints) => HandleResolve(false, endpoints);
        case Connected(op) => HandleConnection(true, op);
        case ConnectFailed(op) => HandleConnection(false, op);
        case Written(op) => HandleDeliverTcp(true, op);
        case WriteFailed(op) => HandleDeliverTcp(false, op);
        case ReadEnded(closes) => HandleReadEnded(closes);
      }
    }
  }
}
