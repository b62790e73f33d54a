/** One session per UDP peer: the ordered map of sessions, and what a peer's datagrams can reach. */
module SessionManager {
  import opened Option
  import opened Wire
  import opened Address
  import opened FrameReader
  import Session

  // ---------------------------------------------------------------- the manager's steps

  type Table = map<AdrTuple, Session.State>

  /** A datagram from a peer, the removal of a peer's session, or a completion that one of its handlers gets. */
  datatype Event =
    | FromPeer(peer: AdrTuple, data: string)
    | Gone(peer: AdrTuple)
    | Handler(peer: AdrTuple, event: Session.Event)

  /** The frame is within the decoder's limit, which is also what copying the packet into a queue has room for. */
  predicate FitsFrame(peer: AdrTuple, data: string) {
    Deliverable(Packet(TupleText(peer), data))
  }

  function SessionOf(table: Table, peer: AdrTuple): (s: Session.State) {
    if peer in table then table[peer] else Session.INITIAL
  }

  predicate Possible(table: Table, e: Event) {
    match e
    case FromPeer(peer, data) => FitsFrame(peer, data)
    case Gone(_) => true
    case Handler(peer, event) => peer in table && !event.Accept? && Session.Possible(table[peer], event)
  }

  /** The peer's session, new if it has none, accepts the frame. */
  function Accepted(table: Table, peer: AdrTuple, frame: string): (table': Table) {
    table[peer := Session.AcceptStep(SessionOf(table, peer), frame)]
  }

  lemma WelcomeChangesNothing(table: Table, peer: AdrTuple, frame: string)
    requires peer !in table
    ensures Accepted(table[peer := Session.INITIAL], peer, frame) == Accepted(table, peer, frame)
  {
  }

  function Step(table: Table, e: Event): (table': Table)
    requires Possible(table, e)
  {
    match e
    case FromPeer(peer, data) =>
      Accepted(table, peer, Frame(TupleText(peer), data))
    case Gone(peer) => table - {peer}
    case Handler(peer, event) => table[peer := Session.Step(table[peer], event)]
  }

  predicate Run(events: seq<Event>)
    decreases |events|, 0
  {
    events == [] || (Run(Init(events)) && Possible(After(Init(events)), Last(events)))
  }

  function After(events: seq<Event>): (table: Table)
    requires Run(events)
    decreases |events|, 1
  {
    if events == [] then map[] else Step(After(Init(events)), Last(events))
  }

  function Init(events: seq<Event>): (r: seq<Event>)
    requires events != []
    ensures |r| < |events|
  {
    events[..|events| - 1]
  }

  function Last(events: seq<Event>): (e: Event)
    requires events != []
  {
    events[|events| - 1]
  }

  /** What a peer sent since its session was last removed. */
  function Since(events: seq<Event>, peer: AdrTuple): (data: seq<string>)
    decreases |events|
  {
    if events == [] then []
    else
      var before := Since(Init(events), peer);
      match Last(events)
      case FromPeer(from, d) => if from == peer then before + [d] else before
      case Gone(gone) => if gone == peer then [] else before
      case Handler(_, _) => before
  }

  function FramesFor(peer: AdrTuple, data: seq<string>): (frames: seq<string>)
    ensures |frames| == |data|
  {
    if data == [] then [] else FramesFor(peer, data[..|data| - 1]) + [Frame(TupleText(peer), data[|data| - 1])]
  }

  lemma {:induction false} FramesForAt(peer: AdrTuple, data: seq<string>, i: nat)
    requires i < |data|
    ensures FramesFor(peer, data)[i] == Frame(TupleText(peer), data[i])
  {
    if i < |data| - 1 {
      FramesForAt(peer, data[..|data| - 1], i);
    }
  }

  predicate Holds(s: Session.State, peer: AdrTuple, data: seq<string>) {
    Session.Inv(s) && s.accepted == FramesFor(peer, data)
  }

  lemma AcceptHolds(s: Session.State, peer: AdrTuple, data: seq<string>, d: string)
    requires Holds(s, peer, data)
    ensures Holds(Session.AcceptStep(s, Frame(TupleText(peer), d)), peer, data + [d])
  {
    Session.AcceptKeepsInv(s, Frame(TupleText(peer), d));
    assert (data + [d])[..|data|] == data;
  }

  lemma HandlerHolds(s: Session.State, peer: AdrTuple, data: seq<string>, e: Session.Event)
    requires Holds(s, peer, data) && !e.Accept? && Session.Possible(s, e)
    ensures Holds(Session.Step(s, e), peer, data)
  {
    Session.StepKeepsInv(s, e);
  }

  /** In every run a peer has a session exactly if it sent something since the last removal, and that session accepted
    * the frames of exactly these datagrams, in order: nobody else's, none missing. */
  lemma {:induction false} SessionHoldsItsPeersDatagrams(events: seq<Event>, peer: AdrTuple)
    requires Run(events)
    ensures peer in After(events) <==> Since(events, peer) != []
    ensures Holds(SessionOf(After(events), peer), peer, Since(events, peer))
    decreases |events|
  {
    if events != [] {
      var before, table, data := Init(events), After(Init(events)), Since(Init(events), peer);
      SessionHoldsItsPeersDatagrams(before, peer);
      match Last(events) {
        case FromPeer(from, d) =>
          if from == peer {
            AcceptHolds(SessionOf(table, peer), peer, data, d);
          }
        case Gone(_) =>
        case Handler(at, e) =>
          if at == peer {
            HandlerHolds(table[peer], peer, data, e);
          }
      }
    }
  }

  /** So what a session has written and still has queued are the frames of its own peer's datagrams. */
  lemma WrittenAndQueuedAreThePeers(events: seq<Event>, peer: AdrTuple)
    requires Run(events) && peer in After(events)
    ensures var s, data := After(events)[peer], Since(events, peer);
            && |s.completed + s.queue| == |data|
            && forall i :: 0 <= i < |data| ==> (s.completed + s.queue)[i] == Frame(TupleText(peer), data[i])
  {
    forall i | 0 <= i < |Since(events, peer)|
      ensures FramesFor(peer, Since(events, peer))[i] == Frame(TupleText(peer), Since(events, peer)[i])
    {
      FramesForAt(peer, Since(events, peer), i);
    }
    SessionHoldsItsPeersDatagrams(events, peer);
  }

  // ---------------------------------------------------------------- the ordered map

  predicate Ascending(keys: seq<AdrTuple>) {
    forall i, j :: 0 <= i < j < |keys| ==> Less(keys[i], keys[j])
  }

  /** Where an ordered map has, or would put, a key: behind all smaller ones. */
  function LowerBound(keys: seq<AdrTuple>, key: AdrTuple): (n: nat)
    ensures n <= |keys|
    ensures forall i :: 0 <= i < n ==> Less(keys[i], key)
    ensures n < |keys| ==> !Less(keys[n], key)
  {
    if keys == [] || !Less(keys[0], key) then 0 else 1 + LowerBound(keys[1..], key)
  }

  /** std::map's find, which knows keys only through the order; |keys| is its end. */
  function Find(keys: seq<AdrTuple>, key: AdrTuple): (n: nat)
    ensures n <= |keys|
  {
    var n := LowerBound(keys, key);
    if n < |keys| && !Less(key, keys[n]) then n else |keys|
  }

  /** In an ascending map, find gives the position of the equal key, and the end exactly when there is none. */
  lemma FindIsEquality(keys: seq<AdrTuple>, key: AdrTuple)
    requires Ascending(keys)
    ensures Find(keys, key) < |keys| ==> keys[Find(keys, key)] == key
    ensures Find(keys, key) == |keys| <==> key !in keys
    ensures forall i :: 0 <= i < |keys| && keys[i] == key ==> i == Find(keys, key)
  {
    var n := LowerBound(keys, key);
    if n < |keys| {
      LessIsTotal(key, keys[n]);
    }
    forall i | 0 <= i < |keys| && keys[i] == key
      ensures i == n
    {
      LessIsTotal(key, key);
    }
  }

  /** Inserting a new key at its lower bound keeps the keys ascending, so every reachable map is. */
  lemma InsertAscends(keys: seq<AdrTuple>, key: AdrTuple)
    requires Ascending(keys) && key !in keys
    ensures var n := LowerBound(keys, key); Ascending(keys[..n] + [key] + keys[n..])
  {
    var n := LowerBound(keys, key);
    forall j | n <= j < |keys|
      ensures Less(key, keys[j])
    {
      LessIsTotal(key, keys[n]);
      if n < j {
        LessIsTransitive(key, keys[n], keys[j]);
      }
    }
  }

  lemma InsertedMembers(keys: seq<AdrTuple>, key: AdrTuple, n: nat)
    requires n <= |keys|
    ensures forall k :: k in keys[..n] + [key] + keys[n..] <==> k in keys || k == key
  {
    assert keys == keys[..n] + keys[n..];
  }

  lemma {:induction false} InOrder(members: set<AdrTuple>) returns (keys: seq<AdrTuple>)
    ensures Ascending(keys) && forall k :: k in keys <==> k in members
    decreases members
  {
    if k :| k in members {
      var rest := InOrder(members - {k});
      var n := LowerBound(rest, k);
      InsertAscends(rest, k);
      InsertedMembers(rest, k, n);
      keys := rest[..n] + [k] + rest[n..];
    } else {
      keys := [];
    }
  }

  // ---------------------------------------------------------------- the manager object

  class Manager {
    var sessions: map<AdrTuple, Session.RouterSession>
    ghost var table: Table

    static ghost predicate Attached(key: AdrTuple, session: Session.RouterSession, state: Session.State)
      reads session
    {
      session.tuple == key && session.view == state && session.Valid()
    }

    /** Every key is its session's own tuple, so no two entries share a session. */
    ghost predicate Valid()
      reads this, sessions.Values
    {
      && table.Keys == sessions.Keys
      && forall k :: k in sessions ==> Attached(k, sessions[k], table[k])
    }

    constructor ()
      ensures Valid() && table == map[]
    {
      sessions, table := map[], map[];
    }

    /** The scan over the sessions, comparing their own tuples, agrees with a lookup of the key. */
    method Scan(peer: AdrTuple) returns (found: Option<Session.RouterSession>)
      requires Valid()
      ensures found == if peer in sessions then Some(sessions[peer]) else None
    {
      var rest := sessions.Keys;
      while rest != {}
        invariant rest <= sessions.Keys && (peer in sessions ==> peer in rest)
        decreases rest
      {
        var k :| k in rest;
        if sessions[k].tuple == peer {
          return Some(sessions[k]);
        }
        rest := rest - {k};
      }
      return None;
    }

    method AddSession(session: Session.RouterSession)
      requires Valid() && session.Valid()
      modifies this
      ensures Valid() && sessions == old(sessions)[session.tuple := session]
      ensures table == old(table)[session.tuple := session.view]
    {
      sessions, table := sessions[session.tuple := session], table[session.tuple := session.view];
    }

    method RemoveSession(peer: AdrTuple)
      requires Valid()
      modifies this
      ensures sessions == old(sessions) - {peer}
      ensures table == Step(old(table), Gone(peer)) && Valid()
    {
      if peer in sessions {
        sessions := sessions - {peer};
      }
      table := table - {peer};
    }

    method HandleConnectionFailed(session: Session.RouterSession)
      requires Valid()
      modifies this
      ensures Valid() && table == Step(old(table), Gone(session.tuple))
    {
      RemoveSession(session.tuple);
    }

    /** Only the one session moves; its key and everything else stay. */
    method Enqueue(peer: AdrTuple, frame: string)
      requires Valid() && peer in sessions
      modifies this`table, sessions[peer]
      ensures table == Accepted(old(table), peer, frame) && Valid()
    {
      var session := sessions[peer];
      assert forall k :: k in sessions && k != peer ==> sessions[k] != session;
      session.AddRouterPacket(frame);
      Follow(peer);
    }

    method Welcome(peer: AdrTuple)
      requires Valid() && peer !in sessions
      modifies this
      ensures Valid() && table == old(table)[peer := Session.INITIAL]
      ensures peer in sessions && fresh(sessions[peer])
    {
      var session := new Session.RouterSession(peer);
      AddSession(session);
    }

    /** One session has moved. */
    ghost method Follow(peer: AdrTuple)
      requires peer in sessions && table.Keys == sessions.Keys
      requires sessions[peer].tuple == peer && sessions[peer].Valid()
      requires forall k :: k in sessions && k != peer ==> Attached(k, sessions[k], table[k])
      modifies this`table
      ensures Valid() && table == old(table)[peer := sessions[peer].view]
    {
      table := table[peer := sessions[peer].view];
    }

    /** A completion reaches the handler of the session it belongs to. */
    method RunHandler(peer: AdrTuple, event: Session.Event)
      requires Valid() && Possible(table, Handler(peer, event))
      modifies this`table, sessions[peer]
      ensures table == Step(old(table), Handler(peer, event)) && Valid()
    {
      var session := sessions[peer];
      assert forall k :: k in sessions && k != peer ==> sessions[k] != session;
      session.Handle(event);
      Follow(peer);
    }

    static method BuildFrame(peer: AdrTuple, data: string) returns (frame: string)
      requires FitsFrame(peer, data)
      ensures frame == Frame(TupleText(peer), data)
    {
      var packet := new RouterPacket();
      packet.Encode(TupleText(peer), data);
      frame := packet.buffer[..HEADER_LENGTH + packet.payloadLength];
    }

    /**
     A datagram is framed under its sender's text and queued on its sender's session, found or created; no
     other session changes. The source does not test for an overrun of the packet's buffer; the model stops at one.
     */
    method DeliverFromUdpPeer(peer: AdrTuple, data: string) returns (overrun: bool)
      requires Valid()
      modifies this, if peer in sessions then {sessions[peer]} else {}
      ensures overrun <==> CAPACITY < CopyEnd(TupleText(peer), data)
      ensures Valid() && table == if overrun then old(table) else Step(old(table), FromPeer(peer, data))
      ensures peer in old(sessions) || overrun ==> sessions == old(sessions)
    {
      overrun := CAPACITY < CopyEnd(TupleText(peer), data);
      if overrun {
        return;
      }
      var found := Scan(peer);
      var frame := BuildFrame(peer, data);
      if found.None? {
        WelcomeChangesNothing(table, peer, frame);
        Welcome(peer);
      }
      Enqueue(peer, frame);
    }

    /** handle_receive: an error without data removes the session, everything else is a datagram. */
    method HandleReceive(peer: AdrTuple, error: bool, data: string) returns (overrun: bool)
      requires Valid()
      modifies this, sessions.Values
      ensures overrun <==> !(error && data == "") && CAPACITY < CopyEnd(TupleText(peer), data)
      ensures Valid()
      ensures if overrun then table == old(table) && sessions == old(sessions)
              else if error && data == "" then
                table == Step(old(table), Gone(peer)) && table.Keys == old(table).Keys - {peer}
              else table == Step(old(table), FromPeer(peer, data)) && table.Keys == old(table).Keys + {peer}
    {
      if !error || |data| > 0 {
        overrun := DeliverFromUdpPeer(peer, data);
      } else {
        RemoveSession(peer);
        overrun := false;
      }
    }

    /** A lookup in the ordered map finds the session that the scan finds, whatever list its keys are in. */
    lemma LookupIsScan(keys: seq<AdrTuple>, peer: AdrTuple)
      requires Ascending(keys) && forall k :: k in keys <==> k in sessions
      ensures Find(keys, peer) < |keys| <==> peer in sessions
      ensures Find(keys, peer) < |keys| ==>
          keys[Find(keys, peer)] in sessions && sessions[keys[Find(keys, peer)]] == sessions[peer]
    {
      FindIsEquality(keys, peer);
    }

    /** And there is such a list: the one that insertions at the lower bound build. */
    lemma KeysInOrder() returns (keys: seq<AdrTuple>)
      ensures Ascending(keys) && forall k :: k in keys <==> k in sessions
    {
      keys := InOrder(sessions.Keys);
    }
  }
}
