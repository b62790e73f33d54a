/** The read side of a session: header, payload, header, payload, from a stream that arrives in any pieces. */
module FrameReader {
  import opened Option
  import opened Text
  import opened Wire

  /** A packet as handed to the session manager: both decoded lengths and the bytes after the peer length. */
  datatype Received = Received(payloadLength: nat, peerLength: nat, body: string)

  /** What the pending async_read is for; closed when close_session was posted, stopped when nothing is pending. */
  datatype Phase = ReadHeader(got: string) | ReadPayload(length: nat, got: string) | Closed | Stopped

  datatype Reader = Reader(phase: Phase, received: seq<Received>)

  const START := Reader(ReadHeader(""), [])

  /** handle_read_header: an empty payload is read at once, with no bytes, and closes the session. */
  function OnHeader(r: Reader, header: string): (r': Reader) {
    var length := FieldValue(header);
    if length > MAX_PAYLOAD_SIZE || length == 0 then r.(phase := Closed)
    else r.(phase := ReadPayload(length, ""))
  }

  /** decode_peer on a payload; one shorter than the field is followed by null characters. */
  function Decoded(payload: string): (r: Option<Received>) {
    var short := |payload| < PEER_LENGTH;
    var peerLength := FieldValue(if short then payload else payload[..PEER_LENGTH]);
    if peerLength > |payload| then None
    else Some(Received(|payload|, peerLength, if short then "" else payload[PEER_LENGTH..]))
  }

  /** handle_read_payload: a peer length above the payload length ends reading without closing. */
  function OnPayload(r: Reader, payload: string): (r': Reader) {
    match Decoded(payload)
    case None => r.(phase := Stopped)
    case Some(packet) => Reader(ReadHeader(""), r.received + [packet])
  }

  /** One more byte for the pending read; its handler runs when the read is complete. */
  function Take(r: Reader, c: char): (r': Reader) {
    match r.phase
    case ReadHeader(got) =>
      if |got| + 1 < HEADER_LENGTH then r.(phase := ReadHeader(got + [c])) else OnHeader(r, got + [c])
    case ReadPayload(length, got) =>
      if |got| + 1 < length then r.(phase := ReadPayload(length, got + [c])) else OnPayload(r, got + [c])
    case Closed => r
    case Stopped => r
  }

  function Feed(r: Reader, s: string): (r': Reader)
    decreases |s|
  {
    if s == "" then r else Feed(Take(r, s[0]), s[1..])
  }

  lemma {:induction false} FeedAppend(r: Reader, s: string, t: string)
    ensures Feed(r, s + t) == Feed(Feed(r, s), t)
    decreases |s|
  {
    if s == "" {
      assert s + t == t;
    } else {
      FeedAppend(Take(r, s[0]), s[1..], t);
      assert (s + t)[1..] == s[1..] + t;
    }
  }

  function FeedChunks(r: Reader, chunks: seq<string>): (r': Reader)
    decreases |chunks|
  {
    if chunks == [] then r else FeedChunks(Feed(r, chunks[0]), chunks[1..])
  }

  /** How the stream is cut into segments makes no difference. */
  lemma {:induction false} SegmentationInvisible(r: Reader, chunks: seq<string>)
    ensures FeedChunks(r, chunks) == Feed(r, Concat(chunks))
    decreases |chunks|
  {
    if chunks != [] {
      SegmentationInvisible(Feed(r, chunks[0]), chunks[1..]);
      FeedAppend(r, chunks[0], Concat(chunks[1..]));
    }
  }

  lemma {:induction false} HeaderCollected(received: seq<Received>, got: string, s: string)
    requires |got| + |s| < HEADER_LENGTH
    ensures Feed(Reader(ReadHeader(got), received), s) == Reader(ReadHeader(got + s), received)
    decreases |s|
  {
    if s == "" {
      assert got + s == got;
    } else {
      assert got + [s[0]] + s[1..] == got + s;
      HeaderCollected(received, got + [s[0]], s[1..]);
    }
  }

  lemma HeaderDone(received: seq<Received>, got: string, s: string)
    requires |got| + |s| == HEADER_LENGTH && |s| == 1
    ensures Feed(Reader(ReadHeader(got), received), s) == OnHeader(Reader(ReadHeader(""), received), got + s)
  {
    assert s[1..] == "" && [s[0]] == s;
  }

  lemma HeaderRead(received: seq<Received>, got: string, s: string)
    requires |got| + |s| == HEADER_LENGTH && s != ""
    ensures Feed(Reader(ReadHeader(got), received), s) == OnHeader(Reader(ReadHeader(""), received), got + s)
  {
    var front, last := s[..|s| - 1], s[|s| - 1..];
    assert front + last == s && got + front + last == got + s;
    FeedAppend(Reader(ReadHeader(got), received), front, last);
    HeaderCollected(received, got, front);
    HeaderDone(received, got + front, last);
  }

  lemma {:induction false} PayloadCollected(received: seq<Received>, length: nat, got: string, s: string)
    requires |got| + |s| < length
    ensures Feed(Reader(ReadPayload(length, got), received), s) == Reader(ReadPayload(length, got + s), received)
    decreases |s|
  {
    if s == "" {
      assert got + s == got;
    } else {
      assert got + [s[0]] + s[1..] == got + s;
      PayloadCollected(received, length, got + [s[0]], s[1..]);
    }
  }

  lemma PayloadDone(received: seq<Received>, length: nat, got: string, s: string)
    requires |got| + |s| == length && |s| == 1
    ensures Feed(Reader(ReadPayload(length, got), received), s)
         == OnPayload(Reader(ReadHeader(""), received), got + s)
  {
    assert s[1..] == "" && [s[0]] == s;
  }

  lemma PayloadRead(received: seq<Received>, length: nat, got: string, s: string)
    requires |got| + |s| == length && s != ""
    ensures Feed(Reader(ReadPayload(length, got), received), s)
         == OnPayload(Reader(ReadHeader(""), received), got + s)
  {
    var front, last := s[..|s| - 1], s[|s| - 1..];
    assert front + last == s && got + front + last == got + s;
    FeedAppend(Reader(ReadPayload(length, got), received), front, last);
    PayloadCollected(received, length, got, front);
    PayloadDone(received, length, got + front, last);
  }

  /** A header of length 0 or above 1024 closes the session, and nothing behind it is read any more. */
  lemma HeaderDecides(received: seq<Received>, header: string, rest: string)
    requires |header| == 4
    ensures var length, r := FieldValue(header), Feed(Reader(ReadHeader(""), received), header + rest);
            && (length == 0 || 1024 < length ==> r == Reader(Closed, received))
            && (0 < length <= 1024 && |rest| < length ==> r == Reader(ReadPayload(length, rest), received))
  {
    FeedAppend(Reader(ReadHeader(""), received), header, rest);
    HeaderRead(received, "", header);
    assert "" + header == header;
    EndedStays(received, rest);
    if 0 < FieldValue(header) <= 1024 && |rest| < FieldValue(header) {
      PayloadCollected(received, FieldValue(header), "", rest);
      assert "" + rest == rest;
    }
  }

  /**
   A payload whose peer length is above its own length is dropped, and reading stops there without closing; every
   other payload is received, its peer length taken out, and the next header is read.
   */
  lemma PayloadDecides(received: seq<Received>, payload: string, rest: string)
    requires payload != ""
    ensures var r := Feed(Reader(ReadPayload(|payload|, ""), received), payload + rest);
            var short := |payload| < 4;
            var peerLength := FieldValue(if short then payload else payload[..4]);
            && (peerLength > |payload| ==> r == Reader(Stopped, received))
            && (peerLength <= |payload| ==>
                  var packet := Received(|payload|, peerLength, if short then "" else payload[4..]);
                  r == Feed(Reader(ReadHeader(""), received + [packet]), rest))
  {
    FeedAppend(Reader(ReadPayload(|payload|, ""), received), payload, rest);
    PayloadRead(received, |payload|, "", payload);
    assert "" + payload == payload;
    EndedStays(received, rest);
  }

  lemma {:induction false} EndedStays(received: seq<Received>, s: string)
    ensures Feed(Reader(Closed, received), s) == Reader(Closed, received)
    ensures Feed(Reader(Stopped, received), s) == Reader(Stopped, received)
    decreases |s|
  {
    if s != "" {
      EndedStays(received, s[1..]);
    }
  }

  // ---------------------------------------------------------------- frames

  datatype Packet = Packet(peer: string, data: string)

  /** What the encoder's buffer can hold at all. */
  predicate Fits(p: Packet) {
    |p.peer| + |p.data| <= MAX_PAYLOAD_SIZE
  }

  /** What the decoder's limit leaves for peer and data. */
  predicate Deliverable(p: Packet) {
    |p.peer| + |p.data| + PEER_LENGTH <= MAX_PAYLOAD_SIZE
  }

  function AsReceived(p: Packet): (r: Received) {
    Received(|p.peer| + |p.data| + PEER_LENGTH, |p.peer|, p.peer + p.data)
  }

  /** The header of a frame: its length is accepted exactly within the decoder's limit. */
  lemma FrameHeader(length: nat, received: seq<Received>)
    requires 0 < length < 10_000
    ensures Feed(Reader(ReadHeader(""), received), Field(length))
         == Reader(if length <= MAX_PAYLOAD_SIZE then ReadPayload(length, "") else Closed, received)
  {
    HeaderRead(received, "", Field(length));
    assert "" + Field(length) == Field(length);
    FieldRoundTrip(length);
  }

  lemma DecodedOf(field: string, body: string)
    requires |field| == PEER_LENGTH && FieldValue(field) <= |field + body|
    ensures Decoded(field + body) == Some(Received(|field + body|, FieldValue(field), body))
  {
    assert (field + body)[..PEER_LENGTH] == field && (field + body)[PEER_LENGTH..] == body;
  }

  lemma FrameBody(p: Packet)
    requires Deliverable(p)
    ensures Decoded(Field(|p.peer|) + (p.peer + p.data)) == Some(AsReceived(p))
  {
    FieldRoundTrip(|p.peer|);
    DecodedOf(Field(|p.peer|), p.peer + p.data);
  }

  /**
   A frame that fits the buffer is read back exactly when it is within the decoder's limit; otherwise it closes
   the session.
   */
  lemma FrameRead(p: Packet, received: seq<Received>)
    requires Fits(p)
    ensures Feed(Reader(ReadHeader(""), received), Frame(p.peer, p.data))
         == if Deliverable(p) then Reader(ReadHeader(""), received + [AsReceived(p)]) else Reader(Closed, received)
  {
    var length := |p.peer| + |p.data| + PEER_LENGTH;
    var header, payload := Field(length), Field(|p.peer|) + (p.peer + p.data);
    assert Frame(p.peer, p.data) == header + payload;
    FeedAppend(Reader(ReadHeader(""), received), header, payload);
    FrameHeader(length, received);
    if Deliverable(p) {
      PayloadRead(received, length, "", payload);
      assert "" + payload == payload;
      FrameBody(p);
    } else {
      EndedStays(received, payload);
    }
  }

  /** A frame with 1021 characters of peer and data is written, and closes the session that reads it. */
  lemma LongFrameClosesSession(received: seq<Received>)
    ensures var p := Packet(Repeat('9', 21), Repeat('d', 1000));
            Fits(p) && Feed(Reader(ReadHeader(""), received), Frame(p.peer, p.data)) == Reader(Closed, received)
  {
    FrameRead(Packet(Repeat('9', 21), Repeat('d', 1000)), received);
  }

  function Frames(packets: seq<Packet>): (s: string) {
    if packets == [] then "" else Frame(packets[0].peer, packets[0].data) + Frames(packets[1..])
  }

  function AllReceived(packets: seq<Packet>): (r: seq<Received>) {
    if packets == [] then [] else [AsReceived(packets[0])] + AllReceived(packets[1..])
  }

  lemma FrameThen(p: Packet, received: seq<Received>, rest: string)
    requires Deliverable(p)
    ensures Feed(Reader(ReadHeader(""), received), Frame(p.peer, p.data) + rest)
         == Feed(Reader(ReadHeader(""), received + [AsReceived(p)]), rest)
  {
    FrameRead(p, received);
    FeedAppend(Reader(ReadHeader(""), received), Frame(p.peer, p.data), rest);
  }

  /**
   The concatenated frames of any list of deliverable packets are read as exactly that list, with nothing left
   over.
   */
  lemma {:induction false} StreamRoundTrip(packets: seq<Packet>, received: seq<Received>)
    requires forall i :: 0 <= i < |packets| ==> Deliverable(packets[i])
    ensures Feed(Reader(ReadHeader(""), received), Frames(packets))
         == Reader(ReadHeader(""), received + AllReceived(packets))
    decreases |packets|
  {
    if packets == [] {
      assert received + AllReceived(packets) == received;
    } else {
      var p, rest := packets[0], packets[1..];
      FrameThen(p, received, Frames(rest));
      StreamRoundTrip(rest, received + [AsReceived(p)]);
      assert received + [AsReceived(p)] + AllReceived(rest) == received + ([AsReceived(p)] + AllReceived(rest));
    }
  }

  // ---------------------------------------------------------------- what the UDP side reads out of a packet

  /** get_peer_data; a peer length beyond the body reads the cleared bytes behind it. */
  function PeerText(r: Received, size: nat): (peer: Option<string>) {
    if 0 < r.peerLength < size then Some(CString(if r.peerLength <= |r.body| then r.body[..r.peerLength] else r.body))
    else None
  }

  /** packet_data_length, an unsigned subtraction. */
  function DataLength(r: Received): (n: int) {
    (r.payloadLength - r.peerLength - PEER_LENGTH) % UINT32
  }

  /** A delivered packet gives back its peer, if that is short enough and has no null character, and its data. */
  lemma DeliveredPacket(p: Packet, size: nat)
    requires '\0' !in p.peer
    ensures PeerText(AsReceived(p), size) == if 0 < |p.peer| < size then Some(p.peer) else None
    ensures |p.data| < UINT32 ==> DataLength(AsReceived(p)) == |p.data|
    ensures AsReceived(p).body[|p.peer|..] == p.data
  {
    assert (p.peer + p.data)[..|p.peer|] == p.peer;
    CStringOf(p.peer);
  }

  /**
   The data length of a decoded packet is the number of bytes behind the peer exactly when the peer leaves room
   for its own length field.
   */
  lemma DataLengthRight(r: Received)
    requires r.payloadLength <= MAX_PAYLOAD_SIZE && r.peerLength <= r.payloadLength
    requires |r.body| == if r.payloadLength < PEER_LENGTH then 0 else r.payloadLength - PEER_LENGTH
    ensures DataLength(r) == |r.body| - r.peerLength <==> r.peerLength + PEER_LENGTH <= r.payloadLength
  {
  }

  // ---------------------------------------------------------------- the handlers

  /** Bytes that a cleared buffer leaves behind a text do not change it. */
  lemma {:induction false} CStringPadded(s: string, n: nat)
    ensures CString(s + Repeat('\0', n)) == CString(s)
  {
    if s == "" {
      assert s + Repeat('\0', n) == Repeat('\0', n);
    } else {
      CStringPadded(s[1..], n);
      assert (s + Repeat('\0', n))[1..] == s[1..] + Repeat('\0', n);
    }
  }

  /** The copy holds the packet: behind the peer length its body, then what is left of the cleared bytes. */
  predicate Carries(q: Queued, r: Received) {
    && q.payloadLength == r.payloadLength && q.peerLength == r.peerLength
    && r.peerLength <= r.payloadLength <= MAX_PAYLOAD_SIZE
    && |r.body| == (if r.payloadLength < PEER_LENGTH then 0 else r.payloadLength - PEER_LENGTH)
    && q.bytes[8..8 + r.payloadLength] == r.body + Repeat('\0', r.payloadLength - |r.body|)
  }

  /** The part of a buffer behind the header. */
  lemma BehindHeader(all: string, n: nat)
    requires |all| == CAPACITY && n <= MAX_PAYLOAD_SIZE
    ensures var area := all[4..];
            && |area| == CAPACITY - 4 && area[..n] == all[4..4 + n]
            && area[..4] == all[4..8] && area[4..4 + n] == all[8..8 + n]
            && forall i :: n <= i < |area| ==> area[i] == all[i + 4]
  {
  }

  /** What a payload behind the header leaves in a buffer that was cleared there. */
  lemma PayloadStored(all: string, payload: string)
    requires |all| == CAPACITY && |payload| <= MAX_PAYLOAD_SIZE && all[4..4 + |payload|] == payload
    requires forall i :: 4 + |payload| <= i < CAPACITY ==> all[i] == '\0'
    ensures FieldValue(all[4..8]) == FieldValue(if |payload| < PEER_LENGTH then payload else payload[..PEER_LENGTH])
    ensures var body := if |payload| < PEER_LENGTH then "" else payload[PEER_LENGTH..];
            all[8..8 + |payload|] == body + Repeat('\0', |payload| - |body|)
  {
    BehindHeader(all, |payload|);
    PeerField(all[4..], payload);
    BodyAndZeros(all[4..], payload);
  }

  lemma BodyAndZeros(area: string, payload: string)
    requires 4 + |payload| <= |area| && area[..|payload|] == payload
    requires forall i :: |payload| <= i < |area| ==> area[i] == '\0'
    ensures var body := if |payload| < PEER_LENGTH then "" else payload[PEER_LENGTH..];
            area[4..4 + |payload|] == body + Repeat('\0', |payload| - |body|)
  {
    assert forall i :: 0 <= i < |payload| ==> area[i] == payload[i];
  }

  lemma SliceOfSlice(s: string, from: nat, to: nat, i: nat, j: nat)
    requires from <= to <= |s| && i <= j <= to - from
    ensures s[from..to][i..j] == s[from + i..from + j]
  {
    forall k | 0 <= k < j - i
      ensures s[from..to][i..j][k] == s[from + i..from + j][k]
    {
    }
  }

  /**
   A queued copy gives the peer text of what was received, reading cleared bytes for a peer length beyond the
   body, and behind the peer its data.
   */
  lemma CopyGivesPeerAndData(q: Queued, r: Received, size: nat)
    requires Carries(q, r) && size <= MAX_PAYLOAD_SIZE
    ensures q.PeerData(size) == PeerText(r, size)
    ensures q.PacketData() == if r.peerLength <= |r.body| then r.body[r.peerLength..] else ""
  {
    var area := q.bytes[8..8 + r.payloadLength];
    SliceOfSlice(q.bytes, 8, 8 + r.payloadLength, 0, r.peerLength);
    assert area[0..r.peerLength] == area[..r.peerLength];
    if r.peerLength <= |r.body| {
      assert area[..r.peerLength] == r.body[..r.peerLength];
      SliceOfSlice(q.bytes, 8, 8 + r.payloadLength, r.peerLength, |r.body|);
      assert area[..|r.body|] == r.body;
    } else {
      assert area[..r.peerLength] == r.body + Repeat('\0', r.peerLength - |r.body|);
      CStringPadded(r.body, r.peerLength - |r.body|);
    }
  }

  /** The packet being filled from the TCP socket and the handlers of its reads. */
  class Receiver {
    const packet: RouterPacket
    var phase: Phase
    var received: seq<Received>

    ghost predicate Valid()
      reads this, packet, packet.buffer
    {
      packet.Valid()
      && match phase
         case ReadHeader(got) => got == "" && packet.buffer[..] == Repeat('\0', CAPACITY)
         case ReadPayload(length, got) =>
           got == "" && packet.payloadLength == length && 0 < length <= MAX_PAYLOAD_SIZE
           && packet.buffer[HEADER_LENGTH..] == Repeat('\0', CAPACITY - HEADER_LENGTH)
         case Closed => true
         case Stopped => true
    }

    ghost function State(): (r: Reader)
      reads this
    {
      Reader(phase, received)
    }

    constructor ()
      ensures Valid() && State() == START && fresh(packet) && fresh(packet.buffer)
    {
      packet := new RouterPacket();
      phase := ReadHeader("");
      received := [];
    }

    /** The header read completed. */
    method HandleReadHeader(header: string)
      requires Valid() && phase.ReadHeader? && |header| == HEADER_LENGTH
      modifies this, packet, packet.buffer
      ensures Valid() && State() == Feed(old(State()), header)
    {
      HeaderRead(received, "", header);
      assert "" + header == header;
      packet.Store(0, header);
      assert packet.buffer[..4] == packet.buffer[0..4];
      assert packet.buffer[4..] == Repeat('\0', CAPACITY)[4..] == Repeat('\0', CAPACITY - 4);
      var ok := packet.DecodeHeader();
      if ok && packet.payloadLength > 0 {
        phase := ReadPayload(packet.payloadLength, "");
      } else {
        phase := Closed;
      }
    }

    /** The payload lands behind the header, the peer length is taken out of it, and the packet is copied. */
    method TakePayload(payload: string, garbage: string) returns (taken: Option<Queued>)
      requires Valid() && phase.ReadPayload? && |payload| == phase.length && |garbage| == CAPACITY
      modifies packet, packet.buffer
      ensures taken.Some? <==> Decoded(payload).Some?
      ensures taken.Some? ==> Carries(taken.value, Decoded(payload).value)
      ensures packet.buffer[..] == Repeat('\0', CAPACITY)
    {
      packet.Store(HEADER_LENGTH, payload);
      ghost var n := |payload|;
      forall i | 4 + n <= i < CAPACITY
        ensures packet.buffer[i] == '\0'
      {
        assert packet.buffer[i] == packet.buffer[4 + n..][i - 4 - n] == old(packet.buffer[4 + n..])[i - 4 - n];
        assert old(packet.buffer[i]) == old(packet.buffer[4..])[i - 4];
      }
      PayloadStored(packet.buffer[..], payload);
      var ok := packet.DecodePeer();
      taken := None;
      if ok {
        var copy := packet.Copy(garbage);
        assert copy.bytes[8..8 + n] == copy.bytes[..8 + n][8..];
        taken := Some(copy);
      }
      packet.Clear();
    }

    /** The payload read completed: a copy of the packet is handed over and the next header read starts. */
    method HandleReadPayload(payload: string, garbage: string) returns (queued: Option<Queued>)
      requires Valid() && phase.ReadPayload? && |payload| == phase.length && |garbage| == CAPACITY
      modifies this, packet, packet.buffer
      ensures Valid() && State() == Feed(old(State()), payload)
      ensures queued.Some? <==> |received| == |old(received)| + 1
      ensures queued.Some? ==> Carries(queued.value, received[|received| - 1])
    {
      PayloadRead(received, phase.length, "", payload);
      assert "" + payload == payload;
      queued := TakePayload(payload, garbage);
      if queued.Some? {
        received := received + [Decoded(payload).value];
        phase := ReadHeader("");
      } else {
        phase := Stopped;
      }
    }

    /** A read failed, or the server closed the connection; a payload read without bytes asks for closing twice. */
    method HandleReadError(bytes: nat) returns (closes: nat)
      requires Valid() && (phase.ReadHeader? || phase.ReadPayload?)
      modifies this
      ensures Valid() && State() == old(State()).(phase := Closed)
      ensures closes == if old(phase).ReadPayload? && bytes == 0 then 2 else 1
    {
      closes := 0;
      if phase.ReadPayload? && bytes == 0 {
        closes := closes + 1;
      }
      closes := closes + 1;
      phase := Closed;
    }
  }

  /** The peer's length field in the buffer means what the payload's first bytes mean, however short the payload is. */
  lemma PeerField(area: string, payload: string)
    requires |area| >= PEER_LENGTH && |payload| <= |area| && area[..|payload|] == payload
    requires forall i :: |payload| <= i < |area| ==> area[i] == '\0'
    ensures FieldValue(area[..PEER_LENGTH])
         == FieldValue(if |payload| < PEER_LENGTH then payload else payload[..PEER_LENGTH])
  {
    if |payload| < PEER_LENGTH {
      assert area[..PEER_LENGTH] == payload + Repeat('\0', PEER_LENGTH - |payload|);
      CStringPadded(payload, PEER_LENGTH - |payload|);
    } else {
      assert area[..PEER_LENGTH] == payload[..PEER_LENGTH];
    }
  }
}
