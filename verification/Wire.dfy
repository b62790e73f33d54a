/** The router's frames: two 4-character decimal lengths, the peer text, the data. */
module Wire {
  import opened Option
  import opened Text

  const HEADER_LENGTH := 4
  const PEER_LENGTH := 4
  const MAX_PAYLOAD_SIZE := 1024
  const CAPACITY := HEADER_LENGTH + PEER_LENGTH + MAX_PAYLOAD_SIZE
  const UINT32 := 0x1_0000_0000

  /** The text of a C string that starts here and is read for at most the given characters. */
  function CString(s: string): (r: string)
    ensures |r| <= |s|
  {
    if s == "" || s[0] == '\0' then "" else [s[0]] + CString(s[1..])
  }

  /** atoi of a length field, stored in an unsigned 32-bit variable. */
  function FieldValue(field: string): (v: nat) {
    ScanInt(CString(field)).value % UINT32
  }

  /** sprintf("%4d", ...), of which four characters are copied. */
  function Field(n: nat): (s: string)
    ensures |s| == 4
  {
    PadLeft(' ', Digits(n, 10), 4)[..4]
  }

  function Frame(peer: string, data: string): (s: string)
    ensures |s| == HEADER_LENGTH + PEER_LENGTH + |peer| + |data|
  {
    Field(|peer| + |data| + PEER_LENGTH) + Field(|peer|) + peer + data
  }

  lemma {:induction false} CStringOf(s: string)
    requires '\0' !in s
    ensures CString(s) == s
  {
    if s != "" {
      CStringOf(s[1..]);
    }
  }

  lemma FieldText(n: nat)
    requires n < 10_000
    ensures |Digits(n, 10)| <= 4 && Field(n) == Repeat(' ', 4 - |Digits(n, 10)|) + (Digits(n, 10) + "")
  {
    assert Power(10, 4) == 10_000;
    DigitsLength(n, 10, 4);
    assert Digits(n, 10) + "" == Digits(n, 10);
  }

  lemma NoNull(pad: nat, number: string)
    requires AllDigits(number, 10)
    ensures '\0' !in Repeat(' ', pad) + (number + "")
  {
    var s := Repeat(' ', pad) + (number + "");
    forall i | 0 <= i < |s|
      ensures s[i] != '\0'
    {
      if i >= pad {
        assert s[i] == number[i - pad] && IsDigit(number[i - pad], 10);
      }
    }
  }

  /** A length of up to four digits survives the field. */
  lemma FieldRoundTrip(n: nat)
    requires n < 10_000
    ensures FieldValue(Field(n)) == n
  {
    var number := Digits(n, 10);
    FieldText(n);
    NoNull(4 - |number|, number);
    DigitsDenote(n, 10);
    FieldOf(Field(n), 4 - |number|, number);
  }

  lemma FieldOf(field: string, pad: nat, number: string)
    requires field == Repeat(' ', pad) + (number + "") && '\0' !in field
    requires number != "" && AllDigits(number, 10) && Value(number, 10) < 10_000
    ensures FieldValue(field) == Value(number, 10)
  {
    CStringOf(field);
    ScanIntOf(field, pad, number, "");
    assert ScanInt(CString(field)) == Scanned(Value(number, 10), pad + |number|);
  }

  /** A frame, character by character: two lengths, right-aligned in four characters each, then peer and data. */
  lemma FrameLayout(peer: string, data: string)
    requires |peer| + |data| + 4 < 10_000
    ensures var f := Frame(peer, data);
            var payload, own := Digits(|peer| + |data| + 4, 10), Digits(|peer|, 10);
            && |f| == 8 + |peer| + |data| && |payload| <= 4 && |own| <= 4
            && f[..4] == Repeat(' ', 4 - |payload|) + payload
            && f[4..8] == Repeat(' ', 4 - |own|) + own
            && f[8..8 + |peer|] == peer && f[8 + |peer|..] == data
  {
    FieldText(|peer| + |data| + 4);
    FieldText(|peer|);
    assert Digits(|peer|, 10) + "" == Digits(|peer|, 10);
    assert Digits(|peer| + |data| + 4, 10) + "" == Digits(|peer| + |data| + 4, 10);
    FrameParts(Field(|peer| + |data| + 4), Field(|peer|), peer, data);
  }

  lemma FrameParts(a: string, b: string, peer: string, data: string)
    requires |a| == 4 && |b| == 4
    ensures var f := a + b + peer + data;
            && f[..4] == a && f[4..8] == b && f[8..8 + |peer|] == peer && f[8 + |peer|..] == data
  {
  }

  /** A field that does not start with a number counts as 0; the number ends at the first other character. */
  lemma FieldMeans(pad: nat, number: string, rest: string)
    requires number != "" && AllDigits(number, 10) && (rest == "" || !IsDigit(rest[0], 10)) && '\0' !in rest
    requires Value(number, 10) < UINT32
    ensures FieldValue(Repeat(' ', pad) + (number + rest)) == Value(number, 10)
    ensures 0 < Value(number, 10) ==> FieldValue("-" + (number + rest)) == UINT32 - Value(number, 10)
    ensures rest != "" && !IsSpace(rest[0]) && rest[0] != '-' && rest[0] != '+' ==> FieldValue(rest) == 0
  {
    var padded, negative := Repeat(' ', pad) + (number + rest), "-" + (number + rest);
    NoNullIn(padded, pad, number, rest);
    NoNullIn(negative, 1, number, rest);
    CStringOf(padded);
    CStringOf(negative);
    CStringOf(rest);
    ScanIntOf(padded, pad, number, rest);
    ScanIntNegative(number, rest);
    FieldIs(padded, Value(number, 10));
    FieldIs(negative, -(Value(number, 10) as int));
    if rest != "" && !IsSpace(rest[0]) && rest[0] != '-' && rest[0] != '+' {
      assert rest[0..] == rest;
      FieldIs(rest, 0);
    }
  }

  lemma FieldIs(field: string, v: int)
    requires ScanInt(CString(field)).value == v && -UINT32 < v < UINT32
    ensures FieldValue(field) == if v < 0 then UINT32 + v else v
  {
    Wraps(v);
    FieldWraps(field, v % UINT32);
  }

  lemma Wraps(v: int)
    requires -UINT32 < v < UINT32
    ensures v % UINT32 == if v < 0 then UINT32 + v else v
  {
  }

  lemma FieldWraps(field: string, w: nat)
    requires ScanInt(CString(field)).value % UINT32 == w
    ensures FieldValue(field) == w
  {
  }

  lemma NoNullIn(s: string, front: nat, number: string, rest: string)
    requires AllDigits(number, 10) && '\0' !in rest && front <= |s| && s[front..] == number + rest
    requires forall i :: 0 <= i < front ==> s[i] != '\0'
    ensures '\0' !in s
  {
    forall i | 0 <= i < |s|
      ensures s[i] != '\0'
    {
      if front <= i < front + |number| {
        assert s[i] == (number + rest)[i - front] == number[i - front] && IsDigit(number[i - front], 10);
      } else if front + |number| <= i {
        assert s[i] == (number + rest)[i - front] == rest[i - front - |number|];
      }
    }
  }

  // ---------------------------------------------------------------- what fits the buffer

  /** Behind the last byte that set_packet_data stores. */
  function EncodeEnd(peer: string, data: string): (n: nat) {
    HEADER_LENGTH + PEER_LENGTH + |peer| + |data|
  }

  /** Behind the last byte that the copy constructor then reads and writes: the peer length is counted twice. */
  function CopyEnd(peer: string, data: string): (n: nat) {
    HEADER_LENGTH + PEER_LENGTH + (|peer| + |data| + PEER_LENGTH)
  }

  /** Encoding stays in the buffer exactly up to 1024 bytes of peer and data, copying exactly up to 1020. */
  lemma InBoundsExactlyWhen(peer: string, data: string)
    ensures EncodeEnd(peer, data) <= CAPACITY <==> |peer| + |data| <= MAX_PAYLOAD_SIZE
    ensures CopyEnd(peer, data) <= CAPACITY <==> |peer| + |data| + PEER_LENGTH <= MAX_PAYLOAD_SIZE
  {
  }

  /** A datagram of 1010 bytes from 10.0.0.1:5000 is encoded in bounds and copied out of bounds. */
  lemma CopyOverruns()
    ensures var peer, data := "10.0.0.1:5000", Repeat('d', 1010);
            EncodeEnd(peer, data) <= CAPACITY < CopyEnd(peer, data)
  {
  }

  // ---------------------------------------------------------------- packets in a queue

  /** An element of a packet queue, which holds its packets by value; its payload length is within the limit. */
  type Queued = q: PacketValue | |q.bytes| == CAPACITY && q.payloadLength <= MAX_PAYLOAD_SIZE
    witness PacketValue(0, 0, seq(CAPACITY, _ => '\0'))

  datatype PacketValue = PacketValue(payloadLength: nat, peerLength: nat, bytes: string) {
    /** get_peer_data for a caller with room for size characters; a missing or long peer is refused. */
    function PeerData(size: nat): (peer: Option<string>)
      requires |bytes| == CAPACITY && size <= MAX_PAYLOAD_SIZE
    {
      if 0 < peerLength < size then Some(CString(bytes[8..8 + peerLength])) else None
    }

    /** get_packet_data for packet_data_length bytes, where that unsigned length has not wrapped around. */
    function PacketData(): (data: string)
      requires |bytes| == CAPACITY && payloadLength <= MAX_PAYLOAD_SIZE
    {
      if peerLength + PEER_LENGTH <= payloadLength then bytes[8 + peerLength..4 + payloadLength] else ""
    }
  }

  // ---------------------------------------------------------------- the packet buffer

  lemma BodyStored(all: string, withPeer: string, payload: string, peer: string, data: string)
    requires 8 + |peer| + |data| <= |all| && all[..8 + |peer|] == withPeer && withPeer[8..] == peer
    requires all[8 + |peer|..8 + |peer| + |data|] == data && payload == all[8..]
    ensures payload[..|peer| + |data|] == peer + data
  {
    assert payload[..|peer|] == all[..8 + |peer|][8..];
    assert payload[|peer|..|peer| + |data|] == all[8 + |peer|..8 + |peer| + |data|];
    assert payload[..|peer| + |data|] == payload[..|peer|] + payload[|peer|..|peer| + |data|];
  }

  lemma FrameStored(all: string, payload: string, peer: string, data: string)
    requires 8 + |peer| + |data| <= |all| && all[8..] == payload && payload[..|peer| + |data|] == peer + data
    requires all[..4] == Field(|peer| + |data| + PEER_LENGTH) && all[4..8] == Field(|peer|)
    ensures all[..8 + |peer| + |data|] == Frame(peer, data)
  {
    var n := 8 + |peer| + |data|;
    assert all[8..n] == payload[..|peer| + |data|];
    assert all[..n] == all[..4] + all[4..8] + all[8..n];
    assert Frame(peer, data) == Field(|peer| + |data| + PEER_LENGTH) + Field(|peer|) + (peer + data);
  }

  class RouterPacket {
    var payloadLength: nat
    var peerLength: nat
    const buffer: array<char>

    ghost predicate Valid() {
      buffer.Length == CAPACITY
    }

    constructor ()
      ensures Valid() && fresh(buffer) && payloadLength == 0 && peerLength == 0
      ensures buffer[..] == Repeat('\0', CAPACITY)
    {
      buffer := new char[CAPACITY](_ => '\0');
      payloadLength, peerLength := 0, 0;
    }

    method Clear()
      requires Valid()
      modifies this, buffer
      ensures payloadLength == 0 && peerLength == 0 && buffer[..] == Repeat('\0', CAPACITY)
    {
      payloadLength, peerLength := 0, 0;
      forall i | 0 <= i < buffer.Length {
        buffer[i] := '\0';
      }
    }

    method Store(at: nat, s: string)
      requires Valid() && at + |s| <= CAPACITY
      modifies buffer
      ensures buffer[..at] == old(buffer[..at]) && buffer[at..at + |s|] == s
      ensures buffer[at + |s|..] == old(buffer[at + |s|..])
    {
      forall i | 0 <= i < |s| {
        buffer[at + i] := s[i];
      }
    }

    method SetPeerData(peer: string)
      requires Valid() && |peer| <= MAX_PAYLOAD_SIZE
      modifies this`peerLength, buffer
      ensures peerLength == |peer| && buffer[8..8 + |peer|] == peer && buffer[..8] == old(buffer[..8])
    {
      peerLength := |peer|;
      Store(HEADER_LENGTH + PEER_LENGTH, peer);
    }

    method SetPacketData(data: string)
      requires Valid() && peerLength + |data| <= MAX_PAYLOAD_SIZE
      modifies this`payloadLength, buffer
      ensures payloadLength == |data| + peerLength + PEER_LENGTH
      ensures buffer[..8 + peerLength] == old(buffer[..8 + peerLength])
      ensures buffer[8 + peerLength..8 + peerLength + |data|] == data
    {
      payloadLength := |data| + peerLength + PEER_LENGTH;
      Store(HEADER_LENGTH + PEER_LENGTH + peerLength, data);
    }

    method EncodeHeader()
      requires Valid()
      modifies buffer
      ensures buffer[..4] == Field(payloadLength) && buffer[4..8] == Field(peerLength)
      ensures buffer[8..] == old(buffer[8..])
    {
      Store(0, Field(payloadLength));
      Store(HEADER_LENGTH, Field(peerLength));
      assert buffer[..4] == buffer[..4][0..4];
    }

    /** How a datagram becomes a frame: the bytes that are later written to the TCP peer. */
    method Encode(peer: string, data: string)
      requires Valid() && |peer| + |data| <= MAX_PAYLOAD_SIZE
      modifies this, buffer
      ensures payloadLength == |peer| + |data| + PEER_LENGTH && peerLength == |peer|
      ensures buffer[..HEADER_LENGTH + payloadLength] == Frame(peer, data)
    {
      SetPeerData(peer);
      ghost var withPeer := buffer[..8 + |peer|];
      assert withPeer[8..] == peer;
      SetPacketData(data);
      ghost var payload := buffer[8..];
      BodyStored(buffer[..], withPeer, payload, peer, data);
      EncodeHeader();
      FrameStored(buffer[..], payload, peer, data);
    }

    /** The whole header is checked against the buffer's size. */
    method DecodeHeader() returns (ok: bool)
      requires Valid()
      modifies this`payloadLength
      ensures ok <==> FieldValue(buffer[..4]) <= MAX_PAYLOAD_SIZE
      ensures payloadLength == if ok then FieldValue(buffer[..4]) else 0
    {
      payloadLength := FieldValue(buffer[..HEADER_LENGTH]);
      if payloadLength > MAX_PAYLOAD_SIZE {
        payloadLength := 0;
        return false;
      }
      return true;
    }

    method DecodePeer() returns (ok: bool)
      requires Valid()
      modifies this`peerLength
      ensures ok <==> FieldValue(buffer[4..8]) <= payloadLength
      ensures peerLength == if ok then FieldValue(buffer[4..8]) else 0
    {
      peerLength := FieldValue(buffer[HEADER_LENGTH..HEADER_LENGTH + PEER_LENGTH]);
      if peerLength > payloadLength {
        peerLength := 0;
        return false;
      }
      return true;
    }

    /** A copy for a queue: only the frame's bytes are copied, the rest of the new buffer is whatever it was. */
    method Copy(garbage: string) returns (q: Queued)
      requires Valid() && payloadLength <= MAX_PAYLOAD_SIZE && |garbage| == CAPACITY
      ensures q.payloadLength == payloadLength && q.peerLength == peerLength
      ensures 0 < payloadLength ==> q.bytes[..8 + payloadLength] == buffer[..8 + payloadLength]
    {
      var n := if payloadLength > 0 then HEADER_LENGTH + PEER_LENGTH + payloadLength else 0;
      q := PacketValue(payloadLength, peerLength, buffer[..n] + garbage[n..]);
    }
  }
}
