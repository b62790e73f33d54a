/** Peer addresses: their order, their text, and the way back from a frame to the peer it was made for. */
module Address {
  import opened Option
  import opened Text
  import opened Wire
  import opened FrameReader

  type Octet = n: nat | n < 256

  datatype Ipv4 = Ipv4(a: Octet, b: Octet, c: Octet, d: Octet)

  datatype Transport = NoTransport | Udp | Tcp

  datatype AdrTuple = AdrTuple(transport: Transport, address: Ipv4, port: nat)

  // ---------------------------------------------------------------- order

  /** The 32-bit number by which addresses are ordered. */
  function Number(ip: Ipv4): (n: nat) {
    ((ip.a * 256 + ip.b) * 256 + ip.c) * 256 + ip.d
  }

  function Rank(t: Transport): (n: nat) {
    match t
    case NoTransport => 0
    case Udp => 1
    case Tcp => 2
  }

  /** operator<, in the order of its tests. */
  predicate Less(x: AdrTuple, y: AdrTuple) {
    if Rank(x.transport) < Rank(y.transport) then true
    else if Rank(x.transport) > Rank(y.transport) then false
    else if Number(x.address) < Number(y.address) then true
    else if x.address == y.address then x.port < y.port
    else false
  }

  lemma NumberInjective(x: Ipv4, y: Ipv4)
    requires Number(x) == Number(y)
    ensures x == y
  {
    LastDigitSplits((x.a * 256 + x.b) * 256 + x.c, x.d, (y.a * 256 + y.b) * 256 + y.c, y.d);
    LastDigitSplits(x.a * 256 + x.b, x.c, y.a * 256 + y.b, y.c);
    LastDigitSplits(x.a, x.b, y.a, y.b);
  }

  lemma LastDigitSplits(p: nat, x: Octet, q: nat, y: Octet)
    requires p * 256 + x == q * 256 + y
    ensures p == q && x == y
  {
  }

  /** Exactly one of less, equal and greater holds, with equality being operator==. */
  lemma LessIsTotal(x: AdrTuple, y: AdrTuple)
    ensures Less(x, y) || x == y || Less(y, x)
    ensures !(Less(x, y) && Less(y, x)) && !Less(x, x)
  {
    if Number(x.address) == Number(y.address) {
      NumberInjective(x.address, y.address);
    }
  }

  lemma LessIsTransitive(x: AdrTuple, y: AdrTuple, z: AdrTuple)
    requires Less(x, y) && Less(y, z)
    ensures Less(x, z)
  {
    if Number(x.address) == Number(z.address) {
      NumberInjective(x.address, z.address);
    }
  }

  /** The order compares transports, then addresses from the left, then ports. */
  lemma LessMeans(x: AdrTuple, y: AdrTuple)
    ensures x.transport != y.transport ==>
        (Less(x, y) <==> x.transport == NoTransport || (x.transport == Udp && y.transport == Tcp))
    ensures var p, q := x.address, y.address;
            x.transport == y.transport ==>
              (Less(x, y) <==>
                 if p.a != q.a then p.a < q.a
                 else if p.b != q.b then p.b < q.b
                 else if p.c != q.c then p.c < q.c
                 else if p.d != q.d then p.d < q.d
                 else x.port < y.port)
  {
    if Number(x.address) == Number(y.address) {
      NumberInjective(x.address, y.address);
    }
  }

  // ---------------------------------------------------------------- text

  function Dotted(ip: Ipv4): (s: string) {
    Digits(ip.a, 10) + ("." + (Digits(ip.b, 10) + ("." + (Digits(ip.c, 10) + ("." + (Digits(ip.d, 10) + ""))))))
  }

  /** to_string. */
  function TupleText(t: AdrTuple): (s: string) {
    Dotted(t.address) + ":" + Digits(t.port, 10)
  }

  /** One number of a dotted quad: up to three digits, no leading zero, at most 255. */
  function ParseOctet(s: string): (r: Option<(Octet, string)>) {
    var n := LeadingDigits(s);
    if n == 0 || n > 3 || (n > 1 && s[0] == '0') then None
    else
      var v := Value(s[..n], 10);
      if v < 256 then Some((v, s[n..])) else None
  }

  /** Numbers between dots. */
  function ParseNumbers(s: string): (r: Option<seq<Octet>>)
    decreases |s|
  {
    match ParseOctet(s)
    case None => None
    case Some((v, rest)) =>
      if rest == "" then Some([v])
      else if rest[0] != '.' || |rest| >= |s| then None
      else
        match ParseNumbers(rest[1..])
        case None => None
        case Some(numbers) => Some([v] + numbers)
  }

  /** address::from_string for IPv4; it throws on every other text. */
  function ParseIpv4(s: string): (r: Option<Ipv4>) {
    match ParseNumbers(s)
    case None => None
    case Some(numbers) =>
      if |numbers| == 4 then Some(Ipv4(numbers[0], numbers[1], numbers[2], numbers[3])) else None
  }

  lemma {:induction false} NoLeadingZero(v: nat)
    ensures |Digits(v, 10)| > 1 ==> Digits(v, 10)[0] != '0'
  {
    if v >= 10 {
      DivisionShrinks(v, 10);
      NoLeadingZero(v / 10);
      assert Digits(v, 10)[0] == Digits(v / 10, 10)[0];
    }
  }

  lemma ParseOctetOf(v: Octet, rest: string)
    requires rest == "" || !IsDigit(rest[0], 10)
    ensures ParseOctet(Digits(v, 10) + rest) == Some((v, rest))
    ensures 1 <= |Digits(v, 10)| <= 3
  {
    var number := Digits(v, 10);
    var s := number + rest;
    LeadingDigitsOf(number, rest);
    assert Power(10, 3) == 1000;
    DigitsLength(v, 10, 3);
    NoLeadingZero(v);
    DigitsDenote(v, 10);
    assert s[..|number|] == number && s[|number|..] == rest && s[0] == number[0];
  }

  lemma ParseNumbersOf(v: Octet, rest: string, numbers: seq<Octet>)
    requires ParseNumbers(rest) == Some(numbers)
    ensures ParseNumbers(Digits(v, 10) + ("." + rest)) == Some([v] + numbers)
  {
    ParseOctetOf(v, "." + rest);
    assert ("." + rest)[1..] == rest;
  }

  lemma LastNumber(v: Octet)
    ensures ParseNumbers(Digits(v, 10) + "") == Some([v])
  {
    ParseOctetOf(v, "");
  }

  lemma FourNumbers(s: string, a: Octet, b: Octet, c: Octet, d: Octet)
    requires ParseNumbers(s) == Some([a] + [b, c, d])
    ensures ParseIpv4(s) == Some(Ipv4(a, b, c, d))
  {
    assert ParseNumbers(s).value == [a, b, c, d];
  }

  /** Reading the text of an address gives the address. */
  lemma DottedRoundTrip(ip: Ipv4)
    ensures ParseIpv4(Dotted(ip)) == Some(ip)
  {
    var s3 := Digits(ip.d, 10) + "";
    var s2 := Digits(ip.c, 10) + ("." + s3);
    var s1 := Digits(ip.b, 10) + ("." + s2);
    LastNumber(ip.d);
    ParseNumbersOf(ip.c, s3, [ip.d]);
    assert [ip.c] + [ip.d] == [ip.c, ip.d];
    ParseNumbersOf(ip.b, s2, [ip.c, ip.d]);
    assert [ip.b] + [ip.c, ip.d] == [ip.b, ip.c, ip.d];
    ParseNumbersOf(ip.a, s1, [ip.b, ip.c, ip.d]);
    FourNumbers(Dotted(ip), ip.a, ip.b, ip.c, ip.d);
  }

  /** The digits of a number without a leading zero are the number's digits. */
  lemma {:induction false} DigitsOfValue(s: string)
    requires s != "" && AllDigits(s, 10) && (|s| > 1 ==> s[0] != '0')
    ensures Digits(Value(s, 10), 10) == s
    ensures |s| > 1 ==> 10 <= Value(s, 10)
  {
    var front, c := s[..|s| - 1], s[|s| - 1];
    assert IsDigit(c, 10) && s == front + [c];
    if |s| == 1 {
      OneDigit(c);
      assert front == "" && s == [c];
    } else {
      DigitsOfValue(front);
      NotZero(front);
      OneMoreDigit(Value(front, 10), c);
    }
  }

  lemma OneDigit(c: char)
    requires IsDigit(c, 10)
    ensures Digits(DigitValue(c), 10) == [c]
  {
  }

  lemma NotZero(s: string)
    requires s != "" && AllDigits(s, 10) && s[0] != '0' && (|s| > 1 ==> 10 <= Value(s, 10))
    ensures 1 <= Value(s, 10)
  {
    if |s| == 1 {
      assert s[..0] == "" && IsDigit(s[0], 10);
    }
  }

  lemma OneMoreDigit(v: nat, c: char)
    requires 1 <= v && IsDigit(c, 10)
    ensures Digits(v * 10 + DigitValue(c), 10) == Digits(v, 10) + [c]
  {
    var d := DigitValue(c);
    LastDigit(v, d);
    assert DigitChar(d) == c;
  }

  lemma LastDigit(v: nat, d: nat)
    requires d < 10
    ensures (v * 10 + d) / 10 == v && (v * 10 + d) % 10 == d
  {
  }

  lemma OctetOnly(s: string)
    requires ParseOctet(s).Some?
    ensures s == Digits(ParseOctet(s).value.0, 10) + ParseOctet(s).value.1
  {
    var n := LeadingDigits(s);
    assert s == s[..n] + s[n..];
    DigitsOfValue(s[..n]);
  }

  /** The first number of an accepted text, and what follows it. */
  lemma NumbersBegin(s: string) returns (v: Octet, rest: string)
    requires ParseNumbers(s).Some?
    ensures s == Digits(v, 10) + rest && ParseOctet(s) == Some((v, rest))
    ensures rest == "" ==> ParseNumbers(s) == Some([v])
    ensures rest != "" ==>
        && rest[0] == '.' && ParseNumbers(rest[1..]).Some?
        && ParseNumbers(s).value == [v] + ParseNumbers(rest[1..]).value
  {
    OctetOnly(s);
    v, rest := ParseOctet(s).value.0, ParseOctet(s).value.1;
  }

  lemma NotEmpty(s: string)
    requires ParseNumbers(s).Some?
    ensures ParseNumbers(s).value != []
  {
  }

  /** The text of numbers with dots between them. */
  function Joined(numbers: seq<Octet>): (s: string)
    requires numbers != []
  {
    if |numbers| == 1 then Digits(numbers[0], 10) + ""
    else Digits(numbers[0], 10) + ("." + Joined(numbers[1..]))
  }

  lemma {:induction false} NumbersOnly(s: string)
    requires ParseNumbers(s).Some?
    ensures ParseNumbers(s).value != [] && s == Joined(ParseNumbers(s).value)
    decreases |s|
  {
    NotEmpty(s);
    var v, rest := NumbersBegin(s);
    if rest != "" {
      NumbersOnly(rest[1..]);
      JoinedStep(v, rest, ParseNumbers(rest[1..]).value);
    }
  }

  lemma JoinedStep(v: Octet, rest: string, more: seq<Octet>)
    requires more != [] && rest != "" && rest[0] == '.' && rest[1..] == Joined(more)
    ensures Joined([v] + more) == Digits(v, 10) + rest
  {
    assert ([v] + more)[1..] == more && rest == "." + rest[1..];
  }

  lemma DottedIsJoined(ip: Ipv4)
    ensures Dotted(ip) == Joined([ip.a, ip.b, ip.c, ip.d])
  {
    assert [ip.a, ip.b, ip.c, ip.d][1..] == [ip.b, ip.c, ip.d];
    assert [ip.b, ip.c, ip.d][1..] == [ip.c, ip.d] && [ip.c, ip.d][1..] == [ip.d];
    assert Joined([ip.d]) == Digits(ip.d, 10) + "";
    assert Joined([ip.c, ip.d]) == Digits(ip.c, 10) + ("." + Joined([ip.d]));
    assert Joined([ip.b, ip.c, ip.d]) == Digits(ip.b, 10) + ("." + Joined([ip.c, ip.d]));
  }

  /** An address text is accepted exactly when it is the text of an address. */
  lemma ParseIpv4Means(s: string, ip: Ipv4)
    ensures ParseIpv4(s) == Some(ip) <==> s == Dotted(ip)
  {
    DottedRoundTrip(ip);
    if ParseIpv4(s) == Some(ip) {
      NumbersOnly(s);
      DottedIsJoined(ip);
      assert ParseNumbers(s).value == [ip.a, ip.b, ip.c, ip.d];
    }
  }

  lemma DigitsNotIn(v: nat, c: char)
    requires !IsDigit(c, 10)
    ensures c !in Digits(v, 10)
  {
    var s := Digits(v, 10);
    assert forall i :: 0 <= i < |s| ==> IsDigit(s[i], 10);
  }

  lemma DottedPlain(ip: Ipv4, c: char)
    requires !IsDigit(c, 10) && c != '.'
    ensures c !in Dotted(ip)
    ensures 7 <= |Dotted(ip)| <= 15
  {
    DigitsNotIn(ip.a, c);
    DigitsNotIn(ip.b, c);
    DigitsNotIn(ip.c, c);
    DigitsNotIn(ip.d, c);
    ParseOctetOf(ip.a, "");
    ParseOctetOf(ip.b, "");
    ParseOctetOf(ip.c, "");
    ParseOctetOf(ip.d, "");
  }

  // ---------------------------------------------------------------- splitting

  function Colons(s: string): (n: nat)
    ensures n <= |s|
  {
    if s == "" || s[0] != ':' then 0 else 1 + Colons(s[1..])
  }

  function UntilColon(s: string): (n: nat)
    ensures n <= |s|
    ensures ':' !in s[..n]
    ensures n == |s| || s[n] == ':'
  {
    if s == "" || s[0] == ':' then 0
    else
      var n := UntilColon(s[1..]);
      assert s[..1 + n] == [s[0]] + s[1..][..n];
      1 + n
  }

  /**
   split_addr: the first token between colons, and everything behind the colon that ended it. None is strtok's
   null.
   */
  function SplitAddr(s: string): (r: Option<(string, string)>) {
    var t := s[Colons(s)..];
    if t == "" then None
    else
      var n := UntilColon(t);
      Some((t[..n], if n == |t| then "" else t[n + 1..]))
  }

  lemma {:induction false} UntilColonOf(s: string, t: string)
    requires ':' !in s && (t == "" || t[0] == ':')
    ensures UntilColon(s + t) == |s|
  {
    if s == "" {
      assert s + t == t;
    } else {
      UntilColonOf(s[1..], t);
      assert (s + t)[1..] == s[1..] + t;
    }
  }

  lemma SplitAddrOf(ip: string, port: string)
    requires ip != "" && ':' !in ip
    ensures SplitAddr(ip + ":" + port) == Some((ip, port))
  {
    var s := ip + ":" + port;
    assert s == ip + (":" + port) && s[0] == ip[0] && s[0..] == s;
    UntilColonOf(ip, ":" + port);
    assert s[..|ip|] == ip && s[|ip| + 1..] == port;
  }

  /** Splitting the text of a peer gives back its address and port, within the 32 and 8 characters kept for them. */
  lemma TupleTextRoundTrip(t: AdrTuple)
    requires t.port < 0x1_0000
    ensures SplitAddr(TupleText(t)) == Some((Dotted(t.address), Digits(t.port, 10)))
    ensures ParseIpv4(Dotted(t.address)) == Some(t.address) && Port(Digits(t.port, 10)) == t.port
    ensures |Dotted(t.address)| < 32 && |Digits(t.port, 10)| < 8 && 0 < |TupleText(t)| < 22
    ensures '\0' !in TupleText(t)
  {
    var number := Digits(t.port, 10);
    DottedRoundTrip(t.address);
    DottedPlain(t.address, ':');
    DottedPlain(t.address, '\0');
    SplitAddrOf(Dotted(t.address), number);
    PortText(t.port);
    DigitsNotIn(t.port, '\0');
  }

  lemma PortText(port: nat)
    requires port < 0x1_0000
    ensures Port(Digits(port, 10)) == port && |Digits(port, 10)| <= 5
  {
    assert Power(10, 5) == 100_000;
    DigitsLength(port, 10, 5);
    DigitsDenote(port, 10);
    PortOf(Digits(port, 10), port);
  }

  lemma PortOf(number: string, port: nat)
    requires number != "" && AllDigits(number, 10) && Value(number, 10) == port < 0x1_0000
    ensures Port(number) == port
  {
    assert number + "" == number;
    ScanIntPlain(number, "");
    PortIs(number, port);
  }

  lemma PortIs(s: string, port: nat)
    requires ScanInt(s).value == port < 0x1_0000
    ensures Port(s) == port
  {
  }

  /** Two UDP peers with the same text are the same peer. */
  lemma TupleTextInjective(t: AdrTuple, u: AdrTuple)
    requires t.port < 0x1_0000 && u.port < 0x1_0000 && t.transport == u.transport
    requires TupleText(t) == TupleText(u)
    ensures t == u
  {
    TupleTextRoundTrip(t);
    TupleTextRoundTrip(u);
  }

  // ---------------------------------------------------------------- what a received packet is turned into

  datatype Datagram = Datagram(address: Ipv4, port: nat, data: string)

  /** What deliver_to_udp_peer makes of a packet. */
  datatype Outcome =
    | BadPeer                  // no peer text within the buffer: the packet is dropped
    | Fatal                    // a peer text without an address, or with parts too long: the program ends
    | Send(datagram: Datagram)

  const PEER_BUFFER := 128
  const PORT_BUFFER := 8

  /** atoi, stored in an unsigned 16-bit variable. */
  function Port(s: string): (n: nat) {
    ScanInt(s).value % 0x1_0000
  }

  /**
   The endpoint that a peer text names. strtok's null, a text that from_string refuses and a port text that
   leaves no room for its null character all give none; an address that parses is short enough for its buffer.
   */
  function Endpoint(peer: string): (r: Option<(Ipv4, nat)>) {
    match SplitAddr(peer)
    case None => None
    case Some((ip, port)) =>
      match ParseIpv4(ip)
      case None => None
      case Some(address) => if |port| < PORT_BUFFER then Some((address, Port(port))) else None
  }

  function Addressed(r: Received): (o: Outcome) {
    match PeerText(r, PEER_BUFFER)
    case None => BadPeer
    case Some(peer) =>
      match Endpoint(peer)
      case None => Fatal
      case Some((address, port)) =>
        Send(Datagram(address, port, if r.peerLength <= |r.body| then r.body[r.peerLength..] else ""))
  }

  /** What deliver_to_udp_peer does with a queued copy. */
  function OutcomeOf(q: Queued): (o: Outcome) {
    match q.PeerData(PEER_BUFFER)
    case None => BadPeer
    case Some(peer) =>
      match Endpoint(peer)
      case None => Fatal
      case Some((address, port)) => Send(Datagram(address, port, q.PacketData()))
  }

  /** A queued copy is treated as the packet that was received. */
  lemma CopyOutcome(q: Queued, r: Received)
    requires Carries(q, r)
    ensures OutcomeOf(q) == Addressed(r)
  {
    CopyGivesPeerAndData(q, r, PEER_BUFFER);
  }

  /**
   A datagram's frame, read back in whatever segments, is sent to the address and port it came from, with its
   data.
   */
  lemma FrameReturnsToSender(t: AdrTuple, data: string, chunks: seq<string>)
    requires t.port < 0x1_0000 && Deliverable(Packet(TupleText(t), data))
    requires Concat(chunks) == Frame(TupleText(t), data)
    ensures var r := FeedChunks(START, chunks);
            r.phase == ReadHeader("") && |r.received| == 1
            && Addressed(r.received[0]) == Send(Datagram(t.address, t.port, data))
            && DataLength(r.received[0]) == |data|
  {
    var p := Packet(TupleText(t), data);
    SegmentationInvisible(START, chunks);
    FrameRead(p, []);
    assert [] + [AsReceived(p)] == [AsReceived(p)];
    PacketAddressed(t, data);
  }

  lemma PacketAddressed(t: AdrTuple, data: string)
    requires t.port < 0x1_0000 && Deliverable(Packet(TupleText(t), data))
    ensures Addressed(AsReceived(Packet(TupleText(t), data))) == Send(Datagram(t.address, t.port, data))
    ensures DataLength(AsReceived(Packet(TupleText(t), data))) == |data|
  {
    EndpointOfTuple(t);
    AddressedAs(t.address, t.port, TupleText(t), data);
  }

  lemma EndpointOfTuple(t: AdrTuple)
    requires t.port < 0x1_0000
    ensures Endpoint(TupleText(t)) == Some((t.address, t.port))
    ensures '\0' !in TupleText(t) && 0 < |TupleText(t)| < PEER_BUFFER
  {
    TupleTextRoundTrip(t);
    EndpointOf(TupleText(t), Dotted(t.address), Digits(t.port, 10), t.address, t.port);
  }

  lemma EndpointOf(peer: string, ip: string, port: string, address: Ipv4, number: nat)
    requires SplitAddr(peer) == Some((ip, port)) && ParseIpv4(ip) == Some(address)
    requires Port(port) == number && |port| < PORT_BUFFER
    ensures Endpoint(peer) == Some((address, number))
  {
    assert SplitAddr(peer).value.0 == ip;
    assert ParseIpv4(ip).value == address;
  }

  lemma AddressedAs(address: Ipv4, port: nat, peer: string, data: string)
    requires '\0' !in peer && 0 < |peer| < PEER_BUFFER && |data| <= MAX_PAYLOAD_SIZE
    requires Endpoint(peer) == Some((address, port))
    ensures Addressed(AsReceived(Packet(peer, data))) == Send(Datagram(address, port, data))
    ensures DataLength(AsReceived(Packet(peer, data))) == |data|
  {
    var r := AsReceived(Packet(peer, data));
    DeliveredPacket(Packet(peer, data), PEER_BUFFER);
    assert PeerText(r, PEER_BUFFER) == Some(peer);
    assert r.body[|peer|..] == data;
  }

  /** A packet is dropped exactly when its peer is empty or longer than 127 characters. */
  lemma BadPeerExactlyWhen(r: Received)
    ensures Addressed(r) == BadPeer <==> r.peerLength == 0 || 128 <= r.peerLength
  {
  }

  lemma EndpointAs(peer: string, ip: string, port: string)
    requires SplitAddr(peer) == Some((ip, port))
    ensures Endpoint(peer)
         == if |port| < 8 && ParseIpv4(ip).Some? then Some((ParseIpv4(ip).value, Port(port))) else None
  {
    assert SplitAddr(peer).value.0 == ip;
  }

  lemma SplitColons(colons: nat, s: string)
    requires s == "" || s[0] != ':'
    ensures SplitAddr(Repeat(':', colons) + s) == SplitAddr(s)
  {
    ColonsSkipped(colons, s);
  }

  lemma SplitWithout(ip: string)
    requires ip != "" && ':' !in ip
    ensures SplitAddr(ip) == Some((ip, ""))
  {
    UntilColonOf(ip, "");
    assert ip + "" == ip && ip[..|ip|] == ip && ip[0..] == ip;
  }

  /**
   A peer text names what stands in front of its first colon, as an address, and behind it, as a port of less
   than eight characters; colons in front of all are skipped.
   */
  lemma EndpointMeans(colons: nat, ip: string, port: string)
    requires ip != "" && ':' !in ip
    ensures Endpoint(Repeat(':', colons) + (ip + ":" + port))
         == if |port| < 8 && ParseIpv4(ip).Some? then Some((ParseIpv4(ip).value, Port(port))) else None
  {
    SplitColons(colons, ip + ":" + port);
    SplitAddrOf(ip, port);
    EndpointAs(Repeat(':', colons) + (ip + ":" + port), ip, port);
  }

  /** Without a colon behind the address the port is 0; colons alone name nothing. */
  lemma EndpointWithoutPort(colons: nat, ip: string)
    requires ip != "" && ':' !in ip
    ensures Endpoint(Repeat(':', colons) + ip)
         == if ParseIpv4(ip).Some? then Some((ParseIpv4(ip).value, 0)) else None
    ensures Endpoint(Repeat(':', colons)) == None
  {
    SplitColons(colons, ip);
    SplitColons(colons, "");
    assert Repeat(':', colons) + "" == Repeat(':', colons);
    SplitWithout(ip);
    EndpointAs(Repeat(':', colons) + ip, ip, "");
    NoPort();
  }

  lemma NoPort()
    ensures Port("") == 0
  {
  }

  lemma {:induction false} ColonsSkipped(n: nat, s: string)
    requires s == "" || s[0] != ':'
    ensures Colons(Repeat(':', n) + s) == n && (Repeat(':', n) + s)[n..] == s && s[Colons(s)..] == s
  {
    if n == 0 {
      assert Repeat(':', n) + s == s;
    } else {
      ColonsSkipped(n - 1, s);
      assert (Repeat(':', n) + s)[1..] == Repeat(':', n - 1) + s;
    }
  }

  lemma DigitExamples()
    ensures Digits(0, 10) == "0" && Digits(1, 10) == "1" && Digits(10, 10) == "10"
  {
  }

  lemma FiveThousand()
    ensures Digits(5000, 10) == "5000"
  {
    assert Digits(5, 10) == "5" && Digits(50, 10) == "50" && Digits(500, 10) == "500";
  }

  /** The text of a peer. */
  lemma TextExample()
    ensures TupleText(AdrTuple(Udp, Ipv4(10, 0, 0, 1), 5000)) == "10.0.0.1:5000"
  {
    DigitExamples();
    FiveThousand();
  }

  /** A port number is kept modulo 65536. */
  lemma PortWraps(number: string)
    requires number != "" && AllDigits(number, 10)
    ensures Port(number) == Value(number, 10) % 65536
  {
    assert number + "" == number;
    ScanIntPlain(number, "");
    PortOfScan(number, Value(number, 10));
  }

  lemma PortOfScan(s: string, v: int)
    requires ScanInt(s).value == v
    ensures Port(s) == v % 65536
  {
  }

  /** A frame with peer text x is enough to end the program. */
  lemma UnparsablePeerIsFatal()
    ensures Addressed(AsReceived(Packet("x", ""))) == Fatal
  {
    var r := AsReceived(Packet("x", ""));
    DeliveredPacket(Packet("x", ""), PEER_BUFFER);
    assert PeerText(r, PEER_BUFFER) == Some("x");
    assert UntilColon("x") == 1 && "x"[0..] == "x" && "x"[..1] == "x";
    assert ParseOctet("x").None?;
  }
}
