/** The SOCKS request handling of `SSHOverWebSocket.open_socks_proxy`
    (`handle_socks_client` up to the `open_channel` call): version dispatch,
    the SOCKS4 and SOCKS5 request parsers, the replies each outcome sends,
    and the channel opened to the parsed destination. */
module SshConnector {
  import opened Common
  import Decimal
  import Utf8

  /** The size passed to every `client_sock.recv`. */
  const RecvSize: nat := 1024

  // ---------------------------------------------------------------------
  // Requests and replies
  // ---------------------------------------------------------------------

  /** The `host` handed to `open_channel`: the text `inet_ntoa` makes of an
      IPv4 address, or a domain name kept as the UTF-8 bytes it decoded from. */
  datatype Host = Ipv4Literal(text: string) | DomainName(utf8: seq<byte>)

  datatype Destination = Destination(host: Host, port: int)

  /** Why a request is dropped: an index or slice ran past the data (an
      `IndexError`, `struct.error` or `OSError` in `handle_socks_client`), an address
      type other than 1 or 3, or a domain that `.decode()` rejects. */
  datatype RequestError = Truncated | UnsupportedAddressType(atyp: byte) | DomainNotUtf8

  /** `struct.unpack('>H', bytes([hi, lo]))[0]`. */
  function Port(hi: byte, lo: byte): (p: nat)
    ensures p < 65536
  {
    hi * 256 + lo
  }

  /** The two bytes of a port in network order. */
  function PortBytes(port: nat): (b: seq<byte>)
    requires port < 65536
    ensures |b| == 2 && Port(b[0], b[1]) == port
  {
    [port / 256, port % 256]
  }

  /** `socket.inet_ntoa(ip)`: four decimal octets joined by dots. */
  function DottedQuad(ip: seq<byte>): string
    requires |ip| == 4
  {
    Decimal.NatToString(ip[0]) + "." + Decimal.NatToString(ip[1]) + "." +
    Decimal.NatToString(ip[2]) + "." + Decimal.NatToString(ip[3])
  }

  /** SOCKS5 method selection: version 5, "no authentication required". */
  const Socks5NoAuth: seq<byte> := [5, 0]

  /** SOCKS5 "succeeded" with an all-zero IPv4 bound address and port. */
  const Socks5Succeeded: seq<byte> := [5, 0, 0, 1, 0, 0, 0, 0, 0, 0]

  /** SOCKS4 "request granted": `00 5A`, then the port and address bytes of
      the request echoed back. */
  function Socks4Granted(data: seq<byte>): seq<byte>
    requires |data| >= 8
  {
    [0, 0x5A] + data[2..8]
  }

  /** The SOCKS4 branch: port from bytes 2-3, address from bytes 4-7; the
      command byte and the user id are never looked at. */
  function ParseSocks4(data: seq<byte>): Result<Destination, RequestError>
  {
    if |data| < 8 then Failure(Truncated)
    else Success(Destination(Ipv4Literal(DottedQuad(data[4..8])), Port(data[2], data[3])))
  }

  /** The SOCKS5 connect request, read with the cursor `idx` of `handle_socks_client`:
      the address type is byte 3; type 1 takes four address bytes at 4, type 3
      a length byte at 4 and that many name bytes after it; the port is the
      two bytes that follow. Version, command and reserved bytes are never
      looked at, and nothing after the port either. */
  function ParseSocks5Request(req: seq<byte>): Result<Destination, RequestError>
  {
    if |req| < 4 then Failure(Truncated)
    else
      var atyp := req[3];
      if atyp == 1 then
        if |req| < 8 then Failure(Truncated)
        else ParsePort(req, 8, Ipv4Literal(DottedQuad(req[4..8])))
      else if atyp == 3 then
        if |req| < 5 then Failure(Truncated)
        else
          var len: nat := req[4];
          // a slice past the end is cut short, not an error
          var domain := req[5..Min(5 + len, |req|)];
          if !Utf8.IsValid(domain) then Failure(DomainNotUtf8)
          else ParsePort(req, 5 + len, DomainName(domain))
      else Failure(UnsupportedAddressType(atyp))
  }

  /** `struct.unpack('>H', req[idx:idx+2])`, raising unless two bytes are there. */
  function ParsePort(req: seq<byte>, idx: nat, host: Host): Result<Destination, RequestError>
  {
    if |req| < idx + 2 then Failure(Truncated)
    else Success(Destination(host, Port(req[idx], req[idx + 1])))
  }

  // ---------------------------------------------------------------------
  // The client's bytes
  // ---------------------------------------------------------------------

  /** What `recv(n)` returns when the client's bytes arrive in the segments
      `arrivals`: up to `n` bytes of the first segment; empty once the client
      has closed. */
  function Take(arrivals: seq<seq<byte>>, n: nat): (chunk: seq<byte>)
    ensures |chunk| <= n
  {
    if arrivals == [] then [] else arrivals[0][..Min(n, |arrivals[0]|)]
  }

  /** The segments left after `recv(n)`. */
  function Drop(arrivals: seq<seq<byte>>, n: nat): seq<seq<byte>>
  {
    if arrivals == [] then []
    else if n >= |arrivals[0]| then arrivals[1..]
    else [arrivals[0][n..]] + arrivals[1..]
  }

  /** The segments left after `k` calls of `recv(n)`. */
  function DropTimes(arrivals: seq<seq<byte>>, n: nat, k: nat): seq<seq<byte>>
    decreases k
  {
    if k == 0 then arrivals else DropTimes(Drop(arrivals, n), n, k - 1)
  }

  // ---------------------------------------------------------------------
  // The negotiation
  // ---------------------------------------------------------------------

  /** One thing the handler does to its client: a `recv` with what it
      returned (empty once the client has closed), a `sendall` with its
      data, an `open_channel` request to a destination, or `close`. */
  datatype Event = Read(data: seq<byte>) | Replied(data: seq<byte>) | ChannelRequested(dest: Destination) | Closed

  /** What `handle_socks_client` does with a client before opening a channel:
      its reads and replies, in order, the destination it will open a channel
      to (none when it closes the client instead), and how many `recv` calls
      it makes. */
  datatype Negotiation = Negotiation(steps: seq<Event>, dest: Option<Destination>, recvs: nat)

  function Negotiate(arrivals: seq<seq<byte>>): Negotiation
  {
    var data := Take(arrivals, RecvSize);
    if data == [] then Negotiation([Read(data)], None, 1)
    else if data[0] == 4 then
      match ParseSocks4(data)
      case Success(d) => Negotiation([Read(data), Replied(Socks4Granted(data))], Some(d), 1)
      case Failure(_) => Negotiation([Read(data)], None, 1)
    else if data[0] == 5 then
      var req := Take(Drop(arrivals, RecvSize), RecvSize);
      var greeted := [Read(data), Replied(Socks5NoAuth), Read(req)];
      match ParseSocks5Request(req)
      case Success(d) => Negotiation(greeted + [Replied(Socks5Succeeded)], Some(d), 2)
      case Failure(_) => Negotiation(greeted, None, 2)
    else Negotiation([Read(data)], None, 1)
  }

  /** The data of every reply among `events`, in order. */
  function RepliesIn(events: seq<Event>): seq<seq<byte>>
  {
    if events == [] then []
    else (if events[0].Replied? then [events[0].data] else []) + RepliesIn(events[1..])
  }

  /** The events of a negotiation: its reads and replies; then either
      `close`, or the channel request, followed by `close` when the channel
      is refused. */
  function Events(n: Negotiation, refused: set<Destination>): seq<Event>
  {
    n.steps +
    match n.dest
    case None => [Closed]
    case Some(d) => [ChannelRequested(d)] + (if d in refused then [Closed] else [])
  }

  // ---------------------------------------------------------------------
  // The handler
  // ---------------------------------------------------------------------

  /** An accepted client socket together with the session's `open_channel`
      as this client sees it: the segments the client still sends, the
      events so far, and the destinations whose channel the server refuses
      (for which `open_channel` raises). */
  class Connection {
    var arrivals: seq<seq<byte>>
    var events: seq<Event>
    const refused: set<Destination>

    constructor (arrivals: seq<seq<byte>>, refused: set<Destination>)
      ensures this.arrivals == arrivals && this.refused == refused && events == []
    {
      this.arrivals := arrivals;
      this.refused := refused;
      events := [];
    }

    /** `client_sock.recv(n)`. */
    method Recv(n: nat) returns (chunk: seq<byte>)
      modifies this`arrivals, this`events
      ensures chunk == Take(old(arrivals), n) && arrivals == Drop(old(arrivals), n)
      ensures events == old(events) + [Read(chunk)]
    {
      chunk := Take(arrivals, n);
      arrivals := Drop(arrivals, n);
      events := events + [Read(chunk)];
    }

    /** `client_sock.sendall(data)`. */
    method SendAll(data: seq<byte>)
      modifies this`events
      ensures events == old(events) + [Replied(data)]
    {
      events := events + [Replied(data)];
    }

    /** `client_sock.close()`. */
    method Close()
      modifies this`events
      ensures events == old(events) + [Closed]
    {
      events := events + [Closed];
    }

    /** `self.transport.open_channel("direct-tcpip", (host, port), ...)`;
        `ok` is false when it raises. */
    method OpenChannel(d: Destination) returns (ok: bool)
      modifies this`events
      ensures ok == (d !in refused)
      ensures events == old(events) + [ChannelRequested(d)]
    {
      events := events + [ChannelRequested(d)];
      ok := d !in refused;
    }
  }

  /** `handle_socks_client`, up to the start of forwarding. */
  method HandleSocksClient(client: Connection)
    modifies client
    ensures var n := Negotiate(old(client.arrivals));
            client.events == old(client.events) + Events(n, client.refused) &&
            client.arrivals == DropTimes(old(client.arrivals), RecvSize, n.recvs)
  {
    ghost var arrivals := client.arrivals;
    ghost var before := client.events;
    var data := client.Recv(RecvSize);
    if data == [] {
      client.Close();
      return;
    }
    var dest: Destination;
    var version := data[0];
    if version == 4 {
      match ParseSocks4(data)
      case Failure(_) =>
        client.Close();
        return;
      case Success(d) =>
        client.SendAll(Socks4Granted(data));
        dest := d;
    } else if version == 5 {
      client.SendAll(Socks5NoAuth);
      var req := client.Recv(RecvSize);
      assert client.arrivals == DropTimes(arrivals, RecvSize, 2);
      match ParseSocks5Request(req)
      case Failure(_) =>
        client.Close();
        return;
      case Success(d) =>
        client.SendAll(Socks5Succeeded);
        dest := d;
    } else {
      client.Close();
      return;
    }
    var ok := client.OpenChannel(dest);
    if !ok {
      client.Close();
    }
  }

  // ---------------------------------------------------------------------
  // What a client sees
  // ---------------------------------------------------------------------

  /** A client that sends nothing, or a first byte other than 4 or 5, is
      read once and closed, without a reply and without a channel. */
  lemma UnknownClientClosed(arrivals: seq<seq<byte>>, refused: set<Destination>)
    requires Take(arrivals, RecvSize) == [] || Take(arrivals, RecvSize)[0] !in {4, 5}
    ensures Events(Negotiate(arrivals), refused) == [Read(Take(arrivals, RecvSize)), Closed]
    ensures RepliesIn(Events(Negotiate(arrivals), refused)) == []
  {
    assert RepliesIn([Closed]) == [];
  }

  /** A SOCKS4 request shorter than its fixed eight-byte header raises
      while it is parsed: the client is closed with no reply and no channel. */
  lemma Socks4ShortClosed(arrivals: seq<seq<byte>>, refused: set<Destination>)
    requires Take(arrivals, RecvSize) != [] && Take(arrivals, RecvSize)[0] == 4
    requires |Take(arrivals, RecvSize)| < 8
    ensures Events(Negotiate(arrivals), refused) == [Read(Take(arrivals, RecvSize)), Closed]
    ensures RepliesIn(Events(Negotiate(arrivals), refused)) == []
  {
    assert RepliesIn([Closed]) == [];
  }

  /** Any first chunk of at least eight bytes that starts with 4 is granted,
      however long the request was: only the first `recv(1024)` is parsed,
      the reply echoes bytes 2 to 7, and the channel goes to the dotted quad
      of bytes 4 to 7 and the big-endian port of bytes 2 and 3. */
  lemma Socks4FirstChunkGranted(arrivals: seq<seq<byte>>)
    requires |Take(arrivals, RecvSize)| >= 8 && Take(arrivals, RecvSize)[0] == 4
    ensures var c := Take(arrivals, RecvSize);
            Negotiate(arrivals)
            == Negotiation([Read(c), Replied([0, 0x5A] + c[2..8])],
                           Some(Destination(Ipv4Literal(DottedQuad(c[4..8])), Port(c[2], c[3]))), 1)
  {
  }

  /** Every SOCKS5 client gets `05 00` right after its greeting is read,
      whatever methods it offered, and before its connect request is read. */
  lemma Socks5GreetingFirst(arrivals: seq<seq<byte>>)
    requires Take(arrivals, RecvSize) != [] && Take(arrivals, RecvSize)[0] == 5
    ensures var n := Negotiate(arrivals);
            |n.steps| >= 3 &&
            n.steps[..3] == [Read(Take(arrivals, RecvSize)), Replied(Socks5NoAuth),
                             Read(Take(Drop(arrivals, RecvSize), RecvSize))] &&
            n.recvs == 2
  {
  }

  /** A destination is chosen only together with a success reply, which is
      the last thing done before the channel is requested; its port is a
      16-bit number. */
  lemma ChannelOnlyAfterSuccess(arrivals: seq<seq<byte>>)
    requires Negotiate(arrivals).dest.Some?
    ensures var n := Negotiate(arrivals);
            |n.steps| >= 2 && n.steps[|n.steps| - 1].Replied? &&
            (n.steps[|n.steps| - 1].data == Socks5Succeeded ||
             n.steps[|n.steps| - 1].data[..2] == [0, 0x5A]) &&
            0 <= n.dest.value.port < 65536
  {
    var data := Take(arrivals, RecvSize);
    if data[0] == 4 {
      assert Negotiate(arrivals).steps == [Read(data), Replied(Socks4Granted(data))];
    }
  }

  /** In the events of any negotiation, a channel is requested at most once,
      only after every read and reply has happened, and only to the
      negotiated destination. */
  lemma ChannelRequestedAfterReplies(arrivals: seq<seq<byte>>, refused: set<Destination>)
    ensures var n := Negotiate(arrivals);
            forall i :: 0 <= i < |Events(n, refused)| && Events(n, refused)[i].ChannelRequested? ==>
              i == |n.steps| && n.dest == Some(Events(n, refused)[i].dest)
    ensures var n := Negotiate(arrivals);
            forall i :: 0 <= i < |n.steps| ==> Events(n, refused)[i] == n.steps[i]
  {
    var n := Negotiate(arrivals);
    var t := Events(n, refused);
    var tail := match n.dest
      case None => [Closed]
      case Some(d) => [ChannelRequested(d)] + (if d in refused then [Closed] else []);
    assert t == n.steps + tail;
    assert forall i :: 0 <= i < |n.steps| ==> !n.steps[i].ChannelRequested?;
    forall i | 0 <= i < |t| && t[i].ChannelRequested?
      ensures i == |n.steps| && n.dest == Some(t[i].dest)
    {
      if i >= |n.steps| {
        assert t[i] == tail[i - |n.steps|];
      }
    }
  }

  /** A SOCKS4 request as a client writes it: version 4, command, port,
      IPv4 address and a NUL-terminated user id. */
  function Socks4Request(cmd: byte, port: nat, ip: seq<byte>, userId: seq<byte>): seq<byte>
    requires port < 65536 && |ip| == 4
  {
    [4, cmd] + PortBytes(port) + ip + userId + [0]
  }

  /** Whatever the command and user id, a SOCKS4 request read in one piece
      is granted with its port and address echoed, and the channel goes to
      the address in dotted form and the port. */
  lemma Socks4RoundTrip(cmd: byte, port: nat, ip: seq<byte>, userId: seq<byte>, later: seq<seq<byte>>)
    requires port < 65536 && |ip| == 4
    requires |Socks4Request(cmd, port, ip, userId)| <= RecvSize
    ensures Negotiate([Socks4Request(cmd, port, ip, userId)] + later)
            == Negotiation([Read(Socks4Request(cmd, port, ip, userId)), Replied([0, 0x5A] + PortBytes(port) + ip)],
                           Some(Destination(Ipv4Literal(DottedQuad(ip)), port)), 1)
  {
    var req := Socks4Request(cmd, port, ip, userId);
    var arrivals := [req] + later;
    var pb := PortBytes(port);
    assert req == [4, cmd, pb[0], pb[1]] + ip + userId + [0];
    assert Take(arrivals, RecvSize) == req;
    assert req[2..8] == pb + ip;
    assert req[4..8] == ip;
    assert ParseSocks4(req) == Success(Destination(Ipv4Literal(DottedQuad(ip)), port));
    assert req[0] == 4;
    assert Socks4Granted(req) == [0, 0x5A] + pb + ip;
    assert Negotiate(arrivals) == Negotiation([Read(req), Replied(Socks4Granted(req))], Some(Destination(Ipv4Literal(DottedQuad(ip)), port)), 1);
  }

  /** `1.2.3.4:80` with an empty user id is granted with `00 5A 00 50 01 02 03 04`. */
  lemma Socks4Example()
    ensures Negotiate([[4, 1, 0, 80, 1, 2, 3, 4, 0]])
            == Negotiation([Read([4, 1, 0, 80, 1, 2, 3, 4, 0]), Replied([0, 0x5A, 0, 0x50, 1, 2, 3, 4])],
                           Some(Destination(Ipv4Literal("1.2.3.4"), 80)), 1)
  {
    Socks4RoundTrip(1, 80, [1, 2, 3, 4], [], []);
    assert PortBytes(80) == [0, 80];
    assert Socks4Request(1, 80, [1, 2, 3, 4], []) == [4, 1, 0, 80, 1, 2, 3, 4, 0];
    assert [[4, 1, 0, 80, 1, 2, 3, 4, 0]] + [] == [[4, 1, 0, 80, 1, 2, 3, 4, 0]];
    assert DottedQuad([1, 2, 3, 4]) == "1.2.3.4";
    assert [0, 0x5A] + PortBytes(80) + [1, 2, 3, 4] == [0, 0x5A, 0, 0x50, 1, 2, 3, 4];
  }

  /** The address of a SOCKS5 connect request, as a client writes it. */
  datatype Address = IPv4(ip: seq<byte>) | Name(name: seq<byte>)

  predicate WellFormedAddress(addr: Address)
  {
    match addr
    case IPv4(ip) => |ip| == 4
    case Name(name) => |name| < 256
  }

  /** A SOCKS5 connect request: version, command, reserved byte, address
      type and address, port. The version and reserved byte are parameters
      because the parser never looks at them. */
  function Socks5Request(ver: byte, cmd: byte, rsv: byte, addr: Address, port: nat): seq<byte>
    requires WellFormedAddress(addr) && port < 65536
  {
    [ver, cmd, rsv] +
    (match addr
     case IPv4(ip) => [1] + ip
     case Name(name) => [3, |name|] + name) +
    PortBytes(port)
  }

  /** The host `open_channel` receives for an address. */
  function AddressHost(addr: Address): Host
    requires WellFormedAddress(addr)
  {
    match addr
    case IPv4(ip) => Ipv4Literal(DottedQuad(ip))
    case Name(name) => DomainName(name)
  }

  /** Whatever the version, command and reserved bytes, and whatever follows
      the port, a connect request with an IPv4 address or a UTF-8 domain
      parses to that address and port. */
  lemma Socks5RoundTrip(ver: byte, cmd: byte, rsv: byte, addr: Address, port: nat, trailing: seq<byte>)
    requires WellFormedAddress(addr) && port < 65536
    requires addr.Name? ==> Utf8.IsValid(addr.name)
    ensures ParseSocks5Request(Socks5Request(ver, cmd, rsv, addr, port) + trailing)
            == Success(Destination(AddressHost(addr), port))
  {
    var req := Socks5Request(ver, cmd, rsv, addr, port) + trailing;
    var pb := PortBytes(port);
    match addr
    case IPv4(ip) =>
      assert req == [ver, cmd, rsv, 1] + ip + pb + trailing;
      assert req[4..8] == ip;
      assert req[8] == pb[0] && req[9] == pb[1];
    case Name(name) =>
      assert req == [ver, cmd, rsv, 3, |name|] + name + pb + trailing;
      assert req[5..5 + |name|] == name;
      assert req[5 + |name|] == pb[0] && req[5 + |name| + 1] == pb[1];
  }

  /** A domain given as text, encoded the way a client's `str.encode()`
      does, always gets through the `.decode()` step. */
  lemma Socks5DomainRoundTrip(ver: byte, cmd: byte, rsv: byte, domain: string, port: nat)
    requires |Utf8.Encode(domain)| < 256 && port < 65536
    ensures ParseSocks5Request(Socks5Request(ver, cmd, rsv, Name(Utf8.Encode(domain)), port))
            == Success(Destination(DomainName(Utf8.Encode(domain)), port))
  {
    var req := Socks5Request(ver, cmd, rsv, Name(Utf8.Encode(domain)), port);
    Utf8.EncodeIsValid(domain);
    Socks5RoundTrip(ver, cmd, rsv, Name(Utf8.Encode(domain)), port, []);
    assert req + [] == req;
  }

  /** A SOCKS5 client that sends its greeting and its connect request as two
      segments gets `05 00`, then the fixed success reply, and a channel to
      the requested address. */
  lemma Socks5Session(greeting: seq<byte>, ver: byte, cmd: byte, rsv: byte, addr: Address, port: nat,
                      later: seq<seq<byte>>)
    requires 1 <= |greeting| <= RecvSize && greeting[0] == 5
    requires WellFormedAddress(addr) && port < 65536
    requires addr.Name? ==> Utf8.IsValid(addr.name)
    requires |Socks5Request(ver, cmd, rsv, addr, port)| <= RecvSize
    ensures Negotiate([greeting, Socks5Request(ver, cmd, rsv, addr, port)] + later)
            == Negotiation([Read(greeting), Replied(Socks5NoAuth), Read(Socks5Request(ver, cmd, rsv, addr, port)),
                            Replied(Socks5Succeeded)],
                           Some(Destination(AddressHost(addr), port)), 2)
  {
    var req := Socks5Request(ver, cmd, rsv, addr, port);
    var arrivals := [greeting, req] + later;
    assert Take(arrivals, RecvSize) == greeting;
    assert Drop(arrivals, RecvSize) == [req] + later;
    assert Take(Drop(arrivals, RecvSize), RecvSize) == req;
    Socks5RoundTrip(ver, cmd, rsv, addr, port, []);
    assert req + [] == req;
  }

  /** Exactly when a connect request parses: it has an address type of 1
      with four address bytes and a port after them, or of 3 with a length
      byte, that many name bytes that decode as UTF-8, and a port after them.
      Otherwise it fails: with `UnsupportedAddressType` for any other type,
      `DomainNotUtf8` when the (possibly cut short) name does not decode, and
      `Truncated` when a byte the parser reads is missing. */
  lemma Socks5ParseOutcome(req: seq<byte>)
    ensures ParseSocks5Request(req).Success? <==>
              |req| >= 4 &&
              ((req[3] == 1 && |req| >= 10) ||
               (req[3] == 3 && |req| >= 5 && |req| >= 7 + req[4] as int && Utf8.IsValid(req[5..5 + req[4] as int])))
    ensures |req| < 4 ==> ParseSocks5Request(req) == Failure(Truncated)
    ensures |req| >= 4 && req[3] != 1 && req[3] != 3 ==>
              ParseSocks5Request(req) == Failure(UnsupportedAddressType(req[3]))
    ensures |req| >= 4 && req[3] == 1 && |req| < 10 ==> ParseSocks5Request(req) == Failure(Truncated)
    ensures |req| == 4 && req[3] == 3 ==> ParseSocks5Request(req) == Failure(Truncated)
    ensures |req| >= 5 && req[3] == 3 && !Utf8.IsValid(req[5..Min(5 + req[4] as int, |req|)]) ==>
              ParseSocks5Request(req) == Failure(DomainNotUtf8)
    ensures |req| >= 5 && req[3] == 3 && Utf8.IsValid(req[5..Min(5 + req[4] as int, |req|)]) && |req| < 7 + req[4] as int ==>
              ParseSocks5Request(req) == Failure(Truncated)
  {
    if |req| >= 5 && req[3] == 3 && |req| >= 7 + req[4] as int {
      assert Min(5 + req[4] as int, |req|) == 5 + req[4] as int;
    }
  }

  /** Whatever makes the connect request fail to parse (too short, another
      address type, a name that does not decode), the client gets `05 00`
      as its only reply and is closed after the request is read, with no
      channel. */
  lemma Socks5FailureClosed(arrivals: seq<seq<byte>>, refused: set<Destination>)
    requires Take(arrivals, RecvSize) != [] && Take(arrivals, RecvSize)[0] == 5
    requires ParseSocks5Request(Take(Drop(arrivals, RecvSize), RecvSize)).Failure?
    ensures Events(Negotiate(arrivals), refused)
            == [Read(Take(arrivals, RecvSize)), Replied(Socks5NoAuth), Read(Take(Drop(arrivals, RecvSize), RecvSize)), Closed]
    ensures RepliesIn(Events(Negotiate(arrivals), refused)) == [Socks5NoAuth]
  {
    var req := Take(Drop(arrivals, RecvSize), RecvSize);
    assert RepliesIn([Closed]) == [];
    assert RepliesIn([Read(req), Closed]) == [];
    assert RepliesIn([Replied(Socks5NoAuth), Read(req), Closed]) == [Socks5NoAuth];
  }

  /** Any address type other than 1 and 3 (IPv6 among them) ends the
      exchange once the connect request is read: `05 00` is the only reply,
      and the client is closed without a channel. */
  lemma Socks5OtherAddressTypeClosed(arrivals: seq<seq<byte>>, refused: set<Destination>)
    requires Take(arrivals, RecvSize) != [] && Take(arrivals, RecvSize)[0] == 5
    requires |Take(Drop(arrivals, RecvSize), RecvSize)| >= 4
    requires Take(Drop(arrivals, RecvSize), RecvSize)[3] !in {1, 3}
    ensures Events(Negotiate(arrivals), refused)
            == [Read(Take(arrivals, RecvSize)), Replied(Socks5NoAuth), Read(Take(Drop(arrivals, RecvSize), RecvSize)), Closed]
    ensures RepliesIn(Events(Negotiate(arrivals), refused)) == [Socks5NoAuth]
  {
    Socks5ParseOutcome(Take(Drop(arrivals, RecvSize), RecvSize));
    Socks5FailureClosed(arrivals, refused);
  }

  /** A SOCKS5 CONNECT to `example.com:443` gets exactly `05 00` and then
      `05 00 00 01 00 00 00 00 00 00`, and its channel goes to that name. */
  lemma Socks5DomainExample(arrivals: seq<seq<byte>>, name: seq<byte>)
    requires name == [101, 120, 97, 109, 112, 108, 101, 46, 99, 111, 109]
    requires arrivals == [[5, 1, 0], [5, 1, 0, 3, 11] + name + [1, 187]]
    ensures Negotiate(arrivals)
            == Negotiation([Read([5, 1, 0]), Replied([5, 0]), Read(arrivals[1]), Replied([5, 0, 0, 1, 0, 0, 0, 0, 0, 0])],
                           Some(Destination(DomainName(name), 443)), 2)
  {
    Utf8.AsciiIsValid(name);
    Socks5Session([5, 1, 0], 5, 1, 0, Name(name), 443, []);
    assert PortBytes(443) == [1, 187];
    assert Socks5Request(5, 1, 0, Name(name), 443) == [5, 1, 0, 3, 11] + name + [1, 187];
    assert [[5, 1, 0], Socks5Request(5, 1, 0, Name(name), 443)] + [] == arrivals;
  }
}
