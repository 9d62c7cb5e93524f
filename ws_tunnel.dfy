/** The HTTP-upgrade handshake engine of `ws_tunnel.py`: placeholder
    substitution, the byte-at-a-time header reader, and the fixed
    send/read exchange that turns a connected socket into a raw tunnel. */
module WsTunnel {
  import opened Common
  import opened Seqs
  import Decimal
  import Utf8

  const HostToken: string := "[host]"
  const CrlfToken: string := "[crlf]"
  const Crlf: string := "\r\n"

  /** `b"\r\n\r\n"`, the blank line that ends a header block. */
  const Terminator: seq<byte> := [13, 10, 13, 10]

  /** `b"100 Continue"`. */
  const Continue: seq<byte> := [49, 48, 48, 32, 67, 111, 110, 116, 105, 110, 117, 101]

  // ---------------------------------------------------------------------
  // Placeholder substitution
  // ---------------------------------------------------------------------

  /** The text put in place of `[host]`: `f"{target_host}:{target_port}"`. */
  function HostValue(targetHost: string, targetPort: int): string
  {
    targetHost + ":" + Decimal.IntToString(targetPort)
  }

  /** The payload text after `[host]` and then `[crlf]` have been replaced.
      Every `[host]` becomes the host value and every `[crlf]` of the result
      becomes CRLF, and no `[crlf]` is left over. */
  function Substitute(payload: string, targetHost: string, targetPort: int): (s: string)
    ensures s == Join(Split(Join(Split(payload, HostToken), HostValue(targetHost, targetPort)), CrlfToken), Crlf)
    ensures !Contains(s, CrlfToken)
  {
    var withHost := ReplaceAll(payload, HostToken, HostValue(targetHost, targetPort));
    ReplaceIsSplitJoin(payload, HostToken, HostValue(targetHost, targetPort));
    ReplaceIsSplitJoin(withHost, CrlfToken, Crlf);
    ReplaceLeavesNoPattern(withHost, CrlfToken, Crlf);
    ReplaceAll(withHost, CrlfToken, Crlf)
  }

  /** `replace_placeholders`: substitute, then encode as UTF-8. */
  function ReplacePlaceholders(payload: string, targetHost: string, targetPort: int): seq<byte>
  {
    Utf8.Encode(Substitute(payload, targetHost, targetPort))
  }

  /** A template with neither placeholder is only encoded. */
  lemma PlaceholdersAbsent(payload: string, targetHost: string, targetPort: int)
    requires !Contains(payload, HostToken) && !Contains(payload, CrlfToken)
    ensures ReplacePlaceholders(payload, targetHost, targetPort) == Utf8.Encode(payload)
  {
    ReplaceWithoutPattern(payload, HostToken, HostValue(targetHost, targetPort));
    ReplaceWithoutPattern(payload, CrlfToken, Crlf);
  }

  // ---------------------------------------------------------------------
  // The block structure of the payload
  // ---------------------------------------------------------------------

  /** `payload_bytes.split(b"\r\n\r\n")`. */
  function PayloadBlocks(payloadTemplate: string, targetHost: string, targetPort: int): seq<seq<byte>>
  {
    Split(ReplacePlaceholders(payloadTemplate, targetHost, targetPort), Terminator)
  }

  /** There is always a first block, no block holds a blank line, and the
      blocks joined by blank lines are the substituted payload. */
  lemma PayloadBlocksRejoin(payloadTemplate: string, targetHost: string, targetPort: int)
    ensures |PayloadBlocks(payloadTemplate, targetHost, targetPort)| >= 1
    ensures Join(PayloadBlocks(payloadTemplate, targetHost, targetPort), Terminator)
            == ReplacePlaceholders(payloadTemplate, targetHost, targetPort)
    ensures forall k :: 0 <= k < |PayloadBlocks(payloadTemplate, targetHost, targetPort)| ==>
              !Contains(PayloadBlocks(payloadTemplate, targetHost, targetPort)[k], Terminator)
    ensures forall k :: 0 <= k < |PayloadBlocks(payloadTemplate, targetHost, targetPort)| - 1 ==>
              !Contains(PayloadBlocks(payloadTemplate, targetHost, targetPort)[k] + Terminator[..3], Terminator)
  {
    var p := ReplacePlaceholders(payloadTemplate, targetHost, targetPort);
    SplitJoin(p, Terminator);
    SplitBlocksAreFree(p, Terminator);
    SplitLeftmost(p, Terminator);
  }

  /** The bytes `bytes.strip()` removes: space, tab, LF, VT, FF, CR. */
  predicate IsAsciiWhitespace(b: byte)
  {
    b == 32 || 9 <= b <= 13
  }

  /** `not blk.strip()`: the block is empty or all whitespace. */
  predicate IsBlank(blk: seq<byte>)
  {
    forall i :: 0 <= i < |blk| ==> IsAsciiWhitespace(blk[i])
  }

  // ---------------------------------------------------------------------
  // The stream
  // ---------------------------------------------------------------------

  /** One call on the socket: a `sendall` with its data, a `recv` with what
      it returned (empty at end of stream), or the TLS wrap with the server
      name it sent. */
  datatype Io = Sent(data: seq<byte>) | Received(data: seq<byte>) | Wrapped(name: string)

  /** A connected socket as the handshake sees it: the bytes the peer still
      has to deliver, the log of calls made on it, and whether (and with which
      server name) it has been wrapped in TLS. The TLS layer itself is not
      modelled: `pending` and `log` hold the application bytes. */
  class Stream {
    const peer: (string, int)
    var pending: seq<byte>
    var log: seq<Io>
    var serverName: Option<string>
    var wraps: nat

    /** `socket.create_connection((host, port))`; `incoming` is what the
        peer will send. */
    constructor Connect(host: string, port: int, incoming: seq<byte>)
      ensures peer == (host, port) && pending == incoming && log == []
      ensures serverName == None && wraps == 0
    {
      peer := (host, port);
      pending := incoming;
      log := [];
      serverName := None;
      wraps := 0;
    }

    /** `isinstance(sock, ssl.SSLSocket)`. */
    predicate IsTls()
      reads this
    {
      serverName.Some?
    }

    /** `sock.recv(n)`: up to `n` bytes; empty only at end of stream. */
    method Recv(n: nat) returns (chunk: seq<byte>)
      requires n > 0
      modifies this`pending, this`log
      ensures chunk == old(pending)[..Min(n, |old(pending)|)]
      ensures pending == old(pending)[|chunk|..]
      ensures log == old(log) + [Received(chunk)]
    {
      chunk := pending[..Min(n, |pending|)];
      pending := pending[|chunk|..];
      log := log + [Received(chunk)];
    }

    /** `sock.sendall(data)`. */
    method SendAll(data: seq<byte>)
      modifies this`log
      ensures log == old(log) + [Sent(data)]
    {
      log := log + [Sent(data)];
    }

    /** `ctx.wrap_socket(sock, server_hostname=name)`. */
    method WrapTls(name: string)
      modifies this`serverName, this`wraps, this`log
      ensures serverName == Some(name) && wraps == old(wraps) + 1
      ensures log == old(log) + [Wrapped(name)]
    {
      serverName := Some(name);
      wraps := wraps + 1;
      log := log + [Wrapped(name)];
    }
  }

  // ---------------------------------------------------------------------
  // read_headers
  // ---------------------------------------------------------------------

  /** The least `e >= n` at which `inp[..e]` holds a blank line, or the end of
      `inp` if no prefix does. */
  function HeaderEnd(inp: seq<byte>, n: nat): (e: nat)
    requires n <= |inp|
    ensures n <= e <= |inp|
    ensures Contains(inp[..e], Terminator) || e == |inp|
    ensures forall m :: n <= m < e ==> !Contains(inp[..m], Terminator)
    decreases |inp| - n
  {
    if Contains(inp[..n], Terminator) || n == |inp| then n else HeaderEnd(inp, n + 1)
  }

  /** What `read_headers` returns when the peer's bytes are `inp`. */
  function HeaderPrefix(inp: seq<byte>): seq<byte>
  {
    inp[..HeaderEnd(inp, 0)]
  }

  /** The calls `read_headers` makes for a result `r`: one single-byte
      `recv` per byte, and a final empty one if the stream ended first. */
  function ReadTrace(r: seq<byte>): seq<Io>
  {
    ByteReads(r) + (if Contains(r, Terminator) then [] else [Received([])])
  }

  function ByteReads(r: seq<byte>): (t: seq<Io>)
    ensures |t| == |r|
  {
    seq(|r|, i requires 0 <= i < |r| => Received([r[i]]))
  }

  lemma ByteReadsSnoc(r: seq<byte>, b: byte)
    ensures ByteReads(r + [b]) == ByteReads(r) + [Received([b])]
  {
    var lhs := ByteReads(r + [b]);
    var rhs := ByteReads(r) + [Received([b])];
    assert |lhs| == |rhs|;
    forall i | 0 <= i < |lhs| ensures lhs[i] == rhs[i] {
      if i < |r| { assert (r + [b])[i] == r[i]; }
    }
  }

  /** A `k` that meets `HeaderEnd`'s characterisation is `HeaderEnd`. */
  lemma {:induction false} HeaderEndUnique(inp: seq<byte>, n: nat, k: nat)
    requires n <= k <= |inp|
    requires Contains(inp[..k], Terminator) || k == |inp|
    requires forall m :: n <= m < k ==> !Contains(inp[..m], Terminator)
    ensures HeaderEnd(inp, n) == k
    decreases k - n
  {
    if n < k {
      HeaderEndUnique(inp, n + 1, k);
    }
  }

  /** `read_headers(sock)`. */
  method ReadHeaders(sock: Stream) returns (data: seq<byte>)
    modifies sock`pending, sock`log
    ensures data == HeaderPrefix(old(sock.pending))
    ensures sock.pending == old(sock.pending)[|data|..]
    ensures sock.log == old(sock.log) + ReadTrace(data)
  {
    ghost var inp := sock.pending;
    data := [];
    while !Contains(data, Terminator)
      invariant |data| <= |inp| && data == inp[..|data|]
      invariant sock.pending == inp[|data|..]
      invariant sock.log == old(sock.log) + ByteReads(data)
      invariant forall m :: 0 <= m < |data| ==> !Contains(inp[..m], Terminator)
      decreases |sock.pending|
    {
      var chunk := sock.Recv(1);
      if chunk == [] {
        assert data == inp;
        break;
      }
      assert chunk == [chunk[0]];
      ByteReadsSnoc(data, chunk[0]);
      data := data + chunk;
    }
    HeaderEndUnique(inp, 0, |data|);
  }

  /** What `read_headers` promises: it returns a prefix of the incoming bytes;
      if that prefix holds a blank line, it ends with it and holds no other;
      otherwise the stream ended and everything was returned. It stops only
      when it must: a blank line anywhere in the input is found. */
  lemma HeaderPrefixShape(inp: seq<byte>)
    ensures |HeaderPrefix(inp)| <= |inp| && HeaderPrefix(inp) == inp[..|HeaderPrefix(inp)|]
    ensures Contains(HeaderPrefix(inp), Terminator) ==>
              OccursAt(HeaderPrefix(inp), Terminator, |HeaderPrefix(inp)| - 4) &&
              forall i :: OccursAt(HeaderPrefix(inp), Terminator, i) ==> i == |HeaderPrefix(inp)| - 4
    ensures !Contains(HeaderPrefix(inp), Terminator) ==> HeaderPrefix(inp) == inp
    ensures Contains(inp, Terminator) ==> Contains(HeaderPrefix(inp), Terminator)
  {
    var e := HeaderEnd(inp, 0);
    var r := inp[..e];
    if Contains(r, Terminator) {
      forall i | OccursAt(r, Terminator, i) ensures i == e - 4 {
        if i + 4 < e {
          assert inp[..i + 4][i..i + 4] == r[i..i + 4];
          assert OccursAt(inp[..i + 4], Terminator, i);
          assert false;
        }
      }
      var i :| 0 <= i <= |r| - 4 && OccursAt(r, Terminator, i);
      assert i == e - 4;
    }
    assert inp[..|inp|] == inp;
  }

  // ---------------------------------------------------------------------
  // establish_ws_tunnel
  // ---------------------------------------------------------------------

  /** The `sendall` of one of `blocks[1:]`: nothing for a blank block. */
  function FollowUp(blk: seq<byte>): seq<Io>
  {
    if IsBlank(blk) then [] else [Sent(blk + Terminator)]
  }

  /** The `sendall` calls of the loop over `blocks[1:]`, in order. */
  function FollowUps(rest: seq<seq<byte>>): seq<Io>
  {
    if rest == [] then [] else FollowUps(rest[..|rest| - 1]) + FollowUp(rest[|rest| - 1])
  }

  /** The calls the handshake makes on the socket once the payload has been
      cut into `blocks`, when the peer's bytes are `inp`. */
  function HandshakeTrace(blocks: seq<seq<byte>>, inp: seq<byte>): seq<Io>
    requires |blocks| >= 1
  {
    var first := HeaderPrefix(inp);
    var second := HeaderPrefix(inp[|first|..]);
    [Sent(blocks[0] + Terminator)] + ReadTrace(first) + FollowUps(blocks[1..]) + ReadTrace(second)
  }

  /** How many of the peer's bytes the two `read_headers` calls consume. */
  function HandshakeConsumed(inp: seq<byte>): (n: nat)
    ensures n <= |inp|
  {
    var first := HeaderPrefix(inp);
    |first| + |HeaderPrefix(inp[|first|..])|
  }

  /** The loop `for blk in blocks[1:]: if blk.strip(): sock.sendall(...)`,
      which both branches of the handshake run. */
  method SendRemaining(sock: Stream, blocks: seq<seq<byte>>)
    requires |blocks| >= 1
    modifies sock`log
    ensures sock.log == old(sock.log) + FollowUps(blocks[1..])
  {
    for i := 1 to |blocks|
      invariant sock.log == old(sock.log) + FollowUps(blocks[1..i])
    {
      assert blocks[1..i + 1][..i - 1] == blocks[1..i];
      if !IsBlank(blocks[i]) {
        sock.SendAll(blocks[i] + Terminator);
      }
    }
    assert blocks[1..|blocks|] == blocks[1..];
  }

  /** `establish_ws_tunnel`. `sock` is the pre-connected socket or `null`;
      `incoming` is what the proxy sends on a connection made here. The
      result is the socket used, wrapped in TLS only when `useTls` is set and
      it was not already TLS, and its log grows by that wrap, if any, and
      then by exactly the handshake's calls, whatever the first response
      says: every byte of the handshake goes through the wrap. */
  method EstablishWsTunnel(proxyHost: string, proxyPort: int, targetHost: string, targetPort: int,
                           payloadTemplate: string, useTls: bool, sock: Stream?, incoming: seq<byte>)
    returns (r: Stream)
    modifies sock
    ensures sock != null ==> r == sock
    ensures sock == null ==> fresh(r) && r.peer == (proxyHost, proxyPort)
    ensures var nameBefore := if sock == null then None else old(sock.serverName);
            var wrapsBefore := if sock == null then 0 else old(sock.wraps);
            if useTls && nameBefore.None?
            then r.serverName == Some(proxyHost) && r.wraps == wrapsBefore + 1
            else r.serverName == nameBefore && r.wraps == wrapsBefore
    ensures var inp := if sock == null then incoming else old(sock.pending);
            var logBefore := if sock == null then [] else old(sock.log);
            var nameBefore := if sock == null then None else old(sock.serverName);
            var blocks := PayloadBlocks(payloadTemplate, targetHost, targetPort);
            r.log == logBefore + (if useTls && nameBefore.None? then [Wrapped(proxyHost)] else []) + HandshakeTrace(blocks, inp) &&
            r.pending == inp[HandshakeConsumed(inp)..]
  {
    var s := sock;
    ghost var logBefore: seq<Io> := if sock == null then [] else sock.log;
    ghost var inp := if sock == null then incoming else sock.pending;
    if s == null {
      s := new Stream.Connect(proxyHost, proxyPort, incoming);
    }
    ghost var wrap: seq<Io> := [];
    if useTls && !s.IsTls() {
      s.WrapTls(proxyHost);
      wrap := [Wrapped(proxyHost)];
    }
    assert s.log == logBefore + wrap && s.pending == inp;
    var blocks := Split(ReplacePlaceholders(payloadTemplate, targetHost, targetPort), Terminator);
    Exchange(s, blocks);
    r := s;
  }

  /** Steps 3 to 5 of `establish_ws_tunnel`: the first block, the first
      response, the remaining blocks and the second response. */
  method Exchange(s: Stream, blocks: seq<seq<byte>>)
    requires |blocks| >= 1
    modifies s`pending, s`log
    ensures s.log == old(s.log) + HandshakeTrace(blocks, old(s.pending))
    ensures s.pending == old(s.pending)[HandshakeConsumed(old(s.pending))..]
  {
    ghost var inp := s.pending;
    ghost var log0 := s.log;
    s.SendAll(blocks[0] + Terminator);
    var first := ReadHeaders(s);
    ghost var log1 := s.log;
    ghost var head := [Sent(blocks[0] + Terminator)];
    ghost var readFirst := ReadTrace(first);
    assert log1 == log0 + head + readFirst;

    // Both branches of the `100 Continue` test send the same bytes and read
    // once more; they stay separate, as in `establish_ws_tunnel`.
    var second;
    if Contains(first, Continue) {
      SendRemaining(s, blocks);
      second := ReadHeaders(s);
    } else {
      if |blocks| > 1 {
        SendRemaining(s, blocks);
      } else {
        assert FollowUps(blocks[1..]) == [];
      }
      second := ReadHeaders(s);
    }
    ghost var rest := FollowUps(blocks[1..]);
    ghost var readSecond := ReadTrace(second);
    assert s.log == log1 + rest + readSecond;
    assert HandshakeTrace(blocks, inp) == head + readFirst + rest + readSecond;
    AppendAssoc(log0, head, readFirst, rest, readSecond);
    assert inp[|first|..][|second|..] == inp[|first| + |second|..];
  }

  /** Regrouping the five parts of the log, stated apart so that `Exchange`
      does not have to prove sequence equality in its own, larger context. */
  lemma AppendAssoc<T>(a: seq<T>, b: seq<T>, c: seq<T>, d: seq<T>, e: seq<T>)
    ensures a + b + c + d + e == a + (b + c + d + e)
  {
  }

  // ---------------------------------------------------------------------
  // What the exchange writes and reads
  // ---------------------------------------------------------------------

  /** The data of every `sendall` in a log, in order. */
  function Writes(log: seq<Io>): seq<seq<byte>>
  {
    if log == [] then []
    else (if log[0].Sent? then [log[0].data] else []) + Writes(log[1..])
  }

  /** The server names of every TLS wrap in a log, in order. */
  function Wraps(log: seq<Io>): seq<string>
  {
    if log == [] then []
    else (if log[0].Wrapped? then [log[0].name] else []) + Wraps(log[1..])
  }

  /** All bytes the `recv` calls of a log returned, in order. */
  function ReceivedBytes(log: seq<Io>): seq<byte>
  {
    if log == [] then []
    else (if log[0].Received? then log[0].data else []) + ReceivedBytes(log[1..])
  }

  /** The blocks that `blk.strip()` keeps, each followed by a blank line. */
  function NonBlankTerminated(rest: seq<seq<byte>>): seq<seq<byte>>
  {
    if rest == [] then []
    else (if IsBlank(rest[0]) then [] else [rest[0] + Terminator]) + NonBlankTerminated(rest[1..])
  }

  lemma {:induction false} WritesAppend(a: seq<Io>, b: seq<Io>)
    ensures Writes(a + b) == Writes(a) + Writes(b)
    ensures ReceivedBytes(a + b) == ReceivedBytes(a) + ReceivedBytes(b)
  {
    if a != [] {
      assert (a + b)[1..] == a[1..] + b;
      WritesAppend(a[1..], b);
    } else {
      assert a + b == b;
    }
  }

  lemma {:induction false} ReadTraceContents(r: seq<byte>)
    ensures Writes(ReadTrace(r)) == []
    ensures ReceivedBytes(ReadTrace(r)) == r
  {
    ByteReadsContents(r);
    WritesAppend(ByteReads(r), if Contains(r, Terminator) then [] else [Received([])]);
  }

  lemma {:induction false} ByteReadsContents(r: seq<byte>)
    ensures Writes(ByteReads(r)) == [] && ReceivedBytes(ByteReads(r)) == r
    decreases |r|
  {
    if r != [] {
      assert ByteReads(r) == ByteReads(r[..|r| - 1]) + [Received([r[|r| - 1]])];
      ByteReadsContents(r[..|r| - 1]);
      WritesAppend(ByteReads(r[..|r| - 1]), [Received([r[|r| - 1]])]);
      assert r == r[..|r| - 1] + [r[|r| - 1]];
    }
  }

  lemma {:induction false} NonBlankTerminatedSnoc(rest: seq<seq<byte>>)
    requires rest != []
    ensures NonBlankTerminated(rest) == NonBlankTerminated(rest[..|rest| - 1]) + Writes(FollowUp(rest[|rest| - 1]))
    decreases |rest|
  {
    var last := rest[|rest| - 1];
    if |rest| == 1 {
      assert rest[..0] == [];
    } else {
      NonBlankTerminatedSnoc(rest[1..]);
      assert rest[1..][..|rest| - 2] == rest[..|rest| - 1][1..];
    }
  }

  lemma {:induction false} FollowUpsContents(rest: seq<seq<byte>>)
    ensures Writes(FollowUps(rest)) == NonBlankTerminated(rest)
    ensures ReceivedBytes(FollowUps(rest)) == []
    decreases |rest|
  {
    if rest != [] {
      var init := rest[..|rest| - 1];
      FollowUpsContents(init);
      WritesAppend(FollowUps(init), FollowUp(rest[|rest| - 1]));
      NonBlankTerminatedSnoc(rest);
    }
  }

  lemma {:induction false} FourPartContents(a: seq<Io>, b: seq<Io>, c: seq<Io>, d: seq<Io>)
    ensures Writes(a + b + c + d) == Writes(a) + Writes(b) + Writes(c) + Writes(d)
    ensures ReceivedBytes(a + b + c + d) == ReceivedBytes(a) + ReceivedBytes(b) + ReceivedBytes(c) + ReceivedBytes(d)
  {
    WritesAppend(a, b);
    WritesAppend(a + b, c);
    WritesAppend(a + b + c, d);
  }

  /** The writes of the handshake are `blocks[0]` and then the non-blank
      blocks of `blocks[1:]`, in order, each with a blank line after it; the
      first write comes before any read; the reads consume exactly the two
      responses, the second beginning where the first ended. */
  lemma HandshakeWritesAndReads(blocks: seq<seq<byte>>, inp: seq<byte>)
    requires |blocks| >= 1
    ensures HandshakeTrace(blocks, inp)[0] == Sent(blocks[0] + Terminator)
    ensures Writes(HandshakeTrace(blocks, inp)) == [blocks[0] + Terminator] + NonBlankTerminated(blocks[1..])
    ensures ReceivedBytes(HandshakeTrace(blocks, inp)) == inp[..HandshakeConsumed(inp)]
  {
    var first := HeaderPrefix(inp);
    var second := HeaderPrefix(inp[|first|..]);
    var head: seq<Io> := [Sent(blocks[0] + Terminator)];
    assert HandshakeTrace(blocks, inp) == head + ReadTrace(first) + FollowUps(blocks[1..]) + ReadTrace(second);
    ReadTraceContents(first);
    ReadTraceContents(second);
    FollowUpsContents(blocks[1..]);
    FourPartContents(head, ReadTrace(first), FollowUps(blocks[1..]), ReadTrace(second));
    assert Writes(head) == [blocks[0] + Terminator];
    assert ReceivedBytes(head) == [];
    ConsumedIsBothResponses(inp);
  }

  /** The handshake never wraps the socket: whatever TLS it runs over was
      set up before its first write. */
  lemma HandshakeNeverWraps(blocks: seq<seq<byte>>, inp: seq<byte>)
    requires |blocks| >= 1
    ensures Wraps(HandshakeTrace(blocks, inp)) == []
  {
    var first := HeaderPrefix(inp);
    var second := HeaderPrefix(inp[|first|..]);
    var head: seq<Io> := [Sent(blocks[0] + Terminator)];
    assert HandshakeTrace(blocks, inp) == head + ReadTrace(first) + FollowUps(blocks[1..]) + ReadTrace(second);
    ReadTraceNoWraps(first);
    ReadTraceNoWraps(second);
    FollowUpsNoWraps(blocks[1..]);
    WrapsAppend(head, ReadTrace(first));
    WrapsAppend(head + ReadTrace(first), FollowUps(blocks[1..]));
    WrapsAppend(head + ReadTrace(first) + FollowUps(blocks[1..]), ReadTrace(second));
    assert Wraps(head) == [];
  }

  lemma {:induction false} WrapsAppend(a: seq<Io>, b: seq<Io>)
    ensures Wraps(a + b) == Wraps(a) + Wraps(b)
  {
    if a != [] {
      assert (a + b)[1..] == a[1..] + b;
      WrapsAppend(a[1..], b);
    } else {
      assert a + b == b;
    }
  }

  lemma {:induction false} ReadTraceNoWraps(r: seq<byte>)
    ensures Wraps(ReadTrace(r)) == []
  {
    ByteReadsNoWraps(r);
    WrapsAppend(ByteReads(r), if Contains(r, Terminator) then [] else [Received([])]);
  }

  lemma {:induction false} ByteReadsNoWraps(r: seq<byte>)
    ensures Wraps(ByteReads(r)) == []
    decreases |r|
  {
    if r != [] {
      assert ByteReads(r) == ByteReads(r[..|r| - 1]) + [Received([r[|r| - 1]])];
      ByteReadsNoWraps(r[..|r| - 1]);
      WrapsAppend(ByteReads(r[..|r| - 1]), [Received([r[|r| - 1]])]);
    }
  }

  lemma {:induction false} FollowUpsNoWraps(rest: seq<seq<byte>>)
    ensures Wraps(FollowUps(rest)) == []
    decreases |rest|
  {
    if rest != [] {
      FollowUpsNoWraps(rest[..|rest| - 1]);
      WrapsAppend(FollowUps(rest[..|rest| - 1]), FollowUp(rest[|rest| - 1]));
    }
  }

  lemma ConsumedIsBothResponses(inp: seq<byte>)
    ensures inp[..HandshakeConsumed(inp)] == HeaderPrefix(inp) + HeaderPrefix(inp[|HeaderPrefix(inp)|..])
  {
    var first := HeaderPrefix(inp);
    HeaderPrefixShape(inp);
    HeaderPrefixShape(inp[|first|..]);
  }

  /** A payload with a single block is sent in one write. */
  lemma SingleBlockOneWrite(payloadTemplate: string, targetHost: string, targetPort: int, inp: seq<byte>)
    requires |PayloadBlocks(payloadTemplate, targetHost, targetPort)| == 1
    ensures Writes(HandshakeTrace(PayloadBlocks(payloadTemplate, targetHost, targetPort), inp))
            == [ReplacePlaceholders(payloadTemplate, targetHost, targetPort) + Terminator]
  {
    var blocks := PayloadBlocks(payloadTemplate, targetHost, targetPort);
    PayloadBlocksRejoin(payloadTemplate, targetHost, targetPort);
    HandshakeWritesAndReads(blocks, inp);
    assert blocks[1..] == [];
  }
  /** A payload of two blocks whose second is not blank is sent in exactly
      two writes, one per block, whatever the first response says. */
  lemma TwoBlocksTwoWrites(b0: seq<byte>, b1: seq<byte>, inp: seq<byte>)
    requires !IsBlank(b1)
    ensures Writes(HandshakeTrace([b0, b1], inp)) == [b0 + Terminator, b1 + Terminator]
  {
    HandshakeWritesAndReads([b0, b1], inp);
    assert [b0, b1][1..] == [b1];
    assert NonBlankTerminated([b1]) == [b1 + Terminator] + NonBlankTerminated([]);
  }
}
