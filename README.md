# Custom-Internet tunnel core, modelled in Dafny

This project models three sequential parts of a tunnel client. The client hides
an SSH session inside a fake HTTP/WebSocket upgrade and, optionally, behind
TLS domain fronting. It then exposes the tunnel locally as a SOCKS4/SOCKS5
proxy.

- **Handshake engine** (`ws_tunnel.dfy`, module `WsTunnel`) covers
  `replace_placeholders`, `read_headers` and `establish_ws_tunnel`. A
  connected socket is a `Stream` object. It holds the endpoint it is
  connected to, the bytes the peer has yet to deliver, a log of every
  `sendall`, `recv` and TLS wrap call, the server name of a TLS wrap if there is one,
  and the number of TLS wraps applied. `ReadHeaders` and
  `EstablishWsTunnel` are imperative methods. They are proved against the
  specification functions `HeaderPrefix` and `HandshakeTrace`, and lemmas
  about those functions state what the handshake writes and reads.
- **SOCKS request handling** (`ssh_connector.dfy`, module `SshConnector`)
  covers the body of `handle_socks_client` up to the `open_channel` call.
  The parsers are pure functions. `Negotiate` states which replies are sent,
  which destination is chosen and how many reads happen. `HandleSocksClient`
  is a method over a `Connection` object. That object records reads, replies,
  channel requests and `close` calls in one event log, so their order can be
  stated.
- **Strategy selection** (`tunnel_strategies.dfy`, module `TunnelStrategies`)
  covers the `get_strategy` table and what each strategy's `establish`
  dials. It also covers which TLS server name is used and which handshake is
  run. `Establish` composes these with the handshake engine.

Shared helpers:
- `seqs.dfy` holds `in`, `split`, `join` and `replace` on sequences, with
  their round-trip lemmas.
- `decimal.dfy` holds `str(int)`.
- `utf8.dfy` holds `str.encode()` and the strict `bytes.decode()` check.
- `common.dfy` holds bytes, `Option` and `Result`.

The code does not do any of the following, although the SOCKS protocols
define them:
- parse SOCKS4a domain names;
- check the command byte;
- send rejection replies 0x5B, 0x07 or 0x08;
- accept IPv6.

The code also does not peek at the version byte: the first `recv(1024)`
(ssh_connector.py:71) consumes it. It puts no timeout on any read
(ws_tunnel.py:28; ssh_connector.py:71, 99).

The docstring of `establish_ws_tunnel` (ws_tunnel.py:60-62) says `use_tls`
is ignored when a socket is passed in. The code (ws_tunnel.py:80) still wraps
a passed-in plain socket when `use_tls` is set, and skips the wrap only when
the socket is already TLS. The model follows the code: `EstablishWsTunnel`
wraps whenever `useTls` holds and the socket is not yet TLS, whether it was
passed in or not.

An IPv6 or other SOCKS5 address type closes the client after `05 00`,
with no further reply. A handshake whose peer closes early is not an
error: `read_headers` simply returns what it has.

## Model

| member | source | states |
|---|---|---|
| `Seqs.ReplaceIsSplitJoin` | ws_tunnel.py:17 | `replace(pat, rep)` equals splitting on `pat` and joining with `rep` |
| `Seqs.ReplaceWithoutPattern` | ws_tunnel.py:17 | a string without the pattern comes back unchanged from `replace` |
| `Seqs.ReplaceLeavesNoPattern` | ws_tunnel.py:17 | after `replace`, no occurrence of the pattern is left when no replacement element occurs in the pattern |
| `Seqs.SplitJoin` | ws_tunnel.py:88 | re-joining the blocks of `split(sep)` with `sep` gives back the input |
| `Seqs.SplitBlocksAreFree` | ws_tunnel.py:88 | no block produced by `split(sep)` contains `sep` |
| `Seqs.SplitLeftmost` | ws_tunnel.py:88 | every cut is the leftmost one: no block but the last, followed by all but the last element of `sep`, contains `sep` |
| `Decimal.IntToStringRoundTrip` | ws_tunnel.py:16 | the decimal text of the port in `"{host}:{port}"` reads back as that port |
| `Utf8.EncodeIsValid` | ws_tunnel.py:18 | every string's `encode()` output is well-formed UTF-8 |
| `WsTunnel.Substitute` | ws_tunnel.py:16-17 | every `[host]` becomes `host:port`, then every `[crlf]` becomes CRLF (as split/join); no `[crlf]` remains |
| `WsTunnel.PlaceholdersAbsent` | ws_tunnel.py:11-18 | a template with neither token is only encoded to bytes |
| `WsTunnel.PayloadBlocksRejoin` | ws_tunnel.py:87-88 | the payload splits into at least one block; no block holds CRLF CRLF; joining them with CRLF CRLF rebuilds the payload; each cut is the leftmost CRLF CRLF |
| `WsTunnel.Stream.Connect` | ws_tunnel.py:76-77 | a new connection to the given endpoint, with an empty log and no TLS |
| `WsTunnel.Stream.Recv` | ws_tunnel.py:28 | `recv(n)` returns the next up-to-n bytes, consumes exactly those, and logs the call |
| `WsTunnel.Stream.SendAll` | ws_tunnel.py:93 | `sendall` appends one write of the data to the log |
| `WsTunnel.Stream.WrapTls` | ws_tunnel.py:80-82 | wrapping records the server name, counts one more TLS layer and appends the wrap, with its server name, to the socket's call log |
| `WsTunnel.HeaderEnd` | ws_tunnel.py:26-32 | the least length at which the data read holds CRLF CRLF, or the whole input |
| `WsTunnel.ReadHeaders` | ws_tunnel.py:21-32 | returns the header prefix of the pending bytes and consumes exactly those; logs one single-byte read per byte, plus a final empty read if the stream ended |
| `WsTunnel.HeaderPrefixShape` | ws_tunnel.py:26-32 | the result is a prefix of the input; if it holds CRLF CRLF, it ends with it and holds no other; otherwise it is the whole input; a CRLF CRLF anywhere in the input is always found |
| `WsTunnel.SendRemaining` | ws_tunnel.py:105-107 | the loop over `blocks[1:]` writes each non-blank block followed by CRLF CRLF, in order |
| `WsTunnel.Exchange` | ws_tunnel.py:93-117 | first block, first response, remaining blocks, second response; the log is the same in both branches of the `100 Continue` test |
| `WsTunnel.EstablishWsTunnel` | ws_tunnel.py:76-125 | dials the proxy only when no socket is given; wraps in TLS with SNI = proxy host only when `use_tls` is set and the socket is not already TLS; returns that same socket; the log grows by that wrap, if one happened, and then by exactly the handshake trace, so every handshake byte is sent and read over the TLS layer |
| `WsTunnel.HandshakeNeverWraps` | ws_tunnel.py:93-117 | the handshake's own calls contain no TLS wrap: any wrap happens before the first write |
| `WsTunnel.HandshakeWritesAndReads` | ws_tunnel.py:93-117 | the first call is the write of `blocks[0]` + CRLF CRLF; the writes are that block and then the non-blank blocks of `blocks[1:]`, each terminated; the reads consume exactly the two responses, back to back |
| `WsTunnel.SingleBlockOneWrite` | ws_tunnel.py:88-117 | a one-block payload is sent in one write: the whole payload plus CRLF CRLF |
| `WsTunnel.TwoBlocksTwoWrites` | ws_tunnel.py:93-117 | a two-block payload whose second block is not blank is sent as exactly two terminated writes |
| `SshConnector.Port` | ssh_connector.py:87 | the big-endian `>H` value of two bytes lies in 0..65535 |
| `SshConnector.PortBytes` | ssh_connector.py:120 | the network-order bytes of a port decode back to that port |
| `SshConnector.Take` | ssh_connector.py:71 | `recv(1024)` returns at most 1024 bytes |
| `SshConnector.Connection.Recv` | ssh_connector.py:71 | reads the next segment, up to n bytes, consumes them, and logs the read with its data |
| `SshConnector.Connection.SendAll` | ssh_connector.py:93 | a reply is appended to the event log |
| `SshConnector.Connection.Close` | ssh_connector.py:73 | `close` is appended to the event log |
| `SshConnector.Connection.OpenChannel` | ssh_connector.py:133-137 | records a channel request to the destination; fails exactly for refused destinations |
| `SshConnector.HandleSocksClient` | ssh_connector.py:71-137 | the events are exactly the negotiation's reads and replies in order, then the channel request or a close, then a close if the channel is refused; the remaining input matches the number of reads |
| `SshConnector.UnknownClientClosed` | ssh_connector.py:71-74 | an empty first read, or a first byte other than 4 or 5, gives one read and then a close, with no reply and no channel |
| `SshConnector.Socks4ShortClosed` | ssh_connector.py:87-89 | a SOCKS4 request shorter than 8 bytes gives one read and then a close, with no reply and no channel |
| `SshConnector.Socks4RoundTrip` | ssh_connector.py:84-93 | for any command, and any user id small enough that the request arrives whole in one `recv(1024)`, a SOCKS4 request is granted with `00 5A` and the echoed port and address; the channel goes to the dotted quad and port |
| `SshConnector.Socks4FirstChunkGranted` | ssh_connector.py:84-93 | any first chunk of at least 8 bytes starting with 4 is granted with `00 5A` and its bytes 2..7, whatever follows; the channel goes to the dotted quad of bytes 4..7 and the big-endian port of bytes 2..3 |
| `SshConnector.Socks4Example` | ssh_connector.py:87-93 | `1.2.3.4:80` is granted with `00 5A 00 50 01 02 03 04` and a channel to `"1.2.3.4"`, 80 |
| `SshConnector.Socks5GreetingFirst` | ssh_connector.py:94-99 | the first three events of every SOCKS5 client are: greeting read, `05 00` sent (whatever methods were offered), connect request read; two reads happen |
| `SshConnector.Socks5RoundTrip` | ssh_connector.py:102-120 | for any version, command and reserved byte and any trailing bytes, an IPv4 request or a UTF-8 domain request parses to that address and port |
| `SshConnector.Socks5DomainRoundTrip` | ssh_connector.py:109-115 | a domain encoded from text always passes the `.decode()` step |
| `SshConnector.Socks5Session` | ssh_connector.py:94-124 | greeting then connect request gives: greeting read, `05 00`, request read, the fixed success reply, then a channel to the requested address |
| `SshConnector.Socks5ParseOutcome` | ssh_connector.py:102-120 | a connect request parses exactly when it has type 1 with four address bytes and a port, or type 3 with a length byte, that many UTF-8 name bytes and a port; otherwise it fails with an unsupported type for any other type, a decoding error for a name that does not decode, and truncation when a byte that is read is missing |
| `SshConnector.Socks5FailureClosed` | ssh_connector.py:94-120 | whenever the connect request fails to parse (too short, an unsupported type or an undecodable name; the exceptions reach the `except` clause at ssh_connector.py:156-158), the events are: greeting read, `05 00`, request read, close; `05 00` is the only reply and no channel is requested |
| `SshConnector.Socks5OtherAddressTypeClosed` | ssh_connector.py:116-119 | an address type other than 1 or 3 gives: greeting read, `05 00`, request read, close; `05 00` is the only reply and no channel is requested |
| `SshConnector.Socks5DomainExample` | ssh_connector.py:97-124 | CONNECT to `example.com:443` gives exactly the replies `05 00` and `05 00 00 01 00 00 00 00 00 00`, each after its read |
| `SshConnector.ChannelOnlyAfterSuccess` | ssh_connector.py:92-137 | a destination is chosen only together with a success reply, which is the last step before the channel request; the port is below 65536 |
| `SshConnector.ChannelRequestedAfterReplies` | ssh_connector.py:93-137 | in the event log, the channel request comes at most once, only after every read and reply, and goes to the negotiated destination |
| `TunnelStrategies.GetStrategyTable` | tunnel_strategies.py:104-113 | the three modes in any letter case select Direct, HttpPayload and SNIFronted; every other mode fails with a message listing `direct, http_payload, sni_fronted` in that order (iff) |
| `TunnelStrategies.ValidChoices` | tunnel_strategies.py:112 | the keys joined by `, ` are `direct, http_payload, sni_fronted` |
| `TunnelStrategies.GetStrategyIgnoresCase` | tunnel_strategies.py:110 | modes that agree after lower-casing select the same strategy |
| `TunnelStrategies.PlansDialAndTarget` | tunnel_strategies.py:38-90 | only Direct dials the target and runs no handshake; the other two dial the proxy, pass the target to the handshake and never set `use_tls`; a handshake reuses the strategy's socket exactly when the strategy wrapped it in TLS |
| `TunnelStrategies.Establish` | tunnel_strategies.py:38-90 | the socket is connected to the planned endpoint; only SNI-fronted wraps it in TLS, once, so it is never wrapped twice; its SNI is the front domain when that is set and non-empty, and the proxy host otherwise; it has seen the TLS wrap, if any, then exactly the handshake trace, or nothing for Direct; for SNI-fronted the log is the wrap with the front name followed by the handshake trace |

## Left out

- Paramiko transport, authentication, `close` and `connect_via_ws_and_start_socks`: a foreign library; `open_channel` is an abstract call that records the destination and fails for a given set of refused destinations.
- The `forward` threads, `accept_loop`, `bind`/`listen` and daemon threads: concurrency and socket lifecycle; the model stops when the channel is opened.
- The `client_sock.getsockname()` argument of `open_channel`: it carries no information the model uses.
- Real dialling and TLS: a connection is a `Stream` value and TLS is a server-name flag. No dial or TLS failure is modelled, and no `sendall` failure either, on the tunnel socket or to a SOCKS client that has gone away: every write is assumed delivered.
- A `recv` that raises (a connection reset, say) is not modelled: `Stream.Recv` and `Connection.Recv` always return data or end of stream. In `read_headers` such an error would leave `establish_ws_tunnel`; in `handle_socks_client` it would reach the `except` clause, which closes the client.
- `print` logging and the latin-1 decoding of responses.
- `main.py` and `config.py`: entry-point wiring and static data. A missing configuration key (`KeyError`) is not modelled, because the configuration is a record.
- `TunnelStrategies.Lower`: only ASCII letters are lower-cased. The lookup outcome is still exact: no other character lowers to key characters only. The Kelvin sign lowers to `k`, which is in no key, and U+0130 lowers to `i` followed by U+0307, which is in no key.
- `WsTunnel.ReplacePlaceholders`: `str.encode()` cannot fail here, because a Dafny `char` is a Unicode scalar value and a Python string with a lone surrogate cannot be expressed.
- SOCKS5 domain hosts stay as their UTF-8 bytes rather than Python `str`; a domain `.decode()` rejects closes the client like any other parse error.
