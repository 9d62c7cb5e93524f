/** `tunnel_strategies.py`: the three ways of obtaining the raw tunnel
    socket, the mode table that picks one, and what each one dials. */
module TunnelStrategies {
  import opened Common
  import opened Seqs
  import WsTunnel

  /** The configuration entries the strategies read. `frontDomain` is
      `cfg.get("FRONT_DOMAIN")`: missing or `None` is `None` here. */
  datatype Config = Config(proxyHost: string, proxyPort: int, targetHost: string, targetPort: int,
                           payloadTemplate: string, frontDomain: Option<string>)

  datatype Strategy = Direct | HttpPayload | SniFronted

  // ---------------------------------------------------------------------
  // get_strategy
  // ---------------------------------------------------------------------

  /** The table of `get_strategy`, in insertion order. */
  const Table: seq<(string, Strategy)> :=
    [("direct", Direct), ("http_payload", HttpPayload), ("sni_fronted", SniFronted)]

  function LowerChar(c: char): char
  {
    if 'A' <= c <= 'Z' then (c as int + 32) as char else c
  }

  /** `str.lower()` on the ASCII letters. */
  function Lower(s: string): string
  {
    seq(|s|, i requires 0 <= i < |s| => LowerChar(s[i]))
  }

  /** `table[key]`, `None` for a `KeyError`. */
  function Lookup(table: seq<(string, Strategy)>, key: string): Option<Strategy>
  {
    if table == [] then None
    else if table[0].0 == key then Some(table[0].1)
    else Lookup(table[1..], key)
  }

  /** `table.keys()`, in order. */
  function Keys(table: seq<(string, Strategy)>): seq<string>
  {
    if table == [] then [] else [table[0].0] + Keys(table[1..])
  }

  /** `get_strategy(mode)`: the strategy for the lower-cased mode, or the
      `ValueError` message. */
  function GetStrategy(mode: string): Result<Strategy, string>
  {
    match Lookup(Table, Lower(mode))
    case Some(s) => Success(s)
    case None => Failure("Unknown MODE '" + mode + "'. Valid choices: " + Join(Keys(Table), ", "))
  }

  /** The three modes, in any letter case, select their strategies; every
      other mode fails, and the message echoes the mode as given and lists
      the valid modes in table order. */
  lemma GetStrategyTable(mode: string)
    ensures Lower(mode) == "direct" ==> GetStrategy(mode) == Success(Direct)
    ensures Lower(mode) == "http_payload" ==> GetStrategy(mode) == Success(HttpPayload)
    ensures Lower(mode) == "sni_fronted" ==> GetStrategy(mode) == Success(SniFronted)
    ensures GetStrategy(mode).Failure? <==> Lower(mode) !in {"direct", "http_payload", "sni_fronted"}
    ensures GetStrategy(mode).Failure? ==>
              GetStrategy(mode).error
              == "Unknown MODE '" + mode + "'. Valid choices: " + "direct" + ", " + "http_payload" + ", " + "sni_fronted"
  {
    ValidChoices();
    LookupTable(Lower(mode));
  }

  lemma ValidChoices()
    ensures Join(Keys(Table), ", ") == "direct" + ", " + "http_payload" + ", " + "sni_fronted"
  {
    var keys := ["direct", "http_payload", "sni_fronted"];
    assert Keys(Table) == keys;
    assert Join(keys[2..], ", ") == "sni_fronted";
    assert Join(keys[1..], ", ") == "http_payload" + ", " + "sni_fronted";
  }

  lemma LookupTable(k: string)
    ensures Lookup(Table, k) == if k == "direct" then Some(Direct)
                                else if k == "http_payload" then Some(HttpPayload)
                                else if k == "sni_fronted" then Some(SniFronted)
                                else None
  {
    var t1 := Table[1..];
    var t2 := t1[1..];
    assert t1 == [("http_payload", HttpPayload), ("sni_fronted", SniFronted)];
    assert t2 == [("sni_fronted", SniFronted)];
    assert Lookup(t2[1..], k) == None;
    assert Lookup(t2, k) == if k == "sni_fronted" then Some(SniFronted) else None;
    assert Lookup(t1, k) == if k == "http_payload" then Some(HttpPayload) else Lookup(t2, k);
  }

  /** Two modes that differ only in the case of their letters select the same
      strategy. */
  lemma GetStrategyIgnoresCase(m1: string, m2: string)
    requires Lower(m1) == Lower(m2)
    ensures GetStrategy(m1).Success? == GetStrategy(m2).Success?
    ensures GetStrategy(m1).Success? ==> GetStrategy(m1).value == GetStrategy(m2).value
  {
  }

  // ---------------------------------------------------------------------
  // What each strategy connects to
  // ---------------------------------------------------------------------

  /** The arguments of the `establish_ws_tunnel` call a strategy makes;
      `reusesSocket` says whether it passes its own socket as `sock`. */
  datatype HandshakeCall = HandshakeCall(proxyHost: string, proxyPort: int, targetHost: string, targetPort: int,
                                         payloadTemplate: string, useTls: bool, reusesSocket: bool)

  /** What `establish` does: the endpoint dialled, the server name of the TLS
      wrap the strategy itself performs, and the handshake it runs. */
  datatype Plan = Plan(dial: (string, int), serverName: Option<string>, handshake: Option<HandshakeCall>)

  /** `self.cfg.get("FRONT_DOMAIN") or self.cfg["PROXY_HOST"]`. */
  function FrontName(cfg: Config): string
  {
    if cfg.frontDomain.Some? && cfg.frontDomain.value != "" then cfg.frontDomain.value else cfg.proxyHost
  }

  function PlanOf(s: Strategy, cfg: Config): Plan
  {
    match s
    case Direct =>
      Plan((cfg.targetHost, cfg.targetPort), None, None)
    case HttpPayload =>
      Plan((cfg.proxyHost, cfg.proxyPort), None,
           Some(HandshakeCall(cfg.proxyHost, cfg.proxyPort, cfg.targetHost, cfg.targetPort,
                              cfg.payloadTemplate, false, false)))
    case SniFronted =>
      Plan((cfg.proxyHost, cfg.proxyPort), Some(FrontName(cfg)),
           Some(HandshakeCall(cfg.proxyHost, cfg.proxyPort, cfg.targetHost, cfg.targetPort,
                              cfg.payloadTemplate, false, true)))
  }

  /** Only the direct strategy dials the target itself and runs no handshake;
      the two others dial the proxy and put the target into the handshake;
      no handshake is ever asked to add TLS. */
  lemma PlansDialAndTarget(s: Strategy, cfg: Config)
    ensures PlanOf(s, cfg).handshake.None? <==> s == Direct
    ensures s == Direct ==> PlanOf(s, cfg).dial == (cfg.targetHost, cfg.targetPort) && PlanOf(s, cfg).serverName == None
    ensures s != Direct ==>
              PlanOf(s, cfg).dial == (cfg.proxyHost, cfg.proxyPort) &&
              PlanOf(s, cfg).handshake.value.targetHost == cfg.targetHost &&
              PlanOf(s, cfg).handshake.value.targetPort == cfg.targetPort &&
              !PlanOf(s, cfg).handshake.value.useTls
    ensures PlanOf(s, cfg).handshake.Some? ==> (PlanOf(s, cfg).handshake.value.reusesSocket <==> PlanOf(s, cfg).serverName.Some?)
  {
  }

  /** `strategy_cls(cfg).establish()`. `incoming` is what the peer sends on
      the connection. The socket returned is connected to the plan's
      endpoint, carries at most the one TLS wrap the plan names (the
      handshake never wraps it again), and has seen that wrap, then exactly
      the handshake's calls when the plan has one: for `SniFronted` every
      handshake byte goes through the TLS layer named after the front. */
  method Establish(s: Strategy, cfg: Config, incoming: seq<byte>) returns (sock: WsTunnel.Stream)
    ensures fresh(sock)
    ensures var plan := PlanOf(s, cfg);
            sock.peer == plan.dial && sock.serverName == plan.serverName &&
            sock.wraps == (if plan.serverName.Some? then 1 else 0)
    ensures s == SniFronted && cfg.frontDomain.Some? && cfg.frontDomain.value != "" ==>
              sock.serverName == Some(cfg.frontDomain.value)
    ensures s == SniFronted && (cfg.frontDomain == None || cfg.frontDomain == Some("")) ==>
              sock.serverName == Some(cfg.proxyHost)
    ensures s != SniFronted ==> sock.serverName == None && sock.wraps == 0
    ensures match PlanOf(s, cfg).handshake
            case None => sock.log == [] && sock.pending == incoming
            case Some(h) =>
              sock.log == (if PlanOf(s, cfg).serverName.Some? then [WsTunnel.Wrapped(PlanOf(s, cfg).serverName.value)] else []) +
                          WsTunnel.HandshakeTrace(WsTunnel.PayloadBlocks(h.payloadTemplate, h.targetHost, h.targetPort), incoming) &&
              sock.pending == incoming[WsTunnel.HandshakeConsumed(incoming)..]
    ensures s == SniFronted ==>
              sock.log == [WsTunnel.Wrapped(FrontName(cfg))] +
                          WsTunnel.HandshakeTrace(WsTunnel.PayloadBlocks(cfg.payloadTemplate, cfg.targetHost, cfg.targetPort), incoming)
  {
    if s == Direct {
      sock := new WsTunnel.Stream.Connect(cfg.targetHost, cfg.targetPort, incoming);
    } else if s == HttpPayload {
      sock := WsTunnel.EstablishWsTunnel(cfg.proxyHost, cfg.proxyPort, cfg.targetHost, cfg.targetPort,
                                         cfg.payloadTemplate, false, null, incoming);
    } else {
      var raw := new WsTunnel.Stream.Connect(cfg.proxyHost, cfg.proxyPort, incoming);
      raw.WrapTls(FrontName(cfg));
      sock := WsTunnel.EstablishWsTunnel(cfg.proxyHost, cfg.proxyPort, cfg.targetHost, cfg.targetPort,
                                         cfg.payloadTemplate, false, raw, []);
    }
  }
}
