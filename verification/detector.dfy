/** The rule engine of `ThreatDetector.analyze` (my_streamlit_app/core/detector.py):
    four rules read the analyzer's statistics, in a fixed order, and append findings
    to three severity buckets; the summary is then recomputed from the buckets.
    The tuple unpackings and `int()` conversion in the rules raise on malformed keys;
    those exceptions are the `DetectError` results. */
module Detector {
  import opened Wrappers
  import opened Text
  import opened Counters
  import opened Analyzer

  datatype Severity = High | Medium | Low {
    /** The `confidence` string reports and dashboards key on. */
    function Name(): string {
      match this
      case High => "High"
      case Medium => "Medium"
      case Low => "Low"
    }
  }

  /** One finding; the source builds it as a dictionary with these fields. */
  datatype Finding =
    | PortScan(sourceIp: string, portsTargeted: nat)
    | SuspiciousPort(port: string, count: nat)
    | DataExfiltration(packetCount: nat)
    | DnsAnomaly(queryCount: nat)
  {
    /** The `type` field. */
    function Type(): string {
      match this
      case PortScan(_, _) => "Port Scan"
      case SuspiciousPort(_, _) => "Suspicious Port"
      case DataExfiltration(_) => "Potential Data Exfiltration"
      case DnsAnomaly(_) => "DNS Anomaly"
    }

    /** The `confidence` field. */
    function Confidence(): Severity {
      match this
      case PortScan(_, _) => Medium
      case SuspiciousPort(_, _) => High
      case DataExfiltration(_) => Low
      case DnsAnomaly(_) => Medium
    }

    /** The `description` field. */
    function Description(): string {
      match this
      case PortScan(src, n) =>
        "Potential port scan from " + src + " to " + NatToString(n) + " different ports"
      case SuspiciousPort(p, _) => "Communication on known suspicious port " + p
      case DataExfiltration(_) => "High packet volume detected - review for data exfiltration"
      case DnsAnomaly(_) => "High volume of DNS queries detected"
    }
  }

  datatype Summary = Summary(total: nat, high: nat, medium: nat, low: nat)

  /** The `threats` dictionary. */
  datatype Threats = Threats(
    highSeverity: seq<Finding>,
    mediumSeverity: seq<Finding>,
    lowSeverity: seq<Finding>,
    summary: Summary)

  /** The exceptions the rules can raise. */
  datatype DetectError =
    | ConversationUnpack(conversation: string)  // `src_ip, dst_ip = conversation.split(' -> ')`
    | DestinationUnpack(conversation: string)   // `dst_ip, port = dst_ip.split(':')`
    | PortKeyUnpack(key: string)                // `protocol, port_str = port_proto.split('/')`
    | PortNotInteger(key: string)               // `int(port_str)`

  /** The `suspicious_ports` table. Only the TCP list is ever consulted. */
  const TcpSuspiciousPorts: seq<nat> := [4444, 5555, 6666, 7777, 8888, 9999, 1337, 31337, 12345, 54321]
  const UdpSuspiciousPorts: seq<nat> := [69, 161, 162, 1434, 1900, 5353]

  const PortScanThreshold: nat := 10
  const VolumeThreshold: nat := 1000
  const DnsQueryThreshold: nat := 50

  // ---------------------------------------------------------------------------
  // Port-scan rule

  /** What one conversation key contributes to the port-scan rule: nothing when it
      has no `" -> "` or its destination has no `:`, else the source and the text
      after the colon; an error when either unpacking does not see exactly two parts. */
  function ConversationPort(key: string): Result<Option<(string, string)>, DetectError> {
    if !Contains(key, " -> ") then Success(None)
    else
      match Split2(key, " -> ")
      case None => Failure(ConversationUnpack(key))
      case Some((src, dst)) =>
        if !Contains(dst, ":") then Success(None)
        else
          match Split2(dst, ":")
          case None => Failure(DestinationUnpack(key))
          case Some((_, port)) => Success(Some((src, port)))
  }

  /** What each key contributes, key by key. */
  type Contribution = Result<Option<(string, string)>, DetectError>

  function Contributions(keys: seq<string>): (cs: seq<Contribution>)
    ensures |cs| == |keys|
    ensures forall i :: 0 <= i < |keys| ==> cs[i] == ConversationPort(keys[i])
  {
    seq(|keys|, i requires 0 <= i < |keys| => ConversationPort(keys[i]))
  }

  /** The distinct port texts a sequence of contributions shows `src` targeting. */
  function PortsTargetedBy(cs: seq<Contribution>, src: string): set<string> {
    set i | 0 <= i < |cs| && cs[i].Success? && cs[i].value.Some? && cs[i].value.value.0 == src
      :: cs[i].value.value.1
  }

  /** Reference definition: the distinct port texts the conversation keys show `src` targeting. */
  function TargetedPorts(keys: seq<string>, src: string): set<string> {
    PortsTargetedBy(Contributions(keys), src)
  }

  /** One entry of `src_ports = defaultdict(set)`. */
  datatype SourcePorts = SourcePorts(src: string, ports: set<string>)

  /** `src_ports[src]`, the empty set for a source never seen. */
  function PortsOf(g: seq<SourcePorts>, src: string): set<string> {
    if |g| == 0 then {} else if g[0].src == src then g[0].ports else PortsOf(g[1..], src)
  }

  /** `src_ports[src].add(port)`: a new source is appended at the end. */
  function AddPort(g: seq<SourcePorts>, src: string, port: string): seq<SourcePorts> {
    if |g| == 0 then [SourcePorts(src, {port})]
    else if g[0].src == src then [SourcePorts(src, g[0].ports + {port})] + g[1..]
    else [g[0]] + AddPort(g[1..], src, port)
  }

  /** Sources are unique and each has at least one port. */
  predicate GroupsValid(g: seq<SourcePorts>) {
    && (forall i, j :: 0 <= i < j < |g| ==> g[i].src != g[j].src)
    && (forall i :: 0 <= i < |g| ==> g[i].ports != {})
  }

  /** The first loop of `_detect_port_scans`, over the keys' contributions in order:
      the first malformed key raises. */
  function Collect(cs: seq<Contribution>): Result<seq<SourcePorts>, DetectError>
    decreases |cs|
  {
    if |cs| == 0 then Success([])
    else
      var g :- Collect(cs[..|cs| - 1]);
      var found :- cs[|cs| - 1];
      match found
      case None => Success(g)
      case Some((src, port)) => Success(AddPort(g, src, port))
  }

  function CollectPorts(keys: seq<string>): Result<seq<SourcePorts>, DetectError> {
    Collect(Contributions(keys))
  }

  /** The second loop of `_detect_port_scans`: one finding per source with more than ten ports. */
  function ScanFindings(g: seq<SourcePorts>): (fs: seq<Finding>)
    ensures forall f :: f in fs ==> f.PortScan? && f.portsTargeted > PortScanThreshold
  {
    if |g| == 0 then []
    else
      (if |g[0].ports| > PortScanThreshold then [PortScan(g[0].src, |g[0].ports|)] else [])
      + ScanFindings(g[1..])
  }

  /** `_detect_port_scans`. */
  function DetectPortScans(conversations: Counter): Result<seq<Finding>, DetectError> {
    var g :- CollectPorts(Keys(conversations));
    Success(ScanFindings(g))
  }

  // ---------------------------------------------------------------------------
  // Suspicious-port rule

  /** `protocol, port_str = port_proto.split('/')` followed by `int(port_str)`. */
  function ParsePortKey(key: string): Result<(string, nat), DetectError> {
    match Split2(key, "/")
    case None => Failure(PortKeyUnpack(key))
    case Some((protocol, portText)) =>
      match ParseDecimal(portText)
      case None => Failure(PortNotInteger(key))
      case Some(n) => Success((protocol, n))
  }

  /** The key is a TCP port on the blocklist. */
  predicate Flagged(key: string) {
    match ParsePortKey(key)
    case Success((protocol, n)) => protocol == "tcp" && n in TcpSuspiciousPorts
    case Failure(_) => false
  }

  /** Each port key's split and conversion, key by key. */
  function ParsedKeys(ports: Counter): (ps: seq<Result<(string, nat), DetectError>>)
    ensures |ps| == |ports|
    ensures forall i :: 0 <= i < |ports| ==> ps[i] == ParsePortKey(ports[i].key)
  {
    seq(|ports|, i requires 0 <= i < |ports| => ParsePortKey(ports[i].key))
  }

  /** The loop of `_detect_suspicious_ports` over the entries in iteration order, each with
      its parsed key: the first malformed key raises. */
  function FlagPorts(ports: Counter, ps: seq<Result<(string, nat), DetectError>>): Result<seq<Finding>, DetectError>
    requires |ps| == |ports|
    decreases |ports|
  {
    if |ports| == 0 then Success([])
    else
      var parsed :- ps[0];
      var here :=
        if parsed.0 == "tcp" && parsed.1 in TcpSuspiciousPorts then [SuspiciousPort(ports[0].key, ports[0].count)]
        else [];
      var rest :- FlagPorts(ports[1..], ps[1..]);
      Success(here + rest)
  }

  /** `_detect_suspicious_ports`. */
  function DetectSuspiciousPorts(ports: Counter): Result<seq<Finding>, DetectError> {
    FlagPorts(ports, ParsedKeys(ports))
  }

  // ---------------------------------------------------------------------------
  // Volume and DNS rules

  /** `_detect_data_exfiltration`. */
  function DetectDataExfiltration(totalPackets: nat): seq<Finding> {
    if totalPackets > VolumeThreshold then [DataExfiltration(totalPackets)] else []
  }

  /** `_detect_dns_anomalies`: it counts every recorded query, not a sample. */
  function DetectDnsAnomalies(dnsQueries: seq<DnsQuery>): seq<Finding> {
    if |dnsQueries| > DnsQueryThreshold then [DnsAnomaly(|dnsQueries|)] else []
  }

  // ---------------------------------------------------------------------------
  // The engine

  function Summarize(high: seq<Finding>, medium: seq<Finding>, low: seq<Finding>): Summary {
    Summary(|high| + |medium| + |low|, |high|, |medium|, |low|)
  }

  /** `ThreatDetector.analyze`: the four rules in their fixed order, each appending to
      its bucket, then the summary. An exception in a rule aborts the whole call. */
  function Detect(data: Analysis): Result<Threats, DetectError> {
    var scans :- DetectPortScans(data.conversations);
    var suspicious :- DetectSuspiciousPorts(data.ports);
    var exfiltration := DetectDataExfiltration(data.totalPackets);
    var dns := DetectDnsAnomalies(data.dnsQueries);
    var high := suspicious;
    var medium := scans + dns;
    var low := exfiltration;
    Success(Threats(high, medium, low, Summarize(high, medium, low)))
  }

  // ---------------------------------------------------------------------------
  // Selecting findings

  function Select(fs: seq<Finding>, p: Finding -> bool): (out: seq<Finding>)
    ensures forall f :: f in out ==> f in fs && p(f)
    ensures |out| <= |fs|
  {
    if |fs| == 0 then [] else (if p(fs[0]) then [fs[0]] else []) + Select(fs[1..], p)
  }

  /** The port-scan findings about `src`. */
  function ScansFrom(fs: seq<Finding>, src: string): seq<Finding> {
    Select(fs, (f: Finding) => f.PortScan? && f.sourceIp == src)
  }

  /** The suspicious-port findings about the port key `key`. */
  function SuspiciousAt(fs: seq<Finding>, key: string): seq<Finding> {
    Select(fs, (f: Finding) => f.SuspiciousPort? && f.port == key)
  }

  function DnsAnomalies(fs: seq<Finding>): seq<Finding> {
    Select(fs, (f: Finding) => f.DnsAnomaly?)
  }

  /** How many findings have severity `s`. */
  function CountSeverity(fs: seq<Finding>, s: Severity): nat {
    |Select(fs, (f: Finding) => f.Confidence() == s)|
  }

  lemma {:induction false} SelectConcat(a: seq<Finding>, b: seq<Finding>, p: Finding -> bool)
    ensures Select(a + b, p) == Select(a, p) + Select(b, p)
    decreases |a|
  {
    if |a| == 0 {
      assert a + b == b;
    } else {
      assert (a + b)[0] == a[0];
      assert (a + b)[1..] == a[1..] + b;
      SelectConcat(a[1..], b, p);
    }
  }

  lemma {:induction false} SelectAll(fs: seq<Finding>, p: Finding -> bool)
    requires forall f :: f in fs ==> p(f)
    ensures Select(fs, p) == fs
    decreases |fs|
  {
    if |fs| > 0 {
      SelectAll(fs[1..], p);
    }
  }

  lemma {:induction false} SelectNone(fs: seq<Finding>, p: Finding -> bool)
    requires forall f :: f in fs ==> !p(f)
    ensures Select(fs, p) == []
    decreases |fs|
  {
    if |fs| > 0 {
      SelectNone(fs[1..], p);
    }
  }

  // ---------------------------------------------------------------------------
  // Port-scan rule: grouping by source

  function Sources(g: seq<SourcePorts>): (ss: seq<string>)
    ensures |ss| == |g|
    ensures forall i :: 0 <= i < |g| ==> ss[i] == g[i].src
  {
    if |g| == 0 then [] else [g[0].src] + Sources(g[1..])
  }

  /** Adding a port grows exactly one source's set, by exactly that port. */
  lemma {:induction false} AddPortEffect(g: seq<SourcePorts>, src: string, port: string, s: string)
    ensures PortsOf(AddPort(g, src, port), s) == PortsOf(g, s) + (if s == src then {port} else {})
  {
    if |g| > 0 && g[0].src != src {
      AddPortEffect(g[1..], src, port, s);
      assert AddPort(g, src, port)[1..] == AddPort(g[1..], src, port);
    }
  }

  lemma {:induction false} AddPortSources(g: seq<SourcePorts>, src: string, port: string)
    ensures Sources(AddPort(g, src, port)) == if src in Sources(g) then Sources(g) else Sources(g) + [src]
  {
    if |g| > 0 {
      var r := AddPort(g, src, port);
      if g[0].src == src {
        assert src in Sources(g);
        assert Sources(r) == [src] + Sources(g[1..]);
      } else {
        AddPortSources(g[1..], src, port);
        assert r[1..] == AddPort(g[1..], src, port);
        assert Sources(g) == [g[0].src] + Sources(g[1..]);
        assert Sources(r) == [g[0].src] + Sources(AddPort(g[1..], src, port));
        assert src in Sources(g) <==> src in Sources(g[1..]);
      }
    }
  }

  lemma {:induction false} AddPortNonEmpty(g: seq<SourcePorts>, src: string, port: string)
    requires forall i :: 0 <= i < |g| ==> g[i].ports != {}
    ensures forall i :: 0 <= i < |AddPort(g, src, port)| ==> AddPort(g, src, port)[i].ports != {}
  {
    if |g| > 0 && g[0].src != src {
      AddPortNonEmpty(g[1..], src, port);
      assert AddPort(g, src, port)[1..] == AddPort(g[1..], src, port);
    }
  }

  /** `src_ports[src].add(port)` keeps sources unique and their port sets non-empty. */
  lemma {:induction false} AddPortValid(g: seq<SourcePorts>, src: string, port: string)
    requires GroupsValid(g)
    ensures GroupsValid(AddPort(g, src, port))
  {
    AddPortSources(g, src, port);
    AddPortNonEmpty(g, src, port);
  }

  /** The port `src` targets through one contribution, if any. */
  function PortFrom(c: Contribution, src: string): set<string> {
    match c
    case Success(Some((s, port))) => if s == src then {port} else {}
    case _ => {}
  }

  lemma {:induction false} PortsTargetedBySnoc(cs: seq<Contribution>, src: string)
    requires |cs| > 0
    ensures PortsTargetedBy(cs, src) == PortsTargetedBy(cs[..|cs| - 1], src) + PortFrom(cs[|cs| - 1], src)
  {
    var pre := cs[..|cs| - 1];
    forall p | p in PortsTargetedBy(cs, src)
      ensures p in PortsTargetedBy(pre, src) + PortFrom(cs[|cs| - 1], src)
    {
      var i :| 0 <= i < |cs| && cs[i].Success? && cs[i].value.Some? && cs[i].value.value.0 == src
               && cs[i].value.value.1 == p;
      if i < |pre| {
        assert pre[i] == cs[i];
      }
    }
    forall p | p in PortsTargetedBy(pre, src)
      ensures p in PortsTargetedBy(cs, src)
    {
      var i :| 0 <= i < |pre| && pre[i].Success? && pre[i].value.Some? && pre[i].value.value.0 == src
               && pre[i].value.value.1 == p;
      assert cs[i] == pre[i];
    }
  }

  /** Only a key spelled `src -> <host>:<port>` contributes, and it contributes exactly
      that source and port text. */
  lemma {:induction false} ConversationPortShape(key: string)
    requires ConversationPort(key).Success? && ConversationPort(key).value.Some?
    ensures exists host :: key == ConversationPort(key).value.value.0 + " -> " + host + ":"
                                  + ConversationPort(key).value.value.1
  {
    var (src, dst) := Split2(key, " -> ").value;
    var (host, port) := Split2(dst, ":").value;
    assert key == src + " -> " + host + ":" + port;
  }

  /** A key in which `" -> "` occurs nowhere contributes nothing. */
  lemma {:induction false} NoArrowNoPort(key: string)
    requires forall j :: !OccursAt(key, " -> ", j)
    ensures ConversationPort(key) == Success(None)
  {
    ContainsSpec(key, " -> ");
  }

  /** Conversely, a key spelled `src -> host:port` with no stray space or colon contributes
      exactly that source and port text. */
  lemma {:induction false} WellFormedKeyContributes(src: string, host: string, port: string)
    requires ' ' !in src && ' ' !in host && ' ' !in port && ':' !in host && ':' !in port
    ensures ConversationPort(src + " -> " + host + ":" + port) == Success(Some((src, port)))
  {
    var dst := host + ":" + port;
    assert ' ' !in dst;
    assert src + " -> " + host + ":" + port == src + " -> " + dst;
    SplitAtMarker(src, " -> ", dst);
    SplitAtMarker(host, ":", port);
  }

  /** The conversation keys `src -> host:p` for each port text `p` of `ports`, in order. */
  function KeysTo(src: string, host: string, ports: seq<string>): (keys: seq<string>)
    ensures |keys| == |ports|
    ensures forall i :: 0 <= i < |ports| ==> keys[i] == src + " -> " + host + ":" + ports[i]
  {
    seq(|ports|, i requires 0 <= i < |ports| => src + " -> " + host + ":" + ports[i])
  }

  /** Keys `src -> host:p` show `src` targeting exactly the distinct port texts `p`, and no
      other source targeting anything. */
  lemma {:induction false} WellFormedKeysTargeted(src: string, host: string, ports: seq<string>)
    requires ' ' !in src && ' ' !in host && ':' !in host
    requires forall i :: 0 <= i < |ports| ==> ' ' !in ports[i] && ':' !in ports[i]
    ensures TargetedPorts(KeysTo(src, host, ports), src) == set i | 0 <= i < |ports| :: ports[i]
    ensures forall s :: s != src ==> TargetedPorts(KeysTo(src, host, ports), s) == {}
  {
    var keys := KeysTo(src, host, ports);
    var cs := Contributions(keys);
    forall i | 0 <= i < |ports|
      ensures cs[i] == Success(Some((src, ports[i])))
    {
      WellFormedKeyContributes(src, host, ports[i]);
    }
  }

  /** A destination with two or more colons, as any IPv6 address has, makes
      `dst_ip.split(':')` yield more than two parts, and the rule raises. */
  lemma {:induction false} Ipv6DestinationRaises(src: string, head: string, rest: string)
    requires ' ' !in src && ' ' !in head && ' ' !in rest
    requires ':' !in head && ':' in rest
    ensures ConversationPort(src + " -> " + head + ":" + rest)
         == Failure(DestinationUnpack(src + " -> " + head + ":" + rest))
  {
    var dst := head + ":" + rest;
    var key := src + " -> " + dst;
    assert key == src + " -> " + head + ":" + rest;
    assert ' ' !in dst;
    SplitAtMarker(src, " -> ", dst);
    SplitAtFirst(head, ":", rest);
    var k :| 0 <= k < |rest| && rest[k] == ':';
    assert OccursAt(rest, ":", k) by {
      assert rest[k..k + 1] == ":";
    }
    ContainsSpec(rest, ":");
    SplitContaining(rest, ":");
  }

  /** The grouping loop fails exactly when some contribution is an error. */
  lemma {:induction false} CollectFails(cs: seq<Contribution>)
    ensures Collect(cs).Failure? <==> exists i :: 0 <= i < |cs| && cs[i].Failure?
    decreases |cs|
  {
    if |cs| > 0 {
      var pre := cs[..|cs| - 1];
      CollectFails(pre);
      assert forall i :: 0 <= i < |pre| ==> pre[i] == cs[i];
    }
  }

  /** When the grouping loop succeeds, sources are unique and each source's set is
      exactly the ports the contributions show it targeting. */
  lemma {:induction false} CollectGroups(cs: seq<Contribution>)
    requires Collect(cs).Success?
    ensures GroupsValid(Collect(cs).value)
    ensures forall src :: PortsOf(Collect(cs).value, src) == PortsTargetedBy(cs, src)
    decreases |cs|
  {
    if |cs| > 0 {
      var pre := cs[..|cs| - 1];
      var g := Collect(pre).value;
      CollectGroups(pre);
      match cs[|cs| - 1].value
      case None =>
        forall src
          ensures PortsOf(Collect(cs).value, src) == PortsTargetedBy(cs, src)
        {
          PortsTargetedBySnoc(cs, src);
        }
      case Some((s, port)) =>
        AddPortValid(g, s, port);
        forall src
          ensures PortsOf(Collect(cs).value, src) == PortsTargetedBy(cs, src)
        {
          PortsTargetedBySnoc(cs, src);
          AddPortEffect(g, s, port, src);
        }
    }
  }

  /** The grouping loop fails exactly when some key is malformed; otherwise each source's
      set is exactly the ports the keys show it targeting. */
  lemma {:induction false} CollectPortsSpec(keys: seq<string>)
    ensures CollectPorts(keys).Failure? <==> exists i :: 0 <= i < |keys| && ConversationPort(keys[i]).Failure?
    ensures CollectPorts(keys).Success? ==>
              && GroupsValid(CollectPorts(keys).value)
              && forall src :: PortsOf(CollectPorts(keys).value, src) == TargetedPorts(keys, src)
  {
    var cs := Contributions(keys);
    CollectFails(cs);
    if CollectPorts(keys).Success? {
      CollectGroups(cs);
    }
  }

  lemma {:induction false} PortsOfAbsent(g: seq<SourcePorts>, src: string)
    requires forall i :: 0 <= i < |g| ==> g[i].src != src
    ensures PortsOf(g, src) == {}
    decreases |g|
  {
    if |g| > 0 {
      PortsOfAbsent(g[1..], src);
    }
  }

  /** The reporting loop yields, for each source, one finding exactly when its set has
      more than ten ports. */
  lemma {:induction false} ScanFindingsFrom(g: seq<SourcePorts>, src: string)
    requires GroupsValid(g)
    ensures ScansFrom(ScanFindings(g), src)
         == if |PortsOf(g, src)| > PortScanThreshold then [PortScan(src, |PortsOf(g, src)|)] else []
    decreases |g|
  {
    if |g| > 0 {
      var here := if |g[0].ports| > PortScanThreshold then [PortScan(g[0].src, |g[0].ports|)] else [];
      var rest := g[1..];
      assert GroupsValid(rest);
      ScanFindingsFrom(rest, src);
      SelectConcat(here, ScanFindings(rest), (f: Finding) => f.PortScan? && f.sourceIp == src);
      if g[0].src == src {
        assert forall i :: 0 <= i < |rest| ==> rest[i].src != src by {
          assert forall i :: 0 <= i < |rest| ==> rest[i] == g[i + 1];
        }
        PortsOfAbsent(rest, src);
      }
    }
  }

  /** Port-scan rule: a source gets one Medium "Port Scan" finding, carrying its number
      of distinct targeted ports, exactly when it targets more than ten distinct ports
      (ten yields none). Ports are collected into a set, so repeats count once, and only
      keys with `" -> "` whose destination has a `:` contribute. */
  lemma {:induction false} PortScanRule(conversations: Counter, src: string)
    requires DetectPortScans(conversations).Success?
    ensures var n := |TargetedPorts(Keys(conversations), src)|;
            ScansFrom(DetectPortScans(conversations).value, src)
              == if n > PortScanThreshold then [PortScan(src, n)] else []
  {
    CollectPortsSpec(Keys(conversations));
    ScanFindingsFrom(CollectPorts(Keys(conversations)).value, src);
  }

  /** The port-scan rule raises exactly when some conversation key fails to unpack. */
  lemma {:induction false} PortScanFails(conversations: Counter)
    ensures DetectPortScans(conversations).Failure?
        <==> exists i :: 0 <= i < |conversations| && ConversationPort(conversations[i].key).Failure?
  {
    CollectPortsSpec(Keys(conversations));
  }

  // ---------------------------------------------------------------------------
  // Suspicious-port rule

  /** A key is flagged exactly when it is spelled `tcp/` followed by a decimal number on
      the TCP blocklist (leading zeros allowed, as `int()` allows them): UDP entries never qualify. */
  lemma {:induction false} FlaggedIsTcp(key: string)
    ensures Flagged(key)
        <==> && |key| >= 4 && key[..4] == "tcp/"
             && ParseDecimal(key[4..]).Some? && ParseDecimal(key[4..]).value in TcpSuspiciousPorts
  {
    if Flagged(key) {
      var parts := Split2(key, "/").value;
      assert key == "tcp" + "/" + parts.1;
      assert key[4..] == parts.1;
    }
    if |key| >= 4 && key[..4] == "tcp/" && ParseDecimal(key[4..]).Some? {
      var digits := key[4..];
      assert '/' !in digits by {
        assert forall i :: 0 <= i < |digits| ==> IsDigit(digits[i]);
      }
      assert '/' !in "tcp";
      assert key == "tcp" + "/" + digits;
      SplitAtMarker("tcp", "/", digits);
    }
  }

  lemma {:induction false} FlagPortsFail(ports: Counter, ps: seq<Result<(string, nat), DetectError>>)
    requires |ps| == |ports|
    ensures FlagPorts(ports, ps).Failure? <==> exists i :: 0 <= i < |ps| && ps[i].Failure?
    decreases |ports|
  {
    if |ports| > 0 {
      FlagPortsFail(ports[1..], ps[1..]);
      assert forall i :: 1 <= i < |ps| ==> ps[1..][i - 1] == ps[i];
    }
  }

  /** The suspicious-port rule raises exactly when some port key fails to split or parse. */
  lemma {:induction false} SuspiciousPortsFail(ports: Counter)
    ensures DetectSuspiciousPorts(ports).Failure?
        <==> exists i :: 0 <= i < |ports| && ParsePortKey(ports[i].key).Failure?
  {
    FlagPortsFail(ports, ParsedKeys(ports));
  }

  lemma {:induction false} FlagPortsRule(ports: Counter, ps: seq<Result<(string, nat), DetectError>>, key: string)
    requires |ps| == |ports|
    requires forall i :: 0 <= i < |ports| ==> ps[i] == ParsePortKey(ports[i].key)
    requires DistinctKeys(ports)
    requires FlagPorts(ports, ps).Success?
    ensures SuspiciousAt(FlagPorts(ports, ps).value, key)
         == if key in Keys(ports) && Flagged(key) then [SuspiciousPort(key, Get(ports, key))] else []
    decreases |ports|
  {
    if |ports| > 0 {
      var rest := ports[1..];
      assert DistinctKeys(rest);
      FlagPortsRule(rest, ps[1..], key);
      var parsed := ps[0].value;
      var here :=
        if parsed.0 == "tcp" && parsed.1 in TcpSuspiciousPorts then [SuspiciousPort(ports[0].key, ports[0].count)]
        else [];
      assert FlagPorts(ports, ps).value == here + FlagPorts(rest, ps[1..]).value;
      SelectConcat(here, FlagPorts(rest, ps[1..]).value, (f: Finding) => f.SuspiciousPort? && f.port == key);
      assert Keys(ports) == [ports[0].key] + Keys(rest);
      if ports[0].key == key {
        assert key !in Keys(rest) by {
          assert forall i :: 0 <= i < |rest| ==> rest[i] == ports[i + 1];
        }
      }
    }
  }

  /** Suspicious-port rule: a port entry produces one High "Suspicious Port" finding,
      carrying its count, exactly when its protocol is `tcp` and its number is on the
      TCP blocklist. */
  lemma {:induction false} SuspiciousPortRule(ports: Counter, key: string)
    requires DistinctKeys(ports)
    requires DetectSuspiciousPorts(ports).Success?
    ensures SuspiciousAt(DetectSuspiciousPorts(ports).value, key)
         == if key in Keys(ports) && Flagged(key) then [SuspiciousPort(key, Get(ports, key))] else []
  {
    FlagPortsRule(ports, ParsedKeys(ports), key);
  }

  lemma {:induction false} FlagPortsFlagged(ports: Counter, ps: seq<Result<(string, nat), DetectError>>)
    requires |ps| == |ports|
    requires forall i :: 0 <= i < |ports| ==> ps[i] == ParsePortKey(ports[i].key)
    requires FlagPorts(ports, ps).Success?
    ensures forall f :: f in FlagPorts(ports, ps).value ==> f.SuspiciousPort? && Flagged(f.port)
    decreases |ports|
  {
    if |ports| > 0 {
      FlagPortsFlagged(ports[1..], ps[1..]);
    }
  }

  /** Every suspicious-port finding is about a flagged key. */
  lemma {:induction false} SuspiciousPortsFlagged(ports: Counter)
    requires DetectSuspiciousPorts(ports).Success?
    ensures forall f :: f in DetectSuspiciousPorts(ports).value ==> f.SuspiciousPort? && Flagged(f.port)
  {
    FlagPortsFlagged(ports, ParsedKeys(ports));
  }

  /** Reference definition: one finding per flagged entry, in counter iteration order. */
  function FlaggedEntries(ports: Counter): seq<Finding>
    decreases |ports|
  {
    if |ports| == 0 then []
    else
      (if Flagged(ports[0].key) then [SuspiciousPort(ports[0].key, ports[0].count)] else [])
      + FlaggedEntries(ports[1..])
  }

  lemma {:induction false} FlagPortsOrder(ports: Counter, ps: seq<Result<(string, nat), DetectError>>)
    requires |ps| == |ports|
    requires forall i :: 0 <= i < |ports| ==> ps[i] == ParsePortKey(ports[i].key)
    requires FlagPorts(ports, ps).Success?
    ensures FlagPorts(ports, ps).value == FlaggedEntries(ports)
    decreases |ports|
  {
    if |ports| > 0 {
      FlagPortsOrder(ports[1..], ps[1..]);
    }
  }

  /** The suspicious-port findings are exactly the flagged entries, one each, in the order
      the port counter iterates. */
  lemma {:induction false} SuspiciousPortsInOrder(ports: Counter)
    requires DetectSuspiciousPorts(ports).Success?
    ensures DetectSuspiciousPorts(ports).value == FlaggedEntries(ports)
  {
    FlagPortsOrder(ports, ParsedKeys(ports));
  }

  // ---------------------------------------------------------------------------
  // The engine as a whole

  /** `analyze` raises exactly when a conversation key or a port key is malformed. */
  lemma {:induction false} DetectFails(data: Analysis)
    ensures Detect(data).Failure?
        <==> || (exists i :: 0 <= i < |data.conversations| && ConversationPort(data.conversations[i].key).Failure?)
             || (exists i :: 0 <= i < |data.ports| && ParsePortKey(data.ports[i].key).Failure?)
  {
    PortScanFails(data.conversations);
    SuspiciousPortsFail(data.ports);
  }

  /** Each bucket holds only findings of its own severity: suspicious ports are High,
      port scans and the DNS anomaly Medium, the volume finding Low. */
  lemma {:induction false} BucketSeverities(data: Analysis)
    requires Detect(data).Success?
    ensures forall f :: f in Detect(data).value.highSeverity ==> f.Confidence() == High && f.SuspiciousPort?
    ensures forall f :: f in Detect(data).value.mediumSeverity ==>
              f.Confidence() == Medium && (f.PortScan? || f.DnsAnomaly?)
    ensures forall f :: f in Detect(data).value.lowSeverity ==> f.Confidence() == Low && f.DataExfiltration?
  {
    SuspiciousPortsFlagged(data.ports);
  }

  /** The summary counts the buckets: the total is their combined length and each
      severity's count is the number of findings, over all buckets, of that severity. */
  lemma {:induction false} SummaryCounts(data: Analysis)
    requires Detect(data).Success?
    ensures var t := Detect(data).value;
            && t.summary.total == |t.highSeverity| + |t.mediumSeverity| + |t.lowSeverity|
            && t.summary.high == |t.highSeverity|
            && t.summary.medium == |t.mediumSeverity|
            && t.summary.low == |t.lowSeverity|
    ensures var t := Detect(data).value;
            var all := t.highSeverity + t.mediumSeverity + t.lowSeverity;
            && t.summary.high == CountSeverity(all, High)
            && t.summary.medium == CountSeverity(all, Medium)
            && t.summary.low == CountSeverity(all, Low)
  {
    var t := Detect(data).value;
    BucketSeverities(data);
    SeverityCount(t.highSeverity, t.mediumSeverity, t.lowSeverity, High);
    SeverityCount(t.highSeverity, t.mediumSeverity, t.lowSeverity, Medium);
    SeverityCount(t.highSeverity, t.mediumSeverity, t.lowSeverity, Low);
  }

  lemma {:induction false} SeverityCount(h: seq<Finding>, m: seq<Finding>, l: seq<Finding>, s: Severity)
    requires forall f :: f in h ==> f.Confidence() == High
    requires forall f :: f in m ==> f.Confidence() == Medium
    requires forall f :: f in l ==> f.Confidence() == Low
    ensures CountSeverity(h + m + l, s) == match s case High => |h| case Medium => |m| case Low => |l|
  {
    var p := (f: Finding) => f.Confidence() == s;
    SelectConcat(h + m, l, p);
    SelectConcat(h, m, p);
    match s
    case High =>
      SelectAll(h, p);
      SelectNone(m, p);
      SelectNone(l, p);
    case Medium =>
      SelectNone(h, p);
      SelectAll(m, p);
      SelectNone(l, p);
    case Low =>
      SelectNone(h, p);
      SelectNone(m, p);
      SelectAll(l, p);
  }

  /** Port-scan findings in the Medium bucket: one per source that targets more than
      ten distinct ports, carrying that number. */
  lemma {:induction false} PortScanFindings(data: Analysis, src: string)
    requires Detect(data).Success?
    ensures var n := |TargetedPorts(Keys(data.conversations), src)|;
            ScansFrom(Detect(data).value.mediumSeverity, src)
              == if n > PortScanThreshold then [PortScan(src, n)] else []
  {
    var scans := DetectPortScans(data.conversations).value;
    var dns := DetectDnsAnomalies(data.dnsQueries);
    var p := (f: Finding) => f.PortScan? && f.sourceIp == src;
    SelectConcat(scans, dns, p);
    SelectNone(dns, p);
    PortScanRule(data.conversations, src);
  }

  /** Suspicious-port findings in the High bucket: one per TCP port key on the blocklist,
      carrying its count; none for any other key, in particular none for `udp/...`. */
  lemma {:induction false} SuspiciousPortFindings(data: Analysis, key: string)
    requires DistinctKeys(data.ports)
    requires Detect(data).Success?
    ensures SuspiciousAt(Detect(data).value.highSeverity, key)
         == if key in Keys(data.ports) && Flagged(key) then [SuspiciousPort(key, Get(data.ports, key))] else []
    ensures forall f :: f in Detect(data).value.highSeverity ==>
              f.SuspiciousPort? && |f.port| >= 4 && f.port[..4] == "tcp/"
  {
    SuspiciousPortRule(data.ports, key);
    SuspiciousPortsFlagged(data.ports);
    forall f | f in Detect(data).value.highSeverity
      ensures f.SuspiciousPort? && |f.port| >= 4 && f.port[..4] == "tcp/"
    {
      FlaggedIsTcp(f.port);
    }
  }

  /** The High bucket lists the flagged port entries in counter iteration order. */
  lemma {:induction false} HighBucketOrder(data: Analysis)
    requires Detect(data).Success?
    ensures Detect(data).value.highSeverity == FlaggedEntries(data.ports)
  {
    SuspiciousPortsInOrder(data.ports);
  }

  /** Volume rule: exactly one Low finding, carrying the packet count, when more than
      1000 packets were counted; 1000 or fewer yield none. */
  lemma {:induction false} VolumeFinding(data: Analysis)
    requires Detect(data).Success?
    ensures data.totalPackets > VolumeThreshold
        <==> Detect(data).value.lowSeverity == [DataExfiltration(data.totalPackets)]
    ensures data.totalPackets <= VolumeThreshold <==> Detect(data).value.lowSeverity == []
  {
  }

  /** DNS rule: exactly one Medium "DNS Anomaly" finding, carrying the full number of
      recorded queries, when there are more than 50; 50 or fewer yield none. */
  lemma {:induction false} DnsFinding(data: Analysis)
    requires Detect(data).Success?
    ensures DnsAnomalies(Detect(data).value.mediumSeverity)
         == if |data.dnsQueries| > DnsQueryThreshold then [DnsAnomaly(|data.dnsQueries|)] else []
  {
    var scans := DetectPortScans(data.conversations).value;
    var dns := DetectDnsAnomalies(data.dnsQueries);
    var p := (f: Finding) => f.DnsAnomaly?;
    SelectConcat(scans, dns, p);
    SelectNone(scans, p);
    SelectAll(dns, p);
  }

  /** Within the Medium bucket every port-scan finding precedes the DNS anomaly,
      following the fixed rule order. */
  lemma {:induction false} MediumOrder(data: Analysis)
    requires Detect(data).Success?
    ensures var m := Detect(data).value.mediumSeverity;
            forall i, j :: 0 <= i < |m| && 0 <= j < |m| && m[i].PortScan? && m[j].DnsAnomaly? ==> i < j
  {
    var scans := DetectPortScans(data.conversations).value;
    var dns := DetectDnsAnomalies(data.dnsQueries);
    var m := scans + dns;
    assert Detect(data).value.mediumSeverity == m;
    forall k | 0 <= k < |scans|
      ensures m[k].PortScan? && !m[k].DnsAnomaly?
    {
      assert m[k] == scans[k];
      assert m[k] in scans;
    }
    forall k | |scans| <= k < |m|
      ensures m[k].DnsAnomaly? && !m[k].PortScan?
    {
      assert m[k] == dns[k - |scans|];
    }
  }
}
