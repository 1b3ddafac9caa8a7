/** The packet aggregator of `PacketAnalyzer.analyze`
    (my_streamlit_app/core/analyzer.py): a capped, single pass over decoded packet
    records that counts protocols, conversations and destination ports and appends
    DNS queries and HTTP requests. Packet decoding is outside the model: a record
    says which layers and fields the decoder found. */
module Analyzer {
  import opened Wrappers
  import opened Text
  import opened Counters

  /** A TCP or UDP port number as decoded from the packet. */
  type Port = p: int | 0 <= p < 65536

  datatype IpLayer = IpLayer(src: string, dst: string)

  datatype DnsLayer = DnsLayer(qryName: Option<string>)

  datatype HttpLayer = HttpLayer(requestUri: Option<string>, requestMethod: Option<string>, host: Option<string>)

  /** One decoded packet; `None` is a layer or field the packet does not have. */
  datatype PacketRecord = PacketRecord(
    ip: Option<IpLayer>,
    transportLayer: Option<string>,
    tcpDstPort: Option<Port>,
    udpDstPort: Option<Port>,
    dns: Option<DnsLayer>,
    http: Option<HttpLayer>)

  datatype DnsQuery = DnsQuery(query: string, srcIp: string)

  datatype HttpRequest = HttpRequest(verb: string, uri: string, host: string)

  /** The `analysis` dictionary the analyzer returns. */
  datatype Analysis = Analysis(
    totalPackets: nat,
    protocols: Counter,
    conversations: Counter,
    ports: Counter,
    dnsQueries: seq<DnsQuery>,
    httpRequests: seq<HttpRequest>)

  /** The default `max_packets`. */
  const DefaultMaxPackets: nat := 50000

  /** Stand-in for a field the packet does not carry. */
  const Unknown: string := "Unknown"

  /** Default HTTP method when the request carries none. */
  const DefaultMethod: string := "GET"

  const EmptyAnalysis := Analysis(0, [], [], [], [], [])

  /** The body of the capture loop for a packet that is under the cap. */
  function Ingest(a: Analysis, r: PacketRecord): Analysis {
    var counted := a.(totalPackets := a.totalPackets + 1);
    var withIp :=
      if r.ip.None? then counted
      else
        var conv := r.ip.value.src + " -> " + r.ip.value.dst;
        var protocols :=
          if r.transportLayer.Some? then Increment(counted.protocols, r.transportLayer.value)
          else counted.protocols;
        var ports :=
          if r.tcpDstPort.Some? then Increment(counted.ports, "tcp/" + NatToString(r.tcpDstPort.value))
          else if r.udpDstPort.Some? then Increment(counted.ports, "udp/" + NatToString(r.udpDstPort.value))
          else counted.ports;
        counted.(conversations := Increment(counted.conversations, conv),
                 protocols := protocols, ports := ports);
    var withDns :=
      if r.dns.Some? && r.dns.value.qryName.Some? then
        var src := if r.ip.Some? then r.ip.value.src else Unknown;
        withIp.(dnsQueries := withIp.dnsQueries + [DnsQuery(r.dns.value.qryName.value, src)])
      else withIp;
    if r.http.Some? && r.http.value.requestUri.Some? then
      var h := r.http.value;
      var verb := if h.requestMethod.Some? then h.requestMethod.value else DefaultMethod;
      var host := if h.host.Some? then h.host.value else Unknown;
      withDns.(httpRequests := withDns.httpRequests + [HttpRequest(verb, h.requestUri.value, host)])
    else withDns
  }

  /** The statistics after accepting every record of `rs`, in order. */
  function IngestAll(rs: seq<PacketRecord>): Analysis
    decreases |rs|
  {
    if |rs| == 0 then EmptyAnalysis else Ingest(IngestAll(rs[..|rs| - 1]), rs[|rs| - 1])
  }

  /** How many records a run accepts: all of them up to `maxPackets`, none when the cap is not positive. */
  function AcceptedCount(n: nat, maxPackets: int): nat {
    if maxPackets <= 0 then 0 else if n <= maxPackets then n else maxPackets
  }

  /** `PacketAnalyzer.analyze` over an already-decoded capture: the loop stops as soon
      as `max_packets` records have been counted, before touching any field. */
  method Analyze(records: seq<PacketRecord>, maxPackets: int) returns (a: Analysis)
    ensures a.totalPackets == AcceptedCount(|records|, maxPackets)
    ensures a == IngestAll(records[..a.totalPackets])
  {
    a := EmptyAnalysis;
    var i := 0;
    while i < |records|
      invariant 0 <= i <= |records|
      invariant i == 0 || i <= maxPackets
      invariant a.totalPackets == i
      invariant a == IngestAll(records[..i])
    {
      if a.totalPackets >= maxPackets {
        break;
      }
      assert records[..i + 1][..i] == records[..i];
      a := Ingest(a, records[i]);
      i := i + 1;
    }
  }

  /** `analyze(pcap_file)` with the default cap of 50000 packets. */
  method AnalyzeDefault(records: seq<PacketRecord>) returns (a: Analysis)
    ensures a.totalPackets == if |records| <= DefaultMaxPackets then |records| else DefaultMaxPackets
    ensures a == IngestAll(records[..a.totalPackets])
  {
    a := Analyze(records, DefaultMaxPackets);
  }

  // What one record contributes, stated independently of the counters.

  /** The conversation key `"src -> dst"`, for records with an IP layer; it never carries a port. */
  function ConversationKey(r: PacketRecord): Option<string> {
    if r.ip.Some? then Some(r.ip.value.src + " -> " + r.ip.value.dst) else None
  }

  /** The transport protocol counted for the record, only when it has an IP layer. */
  function ProtocolKey(r: PacketRecord): Option<string> {
    if r.ip.Some? && r.transportLayer.Some? then Some(r.transportLayer.value) else None
  }

  /** The port key: `tcp/<dstport>` when TCP is present, else `udp/<dstport>`; only with an IP layer. */
  function PortKey(r: PacketRecord): Option<string> {
    if r.ip.None? then None
    else if r.tcpDstPort.Some? then Some("tcp/" + NatToString(r.tcpDstPort.value))
    else if r.udpDstPort.Some? then Some("udp/" + NatToString(r.udpDstPort.value))
    else None
  }

  /** The DNS entry: present when the record has a DNS layer with a query name. */
  function DnsEntry(r: PacketRecord): Option<DnsQuery> {
    match r.dns
    case Some(DnsLayer(Some(q))) =>
      Some(DnsQuery(q, match r.ip case Some(ip) => ip.src case None => Unknown))
    case _ => None
  }

  /** The HTTP entry: present when the record has an HTTP layer with a request URI. */
  function HttpEntry(r: PacketRecord): Option<HttpRequest> {
    match r.http
    case Some(HttpLayer(Some(uri), m, h)) =>
      Some(HttpRequest(match m case Some(v) => v case None => DefaultMethod,
                       uri,
                       match h case Some(v) => v case None => Unknown))
    case _ => None
  }

  function AsSeq<T>(o: Option<T>): seq<T> {
    match o
    case Some(v) => [v]
    case None => []
  }

  /** The contributions of `f` over `rs`, in record order. */
  function Gather<T>(rs: seq<PacketRecord>, f: PacketRecord -> Option<T>): (out: seq<T>)
    ensures |out| <= |rs|
    decreases |rs|
  {
    if |rs| == 0 then [] else Gather(rs[..|rs| - 1], f) + AsSeq(f(rs[|rs| - 1]))
  }

  /** The effect of one accepted record on every field of the statistics. */
  lemma {:induction false} IngestStep(a: Analysis, r: PacketRecord)
    ensures Ingest(a, r).totalPackets == a.totalPackets + 1
    ensures forall k :: Get(Ingest(a, r).conversations, k)
                        == Get(a.conversations, k) + (if ConversationKey(r) == Some(k) then 1 else 0)
    ensures forall k :: Get(Ingest(a, r).protocols, k)
                        == Get(a.protocols, k) + (if ProtocolKey(r) == Some(k) then 1 else 0)
    ensures forall k :: Get(Ingest(a, r).ports, k)
                        == Get(a.ports, k) + (if PortKey(r) == Some(k) then 1 else 0)
    ensures Total(Ingest(a, r).conversations) == Total(a.conversations) + |AsSeq(ConversationKey(r))|
    ensures Total(Ingest(a, r).ports) == Total(a.ports) + |AsSeq(PortKey(r))|
    ensures Ingest(a, r).dnsQueries == a.dnsQueries + AsSeq(DnsEntry(r))
    ensures Ingest(a, r).httpRequests == a.httpRequests + AsSeq(HttpEntry(r))
  {
    IngestConversation(a, r);
    IngestProtocol(a, r);
    IngestPort(a, r);
  }

  lemma {:induction false} IngestConversation(a: Analysis, r: PacketRecord)
    ensures forall k :: Get(Ingest(a, r).conversations, k)
                        == Get(a.conversations, k) + (if ConversationKey(r) == Some(k) then 1 else 0)
    ensures Total(Ingest(a, r).conversations) == Total(a.conversations) + |AsSeq(ConversationKey(r))|
  {
    if r.ip.Some? {
      var key := ConversationKey(r).value;
      assert Ingest(a, r).conversations == Increment(a.conversations, key);
      forall k
        ensures Get(Ingest(a, r).conversations, k)
                == Get(a.conversations, k) + (if ConversationKey(r) == Some(k) then 1 else 0)
      {
        IncrementGet(a.conversations, key, k);
      }
      IncrementTotal(a.conversations, key);
    }
  }

  lemma {:induction false} IngestProtocol(a: Analysis, r: PacketRecord)
    ensures forall k :: Get(Ingest(a, r).protocols, k)
                        == Get(a.protocols, k) + (if ProtocolKey(r) == Some(k) then 1 else 0)
  {
    if ProtocolKey(r).Some? {
      var key := ProtocolKey(r).value;
      assert Ingest(a, r).protocols == Increment(a.protocols, key);
      forall k
        ensures Get(Ingest(a, r).protocols, k)
                == Get(a.protocols, k) + (if ProtocolKey(r) == Some(k) then 1 else 0)
      {
        IncrementGet(a.protocols, key, k);
      }
    }
  }

  lemma {:induction false} IngestPort(a: Analysis, r: PacketRecord)
    ensures forall k :: Get(Ingest(a, r).ports, k)
                        == Get(a.ports, k) + (if PortKey(r) == Some(k) then 1 else 0)
    ensures Total(Ingest(a, r).ports) == Total(a.ports) + |AsSeq(PortKey(r))|
  {
    if PortKey(r).Some? {
      var key := PortKey(r).value;
      assert Ingest(a, r).ports == Increment(a.ports, key);
      forall k
        ensures Get(Ingest(a, r).ports, k)
                == Get(a.ports, k) + (if PortKey(r) == Some(k) then 1 else 0)
      {
        IncrementGet(a.ports, key, k);
      }
      IncrementTotal(a.ports, key);
    }
  }

  /** Accepting a record keeps every counter a valid dictionary. */
  lemma {:induction false} IngestValid(a: Analysis, r: PacketRecord)
    requires Valid(a.protocols) && Valid(a.conversations) && Valid(a.ports)
    ensures Valid(Ingest(a, r).protocols) && Valid(Ingest(a, r).conversations) && Valid(Ingest(a, r).ports)
  {
    if r.ip.Some? {
      IncrementValid(a.conversations, ConversationKey(r).value);
      if r.transportLayer.Some? {
        IncrementValid(a.protocols, r.transportLayer.value);
      }
      if PortKey(r).Some? {
        IncrementValid(a.ports, PortKey(r).value);
      }
    }
  }

  /** Adding one optional key to a sequence adds one to that key's multiplicity. */
  lemma {:induction false} MultisetSnoc(xs: seq<string>, o: Option<string>, k: string)
    ensures multiset(xs + AsSeq(o))[k] == multiset(xs)[k] + (if o == Some(k) then 1 else 0)
  {
  }

  /** After accepting `rs` the packet count is `|rs|` and every counter is a valid dictionary. */
  lemma {:induction false} IngestAllValid(rs: seq<PacketRecord>)
    ensures IngestAll(rs).totalPackets == |rs|
    ensures Valid(IngestAll(rs).protocols) && Valid(IngestAll(rs).conversations) && Valid(IngestAll(rs).ports)
    decreases |rs|
  {
    if |rs| > 0 {
      var pre := rs[..|rs| - 1];
      IngestAllValid(pre);
      IngestValid(IngestAll(pre), rs[|rs| - 1]);
    }
  }

  /** `conversations[k]` is the number of accepted records with an IP layer whose
      `"src -> dst"` is `k`, and the counts sum to the number of such records. */
  lemma {:induction false} ConversationCounts(rs: seq<PacketRecord>)
    ensures forall k :: Get(IngestAll(rs).conversations, k) == multiset(Gather(rs, ConversationKey))[k]
    ensures Total(IngestAll(rs).conversations) == |Gather(rs, ConversationKey)|
    decreases |rs|
  {
    if |rs| > 0 {
      var pre := rs[..|rs| - 1];
      var r := rs[|rs| - 1];
      ConversationCounts(pre);
      IngestConversation(IngestAll(pre), r);
      forall k
        ensures Get(IngestAll(rs).conversations, k) == multiset(Gather(rs, ConversationKey))[k]
      {
        MultisetSnoc(Gather(pre, ConversationKey), ConversationKey(r), k);
      }
    }
  }

  /** `protocols[p]` is the number of accepted records with an IP layer whose transport layer is `p`. */
  lemma {:induction false} ProtocolCounts(rs: seq<PacketRecord>)
    ensures forall k :: Get(IngestAll(rs).protocols, k) == multiset(Gather(rs, ProtocolKey))[k]
    decreases |rs|
  {
    if |rs| > 0 {
      var pre := rs[..|rs| - 1];
      var r := rs[|rs| - 1];
      ProtocolCounts(pre);
      IngestProtocol(IngestAll(pre), r);
      forall k
        ensures Get(IngestAll(rs).protocols, k) == multiset(Gather(rs, ProtocolKey))[k]
      {
        MultisetSnoc(Gather(pre, ProtocolKey), ProtocolKey(r), k);
      }
    }
  }

  /** `ports[k]` is the number of accepted records whose port key is `k`, and the counts
      sum to the number of records that carry one. */
  lemma {:induction false} PortCounts(rs: seq<PacketRecord>)
    ensures forall k :: Get(IngestAll(rs).ports, k) == multiset(Gather(rs, PortKey))[k]
    ensures Total(IngestAll(rs).ports) == |Gather(rs, PortKey)|
    decreases |rs|
  {
    if |rs| > 0 {
      var pre := rs[..|rs| - 1];
      var r := rs[|rs| - 1];
      PortCounts(pre);
      IngestPort(IngestAll(pre), r);
      forall k
        ensures Get(IngestAll(rs).ports, k) == multiset(Gather(rs, PortKey))[k]
      {
        MultisetSnoc(Gather(pre, PortKey), PortKey(r), k);
      }
    }
  }

  /** The DNS and HTTP lists hold exactly the accepted records' entries, in capture order. */
  lemma {:induction false} EntryLists(rs: seq<PacketRecord>)
    ensures IngestAll(rs).dnsQueries == Gather(rs, DnsEntry)
    ensures IngestAll(rs).httpRequests == Gather(rs, HttpEntry)
    decreases |rs|
  {
    if |rs| > 0 {
      var pre := rs[..|rs| - 1];
      EntryLists(pre);
    }
  }

  /** Every record that adds a port key or a protocol also adds a conversation. */
  lemma {:induction false} GatherOnlyWithIp(rs: seq<PacketRecord>)
    ensures |Gather(rs, PortKey)| <= |Gather(rs, ConversationKey)|
    ensures |Gather(rs, ProtocolKey)| <= |Gather(rs, ConversationKey)|
    decreases |rs|
  {
    if |rs| > 0 {
      GatherOnlyWithIp(rs[..|rs| - 1]);
    }
  }

  /** Per packet at most one conversation and one port are counted, so the sums of all
      conversation counts and of all port counts never exceed the packet count. */
  lemma {:induction false} CounterSumsBounded(rs: seq<PacketRecord>)
    ensures Total(IngestAll(rs).ports) <= Total(IngestAll(rs).conversations) <= IngestAll(rs).totalPackets
  {
    IngestAllValid(rs);
    ConversationCounts(rs);
    PortCounts(rs);
    GatherOnlyWithIp(rs);
  }

  /** `b` extends `a`: no count and no list has shrunk. */
  ghost predicate Grows(a: Analysis, b: Analysis) {
    && a.totalPackets <= b.totalPackets
    && (forall k :: Get(a.protocols, k) <= Get(b.protocols, k))
    && (forall k :: Get(a.conversations, k) <= Get(b.conversations, k))
    && (forall k :: Get(a.ports, k) <= Get(b.ports, k))
    && a.dnsQueries <= b.dnsQueries
    && a.httpRequests <= b.httpRequests
  }

  /** Processing more of the capture never decreases a count or removes a list entry. */
  lemma {:induction false} PrefixGrows(rs: seq<PacketRecord>, i: nat, j: nat)
    requires i <= j <= |rs|
    ensures Grows(IngestAll(rs[..i]), IngestAll(rs[..j]))
    decreases j - i
  {
    if i < j {
      PrefixGrows(rs, i, j - 1);
      assert rs[..j][..j - 1] == rs[..j - 1];
      IngestStep(IngestAll(rs[..j - 1]), rs[j - 1]);
    }
  }
}
