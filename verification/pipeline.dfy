/** The analyzer feeding the detector, as both front ends wire them
    (`detector.analyze(analyzer.analyze(...))`). The capture is read with the display
    filter `ip`, so addresses are dotted IPv4 text. For such captures the detector
    never raises on the analyzer's keys, and because the analyzer's conversation key
    is `"src -> dst"` without a port, the port-scan rule never fires. */
module Pipeline {
  import opened Wrappers
  import opened Text
  import opened Counters
  import opened Analyzer
  import opened Detector

  /** Address text made of digits and dots, as pyshark renders an IPv4 address. */
  predicate Ipv4Text(s: string) {
    forall i :: 0 <= i < |s| ==> s[i] == '.' || IsDigit(s[i])
  }

  /** Every record with an IP layer carries IPv4 address text. */
  predicate Ipv4Capture(rs: seq<PacketRecord>) {
    forall i :: 0 <= i < |rs| && rs[i].ip.Some? ==> Ipv4Text(rs[i].ip.value.src) && Ipv4Text(rs[i].ip.value.dst)
  }

  /** An analyzer conversation key between IPv4 addresses unpacks cleanly and names no port. */
  lemma {:induction false} Ipv4ConversationKey(src: string, dst: string)
    requires Ipv4Text(src) && Ipv4Text(dst)
    ensures ConversationPort(src + " -> " + dst) == Success(None)
  {
    var key := src + " -> " + dst;
    assert ' ' !in src && ' ' !in dst by {
      assert forall i :: 0 <= i < |src| ==> src[i] != ' ';
      assert forall i :: 0 <= i < |dst| ==> dst[i] != ' ';
    }
    SplitAtMarker(src, " -> ", dst);
    forall j: nat | j + 1 <= |dst|
      ensures dst[j..j + 1][0] == dst[j] && dst[j] != ':'
      ensures !OccursAt(dst, ":", j)
    {
    }
    assert forall j: nat :: !OccursAt(dst, ":", j);
    ContainsSpec(dst, ":");
  }

  /** An analyzer port key splits into the protocol and the number it was built from. */
  lemma {:induction false} PortKeyParses(protocol: string, p: Port)
    requires protocol == "tcp" || protocol == "udp"
    ensures ParsePortKey(protocol + "/" + NatToString(p)) == Success((protocol, p))
  {
    var digits := NatToString(p);
    assert '/' !in digits by {
      assert forall i :: 0 <= i < |digits| ==> digits[i] != '/';
    }
    SplitAtMarker(protocol, "/", digits);
    ParseNatToString(p);
  }

  /** Every element of a gathered sequence comes from some record. */
  lemma {:induction false} GatherFrom<T>(rs: seq<PacketRecord>, f: PacketRecord -> Option<T>, x: T)
    requires x in Gather(rs, f)
    ensures exists i :: 0 <= i < |rs| && f(rs[i]) == Some(x)
    decreases |rs|
  {
    var pre := rs[..|rs| - 1];
    if x in Gather(pre, f) {
      GatherFrom(pre, f, x);
      var i :| 0 <= i < |pre| && f(pre[i]) == Some(x);
      assert rs[i] == pre[i];
    } else {
      assert f(rs[|rs| - 1]) == Some(x);
    }
  }

  /** Every key stored in a counter of the analyzer's output was contributed by a record. */
  lemma {:induction false} StoredKeyContributed(c: Counter, ks: seq<string>, k: string)
    requires Valid(c)
    requires forall j :: Get(c, j) == multiset(ks)[j]
    requires k in Keys(c)
    ensures k in ks
  {
    GetPositive(c, k);
  }

  /** Over an IPv4 capture, every conversation key the analyzer stores unpacks cleanly and names no port. */
  lemma {:induction false} Ipv4ConversationKeys(rs: seq<PacketRecord>)
    requires Ipv4Capture(rs)
    ensures forall i :: 0 <= i < |IngestAll(rs).conversations| ==>
              ConversationPort(IngestAll(rs).conversations[i].key) == Success(None)
  {
    var c := IngestAll(rs).conversations;
    IngestAllValid(rs);
    ConversationCounts(rs);
    forall i | 0 <= i < |c|
      ensures ConversationPort(c[i].key) == Success(None)
    {
      var k := c[i].key;
      assert k == Keys(c)[i];
      StoredKeyContributed(c, Gather(rs, ConversationKey), k);
      GatherFrom(rs, ConversationKey, k);
      var j :| 0 <= j < |rs| && ConversationKey(rs[j]) == Some(k);
      Ipv4ConversationKey(rs[j].ip.value.src, rs[j].ip.value.dst);
    }
  }

  /** Every port key the analyzer stores splits and parses. */
  lemma {:induction false} PortKeysParse(rs: seq<PacketRecord>)
    ensures forall i :: 0 <= i < |IngestAll(rs).ports| ==> ParsePortKey(IngestAll(rs).ports[i].key).Success?
  {
    var c := IngestAll(rs).ports;
    IngestAllValid(rs);
    PortCounts(rs);
    forall i | 0 <= i < |c|
      ensures ParsePortKey(c[i].key).Success?
    {
      var k := c[i].key;
      assert k == Keys(c)[i];
      StoredKeyContributed(c, Gather(rs, PortKey), k);
      GatherFrom(rs, PortKey, k);
      var j :| 0 <= j < |rs| && PortKey(rs[j]) == Some(k);
      RecordPortKeyParses(rs[j]);
    }
  }

  lemma {:induction false} RecordPortKeyParses(r: PacketRecord)
    requires PortKey(r).Some?
    ensures ParsePortKey(PortKey(r).value).Success?
  {
    if r.tcpDstPort.Some? {
      PortKeyParses("tcp", r.tcpDstPort.value);
      assert PortKey(r).value == "tcp" + "/" + NatToString(r.tcpDstPort.value);
    } else {
      PortKeyParses("udp", r.udpDstPort.value);
      assert PortKey(r).value == "udp" + "/" + NatToString(r.udpDstPort.value);
    }
  }

  /** Over an IPv4 capture, the detector never raises on the analyzer's statistics and
      reports no port scan: the conversation keys carry no port for the rule to collect. */
  lemma {:induction false} Ipv4CaptureDetects(rs: seq<PacketRecord>)
    requires Ipv4Capture(rs)
    ensures Detect(IngestAll(rs)).Success?
    ensures forall f :: f in Detect(IngestAll(rs)).value.mediumSeverity ==> !f.PortScan?
  {
    var a := IngestAll(rs);
    Ipv4ConversationKeys(rs);
    PortKeysParse(rs);
    NoPortScans(a.conversations);
    SuspiciousPortsFail(a.ports);
    assert DetectSuspiciousPorts(a.ports).Success?;
    var dns := DetectDnsAnomalies(a.dnsQueries);
    assert Detect(a).value.mediumSeverity == [] + dns;
  }

  /** When no conversation key names a port, the port-scan rule reports nothing. */
  lemma {:induction false} NoPortScans(conversations: Counter)
    requires forall i :: 0 <= i < |conversations| ==> ConversationPort(conversations[i].key) == Success(None)
    ensures DetectPortScans(conversations) == Success([])
  {
    var keys := Keys(conversations);
    CollectPortsSpec(keys);
    PortScanFails(conversations);
    var g := CollectPorts(keys).value;
    forall src
      ensures PortsOf(g, src) == {}
    {
      assert TargetedPorts(keys, src) == {};
    }
    SomeSourceHasPorts(g);
  }

  /** Every recorded source has a port, so a non-empty grouping names some port. */
  lemma {:induction false} SomeSourceHasPorts(g: seq<SourcePorts>)
    requires GroupsValid(g)
    ensures g != [] ==> exists src :: PortsOf(g, src) != {}
  {
    if |g| > 0 {
      assert PortsOf(g, g[0].src) == g[0].ports;
    }
  }
}
