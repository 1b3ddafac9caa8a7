# PCAP analyzer and threat detector, modelled in Dafny

This project models the two-stage core of a small network-forensics tool.

The first stage is the packet aggregator, `PacketAnalyzer.analyze`. It makes one pass over a
capture, stopping after `max_packets` packets (50000 by default). For every packet with an IP
layer it counts:

- the conversation `"src -> dst"`;
- the transport protocol;
- the destination port, as `tcp/<port>` or else `udp/<port>`.

It also appends every DNS query, with its source address or `Unknown`. It appends every HTTP
request, with the method defaulting to `GET` and the host to `Unknown`.

The second stage is the rule engine, `ThreatDetector.analyze`. It applies four rules to those
statistics, in a fixed order, and files the findings into three severity buckets:

- **port scan**: a source targeting more than 10 distinct ports gives one Medium finding;
- **suspicious port**: a `tcp/` port key on the blocklist gives one High finding;
- **data exfiltration**: more than 1000 packets gives one Low finding;
- **DNS anomaly**: more than 50 DNS queries gives one Medium finding.

A summary then counts the findings in each bucket.

## Files

| file | contents |
|---|---|
| `wrappers.dfy` | `Option` and `Result`. |
| `text.dfy` | The string operations the rules use: `sep in s`, `str.split(sep)` with a non-empty separator, the two-part unpacking `a, b = s.split(sep)`, and decimal rendering and parsing of port numbers. |
| `counters.dfy` | `collections.Counter` as an insertion-ordered dictionary. A missing key reads as 0, and `+= 1` on a new key appends it at the end. The order matters because findings come out in dictionary order. |
| `analyzer.dfy` | Decoded packet records, the per-packet step `Ingest`, its fold `IngestAll` and the capped loop `Analyze`. It also gives each record's contribution to each statistic, stated without reference to the counters. |
| `detector.dfy` | The four rules, the engine `Detect` and the finding datatype. Every exception a rule can raise is a `DetectError` result. |
| `pipeline.dfy` | The two stages composed, as both front ends wire them. |

Each operation is paired with an independent reference definition, and lemmas connect the two:

- A counter's value for a key equals that key's multiplicity among the accepted records'
  contributions.
- The DNS and HTTP lists equal the accepted records' entries, in capture order.
- For each source, the port-scan rule's per-source set equals the set of port texts the
  conversation keys show that source targeting (`Detector.TargetedPorts`).
- Splitting and re-joining a string gives the string back.
- Parsing a rendered port number gives the number back.

Composing the two stages shows something about the detector as written. The analyzer's
conversation keys are `"src -> dst"` and never carry a port. Over an IPv4 capture, the
detector therefore never raises on the analyzer's output, and the port-scan rule never reports
anything (`Pipeline.Ipv4CaptureDetects`). A destination with two or more colons, such as an
IPv6 address, would make the rule raise (`Detector.Ipv6DestinationRaises`).

Two facts about the code shape the model:

- The DNS and HTTP lists are never capped, and there is no separate DNS total: the DNS rule
  counts `len(dns_queries)` itself (my_streamlit_app/core/detector.py:101).
- Conversation keys are `"src -> dst"` and never carry a port
  (my_streamlit_app/core/analyzer.py:46).

## Model

| member | source | states |
|---|---|---|
| Analyzer.Analyze | my_streamlit_app/core/analyzer.py:15-38 | The cap is checked before a packet is counted: the run accepts `min(n, max_packets)` packets, none when the cap is not positive, and the result is exactly the fold of the per-packet step over that prefix in capture order. |
| Analyzer.AnalyzeDefault | my_streamlit_app/core/analyzer.py:15 | Without an explicit cap, at most 50000 packets are accepted: the result is the fold over the first `min(n, 50000)` records. |
| Analyzer.IngestStep | my_streamlit_app/core/analyzer.py:38-73 | One accepted packet adds 1 to the packet count, adds 1 to exactly the counter keys the record contributes and to no other key, and appends exactly its DNS and HTTP entries. |
| Analyzer.IngestConversation | my_streamlit_app/core/analyzer.py:41-47 | Only a packet with an IP layer counts a conversation, under exactly `"src -> dst"`; every other key keeps its count, and the sum of counts grows by one exactly then. |
| Analyzer.IngestProtocol | my_streamlit_app/core/analyzer.py:50-51 | The transport protocol is counted only for a packet with an IP layer and a transport layer. |
| Analyzer.IngestPort | my_streamlit_app/core/analyzer.py:54-57 | A packet with an IP layer counts `tcp/<port>` when it has TCP, else `udp/<port>` when it has UDP, else nothing; never both. |
| Analyzer.IngestValid | my_streamlit_app/core/analyzer.py:47-57 | Counting keeps every counter a dictionary: keys unique, every stored count at least 1. |
| Analyzer.IngestAllValid | my_streamlit_app/core/analyzer.py:19-38 | After accepting a sequence of packets, the packet count is its length and all three counters are valid dictionaries. |
| Analyzer.ConversationCounts | my_streamlit_app/core/analyzer.py:41-47 | `conversations[k]` is the number of accepted packets with an IP layer whose `"src -> dst"` is `k`, and all counts sum to the number of such packets. |
| Analyzer.ProtocolCounts | my_streamlit_app/core/analyzer.py:41-51 | `protocols[p]` is the number of accepted packets with an IP layer whose transport protocol is `p`. |
| Analyzer.PortCounts | my_streamlit_app/core/analyzer.py:41-57 | `ports[k]` is the number of accepted packets whose port key is `k`, and all counts sum to the number of packets that carry one. |
| Analyzer.EntryLists | my_streamlit_app/core/analyzer.py:59-73 | The DNS list holds exactly the packets with a DNS query name, with the source address or `Unknown`; the HTTP list holds exactly the packets with a request URI, with the method defaulting to `GET` and the host to `Unknown`; both are in capture order and neither is capped. |
| Analyzer.GatherOnlyWithIp | my_streamlit_app/core/analyzer.py:41-57 | Ports and protocols are counted only inside the IP-layer branch, so no more packets contribute them than contribute conversations. |
| Analyzer.CounterSumsBounded | my_streamlit_app/core/analyzer.py:38-57 | The port counts sum to at most the conversation counts, which sum to at most the packet count. |
| Analyzer.PrefixGrows | my_streamlit_app/core/analyzer.py:34-73 | Processing more of the capture never lowers a count and never removes or reorders a recorded DNS or HTTP entry. |
| Counters.IncrementGet | my_streamlit_app/core/analyzer.py:47 | `c[k] += 1` adds exactly one to `k` and leaves every other key's count unchanged, whether or not `k` was present. |
| Counters.IncrementTotal | my_streamlit_app/core/analyzer.py:47 | `c[k] += 1` adds exactly one to the sum of all counts. |
| Counters.IncrementKeys | my_streamlit_app/core/analyzer.py:47 | Existing keys keep their iteration position; a new key is appended last. |
| Counters.IncrementValid | my_streamlit_app/core/analyzer.py:47 | `c[k] += 1` keeps keys unique and counts positive. |
| Counters.GetEntry | my_streamlit_app/core/analyzer.py:21-23 | In a dictionary with unique keys, reading a stored key yields its stored count. |
| Counters.GetPositive | my_streamlit_app/core/analyzer.py:21-23 | In a counter built by `+= 1`, a key is present exactly when its count is positive. |
| Text.FirstFromSpec | my_streamlit_app/core/detector.py:56 | The substring search returns an occurrence of the separator and no earlier one, and returns nothing only when there is no occurrence at all. |
| Text.ContainsSpec | my_streamlit_app/core/detector.py:56 | `sep in s` holds exactly when `sep` occurs at some position of `s`. |
| Text.Split2 | my_streamlit_app/core/detector.py:57 | The two-name unpacking succeeds exactly when `split` yields two parts, and then the string is the first part, the separator and the second part. |
| Text.JoinSplit | my_streamlit_app/core/detector.py:57 | `sep.join(s.split(sep)) == s`. |
| Text.SplitPartsLackSep | my_streamlit_app/core/detector.py:57 | No part produced by `split` contains the separator. |
| Text.SplitAtMarker | my_streamlit_app/core/detector.py:57 | When neither side contains the separator's first character, `(a + sep + b).split(sep)` is exactly `[a, b]`. |
| Text.NatToString | my_streamlit_app/core/analyzer.py:55 | A rendered port number is a non-empty string of decimal digits. |
| Text.ParseDecimal | my_streamlit_app/core/detector.py:77 | `int()` succeeds exactly on non-empty digit strings (within the modelled alphabet). |
| Text.ParseNatToString | my_streamlit_app/core/detector.py:76-77 | Parsing the rendering of a number gives the number back. |
| Detector.ConversationPortShape | my_streamlit_app/core/detector.py:56-61 | A conversation key contributes a (source, port) pair only when it is spelled `source -> host:port`, and then it contributes exactly that source and that port text. |
| Detector.NoArrowNoPort | my_streamlit_app/core/detector.py:56 | A key in which `" -> "` occurs nowhere is skipped without error and contributes nothing. |
| Detector.WellFormedKeyContributes | my_streamlit_app/core/detector.py:56-61 | Conversely, a key `src -> host:port` with no stray space or colon contributes exactly `(src, port)`. |
| Detector.WellFormedKeysTargeted | my_streamlit_app/core/detector.py:53-61 | Keys `src -> host:p` for a list of port texts show `src` targeting exactly the distinct texts of that list, and no other source targeting anything; with `Detector.PortScanRule`, eleven distinct ports give one finding carrying 11. |
| Detector.Ipv6DestinationRaises | my_streamlit_app/core/detector.py:59-60 | A destination with two or more colons makes the destination unpacking raise. |
| Detector.AddPortEffect | my_streamlit_app/core/detector.py:61 | `src_ports[src].add(port)` adds exactly that port to that source's set and changes no other source. |
| Detector.AddPortValid | my_streamlit_app/core/detector.py:53-61 | The grouping keeps sources unique and their port sets non-empty. |
| Detector.CollectFails | my_streamlit_app/core/detector.py:55-61 | The grouping loop raises exactly when some key fails to unpack. |
| Detector.CollectGroups | my_streamlit_app/core/detector.py:53-61 | When the grouping loop completes, each source's set is exactly the set of port texts its keys name. |
| Detector.CollectPortsSpec | my_streamlit_app/core/detector.py:53-61 | Both of the above, stated over the conversation keys. |
| Detector.ScanFindings | my_streamlit_app/core/detector.py:63-71 | Every reported finding is a port scan with more than 10 ports. |
| Detector.ScanFindingsFrom | my_streamlit_app/core/detector.py:63-71 | The reporting loop yields one finding for a source exactly when its set has more than 10 ports, carrying the set's size. |
| Detector.PortScanRule | my_streamlit_app/core/detector.py:51-71 | A source gets exactly one "Port Scan" finding, carrying its number of distinct targeted ports, exactly when that number exceeds 10; repeats count once and 10 ports yield nothing. |
| Detector.PortScanFails | my_streamlit_app/core/detector.py:55-60 | The port-scan rule raises exactly when some conversation key fails to unpack. |
| Detector.FlaggedIsTcp | my_streamlit_app/core/detector.py:76-79 | A key is flagged exactly when it is `tcp/` followed by a digit string whose value (leading zeros allowed) is on the TCP blocklist; `udp/` keys never qualify. |
| Detector.FlagPortsFail | my_streamlit_app/core/detector.py:75-77 | The suspicious-port loop raises exactly when some key fails to split or parse. |
| Detector.SuspiciousPortsFail | my_streamlit_app/core/detector.py:73-77 | As above, stated over the port counter. |
| Detector.SuspiciousPortRule | my_streamlit_app/core/detector.py:73-86 | A port key yields exactly one "Suspicious Port" finding, carrying its count, exactly when it is present and flagged, and none otherwise. |
| Detector.SuspiciousPortsFlagged | my_streamlit_app/core/detector.py:79-86 | Every suspicious-port finding is about a flagged key. |
| Detector.SuspiciousPortsInOrder | my_streamlit_app/core/detector.py:73-86 | The rule's findings are exactly one per flagged entry, carrying its key and count, in the order `ports.items()` iterates. |
| Detector.DetectFails | my_streamlit_app/core/detector.py:18-39 | The engine raises exactly when a conversation key or a port key is malformed. |
| Detector.BucketSeverities | my_streamlit_app/core/detector.py:29-39 | The High bucket holds only suspicious-port findings, the Medium bucket only port scans and DNS anomalies, and the Low bucket only the volume finding; each finding's confidence matches its bucket. |
| Detector.SummaryCounts | my_streamlit_app/core/detector.py:41-47 | The summary total is the sum of the bucket sizes, and each severity's count equals the number of findings of that severity across all buckets. |
| Detector.PortScanFindings | my_streamlit_app/core/detector.py:29-30 | In the Medium bucket, a source has one port-scan finding exactly when it targets more than 10 distinct ports. |
| Detector.SuspiciousPortFindings | my_streamlit_app/core/detector.py:32-33 | In the High bucket, a key has one finding exactly when it is present and flagged, and every finding there is about a `tcp/` key. |
| Detector.HighBucketOrder | my_streamlit_app/core/detector.py:32-33 | The High bucket is exactly the flagged port entries in counter iteration order. |
| Detector.VolumeFinding | my_streamlit_app/core/detector.py:88-97 | The Low bucket holds exactly one finding, carrying the packet count, when more than 1000 packets were counted, and is empty at 1000 or fewer. |
| Detector.DnsFinding | my_streamlit_app/core/detector.py:99-107 | The Medium bucket holds exactly one DNS finding, carrying the full number of recorded queries, when there are more than 50, and none at 50 or fewer. |
| Detector.MediumOrder | my_streamlit_app/core/detector.py:29-39 | Within the Medium bucket, every port-scan finding precedes the DNS anomaly. |
| Pipeline.Ipv4ConversationKey | my_streamlit_app/core/detector.py:56-61 | A key `"src -> dst"` between IPv4 addresses unpacks cleanly and names no port. |
| Pipeline.PortKeyParses | my_streamlit_app/core/detector.py:76-77 | A port key the analyzer builds splits into its protocol and the number it was rendered from. |
| Pipeline.Ipv4ConversationKeys | my_streamlit_app/core/analyzer.py:41-47 | Over an IPv4 capture, every conversation key the analyzer stores unpacks cleanly and names no port. |
| Pipeline.PortKeysParse | my_streamlit_app/core/analyzer.py:54-57 | Every port key the analyzer stores splits and parses. |
| Pipeline.NoPortScans | my_streamlit_app/core/detector.py:51-71 | When no conversation key names a port, the port-scan rule reports nothing. |
| Pipeline.Ipv4CaptureDetects | my_streamlit_app/core/detector.py:18-49 | Over an IPv4 capture, the detector never raises on the analyzer's output and reports no port scan. |

## Left out

- Reading the capture is not modelled: pyshark's `FileCapture`, its `ip` display filter and `close`, the decoding of packets, and the logging and re-raising of exceptions. A capture is a sequence of already-decoded records.
- Logging is not modelled; it does not affect the results.
- The `packet_sizes`, `timestamps` and `suspicious_activity` lists are not modelled: they are created empty and never written.
- The report generator, the web and command-line front ends and the sample-capture generators are not part of this model.
- Analyzer.PacketRecord: `transport_layer` is an optional field. pyshark's `transport_layer` property is `None` for a packet with neither TCP nor UDP (ICMP, say), and `hasattr` is still true, so the source runs `protocols[None] += 1` for such an IP packet. The model's counters have string keys only, so `Analyzer.ProtocolKey` contributes nothing for such a packet and the `None` count is not modelled.
- Analyzer.PacketRecord: a destination port is a decoded number from 0 to 65535, rendered in decimal. pyshark's raw field text is not modelled.
- Text.ParseDecimal: `int()` is modelled only on ASCII digit strings. Python also accepts a sign, surrounding whitespace, underscores and non-ASCII digits, so the model raises on some keys Python would parse. The analyzer never builds such keys (`Pipeline.PortKeysParse`).
- Detector.UdpSuspiciousPorts: the UDP blocklist is defined but never consulted, exactly as in the code.
- The order of the `src_ports` dictionary is insertion order, as in Python. Only the set of findings per source is stated, not their relative order across sources.
