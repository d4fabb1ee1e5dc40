# redis-tools analyzers in Dafny

This project models the two analyzers of redis-tools, and proves properties of the model.

- `FetchSlowLogs`, `splitLines` and `isMaster` come from `analyzer/slowlog_analyzer.go`.
  - The analyzer decides whether the target is a cluster or a standalone server.
  - It lists the nodes from the `CLUSTER NODES` text.
  - It visits each node in turn, asking for its `INFO replication` and its `SLOWLOG GET` reply, and prints the well-formed entries.
  - It stops at the first node that fails.
- `AnalyzeClientList` comes from `analyzer/clientlist_analyzer.go`. It counts the connections per client IP in the text of `CLIENT LIST`.

The network queries are inputs to the model. Each is a `Query` that either answered or failed.

- For `FetchSlowLogs`, the `CLUSTER INFO` and `CLUSTER NODES` results are parameters. So is `respond(i)`, the `INFO replication` and `SLOWLOG GET` answers of the i-th node visited.
- An untyped reply of the client library is a `Reply`: an `Int`, a `Str`, an `Arr` of replies, or `Other`.
- The printed report is kept as one `Section` per visited node: its address, then the entries printed for it.
- A run ends with a `Status`. It is `Done`, a `Returned` error, or `Panicked` at one of the two places where the code indexes past the end of a value.

Modules:

| file | module | what it holds |
|---|---|---|
| `sequences.dfy` | `Sequences` | small sequence facts used by the proofs |
| `go_strings.dfy` | `GoStrings` | the parts of Go's `strings` package the analyzers use: `Fields`, `Split`, `HasPrefix`, `TrimPrefix`, `Contains` and the `TrimSpace(s) == ""` test; `Join` and `LastIndexOf` are not called by the analyzers and serve the round-trip lemmas and the corrected client key |
| `redis.dfy` | `Redis` | query results, untyped replies, `int64`, the returned errors |
| `lines.dfy` | `Lines` | `splitLines` and `isMaster` |
| `topology.dfy` | `Topology` | cluster detection and `CLUSTER NODES` parsing |
| `slowlog.dfy` | `SlowLog` | the `SLOWLOG GET` entry filter, the node visit, the fail-fast node loop, `FetchSlowLogs` |
| `clientlist.dfy` | `ClientList` | `AnalyzeClientList` |

Each loop of the source is a method with loop invariants, proved against a specification. The properties are lemmas about the specifications.

- These methods are proved equal to a recursive specification function:
  - `Lines.SplitLines` (`LinesOf`)
  - `Lines.CheckMaster` (`IsMaster`, through the recursive scan `FirstRoleIsMaster`)
  - `Topology.DiscoverNodes` (`Discovery`, through `NodeAddresses`)
  - `SlowLog.RenderLog` (`RenderEntries`)
  - `SlowLog.CollectSlowLogs` (`Collect`)
  - `ClientList.CountClients` and `ClientList.CountParts` (`ClientCounts`, through `Tally`)
- `SlowLog.VisitNode` has no loop. It is proved equal to the non-recursive `NodeVisit`.
- `ClientList.EmitStats` and `ClientList.AnalyzeClientList` range over a Go map, whose order is unspecified. They are not equal to any one function. They are proved to satisfy the relation `Tabulates`: one record per key, no key twice, each with the key's count.

On these points the model follows what the code does, which is not what a reader of the tool's messages would expect:

- A failed `INFO replication` query ends the run, as the code returns it, although the reply is only printed.
- An empty `INFO` reply panics at `info[0]`.
- A `SLOWLOG GET` entry that is not an array is skipped rather than rejected.
- An entry of exactly three items panics at `logEntry[3]`.
- The execution time is not checked to be non-negative.

## Model

| member | source | states |
|---|---|---|
| GoStrings.IndexOf | analyzer/slowlog_analyzer.go:42 | the position of the first occurrence of the character, or the length when there is none; nothing before it is that character |
| GoStrings.Split | analyzer/clientlist_analyzer.go:29 | `strings.Split` with a one-character separator: at least one piece, the first piece is the text up to the first separator, and no piece holds the separator |
| GoStrings.JoinOfSplit | analyzer/clientlist_analyzer.go:29 | joining the pieces of `strings.Split` with the separator gives back the text |
| GoStrings.SplitOfJoin | analyzer/clientlist_analyzer.go:29 | splitting the join of separator-free pieces gives back the pieces |
| GoStrings.SplitLength | analyzer/clientlist_analyzer.go:29 | `strings.Split` returns one piece more than there are separators |
| GoStrings.SplitCons | analyzer/clientlist_analyzer.go:29 | text up to a first separator, the separator, then the rest splits into that text followed by the pieces of the rest |
| GoStrings.SplitOfWord | analyzer/slowlog_analyzer.go:42 | a text without the separator is a single piece |
| GoStrings.TrimPrefix | analyzer/clientlist_analyzer.go:37 | with the prefix present, the prefix followed by the result is the text; otherwise the text is unchanged |
| GoStrings.Fields | analyzer/slowlog_analyzer.go:40 | `strings.Fields`: every field is non-empty and holds no white space, and the fields hold exactly the non-space characters of the line, in order |
| GoStrings.FieldsCons | analyzer/slowlog_analyzer.go:40 | a word, a space, then the rest gives the word followed by the fields of the rest |
| GoStrings.FieldsOfWord | analyzer/slowlog_analyzer.go:40 | a single word is a single field |
| GoStrings.FieldsSkipBlank | analyzer/slowlog_analyzer.go:40 | leading white space produces no field |
| GoStrings.FieldsOfBlank | analyzer/slowlog_analyzer.go:40 | a blank line has no fields |
| GoStrings.FieldsAfterBlank | analyzer/slowlog_analyzer.go:40 | after leading white space, a word ended by any white-space character is the first field and the fields of the rest follow; with FieldsBlankThenWord and FieldsOfBlank this fixes `Fields` on every input, so fields are cut at white space only |
| GoStrings.FieldsBlankThenWord | analyzer/slowlog_analyzer.go:40 | after leading white space, a word that ends the line is its only remaining field |
| GoStrings.ContainsAt | analyzer/slowlog_analyzer.go:30 | `strings.Contains` holds exactly when the substring is some slice of the text |
| Lines.SplitLines | analyzer/slowlog_analyzer.go:104-117 | the loop returns exactly the lines of `LinesOf(s)`, cutting at each newline and keeping a final piece only when it is non-empty |
| Lines.FirstRoleIsMaster | analyzer/slowlog_analyzer.go:97-101 | a true answer comes from a `role:` line whose remainder is `master` |
| Lines.IsMaster | analyzer/slowlog_analyzer.go:95-103 | true exactly when the first `role:` line among the lines of the reply reads `role:master` |
| Lines.CheckMaster | analyzer/slowlog_analyzer.go:95-103 | the scan loop, returning at the first `role:` line, gives `IsMaster`: true exactly when that line reads `role:master`, false when there is none |
| Lines.LinesHaveNoNewline | analyzer/slowlog_analyzer.go:104-117 | no returned line contains a newline |
| Lines.LinesAreSplitPieces | analyzer/slowlog_analyzer.go:104-117 | `""` has no lines; otherwise the lines are `strings.Split(s, "\n")`, minus the one empty piece after a final newline |
| Lines.LinesRoundTrip | analyzer/slowlog_analyzer.go:107-115 | joining the lines with `"\n"`, plus `"\n"` when `s` ends in a newline, gives back `s` exactly |
| Lines.LinesOfTerminated | analyzer/slowlog_analyzer.go:104-117 | ending each newline-free line with `"\n"` and splitting gives back those lines |
| Lines.LinesAppend | analyzer/slowlog_analyzer.go:104-117 | text made of whole lines splits apart from whatever follows it |
| Lines.LinesCount | analyzer/slowlog_analyzer.go:108-115 | the number of lines is the number of newlines, plus one when `s` is non-empty and does not end in a newline |
| Lines.FirstRoleIsMasterIff | analyzer/slowlog_analyzer.go:95-103 | the scan is true exactly when the first line starting with `role:` has remainder `master`; later role lines are ignored, and with no role line it is false |
| Lines.IsMasterOfLines | analyzer/slowlog_analyzer.go:95-103 | `isMaster` of a newline-terminated text decides by its first role line |
| Lines.IsMasterFalseOnCrlf | analyzer/slowlog_analyzer.go:95-103 | as written, `isMaster` is false on every reply whose lines end in `"\r\n"`, whatever role it names |
| Lines.IsMasterMissesCrlfMaster | analyzer/slowlog_analyzer.go:98-99 | as written, `isMaster("# Replication\r\nrole:master\r\n")` is false |
| Lines.IsMasterTrimmedAgrees | analyzer/slowlog_analyzer.go:95-103 | with the trailing `'\r'` trimmed, a CRLF reply gets the same answer as the LF reply, namely whether the first role line reads `role:master` |
| Lines.IsMasterTrimmedFindsCrlfMaster | analyzer/slowlog_analyzer.go:98-99 | the trimmed check is true on `"# Replication\r\nrole:master\r\n"` |
| Topology.NodeOfLine | analyzer/slowlog_analyzer.go:40-43 | a line gives an address exactly when it has two or more fields; the address holds no `@`, is a prefix of the second field, and is all of it or is followed there by `@` |
| Topology.ClusterDetected | analyzer/slowlog_analyzer.go:30 | a cluster exactly when CLUSTER INFO answered and its text holds `cluster_state:ok` somewhere |
| Topology.NodeAddresses | analyzer/slowlog_analyzer.go:39-44 | there are at most as many addresses as lines, and none holds `@` |
| Topology.NodeAddressesAppend | analyzer/slowlog_analyzer.go:39-44 | the addresses follow the line order: two blocks of lines give the first block's addresses, then the second's |
| Topology.NodeAddressesSkipShortLine | analyzer/slowlog_analyzer.go:40-41 | a line with fewer than two fields contributes nothing, so removing it changes no address |
| Topology.NodeOfClusterLine | analyzer/slowlog_analyzer.go:40-42 | a CLUSTER NODES line `<id> <ip:port>@<cport> <flags>...` names exactly `ip:port`, without the bus port |
| Topology.NodeOfOneWordLine | analyzer/slowlog_analyzer.go:40-41 | a line of one word names no node |
| Topology.ExampleNodeAddresses | analyzer/slowlog_analyzer.go:39-44 | a well-formed node line followed by the line `badline` gives that node's `ip:port` alone |
| Topology.ExampleDiscovery | analyzer/slowlog_analyzer.go:30-44 | CLUSTER INFO reporting `cluster_state:ok` and the CLUSTER NODES text holding the node line and `badline` give the node's `ip:port` alone |
| Topology.DiscoverNodes | analyzer/slowlog_analyzer.go:29-48 | the node list is `[addr]` when CLUSTER INFO fails or lacks `cluster_state:ok`; in a cluster it is the parsed CLUSTER NODES lines; the only error is a failed CLUSTER NODES query |
| SlowLog.RenderLog | analyzer/slowlog_analyzer.go:76-90 | the entry loop prints exactly the rows of `RenderEntries`, stopping when an entry panics |
| SlowLog.IntOrZero | analyzer/slowlog_analyzer.go:82-83 | the ignored `.(int64)` assertion gives the integer of an integer reply, and the zero value 0 for any other reply |
| SlowLog.ClassifyEntry | analyzer/slowlog_analyzer.go:77-84 | an entry is skipped exactly when it is not an array or has fewer than 3 items; it panics exactly when it has 3 items; with 4 or more it is rendered with items 1 and 2 read by `IntOrZero` and item 3 as the command |
| SlowLog.RenderAppend | analyzer/slowlog_analyzer.go:76-90 | after a panic later entries change nothing; until then, two blocks of entries render as the first block's rows, then the second's |
| SlowLog.RenderSkipsMalformed | analyzer/slowlog_analyzer.go:76-80 | an entry that is not an array, or has fewer than 3 items, is skipped: removing it changes neither the rows nor the panic |
| SlowLog.RenderPanicsIff | analyzer/slowlog_analyzer.go:78-84 | the entry loop panics exactly when some entry is an array of exactly 3 items, since index 3 is read past a guard that only rejects fewer than 3 |
| SlowLog.RenderWellFormed | analyzer/slowlog_analyzer.go:76-89 | when every entry is an array of at least 4 items, each one is printed in order: item 1 is the timestamp and item 2 the duration, 0 where the item is not an int64, and item 3 is the command |
| SlowLog.VisitNode | analyzer/slowlog_analyzer.go:50-90 | one node's visit: address printed first; a failed INFO returns its error; an empty INFO panics; a failed SLOWLOG GET returns its error; a non-array reply is "unexpected SLOWLOG GET result"; otherwise the entries are rendered |
| SlowLog.Collect | analyzer/slowlog_analyzer.go:50-92 | the report has a section for each of the first `k` nodes, and for no other; all but the last of them succeeded; a `Done` run visited every node, and any other run ends with the status of the last node visited |
| SlowLog.CollectSlowLogs | analyzer/slowlog_analyzer.go:50-92 | the node loop with its early returns computes `Collect` |
| SlowLog.CollectIgnoresLater | analyzer/slowlog_analyzer.go:58-74 | once a node has failed, the run is the same whatever nodes follow |
| SlowLog.CollectStopsAtFirstFailure | analyzer/slowlog_analyzer.go:50-74 | the run ends with the status of the first failing node, after visiting exactly the nodes up to and including it |
| SlowLog.CollectOneNode | analyzer/slowlog_analyzer.go:45-50 | a one-node list visits that node alone and ends with its status |
| SlowLog.FetchSlowLogs | analyzer/slowlog_analyzer.go:18-93 | discovery then the node loop; a failed CLUSTER NODES query ends the run before any visit; a standalone server is the only node visited |
| ClientList.IpOf | analyzer/clientlist_analyzer.go:37-38 | the key is the `addr=` value cut before its first `:`: it holds no `:`, is a prefix of the value, and is the whole value when that has no `:` |
| ClientList.IpOfAddress | analyzer/clientlist_analyzer.go:37-38 | `addr=<ip>:<port>` is counted under `<ip>` when the IP holds no `:` |
| ClientList.IpOfBracketed | analyzer/clientlist_analyzer.go:37-38 | an IPv6 client `addr=[<host>]:<port>` whose host starts with `:` is counted under the key `[` |
| ClientList.Ipv6ClientsShareKey | analyzer/clientlist_analyzer.go:37-39 | the clients `[::1]:50000` and `[::2]:50001` are counted under the same key `[` |
| ClientList.HostOfBracketed | analyzer/clientlist_analyzer.go:37-38 | the corrected key of `addr=[<host>]:<port>` is the whole host |
| ClientList.HostOfIpv4 | analyzer/clientlist_analyzer.go:37-38 | on `addr=<ip>:<port>` with a plain IPv4 address, the corrected key is the address, which is also the key the code uses |
| ClientList.Ipv6ClientsKeptApart | analyzer/clientlist_analyzer.go:37-39 | with the corrected key, `[::1]:50000` and `[::2]:50001` are counted under `::1` and `::2` |
| ClientList.AnalyzeClientList | analyzer/clientlist_analyzer.go:15-52 | a failed CLIENT LIST query returns only its error; otherwise one record per counted IP, with distinct IPs, each with its count from the map, which is at least 1 |
| ClientList.CountClients | analyzer/clientlist_analyzer.go:28-42 | the line loop builds exactly the map `ClientCounts(text)` |
| ClientList.CountParts | analyzer/clientlist_analyzer.go:34-41 | the part loop adds one under the key of every `addr=` part of the line, a missing key counting from 0 |
| ClientList.EmitStats | analyzer/clientlist_analyzer.go:44-50 | one record per key of the map, no key twice, each with that key's count, in an order left open |
| ClientList.TallySnoc | analyzer/clientlist_analyzer.go:39 | counting one more token adds one under its key |
| ClientList.TallyHasEveryIp | analyzer/clientlist_analyzer.go:36-39 | every key met is in the map |
| ClientList.TallyIsCount | analyzer/clientlist_analyzer.go:36-39 | each key holds the number of tokens counted under it, which is at least 1; a key that is absent has no token |
| ClientList.AddrTokensSkipBlank | analyzer/clientlist_analyzer.go:30-33 | dropping the blank lines leaves the counted tokens as they were |
| ClientList.BlankLinesChangeNothing | analyzer/clientlist_analyzer.go:29-33 | the text rebuilt without its blank and white-space-only lines gives the same map |
| ClientList.NonAddrPartIgnored | analyzer/clientlist_analyzer.go:35-36 | a part that does not start with `addr=` is not counted: removing it changes no token |
| ClientList.LaddrIsNotCounted | analyzer/clientlist_analyzer.go:36 | a `laddr=` part is not counted |
| ClientList.ClientLineTokens | analyzer/clientlist_analyzer.go:29-41 | a line `id=<id> addr=<ip>:<port>` yields exactly its `addr=` part |
| ClientList.ThreeClientsTokens | analyzer/clientlist_analyzer.go:29-41 | three such lines, each ended by a newline, yield their three `addr=` parts in order; the final empty piece adds none |
| ClientList.TallyTwoAndOne | analyzer/clientlist_analyzer.go:36-39 | two parts under one IP and one under another give that IP 2 and the other 1 |
| ClientList.TabulatesIsMapEntries | analyzer/clientlist_analyzer.go:44-50 | the emitted records, as a set, are exactly the map's (IP, count) entries |
| ClientList.ExampleClientCounts | analyzer/clientlist_analyzer.go:28-42 | three connections, two from 192.168.1.10 on different ports and one from 192.168.1.11, give 192.168.1.10 a count of 2 and 192.168.1.11 a count of 1 |
| ClientList.ExampleClientStats | analyzer/clientlist_analyzer.go:44-51 | the records returned for that text are (192.168.1.10, 2) and (192.168.1.11, 1), in either order |
| ClientList.SumOfCounts | analyzer/clientlist_analyzer.go:34-41 | the emitted counts sum to the number of `addr=` parts over the non-blank lines, each part counting once, however many a line holds |

## Left out

- The go-redis client, connections, passwords and the context are not modelled. Every query result is an input to the model.
- `topN` is not modelled. It only bounds the server's reply, and that reply is an input.
- `fmt.Println` and `fmt.Printf` are not modelled. This covers:
  - the "Detected a cluster" and "Not a cluster" messages;
  - the byte printed by `fmt.Println(info[0])`;
  - the text of each report line.
  The report keeps only which node was visited and which entries were printed for it. `info[0]` is kept only for its panic on an empty reply.
- Two formats are left out because they use the local time zone and floating point: the date from `time.Unix(...).Format(...)`, and the duration from `float64(duration) / 1000.0` with `%.2f`.
- The `SlowLogEntry` struct's `Command string` field is not used by the code. The model keeps the command as the reply value that `%v` prints.
- A Go string is modelled as its sequence of Unicode code points, so invalid UTF-8 is not modelled.
  - `splitLines` and `isMaster` index bytes.
  - `'\n'` and `role:` are ASCII, so cutting at code points gives the same lines.
  - `unicode.IsSpace` is modelled as its fixed set of white-space code points.
- ClientList.AnalyzeClientList: the order of the records is not stated. Go's map iteration order is unspecified, so the model allows any order.
- ClientList.CountParts: the `int` counters are unbounded. Overflow would need more than 2^63 connections.
- The counting of client connections uses the key as the code computes it (`IpOf`), since it models the tool's actual output. The corrected key `HostOf` from the IPv6 finding is proved on its own and is not substituted into the counting.
- A Go panic ends the program. The model ends the run with a `Panicked` status instead, keeping the report printed before it.
- `main.go` (flag parsing, output files, the RDB analysis library) is not part of this model.

## Findings

| source | as written | input that shows it | evidently intended | confidence | as-written member | corrected member |
|---|---|---|---|---|---|---|
| analyzer/slowlog_analyzer.go:95-103 | `isMaster` cuts the reply at `'\n'` only and compares `line[5:]` with `"master"`, so each line keeps its `'\r'` from Redis's `"\r\n"` line ends | `"# Replication\r\nrole:master\r\n"` (the INFO reply of a master) gives false | a master's reply gives true: trim the trailing `'\r'` before comparing | medium, not executed | Lines.IsMasterMissesCrlfMaster | Lines.IsMasterTrimmedAgrees |
| analyzer/clientlist_analyzer.go:38 | the key is the `addr=` value cut before its first `:`; Redis writes an IPv6 client as `addr=[<host>]:<port>` | `addr=[::1]:50000` and `addr=[::2]:50001` both give the key `[`, so two clients are counted as one IP | the host, found by cutting at the last `:` and dropping the brackets, as Go's `net.SplitHostPort` does | medium, not executed | ClientList.Ipv6ClientsShareKey | ClientList.Ipv6ClientsKeptApart |
