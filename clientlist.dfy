/** AnalyzeClientList (analyzer/clientlist_analyzer.go): the number of
    connections per client IP, counted from the text of CLIENT LIST. The query
    is an input. */
module ClientList {
  import opened GoStrings
  import opened Sequences
  import opened Redis

  /** One emitted record: a client IP and its number of connections. */
  datatype ClientStats = ClientStats(addr: string, count: int)

  /** A space-separated part that names a client's address: it starts with
      `addr=` exactly, so `laddr=...` and the like do not match. */
  predicate IsAddrToken(part: string) {
    HasPrefix(part, "addr=")
  }

  /** The key a connection is counted under: the `addr=` value cut before its
      first ':' (the port is dropped); a value without ':' is kept whole. */
  function IpOf(part: string): (ip: string)
    ensures ':' !in ip
    ensures var value := TrimPrefix(part, "addr=");
      HasPrefix(value, ip) && (|ip| == |value| || value[|ip|] == ':')
    ensures ':' !in TrimPrefix(part, "addr=") ==> ip == TrimPrefix(part, "addr=")
  {
    Split(TrimPrefix(part, "addr="), ':')[0]
  }

  /** The `addr=` parts of one line, in order. */
  function AddrTokensOfParts(parts: seq<string>): seq<string> {
    if parts == [] then []
    else
      var last := parts[|parts| - 1];
      AddrTokensOfParts(parts[..|parts| - 1]) + (if IsAddrToken(last) then [last] else [])
  }

  /** The `addr=` parts of the lines, in order; blank lines are skipped and
      every other line is split on single spaces. */
  function AddrTokensOfLines(lines: seq<string>): seq<string> {
    if lines == [] then []
    else
      var line := lines[|lines| - 1];
      AddrTokensOfLines(lines[..|lines| - 1]) + (if IsBlank(line) then [] else AddrTokensOfParts(Split(line, ' ')))
  }

  /** Every `addr=` part of a CLIENT LIST text. */
  function AddrTokens(text: string): seq<string> {
    AddrTokensOfLines(Split(text, '\n'))
  }

  /** How many of the tokens are counted under `ip`. */
  function CountIp(toks: seq<string>, ip: string): nat {
    if toks == [] then 0
    else CountIp(toks[..|toks| - 1], ip) + (if IpOf(toks[|toks| - 1]) == ip then 1 else 0)
  }

  /** The map that the counting loop builds: one key per IP met, holding the
      number of tokens counted under it. */
  function Tally(toks: seq<string>): map<string, int> {
    if toks == [] then map[]
    else
      var before := Tally(toks[..|toks| - 1]);
      var ip := IpOf(toks[|toks| - 1]);
      before[ip := (if ip in before then before[ip] else 0) + 1]
  }

  /** The connection counts of a CLIENT LIST text. */
  function ClientCounts(text: string): map<string, int> {
    Tally(AddrTokens(text))
  }

  /** The records list the map: one record per key, no key twice, each with
      the key's count. Their order is Go's map iteration order, which is left
      open. */
  predicate Tabulates(stats: seq<ClientStats>, counts: map<string, int>) {
    (forall i, j :: 0 <= i < j < |stats| ==> stats[i].addr != stats[j].addr)
    && (forall i :: 0 <= i < |stats| ==> stats[i].addr in counts && stats[i].count == counts[stats[i].addr])
    && (forall ip :: ip in counts ==> exists i :: 0 <= i < |stats| && stats[i].addr == ip)
  }

  /** AnalyzeClientList: a failed query returns its error and no records;
      otherwise one record per client IP, with a count of at least 1. */
  method AnalyzeClientList(reply: Query<string>) returns (r: Result<seq<ClientStats>>)
    ensures reply.Failed? ==> r == Err(QueryError(reply.error))
    ensures reply.Answered? ==> r.Ok? && Tabulates(r.value, ClientCounts(reply.value))
    ensures reply.Answered? ==> |r.value| == |ClientCounts(reply.value)|
    ensures r.Ok? ==> forall i :: 0 <= i < |r.value| ==> r.value[i].count >= 1
  {
    if reply.Failed? {
      return Err(QueryError(reply.error));
    }
    var statsMap := CountClients(reply.value);
    TallyIsCount(AddrTokens(reply.value));
    var stats := EmitStats(statsMap);
    r := Ok(stats);
  }

  /** The counting loop over the lines: every line that is not blank is
      split on single spaces and its parts are counted. */
  method CountClients(text: string) returns (statsMap: map<string, int>)
    ensures statsMap == ClientCounts(text)
  {
    statsMap := map[];
    var lines := Split(text, '\n');
    for i := 0 to |lines|
      invariant statsMap == Tally(AddrTokensOfLines(lines[..i]))
    {
      AddrTokensOfLinesSnoc(lines, i);
      if IsBlank(lines[i]) {
        AppendEmpty(AddrTokensOfLines(lines[..i]));
      } else {
        var parts := Split(lines[i], ' ');
        statsMap := CountParts(parts, statsMap, AddrTokensOfLines(lines[..i]));
      }
    }
    TakeAll(lines);
  }

  /** The counting loop over the parts of one line: `statsMap[ip]++` for
      every `addr=` part, a missing key counting from 0. */
  method CountParts(parts: seq<string>, statsMap: map<string, int>, ghost toks: seq<string>)
    returns (counted: map<string, int>)
    requires statsMap == Tally(toks)
    ensures counted == Tally(toks + AddrTokensOfParts(parts))
  {
    counted := statsMap;
    ghost var seen := toks;
    for j := 0 to |parts|
      invariant seen == toks + AddrTokensOfParts(parts[..j])
      invariant counted == Tally(seen)
    {
      AddrTokensOfPartsSnoc(parts, j);
      AppendAssoc(toks, AddrTokensOfParts(parts[..j]), if IsAddrToken(parts[j]) then [parts[j]] else []);
      if HasPrefix(parts[j], "addr=") {
        var addrPort := TrimPrefix(parts[j], "addr=");
        var ip := Split(addrPort, ':')[0];
        TallySnoc(seen, parts[j], counted, ip);
        seen := seen + [parts[j]];
        counted := counted[ip := (if ip in counted then counted[ip] else 0) + 1];
      } else {
        AppendEmpty(seen);
      }
    }
    TakeAll(parts);
  }

  lemma AddrTokensOfPartsSnoc(parts: seq<string>, j: nat)
    requires j < |parts|
    ensures AddrTokensOfParts(parts[..j + 1]) ==
      AddrTokensOfParts(parts[..j]) + if IsAddrToken(parts[j]) then [parts[j]] else []
  {
    TakeTake(parts, j, j + 1);
  }

  lemma AddrTokensOfLinesSnoc(lines: seq<string>, i: nat)
    requires i < |lines|
    ensures AddrTokensOfLines(lines[..i + 1]) ==
      AddrTokensOfLines(lines[..i]) + if IsBlank(lines[i]) then [] else AddrTokensOfParts(Split(lines[i], ' '))
  {
    TakeTake(lines, i, i + 1);
  }

  /** The emitting loop: one record per key of the map, in an order left open. */
  method EmitStats(statsMap: map<string, int>) returns (stats: seq<ClientStats>)
    ensures Tabulates(stats, statsMap)
    ensures |stats| == |statsMap|
  {
    stats := [];
    var keys := statsMap.Keys;
    while keys != {}
      invariant keys <= statsMap.Keys
      invariant |stats| + |keys| == |statsMap|
      invariant forall i :: 0 <= i < |stats| ==>
        stats[i].addr in statsMap && stats[i].addr !in keys && stats[i].count == statsMap[stats[i].addr]
      invariant forall i, j :: 0 <= i < j < |stats| ==> stats[i].addr != stats[j].addr
      invariant forall ip :: ip in statsMap && ip !in keys ==> exists i :: 0 <= i < |stats| && stats[i].addr == ip
      decreases keys
    {
      var ip :| ip in keys;
      ghost var emitted := stats;
      stats := stats + [ClientStats(ip, statsMap[ip])];
      assert stats[|stats| - 1].addr == ip;
      assert forall i :: 0 <= i < |emitted| ==> stats[i] == emitted[i];
      keys := keys - {ip};
    }
  }

  /** Every IP met is a key of the map. */
  lemma {:induction false} TallyHasEveryIp(toks: seq<string>)
    ensures forall i :: 0 <= i < |toks| ==> IpOf(toks[i]) in Tally(toks)
  {
    if toks != [] {
      var front := toks[..|toks| - 1];
      TallyHasEveryIp(front);
      assert forall i :: 0 <= i < |front| ==> front[i] == toks[i];
    }
  }

  /** Each key holds the number of tokens counted under it, which is at least
      1; an IP that is not a key has no token. */
  lemma {:induction false} TallyIsCount(toks: seq<string>)
    ensures forall ip :: ip in Tally(toks) ==> Tally(toks)[ip] == CountIp(toks, ip) >= 1
    ensures forall ip :: ip !in Tally(toks) ==> CountIp(toks, ip) == 0
  {
    if toks != [] {
      TallyIsCount(toks[..|toks| - 1]);
    }
  }

  /** Counting one more token adds one under its IP. */
  lemma TallySnoc(toks: seq<string>, t: string, m: map<string, int>, ip: string)
    requires m == Tally(toks) && ip == Split(TrimPrefix(t, "addr="), ':')[0]
    ensures Tally(toks + [t]) == m[ip := (if ip in m then m[ip] else 0) + 1]
  {
    assert (toks + [t])[..|toks|] == toks;
  }

  /** The tokens of two blocks of lines are those of the first, then those of
      the second. */
  lemma {:induction false} AddrTokensOfLinesAppend(a: seq<string>, b: seq<string>)
    ensures AddrTokensOfLines(a + b) == AddrTokensOfLines(a) + AddrTokensOfLines(b)
    decreases |b|
  {
    if b == [] {
      AppendEmpty(a);
      AppendEmpty(AddrTokensOfLines(a));
    } else {
      var front := b[..|b| - 1];
      var line := b[|b| - 1];
      assert (a + b)[..|a + b| - 1] == a + front;
      assert (a + b)[|a + b| - 1] == line;
      AddrTokensOfLinesAppend(a, front);
      AppendAssoc(AddrTokensOfLines(a), AddrTokensOfLines(front),
                  if IsBlank(line) then [] else AddrTokensOfParts(Split(line, ' ')));
    }
  }

  /** The lines that are not blank, in order. */
  function NonBlankLines(lines: seq<string>): (kept: seq<string>)
    ensures forall i :: 0 <= i < |kept| ==> !IsBlank(kept[i]) && kept[i] in lines
  {
    if lines == [] then []
    else
      var line := lines[|lines| - 1];
      NonBlankLines(lines[..|lines| - 1]) + (if IsBlank(line) then [] else [line])
  }

  lemma AddrTokensOfOneLine(line: string)
    ensures AddrTokensOfLines([line]) == if IsBlank(line) then [] else AddrTokensOfParts(Split(line, ' '))
  {
    assert [line][..0] == [];
    AppendEmpty(if IsBlank(line) then [] else AddrTokensOfParts(Split(line, ' ')));
  }

  lemma {:induction false} AddrTokensSkipBlank(lines: seq<string>)
    ensures AddrTokensOfLines(NonBlankLines(lines)) == AddrTokensOfLines(lines)
  {
    if lines != [] {
      var front := lines[..|lines| - 1];
      var line := lines[|lines| - 1];
      AddrTokensSkipBlank(front);
      var kept := NonBlankLines(front);
      if IsBlank(line) {
        AppendEmpty(kept);
        AppendEmpty(AddrTokensOfLines(front));
        assert NonBlankLines(lines) == kept;
      } else {
        assert NonBlankLines(lines) == kept + [line];
        AddrTokensOfLinesAppend(kept, [line]);
        AddrTokensOfOneLine(line);
      }
    }
  }

  /** Blank and white-space-only lines change no count: the text without them
      gives the same map. */
  lemma BlankLinesChangeNothing(text: string)
    ensures ClientCounts(Join(NonBlankLines(Split(text, '\n')), '\n')) == ClientCounts(text)
  {
    var lines := Split(text, '\n');
    var kept := NonBlankLines(lines);
    AddrTokensSkipBlank(lines);
    if kept == [] {
      NoTokensInEmptyText();
    } else {
      NonBlankLinesKeepNoNewline(lines);
      SplitOfJoin(kept, '\n');
    }
  }

  lemma NoTokensInEmptyText()
    ensures AddrTokens([]) == []
  {
    var empty: string := [];
    assert Split(empty, '\n') == [empty];
    AddrTokensOfOneLine(empty);
  }

  lemma NonBlankLinesKeepNoNewline(lines: seq<string>)
    requires forall i :: 0 <= i < |lines| ==> '\n' !in lines[i]
    ensures forall i :: 0 <= i < |NonBlankLines(lines)| ==> '\n' !in NonBlankLines(lines)[i]
  {
    var kept := NonBlankLines(lines);
    forall i | 0 <= i < |kept|
      ensures '\n' !in kept[i]
    {
      var j :| 0 <= j < |lines| && lines[j] == kept[i];
    }
  }

  /** The tokens of one line that are not `addr=` parts are dropped: removing
      one leaves the tokens as they were. */
  lemma NonAddrPartIgnored(parts: seq<string>, i: nat)
    requires i < |parts| && !IsAddrToken(parts[i])
    ensures AddrTokensOfParts(parts) == AddrTokensOfParts(parts[..i] + parts[i + 1..])
  {
    SplitAt(parts, i);
    AddrTokensOfPartsAppend(parts[..i] + [parts[i]], parts[i + 1..]);
    AddrTokensOfPartsAppend(parts[..i], [parts[i]]);
    AddrTokensOfPartsAppend(parts[..i], parts[i + 1..]);
    assert [parts[i]][..0] == [];
    AppendEmpty(AddrTokensOfParts(parts[..i]));
  }

  /** `laddr=` (the server side of a connection) is not a client address. */
  lemma LaddrIsNotCounted(parts: seq<string>, i: nat)
    requires i < |parts| && HasPrefix(parts[i], "laddr=")
    ensures AddrTokensOfParts(parts) == AddrTokensOfParts(parts[..i] + parts[i + 1..])
  {
    LaddrIsNotAddr(parts[i]);
    NonAddrPartIgnored(parts, i);
  }

  lemma LaddrIsNotAddr(part: string)
    requires HasPrefix(part, "laddr=")
    ensures !IsAddrToken(part)
  {
    assert part[0] == "laddr="[0];
  }

  lemma {:induction false} AddrTokensOfPartsAppend(a: seq<string>, b: seq<string>)
    ensures AddrTokensOfParts(a + b) == AddrTokensOfParts(a) + AddrTokensOfParts(b)
    decreases |b|
  {
    if b == [] {
      AppendEmpty(a);
      AppendEmpty(AddrTokensOfParts(a));
    } else {
      var front := b[..|b| - 1];
      var last := b[|b| - 1];
      assert (a + b)[..|a + b| - 1] == a + front;
      assert (a + b)[|a + b| - 1] == last;
      AddrTokensOfPartsAppend(a, front);
      AppendAssoc(AddrTokensOfParts(a), AddrTokensOfParts(front), if IsAddrToken(last) then [last] else []);
    }
  }

  /** The sum of the emitted counts. */
  function SumCounts(stats: seq<ClientStats>): int {
    if stats == [] then 0 else SumCounts(stats[..|stats| - 1]) + stats[|stats| - 1].count
  }

  /** The addresses of the records. */
  function AddrSet(stats: seq<ClientStats>): set<string> {
    if stats == [] then {} else AddrSet(stats[..|stats| - 1]) + {stats[|stats| - 1].addr}
  }

  /** How many of the tokens are counted under one of `ips`. */
  function CountIn(toks: seq<string>, ips: set<string>): nat {
    if toks == [] then 0
    else CountIn(toks[..|toks| - 1], ips) + (if IpOf(toks[|toks| - 1]) in ips then 1 else 0)
  }

  lemma {:induction false} CountInAdd(toks: seq<string>, ips: set<string>, ip: string)
    requires ip !in ips
    ensures CountIn(toks, ips + {ip}) == CountIn(toks, ips) + CountIp(toks, ip)
  {
    if toks != [] {
      CountInAdd(toks[..|toks| - 1], ips, ip);
    }
  }

  lemma {:induction false} CountInNone(toks: seq<string>)
    ensures CountIn(toks, {}) == 0
  {
    if toks != [] {
      CountInNone(toks[..|toks| - 1]);
    }
  }

  lemma {:induction false} CountInAll(toks: seq<string>, ips: set<string>)
    requires forall i :: 0 <= i < |toks| ==> IpOf(toks[i]) in ips
    ensures CountIn(toks, ips) == |toks|
  {
    if toks != [] {
      var front := toks[..|toks| - 1];
      assert forall i :: 0 <= i < |front| ==> front[i] == toks[i];
      CountInAll(front, ips);
    }
  }

  lemma {:induction false} AddrSetMembers(stats: seq<ClientStats>, ip: string)
    ensures ip in AddrSet(stats) <==> exists i :: 0 <= i < |stats| && stats[i].addr == ip
  {
    if stats != [] {
      var front := stats[..|stats| - 1];
      AddrSetMembers(front, ip);
      if exists i :: 0 <= i < |front| && front[i].addr == ip {
        var i :| 0 <= i < |front| && front[i].addr == ip;
        assert stats[i].addr == ip;
      }
      if exists i :: 0 <= i < |stats| && stats[i].addr == ip {
        var i :| 0 <= i < |stats| && stats[i].addr == ip;
        if i < |front| {
          assert front[i].addr == ip;
        }
      }
    }
  }

  /** Records with distinct addresses, each holding the count of its address,
      sum to the number of tokens counted under one of those addresses. */
  lemma {:induction false} SumCountsIsCountIn(stats: seq<ClientStats>, toks: seq<string>)
    requires forall i, j :: 0 <= i < j < |stats| ==> stats[i].addr != stats[j].addr
    requires forall i :: 0 <= i < |stats| ==> stats[i].count == CountIp(toks, stats[i].addr)
    ensures SumCounts(stats) == CountIn(toks, AddrSet(stats))
  {
    if stats != [] {
      var front := stats[..|stats| - 1];
      var last := stats[|stats| - 1];
      assert forall i :: 0 <= i < |front| ==> front[i] == stats[i];
      SumCountsIsCountIn(front, toks);
      assert forall i :: 0 <= i < |front| ==> front[i].addr != last.addr;
      AddrSetMembers(front, last.addr);
      CountInAdd(toks, AddrSet(front), last.addr);
      assert AddrSet(stats) == AddrSet(front) + {last.addr};
      assert SumCounts(stats) == SumCounts(front) + last.count;
      assert last.count == CountIp(toks, last.addr);
    } else {
      CountInNone(toks);
    }
  }

  /** Every `addr=` part is counted once: the emitted counts sum to the number
      of `addr=` parts in the lines that are not blank, however many a line
      holds. */
  lemma SumOfCounts(text: string, stats: seq<ClientStats>)
    requires Tabulates(stats, ClientCounts(text))
    ensures SumCounts(stats) == |AddrTokens(text)|
  {
    var toks := AddrTokens(text);
    TallyHasEveryIp(toks);
    TallyIsCount(toks);
    SumCountsIsCountIn(stats, toks);
    forall i | 0 <= i < |toks|
      ensures IpOf(toks[i]) in AddrSet(stats)
    {
      AddrSetMembers(stats, IpOf(toks[i]));
    }
    CountInAll(toks, AddrSet(stats));
  }

  /** The key of `addr=<ip>:<port>` is `<ip>` when the IP holds no ':'. */
  lemma IpOfAddress(ip: string, port: string)
    requires ':' !in ip
    ensures IpOf("addr=" + ip + ":" + port) == ip
  {
    var value := ip + ":" + port;
    assert "addr=" + ip + ":" + port == "addr=" + value;
    assert ("addr=" + value)[..5] == "addr=";
    assert ("addr=" + value)[5..] == value;
    assert value == ip + [':'] + port;
    SplitCons(ip, ':', port);
  }

  /** The value of an `addr=` part. */
  lemma AddrValue(value: string)
    ensures TrimPrefix("addr=" + value, "addr=") == value
  {
    assert ("addr=" + value)[..5] == "addr=";
    assert ("addr=" + value)[5..] == value;
  }

  // Redis writes an IPv6 client as `addr=[<host>]:<port>`. Cutting at the
  // first ':' then keeps only the text up to the first ':' inside the host.

  /** As written: an IPv6 client whose host starts with ':' (`::1`, `::2`,
      ...) is counted under the key "[", so distinct IPv6 clients share one
      key. */
  lemma IpOfBracketed(host: string, port: string)
    requires host != [] && host[0] == ':'
    ensures IpOf("addr=[" + host + "]:" + port) == "["
  {
    var value := "[" + host + "]:" + port;
    assert "addr=[" + host + "]:" + port == "addr=" + value;
    AddrValue(value);
    var ip := IpOf("addr=" + value);
    assert value[0] == '[' && value[1] == ':';
    assert forall j :: 0 <= j < |ip| ==> value[j] == ip[j] != ':';
    assert |ip| == 1;
    assert ip == value[..1];
  }

  /** Two loopback-style IPv6 clients end up under the same key. */
  lemma Ipv6ClientsShareKey()
    ensures IpOf("addr=[" + "::1" + "]:" + "50000") == IpOf("addr=[" + "::2" + "]:" + "50001") == "["
  {
    IpOfBracketed("::1", "50000");
    IpOfBracketed("::2", "50001");
  }

  /** Corrected key: the host of the `addr=` value, as Go's
      net.SplitHostPort finds it: cut at the last ':' and drop the brackets
      of an IPv6 host. */
  function HostOf(part: string): string {
    var value := TrimPrefix(part, "addr=");
    var k := LastIndexOf(value, ':');
    var h := if k < 0 then value else value[..k];
    if |h| >= 2 && h[0] == '[' && h[|h| - 1] == ']' then h[1..|h| - 1] else h
  }

  /** The corrected key of an IPv6 client is its whole host. */
  lemma HostOfBracketed(host: string, port: string)
    requires ':' !in port
    ensures HostOf("addr=[" + host + "]:" + port) == host
  {
    var value := "[" + host + "]:" + port;
    assert "addr=[" + host + "]:" + port == "addr=" + value;
    AddrValue(value);
    assert value == ("[" + host + "]") + [':'] + port;
    LastIndexOfBefore("[" + host + "]", ':', port);
    var k := LastIndexOf(value, ':');
    var h := value[..k];
    assert h == "[" + host + "]";
    assert h[1..|h| - 1] == host;
  }

  /** On an IPv4 client the corrected key is the one the code uses. */
  lemma HostOfIpv4(ip: string, port: string)
    requires ':' !in ip && ':' !in port && '[' !in ip
    ensures HostOf("addr=" + ip + ":" + port) == ip == IpOf("addr=" + ip + ":" + port)
  {
    IpOfAddress(ip, port);
    var value := ip + ":" + port;
    AppendAssoc("addr=", ip + ":", port);
    AppendAssoc("addr=", ip, ":");
    AddrValue(value);
    LastIndexOfBefore(ip, ':', port);
    var k := LastIndexOf(value, ':');
    assert value[..k] == ip;
    assert forall j :: 0 <= j < |ip| ==> ip[j] != '[';
  }

  /** With the corrected key, the two IPv6 clients are counted apart. */
  lemma Ipv6ClientsKeptApart()
    ensures HostOf("addr=[" + "::1" + "]:" + "50000") == "::1"
    ensures HostOf("addr=[" + "::2" + "]:" + "50001") == "::2"
  {
    assert ':' !in "50000" && ':' !in "50001";
    HostOfBracketed("::1", "50000");
    HostOfBracketed("::2", "50001");
  }

  /** A CLIENT LIST line, cut down to its `id` and `addr` fields. */
  function ClientLine(id: string, ip: string, port: string): string {
    "id=" + id + " addr=" + ip + ":" + port
  }

  /** Such a line splits on its space into its two fields. */
  lemma ClientLineSplit(id: string, ip: string, port: string)
    requires ' ' !in id && ' ' !in ip && ' ' !in port
    ensures Split(ClientLine(id, ip, port), ' ') == ["id=" + id] + ["addr=" + ip + ":" + port]
  {
    var first := "id=" + id;
    var address := "addr=" + ip + ":" + port;
    assert ClientLine(id, ip, port) == first + [' '] + address;
    assert ' ' !in "id=" && ' ' !in "addr=" && ' ' !in ":";
    assert ' ' !in first;
    assert ' ' !in address;
    SplitCons(first, ' ', address);
    SplitOfWord(address, ' ');
  }

  /** Such a line holds one `addr=` part. */
  lemma ClientLineTokens(id: string, ip: string, port: string)
    requires ' ' !in id && ' ' !in ip && ' ' !in port
    ensures AddrTokensOfLines([ClientLine(id, ip, port)]) == ["addr=" + ip + ":" + port]
  {
    var line := ClientLine(id, ip, port);
    ClientLineSplit(id, ip, port);
    ClientLineNotBlank(id, ip, port);
    AddrTokensOfOneLine(line);
    IdPartNotAddr(id);
    AddrPartIsAddr(ip, port);
    AddrTokensOfTwoParts("id=" + id, "addr=" + ip + ":" + port);
  }

  lemma ClientLineNotBlank(id: string, ip: string, port: string)
    ensures !IsBlank(ClientLine(id, ip, port))
  {
    assert ClientLine(id, ip, port)[0] == 'i';
  }

  lemma IdPartNotAddr(id: string)
    ensures !IsAddrToken("id=" + id)
  {
    assert ("id=" + id)[0] == 'i';
  }

  lemma AddrPartIsAddr(ip: string, port: string)
    ensures IsAddrToken("addr=" + ip + ":" + port)
  {
    assert ("addr=" + ip + ":" + port)[..5] == "addr=";
  }

  lemma AddrTokensOfTwoParts(first: string, second: string)
    requires !IsAddrToken(first) && IsAddrToken(second)
    ensures AddrTokensOfParts([first] + [second]) == [second]
  {
    var parts := [first] + [second];
    assert |parts| == 2 && parts[1] == second && parts[..1] == [first];
    assert [first][..0] == [];
    assert AddrTokensOfParts([first]) == [];
  }

  lemma ClientLineNoNewline(id: string, ip: string, port: string)
    requires '\n' !in id && '\n' !in ip && '\n' !in port
    ensures '\n' !in ClientLine(id, ip, port)
  {
    assert '\n' !in "id=" && '\n' !in " addr=" && '\n' !in ":";
  }

  /** The records, as a set, are exactly the entries of the map. */
  lemma TabulatesIsMapEntries(stats: seq<ClientStats>, counts: map<string, int>)
    requires Tabulates(stats, counts)
    ensures (set i | 0 <= i < |stats| :: stats[i]) == (set ip | ip in counts :: ClientStats(ip, counts[ip]))
  {
    var emitted := set i | 0 <= i < |stats| :: stats[i];
    var entries := set ip | ip in counts :: ClientStats(ip, counts[ip]);
    forall r | r in entries
      ensures r in emitted
    {
      var i :| 0 <= i < |stats| && stats[i].addr == r.addr;
      assert stats[i] == r;
    }
    forall r | r in emitted
      ensures r in entries
    {
      var i :| 0 <= i < |stats| && stats[i] == r;
      assert r == ClientStats(r.addr, counts[r.addr]);
    }
  }

  /** Three connections, two of them from 192.168.1.10: the text
      "id=1 addr=192.168.1.10:54321\nid=2 addr=192.168.1.10:54322\nid=3 addr=192.168.1.11:9000\n". */
  const ExampleLine1: string := ClientLine("1", "192.168.1.10", "54321")
  const ExampleLine2: string := ClientLine("2", "192.168.1.10", "54322")
  const ExampleLine3: string := ClientLine("3", "192.168.1.11", "9000")
  const ExampleClientText: string := ExampleLine1 + "\n" + ExampleLine2 + "\n" + ExampleLine3 + "\n"

  /** A line without a newline, then a newline, splits off as one piece. */
  lemma SplitLineOff(line: string, rest: string)
    requires '\n' !in line
    ensures Split(line + "\n" + rest, '\n') == [line] + Split(rest, '\n')
  {
    SplitCons(line, '\n', rest);
  }

  /** Three lines, each ended by a newline, split into those lines and a
      final empty piece. */
  lemma ThreeLinesSplit(l1: string, l2: string, l3: string)
    requires '\n' !in l1 && '\n' !in l2 && '\n' !in l3
    ensures Split(l1 + "\n" + l2 + "\n" + l3 + "\n", '\n') == [l1, l2, l3, ""]
  {
    var empty: string := [];
    var r3 := l3 + "\n" + empty;
    var r2 := l2 + "\n" + r3;
    AppendEmpty(l3 + "\n");
    AppendAssoc(l2 + "\n", l3, "\n");
    AppendAssoc(l1 + "\n", l2 + "\n" + l3, "\n");
    AppendAssoc(l1 + "\n", l2 + "\n", l3);
    AppendAssoc(l1, "\n", r2);
    AppendAssoc(l1, "\n", l2 + "\n");
    AppendAssoc(l1 + "\n", l2, "\n");
    assert l1 + "\n" + l2 + "\n" + l3 + "\n" == l1 + "\n" + r2;
    SplitOfWord(empty, '\n');
    SplitLineOff(l3, empty);
    SplitLineOff(l2, r3);
    SplitLineOff(l1, r2);
    FourPieces(l1, l2, l3, empty);
  }

  /** The tokens of three newline-ended lines are those of each line in
      turn. */
  lemma ThreeLinesTokens(l1: string, l2: string, l3: string)
    requires '\n' !in l1 && '\n' !in l2 && '\n' !in l3
    ensures AddrTokens(l1 + "\n" + l2 + "\n" + l3 + "\n") ==
      AddrTokensOfLines([l1]) + AddrTokensOfLines([l2]) + AddrTokensOfLines([l3])
  {
    var empty: string := [];
    ThreeLinesSplit(l1, l2, l3);
    assert [l1, l2, l3, empty] == [l1] + [l2] + [l3] + [empty];
    AddrTokensOfLinesAppend([l1] + [l2] + [l3], [empty]);
    AddrTokensOfLinesAppend([l1] + [l2], [l3]);
    AddrTokensOfLinesAppend([l1], [l2]);
    AddrTokensOfOneLine(empty);
  }

  /** Three client lines give their three `addr=` tokens. */
  lemma ThreeClientsTokens(id1: string, ip1: string, port1: string,
                           id2: string, ip2: string, port2: string,
                           id3: string, ip3: string, port3: string)
    requires ' ' !in id1 && ' ' !in ip1 && ' ' !in port1 && '\n' !in id1 && '\n' !in ip1 && '\n' !in port1
    requires ' ' !in id2 && ' ' !in ip2 && ' ' !in port2 && '\n' !in id2 && '\n' !in ip2 && '\n' !in port2
    requires ' ' !in id3 && ' ' !in ip3 && ' ' !in port3 && '\n' !in id3 && '\n' !in ip3 && '\n' !in port3
    ensures AddrTokens(ClientLine(id1, ip1, port1) + "\n" + ClientLine(id2, ip2, port2) + "\n" + ClientLine(id3, ip3, port3) + "\n")
      == ["addr=" + ip1 + ":" + port1, "addr=" + ip2 + ":" + port2, "addr=" + ip3 + ":" + port3]
  {
    ClientLineNoNewline(id1, ip1, port1);
    ClientLineNoNewline(id2, ip2, port2);
    ClientLineNoNewline(id3, ip3, port3);
    ThreeLinesTokens(ClientLine(id1, ip1, port1), ClientLine(id2, ip2, port2), ClientLine(id3, ip3, port3));
    ClientLineTokens(id1, ip1, port1);
    ClientLineTokens(id2, ip2, port2);
    ClientLineTokens(id3, ip3, port3);
  }

  // Proof helpers for TallyTwoAndOne: one map update each, proved apart so
  // that the caller's context stays small.

  /** Counting a key for the first time. */
  lemma CountFirst<K>(a: K)
    ensures var m: map<K, int> := map[]; m[a := (if a in m then m[a] else 0) + 1] == map[a := 1]
  {
  }

  /** Counting a key a second time. */
  lemma CountAgain<K>(a: K)
    ensures var m := map[a := 1]; m[a := (if a in m then m[a] else 0) + 1] == map[a := 2]
  {
  }

  /** Counting a second key. */
  lemma CountOther<K>(a: K, b: K)
    requires a != b
    ensures var m := map[a := 2]; m[b := (if b in m then m[b] else 0) + 1] == map[a := 2, b := 1]
  {
  }

  /** Two tokens of one IP and one of another count 2 and 1. */
  lemma TallyTwoAndOne(t1: string, t2: string, t3: string, a: string, b: string)
    requires IpOf(t1) == a && IpOf(t2) == a && IpOf(t3) == b && a != b
    ensures Tally([t1, t2, t3]) == map[a := 2, b := 1]
  {
    var none: seq<string> := [];
    AppendEmpty([t1]);
    TwoPieces(t1, t2);
    ThreePieces(t1, t2, t3);
    TallySnoc(none, t1, map[], a);
    CountFirst(a);
    TallySnoc([t1], t2, map[a := 1], a);
    CountAgain(a);
    TallySnoc([t1, t2], t3, map[a := 2], b);
    CountOther(a, b);
  }

  /** The records of a two-entry map. */
  lemma EntriesOfTwo(a: string, x: int, b: string, y: int)
    requires a != b
    ensures var counts := map[a := x, b := y];
      (set ip | ip in counts :: ClientStats(ip, counts[ip])) == {ClientStats(a, x), ClientStats(b, y)}
  {
    var counts := map[a := x, b := y];
    var entries := set ip | ip in counts :: ClientStats(ip, counts[ip]);
    assert a in counts && counts[a] == x && ClientStats(a, x) in entries;
    assert b in counts && counts[b] == y && ClientStats(b, y) in entries;
    forall r | r in entries
      ensures r == ClientStats(a, x) || r == ClientStats(b, y)
    {
      var ip :| ip in counts && r == ClientStats(ip, counts[ip]);
    }
  }

  /** Proof helper: the separator-freedom facts the example needs. */
  lemma ExampleFieldsHaveNoSeparators()
    ensures ' ' !in "1" && ' ' !in "2" && ' ' !in "3" && '\n' !in "1" && '\n' !in "2" && '\n' !in "3"
    ensures ' ' !in "192.168.1.10" && '\n' !in "192.168.1.10" && ':' !in "192.168.1.10"
    ensures ' ' !in "192.168.1.11" && '\n' !in "192.168.1.11" && ':' !in "192.168.1.11"
    ensures ' ' !in "54321" && ' ' !in "54322" && ' ' !in "9000"
    ensures '\n' !in "54321" && '\n' !in "54322" && '\n' !in "9000"
    ensures "192.168.1.10" != "192.168.1.11"
  {
    assert "192.168.1.10"[11] != "192.168.1.11"[11];
  }

  /** The port is dropped: the two connections from 192.168.1.10 count
      together. */
  lemma ExampleClientCounts()
    ensures ClientCounts(ExampleClientText) == map["192.168.1.10" := 2, "192.168.1.11" := 1]
  {
    ExampleFieldsHaveNoSeparators();
    ThreeClientsTokens("1", "192.168.1.10", "54321", "2", "192.168.1.10", "54322", "3", "192.168.1.11", "9000");
    IpOfAddress("192.168.1.10", "54321");
    IpOfAddress("192.168.1.10", "54322");
    IpOfAddress("192.168.1.11", "9000");
    TallyTwoAndOne("addr=" + "192.168.1.10" + ":" + "54321", "addr=" + "192.168.1.10" + ":" + "54322",
      "addr=" + "192.168.1.11" + ":" + "9000", "192.168.1.10", "192.168.1.11");
  }

  /** The records of the example are (192.168.1.10, 2) and (192.168.1.11, 1),
      in either order. */
  lemma ExampleClientStats(stats: seq<ClientStats>)
    requires Tabulates(stats, ClientCounts(ExampleClientText))
    ensures (set i | 0 <= i < |stats| :: stats[i]) ==
      {ClientStats("192.168.1.10", 2), ClientStats("192.168.1.11", 1)}
  {
    ExampleClientCounts();
    var counts := map["192.168.1.10" := 2, "192.168.1.11" := 1];
    TabulatesIsMapEntries(stats, counts);
    ExampleFieldsHaveNoSeparators();
    EntriesOfTwo("192.168.1.10", 2, "192.168.1.11", 1);
  }
}
