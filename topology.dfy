/** How FetchSlowLogs (analyzer/slowlog_analyzer.go) decides between a cluster
    and a standalone server and lists the nodes to visit. The CLUSTER INFO and
    CLUSTER NODES queries are inputs. */
module Topology {
  import opened GoStrings
  import opened Sequences
  import opened Redis
  import opened Lines

  /** The cluster test: CLUSTER INFO answered and its text contains
      `cluster_state:ok`. */
  predicate ClusterDetected(clusterInfo: Query<string>): (detected: bool)
    ensures detected <==> (clusterInfo.Answered?
      && exists i, j :: 0 <= i <= j <= |clusterInfo.value| && clusterInfo.value[i..j] == ClusterStateOk)
  {
    clusterInfo.Answered? && (ContainsAt(clusterInfo.value, ClusterStateOk); Contains(clusterInfo.value, ClusterStateOk))
  }

  const ClusterStateOk: string := "cluster_state:ok"

  /** What one CLUSTER NODES line contributes: its second field cut before
      the first '@' (dropping the bus port), or nothing when the line has
      fewer than two fields. */
  function NodeOfLine(line: string): (r: seq<string>)
    ensures |r| <= 1
    ensures r == [] <==> |Fields(line)| < 2
    ensures r != [] ==> '@' !in r[0]
    ensures r != [] ==> var field := Fields(line)[1];
      HasPrefix(field, r[0]) && (|r[0]| == |field| || field[|r[0]|] == '@')
  {
    var parts := Fields(line);
    if |parts| >= 2 then [Split(parts[1], '@')[0]] else []
  }

  /** The node addresses named by CLUSTER NODES lines, in line order. */
  function NodeAddresses(lines: seq<string>): (nodes: seq<string>)
    ensures |nodes| <= |lines|
    ensures forall i :: 0 <= i < |nodes| ==> '@' !in nodes[i]
  {
    if lines == [] then []
    else NodeAddresses(lines[..|lines| - 1]) + NodeOfLine(lines[|lines| - 1])
  }

  /** The node list, or the error of a failed CLUSTER NODES query. */
  function Discovery(addr: string, clusterInfo: Query<string>, clusterNodes: Query<string>): Result<seq<string>> {
    if !ClusterDetected(clusterInfo) then Ok([addr])
    else if clusterNodes.Failed? then Err(ClusterNodesError(clusterNodes.error))
    else Ok(NodeAddresses(LinesOf(clusterNodes.value)))
  }

  /** FetchSlowLogs' discovery: a standalone server (CLUSTER INFO failed or
      does not report `cluster_state:ok`) is visited alone; in a cluster every
      CLUSTER NODES line with two or more fields names one node; only a failed
      CLUSTER NODES query is an error. */
  method DiscoverNodes(addr: string, clusterInfo: Query<string>, clusterNodes: Query<string>)
    returns (r: Result<seq<string>>)
    ensures r == Discovery(addr, clusterInfo, clusterNodes)
    ensures !ClusterDetected(clusterInfo) ==> r == Ok([addr])
    ensures r.Err? <==> ClusterDetected(clusterInfo) && clusterNodes.Failed?
    ensures r.Ok? && ClusterDetected(clusterInfo) ==> |r.value| <= |LinesOf(clusterNodes.value)|
  {
    if clusterInfo.Answered? && Contains(clusterInfo.value, ClusterStateOk) {
      if clusterNodes.Failed? {
        return Err(ClusterNodesError(clusterNodes.error));
      }
      var lines := SplitLines(clusterNodes.value);
      var nodes: seq<string> := [];
      for i := 0 to |lines|
        invariant nodes == NodeAddresses(lines[..i])
      {
        var parts := Fields(lines[i]);
        if |parts| >= 2 {
          nodes := nodes + [Split(parts[1], '@')[0]];
        }
        assert lines[..i + 1][..i] == lines[..i];
      }
      assert lines[..|lines|] == lines;
      r := Ok(nodes);
    } else {
      r := Ok([addr]);
    }
  }

  /** Parsing follows the line order: the nodes of two blocks of lines are
      the nodes of the first block, then those of the second. */
  lemma {:induction false} NodeAddressesAppend(a: seq<string>, b: seq<string>)
    ensures NodeAddresses(a + b) == NodeAddresses(a) + NodeAddresses(b)
    decreases |b|
  {
    if b == [] {
      AppendEmpty(a);
      AppendEmpty(NodeAddresses(a));
    } else {
      var front := b[..|b| - 1];
      var last := b[|b| - 1];
      assert (a + b)[..|a + b| - 1] == a + front;
      assert (a + b)[|a + b| - 1] == last;
      NodeAddressesAppend(a, front);
      AppendAssoc(NodeAddresses(a), NodeAddresses(front), NodeOfLine(last));
    }
  }

  /** The nodes of a single line. */
  lemma NodeAddressesOfLine(line: string)
    ensures NodeAddresses([line]) == NodeOfLine(line)
  {
    assert [line][..0] == [];
  }

  /** A line with fewer than two fields contributes nothing: dropping it
      leaves the node list unchanged. */
  lemma NodeAddressesSkipShortLine(lines: seq<string>, i: nat)
    requires i < |lines| && |Fields(lines[i])| < 2
    ensures NodeAddresses(lines) == NodeAddresses(lines[..i] + lines[i + 1..])
  {
    SplitAt(lines, i);
    NodeAddressesAppend(lines[..i] + [lines[i]], lines[i + 1..]);
    NodeAddressesAppend(lines[..i], [lines[i]]);
    NodeAddressesAppend(lines[..i], lines[i + 1..]);
    NodeAddressesOfLine(lines[i]);
    AppendEmpty(NodeAddresses(lines[..i]));
  }

  /** A CLUSTER NODES line `<id> <ip:port>@<cport> <flags> ...` names
      `ip:port`. */
  lemma NodeOfClusterLine(id: string, address: string, busPort: string, rest: string)
    requires IsWord(id) && IsWord(address) && '@' !in address
    requires forall i :: 0 <= i < |busPort| ==> !IsSpace(busPort[i])
    ensures NodeOfLine(id + " " + address + "@" + busPort + " " + rest) == [address]
  {
    var field := address + "@" + busPort;
    assert IsWord(field) by {
      assert forall i :: 0 <= i < |address| ==> field[i] == address[i];
      assert field[|address|] == '@';
      assert forall i :: |address| < i < |field| ==> field[i] == busPort[i - |address| - 1];
    }
    assert id + " " + address + "@" + busPort + " " + rest == id + " " + (field + " " + rest);
    FieldsCons(id, field + " " + rest);
    FieldsCons(field, rest);
    assert field == address + ['@'] + busPort;
    SplitCons(address, '@', busPort);
  }

  /** A line holding a single word names no node. */
  lemma NodeOfOneWordLine(w: string)
    requires IsWord(w)
    ensures NodeOfLine(w) == []
  {
    FieldsOfWord(w);
  }

  const ExampleId: string := "07c37dfeb235213a872192d90877d0cd55635b91"
  const ExampleAddress: string := "10.0.0.1:7000"
  const ExampleBusPort: string := "17000"
  const ExampleFlags: string := "master - 0 0 0 connected"
  const ExampleNodeLine: string := ExampleId + " " + ExampleAddress + "@" + ExampleBusPort + " " + ExampleFlags

  lemma ExampleIdIsWord()
    ensures IsWord(ExampleId)
  {
  }

  lemma ExampleAddressIsWord()
    ensures IsWord(ExampleAddress) && '@' !in ExampleAddress
    ensures forall i :: 0 <= i < |ExampleBusPort| ==> !IsSpace(ExampleBusPort[i])
  {
  }

  /** The node line names the node's address, without its bus port. */
  lemma ExampleNodeLineAddress()
    ensures NodeOfLine(ExampleNodeLine) == [ExampleAddress]
  {
    ExampleIdIsWord();
    ExampleAddressIsWord();
    NodeOfClusterLine(ExampleId, ExampleAddress, ExampleBusPort, ExampleFlags);
  }

  /** A malformed line names nothing. */
  lemma ExampleBadLine()
    ensures NodeOfLine("badline") == []
  {
    assert IsWord("badline");
    NodeOfOneWordLine("badline");
  }

  /** A node line and a malformed line give the node's address alone. */
  lemma ExampleNodeAddresses()
    ensures NodeAddresses([ExampleNodeLine, "badline"]) == [ExampleAddress]
  {
    ExampleNodeLineAddress();
    ExampleBadLine();
    NodeAddressesOfLines2(ExampleNodeLine, "badline");
    AppendEmpty([ExampleAddress]);
  }

  lemma ExampleNodeLineHasNoNewline()
    ensures '\n' !in ExampleNodeLine
  {
    ExampleIdIsWord();
    ExampleAddressIsWord();
    assert IsSpace('\n');
    assert '\n' !in ExampleFlags;
  }

  /** The whole discovery on that text: CLUSTER INFO reports
      `cluster_state:ok`, and CLUSTER NODES holds the node line and a
      malformed line; the node list is the node's address alone. */
  lemma ExampleDiscovery(addr: string)
    ensures Discovery(addr, Answered(ClusterStateOk), Answered(ExampleNodeLine + "\n" + "badline" + "\n"))
      == Ok([ExampleAddress])
  {
    ContainsPrefix(ClusterStateOk, []);
    AppendEmpty(ClusterStateOk);
    ExampleNodeLineHasNoNewline();
    assert '\n' !in "badline";
    var lines := [ExampleNodeLine, "badline"];
    assert lines[1..] == ["badline"];
    assert ["badline"][1..] == [];
    assert Terminated(lines) == ExampleNodeLine + "\n" + "badline" + "\n";
    LinesOfTerminated(lines);
    ExampleNodeAddresses();
  }

  lemma NodeAddressesOfLines2(first: string, second: string)
    ensures NodeAddresses([first, second]) == NodeOfLine(first) + NodeOfLine(second)
  {
    NodeAddressesAppend([first], [second]);
    NodeAddressesOfLine(first);
    NodeAddressesOfLine(second);
    assert [first] + [second] == [first, second];
  }
}
