/** FetchSlowLogs (analyzer/slowlog_analyzer.go): the SLOWLOG GET reply filter,
    the per-node visit and the fail-fast loop over the discovered nodes.

    What each node answers (its INFO replication and SLOWLOG GET queries) is an
    input: `respond(i)` is the answer of the i-th node visited. The printed
    report is kept abstractly, one section per visited node holding the entries
    printed for it; the date and duration formatting is not modelled. A Go run
    time panic ends the run, and is a status of its own. */
module SlowLog {
  import opened Redis
  import opened Sequences
  import opened Topology

  /** One slow-log entry as it is printed: its timestamp, its execution time
      (in microseconds) and the command's arguments as the reply holds them. */
  datatype SlowLogEntry = SlowLogEntry(timestamp: int64, execTime: int64, command: Reply)

  /** Where the source indexes past the end of a value and panics. */
  datatype PanicSite =
    | EmptyInfoReply        // info[0] on an empty INFO replication reply
    | MissingCommandField   // logEntry[3] on a slow-log entry of exactly 3 items

  /** How a run ends: nil, a returned error, or a panic. */
  datatype Status = Done | Returned(error: Error) | Panicked(site: PanicSite)

  /** What one node answers. */
  datatype NodeResponse = NodeResponse(replication: Query<string>, slowlog: Query<Reply>)

  /** The part of the report printed for one visited node: its address, then
      one row per rendered slow-log entry. */
  datatype Section = Section(address: string, rows: seq<SlowLogEntry>)

  datatype NodeResult = NodeResult(section: Section, status: Status)

  /** A whole run: the sections printed, then how it ended. */
  datatype Run = Run(report: seq<Section>, status: Status)

  /** How the entry loop treats one element of the SLOWLOG GET array. */
  datatype EntryClass = Skipped | IndexPanic | Rendered(entry: SlowLogEntry)

  /** Rendering so far, and whether the loop hit a panic. */
  datatype Rendering = Rendering(rows: seq<SlowLogEntry>, panicked: bool)

  /** The `.(int64)` assertion whose failure is ignored: an integer reply, or 0. */
  function IntOrZero(r: Reply): (v: int64)
    ensures r.Int? ==> v == r.n
    ensures !r.Int? ==> v == 0
  {
    if r.Int? then r.n else 0
  }

  /** One element of the SLOWLOG GET array: skipped unless it is an array of at
      least 3 items; an array of exactly 3 items reaches index 3 and panics;
      otherwise items 1, 2 and 3 are the timestamp, the duration and the
      command. */
  function ClassifyEntry(entry: Reply): (c: EntryClass)
    ensures c.Skipped? <==> !entry.Arr? || |entry.items| < 3
    ensures c.IndexPanic? <==> entry.Arr? && |entry.items| == 3
    ensures c.Rendered? <==> entry.Arr? && |entry.items| >= 4
    ensures c.Rendered? ==>
      (c.entry.command == entry.items[3]
       && c.entry.timestamp == IntOrZero(entry.items[1]) && c.entry.execTime == IntOrZero(entry.items[2]))
  {
    if !entry.Arr? || |entry.items| < 3 then Skipped
    else if |entry.items| == 3 then IndexPanic
    else Rendered(SlowLogEntry(IntOrZero(entry.items[1]), IntOrZero(entry.items[2]), entry.items[3]))
  }

  /** The entry loop over a SLOWLOG GET array: the rows printed, and whether
      the loop panicked (after which nothing more is printed). */
  function RenderEntries(entries: seq<Reply>): Rendering {
    if entries == [] then Rendering([], false)
    else
      var before := RenderEntries(entries[..|entries| - 1]);
      if before.panicked then before
      else match ClassifyEntry(entries[|entries| - 1])
        case Skipped => before
        case IndexPanic => Rendering(before.rows, true)
        case Rendered(e) => Rendering(before.rows + [e], false)
  }

  /** The visit of one node: its address is printed first; a failed INFO query
      returns its error; an empty INFO reply panics; a failed SLOWLOG GET
      returns its error; a reply that is not an array is the "unexpected
      SLOWLOG GET result" error; otherwise its entries are rendered. */
  function NodeVisit(address: string, resp: NodeResponse): NodeResult {
    var header := Section(address, []);
    if resp.replication.Failed? then NodeResult(header, Returned(QueryError(resp.replication.error)))
    else if resp.replication.value == [] then NodeResult(header, Panicked(EmptyInfoReply))
    else if resp.slowlog.Failed? then NodeResult(header, Returned(QueryError(resp.slowlog.error)))
    else if !resp.slowlog.value.Arr? then NodeResult(header, Returned(UnexpectedSlowlogResult))
    else
      var r := RenderEntries(resp.slowlog.value.items);
      NodeResult(Section(address, r.rows), if r.panicked then Panicked(MissingCommandField) else Done)
  }

  /** The node loop: nodes are visited in order and the first one that does
      not end in Done ends the run with its status. The report holds a
      section for each node visited, and only for those: the first
      `|report|` nodes, all of which but the last one succeeded. */
  function Collect(nodes: seq<string>, respond: nat -> NodeResponse): (run: Run)
    ensures |run.report| <= |nodes|
    ensures forall i :: 0 <= i < |run.report| ==> run.report[i] == NodeVisit(nodes[i], respond(i)).section
    ensures forall i :: 0 <= i < |run.report| - 1 ==> NodeVisit(nodes[i], respond(i)).status == Done
    ensures run.status == Done ==>
      |run.report| == |nodes| && forall i :: 0 <= i < |nodes| ==> NodeVisit(nodes[i], respond(i)).status == Done
    ensures run.status != Done ==>
      |run.report| >= 1 && run.status == NodeVisit(nodes[|run.report| - 1], respond(|run.report| - 1)).status
  {
    if nodes == [] then Run([], Done)
    else
      var n := |nodes| - 1;
      var before := Collect(nodes[..n], respond);
      if before.status != Done then before
      else
        var v := NodeVisit(nodes[n], respond(n));
        Run(before.report + [v.section], v.status)
  }

  /** The whole of FetchSlowLogs: discovery, then the node loop. */
  function SlowLogRun(addr: string, clusterInfo: Query<string>, clusterNodes: Query<string>,
                      respond: nat -> NodeResponse): Run {
    match Discovery(addr, clusterInfo, clusterNodes)
    case Err(e) => Run([], Returned(e))
    case Ok(nodes) => Collect(nodes, respond)
  }

  /** The entry loop of FetchSlowLogs. */
  method RenderLog(logs: seq<Reply>) returns (rows: seq<SlowLogEntry>, panicked: bool)
    ensures Rendering(rows, panicked) == RenderEntries(logs)
  {
    rows, panicked := [], false;
    for i := 0 to |logs|
      invariant RenderEntries(logs[..i]) == Rendering(rows, false)
    {
      TakeTake(logs, i, i + 1);
      var entry := logs[i];
      if entry.Arr? && |entry.items| >= 3 {
        var timestamp := if entry.items[1].Int? then entry.items[1].n else 0;
        var duration := if entry.items[2].Int? then entry.items[2].n else 0;
        if |entry.items| == 3 {
          panicked := true;
          RenderAppend(logs[..i + 1], logs[i + 1..]);
          TakeDrop(logs, i + 1);
          return;
        }
        rows := rows + [SlowLogEntry(timestamp, duration, entry.items[3])];
      }
    }
    assert logs[..|logs|] == logs;
  }

  /** The visit of one node. */
  method VisitNode(address: string, resp: NodeResponse) returns (v: NodeResult)
    ensures v == NodeVisit(address, resp)
  {
    var header := Section(address, []);
    if resp.replication.Failed? {
      return NodeResult(header, Returned(QueryError(resp.replication.error)));
    }
    if |resp.replication.value| == 0 {
      return NodeResult(header, Panicked(EmptyInfoReply));
    }
    if resp.slowlog.Failed? {
      return NodeResult(header, Returned(QueryError(resp.slowlog.error)));
    }
    if !resp.slowlog.value.Arr? {
      return NodeResult(header, Returned(UnexpectedSlowlogResult));
    }
    var rows, panicked := RenderLog(resp.slowlog.value.items);
    v := NodeResult(Section(address, rows), if panicked then Panicked(MissingCommandField) else Done);
  }

  /** The node loop, returning at the first node that does not succeed. */
  method CollectSlowLogs(nodes: seq<string>, respond: nat -> NodeResponse) returns (run: Run)
    ensures run == Collect(nodes, respond)
  {
    var report: seq<Section> := [];
    for i := 0 to |nodes|
      invariant Collect(nodes[..i], respond) == Run(report, Done)
    {
      TakeTake(nodes, i, i + 1);
      var v := VisitNode(nodes[i], respond(i));
      report := report + [v.section];
      if v.status != Done {
        CollectIgnoresLater(nodes[..i + 1], nodes[i + 1..], respond);
        TakeDrop(nodes, i + 1);
        return Run(report, v.status);
      }
    }
    assert nodes[..|nodes|] == nodes;
    run := Run(report, Done);
  }

  /** FetchSlowLogs: a failed CLUSTER NODES query ends the run before any node
      is visited; a standalone server is the only node visited. */
  method FetchSlowLogs(addr: string, clusterInfo: Query<string>, clusterNodes: Query<string>,
                       respond: nat -> NodeResponse) returns (run: Run)
    ensures run == SlowLogRun(addr, clusterInfo, clusterNodes, respond)
    ensures ClusterDetected(clusterInfo) && clusterNodes.Failed? ==>
      run == Run([], Returned(ClusterNodesError(clusterNodes.error)))
    ensures !ClusterDetected(clusterInfo) ==>
      run.report == [NodeVisit(addr, respond(0)).section] && run.status == NodeVisit(addr, respond(0)).status
  {
    var discovered := DiscoverNodes(addr, clusterInfo, clusterNodes);
    if discovered.Err? {
      return Run([], Returned(discovered.error));
    }
    run := CollectSlowLogs(discovered.value, respond);
    if !ClusterDetected(clusterInfo) {
      CollectOneNode(addr, respond);
    }
  }

  /** A standalone run visits its one node. */
  lemma CollectOneNode(addr: string, respond: nat -> NodeResponse)
    ensures Collect([addr], respond) == Run([NodeVisit(addr, respond(0)).section], NodeVisit(addr, respond(0)).status)
  {
    assert [addr][..0] == [];
  }

  /** Once the entry loop has panicked, later entries change nothing; until
      then, rendering two blocks of entries renders the first, then the
      second. */
  lemma {:induction false} RenderAppend(a: seq<Reply>, b: seq<Reply>)
    ensures RenderEntries(a).panicked ==> RenderEntries(a + b) == RenderEntries(a)
    ensures !RenderEntries(a).panicked ==>
      RenderEntries(a + b) == Rendering(RenderEntries(a).rows + RenderEntries(b).rows, RenderEntries(b).panicked)
    decreases |b|
  {
    if b == [] {
      AppendEmpty(a);
      AppendEmpty(RenderEntries(a).rows);
    } else {
      var front := b[..|b| - 1];
      var last := b[|b| - 1];
      assert (a + b)[..|a + b| - 1] == a + front;
      assert (a + b)[|a + b| - 1] == last;
      RenderAppend(a, front);
      if !RenderEntries(a).panicked && !RenderEntries(front).panicked {
        var c := ClassifyEntry(last);
        if c.Rendered? {
          AppendAssoc(RenderEntries(a).rows, RenderEntries(front).rows, [c.entry]);
        }
      }
    }
  }

  /** An element that is not an array, or has fewer than 3 items, is skipped
      without a trace: removing it changes neither the rows nor the panic. */
  lemma RenderSkipsMalformed(entries: seq<Reply>, i: nat)
    requires i < |entries|
    requires !entries[i].Arr? || |entries[i].items| < 3
    ensures RenderEntries(entries) == RenderEntries(entries[..i] + entries[i + 1..])
  {
    var a, b := entries[..i], entries[i + 1..];
    SplitAt(entries, i);
    RenderAppend(a + [entries[i]], b);
    RenderAppend(a, [entries[i]]);
    RenderAppend(a, b);
    assert [entries[i]][..0] == [];
    AppendEmpty(RenderEntries(a).rows);
  }

  /** The entry loop panics exactly when one of the entries is an array of
      exactly 3 items. */
  lemma {:induction false} RenderPanicsIff(entries: seq<Reply>)
    ensures RenderEntries(entries).panicked <==>
      exists i :: 0 <= i < |entries| && entries[i].Arr? && |entries[i].items| == 3
  {
    if entries != [] {
      var front := entries[..|entries| - 1];
      RenderPanicsIff(front);
      var last := entries[|entries| - 1];
      if exists i :: 0 <= i < |front| && front[i].Arr? && |front[i].items| == 3 {
        var i :| 0 <= i < |front| && front[i].Arr? && |front[i].items| == 3;
        assert entries[i] == front[i];
      } else if last.Arr? && |last.items| == 3 {
        assert entries[|entries| - 1] == last;
      } else {
        forall i | 0 <= i < |entries| && entries[i].Arr?
          ensures |entries[i].items| != 3
        {
          if i < |front| {
            assert entries[i] == front[i];
          }
        }
      }
    }
  }

  /** When every entry is an array of at least 4 items, each one is printed,
      in order, with item 1 as its timestamp and item 2 as its duration (0
      where the item is not an integer) and item 3 as its command. */
  lemma {:induction false} RenderWellFormed(entries: seq<Reply>)
    requires forall i :: 0 <= i < |entries| ==> entries[i].Arr? && |entries[i].items| >= 4
    ensures !RenderEntries(entries).panicked
    ensures |RenderEntries(entries).rows| == |entries|
    ensures forall i :: 0 <= i < |entries| ==>
      RenderEntries(entries).rows[i] ==
        SlowLogEntry(IntOrZero(entries[i].items[1]), IntOrZero(entries[i].items[2]), entries[i].items[3])
  {
    if entries != [] {
      var front := entries[..|entries| - 1];
      assert forall i :: 0 <= i < |front| ==> front[i] == entries[i];
      RenderWellFormed(front);
    }
  }

  /** Once a node has failed, the nodes after it are never visited: the run is
      the same whatever follows. */
  lemma {:induction false} CollectIgnoresLater(nodes: seq<string>, more: seq<string>, respond: nat -> NodeResponse)
    requires Collect(nodes, respond).status != Done
    ensures Collect(nodes + more, respond) == Collect(nodes, respond)
    decreases |more|
  {
    if more == [] {
      AppendEmpty(nodes);
    } else {
      var front := more[..|more| - 1];
      assert (nodes + more)[..|nodes + more| - 1] == nodes + front;
      CollectIgnoresLater(nodes, front, respond);
    }
  }

  /** The run ends at the first node that fails, with that node's status,
      after visiting exactly the nodes up to and including it. */
  lemma CollectStopsAtFirstFailure(nodes: seq<string>, respond: nat -> NodeResponse, k: nat)
    requires k < |nodes|
    requires forall i :: 0 <= i < k ==> NodeVisit(nodes[i], respond(i)).status == Done
    requires NodeVisit(nodes[k], respond(k)).status != Done
    ensures Collect(nodes, respond).status == NodeVisit(nodes[k], respond(k)).status
    ensures |Collect(nodes, respond).report| == k + 1
    ensures forall i :: 0 <= i <= k ==> Collect(nodes, respond).report[i].address == nodes[i]
  {
  }
}
