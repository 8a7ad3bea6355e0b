/**
 * The experiments' DOT beautifier (`experiments/scripts/dot_beautify.py`):
 * the older variant of the model beautifier. It has no remove pattern, looks
 * whole label parts up in the replacement table, always overrides the
 * initial edge's label, and always merges the labels of same edges.
 */
module DotBeautify {
  import opened Types
  import opened Strings
  import opened DotGraph

  // ---------------------------------------------------------------------
  // Nodes
  // ---------------------------------------------------------------------

  /** A state's label without its quotes and without its first character. */
  function ShortLabel(text: string): (r: string)
    ensures var t := Strip(text, {'"'}); (|t| == 0 ==> r == "") && (|t| > 0 ==> r == t[1..])
  {
    var t := Strip(text, {'"'});
    if |t| == 0 then "" else t[1..]
  }

  function Cleaned(nd: Node, shorten: bool): (r: Node)
    ensures r.name == nd.name
  {
    if IsState(nd) && shorten then nd.(text := ShortLabel(nd.text)) else nd
  }

  /** The nodes of `nodes[i..]` that are states or the start node, cleaned, in order. */
  function KeptNodes(nodes: seq<Node>, shorten: bool, start: string, i: nat): seq<Node>
    requires i <= |nodes|
    decreases |nodes| - i
  {
    if i == |nodes| then []
    else (if IsState(nodes[i]) || nodes[i].name == start then [Cleaned(nodes[i], shorten)] else [])
         + KeptNodes(nodes, shorten, start, i + 1)
  }

  /** The node loop of `get_info_from_graph`. */
  method CleanNodes(nodes: seq<Node>, shorten: bool, start: string) returns (r: seq<Node>)
    ensures r == KeptNodes(nodes, shorten, start, 0)
  {
    r := [];
    var i := 0;
    while i < |nodes|
      invariant 0 <= i <= |nodes|
      invariant KeptNodes(nodes, shorten, start, 0) == r + KeptNodes(nodes, shorten, start, i)
    {
      ghost var rest := KeptNodes(nodes, shorten, start, i + 1);
      if IsState(nodes[i]) || nodes[i].name == start {
        var c := Cleaned(nodes[i], shorten);
        assert KeptNodes(nodes, shorten, start, i) == [c] + rest;
        Regroup(r, [c], rest);
        r := r + [c];
      } else {
        assert KeptNodes(nodes, shorten, start, i) == rest;
      }
      i := i + 1;
    }
  }

  /** The surviving nodes are exactly the cleaned states and start nodes. */
  lemma {:induction false} KeptNodesSpec(nodes: seq<Node>, shorten: bool, start: string, i: nat, nd: Node)
    requires i <= |nodes|
    ensures nd in KeptNodes(nodes, shorten, start, i) <==>
            exists k :: i <= k < |nodes| && (IsState(nodes[k]) || nodes[k].name == start) && nd == Cleaned(nodes[k], shorten)
    decreases |nodes| - i
  {
    if i < |nodes| {
      KeptNodesSpec(nodes, shorten, start, i + 1, nd);
      var rest := KeptNodes(nodes, shorten, start, i + 1);
      if IsState(nodes[i]) || nodes[i].name == start {
        var c := Cleaned(nodes[i], shorten);
        assert KeptNodes(nodes, shorten, start, i) == [c] + rest;
        assert nd in [c] + rest <==> nd == c || nd in rest;
        if nd == c {
          assert i <= i < |nodes| && (IsState(nodes[i]) || nodes[i].name == start) && nd == Cleaned(nodes[i], shorten);
        }
      } else {
        assert KeptNodes(nodes, shorten, start, i) == rest;
      }
      if k :| i <= k < |nodes| && (IsState(nodes[k]) || nodes[k].name == start) && nd == Cleaned(nodes[k], shorten) {
        if k != i {
          assert i + 1 <= k;
        }
      }
    }
  }

  // ---------------------------------------------------------------------
  // Edges
  // ---------------------------------------------------------------------

  /**
   * What one edge is: an edge leaving the start node is the initial edge,
   * relabelled with `initialLabel`; any other edge's unquoted label must
   * split into input and output, each looked up in the table.
   */
  function ClassifyEdge(e: Edge, start: string, initialLabel: string, table: Replacements): (r: Result<EdgeRole, Exception>)
    ensures e.source == start <==> r == Ok(Initial(e.(text := initialLabel)))
    ensures r.Ok? ==> !r.value.Removed?
    ensures r.Err? ==> r == Err(ValueError)
  {
    if e.source == start then Ok(Initial(e.(text := initialLabel)))
    else
      var parts := Split(Strip(e.text, {'"'}), " / ");
      if |parts| != 2 then Err(ValueError)
      else Ok(Grouped(Replace(table, parts[0]), Replace(table, parts[1])))
  }

  /** A quoted label `"i / o"` is grouped under the replaced output with the replaced input. */
  lemma ClassifyQuoted(s: string, d: string, i: string, o: string, start: string, initialLabel: string, table: Replacements)
    requires s != start && PlainName(i) && PlainName(o)
    ensures ClassifyEdge(Edge(s, d, QuotedLabel(i, o)), start, initialLabel, table) ==
            Ok(Grouped(Replace(table, i), Replace(table, o)))
  {
    QuotedLabelParts(i, o, {'"'});
    var e := Edge(s, d, QuotedLabel(i, o));
    var parts := Split(Strip(e.text, {'"'}), " / ");
    assert parts == [i, o];
  }

  function RolesOf(edges: seq<Edge>, start: string, initialLabel: string, table: Replacements): (r: Roles)
    ensures |r| == |edges|
    ensures forall k :: 0 <= k < |edges| ==> r[k] == ClassifyEdge(edges[k], start, initialLabel, table)
    ensures forall k :: 0 <= k < |edges| && r[k].Ok? && !r[k].value.Initial? ==> edges[k].source != start
  {
    seq(|edges|, k requires 0 <= k < |edges| => ClassifyEdge(edges[k], start, initialLabel, table))
  }

  function EdgeInfoOf(edges: seq<Edge>, start: string, initialLabel: string, table: Replacements): Result<EdgeInfoResult, Exception>
  {
    EdgeWalk(edges, RolesOf(edges, start, initialLabel, table), 0, EdgeInfoResult([], None))
  }

  /** The edge loop of `get_info_from_graph`. */
  method GroupEdges(edges: seq<Edge>, start: string, initialLabel: string, table: Replacements)
    returns (r: Result<EdgeInfoResult, Exception>)
    ensures r == EdgeInfoOf(edges, start, initialLabel, table)
  {
    ghost var roles := RolesOf(edges, start, initialLabel, table);
    var acc := EdgeInfoResult([], None);
    var i := 0;
    while i < |edges|
      invariant 0 <= i <= |edges|
      invariant EdgeInfoOf(edges, start, initialLabel, table) == EdgeWalk(edges, roles, i, acc)
    {
      var role := ClassifyEdge(edges[i], start, initialLabel, table);
      assert role == roles[i];
      if role.Err? {
        return Err(role.error);
      }
      acc := Step(acc, edges[i], role.value);
      i := i + 1;
    }
    return Ok(acc);
  }

  /**
   * The grouping lists, under each (source, destination, output), the
   * replaced inputs of exactly the edges with those endpoints and that
   * replaced output, in edge order; no group leaves the start node; the
   * stored initial edge is the last edge leaving the start node, relabelled.
   */
  lemma EdgeInfoSpec(edges: seq<Edge>, start: string, initialLabel: string, table: Replacements, s: string, d: string, o: string)
    requires EdgeInfoOf(edges, start, initialLabel, table).Ok?
    ensures var g := EdgeInfoOf(edges, start, initialLabel, table).value;
      InputsOf(g.info, s, d, o) == GroupedInputs(edges, RolesOf(edges, start, initialLabel, table), 0, s, d, o) &&
      WellGrouped(g.info, start)
    ensures var init := EdgeInfoOf(edges, start, initialLabel, table).value.initial;
      (init == None && forall k :: 0 <= k < |edges| ==> edges[k].source != start) ||
      (exists k :: 0 <= k < |edges| && edges[k].source == start && init == Some(edges[k].(text := initialLabel)) &&
         forall k' :: k < k' < |edges| ==> edges[k'].source != start)
  {
    var roles := RolesOf(edges, start, initialLabel, table);
    EdgeWalkGroups(edges, roles, start, 0, EdgeInfoResult([], None), s, d, o);
    EdgeWalkInitial(edges, roles, 0, EdgeInfoResult([], None));
    EdgeWalkOk(edges, roles, 0, EdgeInfoResult([], None));
  }

  // ---------------------------------------------------------------------
  // The new graph
  // ---------------------------------------------------------------------

  /** The label options: input separator, label separator, multi-line layout and paddings. */
  datatype LabelSettings = LabelSettings(
    inputSep: string, labelSep: string, multiline: bool, startPadding: string, endPadding: string)

  /** The separator between merged labels: a line break follows it in the multi-line layout. */
  function LabelSeparator(ls: LabelSettings): (r: string)
    ensures ls.multiline ==> r == ls.labelSep + "\n"
    ensures !ls.multiline ==> r == ls.labelSep
  {
    ls.labelSep + (if ls.multiline then "\n" else "")
  }

  /** The padded label of one pair: its merged labels, shortest first, joined. */
  function PairLabel(entries: seq<Entry>, ls: LabelSettings): string
  {
    Pad(Join(SortByLength(MergeLabels(entries, ls.inputSep)), LabelSeparator(ls)), ls.startPadding, ls.endPadding)
  }

  /** The padded label of every pair, in group order. */
  function PairLabels(info: EdgeInfo, ls: LabelSettings): (r: seq<string>)
    ensures |r| == |info|
    ensures forall k :: 0 <= k < |info| ==> r[k] == PairLabel(info[k].entries, ls)
  {
    seq(|info|, k requires 0 <= k < |info| => PairLabel(info[k].entries, ls))
  }

  function NewGraph(nodes: seq<Node>, info: EdgeInfo, initial: Option<Edge>, ls: LabelSettings): (r: Result<Graph, Exception>)
    ensures initial == None <==> r == Err(AttributeError)
  {
    if initial == None then Err(AttributeError)
    else
      Ok(Graph(nodes, [PaddedInitialEdge(initial.value, ls.startPadding, ls.endPadding)] + GroupedEdges(info, PairLabels(info, ls))))
  }

  /** `create_new_graph`. */
  method CreateNewGraph(nodes: seq<Node>, info: EdgeInfo, initial: Option<Edge>, ls: LabelSettings)
    returns (r: Result<Graph, Exception>)
    ensures r == NewGraph(nodes, info, initial, ls)
  {
    if initial == None {
      return Err(AttributeError);
    }
    var edges := [PaddedInitialEdge(initial.value, ls.startPadding, ls.endPadding)];
    var i := 0;
    while i < |info|
      invariant 0 <= i <= |info|
      invariant |edges| == i + 1 && edges[0] == PaddedInitialEdge(initial.value, ls.startPadding, ls.endPadding)
      invariant forall k :: 0 <= k < i ==> edges[k + 1] == Edge(info[k].source, info[k].destination, PairLabel(info[k].entries, ls))
    {
      edges := edges + [Edge(info[i].source, info[i].destination, PairLabel(info[i].entries, ls))];
      i := i + 1;
    }
    assert edges == [edges[0]] + GroupedEdges(info, PairLabels(info, ls));
    return Ok(Graph(nodes, edges));
  }

  /** A well-grouped result with an initial edge gives a graph whose only edge leaving the start node comes first. */
  lemma GraphOfInfo(nodes: seq<Node>, g: EdgeInfoResult, start: string, ls: LabelSettings)
    requires WellGrouped(g.info, start) && g.initial.Some? && g.initial.value.source == start
    ensures NewGraph(nodes, g.info, g.initial, ls).Ok?
    ensures var graph := NewGraph(nodes, g.info, g.initial, ls).value;
      CountFrom(graph.edges, start) == 1 && graph.edges[0].source == start &&
      |graph.edges| == |g.info| + 1 &&
      forall k :: 0 <= k < |g.info| ==>
        graph.edges[k + 1] == Edge(g.info[k].source, g.info[k].destination, PairLabel(g.info[k].entries, ls))
  {
    var first := PaddedInitialEdge(g.initial.value, ls.startPadding, ls.endPadding);
    InitialEdgeOnce(first, g.info, PairLabels(g.info, ls), start);
  }

  /**
   * The whole pipeline: when an edge leaves the start node, the new graph has
   * the relabelled initial edge first and as the only edge leaving the start
   * node, then one edge per group carrying the pair's merged label.
   */
  lemma NewGraphEdges(edges: seq<Edge>, start: string, initialLabel: string, table: Replacements, nodes: seq<Node>, ls: LabelSettings)
    requires EdgeInfoOf(edges, start, initialLabel, table).Ok?
    requires exists k :: 0 <= k < |edges| && edges[k].source == start
    ensures var g := EdgeInfoOf(edges, start, initialLabel, table).value;
      NewGraph(nodes, g.info, g.initial, ls).Ok? &&
      var graph := NewGraph(nodes, g.info, g.initial, ls).value;
      CountFrom(graph.edges, start) == 1 && graph.edges[0].source == start &&
      |graph.edges| == |g.info| + 1 &&
      forall k :: 0 <= k < |g.info| ==>
        graph.edges[k + 1] == Edge(g.info[k].source, g.info[k].destination, PairLabel(g.info[k].entries, ls))
  {
    var g := EdgeInfoOf(edges, start, initialLabel, table).value;
    EdgeInfoSpec(edges, start, initialLabel, table, "", "", "");
    GraphOfInfo(nodes, g, start, ls);
  }
}
