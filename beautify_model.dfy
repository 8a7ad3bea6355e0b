/**
 * The learned-model beautifier (`scripts/beautify_model.py`): it reads the
 * remove pattern and the replacement table, drops the falsely parsed nodes,
 * groups the Mealy edges of each (source, destination) pair by output, and
 * builds a new graph whose edges carry the stacked or merged labels; the DOT
 * text is then reformatted so the hidden start node's lines come last.
 */
module BeautifyModel {
  import opened Types
  import opened Strings
  import opened DotGraph

  // ---------------------------------------------------------------------
  // Remove pattern: "i_<input>,o_<output>,l_<input>/<output>,..."
  // ---------------------------------------------------------------------

  /** The inputs, outputs and whole labels whose edges are to be removed. */
  datatype RemoveSets = RemoveSets(inputs: set<string>, outputs: set<string>, labels: set<string>)

  const NoRemovals := RemoveSets({}, {}, {})

  /**
   * One (already stripped) token of the pattern: its tag and what it names.
   * An empty token or a lone tag fails on indexing; an unknown tag or a
   * missing `_` is rejected; an `l_` token must hold exactly one `/`.
   */
  function RemoveToken(p: string): (r: Result<(char, string), Exception>)
    ensures r.Ok? ==> |p| >= 2 && p[0] in {'i', 'o', 'l'} && p[1] == '_' && r.value.0 == p[0]
    ensures r.Ok? && p[0] != 'l' ==> r.value.1 == p[2..]
    ensures r.Ok? && p[0] == 'l' ==> |Split(p[2..], "/")| == 2
    ensures |p| >= 2 && p[0] in {'i', 'o'} && p[1] == '_' ==> r.Ok?
    ensures |p| == 0 ==> r == Err(IndexOutOfBounds)
  {
    if |p| == 0 then Err(IndexOutOfBounds)
    else if p[0] !in {'i', 'o', 'l'} then Err(Runtime("Invalid remove pattern provided: " + p))
    else if |p| < 2 then Err(IndexOutOfBounds)
    else if p[1] != '_' then Err(Runtime("Invalid remove pattern provided: " + p))
    else if p[0] == 'l' then
      var parts := Split(p[2..], "/");
      if |parts| != 2 then Err(ValueError)
      else Ok(('l', Strip(parts[0], Whitespace) + " / " + Strip(parts[1], Whitespace)))
    else Ok((p[0], p[2..]))
  }

  /** The set a tag fills: inputs for `i`, outputs for `o`, whole labels otherwise. */
  function Listed(rs: RemoveSets, tag: char): set<string>
  {
    if tag == 'i' then rs.inputs else if tag == 'o' then rs.outputs else rs.labels
  }

  function AddRemoval(rs: RemoveSets, tag: char, v: string): (r: RemoveSets)
  {
    if tag == 'i' then rs.(inputs := rs.inputs + {v})
    else if tag == 'o' then rs.(outputs := rs.outputs + {v})
    else rs.(labels := rs.labels + {v})
  }

  /** Each token of a pattern, stripped and read. */
  function ParsedTokens(tokens: seq<string>): (r: seq<Result<(char, string), Exception>>)
    ensures |r| == |tokens|
    ensures forall k :: 0 <= k < |tokens| ==> r[k] == RemoveToken(Strip(tokens[k], Whitespace))
    ensures forall k :: 0 <= k < |tokens| && r[k].Ok? ==> r[k].value.0 in {'i', 'o', 'l'}
  {
    seq(|tokens|, k requires 0 <= k < |tokens| => RemoveToken(Strip(tokens[k], Whitespace)))
  }

  /** The sets after adding the read tokens `parsed[i..]` to `acc`; the first bad token stops the reading. */
  function RemoveWalk(parsed: seq<Result<(char, string), Exception>>, i: nat, acc: RemoveSets): Result<RemoveSets, Exception>
    requires i <= |parsed|
    decreases |parsed| - i
  {
    if i == |parsed| then Ok(acc)
    else match parsed[i]
      case Err(e) => Err(e)
      case Ok(t) => RemoveWalk(parsed, i + 1, AddRemoval(acc, t.0, t.1))
  }

  /** The comma-separated tokens of a pattern, after its surrounding quotes are stripped. */
  function PatternTokens(pattern: string): seq<string>
  {
    Split(Strip(pattern, QuoteChars), ",")
  }

  function RemovePatternOf(pattern: Option<string>): Result<RemoveSets, Exception>
  {
    if pattern == None || pattern == Some("") then Ok(NoRemovals)
    else RemoveWalk(ParsedTokens(PatternTokens(pattern.value)), 0, NoRemovals)
  }

  /** `dict_of_remove_pattern`: the three sets named by the pattern; None or "" names nothing. */
  method DictOfRemovePattern(pattern: Option<string>) returns (r: Result<RemoveSets, Exception>)
    ensures pattern == None || pattern == Some("") ==> r == Ok(NoRemovals)
    ensures r == RemovePatternOf(pattern)
  {
    if pattern == None || pattern.value == "" {
      return Ok(NoRemovals);
    }
    var tokens := Split(Strip(pattern.value, QuoteChars), ",");
    ghost var parsed := ParsedTokens(tokens);
    var rs := NoRemovals;
    var i := 0;
    while i < |tokens|
      invariant 0 <= i <= |tokens|
      invariant RemovePatternOf(pattern) == RemoveWalk(parsed, i, rs)
    {
      var t := RemoveToken(Strip(tokens[i], Whitespace));
      assert t == parsed[i];
      if t.Err? {
        return Err(t.error);
      }
      rs := AddRemoval(rs, t.value.0, t.value.1);
      i := i + 1;
    }
    return Ok(rs);
  }

  /** Reading the pattern succeeds exactly when every token is well-formed. */
  lemma {:induction false} RemoveWalkOk(parsed: seq<Result<(char, string), Exception>>, i: nat, acc: RemoveSets)
    requires i <= |parsed|
    ensures RemoveWalk(parsed, i, acc).Ok? <==> forall j :: i <= j < |parsed| ==> parsed[j].Ok?
    decreases |parsed| - i
  {
    if i < |parsed| && parsed[i].Ok? {
      var t := parsed[i].value;
      RemoveWalkOk(parsed, i + 1, AddRemoval(acc, t.0, t.1));
    }
  }

  /**
   * Each set holds exactly what the tokens with its tag name (on top of what
   * it held before).
   */
  lemma {:induction false} RemoveWalkSets(parsed: seq<Result<(char, string), Exception>>, i: nat, acc: RemoveSets, tag: char, v: string)
    requires i <= |parsed| && RemoveWalk(parsed, i, acc).Ok?
    requires tag in {'i', 'o', 'l'}
    requires forall j :: 0 <= j < |parsed| && parsed[j].Ok? ==> parsed[j].value.0 in {'i', 'o', 'l'}
    ensures v in Listed(RemoveWalk(parsed, i, acc).value, tag) <==>
            v in Listed(acc, tag) || exists j :: i <= j < |parsed| && parsed[j] == Ok((tag, v))
    decreases |parsed| - i
  {
    if i < |parsed| {
      var t := parsed[i].value;
      RemoveWalkSets(parsed, i + 1, AddRemoval(acc, t.0, t.1), tag, v);
      if t == (tag, v) {
        assert parsed[i] == Ok((tag, v));
      }
    }
  }

  /** A list of tokens is read exactly when each of them is well-formed. */
  lemma TokensOk(tokens: seq<string>)
    ensures var parsed := ParsedTokens(tokens);
      RemoveWalk(parsed, 0, NoRemovals).Ok? <==> forall j :: 0 <= j < |parsed| ==> parsed[j].Ok?
  {
    RemoveWalkOk(ParsedTokens(tokens), 0, NoRemovals);
  }

  /** The sets read from a list of tokens hold exactly the payloads of its tokens, tag by tag. */
  lemma TokensSets(tokens: seq<string>, tag: char, v: string)
    requires tag in {'i', 'o', 'l'} && RemoveWalk(ParsedTokens(tokens), 0, NoRemovals).Ok?
    ensures var parsed := ParsedTokens(tokens);
      v in Listed(RemoveWalk(parsed, 0, NoRemovals).value, tag) <==>
      exists j :: 0 <= j < |parsed| && parsed[j] == Ok((tag, v))
  {
    RemoveWalkSets(ParsedTokens(tokens), 0, NoRemovals, tag, v);
  }

  /**
   * A non-empty pattern is read exactly when each of its tokens is
   * well-formed, and its sets then hold exactly the payloads of its tokens,
   * tag by tag.
   */
  lemma RemovePatternSets(pattern: string, tag: char, v: string)
    requires pattern != "" && tag in {'i', 'o', 'l'}
    ensures var parsed := ParsedTokens(PatternTokens(pattern));
      RemovePatternOf(Some(pattern)).Ok? <==> forall j :: 0 <= j < |parsed| ==> parsed[j].Ok?
    ensures var parsed := ParsedTokens(PatternTokens(pattern));
      RemovePatternOf(Some(pattern)).Ok? ==>
      (v in Listed(RemovePatternOf(Some(pattern)).value, tag) <==>
       exists j :: 0 <= j < |parsed| && parsed[j] == Ok((tag, v)))
  {
    var tokens := PatternTokens(pattern);
    TokensOk(tokens);
    if RemovePatternOf(Some(pattern)).Ok? {
      TokensSets(tokens, tag, v);
    }
  }

  // ---------------------------------------------------------------------
  // Labels
  // ---------------------------------------------------------------------

  /**
   * `should_remove_label`: the stripped label must split into input and
   * output; it is removed when the input or the output is listed, or when the
   * label as given (not stripped) is listed whole.
   */
  function ShouldRemoveLabel(text: string, rs: RemoveSets): (r: Result<bool, Exception>)
    ensures |Split(Strip(text, QuoteChars), " / ")| != 2 <==> r == Err(ValueError)
    ensures text in rs.labels && r.Ok? ==> r.value
  {
    var parts := Split(Strip(text, QuoteChars), " / ");
    if |parts| != 2 then Err(ValueError)
    else Ok(parts[0] in rs.inputs || parts[1] in rs.outputs || text in rs.labels)
  }

  /** A quoted label `"i / o"` is removed exactly when its input, its output or the label itself is listed. */
  lemma ShouldRemoveQuoted(i: string, o: string, rs: RemoveSets)
    requires PlainName(i) && PlainName(o)
    ensures ShouldRemoveLabel(QuotedLabel(i, o), rs) ==
            Ok(i in rs.inputs || o in rs.outputs || QuotedLabel(i, o) in rs.labels)
  {
    QuotedLabelParts(i, o, QuoteChars);
  }

  /**
   * `replace_label`: a label without ` / ` (or empty) is kept as it is;
   * otherwise its stripped input and output are each looked up in the table.
   */
  function ReplaceLabel(text: string, table: Replacements): (r: Result<string, Exception>)
    ensures text == "" || !Contains(text, " / ") ==> r == Ok(text)
    ensures r.Err? ==> r == Err(ValueError)
  {
    if text == "" || !Contains(text, " / ") then Ok(text)
    else
      var parts := Split(Strip(text, QuoteChars), " / ");
      if |parts| != 2 then Err(ValueError)
      else Ok(Replace(table, parts[0]) + " / " + Replace(table, parts[1]))
  }

  /** A quoted label `"i / o"` is rewritten part by part, and an empty table leaves its parts alone. */
  lemma ReplaceQuoted(i: string, o: string, table: Replacements)
    requires PlainName(i) && PlainName(o)
    ensures ReplaceLabel(QuotedLabel(i, o), table) == Ok(Replace(table, i) + " / " + Replace(table, o))
    ensures table == map[] ==> ReplaceLabel(QuotedLabel(i, o), table) == Ok(i + " / " + o)
  {
    QuotedLabelParts(i, o, QuoteChars);
    var q := QuotedLabel(i, o);
    assert OccursAt(q, " / ", 1 + |i|) by {
      assert q[1 + |i|..1 + |i| + 3] == " / ";
    }
    assert q != "" && Contains(q, " / ");
    assert Split(Strip(q, QuoteChars), " / ") == [i, o];
    assert ReplaceLabel(q, table) == Ok(Replace(table, i) + " / " + Replace(table, o));
  }

  // ---------------------------------------------------------------------
  // Nodes
  // ---------------------------------------------------------------------

  /** A state's label without quotes and without its leading `s` characters, quoted again. */
  function ShortLabel(text: string): (r: string)
    ensures |r| >= 2 && r[0] == '"' && r[|r| - 1] == '"'
    ensures |r| - 2 <= |text|
  {
    "\"" + LStrip(Strip(text, QuoteChars), {'s'}) + "\""
  }

  /** A node the learner writes for a state (`s0`, `s1`, ...). */
  /** A node that survives cleaning: a state, or the hidden start node. */
  predicate Kept(nd: Node, start: string)
  {
    IsState(nd) || nd.name == start
  }

  /** A kept node as the new graph carries it: a state's label is shortened on request. */
  function Cleaned(nd: Node, shorten: bool): (r: Node)
    ensures r.name == nd.name
  {
    if IsState(nd) && shorten then nd.(text := ShortLabel(nd.text)) else nd
  }

  /** The nodes of `nodes[i..]` that survive, cleaned, in order. */
  function KeptNodes(nodes: seq<Node>, shorten: bool, start: string, i: nat): seq<Node>
    requires i <= |nodes|
    decreases |nodes| - i
  {
    if i == |nodes| then []
    else (if Kept(nodes[i], start) then [Cleaned(nodes[i], shorten)] else []) + KeptNodes(nodes, shorten, start, i + 1)
  }

  /** The node loop of `get_info_from_graph`: states are kept (shortened on request), the start node is kept, others are deleted. */
  method CleanNodes(nodes: seq<Node>, shorten: bool, start: string) returns (r: seq<Node>)
    ensures r == KeptNodes(nodes, shorten, start, 0)
  {
    r := [];
    var i := 0;
    while i < |nodes|
      invariant 0 <= i <= |nodes|
      invariant KeptNodes(nodes, shorten, start, 0) == r + KeptNodes(nodes, shorten, start, i)
    {
      r := CleanNode(nodes, shorten, start, i, r);
      i := i + 1;
    }
  }

  /** One pass of the node loop: node `i` is kept, cleaned, or deleted. */
  method CleanNode(nodes: seq<Node>, shorten: bool, start: string, i: nat, r: seq<Node>) returns (r': seq<Node>)
    requires i < |nodes|
    ensures r + KeptNodes(nodes, shorten, start, i) == r' + KeptNodes(nodes, shorten, start, i + 1)
  {
    ghost var rest := KeptNodes(nodes, shorten, start, i + 1);
    r' := r;
    if Kept(nodes[i], start) {
      var c := Cleaned(nodes[i], shorten);
      r' := r' + [c];
      assert KeptNodes(nodes, shorten, start, i) == [c] + rest;
      Regroup(r, [c], rest);
    } else {
      assert KeptNodes(nodes, shorten, start, i) == rest;
    }
  }

  /** The surviving nodes are exactly the cleaned states and start nodes. */
  lemma {:induction false} KeptNodesSpec(nodes: seq<Node>, shorten: bool, start: string, i: nat, nd: Node)
    requires i <= |nodes|
    ensures nd in KeptNodes(nodes, shorten, start, i) <==>
            exists k :: i <= k < |nodes| && Kept(nodes[k], start) && nd == Cleaned(nodes[k], shorten)
    decreases |nodes| - i
  {
    if i < |nodes| {
      KeptNodesSpec(nodes, shorten, start, i + 1, nd);
      var rest := KeptNodes(nodes, shorten, start, i + 1);
      if Kept(nodes[i], start) {
        var c := Cleaned(nodes[i], shorten);
        assert KeptNodes(nodes, shorten, start, i) == [c] + rest;
        assert nd in [c] + rest <==> nd == c || nd in rest;
      } else {
        assert KeptNodes(nodes, shorten, start, i) == rest;
      }
    }
  }

  // ---------------------------------------------------------------------
  // Edges
  // ---------------------------------------------------------------------

  /** The command-line choices that drive the edge loop. */
  datatype EdgeSettings = EdgeSettings(start: string, initialLabel: Option<string>, remove: RemoveSets, table: Replacements)

  /** The initial edge as stored: its label is replaced by the (replaced) override when one is given. */
  function InitialEdge(e: Edge, st: EdgeSettings): (r: Result<Edge, Exception>)
    ensures st.initialLabel == None || st.initialLabel == Some("") ==> r == Ok(e)
    ensures r.Ok? ==> r.value.source == e.source && r.value.destination == e.destination
  {
    if st.initialLabel == None || st.initialLabel.value == "" then Ok(e)
    else match ReplaceLabel(st.initialLabel.value, st.table)
      case Err(x) => Err(x)
      case Ok(l) => Ok(e.(text := l))
  }

  function ClassifyEdge(e: Edge, st: EdgeSettings): (r: Result<EdgeRole, Exception>)
    ensures e.source == st.start ==> r == (match InitialEdge(e, st) case Ok(e') => Ok(Initial(e')) case Err(x) => Err(x))
    ensures e.source != st.start && r.Ok? ==> !r.value.Initial?
    ensures r.Ok? && r.value.Grouped? ==> ReplaceLabel(e.text, st.table) == Ok(r.value.input + " / " + r.value.output)
  {
    if e.source == st.start then
      match InitialEdge(e, st)
      case Ok(e') => Ok(Initial(e'))
      case Err(x) => Err(x)
    else match ShouldRemoveLabel(e.text, st.remove)
      case Err(x) => Err(x)
      case Ok(true) => Ok(Removed)
      case Ok(false) =>
        match ReplaceLabel(e.text, st.table)
        case Err(x) => Err(x)
        case Ok(l) =>
          var parts := Split(l, " / ");
          if |parts| != 2 then Err(ValueError)
          else
            JoinSplit(l, " / ");
            assert Join(parts, " / ") == parts[0] + " / " + parts[1];
            Ok(Grouped(parts[0], parts[1]))
  }

  /** The role of every edge. */
  function RolesOf(edges: seq<Edge>, st: EdgeSettings): (r: Roles)
    ensures |r| == |edges|
    ensures forall k :: 0 <= k < |edges| ==> r[k] == ClassifyEdge(edges[k], st)
    ensures forall k :: 0 <= k < |edges| && r[k].Ok? && !r[k].value.Initial? ==> edges[k].source != st.start
    ensures forall k :: 0 <= k < |edges| && r[k].Ok? && r[k].value.Initial? ==> edges[k].source == st.start
  {
    seq(|edges|, k requires 0 <= k < |edges| => ClassifyEdge(edges[k], st))
  }

  /** The result of the edge loop of `get_info_from_graph`. */
  function EdgeInfoOf(edges: seq<Edge>, st: EdgeSettings): Result<EdgeInfoResult, Exception>
  {
    EdgeWalk(edges, RolesOf(edges, st), 0, EdgeInfoResult([], None))
  }

  /** The edge loop of `get_info_from_graph`. */
  method GroupEdges(edges: seq<Edge>, st: EdgeSettings) returns (r: Result<EdgeInfoResult, Exception>)
    ensures r == EdgeInfoOf(edges, st)
  {
    ghost var roles := RolesOf(edges, st);
    var acc := EdgeInfoResult([], None);
    var i := 0;
    while i < |edges|
      invariant 0 <= i <= |edges|
      invariant EdgeInfoOf(edges, st) == EdgeWalk(edges, roles, i, acc)
    {
      var role := ClassifyEdge(edges[i], st);
      assert role == roles[i];
      if role.Err? {
        return Err(role.error);
      }
      acc := Step(acc, edges[i], role.value);
      i := i + 1;
    }
    return Ok(acc);
  }

  /**
   * The grouping is faithful: under each (source, destination, output) it
   * lists, in edge order, the replaced inputs of exactly the kept edges with
   * those endpoints and that output; no group starts at the hidden start node.
   */
  lemma EdgeInfoGroups(edges: seq<Edge>, st: EdgeSettings, s: string, d: string, o: string)
    requires EdgeInfoOf(edges, st).Ok?
    ensures InputsOf(EdgeInfoOf(edges, st).value.info, s, d, o) == GroupedInputs(edges, RolesOf(edges, st), 0, s, d, o)
    ensures WellGrouped(EdgeInfoOf(edges, st).value.info, st.start)
  {
    EdgeWalkGroups(edges, RolesOf(edges, st), st.start, 0, EdgeInfoResult([], None), s, d, o);
  }

  /**
   * The stored initial edge is the last edge leaving the start node (with its
   * label overridden on request); when no edge leaves it, none is stored.
   */
  lemma EdgeInfoInitial(edges: seq<Edge>, st: EdgeSettings)
    requires EdgeInfoOf(edges, st).Ok?
    ensures var init := EdgeInfoOf(edges, st).value.initial;
      (init == None && forall k :: 0 <= k < |edges| ==> edges[k].source != st.start) ||
      (exists k :: 0 <= k < |edges| && edges[k].source == st.start && init.Some? && InitialEdge(edges[k], st) == Ok(init.value) &&
         forall k' :: k < k' < |edges| ==> edges[k'].source != st.start)
  {
    var roles := RolesOf(edges, st);
    EdgeWalkInitial(edges, roles, 0, EdgeInfoResult([], None));
    EdgeWalkOk(edges, roles, 0, EdgeInfoResult([], None));
  }

  // ---------------------------------------------------------------------
  // The new graph
  // ---------------------------------------------------------------------

  /** The label options: how same edges are combined, the separators and the paddings. */
  datatype LabelSettings = LabelSettings(
    sameEdgesOp: string, stackSep: string, mergeInputSep: string, mergeLabelSep: string,
    startPadding: string, endPadding: string)

  /** One `input / output` label per recorded input, output by output. */
  function StackLabels(entries: seq<Entry>): (r: seq<string>)
    ensures |r| == TotalInputs(entries)
  {
    if |entries| == 0 then []
    else
      seq(|entries[0].inputs|, k requires 0 <= k < |entries[0].inputs| => entries[0].inputs[k] + " / " + entries[0].output)
        + StackLabels(entries[1..])
  }

  /** The stacked labels are exactly the `input / output` pairs recorded. */
  lemma {:induction false} StackLabelsSpec(entries: seq<Entry>, x: string)
    ensures x in StackLabels(entries) <==>
            exists j, k :: 0 <= j < |entries| && 0 <= k < |entries[j].inputs| && x == entries[j].inputs[k] + " / " + entries[j].output
  {
    if |entries| > 0 {
      StackLabelsSpec(entries[1..], x);
      var head := seq(|entries[0].inputs|, k requires 0 <= k < |entries[0].inputs| => entries[0].inputs[k] + " / " + entries[0].output);
      if x in StackLabels(entries[1..]) {
        var j, k :| 0 <= j < |entries[1..]| && 0 <= k < |entries[1..][j].inputs| && x == entries[1..][j].inputs[k] + " / " + entries[1..][j].output;
        assert entries[1..][j] == entries[j + 1];
      }
      if exists j, k :: 0 <= j < |entries| && 0 <= k < |entries[j].inputs| && x == entries[j].inputs[k] + " / " + entries[j].output {
        var j, k :| 0 <= j < |entries| && 0 <= k < |entries[j].inputs| && x == entries[j].inputs[k] + " / " + entries[j].output;
        if j == 0 {
          assert x == head[k];
        } else {
          assert entries[1..][j - 1] == entries[j];
        }
      }
    }
  }

  /** The label of the new edge of one pair, before padding (`stack_op` or `merge_op`). */
  function CombinedLabel(entries: seq<Entry>, ls: LabelSettings): (r: Result<string, Exception>)
    ensures ls.sameEdgesOp == "stack" ==> r == Ok(Join(SortByLength(StackLabels(entries)), ls.stackSep))
    ensures ls.sameEdgesOp == "merge" ==> r == Ok(Join(SortByLength(MergeLabels(entries, ls.mergeInputSep)), ls.mergeLabelSep))
    ensures r.Err? <==> ls.sameEdgesOp !in {"stack", "merge"}
  {
    if ls.sameEdgesOp == "stack" then Ok(Join(SortByLength(StackLabels(entries)), ls.stackSep))
    else if ls.sameEdgesOp == "merge" then Ok(Join(SortByLength(MergeLabels(entries, ls.mergeInputSep)), ls.mergeLabelSep))
    else Err(Runtime("Unsupported same_edges_op in label_info_dct: " + ls.sameEdgesOp))
  }

  /** The padded labels of the groups `info[i..]`, appended to `acc`. */
  function LabelWalk(info: EdgeInfo, ls: LabelSettings, i: nat, acc: seq<string>): (r: Result<seq<string>, Exception>)
    requires i <= |info|
    ensures r.Ok? ==> |r.value| == |acc| + |info| - i
    decreases |info| - i
  {
    if i == |info| then Ok(acc)
    else match CombinedLabel(info[i].entries, ls)
      case Err(x) => Err(x)
      case Ok(l) => LabelWalk(info, ls, i + 1, acc + [Pad(l, ls.startPadding, ls.endPadding)])
  }

  /** The new graph: the nodes, the padded initial edge, then one edge per group. */
  function NewGraph(nodes: seq<Node>, info: EdgeInfo, initial: Option<Edge>, ls: LabelSettings): Result<Graph, Exception>
  {
    if initial == None then Err(AttributeError)
    else match LabelWalk(info, ls, 0, [])
      case Err(x) => Err(x)
      case Ok(labels) =>
        Ok(Graph(nodes, [PaddedInitialEdge(initial.value, ls.startPadding, ls.endPadding)] + GroupedEdges(info, labels)))
  }

  /** `create_new_graph`. */
  method CreateNewGraph(nodes: seq<Node>, info: EdgeInfo, initial: Option<Edge>, ls: LabelSettings)
    returns (r: Result<Graph, Exception>)
    ensures r == NewGraph(nodes, info, initial, ls)
  {
    if initial == None {
      return Err(AttributeError);
    }
    var labels: seq<string> := [];
    var i := 0;
    while i < |info|
      invariant 0 <= i <= |info|
      invariant LabelWalk(info, ls, 0, []) == LabelWalk(info, ls, i, labels)
    {
      var l := CombinedLabel(info[i].entries, ls);
      if l.Err? {
        return Err(l.error);
      }
      labels := labels + [Pad(l.value, ls.startPadding, ls.endPadding)];
      i := i + 1;
    }
    var first := PaddedInitialEdge(initial.value, ls.startPadding, ls.endPadding);
    return Ok(Graph(nodes, [first] + GroupedEdges(info, labels)));
  }

  /** The padded labels follow the groups one to one. */
  lemma {:induction false} LabelWalkSpec(info: EdgeInfo, ls: LabelSettings, i: nat, acc: seq<string>)
    requires i <= |info| && LabelWalk(info, ls, i, acc).Ok?
    ensures var r := LabelWalk(info, ls, i, acc).value;
      r[..|acc|] == acc &&
      forall k :: i <= k < |info| ==>
        CombinedLabel(info[k].entries, ls).Ok? &&
        r[|acc| + k - i] == Pad(CombinedLabel(info[k].entries, ls).value, ls.startPadding, ls.endPadding)
    decreases |info| - i
  {
    if i < |info| {
      var c := CombinedLabel(info[i].entries, ls);
      var acc' := acc + [Pad(c.value, ls.startPadding, ls.endPadding)];
      assert LabelWalk(info, ls, i, acc) == LabelWalk(info, ls, i + 1, acc');
      LabelWalkSpec(info, ls, i + 1, acc');
      var r := LabelWalk(info, ls, i, acc).value;
      assert r[..|acc'|] == acc';
      assert r[..|acc'|][..|acc|] == r[..|acc|];
      forall k | i <= k < |info|
        ensures CombinedLabel(info[k].entries, ls).Ok?
        ensures r[|acc| + k - i] == Pad(CombinedLabel(info[k].entries, ls).value, ls.startPadding, ls.endPadding)
      {
        if k == i {
          assert r[|acc|] == acc'[|acc|];
        } else {
          assert |acc| + k - i == |acc'| + k - (i + 1);
        }
      }
    }
  }

  /**
   * The whole pipeline: the new graph keeps one edge leaving the hidden start
   * node (the initial edge, first), and every other edge is one group of the
   * edge loop, labelled with its padded combined label.
   */
  lemma NewGraphEdges(edges: seq<Edge>, st: EdgeSettings, nodes: seq<Node>, ls: LabelSettings)
    requires EdgeInfoOf(edges, st).Ok?
    requires var g := EdgeInfoOf(edges, st).value; NewGraph(nodes, g.info, g.initial, ls).Ok?
    ensures var g := EdgeInfoOf(edges, st).value;
      var graph := NewGraph(nodes, g.info, g.initial, ls).value;
      CountFrom(graph.edges, st.start) == 1 && graph.edges[0].source == st.start &&
      |graph.edges| == |g.info| + 1 &&
      forall k :: 0 <= k < |g.info| ==>
        graph.edges[k + 1].source == g.info[k].source && graph.edges[k + 1].destination == g.info[k].destination &&
        graph.edges[k + 1].text == Pad(CombinedLabel(g.info[k].entries, ls).value, ls.startPadding, ls.endPadding)
  {
    var g := EdgeInfoOf(edges, st).value;
    EdgeInfoGroups(edges, st, "", "", "");
    EdgeInfoInitial(edges, st);
    LabelWalkSpec(g.info, ls, 0, []);
    var labels := LabelWalk(g.info, ls, 0, []).value;
    var first := PaddedInitialEdge(g.initial.value, ls.startPadding, ls.endPadding);
    InitialEdgeOnce(first, g.info, labels, st.start);
  }

  // ---------------------------------------------------------------------
  // DOT text layout
  // ---------------------------------------------------------------------

  const Header := "digraph g {"

  /** Every line with its surrounding whitespace stripped. */
  function StrippedLines(lines: seq<string>): (r: seq<string>)
    ensures |r| == |lines|
    ensures forall k :: 0 <= k < |lines| ==> r[k] == Strip(lines[k], Whitespace)
  {
    seq(|lines|, k requires 0 <= k < |lines| => Strip(lines[k], Whitespace))
  }

  /** The written text after the stripped lines `ls`, from the text `out` and the held-back lines `buf`. */
  function FormatWalk(ls: seq<string>, start: string, out: string, buf: string): string
    decreases |ls|
  {
    if |ls| == 0 then out
    else
      var l := ls[0];
      if l == Header then FormatWalk(ls[1..], start, out + l + "\n\n", buf)
      else if StartsWith(l, start) then FormatWalk(ls[1..], start, out, buf + l + "\n")
      else if l == "}" then FormatWalk(ls[1..], start, out + "\n" + buf + "\n}\n", buf)
      else if l != "" then FormatWalk(ls[1..], start, out + "\t" + l + "\n", buf)
      else FormatWalk(ls[1..], start, out, buf)
  }

  /**
   * `format_and_write_dot_string` on the lines of the DOT text: the header is
   * followed by a blank line, other lines are indented, the start node's lines
   * are held back and written before the closing brace.
   */
  method FormatDotString(lines: seq<string>, start: string) returns (out: string)
    ensures out == FormatWalk(StrippedLines(lines), start, "", "")
  {
    ghost var ls := StrippedLines(lines);
    out := "";
    var buf := "";
    var i := 0;
    while i < |lines|
      invariant 0 <= i <= |lines|
      invariant FormatWalk(ls, start, "", "") == FormatWalk(ls[i..], start, out, buf)
    {
      assert ls[i..][1..] == ls[i + 1..];
      var l := Strip(lines[i], Whitespace);
      assert ls[i..][0] == l;
      if l == Header {
        out := out + l + "\n\n";
      } else if StartsWith(l, start) {
        buf := buf + l + "\n";
      } else if l == "}" {
        out := out + "\n" + buf + "\n}\n";
      } else if l != "" {
        out := out + "\t" + l + "\n";
      }
      i := i + 1;
    }
    assert ls[|lines|..] == [];
  }

  /** The indented stripped body lines that are not the start node's. */
  function Indented(body: seq<string>, start: string): string
  {
    if |body| == 0 then ""
    else (if !StartsWith(body[0], start) && body[0] != "" then "\t" + body[0] + "\n" else "") + Indented(body[1..], start)
  }

  /** The start node's stripped lines, in order. */
  function StartLines(body: seq<string>, start: string): string
  {
    if |body| == 0 then ""
    else (if StartsWith(body[0], start) then body[0] + "\n" else "") + StartLines(body[1..], start)
  }

  lemma {:induction false} FormatBody(body: seq<string>, rest: seq<string>, start: string, out: string, buf: string)
    requires forall k :: 0 <= k < |body| ==> body[k] != Header && body[k] != "}"
    ensures FormatWalk(body + rest, start, out, buf) ==
            FormatWalk(rest, start, out + Indented(body, start), buf + StartLines(body, start))
    decreases |body|
  {
    if |body| > 0 {
      assert (body + rest)[1..] == body[1..] + rest;
      assert (body + rest)[0] == body[0];
      var l := body[0];
      if StartsWith(l, start) {
        FormatBody(body[1..], rest, start, out, buf + l + "\n");
        assert buf + l + "\n" + StartLines(body[1..], start) == buf + StartLines(body, start);
        assert Indented(body, start) == Indented(body[1..], start);
      } else if l != "" {
        FormatBody(body[1..], rest, start, out + "\t" + l + "\n", buf);
        assert out + "\t" + l + "\n" + Indented(body[1..], start) == out + Indented(body, start);
        assert StartLines(body, start) == StartLines(body[1..], start);
      } else {
        FormatBody(body[1..], rest, start, out, buf);
        assert Indented(body, start) == Indented(body[1..], start);
        assert StartLines(body, start) == StartLines(body[1..], start);
      }
    } else {
      assert body + rest == rest;
      assert out + Indented(body, start) == out && buf + StartLines(body, start) == buf;
    }
  }

  /**
   * A well-formed DOT text (header, body, closing brace) comes out as the
   * header and a blank line, the indented body, a blank line, the start
   * node's lines, and the closing brace.
   */
  lemma FormatWellFormed(body: seq<string>, start: string)
    requires forall k :: 0 <= k < |body| ==> body[k] != Header && body[k] != "}"
    requires start != "" && start != "}"
    ensures FormatWalk([Header] + body + ["}"], start, "", "") ==
            Header + "\n\n" + Indented(body, start) + "\n" + StartLines(body, start) + "\n}\n"
  {
    var ls := [Header] + body + ["}"];
    assert ls[1..] == body + ["}"];
    assert ls[0] == Header;
    assert "" + Header + "\n\n" == Header + "\n\n";
    assert FormatWalk(ls, start, "", "") == FormatWalk(body + ["}"], start, Header + "\n\n", "");
    FormatBody(body, ["}"], start, Header + "\n\n", "");
    assert ["}"][1..] == [];
  }
}
