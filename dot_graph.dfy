/**
 * What the two DOT beautifier scripts share: nodes and edges as the DOT
 * parser reports them, the replacement table read from a file, the grouping
 * of Mealy `input / output` labels per (source, destination) pair in
 * first-seen order, and Python's stable `sorted(key=len)`.
 */
module DotGraph {
  import opened Types
  import opened Strings

  /** A node: its identifier and its label text (an absent label is ""). */
  datatype Node = Node(name: string, text: string)

  /** A state of the learned model: its name starts with "s". */
  predicate IsState(nd: Node)
  {
    StartsWith(nd.name, "s")
  }

  /** An edge: its endpoints and its label text (an absent label is ""). */
  datatype Edge = Edge(source: string, destination: string, text: string)

  /** A graph as the scripts build it: nodes, then the initial edge, then one edge per pair. */
  datatype Graph = Graph(nodes: seq<Node>, edges: seq<Edge>)

  /** The characters `strip('\' "')` removes. */
  const QuoteChars: set<char> := {'\'', ' ', '"'}

  // ---------------------------------------------------------------------
  // Replacement file: lines `old <sep> new`
  // ---------------------------------------------------------------------

  type Replacements = map<string, string>

  /** The stripped `(old, new)` pair of one line; a line that does not split in two ends the script. */
  function ReplacementLine(line: string, sep: string): (r: Result<(string, string), Exception>)
    ensures sep == "" ==> r == Err(ValueError)
    ensures sep != "" ==> (r.Ok? <==> |Split(line, sep)| == 2)
    ensures sep != "" && r.Err? ==> r == Err(SystemExit)
  {
    if sep == "" then Err(ValueError)
    else
      var pair := Split(line, sep);
      if |pair| != 2 then Err(SystemExit)
      else Ok((Strip(pair[0], Whitespace), Strip(pair[1], Whitespace)))
  }

  /** The table after reading `lines[i..]` into `acc`, one line at a time. */
  function ReplacementWalk(lines: seq<string>, sep: string, i: nat, acc: Replacements): Result<Replacements, Exception>
    requires i <= |lines|
    decreases |lines| - i
  {
    if i == |lines| then Ok(acc)
    else match ReplacementLine(lines[i], sep)
      case Err(e) => Err(e)
      case Ok(p) => ReplacementWalk(lines, sep, i + 1, acc[p.0 := p.1])
  }

  function ReplacementsOf(lines: seq<string>, sep: string): Result<Replacements, Exception>
  {
    ReplacementWalk(lines, sep, 0, map[])
  }

  /**
   * `read_replacement_file`: no file name (None or "") gives the empty table;
   * otherwise every line of the file (given here as `lines`) is read in turn.
   */
  method ReadReplacementFile(filename: Option<string>, lines: seq<string>, sep: string)
    returns (r: Result<Replacements, Exception>)
    ensures filename == None || filename == Some("") ==> r == Ok(map[])
    ensures filename != None && filename != Some("") ==> r == ReplacementsOf(lines, sep)
  {
    if filename == None || filename.value == "" {
      return Ok(map[]);
    }
    var table: Replacements := map[];
    var i := 0;
    while i < |lines|
      invariant 0 <= i <= |lines|
      invariant ReplacementsOf(lines, sep) == ReplacementWalk(lines, sep, i, table)
    {
      var pair := ReplacementLine(lines[i], sep);
      if pair.Err? {
        return Err(pair.error);
      }
      table := table[pair.value.0 := pair.value.1];
      i := i + 1;
    }
    return Ok(table);
  }

  /** Reading fails exactly when some line is malformed. */
  lemma {:induction false} ReplacementWalkFails(lines: seq<string>, sep: string, i: nat, acc: Replacements)
    requires i <= |lines|
    ensures ReplacementWalk(lines, sep, i, acc).Err? <==>
            exists j :: i <= j < |lines| && ReplacementLine(lines[j], sep).Err?
    decreases |lines| - i
  {
    if i < |lines| {
      var line := ReplacementLine(lines[i], sep);
      if line.Err? {
        assert i <= i < |lines| && ReplacementLine(lines[i], sep).Err?;
      } else {
        var p := line.value;
        assert ReplacementWalk(lines, sep, i, acc) == ReplacementWalk(lines, sep, i + 1, acc[p.0 := p.1]);
        ReplacementWalkFails(lines, sep, i + 1, acc[p.0 := p.1]);
        if j :| i <= j < |lines| && ReplacementLine(lines[j], sep).Err? {
          assert i + 1 <= j;
        }
      }
    }
  }

  /** A key that no line from `i` on mentions keeps its value (or its absence). */
  lemma {:induction false} ReplacementWalkKeeps(lines: seq<string>, sep: string, i: nat, acc: Replacements, k: string)
    requires i <= |lines| && ReplacementWalk(lines, sep, i, acc).Ok?
    requires forall j :: i <= j < |lines| && ReplacementLine(lines[j], sep).Ok? ==> ReplacementLine(lines[j], sep).value.0 != k
    ensures k in ReplacementWalk(lines, sep, i, acc).value <==> k in acc
    ensures k in acc ==> ReplacementWalk(lines, sep, i, acc).value[k] == acc[k]
    decreases |lines| - i
  {
    if i < |lines| {
      var p := ReplacementLine(lines[i], sep).value;
      ReplacementWalkKeeps(lines, sep, i + 1, acc[p.0 := p.1], k);
    }
  }

  /** The last line that names a key decides its replacement (later lines overwrite earlier ones). */
  lemma {:induction false} ReplacementWalkLastWins(lines: seq<string>, sep: string, i: nat, acc: Replacements, j: nat)
    requires i <= j < |lines| && ReplacementWalk(lines, sep, i, acc).Ok?
    requires ReplacementLine(lines[j], sep).Ok?
    requires forall j' :: j < j' < |lines| && ReplacementLine(lines[j'], sep).Ok? ==>
               ReplacementLine(lines[j'], sep).value.0 != ReplacementLine(lines[j], sep).value.0
    ensures ReplacementLine(lines[j], sep).value.0 in ReplacementWalk(lines, sep, i, acc).value
    ensures ReplacementWalk(lines, sep, i, acc).value[ReplacementLine(lines[j], sep).value.0]
            == ReplacementLine(lines[j], sep).value.1
    decreases j - i
  {
    var p := ReplacementLine(lines[i], sep).value;
    if i == j {
      ReplacementWalkKeeps(lines, sep, i + 1, acc[p.0 := p.1], p.0);
    } else {
      ReplacementWalkLastWins(lines, sep, i + 1, acc[p.0 := p.1], j);
    }
  }

  /** Every key of the table comes from some line. */
  lemma {:induction false} ReplacementWalkKeys(lines: seq<string>, sep: string, i: nat, acc: Replacements, k: string)
    requires i <= |lines| && ReplacementWalk(lines, sep, i, acc).Ok?
    requires k in ReplacementWalk(lines, sep, i, acc).value
    ensures k in acc || exists j, v :: i <= j < |lines| && ReplacementLine(lines[j], sep) == Ok((k, v))
    decreases |lines| - i
  {
    if i < |lines| {
      var p := ReplacementLine(lines[i], sep).value;
      ReplacementWalkKeys(lines, sep, i + 1, acc[p.0 := p.1], k);
      if k !in acc && k == p.0 {
        assert ReplacementLine(lines[i], sep) == Ok((k, p.1));
      }
    }
  }

  /** The name a replacement table gives a label part: its entry if it has one, else the part itself. */
  function Replace(table: Replacements, name: string): (r: string)
    ensures name in table ==> r == table[name]
    ensures name !in table ==> r == name
  {
    if name in table then table[name] else name
  }

  /**
   * A part of a Mealy label that the scripts' parsing keeps intact: non-empty,
   * no ` / ` inside, and neither starting nor ending with a quote, a space or
   * a slash.
   */
  predicate PlainName(x: string)
  {
    |x| > 0 && !Contains(x, " / ") &&
    x[0] !in QuoteChars && x[0] != '/' && x[|x| - 1] !in QuoteChars && x[|x| - 1] != '/'
  }

  /** A Mealy edge label `"<input> / <output>"` as the learned model carries it. */
  function QuotedLabel(i: string, o: string): string
  {
    "\"" + i + " / " + o + "\""
  }

  /** Stripping the quotes off a label and splitting it at ` / ` gives back its two parts. */
  lemma QuotedLabelParts(i: string, o: string, chars: set<char>)
    requires PlainName(i) && PlainName(o) && '"' in chars && chars <= QuoteChars
    ensures Strip(QuotedLabel(i, o), chars) == i + " / " + o
    ensures Split(i + " / " + o, " / ") == [i, o]
  {
    QuotedLabelStrip(i, o, chars);
    NoSeparatorAcrossEnd(i);
    SplitTwo(i, " / ", o);
  }

  lemma QuotedLabelStrip(i: string, o: string, chars: set<char>)
    requires PlainName(i) && PlainName(o) && '"' in chars && chars <= QuoteChars
    ensures Strip(QuotedLabel(i, o), chars) == i + " / " + o
  {
    var m := i + " / " + o;
    assert m[0] == i[0] && m[|m| - 1] == o[|o| - 1];
    var q1 := m + "\"";
    QuoteEnds(m);
    assert QuotedLabel(i, o) == "\"" + m + "\"";
    assert LStrip(QuotedLabel(i, o), chars) == LStrip(q1, chars);
    assert LStrip(q1, chars) == q1;
    assert RStrip(q1, chars) == RStrip(m, chars);
    assert RStrip(m, chars) == m;
  }

  /** A quoted text is its quote followed by the text and the closing quote. */
  lemma QuoteEnds(m: string)
    ensures var q := "\"" + m + "\"";
            |q| > 0 && q[0] == '"' && q[1..] == m + "\""
    ensures var q1 := m + "\"";
            q1[|q1| - 1] == '"' && q1[..|q1| - 1] == m && (|m| > 0 ==> q1[0] == m[0])
  {
    var q := "\"" + m + "\"";
    assert q[1..] == m + "\"";
    var q1 := m + "\"";
    assert q1[..|q1| - 1] == m;
  }

  /** No ` / ` straddles the end of a plain name followed by ` /`. */
  lemma NoSeparatorAcrossEnd(i: string)
    requires PlainName(i)
    ensures !Contains(i + " / "[..2], " / ")
  {
    var t := i + " / "[..2];
    forall j | 0 <= j <= |t|
      ensures !OccursAt(t, " / ", j)
    {
      if j + 3 > |t| {
      } else if j + 3 <= |i| {
        assert t[j..j + 3] == i[j..j + 3];
        assert !OccursAt(i, " / ", j);
      } else if j == |i| - 2 {
        assert t[j..j + 3][1] == i[|i| - 1] != '/';
      } else {
        assert t[j..j + 3][0] == i[|i| - 1] != ' ';
      }
    }
  }

  // ---------------------------------------------------------------------
  // Grouping: {(source, dest): {output: [inputs]}} in first-seen order
  // ---------------------------------------------------------------------

  /** The inputs collected under one output. */
  datatype Entry = Entry(output: string, inputs: seq<string>)

  /** The outputs collected for one (source, destination) pair. */
  datatype Group = Group(source: string, destination: string, entries: seq<Entry>)

  /** Python's insertion-ordered dictionary of groups, as an association list. */
  type EdgeInfo = seq<Group>

  /** The position of the group for `(s, d)` in `info[from..]`: the first one, if any. */
  function FindGroup(info: EdgeInfo, s: string, d: string, from: nat): (r: Option<nat>)
    ensures r.Some? ==> from <= r.value < |info| && info[r.value].source == s && info[r.value].destination == d
    ensures r.Some? ==> forall k :: from <= k < r.value ==> !(info[k].source == s && info[k].destination == d)
    ensures r.None? ==> forall k :: from <= k < |info| ==> !(info[k].source == s && info[k].destination == d)
    decreases |info| - from
  {
    if from >= |info| then None
    else if info[from].source == s && info[from].destination == d then Some(from)
    else FindGroup(info, s, d, from + 1)
  }

  /** The position of the entry for output `o` in `entries[from..]`: the first one, if any. */
  function FindEntry(entries: seq<Entry>, o: string, from: nat): (r: Option<nat>)
    ensures r.Some? ==> from <= r.value < |entries| && entries[r.value].output == o
    ensures r.Some? ==> forall k :: from <= k < r.value ==> entries[k].output != o
    ensures r.None? ==> forall k :: from <= k < |entries| ==> entries[k].output != o
    decreases |entries| - from
  {
    if from >= |entries| then None
    else if entries[from].output == o then Some(from)
    else FindEntry(entries, o, from + 1)
  }

  /** The inputs recorded under output `o` of pair `(s, d)`, in order. */
  function InputsOf(info: EdgeInfo, s: string, d: string, o: string): seq<string>
  {
    match FindGroup(info, s, d, 0)
    case None => []
    case Some(k) =>
      match FindEntry(info[k].entries, o, 0)
      case None => []
      case Some(j) => info[k].entries[j].inputs
  }

  /** Appending one input under an output: `entries.setdefault(o, []).append(i)`. */
  function AddToEntries(entries: seq<Entry>, o: string, i: string): (r: seq<Entry>)
  {
    match FindEntry(entries, o, 0)
    case None => entries + [Entry(o, [i])]
    case Some(j) => entries[j := Entry(o, entries[j].inputs + [i])]
  }

  /** Recording the input `i` of an edge from `s` to `d` with output `o`. */
  function AddInput(info: EdgeInfo, s: string, d: string, o: string, i: string): (r: EdgeInfo)
  {
    match FindGroup(info, s, d, 0)
    case None => info + [Group(s, d, [Entry(o, [i])])]
    case Some(k) => info[k := info[k].(entries := AddToEntries(info[k].entries, o, i))]
  }

  /** Two group lists that name the same pairs in the same order find the same group. */
  lemma {:induction false} FindGroupSameKeys(a: EdgeInfo, b: EdgeInfo, s: string, d: string, from: nat)
    requires |a| == |b|
    requires forall k :: 0 <= k < |a| ==> a[k].source == b[k].source && a[k].destination == b[k].destination
    ensures FindGroup(a, s, d, from) == FindGroup(b, s, d, from)
    decreases |a| - from
  {
    if from < |a| {
      FindGroupSameKeys(a, b, s, d, from + 1);
    }
  }

  lemma {:induction false} FindEntrySameKeys(a: seq<Entry>, b: seq<Entry>, o: string, from: nat)
    requires |a| == |b|
    requires forall k :: 0 <= k < |a| ==> a[k].output == b[k].output
    ensures FindEntry(a, o, from) == FindEntry(b, o, from)
    decreases |a| - from
  {
    if from < |a| {
      FindEntrySameKeys(a, b, o, from + 1);
    }
  }

  /** Appending a group for a new pair leaves the search for every other pair unchanged. */
  lemma {:induction false} FindGroupAppend(info: EdgeInfo, g: Group, s: string, d: string, from: nat)
    requires from <= |info|
    ensures FindGroup(info + [g], s, d, from) ==
      (if FindGroup(info, s, d, from).Some? then FindGroup(info, s, d, from)
       else if g.source == s && g.destination == d then Some(|info|) else None)
    decreases |info| - from
  {
    if from < |info| {
      FindGroupAppend(info, g, s, d, from + 1);
    }
  }

  lemma {:induction false} FindEntryAppend(entries: seq<Entry>, e: Entry, o: string, from: nat)
    requires from <= |entries|
    ensures FindEntry(entries + [e], o, from) ==
      (if FindEntry(entries, o, from).Some? then FindEntry(entries, o, from)
       else if e.output == o then Some(|entries|) else None)
    decreases |entries| - from
  {
    if from < |entries| {
      FindEntryAppend(entries, e, o, from + 1);
    }
  }

  /** Adding to the entries appends `i` to the inputs of `o` and changes no other output's inputs. */
  lemma AddToEntriesLookup(entries: seq<Entry>, o: string, i: string, o': string)
    ensures var r := AddToEntries(entries, o, i);
      (match FindEntry(r, o', 0) case None => [] case Some(j) => r[j].inputs) ==
      (match FindEntry(entries, o', 0) case None => [] case Some(j) => entries[j].inputs)
        + (if o == o' then [i] else [])
  {
    match FindEntry(entries, o, 0)
    case None =>
      FindEntryAppend(entries, Entry(o, [i]), o', 0);
    case Some(j) =>
      var r := entries[j := Entry(o, entries[j].inputs + [i])];
      FindEntrySameKeys(entries, r, o', 0);
  }

  /** Recording an input extends exactly the list of its own (source, destination, output). */
  lemma AddInputLookup(info: EdgeInfo, s: string, d: string, o: string, i: string, s': string, d': string, o': string)
    ensures InputsOf(AddInput(info, s, d, o, i), s', d', o') ==
            InputsOf(info, s', d', o') + (if s == s' && d == d' && o == o' then [i] else [])
  {
    match FindGroup(info, s, d, 0)
    case None =>
      var g := Group(s, d, [Entry(o, [i])]);
      FindGroupAppend(info, g, s', d', 0);
      if s == s' && d == d' {
        assert FindGroup(info + [g], s', d', 0) == Some(|info|);
        assert FindEntry(g.entries, o', 0) == (if o == o' then Some(0) else None) by {
          if o != o' { assert FindEntry(g.entries, o', 1) == None; }
        }
      }
    case Some(k) =>
      var r := info[k := info[k].(entries := AddToEntries(info[k].entries, o, i))];
      FindGroupSameKeys(info, r, s', d', 0);
      AddToEntriesLookup(info[k].entries, o, i, o');
  }

  /** The number of inputs recorded in all entries. */
  function TotalInputs(entries: seq<Entry>): nat
  {
    if |entries| == 0 then 0 else |entries[0].inputs| + TotalInputs(entries[1..])
  }

  /** A group list with no group starting at `start` and no empty output entry. */
  predicate WellGrouped(info: EdgeInfo, start: string)
  {
    forall k :: 0 <= k < |info| ==>
      info[k].source != start && |info[k].entries| > 0 &&
      forall j :: 0 <= j < |info[k].entries| ==> |info[k].entries[j].inputs| > 0
  }

  /** Recording an edge whose source is not `start` keeps the group list well-formed. */
  lemma AddInputWellGrouped(info: EdgeInfo, s: string, d: string, o: string, i: string, start: string)
    requires WellGrouped(info, start) && s != start
    ensures WellGrouped(AddInput(info, s, d, o, i), start)
  {
  }

  // ---------------------------------------------------------------------
  // The edge loop, over the role each edge plays
  // ---------------------------------------------------------------------

  /**
   * What one edge is: the initial edge (as it is to be stored), an edge to
   * remove, or a kept edge with its (replaced) input and output.
   */
  datatype EdgeRole = Initial(edge: Edge) | Removed | Grouped(input: string, output: string)

  type Roles = seq<Result<EdgeRole, Exception>>

  /** What the edge loop hands back: the grouping and the (last) initial edge. */
  datatype EdgeInfoResult = EdgeInfoResult(info: EdgeInfo, initial: Option<Edge>)

  /** One edge's effect on the loop's state. */
  function Step(acc: EdgeInfoResult, e: Edge, role: EdgeRole): EdgeInfoResult
  {
    match role
    case Initial(x) => acc.(initial := Some(x))
    case Removed => acc
    case Grouped(inp, out) => acc.(info := AddInput(acc.info, e.source, e.destination, out, inp))
  }

  /** The edge loop over `edges[i..]` with their roles, starting from `acc`. */
  function EdgeWalk(edges: seq<Edge>, roles: Roles, i: nat, acc: EdgeInfoResult): Result<EdgeInfoResult, Exception>
    requires |roles| == |edges| && i <= |edges|
    decreases |edges| - i
  {
    if i == |edges| then Ok(acc)
    else match roles[i]
      case Err(x) => Err(x)
      case Ok(role) => EdgeWalk(edges, roles, i + 1, Step(acc, edges[i], role))
  }

  /** The input one edge contributes to the entry for (`s`, `d`, `o`): its own when it is grouped there. */
  function Contributed(e: Edge, role: Result<EdgeRole, Exception>, s: string, d: string, o: string): seq<string>
  {
    match role
    case Ok(Grouped(inp, out)) => if e.source == s && e.destination == d && out == o then [inp] else []
    case _ => []
  }

  /** The inputs that the grouped edges of `edges[i..]` from `s` to `d` with output `o` contribute, in order. */
  function GroupedInputs(edges: seq<Edge>, roles: Roles, i: nat, s: string, d: string, o: string): seq<string>
    requires |roles| == |edges| && i <= |edges|
    decreases |edges| - i
  {
    if i == |edges| then []
    else Contributed(edges[i], roles[i], s, d, o) + GroupedInputs(edges, roles, i + 1, s, d, o)
  }

  /** One step of the edge loop appends the edge's contribution to each entry. */
  lemma StepInputs(acc: EdgeInfoResult, e: Edge, role: EdgeRole, s: string, d: string, o: string)
    ensures InputsOf(Step(acc, e, role).info, s, d, o) == InputsOf(acc.info, s, d, o) + Contributed(e, Ok(role), s, d, o)
  {
    if role.Grouped? {
      AddInputLookup(acc.info, e.source, e.destination, role.output, role.input, s, d, o);
    } else {
      assert Contributed(e, Ok(role), s, d, o) == [];
    }
  }

  /** The edge loop appends to each (source, destination, output) entry exactly the inputs of the matching grouped edges. */
  lemma {:induction false} EdgeWalkInputs(edges: seq<Edge>, roles: Roles, i: nat, acc: EdgeInfoResult, s: string, d: string, o: string)
    requires |roles| == |edges| && i <= |edges| && EdgeWalk(edges, roles, i, acc).Ok?
    ensures InputsOf(EdgeWalk(edges, roles, i, acc).value.info, s, d, o) ==
            InputsOf(acc.info, s, d, o) + GroupedInputs(edges, roles, i, s, d, o)
    decreases |edges| - i
  {
    if i < |edges| {
      var role := roles[i].value;
      var acc' := Step(acc, edges[i], role);
      var here := Contributed(edges[i], roles[i], s, d, o);
      var rest := GroupedInputs(edges, roles, i + 1, s, d, o);
      assert GroupedInputs(edges, roles, i, s, d, o) == here + rest;
      StepInputs(acc, edges[i], role, s, d, o);
      assert EdgeWalk(edges, roles, i, acc) == EdgeWalk(edges, roles, i + 1, acc');
      EdgeWalkInputs(edges, roles, i + 1, acc', s, d, o);
      Regroup(InputsOf(acc.info, s, d, o), here, rest);
    }
  }

  /** The edge loop keeps the group list well-formed when no kept edge leaves `start`. */
  lemma {:induction false} EdgeWalkWellGrouped(edges: seq<Edge>, roles: Roles, start: string, i: nat, acc: EdgeInfoResult)
    requires |roles| == |edges| && i <= |edges| && EdgeWalk(edges, roles, i, acc).Ok? && WellGrouped(acc.info, start)
    requires forall k :: 0 <= k < |edges| && roles[k].Ok? && !roles[k].value.Initial? ==> edges[k].source != start
    ensures WellGrouped(EdgeWalk(edges, roles, i, acc).value.info, start)
    decreases |edges| - i
  {
    if i < |edges| {
      var e := edges[i];
      var role := roles[i].value;
      if role.Grouped? {
        AddInputWellGrouped(acc.info, e.source, e.destination, role.output, role.input, start);
      }
      EdgeWalkWellGrouped(edges, roles, start, i + 1, Step(acc, e, role));
    }
  }

  lemma EdgeWalkGroups(edges: seq<Edge>, roles: Roles, start: string, i: nat, acc: EdgeInfoResult, s: string, d: string, o: string)
    requires |roles| == |edges| && i <= |edges| && EdgeWalk(edges, roles, i, acc).Ok? && WellGrouped(acc.info, start)
    requires forall k :: 0 <= k < |edges| && roles[k].Ok? && !roles[k].value.Initial? ==> edges[k].source != start
    ensures InputsOf(EdgeWalk(edges, roles, i, acc).value.info, s, d, o) ==
            InputsOf(acc.info, s, d, o) + GroupedInputs(edges, roles, i, s, d, o)
    ensures WellGrouped(EdgeWalk(edges, roles, i, acc).value.info, start)
  {
    EdgeWalkInputs(edges, roles, i, acc, s, d, o);
    EdgeWalkWellGrouped(edges, roles, start, i, acc);
  }

  lemma {:induction false} EdgeWalkInitial(edges: seq<Edge>, roles: Roles, i: nat, acc: EdgeInfoResult)
    requires |roles| == |edges| && i <= |edges| && EdgeWalk(edges, roles, i, acc).Ok?
    ensures var init := EdgeWalk(edges, roles, i, acc).value.initial;
      (init == acc.initial && forall k :: i <= k < |edges| ==> !(roles[k].Ok? && roles[k].value.Initial?)) ||
      (exists k :: i <= k < |edges| && init.Some? && roles[k] == Ok(Initial(init.value)) &&
         forall k' :: k < k' < |edges| ==> !(roles[k'].Ok? && roles[k'].value.Initial?))
    decreases |edges| - i
  {
    if i < |edges| {
      EdgeWalkInitial(edges, roles, i + 1, Step(acc, edges[i], roles[i].value));
    }
  }

  /** A successful edge loop met no failing edge. */
  lemma {:induction false} EdgeWalkOk(edges: seq<Edge>, roles: Roles, i: nat, acc: EdgeInfoResult)
    requires |roles| == |edges| && i <= |edges|
    ensures EdgeWalk(edges, roles, i, acc).Ok? <==> forall k :: i <= k < |edges| ==> roles[k].Ok?
    decreases |edges| - i
  {
    if i < |edges| && roles[i].Ok? {
      EdgeWalkOk(edges, roles, i + 1, Step(acc, edges[i], roles[i].value));
    }
  }

  // ---------------------------------------------------------------------
  // Sorting by length (Python's stable `sorted(key=len)`) and labels
  // ---------------------------------------------------------------------

  /** `x` placed before the first element of `ys` that is at least as long. */
  function InsertByLength(x: string, ys: seq<string>): (r: seq<string>)
    ensures multiset(r) == multiset(ys) + multiset{x}
    ensures |r| > 0 && (r[0] == x || (|ys| > 0 && r[0] == ys[0]))
  {
    if |ys| == 0 || |x| <= |ys[0]| then [x] + ys
    else
      assert ys == [ys[0]] + ys[1..];
      [ys[0]] + InsertByLength(x, ys[1..])
  }

  /** The reference stable sort by length: insertion from the back. */
  function SortByLength(xs: seq<string>): seq<string>
  {
    if |xs| == 0 then [] else InsertByLength(xs[0], SortByLength(xs[1..]))
  }

  predicate SortedByLength(xs: seq<string>)
  {
    forall i, j :: 0 <= i < j < |xs| ==> |xs[i]| <= |xs[j]|
  }

  /** The elements of length `n`, in their order. */
  function WithLength(xs: seq<string>, n: nat): seq<string>
  {
    if |xs| == 0 then [] else (if |xs[0]| == n then [xs[0]] else []) + WithLength(xs[1..], n)
  }

  lemma {:induction false} InsertSorted(x: string, ys: seq<string>)
    requires SortedByLength(ys)
    ensures SortedByLength(InsertByLength(x, ys))
  {
    if |ys| > 0 && |x| > |ys[0]| {
      var tail := InsertByLength(x, ys[1..]);
      InsertSorted(x, ys[1..]);
      var r := [ys[0]] + tail;
      forall j | 0 < j < |r|
        ensures |r[0]| <= |r[j]|
      {
        assert r[j] in multiset(tail);
        assert r[j] in multiset(ys[1..]) + multiset{x};
        if r[j] != x {
          assert r[j] in ys[1..];
        }
      }
    }
  }

  /** Inserting into a sorted list keeps each length class in insertion-then-original order. */
  lemma {:induction false} InsertStable(x: string, ys: seq<string>, n: nat)
    requires SortedByLength(ys)
    ensures WithLength(InsertByLength(x, ys), n) == WithLength([x] + ys, n)
  {
    if |ys| == 0 || |x| <= |ys[0]| {
    } else {
      InsertStable(x, ys[1..], n);
      assert ([x] + ys[1..])[1..] == ys[1..];
      assert ([x] + ys)[1..] == ys;
      assert ([ys[0]] + InsertByLength(x, ys[1..]))[1..] == InsertByLength(x, ys[1..]);
    }
  }

  /**
   * `sorted(labels, key=len)`: the result is sorted by length, is a
   * permutation of the input, and keeps labels of equal length in their
   * original order (Python's sort is stable), which together determine it.
   */
  lemma {:induction false} SortByLengthSpec(xs: seq<string>)
    ensures SortedByLength(SortByLength(xs))
    ensures multiset(SortByLength(xs)) == multiset(xs)
    ensures forall n: nat :: WithLength(SortByLength(xs), n) == WithLength(xs, n)
  {
    SortByLengthSorted(xs);
    SortByLengthPermutes(xs);
    forall n: nat
      ensures WithLength(SortByLength(xs), n) == WithLength(xs, n)
    {
      SortByLengthStable(xs, n);
    }
  }

  lemma {:induction false} SortByLengthSorted(xs: seq<string>)
    ensures SortedByLength(SortByLength(xs))
  {
    if |xs| > 0 {
      SortByLengthSorted(xs[1..]);
      InsertSorted(xs[0], SortByLength(xs[1..]));
    }
  }

  lemma {:induction false} SortByLengthPermutes(xs: seq<string>)
    ensures multiset(SortByLength(xs)) == multiset(xs)
  {
    if |xs| > 0 {
      SortByLengthPermutes(xs[1..]);
      assert xs == [xs[0]] + xs[1..];
    }
  }

  lemma {:induction false} SortByLengthStable(xs: seq<string>, n: nat)
    ensures WithLength(SortByLength(xs), n) == WithLength(xs, n)
  {
    if |xs| > 0 {
      var rest := SortByLength(xs[1..]);
      SortByLengthSorted(xs[1..]);
      SortByLengthStable(xs[1..], n);
      InsertStable(xs[0], rest, n);
      assert ([xs[0]] + rest)[1..] == rest;
      assert WithLength([xs[0]] + rest, n) == (if |xs[0]| == n then [xs[0]] else []) + WithLength(rest, n);
    }
  }

  /** A merged label: the joined inputs of one output, then ` / ` and the output. */
  function MergedLabel(e: Entry, inputSep: string): string
  {
    Join(e.inputs, inputSep) + " / " + e.output
  }

  /** The merged label of every entry, in entry order. */
  function MergeLabels(entries: seq<Entry>, inputSep: string): (r: seq<string>)
    ensures |r| == |entries|
    ensures forall k :: 0 <= k < |r| ==> r[k] == MergedLabel(entries[k], inputSep)
  {
    seq(|entries|, k requires 0 <= k < |entries| => MergedLabel(entries[k], inputSep))
  }

  /** A label wrapped in the configured paddings. */
  function Pad(text: string, startPadding: string, endPadding: string): string
  {
    startPadding + text + endPadding
  }

  /** The initial edge as the new graph carries it: a non-empty text is padded. */
  function PaddedInitialEdge(e: Edge, startPadding: string, endPadding: string): (r: Edge)
    ensures r.source == e.source && r.destination == e.destination
    ensures e.text == "" ==> r == e
    ensures e.text != "" ==> r.text == startPadding + e.text + endPadding
  {
    if e.text != "" then e.(text := Pad(e.text, startPadding, endPadding)) else e
  }

  /** The edges of a new graph: one per group, labelled by `labelOf`, in group order. */
  function GroupedEdges(info: EdgeInfo, labels: seq<string>): (r: seq<Edge>)
    requires |labels| == |info|
    ensures |r| == |info|
    ensures forall k :: 0 <= k < |r| ==>
      r[k] == Edge(info[k].source, info[k].destination, labels[k])
  {
    seq(|info|, k requires 0 <= k < |info| => Edge(info[k].source, info[k].destination, labels[k]))
  }

  /** How many edges leave `start`. */
  function CountFrom(edges: seq<Edge>, start: string): nat
  {
    if |edges| == 0 then 0 else (if edges[0].source == start then 1 else 0) + CountFrom(edges[1..], start)
  }

  lemma {:induction false} CountFromNone(edges: seq<Edge>, start: string)
    requires forall k :: 0 <= k < |edges| ==> edges[k].source != start
    ensures CountFrom(edges, start) == 0
  {
    if |edges| > 0 {
      CountFromNone(edges[1..], start);
    }
  }

  /**
   * The initial edge is emitted exactly once: a new graph whose first edge
   * leaves `start` and whose other edges come from a well-grouped list has one
   * edge leaving `start`.
   */
  lemma InitialEdgeOnce(first: Edge, info: EdgeInfo, labels: seq<string>, start: string)
    requires |labels| == |info| && WellGrouped(info, start) && first.source == start
    ensures CountFrom([first] + GroupedEdges(info, labels), start) == 1
  {
    var rest := GroupedEdges(info, labels);
    CountFromNone(rest, start);
    assert ([first] + rest)[1..] == rest;
  }
}
