/**
 * The test runner (`TestRunner`, `ProbeTestRunner`): a test is run `times`
 * times and the answers are counted per distinct answer, in the order they
 * first appeared; the transitions of every distinct answer can be printed as
 * "input / output" lines; and the probe runner calls a run non-deterministic
 * when a test got more than one distinct answer or answers differing from
 * those of an earlier control run.
 *
 * The membership oracle (the system under learning) is not modelled: its
 * answers are given, one per query. Output symbols are given with their
 * atomic outputs already rendered as text.
 */
module TestRunner {
  import opened Types
  import opened Strings

  // ---------------------------------------------------------------------
  // Counting answers
  // ---------------------------------------------------------------------

  /** A `LinkedHashMap` from answer to count: the keys in insertion order and the counts. */
  datatype Tally<O> = Tally(keys: seq<O>, count: map<O, int>)

  /** The distinct elements of `s`, in the order of their first occurrence. */
  function Distinct<O(==)>(s: seq<O>): (r: seq<O>)
    ensures forall i | 0 <= i < |r| :: r[i] in s
    ensures forall i | 0 <= i < |s| :: s[i] in r
    decreases |s|
  {
    if s == [] then []
    else
      var d := Distinct(s[..|s| - 1]);
      if s[|s| - 1] in d then d else d + [s[|s| - 1]]
  }

  /** What `runTest` builds from the given answers, one answer at a time. */
  function Tallied<O(==)>(answers: seq<O>): Tally<O>
    decreases |answers|
  {
    if answers == [] then Tally([], map[])
    else
      var t := Tallied(answers[..|answers| - 1]);
      var a := answers[|answers| - 1];
      if a in t.count then Tally(t.keys, t.count[a := t.count[a] + 1])
      else Tally(t.keys + [a], t.count[a := 1])
  }

  lemma {:induction false} CountSnoc<T>(s: seq<T>, x: T, k: T)
    ensures Count(s + [x], k) == Count(s, k) + (if x == k then 1 else 0)
    decreases |s|
  {
    if s != [] {
      assert (s + [x])[1..] == s[1..] + [x];
      CountSnoc(s[1..], x, k);
    }
  }

  lemma {:induction false} CountAbsent<T>(s: seq<T>, x: T)
    requires x !in s
    ensures Count(s, x) == 0
    decreases |s|
  {
    if s != [] {
      CountAbsent(s[1..], x);
    }
  }

  /** Every answer is a key exactly once. */
  lemma {:induction false} DistinctOnce<O>(s: seq<O>, x: O)
    ensures Count(Distinct(s), x) == if x in s then 1 else 0
    decreases |s|
  {
    if s != [] {
      var p := s[..|s| - 1];
      var y := s[|s| - 1];
      assert s == p + [y];
      DistinctOnce(p, x);
      if y !in Distinct(p) {
        CountSnoc(Distinct(p), y, x);
      }
    } else {
      assert Distinct(s) == [];
    }
  }

  /** The position of the first occurrence of `x` in `s`. */
  function FirstIndex<O(==)>(s: seq<O>, x: O): (r: nat)
    requires x in s
    ensures r < |s| && s[r] == x
    decreases |s|
  {
    if s[0] == x then 0 else 1 + FirstIndex(s[1..], x)
  }

  lemma {:induction false} FirstIndexSnoc<O>(s: seq<O>, x: O, y: O)
    requires y in s
    ensures FirstIndex(s + [x], y) == FirstIndex(s, y)
    decreases |s|
  {
    if s[0] != y {
      assert (s + [x])[1..] == s[1..] + [x];
      FirstIndexSnoc(s[1..], x, y);
    }
  }

  lemma {:induction false} FirstIndexNew<O>(s: seq<O>, x: O)
    requires x !in s
    ensures FirstIndex(s + [x], x) == |s|
    decreases |s|
  {
    if s != [] {
      assert (s + [x])[1..] == s[1..] + [x];
      FirstIndexNew(s[1..], x);
    }
  }

  /** The keys are in first-occurrence order. */
  lemma {:induction false} DistinctOrder<O>(s: seq<O>)
    ensures forall i, j :: 0 <= i < j < |Distinct(s)| ==> FirstIndex(s, Distinct(s)[i]) < FirstIndex(s, Distinct(s)[j])
    decreases |s|
  {
    if s != [] {
      var p := s[..|s| - 1];
      var y := s[|s| - 1];
      assert s == p + [y];
      DistinctOrder(p);
      var d := Distinct(p);
      forall i, j | 0 <= i < j < |Distinct(s)|
        ensures FirstIndex(s, Distinct(s)[i]) < FirstIndex(s, Distinct(s)[j])
      {
        FirstIndexSnoc(p, y, d[i]);
        if j < |d| {
          FirstIndexSnoc(p, y, d[j]);
        } else {
          FirstIndexNew(p, y);
        }
      }
    }
  }

  /** The total of the counts of `keys` among `s`. */
  function SumCounts<O(==)>(keys: seq<O>, s: seq<O>): int
    decreases |keys|
  {
    if keys == [] then 0 else SumCounts(keys[..|keys| - 1], s) + Count(s, keys[|keys| - 1])
  }

  lemma {:induction false} SumCountsSnoc<O>(keys: seq<O>, s: seq<O>, x: O)
    ensures SumCounts(keys, s + [x]) == SumCounts(keys, s) + Count(keys, x)
    decreases |keys|
  {
    if keys != [] {
      var q := keys[..|keys| - 1];
      var k := keys[|keys| - 1];
      assert keys == q + [k];
      SumCountsSnoc(q, s, x);
      CountSnoc(s, x, k);
      CountSnoc(q, k, x);
    }
  }

  lemma {:induction false} DistinctTotal<O>(s: seq<O>)
    ensures SumCounts(Distinct(s), s) == |s|
    decreases |s|
  {
    if s != [] {
      var p := s[..|s| - 1];
      var y := s[|s| - 1];
      assert s == p + [y];
      DistinctTotal(p);
      var d := Distinct(p);
      SumCountsSnoc(d, p, y);
      DistinctOnce(p, y);
      if y !in d {
        assert (d + [y])[..|d|] == d;
        CountAbsent(p, y);
        CountSnoc(p, y, y);
      }
    }
  }

  /** The keys are the distinct answers in order, and each answer is counted as often as it occurs. */
  lemma {:induction false} TalliedCounts<O>(answers: seq<O>)
    ensures Tallied(answers).keys == Distinct(answers)
    ensures forall k :: k in Tallied(answers).count <==> k in answers
    ensures forall k :: k in Tallied(answers).count ==> Tallied(answers).count[k] == Count(answers, k)
    decreases |answers|
  {
    if answers != [] {
      var p := answers[..|answers| - 1];
      var a := answers[|answers| - 1];
      assert answers == p + [a];
      TalliedCounts(p);
      TalliedStep(p, a);
    }
  }

  lemma TalliedStep<O>(p: seq<O>, a: O)
    requires Tallied(p).keys == Distinct(p)
    requires forall k :: k in Tallied(p).count <==> k in p
    requires forall k :: k in Tallied(p).count ==> Tallied(p).count[k] == Count(p, k)
    ensures Tallied(p + [a]).keys == Distinct(p + [a])
    ensures forall k :: k in Tallied(p + [a]).count <==> k in p + [a]
    ensures forall k :: k in Tallied(p + [a]).count ==> Tallied(p + [a]).count[k] == Count(p + [a], k)
  {
    var s := p + [a];
    assert s[..|s| - 1] == p;
    TalliedStepKeys(p, a);
    forall k | k in Tallied(s).count
      ensures Tallied(s).count[k] == Count(s, k)
    {
      TalliedStepCount(p, a, k);
    }
  }

  lemma TalliedStepKeys<O>(p: seq<O>, a: O)
    requires Tallied(p).keys == Distinct(p)
    requires forall k :: k in Tallied(p).count <==> k in p
    ensures Tallied(p + [a]).keys == Distinct(p + [a])
    ensures forall k :: k in Tallied(p + [a]).count <==> k in p + [a]
  {
    var s := p + [a];
    assert s[..|s| - 1] == p;
    assert a in Tallied(p).count <==> a in Distinct(p);
  }

  lemma TalliedStepCount<O>(p: seq<O>, a: O, k: O)
    requires forall k :: k in Tallied(p).count <==> k in p
    requires forall k :: k in Tallied(p).count ==> Tallied(p).count[k] == Count(p, k)
    requires k in Tallied(p + [a]).count
    ensures Tallied(p + [a]).count[k] == Count(p + [a], k)
  {
    var s := p + [a];
    assert s[..|s| - 1] == p;
    CountSnoc(p, a, k);
    if k == a && a !in p {
      CountAbsent(p, a);
    }
  }

  /** The total of the counts of `keys` in `count`. */
  function Total<O>(keys: seq<O>, count: map<O, int>): int
    decreases |keys|
  {
    if keys == [] then 0
    else Total(keys[..|keys| - 1], count) + (if keys[|keys| - 1] in count then count[keys[|keys| - 1]] else 0)
  }

  lemma {:induction false} TotalCounts<O>(keys: seq<O>, s: seq<O>)
    requires forall k :: k in keys ==> k in s
    ensures Total(keys, Tallied(s).count) == SumCounts(keys, s)
    decreases |keys|
  {
    if keys != [] {
      TalliedCounts(s);
      TotalCounts(keys[..|keys| - 1], s);
    }
  }

  /**
   * The counts add up to the number of runs, every key is counted exactly
   * as often as it was answered, and the keys are the distinct answers
   * without repetition, in first-occurrence order.
   */
  lemma TallyProperties<O>(answers: seq<O>)
    ensures Total(Tallied(answers).keys, Tallied(answers).count) == |answers|
    ensures forall k :: k in Tallied(answers).count ==> Tallied(answers).count[k] == Count(answers, k)
    ensures forall k :: k in Tallied(answers).keys <==> k in answers
    ensures forall k :: k in answers ==> Count(Tallied(answers).keys, k) == 1
    ensures forall i, j :: 0 <= i < j < |Tallied(answers).keys| ==>
      FirstIndex(answers, Tallied(answers).keys[i]) < FirstIndex(answers, Tallied(answers).keys[j])
  {
    TalliedCounts(answers);
    DistinctTotal(answers);
    TotalCounts(Distinct(answers), answers);
    DistinctOrder(answers);
    forall k | k in answers
      ensures Count(Tallied(answers).keys, k) == 1
    {
      DistinctOnce(answers, k);
    }
  }

  /**
   * `runTest`: the oracle is queried `times` times (its answers, one per
   * query, are `answers`) and each answer is counted.
   */
  method RunTest<O(==)>(times: int, answers: seq<O>) returns (t: Tally<O>)
    requires |answers| == if times > 0 then times else 0
    ensures t == Tallied(answers)
    ensures times <= 0 ==> t.keys == [] && t.count == map[]
  {
    var keys: seq<O> := [];
    var count: map<O, int> := map[];
    var i := 0;
    while i < times
      invariant 0 <= i <= |answers|
      invariant i < times || i == |answers|
      invariant Tally(keys, count) == Tallied(answers[..i])
    {
      var answer := answers[i];
      assert answers[..i + 1][..i] == answers[..i];
      if answer !in count {
        keys := keys + [answer];
        count := count[answer := 1];
      } else {
        count := count[answer := count[answer] + 1];
      }
      i := i + 1;
    }
    assert answers[..i] == answers;
    t := Tally(keys, count);
  }

  // ---------------------------------------------------------------------
  // Printing the transition sequence of every distinct answer
  // ---------------------------------------------------------------------

  /** An output symbol: whether it is the timeout output, and its atomic outputs as text. */
  datatype Output = Output(timeout: bool, atomics: seq<string>)

  /** `System.lineSeparator()`, taken to be a line feed. */
  const NewLine: string := "\n"

  /** What follows " / " for a symbol's atomic outputs: "-" for a timeout or for none, else "o1; o2; ...; on ". */
  function Rendered(timeout: bool, atomics: seq<string>): (r: string)
    ensures r == "-" <==> timeout || atomics == []
  {
    if timeout || atomics == [] then "-"
    else
      var r := Join(atomics, "; ") + " ";
      assert r[|r| - 1] == ' ';
      r
  }

  /** The text of appending every atomic output followed by `sep`. */
  function Appended(atomics: seq<string>, sep: string): string
    decreases |atomics|
  {
    if atomics == [] then "" else Appended(atomics[..|atomics| - 1], sep) + atomics[|atomics| - 1] + sep
  }

  lemma {:induction false} JoinSnoc(s: seq<string>, x: string, sep: string)
    requires s != []
    ensures Join(s + [x], sep) == Join(s, sep) + sep + x
    decreases |s|
  {
    if |s| > 1 {
      assert (s + [x])[1..] == s[1..] + [x];
      JoinSnoc(s[1..], x, sep);
    } else {
      assert (s + [x])[1..] == [x];
    }
  }

  lemma {:induction false} AppendedJoin(atomics: seq<string>, sep: string)
    requires atomics != []
    ensures Appended(atomics, sep) == Join(atomics, sep) + sep
    decreases |atomics|
  {
    var p := atomics[..|atomics| - 1];
    var x := atomics[|atomics| - 1];
    assert atomics == p + [x];
    if p != [] {
      AppendedJoin(p, sep);
      JoinSnoc(p, x, sep);
      assert Appended(atomics, sep) == Appended(p, sep) + x + sep;
    } else {
      assert Appended(p, sep) == "";
      assert Join(atomics, sep) == x;
    }
  }

  /** `atomicOutputs.forEach(...)` followed by `deleteCharAt(length - 2)`, which removes the last ';'. */
  method AppendAtomics(sb: string, atomics: seq<string>) returns (r: string)
    requires atomics != []
    ensures r == sb + Rendered(false, atomics)
  {
    r := sb;
    var j := 0;
    while j < |atomics|
      invariant 0 <= j <= |atomics|
      invariant r == sb + Appended(atomics[..j], "; ")
    {
      assert atomics[..j + 1][..j] == atomics[..j];
      r := r + atomics[j] + "; ";
      j := j + 1;
    }
    assert atomics[..j] == atomics;
    AppendedJoin(atomics, "; ");
    assert r == sb + Join(atomics, "; ") + "; ";
    r := r[..|r| - 2] + r[|r| - 1..];
    assert r == sb + Join(atomics, "; ") + " ";
  }

  /** Whether a client's first symbol opens with its initial message, printed on a line of its own. */
  predicate InitialLine(out: Output, first: bool, initial: string -> bool)
  {
    first && out.atomics != [] && initial(out.atomics[0])
  }

  /** A printed line: an input symbol with its output, or a client's initial message. */
  datatype Line = Transition(input: string, timeout: bool, atomics: seq<string>) | InitialMessage(message: string)

  /** The text of a line: "input / output", or "- / message" for the initial message. */
  function LineText(l: Line): (r: string)
    ensures l.Transition? ==> StartsWith(r, l.input + " / ")
  {
    match l
    case Transition(input, timeout, atomics) =>
      var r := input + " / " + Rendered(timeout, atomics);
      assert r[..|input + " / "|] == input + " / ";
      r
    case InitialMessage(message) => "- / " + message
  }

  /** The lines printed for one input symbol; the initial client message, if any, comes first. */
  function SymbolLines(input: string, out: Output, initialLine: bool): (r: seq<Line>)
    requires initialLine ==> out.atomics != []
    ensures |r| == if initialLine then 2 else 1
    ensures r[|r| - 1].Transition? && r[|r| - 1].input == input
  {
    if initialLine then [InitialMessage(out.atomics[0]), Transition(input, out.timeout, out.atomics[1..])]
    else [Transition(input, out.timeout, out.atomics)]
  }

  /**
   * Whether the first `k` symbols of an answer can be printed: they exist
   * and, for a client, the first one has an atomic output. Otherwise
   * printing raises an `IndexOutOfBoundsException`.
   */
  predicate Printable(answer: seq<Output>, client: bool, k: nat)
  {
    k <= |answer| && (client && k > 0 ==> answer[0].atomics != [])
  }

  /** The lines printed for the first `k` input symbols of one answer. */
  function AnswerLines(inputs: seq<string>, answer: seq<Output>, client: bool, initial: string -> bool, k: nat): seq<Line>
    requires k <= |inputs| && Printable(answer, client, k)
    decreases k
  {
    if k == 0 then []
    else
      AnswerLines(inputs, answer, client, initial, k - 1)
        + SymbolLines(inputs[k - 1], answer[k - 1], InitialLine(answer[k - 1], client && k - 1 == 0, initial))
  }

  /** The number of lines before the first symbol's own line. */
  function Offset(answer: seq<Output>, client: bool, initial: string -> bool, k: nat): nat
  {
    if k > 0 && |answer| > 0 && InitialLine(answer[0], client, initial) then 1 else 0
  }

  /** A printed answer has one line per input symbol, plus the initial client line. */
  lemma {:induction false} AnswerLinesLength(inputs: seq<string>, answer: seq<Output>, client: bool, initial: string -> bool, k: nat)
    requires k <= |inputs| && Printable(answer, client, k)
    ensures |AnswerLines(inputs, answer, client, initial, k)| == k + Offset(answer, client, initial, k)
    decreases k
  {
    if k > 0 {
      AnswerLinesLength(inputs, answer, client, initial, k - 1);
    }
  }

  /** Each symbol has its own transition line, whose text starts with that symbol followed by " / ". */
  lemma {:induction false} AnswerLinesStart(inputs: seq<string>, answer: seq<Output>, client: bool, initial: string -> bool, k: nat)
    requires k <= |inputs| && Printable(answer, client, k)
    ensures |AnswerLines(inputs, answer, client, initial, k)| == k + Offset(answer, client, initial, k)
    ensures forall j | Offset(answer, client, initial, k) <= j < |AnswerLines(inputs, answer, client, initial, k)| ::
      AnswerLines(inputs, answer, client, initial, k)[j].Transition? &&
      AnswerLines(inputs, answer, client, initial, k)[j].input == inputs[j - Offset(answer, client, initial, k)]
    decreases k
  {
    AnswerLinesLength(inputs, answer, client, initial, k);
    if k > 0 {
      AnswerLinesStart(inputs, answer, client, initial, k - 1);
      var prev := AnswerLines(inputs, answer, client, initial, k - 1);
      var flag := InitialLine(answer[k - 1], client && k - 1 == 0, initial);
      var sl := SymbolLines(inputs[k - 1], answer[k - 1], flag);
      var cur := AnswerLines(inputs, answer, client, initial, k);
      assert cur == prev + sl;
      var off := Offset(answer, client, initial, k);
      assert off == Offset(answer, client, initial, k - 1) + (if flag then 1 else 0);
      forall j | off <= j < |cur|
        ensures cur[j].Transition? && cur[j].input == inputs[j - off]
      {
        if j < |prev| {
          assert !flag;
          assert cur[j] == prev[j];
        } else {
          assert j == |prev| + |sl| - 1;
          assert cur[j] == sl[|sl| - 1];
        }
      }
    }
  }

  /** The texts of the lines, in order. */
  function Texts(lines: seq<Line>): (r: seq<string>)
    ensures |r| == |lines|
    decreases |lines|
  {
    if lines == [] then [] else Texts(lines[..|lines| - 1]) + [LineText(lines[|lines| - 1])]
  }

  lemma {:induction false} TextsAppend(a: seq<Line>, b: seq<Line>)
    ensures Texts(a + b) == Texts(a) + Texts(b)
    decreases |b|
  {
    if b != [] {
      assert (a + b)[..|a + b| - 1] == a + b[..|b| - 1];
      TextsAppend(a, b[..|b| - 1]);
    } else {
      assert a + b == a;
    }
  }

  /** The texts, each followed by a line separator. */
  function Unlines(texts: seq<string>): string
    decreases |texts|
  {
    if texts == [] then "" else Unlines(texts[..|texts| - 1]) + texts[|texts| - 1] + NewLine
  }

  lemma {:induction false} UnlinesAppend(a: seq<string>, b: seq<string>)
    ensures Unlines(a + b) == Unlines(a) + Unlines(b)
    decreases |b|
  {
    if b != [] {
      assert (a + b)[..|a + b| - 1] == a + b[..|b| - 1];
      UnlinesAppend(a, b[..|b| - 1]);
    } else {
      assert a + b == a;
    }
  }

  lemma UnlinesSmall(x: Line, y: Line)
    ensures Unlines(Texts([x])) == LineText(x) + NewLine
    ensures Unlines(Texts([x, y])) == LineText(x) + NewLine + LineText(y) + NewLine
  {
    assert [x][..0] == [];
    assert [x, y][..1] == [x];
    assert [LineText(x)][..0] == [];
    assert [LineText(x), LineText(y)][..1] == [LineText(x)];
  }

  /** The text printed for one answer: a line separator, then its lines. */
  function AnswerText(inputs: seq<string>, answer: seq<Output>, client: bool, initial: string -> bool): Result<string, Exception>
  {
    if !Printable(answer, client, |inputs|) then Err(IndexOutOfBounds)
    else Ok(NewLine + Unlines(Texts(AnswerLines(inputs, answer, client, initial, |inputs|))))
  }

  /** The text for the answers from the `n`-th on, after `acc`; the first answer that cannot be printed stops it. */
  function SequenceText(inputs: seq<string>, answers: seq<seq<Output>>, client: bool, initial: string -> bool, n: nat, acc: string): Result<string, Exception>
    decreases |answers| - n
  {
    if n >= |answers| then Ok(acc)
    else
      var t := AnswerText(inputs, answers[n], client, initial);
      if t.Err? then t else SequenceText(inputs, answers, client, initial, n + 1, acc + t.value)
  }

  /** One pass of the inner loop of `getTransitionSequenceString`: the text printed for one symbol. */
  method AppendSymbol(input: string, out: Output, first: bool, initial: string -> bool) returns (r: Result<string, Exception>)
    ensures r.Err? <==> first && out.atomics == []
    ensures r.Err? ==> r.error == IndexOutOfBounds
    ensures r.Ok? ==> r.value == Unlines(Texts(SymbolLines(input, out, InitialLine(out, first, initial))))
  {
    var atomicOutputs := out.atomics;
    var res := "";
    if first && |atomicOutputs| == 0 {
      return Err(IndexOutOfBounds);
    }
    var sl := SymbolLines(input, out, InitialLine(out, first, initial));
    UnlinesSmall(sl[0], sl[|sl| - 1]);
    if first && initial(atomicOutputs[0]) {
      res := res + "- / " + atomicOutputs[0] + NewLine;
      assert res == LineText(sl[0]) + NewLine;
      atomicOutputs := atomicOutputs[1..];
    }
    assert sl[|sl| - 1] == Transition(input, out.timeout, atomicOutputs);
    res := AppendTransition(res, input, out.timeout, atomicOutputs);
    return Ok(res);
  }

  /** The transition line of one symbol: "input / ", its rendered output and a line separator. */
  method AppendTransition(sb: string, input: string, timeout: bool, atomics: seq<string>) returns (r: string)
    ensures r == sb + LineText(Transition(input, timeout, atomics)) + NewLine
  {
    r := sb + input + " / ";
    if timeout || |atomics| == 0 {
      r := r + "-";
    } else {
      r := AppendAtomics(r, atomics);
    }
    r := r + NewLine;
  }

  /** The text of the first `k + 1` symbols extends that of the first `k` by the lines of symbol `k`. */
  lemma AnswerTextStep(inputs: seq<string>, answer: seq<Output>, client: bool, initial: string -> bool, k: nat)
    requires k < |inputs| && Printable(answer, client, k + 1)
    ensures Unlines(Texts(AnswerLines(inputs, answer, client, initial, k + 1)))
      == Unlines(Texts(AnswerLines(inputs, answer, client, initial, k)))
        + Unlines(Texts(SymbolLines(inputs[k], answer[k], InitialLine(answer[k], client && k == 0, initial))))
  {
    var prev := AnswerLines(inputs, answer, client, initial, k);
    var sl := SymbolLines(inputs[k], answer[k], InitialLine(answer[k], client && k == 0, initial));
    assert AnswerLines(inputs, answer, client, initial, k + 1) == prev + sl;
    TextsAppend(prev, sl);
    UnlinesAppend(Texts(prev), Texts(sl));
  }

  /** One pass of the inner loop: symbol `i` is printed after the text of the symbols before it. */
  method AppendStep(inputs: seq<string>, answer: seq<Output>, client: bool, initial: string -> bool, i: nat, out: string)
    returns (r: Result<string, Exception>)
    requires i < |inputs| && Printable(answer, client, i)
    requires out == Unlines(Texts(AnswerLines(inputs, answer, client, initial, i)))
    ensures r.Err? <==> !Printable(answer, client, i + 1)
    ensures r.Err? ==> r.error == IndexOutOfBounds
    ensures r.Ok? ==> Printable(answer, client, i + 1) && r.value == Unlines(Texts(AnswerLines(inputs, answer, client, initial, i + 1)))
  {
    if i >= |answer| {
      return Err(IndexOutOfBounds);
    }
    var next := AppendSymbol(inputs[i], answer[i], client && i == 0, initial);
    if next.Err? {
      return Err(next.error);
    }
    AnswerTextStep(inputs, answer, client, initial, i);
    return Ok(out + next.value);
  }

  /** The inner loop of `getTransitionSequenceString`: the text printed for one answer's symbols. */
  method AppendAnswer(inputs: seq<string>, answer: seq<Output>, client: bool, initial: string -> bool)
    returns (r: Result<string, Exception>)
    ensures r.Err? <==> !Printable(answer, client, |inputs|)
    ensures r.Err? ==> r.error == IndexOutOfBounds
    ensures r.Ok? ==> Printable(answer, client, |inputs|) && r.value == Unlines(Texts(AnswerLines(inputs, answer, client, initial, |inputs|)))
  {
    var out := "";
    var i := 0;
    while i < |inputs|
      invariant 0 <= i <= |inputs|
      invariant Printable(answer, client, i)
      invariant out == Unlines(Texts(AnswerLines(inputs, answer, client, initial, i)))
    {
      var next := AppendStep(inputs, answer, client, initial, i, out);
      if next.Err? {
        assert !Printable(answer, client, |inputs|);
        return next;
      }
      out := next.value;
      i := i + 1;
    }
    return Ok(out);
  }

  /** One pass of the outer loop of `getTransitionSequenceString`: a line separator, then the answer's lines. */
  method PrintAnswer(inputs: seq<string>, answer: seq<Output>, client: bool, initial: string -> bool)
    returns (r: Result<string, Exception>)
    ensures r == AnswerText(inputs, answer, client, initial)
  {
    var next := AppendAnswer(inputs, answer, client, initial);
    if next.Err? {
      return next;
    }
    return Ok(NewLine + next.value);
  }

  /** `getTransitionSequenceString`: the lines of every distinct answer (the keys of the result), in order. */
  method TransitionSequenceString(inputs: seq<string>, answers: seq<seq<Output>>, client: bool, initial: string -> bool)
    returns (r: Result<string, Exception>)
    ensures r == SequenceText(inputs, answers, client, initial, 0, "")
  {
    var sb := "";
    var n := 0;
    while n < |answers|
      invariant 0 <= n <= |answers|
      invariant SequenceText(inputs, answers, client, initial, n, sb) == SequenceText(inputs, answers, client, initial, 0, "")
    {
      var t := PrintAnswer(inputs, answers[n], client, initial);
      if t.Err? {
        return t;
      }
      sb := sb + t.value;
      n := n + 1;
    }
    return Ok(sb);
  }

  /** Every answer that prints contributes its text; the first one that does not is the result. */
  lemma {:induction false} SequenceTextShape(inputs: seq<string>, answers: seq<seq<Output>>, client: bool, initial: string -> bool, n: nat, acc: string)
    ensures SequenceText(inputs, answers, client, initial, n, acc).Ok? <==>
      forall j | n <= j < |answers| :: Printable(answers[j], client, |inputs|)
    decreases |answers| - n
  {
    if n < |answers| {
      var t := AnswerText(inputs, answers[n], client, initial);
      if t.Ok? {
        SequenceTextShape(inputs, answers, client, initial, n + 1, acc + t.value);
      }
    }
  }
}
