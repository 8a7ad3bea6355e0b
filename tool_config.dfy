/**
 * Property resolution of the fuzzer's configuration (`ToolConfig.resolve`):
 * every `${key}` in a user string whose key is a known property is replaced
 * by the property's value, unknown keys are left as written, and a string in
 * which some placeholder was found is cached.
 *
 * The matcher is Java's `\$\{([^$]*)\}` with `find`, `appendReplacement`
 * and `appendTail`: a match starts at `${` and ends at the last `}` before
 * the next `$` (the star is greedy); a replacement value is itself expanded
 * as Java expands replacement strings (`\c` is `c`, `$n` is group n).
 */
module ToolConfig {
  import opened Types
  import opened Strings

  // ---------------------------------------------------------------------
  // The pattern `\$\{([^$]*)\}`
  // ---------------------------------------------------------------------

  /** The position of the first `$` at or after `from`, or the length of `s`. */
  function NextDollar(s: string, from: nat): (r: nat)
    requires from <= |s|
    ensures from <= r <= |s| && (r < |s| ==> s[r] == '$')
    decreases |s| - from
  {
    if from == |s| || s[from] == '$' then from else NextDollar(s, from + 1)
  }

  lemma {:induction false} NextDollarFirst(s: string, from: nat)
    requires from <= |s|
    ensures forall k :: from <= k < NextDollar(s, from) ==> s[k] != '$'
    decreases |s| - from
  {
    if from < |s| && s[from] != '$' {
      NextDollarFirst(s, from + 1);
    }
  }

  /** The position of the last `}` in `s[lo..hi]`, if any. */
  function LastBrace(s: string, lo: nat, hi: nat): (r: Option<nat>)
    requires lo <= hi <= |s|
    ensures r.Some? ==> lo <= r.value < hi && s[r.value] == '}'
    decreases hi - lo
  {
    if hi == lo then None
    else if s[hi - 1] == '}' then Some(hi - 1)
    else LastBrace(s, lo, hi - 1)
  }

  lemma {:induction false} LastBraceLast(s: string, lo: nat, hi: nat)
    requires lo <= hi <= |s|
    ensures LastBrace(s, lo, hi).Some? ==> forall k :: LastBrace(s, lo, hi).value < k < hi ==> s[k] != '}'
    ensures LastBrace(s, lo, hi).None? ==> forall k :: lo <= k < hi ==> s[k] != '}'
    decreases hi - lo
  {
    if hi > lo && s[hi - 1] != '}' {
      LastBraceLast(s, lo, hi - 1);
    }
  }

  /** The closing brace of the match that starts at `p`, if one does. */
  function MatchAt(s: string, p: nat): (r: Option<nat>)
    ensures r.Some? ==> p + 2 <= r.value < |s| && s[p] == '$' && s[p + 1] == '{' && s[r.value] == '}'
  {
    if p + 2 <= |s| && s[p] == '$' && s[p + 1] == '{' then LastBrace(s, p + 2, NextDollar(s, p + 2)) else None
  }

  /**
   * A match is `${`, a group without `$`, and `}`; the star being greedy,
   * its brace is the last one before the next `$`, and there is no match
   * at `p` when no brace comes before that `$`.
   */
  lemma MatchAtGreedy(s: string, p: nat)
    requires p + 2 <= |s| && s[p] == '$' && s[p + 1] == '{'
    ensures MatchAt(s, p).Some? ==> forall k :: p + 2 <= k < MatchAt(s, p).value ==> s[k] != '$'
    ensures MatchAt(s, p).Some? ==> forall k :: MatchAt(s, p).value < k < NextDollar(s, p + 2) ==> s[k] != '}'
    ensures MatchAt(s, p).None? ==> forall k :: p + 2 <= k < NextDollar(s, p + 2) ==> s[k] != '}'
  {
    NextDollarFirst(s, p + 2);
    LastBraceLast(s, p + 2, NextDollar(s, p + 2));
  }

  /** The leftmost match at or after `from` (`Matcher.find`): its start and its closing brace. */
  function FindMatch(s: string, from: nat): (r: Option<(nat, nat)>)
    ensures r.Some? ==> from <= r.value.0 && MatchAt(s, r.value.0) == Some(r.value.1)
    decreases |s| - from
  {
    if from >= |s| then None
    else match MatchAt(s, from)
      case Some(b) => Some((from, b))
      case None => FindMatch(s, from + 1)
  }

  /** `find` gives the leftmost match: there is none before it, and none at all when it finds nothing. */
  lemma {:induction false} FindMatchLeftmost(s: string, from: nat)
    ensures FindMatch(s, from).Some? ==> forall p :: from <= p < FindMatch(s, from).value.0 ==> MatchAt(s, p).None?
    ensures FindMatch(s, from).None? ==> forall p :: from <= p ==> MatchAt(s, p).None?
    decreases |s| - from
  {
    if from < |s| && MatchAt(s, from).None? {
      FindMatchLeftmost(s, from + 1);
    }
  }

  // ---------------------------------------------------------------------
  // Java's replacement strings
  // ---------------------------------------------------------------------

  /** The number of capturing groups of the pattern. */
  const GroupCount := 3

  /** The largest group number that the digits from `j` on extend `ref` to, and where they end. */
  function GroupRef(rep: string, j: nat, ref: nat): (r: (nat, nat))
    requires j <= |rep| && ref <= GroupCount
    ensures r.0 <= GroupCount && j <= r.1 <= |rep|
    decreases |rep| - j
  {
    if j < |rep| && IsDigit(rep[j]) && ref * 10 + (rep[j] as int - '0' as int) <= GroupCount then
      GroupRef(rep, j + 1, ref * 10 + (rep[j] as int - '0' as int))
    else (ref, j)
  }

  /**
   * `rep[i..]` expanded after `acc`: `\c` stands for `c`, `$n` for group `n`
   * (the longest valid group number), other characters for themselves.
   */
  function Expand(rep: string, groups: seq<string>, i: nat, acc: string): Result<string, Exception>
    requires |groups| == GroupCount + 1 && i <= |rep|
    decreases |rep| - i
  {
    if i == |rep| then Ok(acc)
    else if rep[i] == '\\' then
      if i + 1 == |rep| then Err(IllegalArgument)
      else Expand(rep, groups, i + 2, acc + [rep[i + 1]])
    else if rep[i] == '$' then
      if i + 1 == |rep| then Err(IllegalArgument)
      else if !IsDigit(rep[i + 1]) then Err(IllegalArgument)
      else
        var first := rep[i + 1] as int - '0' as int;
        if first > GroupCount then Err(IndexOutOfBounds)
        else
          var (ref, j) := GroupRef(rep, i + 2, first);
          Expand(rep, groups, j, acc + groups[ref])
    else Expand(rep, groups, i + 1, acc + [rep[i]])
  }

  /** A value without `\` or `$` stands for itself. */
  lemma {:induction false} ExpandPlain(rep: string, groups: seq<string>, i: nat, acc: string)
    requires |groups| == GroupCount + 1 && i <= |rep|
    requires forall k :: i <= k < |rep| ==> rep[k] != '\\' && rep[k] != '$'
    ensures Expand(rep, groups, i, acc) == Ok(acc + rep[i..])
    decreases |rep| - i
  {
    if i < |rep| {
      ExpandPlain(rep, groups, i + 1, acc + [rep[i]]);
      assert rep[i..] == [rep[i]] + rep[i + 1..];
      assert acc + [rep[i]] + rep[i + 1..] == acc + rep[i..];
    } else {
      assert rep[i..] == [];
      assert acc + rep[i..] == acc;
    }
  }

  /** The groups of the match from `p` to the brace `b`: the whole match, `${`, the key, `}`. */
  function Groups(s: string, p: nat, b: nat): (r: seq<string>)
    requires p + 2 <= b < |s|
    ensures |r| == GroupCount + 1
  {
    [s[p..b + 1], "${", s[p + 2..b], "}"]
  }

  // ---------------------------------------------------------------------
  // Resolution
  // ---------------------------------------------------------------------

  /**
   * The `find` / `appendReplacement` / `appendTail` loop from search
   * position `from`: `out` holds the text appended so far and `pos` is the
   * first character not yet appended. A match with an unknown key is left
   * in place.
   */
  function ResolveWalk(s: string, props: map<string, string>, from: nat, pos: nat, out: string)
    : Result<string, Exception>
    requires pos <= from <= |s|
    decreases |s| - from
  {
    var m := FindMatch(s, from);
    if m.None? then Ok(out + s[pos..])
    else
      var p := m.value.0;
      var b := m.value.1;
      var key := s[p + 2..b];
      if key !in props then ResolveWalk(s, props, b + 1, pos, out)
      else
        var rep := Expand(props[key], Groups(s, p, b), 0, "");
        if rep.Err? then Err(rep.error)
        else ResolveWalk(s, props, b + 1, b + 1, out + s[pos..p] + rep.value)
  }

  /** One match of the walk: an unknown key is skipped, a known one replaced by its expanded value. */
  lemma ResolveWalkMatch(s: string, props: map<string, string>, from: nat, pos: nat, out: string)
    requires pos <= from <= |s| && FindMatch(s, from).Some?
    ensures var p := FindMatch(s, from).value.0;
      var b := FindMatch(s, from).value.1;
      pos <= p && p + 2 <= b < |s| &&
      ResolveWalk(s, props, from, pos, out) ==
        if s[p + 2..b] !in props then ResolveWalk(s, props, b + 1, pos, out)
        else
          var rep := Expand(props[s[p + 2..b]], Groups(s, p, b), 0, "");
          if rep.Err? then Err(rep.error) else ResolveWalk(s, props, b + 1, b + 1, out + s[pos..p] + rep.value)
  {
  }

  /** The resolved string, and whether a placeholder was found (so that it is cached). */
  function Resolved(s: string, props: map<string, string>): Result<(string, bool), Exception>
  {
    var w := ResolveWalk(s, props, 0, 0, "");
    if w.Err? then Err(w.error) else Ok((w.value, FindMatch(s, 0).Some?))
  }

  /** The properties and the resolution cache (both static in the source). */
  class Resolver {
    var props: map<string, string>
    var cache: map<string, string>

    constructor(props: map<string, string>)
      ensures this.props == props && cache == map[]
    {
      this.props := props;
      cache := map[];
    }

    /**
     * `resolve`: null stays null; a cached string gives its cached value;
     * otherwise every placeholder is resolved, and the result is cached when
     * some placeholder was found.
     */
    method Resolve(userString: Option<string>) returns (r: Result<Option<string>, Exception>)
      modifies this
      ensures props == old(props)
      ensures userString == None ==> r == Ok(None) && cache == old(cache)
      ensures userString.Some? && userString.value in old(cache) ==>
        r == Ok(Some(old(cache)[userString.value])) && cache == old(cache)
      ensures userString.Some? && userString.value !in old(cache) && Resolved(userString.value, props).Err? ==>
        r == Err(Resolved(userString.value, props).error) && cache == old(cache)
      ensures userString.Some? && userString.value !in old(cache) && Resolved(userString.value, props).Ok? ==>
        var (res, needed) := Resolved(userString.value, props).value;
        r == Ok(Some(res)) && cache == (if needed then old(cache)[userString.value := res] else old(cache))
    {
      if userString == None {
        return Ok(None);
      }
      var s := userString.value;
      if s in cache {
        return Ok(Some(cache[s]));
      }
      var w, needed := ResolveString(s, props);
      if w.Err? {
        return Err(w.error);
      }
      if needed {
        cache := cache[s := w.value];
      }
      return Ok(Some(w.value));
    }
  }

  /**
   * One pass of the matcher loop: the match found from `from` is replaced by
   * the expanded value of its key when the key is known, together with the
   * text before it; the new append position and text come back.
   */
  method ReplaceMatch(s: string, props: map<string, string>, from: nat, pos: nat, out: string)
    returns (r: Result<(nat, string), Exception>)
    requires pos <= from <= |s| && FindMatch(s, from).Some?
    ensures r.Err? ==> ResolveWalk(s, props, from, pos, out) == Err(r.error)
    ensures r.Ok? ==> pos <= r.value.0 <= FindMatch(s, from).value.1 + 1
    ensures r.Ok? ==>
              ResolveWalk(s, props, from, pos, out) ==
              ResolveWalk(s, props, FindMatch(s, from).value.1 + 1, r.value.0, r.value.1)
  {
    ResolveWalkMatch(s, props, from, pos, out);
    var (p, b) := FindMatch(s, from).value;
    var key := s[p + 2..b];
    if key !in props {
      return Ok((pos, out));
    }
    var rep := Expand(props[key], Groups(s, p, b), 0, "");
    if rep.Err? {
      return Err(rep.error);
    }
    return Ok((b + 1, out + s[pos..p] + rep.value));
  }

  /**
   * The matcher loop of `resolve`: every match is replaced by the expanded
   * value of its key when the key is known, and `needed` records whether
   * any match was found.
   */
  method ResolveString(s: string, props: map<string, string>) returns (w: Result<string, Exception>, needed: bool)
    ensures w.Err? <==> Resolved(s, props).Err?
    ensures w.Err? ==> w.error == Resolved(s, props).error
    ensures w.Ok? ==> Resolved(s, props).value == (w.value, needed)
  {
    needed := false;
    var out := "";
    var pos: nat := 0;
    var from: nat := 0;
    ghost var total := ResolveWalk(s, props, 0, 0, "");
    while true
      invariant pos <= from <= |s|
      invariant total == ResolveWalk(s, props, from, pos, out)
      invariant needed ==> FindMatch(s, 0).Some?
      invariant !needed ==> from == 0
      decreases |s| - from
    {
      var m := FindMatch(s, from);
      if m.None? {
        assert total == Ok(out + s[pos..]);
        assert needed <==> FindMatch(s, 0).Some?;
        break;
      }
      var (p, b) := m.value;
      needed := true;
      var next := ReplaceMatch(s, props, from, pos, out);
      if next.Err? {
        assert total == Err(next.error);
        return Err(next.error), needed;
      }
      pos := next.value.0;
      out := next.value.1;
      from := b + 1;
    }
    return Ok(out + s[pos..]), needed;
  }

  /** A string is cached after resolution exactly when it holds a match of the pattern. */
  lemma ResolvedNeeded(s: string, props: map<string, string>)
    requires Resolved(s, props).Ok?
    ensures Resolved(s, props).value.1 <==> exists p | 0 <= p < |s| :: MatchAt(s, p).Some?
  {
    FindMatchLeftmost(s, 0);
    if FindMatch(s, 0).Some? {
      assert MatchAt(s, FindMatch(s, 0).value.0).Some?;
    }
  }

  /** Every match at or after `from` has an unknown key. */
  predicate UnknownKeys(s: string, props: map<string, string>, from: nat)
  {
    forall p | from <= p < |s| && MatchAt(s, p).Some? :: s[p + 2..MatchAt(s, p).value] !in props
  }

  /** Matches whose keys are all unknown are left as written. */
  lemma {:induction false} ResolveWalkUnknown(s: string, props: map<string, string>, from: nat, pos: nat, out: string)
    requires pos <= from <= |s| && UnknownKeys(s, props, from)
    ensures ResolveWalk(s, props, from, pos, out) == Ok(out + s[pos..])
    decreases |s| - from
  {
    var m := FindMatch(s, from);
    if m.Some? {
      ResolveWalkUnknown(s, props, m.value.1 + 1, pos, out);
    }
  }

  /** A string without a known placeholder resolves to itself; it is cached exactly when it has a match. */
  lemma ResolveUnknown(s: string, props: map<string, string>)
    requires UnknownKeys(s, props, 0)
    ensures Resolved(s, props) == Ok((s, FindMatch(s, 0).Some?))
  {
    ResolveWalkUnknown(s, props, 0, 0, "");
    assert "" + s[0..] == s;
  }

  /** A key that holds neither `$` nor `}`. */
  predicate PlainKey(k: string)
  {
    forall i :: 0 <= i < |k| ==> k[i] != '$' && k[i] != '}'
  }

  /**
   * A lone placeholder `${k}` resolves to the value of a known key (when the
   * value holds neither `\` nor `$`) and stays as written for an unknown key;
   * either way it is cached.
   */
  lemma ResolvePlaceholder(k: string, props: map<string, string>)
    requires PlainKey(k)
    requires k in props ==> forall i :: 0 <= i < |props[k]| ==> props[k][i] != '\\' && props[k][i] != '$'
    ensures k in props ==> Resolved("${" + k + "}", props) == Ok((props[k], true))
    ensures k !in props ==> Resolved("${" + k + "}", props) == Ok(("${" + k + "}", true))
  {
    var s := "${" + k + "}";
    var b := |s| - 1;
    PlaceholderMatches(k);
    assert s[2..b] == k;
    if k in props {
      ExpandPlain(props[k], Groups(s, 0, b), 0, "");
      assert props[k][0..] == props[k];
      var out := "" + s[0..0] + props[k];
      assert out == props[k];
      assert ResolveWalk(s, props, 0, 0, "") == ResolveWalk(s, props, b + 1, b + 1, out);
      assert s[b + 1..] == [];
      assert out + s[b + 1..] == props[k];
    } else {
      assert ResolveWalk(s, props, 0, 0, "") == ResolveWalk(s, props, b + 1, 0, "");
      assert "" + s[0..] == s;
    }
  }

  /** The only match of `${k}` is the whole string. */
  lemma PlaceholderMatches(k: string)
    requires PlainKey(k)
    ensures FindMatch("${" + k + "}", 0).Some?
    ensures FindMatch("${" + k + "}", 0).value.0 == 0 && FindMatch("${" + k + "}", 0).value.1 == |k| + 2
    ensures FindMatch("${" + k + "}", |k| + 3).None?
  {
    var s := "${" + k + "}";
    var b := |s| - 1;
    assert NextDollar(s, 2) == |s| by {
      assert forall i :: 2 <= i < |s| ==> s[i] == (k + "}")[i - 2];
    }
    assert LastBrace(s, 2, |s|) == Some(b);
    assert FindMatch(s, 0) == Some((0, b));
  }
}
