/**
 * Text operations of the Java and Python standard libraries that the modelled
 * code relies on: splitting, joining, stripping and integer parsing.
 * Strings are sequences of characters; no Unicode normalisation is modelled.
 */
module Strings {
  import opened Types

  // ---------------------------------------------------------------------
  // Splitting a sequence at a separator element
  // ---------------------------------------------------------------------

  /** The pieces of `s` between the occurrences of the element `sep`, in order. */
  function SplitAt<T(==)>(s: seq<T>, sep: T): (r: seq<seq<T>>)
    ensures |r| >= 1
    decreases |s|
  {
    if |s| == 0 then [[]]
    else
      var rest := SplitAt(s[1..], sep);
      if s[0] == sep then [[]] + rest
      else [[s[0]] + rest[0]] + rest[1..]
  }

  /** The inverse of `SplitAt`: the pieces glued back together with `sep` between them. */
  function JoinWith<T>(parts: seq<seq<T>>, sep: T): seq<T>
  {
    if |parts| == 0 then []
    else if |parts| == 1 then parts[0]
    else parts[0] + [sep] + JoinWith(parts[1..], sep)
  }

  lemma {:induction false} JoinSplitAt<T>(s: seq<T>, sep: T)
    ensures JoinWith(SplitAt(s, sep), sep) == s
    decreases |s|
  {
    if |s| > 0 {
      var rest := SplitAt(s[1..], sep);
      JoinSplitAt(s[1..], sep);
      if s[0] == sep {
        assert SplitAt(s, sep) == [[]] + rest;
        assert ([[]] + rest)[1..] == rest;
        assert s == [] + [sep] + s[1..];
      } else {
        if |rest| == 1 {
          assert JoinWith(rest, sep) == rest[0];
        } else {
          assert JoinWith(rest, sep) == rest[0] + [sep] + JoinWith(rest[1..], sep);
          assert ([[s[0]] + rest[0]] + rest[1..])[1..] == rest[1..];
        }
        assert s == [s[0]] + s[1..];
      }
    }
  }

  /** The number of occurrences of `x` in `s`. */
  function Count<T(==)>(s: seq<T>, x: T): nat
  {
    if |s| == 0 then 0 else (if s[0] == x then 1 else 0) + Count(s[1..], x)
  }

  /** No piece contains the separator, and there is one piece more than there are separators. */
  lemma {:induction false} SplitAtPieces<T>(s: seq<T>, sep: T)
    ensures forall i, j :: 0 <= i < |SplitAt(s, sep)| && 0 <= j < |SplitAt(s, sep)[i]| ==> SplitAt(s, sep)[i][j] != sep
    ensures |SplitAt(s, sep)| == 1 + Count(s, sep)
    decreases |s|
  {
    if |s| > 0 {
      SplitAtPieces(s[1..], sep);
      var rest := SplitAt(s[1..], sep);
      if s[0] != sep {
        var r := [[s[0]] + rest[0]] + rest[1..];
        assert SplitAt(s, sep) == r;
        forall i, j | 0 <= i < |r| && 0 <= j < |r[i]|
          ensures r[i][j] != sep
        {
          if i == 0 {
            if j > 0 { assert r[0][j] == rest[0][j - 1]; }
          } else {
            assert r[i] == rest[i];
          }
        }
      }
    }
  }

  /** `s` split at `sep` with every trailing empty piece dropped. */
  function DropTrailingEmpty<T>(parts: seq<seq<T>>): (r: seq<seq<T>>)
    ensures |r| <= |parts| && r == parts[..|r|]
    ensures |r| > 0 ==> r[|r| - 1] != []
    ensures forall i :: |r| <= i < |parts| ==> parts[i] == []
  {
    if |parts| == 0 then []
    else if parts[|parts| - 1] == [] then DropTrailingEmpty(parts[..|parts| - 1])
    else parts
  }

  /**
   * Java's `String.split` with a one-character literal pattern: without any
   * occurrence the result is the whole input; otherwise the pieces with the
   * trailing empty ones removed.
   */
  function JavaSplit(s: string, sep: char): (r: seq<string>)
    ensures sep !in s ==> r == [s]
    ensures sep in s ==> r == DropTrailingEmpty(SplitAt(s, sep))
  {
    if sep !in s then [s] else DropTrailingEmpty(SplitAt(s, sep))
  }

  lemma SplitAtWithout<T>(s: seq<T>, sep: T)
    requires sep !in s
    ensures SplitAt(s, sep) == [s]
  {
    SplitAtPieces(s, sep);
    var whole := set k | 0 <= k < |s| && s[k] == sep;
    assert whole == {};
    JoinSplitAt(s, sep);
  }

  /** Splitting at the first separator: what precedes it is the first piece. */
  lemma {:induction false} SplitAfterFirst<T>(a: seq<T>, sep: T, b: seq<T>)
    requires sep !in a
    ensures SplitAt(a + [sep] + b, sep) == [a] + SplitAt(b, sep)
    decreases |a|
  {
    if |a| == 0 {
      assert a + [sep] + b == [sep] + b;
      assert ([sep] + b)[1..] == b;
    } else {
      assert (a + [sep] + b)[1..] == a[1..] + [sep] + b;
      SplitAfterFirst(a[1..], sep, b);
      assert [a[0]] + a[1..] == a;
    }
  }

  /** Splitting pieces joined with a separator they do not contain gives the pieces back. */
  lemma {:induction false} SplitJoin<T>(parts: seq<seq<T>>, sep: T)
    requires |parts| > 0
    requires forall i :: 0 <= i < |parts| ==> sep !in parts[i]
    ensures SplitAt(JoinWith(parts, sep), sep) == parts
    decreases |parts|
  {
    if |parts| == 1 {
      SplitAtWithout(parts[0], sep);
    } else {
      SplitJoin(parts[1..], sep);
      Regroup(parts[0], [sep], JoinWith(parts[1..], sep));
      SplitAfterFirst(parts[0], sep, JoinWith(parts[1..], sep));
      assert [parts[0]] + parts[1..] == parts;
    }
  }

  /** `String.split` undoes joining when no piece holds the separator and the last piece is not empty. */
  lemma JavaSplitJoin(parts: seq<string>, sep: char)
    requires |parts| > 0 && parts[|parts| - 1] != []
    requires forall i :: 0 <= i < |parts| ==> sep !in parts[i]
    ensures JavaSplit(JoinWith(parts, sep), sep) == parts
  {
    var s := JoinWith(parts, sep);
    SplitJoin(parts, sep);
    if sep in s {
      assert DropTrailingEmpty(parts) == parts;
    } else {
      SplitAtWithout(s, sep);
    }
  }

  // ---------------------------------------------------------------------
  // Substrings
  // ---------------------------------------------------------------------

  predicate OccursAt(s: string, sub: string, j: int)
  {
    0 <= j && j + |sub| <= |s| && s[j..j + |sub|] == sub
  }

  predicate Contains(s: string, sub: string)
  {
    exists j | 0 <= j <= |s| :: OccursAt(s, sub, j)
  }

  predicate StartsWith(s: string, prefix: string)
  {
    |prefix| <= |s| && s[..|prefix|] == prefix
  }

  /** The leftmost occurrence of `sub` in `s` at or after `from` (Java's `indexOf`). */
  function Find(s: string, sub: string, from: nat): (r: Option<nat>)
    ensures r.Some? ==> from <= r.value && OccursAt(s, sub, r.value)
    ensures r.Some? ==> forall j :: from <= j < r.value ==> !OccursAt(s, sub, j)
    ensures r.None? ==> forall j :: from <= j ==> !OccursAt(s, sub, j)
    decreases |s| - from
  {
    if from + |sub| > |s| then None
    else if s[from..from + |sub|] == sub then Some(from)
    else Find(s, sub, from + 1)
  }

  /** Python's `str.split(sep)` for a non-empty separator. */
  function Split(s: string, sep: string): (r: seq<string>)
    requires sep != ""
    ensures |r| >= 1
    decreases |s|
  {
    match Find(s, sep, 0)
    case None => [s]
    case Some(k) => [s[..k]] + Split(s[k + |sep|..], sep)
  }

  /** Python's `sep.join(parts)`. */
  function Join(parts: seq<string>, sep: string): string
  {
    if |parts| == 0 then ""
    else if |parts| == 1 then parts[0]
    else parts[0] + sep + Join(parts[1..], sep)
  }

  lemma {:induction false} JoinSplit(s: string, sep: string)
    requires sep != ""
    ensures Join(Split(s, sep), sep) == s
    decreases |s|
  {
    match Find(s, sep, 0)
    case None =>
    case Some(k) =>
      JoinSplit(s[k + |sep|..], sep);
      JoinSplitStep(s, sep, k);
  }

  lemma JoinSplitStep(s: string, sep: string, k: nat)
    requires sep != "" && Find(s, sep, 0) == Some(k)
    requires Join(Split(s[k + |sep|..], sep), sep) == s[k + |sep|..]
    ensures Join(Split(s, sep), sep) == s
  {
    var tail := s[k + |sep|..];
    var rest := Split(tail, sep);
    assert Split(s, sep) == [s[..k]] + rest;
    JoinCons(s[..k], rest, sep);
    assert OccursAt(s, sep, k);
    SplitAround(s, k, |sep|);
  }

  lemma SplitAround(s: string, k: nat, n: nat)
    requires k + n <= |s|
    ensures s == s[..k] + s[k..k + n] + s[k + n..]
  {
  }

  lemma JoinCons(a: string, rest: seq<string>, sep: string)
    requires |rest| >= 1
    ensures Join([a] + rest, sep) == a + sep + Join(rest, sep)
  {
    assert ([a] + rest)[1..] == rest;
  }

  /** No piece of a split contains the separator. */
  lemma {:induction false} SplitPiecesFree(s: string, sep: string)
    requires sep != ""
    ensures forall i :: 0 <= i < |Split(s, sep)| ==> !Contains(Split(s, sep)[i], sep)
    decreases |s|
  {
    match Find(s, sep, 0)
    case None =>
      NoOccurrencePrefix(s, sep, |s|);
    case Some(k) =>
      var tail := s[k + |sep|..];
      SplitPiecesFree(tail, sep);
      NoOccurrencePrefix(s, sep, k);
      var r := Split(s, sep);
      assert r == [s[..k]] + Split(tail, sep);
      forall i | 0 <= i < |r|
        ensures !Contains(r[i], sep)
      {
        if i > 0 { assert r[i] == Split(tail, sep)[i - 1]; }
      }
  }

  /** If `sub` occurs nowhere in `s` before position `k` (as a whole occurrence), the prefix `s[..k]` does not contain it. */
  lemma NoOccurrencePrefix(s: string, sub: string, k: nat)
    requires sub != "" && k <= |s|
    requires forall j :: 0 <= j < k ==> !OccursAt(s, sub, j)
    ensures !Contains(s[..k], sub)
  {
    forall j | 0 <= j <= k
      ensures !OccursAt(s[..k], sub, j)
    {
      if j + |sub| <= k {
        assert s[..k][j..j + |sub|] == s[j..j + |sub|];
        assert !OccursAt(s, sub, j);
      }
    }
  }

  lemma SplitWithout(s: string, sep: string)
    requires sep != "" && !Contains(s, sep)
    ensures Split(s, sep) == [s]
  {
    FindAbsent(s, sep, 0);
  }

  lemma {:induction false} FindAbsent(s: string, sub: string, from: nat)
    requires forall j | from <= j <= |s| :: !OccursAt(s, sub, j)
    ensures Find(s, sub, from) == None
    decreases |s| - from
  {
    if from + |sub| <= |s| {
      assert !OccursAt(s, sub, from);
      FindAbsent(s, sub, from + 1);
    }
  }

  lemma SplitTwo(a: string, sep: string, b: string)
    requires sep != "" && !Contains(a, sep) && !Contains(b, sep)
    requires !Contains(a + sep[..|sep| - 1], sep)
    ensures Split(a + sep + b, sep) == [a, b]
  {
    var s := a + sep + b;
    assert OccursAt(s, sep, |a|) by { assert s[|a|..|a| + |sep|] == sep; }
    forall j | 0 <= j < |a|
      ensures !OccursAt(s, sep, j)
    {
      if OccursAt(s, sep, j) {
        // an occurrence starting inside `a` ends inside a + sep[..|sep|-1]
        var t := a + sep[..|sep| - 1];
        assert j + |sep| <= |t|;
        assert t[j..j + |sep|] == s[j..j + |sep|];
        assert OccursAt(t, sep, j);
      }
    }
    assert Find(s, sep, 0) == Some(|a|) by {
      FindFirst(s, sep, 0, |a|);
    }
    assert s[..|a|] == a;
    assert s[|a| + |sep|..] == b;
    SplitWithout(b, sep);
  }

  lemma {:induction false} FindFirst(s: string, sub: string, from: nat, k: nat)
    requires from <= k && OccursAt(s, sub, k)
    requires forall j :: from <= j < k ==> !OccursAt(s, sub, j)
    ensures Find(s, sub, from) == Some(k)
    decreases k - from
  {
    if from < k {
      assert !OccursAt(s, sub, from);
      FindFirst(s, sub, from + 1, k);
    }
  }

  // ---------------------------------------------------------------------
  // Stripping
  // ---------------------------------------------------------------------

  /** The characters Python's argument-less `strip()` removes (the ASCII ones). */
  const Whitespace: set<char> := {' ', '\t', '\n', '\r', '\U{000B}', '\U{000C}'}

  function LStrip(s: string, chars: set<char>): (r: string)
    ensures |r| <= |s| && r == s[|s| - |r|..]
    ensures r == [] || r[0] !in chars
  {
    if |s| > 0 && s[0] in chars then LStrip(s[1..], chars) else s
  }

  /** Everything `LStrip` removes is one of the characters. */
  lemma {:induction false} LStripRemoved(s: string, chars: set<char>)
    ensures forall i :: 0 <= i < |s| - |LStrip(s, chars)| ==> s[i] in chars
    decreases |s|
  {
    if |s| > 0 && s[0] in chars {
      LStripRemoved(s[1..], chars);
    }
  }

  function RStrip(s: string, chars: set<char>): (r: string)
    ensures |r| <= |s| && r == s[..|r|]
    ensures r == [] || r[|r| - 1] !in chars
  {
    if |s| > 0 && s[|s| - 1] in chars then RStrip(s[..|s| - 1], chars) else s
  }

  /** Everything `RStrip` removes is one of the characters. */
  lemma {:induction false} RStripRemoved(s: string, chars: set<char>)
    ensures forall i :: |RStrip(s, chars)| <= i < |s| ==> s[i] in chars
    decreases |s|
  {
    if |s| > 0 && s[|s| - 1] in chars {
      RStripRemoved(s[..|s| - 1], chars);
    }
  }

  /** Python's `s.strip(chars)`. */
  function Strip(s: string, chars: set<char>): (r: string)
    ensures |r| <= |s|
    ensures r == [] || (r[0] !in chars && r[|r| - 1] !in chars)
  {
    RStrip(LStrip(s, chars), chars)
  }

  lemma StripNoop(s: string, chars: set<char>)
    requires s == [] || (s[0] !in chars && s[|s| - 1] !in chars)
    ensures Strip(s, chars) == s
  {
  }

  // ---------------------------------------------------------------------
  // Decimal integers
  // ---------------------------------------------------------------------

  predicate IsDigit(c: char) { '0' <= c <= '9' }

  function DigitsValue(s: string): (r: nat)
    requires forall i :: 0 <= i < |s| ==> IsDigit(s[i])
  {
    if |s| == 0 then 0
    else
      assert IsDigit(s[|s| - 1]);
      DigitsValue(s[..|s| - 1]) * 10 + (s[|s| - 1] as int - '0' as int)
  }

  /**
   * Java's `Integer.parseInt` (and `Integer.valueOf`): an optional sign and
   * at least one ASCII digit, with a value in the 32-bit range; anything else
   * raises a `NumberFormatException`.
   */
  function ParseInt(s: string): (r: Result<int, Exception>)
    ensures r.Ok? ==> IsInt32(r.value)
    ensures r.Err? ==> r.error == NumberFormat
  {
    var neg := |s| > 0 && s[0] == '-';
    var digits := if |s| > 0 && (s[0] == '-' || s[0] == '+') then s[1..] else s;
    if |digits| == 0 || exists i :: 0 <= i < |digits| && !IsDigit(digits[i]) then Err(NumberFormat)
    else
      var v: int := if neg then -(DigitsValue(digits) as int) else DigitsValue(digits);
      if IsInt32(v) then Ok(v) else Err(NumberFormat)
  }

  /** The decimal digits of a natural number (Java's `Integer.toString` for non-negative values). */
  function Decimal(n: nat): (r: string)
    ensures |r| >= 1 && forall i :: 0 <= i < |r| ==> IsDigit(r[i])
    ensures DigitsValue(r) == n
  {
    if n < 10 then
      var r := [('0' as int + n) as char];
      assert r[..0] == [];
      r
    else
      var p := Decimal(n / 10);
      var r := p + [('0' as int + n % 10) as char];
      assert r[..|r| - 1] == p;
      r
  }

  /** Java's `Integer.toString` (and string concatenation of an `int`). */
  function IntToString(v: int): (r: string)
    ensures |r| >= 1
    ensures v >= 0 ==> ParseInt(r) == Ok(v) || !IsInt32(v)
  {
    if v >= 0 then Decimal(v) else "-" + Decimal(-v)
  }

  lemma ParseDecimal(n: nat)
    requires n <= INT32_MAX
    ensures ParseInt(Decimal(n)) == Ok(n)
  {
  }

  /** ASCII upper-casing, as `String.toUpperCase` does on ASCII letters. */
  function ToUpper(s: string): (r: string)
    ensures |r| == |s|
    ensures forall i :: 0 <= i < |s| ==> r[i] == (if 'a' <= s[i] <= 'z' then (s[i] as int - 32) as char else s[i])
  {
    if |s| == 0 then "" else [if 'a' <= s[0] <= 'z' then (s[0] as int - 32) as char else s[0]] + ToUpper(s[1..])
  }

  /** Concatenation regrouped; stated over any element type so that no element is looked into. */
  lemma Regroup<T>(done: seq<T>, piece: seq<T>, rest: seq<T>)
    ensures done + (piece + rest) == (done + piece) + rest
  {
  }
}
