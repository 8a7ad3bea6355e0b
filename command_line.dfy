/**
 * The command-line front end (`CommandLineParser`): the argument vector is
 * cut at every "--" into commands, each handed to the option parser on its
 * own. Before parsing, a first argument that is neither a command name nor
 * already an `@file` reference, and that names an existing file, is turned
 * into an `@file` reference so that the options are read from that file.
 *
 * The option parser itself (JCommander) and the commands it runs are not
 * modelled: the parser records the argument arrays it was handed. The file
 * system is the set of paths that exist.
 */
module CommandLine {
  import opened Types
  import opened Strings

  /** The argument that separates two commands. */
  const Separator: string := "--"

  /** The names of the two commands the option parser knows. */
  const Commands: set<string> := {"state-fuzzer-client", "state-fuzzer-server"}

  /** The position of the first separator at or after `from`, or `|args|` when there is none. */
  function NextSeparator(args: seq<string>, from: nat): (r: nat)
    requires from <= |args|
    ensures from <= r <= |args|
    ensures r < |args| ==> args[r] == Separator
    decreases |args| - from
  {
    if from == |args| || args[from] == Separator then from else NextSeparator(args, from + 1)
  }

  /** No separator lies between `from` and the one found. */
  lemma {:induction false} NextSeparatorFirst(args: seq<string>, from: nat)
    requires from <= |args|
    ensures forall k :: from <= k < NextSeparator(args, from) ==> args[k] != Separator
    decreases |args| - from
  {
    if from < |args| && args[from] != Separator {
      NextSeparatorFirst(args, from + 1);
    }
  }

  /** The commands of `args` from position `end` on: each runs up to the next separator, which is skipped. */
  function SegmentsFrom(args: seq<string>, end: nat): seq<seq<string>>
    decreases |args| - end
  {
    if end >= |args| then []
    else
      var e := NextSeparator(args, end);
      [args[end..e]] + SegmentsFrom(args, e + 1)
  }

  /** `parse`: the argument arrays handed to `processCommand`; an empty vector is handed on once, as it is. */
  function Segments(args: seq<string>): seq<seq<string>>
  {
    if args == [] then [[]] else SegmentsFrom(args, 0)
  }

  /** The separator that a vector ending in "--" carries after its last command. */
  function Trail(args: seq<string>): seq<string>
  {
    if args != [] && args[|args| - 1] == Separator then [Separator] else []
  }

  /** No command contains a separator. */
  lemma {:induction false} SegmentsFromFree(args: seq<string>, end: nat)
    ensures forall i, j :: 0 <= i < |SegmentsFrom(args, end)| && 0 <= j < |SegmentsFrom(args, end)[i]| ==> SegmentsFrom(args, end)[i][j] != Separator
    decreases |args| - end
  {
    if end < |args| {
      var e := NextSeparator(args, end);
      NextSeparatorFirst(args, end);
      SegmentsFromFree(args, e + 1);
      var r := SegmentsFrom(args, end);
      assert r == [args[end..e]] + SegmentsFrom(args, e + 1);
      forall i, j | 0 <= i < |r| && 0 <= j < |r[i]|
        ensures r[i][j] != Separator
      {
        if i == 0 {
          assert r[0][j] == args[end + j];
        } else {
          assert r[i] == SegmentsFrom(args, e + 1)[i - 1];
        }
      }
    }
  }

  lemma SegmentsFree(args: seq<string>)
    ensures forall i, j :: 0 <= i < |Segments(args)| && 0 <= j < |Segments(args)[i]| ==> Segments(args)[i][j] != Separator
  {
    SegmentsFromFree(args, 0);
  }

  /** Gluing the commands back together with separators gives the suffix of `args` from `end`, up to a trailing separator. */
  lemma {:induction false} JoinSegmentsFrom(args: seq<string>, end: nat)
    requires end < |args|
    ensures JoinWith(SegmentsFrom(args, end), Separator) + Trail(args) == args[end..]
    decreases |args| - end
  {
    var e := NextSeparator(args, end);
    if e == |args| {
      JoinLastSegment(args, end);
    } else if e + 1 == |args| {
      JoinBeforeTrail(args, end);
    } else {
      JoinSegmentsFrom(args, e + 1);
      JoinSegmentStep(args, end);
    }
  }

  /** The last command, not followed by a separator, is the whole rest of the vector. */
  lemma JoinLastSegment(args: seq<string>, end: nat)
    requires end < |args| && NextSeparator(args, end) == |args|
    ensures JoinWith(SegmentsFrom(args, end), Separator) + Trail(args) == args[end..]
  {
    NextSeparatorFirst(args, end);
    assert args[|args| - 1] != Separator;
    assert Trail(args) == [];
    var e := NextSeparator(args, end);
    var segs := SegmentsFrom(args, end);
    assert segs == [args[end..e]] + SegmentsFrom(args, e + 1);
    assert SegmentsFrom(args, e + 1) == [];
    assert segs == [args[end..e]];
    assert args[end..e] == args[end..];
  }

  /** The last command, followed by the final separator. */
  lemma JoinBeforeTrail(args: seq<string>, end: nat)
    requires end < |args| && NextSeparator(args, end) + 1 == |args|
    ensures JoinWith(SegmentsFrom(args, end), Separator) + Trail(args) == args[end..]
  {
    var e := NextSeparator(args, end);
    assert Trail(args) == [Separator];
    var segs := SegmentsFrom(args, end);
    assert SegmentsFrom(args, e + 1) == [];
    assert segs == [args[end..e]];
    assert args[end..] == args[end..e] + [Separator];
  }

  /** A command followed by more commands: it, a separator, and the glued rest. */
  lemma JoinSegmentStep(args: seq<string>, end: nat)
    requires end < |args| && NextSeparator(args, end) + 1 < |args|
    requires JoinWith(SegmentsFrom(args, NextSeparator(args, end) + 1), Separator) + Trail(args) == args[NextSeparator(args, end) + 1..]
    ensures JoinWith(SegmentsFrom(args, end), Separator) + Trail(args) == args[end..]
  {
    var e := NextSeparator(args, end);
    var rest := SegmentsFrom(args, e + 1);
    var segs := SegmentsFrom(args, end);
    var x := args[end..e];
    var tail := args[e + 1..];
    assert segs == [x] + rest by { SegmentsFromFirst(args, end); }
    assert rest != [] by { SegmentsFromNonEmpty(args, e + 1); }
    assert args[end..] == x + [Separator] + tail by { SplitAtSeparator(args, end, e); }
    JoinCons(segs, x, rest, Trail(args), tail);
  }

  /** The first command from `end` runs up to the next separator. */
  lemma SegmentsFromFirst(args: seq<string>, end: nat)
    requires end < |args|
    ensures SegmentsFrom(args, end) == [args[end..NextSeparator(args, end)]] + SegmentsFrom(args, NextSeparator(args, end) + 1)
  {
  }

  /** Before the end there is always one more command. */
  lemma SegmentsFromNonEmpty(args: seq<string>, end: nat)
    requires end < |args|
    ensures SegmentsFrom(args, end) != []
  {
  }

  /** Gluing a command in front of glued commands puts one separator between them. */
  lemma JoinCons(segs: seq<seq<string>>, x: seq<string>, rest: seq<seq<string>>, t: seq<string>, tail: seq<string>)
    requires segs == [x] + rest && rest != [] && JoinWith(rest, Separator) + t == tail
    ensures JoinWith(segs, Separator) + t == x + [Separator] + tail
  {
    assert segs[1..] == rest;
  }

  /** A vector with a separator at position `e` is the part before it, the separator and the part after. */
  lemma SplitAtSeparator(args: seq<string>, end: nat, e: nat)
    requires end <= e < |args| && args[e] == Separator
    ensures args[end..] == args[end..e] + [Separator] + args[e + 1..]
  {
  }

  /**
   * The commands are exactly the maximal runs between separators: glued back
   * with "--" they give the argument vector, apart from a final "--".
   */
  lemma JoinSegments(args: seq<string>)
    ensures JoinWith(Segments(args), Separator) + Trail(args) == args
  {
    if args != [] {
      JoinSegmentsFrom(args, 0);
    }
  }

  /** A vector that starts with "--" starts with an empty command. */
  lemma LeadingSeparator(args: seq<string>)
    requires args != [] && args[0] == Separator
    ensures Segments(args)[0] == []
  {
  }

  lemma {:induction false} NextSeparatorExtend(args: seq<string>, from: nat)
    requires from <= |args|
    ensures NextSeparator(args + [Separator], from) == NextSeparator(args, from)
    decreases |args| - from
  {
    if from < |args| && args[from] != Separator {
      NextSeparatorExtend(args, from + 1);
    }
  }

  lemma {:induction false} TrailingSeparatorFrom(args: seq<string>, end: nat)
    requires args != [] && args[|args| - 1] != Separator && end < |args|
    ensures SegmentsFrom(args + [Separator], end) == SegmentsFrom(args, end)
    decreases |args| - end
  {
    var e := NextSeparator(args, end);
    ExtendedFirst(args, end);
    SegmentsFromFirst(args, end);
    if e < |args| {
      TrailingSeparatorFrom(args, e + 1);
    } else {
      assert SegmentsFrom(args + [Separator], e + 1) == [];
    }
  }

  /** With a "--" appended, the first command from `end` is the same as without it. */
  lemma ExtendedFirst(args: seq<string>, end: nat)
    requires end < |args|
    ensures var e := NextSeparator(args, end);
            SegmentsFrom(args + [Separator], end) == [args[end..e]] + SegmentsFrom(args + [Separator], e + 1)
  {
    var ext := args + [Separator];
    var e := NextSeparator(args, end);
    NextSeparatorExtend(args, end);
    SegmentsFromFirst(ext, end);
    assert ext[end..e] == args[end..e];
  }

  /** A "--" after a last, non-empty-ended vector adds no command. */
  lemma TrailingSeparator(args: seq<string>)
    requires args != [] && args[|args| - 1] != Separator
    ensures Segments(args + [Separator]) == Segments(args)
  {
    TrailingSeparatorFrom(args, 0);
  }

  /** Whether `processCommand` reads its options from the file named by the first argument. */
  predicate IsArgumentFile(first: string, files: set<string>)
  {
    first !in Commands && !StartsWith(first, "@") && first in files
  }

  /** The arguments after the argument-file rule: only the first may change, by an '@' prefix. */
  function WithArgumentFile(args: seq<string>, files: set<string>): (r: seq<string>)
    ensures |r| == |args|
    ensures args != [] ==> r[1..] == args[1..]
    ensures args != [] ==> (r[0] == "@" + args[0] <==> IsArgumentFile(args[0], files))
    ensures args != [] && !IsArgumentFile(args[0], files) ==> r == args
  {
    if args != [] && IsArgumentFile(args[0], files) then args[0 := "@" + args[0]] else args
  }

  /** Applying the rule to its own result changes nothing: the new first argument starts with '@'. */
  lemma ArgumentFileIdempotent(args: seq<string>, files: set<string>)
    ensures WithArgumentFile(WithArgumentFile(args, files), files) == WithArgumentFile(args, files)
  {
    var r := WithArgumentFile(args, files);
    if args != [] && IsArgumentFile(args[0], files) {
      assert StartsWith(r[0], "@") by {
        assert r[0][..1] == "@";
      }
    }
  }

  /** The argument arrays the option parser sees, one per command. */
  function Prepared(segs: seq<seq<string>>, files: set<string>): (r: seq<seq<string>>)
    ensures |r| == |segs|
    decreases |segs|
  {
    if segs == [] then [] else [WithArgumentFile(segs[0], files)] + Prepared(segs[1..], files)
  }

  /** One step of the walk: the command starting at `start` is prepared first. */
  lemma PreparedStep(args: seq<string>, start: nat, files: set<string>)
    requires start < |args|
    ensures Prepared(SegmentsFrom(args, start), files)
      == [WithArgumentFile(args[start..NextSeparator(args, start)], files)] + Prepared(SegmentsFrom(args, NextSeparator(args, start) + 1), files)
  {
    var segs := SegmentsFrom(args, start);
    assert segs[1..] == SegmentsFrom(args, NextSeparator(args, start) + 1);
  }

  /** Moving the first pending command over to the handled ones keeps the whole. */
  lemma ShiftOne(total: seq<seq<string>>, done: seq<seq<string>>, x: seq<string>, rest: seq<seq<string>>)
    requires total == done + ([x] + rest)
    ensures total == (done + [x]) + rest
  {
  }

  class CommandLineParser {
    /** The paths that exist in the file system. */
    const files: set<string>
    /** The argument arrays handed to the option parser, in order. */
    var parsed: seq<seq<string>>

    constructor(files: set<string>)
      ensures this.files == files && parsed == []
    {
      this.files := files;
      parsed := [];
    }

    /** `processCommand`: the argument-file rule rewrites `args[0]` in place before the option parser runs. */
    method ProcessCommand(args: array<string>)
      modifies this, args
      ensures args[..] == WithArgumentFile(old(args[..]), files)
      ensures parsed == old(parsed) + [args[..]]
    {
      if args.Length > 0 && args[0] !in Commands && !StartsWith(args[0], "@") && args[0] in files {
        args[0] := "@" + args[0];
      }
      parsed := parsed + [args[..]];
    }

    /** `Arrays.copyOfRange`: a fresh array holding `args[from..to]`. */
    static method CopyOfRange(args: seq<string>, from: nat, to: nat) returns (a: array<string>)
      requires from <= to <= |args|
      ensures fresh(a) && a[..] == args[from..to]
    {
      a := new string[to - from](i => if 0 <= from + i < |args| then args[from + i] else "");
    }

    /** The inner loop of `parse`: `endCmd` advances to the next separator or the end. */
    static method ScanCommand(args: seq<string>, startCmd: nat) returns (endCmd: nat)
      requires startCmd <= |args|
      ensures endCmd == NextSeparator(args, startCmd)
    {
      endCmd := startCmd;
      while |args| > endCmd && args[endCmd] != Separator
        invariant startCmd <= endCmd <= |args|
        invariant forall k :: startCmd <= k < endCmd ==> args[k] != Separator
      {
        endCmd := endCmd + 1;
      }
      NextSeparatorFirst(args, startCmd);
    }

    /** One pass of the loop of `parse`: the command from `startCmd` is copied out and processed. */
    method ParseCommand(args: seq<string>, startCmd: nat) returns (endCmd: nat)
      requires startCmd <= |args|
      modifies this
      ensures endCmd == NextSeparator(args, startCmd)
      ensures parsed == old(parsed) + [WithArgumentFile(args[startCmd..endCmd], files)]
    {
      endCmd := ScanCommand(args, startCmd);
      var cmdArgs := CopyOfRange(args, startCmd, endCmd);
      ProcessCommand(cmdArgs);
    }

    /** `parse`: each command, copied out of `args`, goes through `processCommand` in order. */
    method Parse(args: seq<string>)
      modifies this
      ensures parsed == old(parsed) + Prepared(Segments(args), files)
    {
      var endCmd := 0;
      if |args| == 0 {
        var empty := new string[0];
        ProcessCommand(empty);
        assert empty[..] == [];
      }
      while |args| > endCmd
        invariant endCmd <= |args| + 1
        invariant old(parsed) + Prepared(Segments(args), files) == parsed + Prepared(SegmentsFrom(args, endCmd), files)
        decreases |args| + 1 - endCmd
      {
        var startCmd := endCmd;
        ghost var before := parsed;
        endCmd := ParseCommand(args, startCmd);
        PreparedStep(args, startCmd, files);
        ShiftOne(old(parsed) + Prepared(Segments(args), files), before, WithArgumentFile(args[startCmd..endCmd], files),
          Prepared(SegmentsFrom(args, endCmd + 1), files));
        endCmd := endCmd + 1;
      }
    }
  }
}
