/**
 * The hex dumps the mapper logs (`EdhocUtil.byteArrayToString`): each byte as
 * two digits and a space, and in the headed form ten bytes to a line under a
 * "header (N bytes):" line.
 */
module HexPrint {
  import opened Types
  import opened Hex
  import Strings

  /** The line break written before byte `k`: before every tenth byte but the first, when wrapping. */
  function Lead(k: nat, wrap: bool): string
  {
    if wrap && k != 0 && k % 10 == 0 then "\n" else ""
  }

  /** The text one byte contributes: its line break, its digits and a space. */
  function Chunk(content: seq<byte>, k: nat, wrap: bool): string
    requires k < |content|
  {
    Lead(k, wrap) + ByteHex(content[k]) + " "
  }

  /** The text of the first `n` bytes, as the printing loop builds it. */
  function Body(content: seq<byte>, n: nat, wrap: bool): string
    requires n <= |content|
  {
    if n == 0 then "" else Body(content, n - 1, wrap) + Chunk(content, n - 1, wrap)
  }

  /** Each byte as its digits and a space. */
  function Spaced(content: seq<byte>): (r: string)
    ensures |r| == 3 * |content|
  {
    if |content| == 0 then "" else ByteHex(content[0]) + " " + Spaced(content[1..])
  }

  /** Ten bytes to a line, the lines separated by line breaks. */
  function Lines(content: seq<byte>): string
    decreases |content|
  {
    if |content| <= 10 then Spaced(content) else Spaced(content[..10]) + "\n" + Lines(content[10..])
  }

  /**
   * The digit loop of `byteArrayToString`: it walks the hex digits of the
   * content, breaking the line before every twentieth digit but the first
   * when `wrap` is set, and puts a space after every second digit.
   */
  method FormatDigits(content: seq<byte>, wrap: bool) returns (r: string)
    ensures r == Body(content, |content|, wrap)
  {
    var contentStr := BytesToHex(content);
    r := "";
    var i := 0;
    while i < 2 * |content|
      invariant 0 <= i <= 2 * |content|
      invariant r == DigitsText(contentStr, i, wrap)
    {
      ghost var before := r;
      if i != 0 && i % 20 == 0 && wrap {
        r := r + "\n";
      }
      r := r + [contentStr[i]];
      if i % 2 == 1 {
        r := r + " ";
      }
      assert r == before + DigitText(contentStr, i, wrap);
      i := i + 1;
    }
    DigitsBody(content, |content|, wrap);
  }

  /** What the loop appends for digit `i`. */
  function DigitText(digits: string, i: nat, wrap: bool): string
    requires i < |digits|
  {
    (if i != 0 && i % 20 == 0 && wrap then "\n" else "") + [digits[i]] + (if i % 2 == 1 then " " else "")
  }

  /** What the loop has built after the first `i` digits. */
  function DigitsText(digits: string, i: nat, wrap: bool): string
    requires i <= |digits|
  {
    if i == 0 then "" else DigitsText(digits, i - 1, wrap) + DigitText(digits, i - 1, wrap)
  }

  /** Two digits at a time, the loop text is the per-byte text. */
  lemma {:induction false} DigitsBody(content: seq<byte>, k: nat, wrap: bool)
    requires k <= |content|
    ensures DigitsText(BytesToHex(content), 2 * k, wrap) == Body(content, k, wrap)
  {
    if k > 0 {
      var j := k - 1;
      var digits := BytesToHex(content);
      DigitsBody(content, j, wrap);
      BytesToHexAt(content, j);
      DigitsTextTwo(digits, 2 * j, wrap);
      ByteDigits(digits, j, content[j], wrap);
      calc {
        DigitsText(digits, 2 * k, wrap);
        DigitsText(digits, 2 * j + 2, wrap);
        DigitsText(digits, 2 * j, wrap) + (DigitText(digits, 2 * j, wrap) + DigitText(digits, 2 * j + 1, wrap));
        Body(content, j, wrap) + Chunk(content, j, wrap);
        Body(content, k, wrap);
      }
    }
  }

  lemma DigitsTextTwo(digits: string, i: nat, wrap: bool)
    requires i + 2 <= |digits|
    ensures DigitsText(digits, i + 2, wrap) == DigitsText(digits, i, wrap) + (DigitText(digits, i, wrap) + DigitText(digits, i + 1, wrap))
  {
  }

  lemma ByteDigits(digits: string, j: nat, b: byte, wrap: bool)
    requires 2 * j + 2 <= |digits|
    requires digits[2 * j] == ByteHex(b)[0] && digits[2 * j + 1] == ByteHex(b)[1]
    ensures DigitText(digits, 2 * j, wrap) + DigitText(digits, 2 * j + 1, wrap) == Lead(j, wrap) + ByteHex(b) + " "
  {
    Parity(2 * j, j, false);
    Parity(2 * j + 1, j, true);
  }

  /** Where the digit index `i` stands relative to byte `k`. */
  lemma Parity(i: nat, k: nat, odd: bool)
    requires i == 2 * k + (if odd then 1 else 0)
    ensures i % 2 == (if odd then 1 else 0)
    ensures (i != 0 && i % 20 == 0) <==> (!odd && k != 0 && k % 10 == 0)
  {
  }

  /** The single-argument `byteArrayToString`: the digits with a space after every byte. */
  method ByteArrayToString(content: seq<byte>) returns (r: string)
    ensures r == Spaced(content)
  {
    r := FormatDigits(content, false);
    UnwrappedBody(content, |content|);
    assert content[..|content|] == content;
  }

  /**
   * The headed `byteArrayToString`: for a missing content "header: null",
   * otherwise the header with the byte count on its own line and the
   * digits ten bytes to a line, all between line breaks.
   */
  method ByteArrayToStringWithHeader(header: string, content: Option<seq<byte>>) returns (r: string)
    ensures content.None? ==> r == "\n" + header + ": null\n"
    ensures content.Some? ==>
              r == "\n" + header + " (" + Strings.Decimal(|content.value|) + " bytes):\n" + Lines(content.value) + "\n"
  {
    if content.None? {
      return "\n" + header + ": null\n";
    }
    var count := Strings.Decimal(|content.value|);
    var body := FormatDigits(content.value, true);
    WrappedBody(content.value);
    r := "\n" + header + " (" + count + " bytes):\n" + body + "\n";
  }

  /**
   * The older message processor's own copy of the headed form: the same text,
   * except that a missing content is dereferenced for its length and raises.
   */
  method LegacyByteArrayToString(header: string, content: Option<seq<byte>>) returns (r: Result<string, Exception>)
    ensures content.None? <==> r == Err(NullPointer)
    ensures content.Some? ==>
              r == Ok("\n" + header + " (" + Strings.Decimal(|content.value|) + " bytes):\n" + Lines(content.value) + "\n")
  {
    if content.None? {
      return Err(NullPointer);
    }
    var text := ByteArrayToStringWithHeader(header, content);
    r := Ok(text);
  }

  lemma {:induction false} UnwrappedBody(content: seq<byte>, n: nat)
    requires n <= |content|
    ensures Body(content, n, false) == Spaced(content[..n])
  {
    if n > 0 {
      UnwrappedBody(content, n - 1);
      SpacedAppend(content[..n - 1], content[n - 1]);
      assert content[..n - 1] + [content[n - 1]] == content[..n];
    }
  }

  lemma {:induction false} SpacedAppend(c: seq<byte>, b: byte)
    ensures Spaced(c + [b]) == Spaced(c) + ByteHex(b) + " "
    decreases |c|
  {
    if |c| == 0 {
      assert Spaced([b][1..]) == "";
    } else {
      assert (c + [b])[1..] == c[1..] + [b];
      SpacedAppend(c[1..], b);
    }
  }

  /** The per-byte loop text wraps exactly into lines of ten bytes. */
  lemma {:induction false} WrappedBody(content: seq<byte>)
    ensures Body(content, |content|, true) == Lines(content)
    decreases |content|
  {
    if |content| <= 10 {
      FirstLine(content, |content|);
      assert content[..|content|] == content;
    } else {
      var rest := content[10..];
      BodyAfterFirstLine(content, |content|);
      WrappedBody(rest);
      FirstLine(content, 10);
      assert Body(content, |content|, true) == Spaced(content[..10]) + "\n" + Lines(rest);
    }
  }

  /** Within the first ten bytes no line break is written. */
  lemma {:induction false} FirstLine(content: seq<byte>, n: nat)
    requires n <= |content| && n <= 10
    ensures Body(content, n, true) == Spaced(content[..n])
  {
    if n > 0 {
      FirstLine(content, n - 1);
      assert Lead(n - 1, true) == "" by {
        assert n - 1 == 0 || (n - 1) % 10 == n - 1;
      }
      assert Body(content, n, true) == Spaced(content[..n - 1]) + ByteHex(content[n - 1]) + " ";
      SpacedAppend(content[..n - 1], content[n - 1]);
      assert content[..n - 1] + [content[n - 1]] == content[..n];
    }
  }

  /** Past the first line, the text is the first line, a break, and the text of the remaining bytes. */
  lemma {:induction false} BodyAfterFirstLine(content: seq<byte>, n: nat)
    requires 10 < n <= |content|
    ensures Body(content, n, true) == Body(content, 10, true) + "\n" + Body(content[10..], n - 10, true)
  {
    if n == 11 {
      SecondLineStarts(content);
    } else {
      BodyAfterFirstLine(content, n - 1);
      LaterByte(content, n);
    }
  }

  lemma SecondLineStarts(content: seq<byte>)
    requires 10 < |content|
    ensures Body(content, 11, true) == Body(content, 10, true) + "\n" + Body(content[10..], 1, true)
  {
    var rest := content[10..];
    assert rest[0] == content[10];
    assert Lead(10, true) == "\n" && Lead(0, true) == "";
    assert Chunk(content, 10, true) == "\n" + Chunk(rest, 0, true);
    assert Body(rest, 1, true) == Chunk(rest, 0, true);
  }

  lemma LaterByte(content: seq<byte>, n: nat)
    requires 11 < n <= |content|
    requires Body(content, n - 1, true) == Body(content, 10, true) + "\n" + Body(content[10..], n - 11, true)
    ensures Body(content, n, true) == Body(content, 10, true) + "\n" + Body(content[10..], n - 10, true)
  {
    var rest := content[10..];
    assert rest[n - 11] == content[n - 1];
    assert (n - 1) % 10 == (n - 11) % 10;
    var c := Chunk(rest, n - 11, true);
    assert Chunk(content, n - 1, true) == c;
    var head, tail := Body(content, 10, true) + "\n", Body(rest, n - 11, true);
    assert Body(content, n, true) == head + tail + c;
    assert Body(rest, n - 10, true) == tail + c;
  }

  /** `s` with every character of `chars` removed. */
  function Without(s: string, chars: set<char>): string
  {
    if |s| == 0 then "" else (if s[0] in chars then "" else [s[0]]) + Without(s[1..], chars)
  }

  lemma {:induction false} WithoutAppend(a: string, b: string, chars: set<char>)
    ensures Without(a + b, chars) == Without(a, chars) + Without(b, chars)
    decreases |a|
  {
    if |a| == 0 {
      assert a + b == b;
    } else {
      assert (a + b)[1..] == a[1..] + b;
      WithoutAppend(a[1..], b, chars);
    }
  }

  /** Dropping the spaces from the one-line dump leaves the hex digits, which parse back to the content. */
  lemma {:induction false} SpacedDigits(content: seq<byte>)
    ensures Without(Spaced(content), {' ', '\n'}) == BytesToHex(content)
    ensures HexToBytes(Without(Spaced(content), {' ', '\n'})) == Ok(content)
    decreases |content|
  {
    if |content| > 0 {
      var h := ByteHex(content[0]);
      SpacedDigits(content[1..]);
      WithoutAppend(h + " ", Spaced(content[1..]), {' ', '\n'});
      WithoutAppend(h, " ", {' ', '\n'});
      assert Without(h, {' ', '\n'}) == h;
    }
    HexRoundTrip(content);
  }

  /** Dropping spaces and line breaks from the wrapped dump likewise leaves the hex digits. */
  lemma {:induction false} LinesDigits(content: seq<byte>)
    ensures Without(Lines(content), {' ', '\n'}) == BytesToHex(content)
    ensures HexToBytes(Without(Lines(content), {' ', '\n'})) == Ok(content)
    decreases |content|
  {
    if |content| <= 10 {
      SpacedDigits(content);
    } else {
      var first, rest := content[..10], content[10..];
      LinesDigits(rest);
      SpacedDigits(first);
      WithoutAppend(Spaced(first) + "\n", Lines(rest), {' ', '\n'});
      WithoutAppend(Spaced(first), "\n", {' ', '\n'});
      BytesToHexAppend(first, rest);
      assert first + rest == content;
    }
    HexRoundTrip(content);
  }

  lemma {:induction false} BytesToHexAppend(a: seq<byte>, b: seq<byte>)
    ensures BytesToHex(a + b) == BytesToHex(a) + BytesToHex(b)
    decreases |a|
  {
    if |a| == 0 {
      assert a + b == b;
    } else {
      assert (a + b)[1..] == a[1..] + b;
      BytesToHexAppend(a[1..], b);
    }
  }
}
