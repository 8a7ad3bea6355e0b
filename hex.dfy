/**
 * Hexadecimal text for byte strings: the lower-case rendering of
 * `Utils.bytesToHex` (two digits per byte, high nibble first) and the parser
 * `StringUtil.hex2ByteArray`, which accepts digits of either case and
 * raises on an odd length or a non-digit.
 */
module Hex {
  import opened Types

  function HexDigit(n: nat): (c: char)
    requires n < 16
  {
    if n < 10 then ('0' as int + n) as char else ('a' as int + n - 10) as char
  }

  /** The value of a hexadecimal digit of either case (`Character.digit(c, 16)`), `None` for any other character. */
  function DigitValue(c: char): (r: Option<nat>)
    ensures r.Some? ==> r.value < 16
  {
    if '0' <= c <= '9' then Some(c as int - '0' as int)
    else if 'a' <= c <= 'f' then Some(c as int - 'a' as int + 10)
    else if 'A' <= c <= 'F' then Some(c as int - 'A' as int + 10)
    else None
  }

  lemma DigitValueOfHexDigit(n: nat)
    requires n < 16
    ensures DigitValue(HexDigit(n)) == Some(n)
  {
  }

  /** The two digits of one byte. */
  function ByteHex(b: byte): (r: string)
    ensures |r| == 2
  {
    [HexDigit(b as int / 16), HexDigit(b as int % 16)]
  }

  /** `Utils.bytesToHex`: two lower-case digits per byte, in order. */
  function BytesToHex(content: seq<byte>): (r: string)
    ensures |r| == 2 * |content|
  {
    if |content| == 0 then "" else ByteHex(content[0]) + BytesToHex(content[1..])
  }

  /** The digits of byte `k` stand at positions `2k` and `2k + 1`. */
  lemma {:induction false} BytesToHexAt(content: seq<byte>, k: nat)
    requires k < |content|
    ensures BytesToHex(content)[2 * k] == ByteHex(content[k])[0]
    ensures BytesToHex(content)[2 * k + 1] == ByteHex(content[k])[1]
    decreases k
  {
    if k > 0 {
      BytesToHexAt(content[1..], k - 1);
    }
  }

  /** `StringUtil.hex2ByteArray` on a non-null string. */
  function HexToBytes(s: string): (r: Result<seq<byte>, Exception>)
    ensures r.Ok? ==> |s| == 2 * |r.value|
    ensures |s| % 2 == 1 ==> r == Err(IllegalArgument)
    decreases |s|
  {
    if |s| % 2 == 1 then Err(IllegalArgument)
    else if |s| == 0 then Ok([])
    else
      match (DigitValue(s[0]), DigitValue(s[1]))
      case (Some(hi), Some(lo)) =>
        (match HexToBytes(s[2..])
         case Ok(rest) => Ok([(hi * 16 + lo) as byte] + rest)
         case Err(e) => Err(e))
      case _ => Err(IllegalArgument)
  }

  /** Parsing the rendering of a byte string gives the byte string back. */
  lemma {:induction false} HexRoundTrip(content: seq<byte>)
    ensures HexToBytes(BytesToHex(content)) == Ok(content)
    decreases |content|
  {
    if |content| > 0 {
      var s := BytesToHex(content);
      assert s == ByteHex(content[0]) + BytesToHex(content[1..]);
      assert s[..2] == ByteHex(content[0]);
      assert s[2..] == BytesToHex(content[1..]);
      DigitValueOfHexDigit(content[0] as int / 16);
      DigitValueOfHexDigit(content[0] as int % 16);
      HexRoundTrip(content[1..]);
      assert [content[0]] + content[1..] == content;
    }
  }

  /** Every string the parser accepts is the rendering of its result, up to the case of the letters. */
  lemma {:induction false} HexToBytesLowerCase(s: string)
    requires HexToBytes(s).Ok?
    requires forall i :: 0 <= i < |s| ==> !('A' <= s[i] <= 'F')
    ensures BytesToHex(HexToBytes(s).value) == s
    decreases |s|
  {
    if |s| > 0 {
      HexToBytesLowerCase(s[2..]);
      var hi, lo := DigitValue(s[0]).value, DigitValue(s[1]).value;
      var b := (hi * 16 + lo) as byte;
      assert b as int / 16 == hi && b as int % 16 == lo;
      assert HexToBytes(s).value[1..] == HexToBytes(s[2..]).value;
      assert s == ByteHex(b) + s[2..];
    }
  }
}
