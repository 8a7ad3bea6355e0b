/** KEYSTREAM_2, derived whole or in parts (section 5.3.2 of RFC 9528). */
module Keystream {
  import opened Types
  import opened JavaArrays

  /** The hash algorithm of the selected cipher suite. */
  datatype HashAlg = Sha256 | Sha384 | Sha512 | OtherHash(outputSize: nat)

  function HashLength(h: HashAlg): nat
  {
    match h
    case Sha256 => 32
    case Sha384 => 48
    case Sha512 => 64
    case OtherHash(n) => n
  }

  const KDF_LABEL_KEYSTREAM_2 := 0

  /**
   * The key derivation `EDHOC_KDF(PRK_2e, label, TH_2, n)` for the fixed
   * PRK_2e and TH_2 of one session: `None` where the Java code catches an
   * exception from the crypto provider.
   */
  type Kdf = (int, nat) -> Option<seq<byte>>

  /**
   * The sizes of the parts a keystream of `length` octets is derived in, as
   * `computeKeystream2` works them out: `length / regular` parts of `regular`
   * octets, the last one replaced by the remainder, or followed by it when
   * the remainder is not zero.
   */
  function PartSizes(length: nat, regular: nat): seq<nat>
    requires regular > 0
  {
    Parts(length / regular, length % regular, regular)
  }

  /** The part sizes for a quotient `q` and a remainder `m`. */
  function Parts(q: nat, m: nat, regular: nat): seq<nat>
  {
    var numParts := q + (if m != 0 then 1 else 0);
    var lastPartSize := if m != 0 then m else regular;
    seq(numParts, i requires 0 <= i < numParts => if i == numParts - 1 then lastPartSize else regular)
  }

  function Sum(xs: seq<nat>): nat
  {
    if |xs| == 0 then 0 else xs[0] + Sum(xs[1..])
  }

  lemma {:induction false} SumAppend(a: seq<nat>, b: seq<nat>)
    ensures Sum(a + b) == Sum(a) + Sum(b)
    decreases |a|
  {
    if |a| > 0 {
      assert (a + b)[1..] == a[1..] + b;
      SumAppend(a[1..], b);
    } else {
      assert a + b == b;
    }
  }

  lemma {:induction false} SumConstant(xs: seq<nat>, c: nat)
    requires forall i :: 0 <= i < |xs| ==> xs[i] == c
    ensures Sum(xs) == |xs| * c
    decreases |xs|
  {
    if |xs| > 0 {
      SumConstant(xs[1..], c);
      assert Sum(xs) == c + (|xs| - 1) * c;
    }
  }

  /**
   * The parts cover the keystream exactly: their sizes add up to `length`,
   * every part but the last has the regular size, and the last one is not
   * empty and not larger.
   */
  lemma PartSizesCover(length: nat, regular: nat)
    requires regular > 0
    ensures var r := PartSizes(length, regular);
            Sum(r) == length &&
            (forall i :: 0 <= i < |r| - 1 ==> r[i] == regular) &&
            (|r| > 0 ==> 0 < r[|r| - 1] <= regular) &&
            (length > 0 <==> |r| > 0)
  {
    var q, m := length / regular, length % regular;
    assert length == q * regular + m;
    PartsCover(q, m, regular);
  }

  lemma PartsCover(q: nat, m: nat, regular: nat)
    requires regular > 0 && m < regular
    ensures var r := Parts(q, m, regular);
            Sum(r) == q * regular + m &&
            (forall i :: 0 <= i < |r| - 1 ==> r[i] == regular) &&
            (|r| > 0 ==> 0 < r[|r| - 1] <= regular) &&
            (q * regular + m > 0 <==> |r| > 0)
  {
    var r := Parts(q, m, regular);
    if |r| > 0 {
      SumOfParts(r, regular);
      if m == 0 {
        assert (q - 1) * regular + regular == q * regular;
      } else {
        assert q * regular >= 0;
      }
    }
  }

  /** A sum of parts all regular but the last. */
  lemma SumOfParts(r: seq<nat>, regular: nat)
    requires |r| > 0 && forall i :: 0 <= i < |r| - 1 ==> r[i] == regular
    ensures Sum(r) == (|r| - 1) * regular + r[|r| - 1]
  {
    var init := r[..|r| - 1];
    assert r == init + [r[|r| - 1]];
    SumAppend(init, [r[|r| - 1]]);
    SumConstant(init, regular);
    assert Sum([r[|r| - 1]]) == r[|r| - 1];
  }

  /**
   * The loop of `computeKeystream2` from part `i` on, with the octets `acc`
   * copied so far into a buffer of `length` zero octets: a failing derivation
   * gives `null`, a part that does not fit raises (as `System.arraycopy`
   * does), and at the end the buffer is the parts followed by the octets never written.
   */
  function DeriveFrom(kdf: Kdf, sizes: seq<nat>, i: nat, acc: seq<byte>, length: nat): Result<Option<seq<byte>>, Exception>
    requires |acc| <= length
    decreases |sizes| - i
  {
    if i >= |sizes| then Ok(Some(acc + Zeros(length - |acc|)))
    else
      match kdf(-(i as int), sizes[i])
      case None => Ok(None)
      case Some(part) =>
        if |acc| + |part| > length then Err(IndexOutOfBounds)
        else DeriveFrom(kdf, sizes, i + 1, acc + part, length)
  }

  function Zeros(n: nat): (r: seq<byte>)
    ensures |r| == n && forall i :: 0 <= i < n ==> r[i] == 0
  {
    seq(n, _ => 0)
  }

  /**
   * KEYSTREAM_2: a single derivation with label 0 when the hash is not one of
   * SHA-256/384/512 or the length is at most 255 hash lengths, otherwise the
   * parts of `PartSizes` derived with labels 0, -1, -2, ... and concatenated.
   */
  function Keystream2(hash: HashAlg, length: nat, kdf: Kdf): Result<Option<seq<byte>>, Exception>
  {
    if hash.OtherHash? || length <= 255 * HashLength(hash) then Ok(kdf(KDF_LABEL_KEYSTREAM_2, length))
    else DeriveFrom(kdf, PartSizes(length, 255 * HashLength(hash)), 0, [], length)
  }

  /** `computeKeystream2`: one derivation, or the parts of `PartSizes` copied into the keystream buffer. */
  method ComputeKeystream2(hash: HashAlg, length: nat, kdf: Kdf) returns (r: Result<Option<seq<byte>>, Exception>)
    ensures r == Keystream2(hash, length, kdf)
  {
    var hashLength := HashLength(hash);
    if hash.OtherHash? || length <= 255 * hashLength {
      return Ok(kdf(KDF_LABEL_KEYSTREAM_2, length));
    }
    var regularPartSize := 255 * hashLength;
    r := DeriveParts(kdf, length, regularPartSize, length / regularPartSize, length % regularPartSize);
  }

  /** The loop of `computeKeystream2` over the parts, for `length == quotient * regularPartSize + remainder`. */
  method DeriveParts(kdf: Kdf, length: nat, regularPartSize: nat, quotient: nat, remainder: nat)
    returns (r: Result<Option<seq<byte>>, Exception>)
    ensures r == DeriveFrom(kdf, Parts(quotient, remainder, regularPartSize), 0, [], length)
  {
    var lastPartSize := regularPartSize;
    var numParts := quotient;
    if remainder != 0 {
      lastPartSize := remainder;
      numParts := numParts + 1;
    }
    ghost var sizes := Parts(quotient, remainder, regularPartSize);
    var keystream := new byte[length](_ => 0);
    var offset := 0;
    var i := 0;
    assert keystream[..0] == [];
    while i < numParts
      invariant 0 <= i <= numParts == |sizes|
      invariant 0 <= offset <= length
      invariant forall k :: offset <= k < length ==> keystream[k] == 0
      invariant DeriveFrom(kdf, sizes, i, keystream[..offset], length) == DeriveFrom(kdf, sizes, 0, [], length)
    {
      var numBytes := if i == numParts - 1 then lastPartSize else regularPartSize;
      assert numBytes == sizes[i];
      var part := kdf(-i, numBytes);
      if part.None? {
        return Ok(None);
      }
      if offset + |part.value| > length {
        return Err(IndexOutOfBounds);
      }
      ArrayCopy(part.value, keystream, offset);
      offset := offset + |part.value|;
      i := i + 1;
    }
    assert keystream[offset..] == Zeros(length - offset);
    assert keystream[..] == keystream[..offset] + keystream[offset..];
    r := Ok(Some(keystream[..]));
  }

  /** A derivation function that returns exactly the number of octets asked for, as HKDF-Expand does. */
  ghost predicate ExactLength(kdf: Kdf)
  {
    forall k: int, n: nat :: kdf(k, n).Some? ==> |kdf(k, n).value| == n
  }

  /** The derivations of the parts, concatenated. */
  function Concat(kdf: Kdf, sizes: seq<nat>, i: nat): Option<seq<byte>>
    decreases |sizes| - i
  {
    if i >= |sizes| then Some([])
    else
      match kdf(-(i as int), sizes[i])
      case None => None
      case Some(part) =>
        match Concat(kdf, sizes, i + 1)
        case None => None
        case Some(rest) => Some(part + rest)
  }

  lemma {:induction false} DeriveFromExact(kdf: Kdf, sizes: seq<nat>, i: nat, acc: seq<byte>, length: nat)
    requires ExactLength(kdf) && i <= |sizes| && |acc| <= length
    requires |acc| + Sum(sizes[i..]) == length
    ensures DeriveFrom(kdf, sizes, i, acc, length) ==
              match Concat(kdf, sizes, i)
              case None => Ok(None)
              case Some(rest) => Ok(Some(acc + rest))
    ensures Concat(kdf, sizes, i).Some? ==> |Concat(kdf, sizes, i).value| == Sum(sizes[i..])
    decreases |sizes| - i
  {
    if i == |sizes| {
      assert acc + Zeros(0) == acc + [];
    } else {
      assert sizes[i..][1..] == sizes[i + 1..];
      match kdf(-(i as int), sizes[i])
      case None =>
      case Some(part) =>
        DeriveFromExact(kdf, sizes, i + 1, acc + part, length);
        match Concat(kdf, sizes, i + 1)
        case None =>
        case Some(rest) => assert acc + part + rest == acc + (part + rest);
    }
  }

  /**
   * With a derivation function that returns the requested number of octets,
   * the partwise keystream never raises, and is the concatenation of the
   * parts, of exactly the requested length.
   */
  lemma Keystream2Parts(hash: HashAlg, length: nat, kdf: Kdf)
    requires ExactLength(kdf) && !hash.OtherHash? && length > 255 * HashLength(hash)
    ensures var sizes := PartSizes(length, 255 * HashLength(hash));
            Keystream2(hash, length, kdf) ==
              match Concat(kdf, sizes, 0)
              case None => Ok(None)
              case Some(ks) => Ok(Some(ks))
    ensures Keystream2(hash, length, kdf).Ok? && Keystream2(hash, length, kdf).value.Some? ==>
              |Keystream2(hash, length, kdf).value.value| == length
  {
    var sizes := PartSizes(length, 255 * HashLength(hash));
    PartSizesCover(length, 255 * HashLength(hash));
    assert sizes[0..] == sizes;
    DeriveFromExact(kdf, sizes, 0, [], length);
    if Concat(kdf, sizes, 0).Some? {
      assert [] + Concat(kdf, sizes, 0).value == Concat(kdf, sizes, 0).value;
    }
  }
}
