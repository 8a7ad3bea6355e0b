/** Java's array copying on octet buffers. */
module JavaArrays {
  import opened Types

  /** `System.arraycopy(src, 0, dst, offset, src.length)` for a source that fits. */
  method ArrayCopy(src: seq<byte>, dst: array<byte>, offset: nat)
    requires offset + |src| <= dst.Length
    modifies dst
    ensures dst[..offset + |src|] == old(dst[..offset]) + src
    ensures forall k :: offset + |src| <= k < dst.Length ==> dst[k] == old(dst[k])
  {
    var k := 0;
    while k < |src|
      invariant 0 <= k <= |src|
      invariant dst[..offset + k] == old(dst[..offset]) + src[..k]
      invariant forall j :: offset + |src| <= j < dst.Length ==> dst[j] == old(dst[j])
    {
      dst[offset + k] := src[k];
      assert src[..k + 1] == src[..k] + [src[k]];
      k := k + 1;
    }
    assert src[..k] == src;
  }

  /**
   * `Arrays.copyOfRange(a, from, a.length)`: a negative start raises an index
   * error, a start past the end an illegal-argument error.
   */
  function CopyToEnd(a: seq<byte>, from: int): (r: Result<seq<byte>, Exception>)
    ensures r.Ok? <==> 0 <= from <= |a|
    ensures r.Ok? ==> r.value == a[from..]
    ensures from < 0 ==> r == Err(IndexOutOfBounds)
    ensures from > |a| ==> r == Err(IllegalArgument)
  {
    if from < 0 then Err(IndexOutOfBounds)
    else if from > |a| then Err(IllegalArgument)
    else Ok(a[from..])
  }
}
