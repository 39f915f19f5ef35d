/** The C library calls that the modelled code makes on byte buffers. */
module Memory {
  import opened Bytes

  /** memset(dst + from, 0, n) */
  method ClearBytes(dst: array<byte>, from: nat, n: nat)
    requires from + n <= dst.Length
    modifies dst
    ensures forall k :: from <= k < from + n ==> dst[k] == 0
    ensures forall k :: 0 <= k < dst.Length && !(from <= k < from + n) ==> dst[k] == old(dst[k])
  {
    forall k | from <= k < from + n {
      dst[k] := 0;
    }
  }

  /** memcpy(dst + at, src, |src|) */
  method CopyBytes(dst: array<byte>, at: nat, src: seq<byte>)
    requires at + |src| <= dst.Length
    modifies dst
    ensures forall k :: at <= k < at + |src| ==> dst[k] == src[k - at]
    ensures forall k :: 0 <= k < dst.Length && !(at <= k < at + |src|) ==> dst[k] == old(dst[k])
  {
    forall k | 0 <= k < |src| {
      dst[at + k] := src[k];
    }
  }
}
