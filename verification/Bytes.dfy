/** Ranges of bytes: reading, overwriting and copying them. */
module Bytes {
  import opened Words

  function Peek(m: seq<u8>, i: int): u8 { if 0 <= i < |m| then m[i] else 0 }

  /** `memcpy(dst + at, src, |src|)`; bytes outside `dst` are dropped. */
  function Blit(dst: seq<u8>, at: int, src: seq<u8>): (r: seq<u8>)
    ensures |r| == |dst|
    ensures forall i | 0 <= i < |r| :: r[i] == if at <= i < at + |src| then src[i - at] else dst[i]
  {
    seq<u8>(|dst|, i requires 0 <= i < |dst| => if at <= i < at + |src| then src[i - at] else dst[i])
  }

  function Slice(m: seq<u8>, at: int, len: nat): (r: seq<u8>)
    ensures |r| == len && forall i | 0 <= i < len :: r[i] == Peek(m, at + i)
  {
    seq<u8>(len, i requires 0 <= i < len => Peek(m, at + i))
  }

  lemma SliceSame(m: seq<u8>, m': seq<u8>, at: int, len: nat)
    requires forall x | at <= x < at + len :: Peek(m, x) == Peek(m', x)
    ensures Slice(m, at, len) == Slice(m', at, len)
  {
  }

  /** `memcpy` between two different arrays. */
  method CopyBytes(dst: array<u8>, to: nat, src: array<u8>, from: nat, len: nat)
    requires dst != src && to + len <= dst.Length && from + len <= src.Length
    modifies dst
    ensures dst[..] == Blit(old(dst[..]), to, Slice(src[..], from, len))
  {
    ghost var before := dst[..];
    for i := 0 to len
      invariant forall j | 0 <= j < dst.Length ::
        dst[j] == if to <= j < to + i then src[from + j - to] else before[j]
    {
      dst[to + i] := src[from + i];
    }
  }
}
