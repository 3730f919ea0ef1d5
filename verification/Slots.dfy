/** Buffers seen as rows of equally wide slots, one sample to a slot, and the C functions that
    move samples between and inside them. */
module Slots {
  import opened Arithmetic

  /** Arithmetic of `unsigned int`. */
  function U32(x: int): (r: nat)
    ensures 0 <= x < 0x1_0000_0000 ==> r == x
  {
    x % 0x1_0000_0000
  }

  /** Slot `k` ends before slot `l` begins. */
  lemma SlotOrder(width: nat, k: nat, l: nat)
    requires k < l
    ensures width * k + width <= width * l
  {
    MulMono(k + 1, l, width);
    MulNext(width, k);
  }

  /** Slot `k` of a row of `count` slots lies inside the row. */
  lemma SlotFits(width: nat, count: nat, k: nat)
    requires k < count
    ensures width * k + width <= width * count
  {
    SlotOrder(width, k, count);
  }

  /** Position of channel `i` of frame `j` among interleaved samples. */
  function Cell(channels: nat, i: nat, j: nat): nat {
    channels * j + i
  }

  lemma CellFits(channels: nat, frames: nat, i: nat, j: nat)
    requires i < channels && j < frames
    ensures Cell(channels, i, j) < channels * frames
  {
    SlotOrder(channels, j, frames);
  }

  lemma CellsDiffer(channels: nat, i: nat, j: nat, k: nat, l: nat)
    requires i < channels && k < channels && (i != k || j != l)
    ensures Cell(channels, i, j) != Cell(channels, k, l)
  {
    if j < l { SlotOrder(channels, j, l); }
    if l < j { SlotOrder(channels, l, j); }
  }

  /** Every position is the cell of some channel and frame. */
  lemma CellOf(channels: nat, frames: nat, p: nat) returns (i: nat, j: nat)
    requires p < channels * frames
    ensures i < channels && j < frames && Cell(channels, i, j) == p
  {
    i, j := p % channels, p / channels;
    if j >= frames {
      MulMono(frames, j, channels);
    }
  }

  /** The sample in slot `k`, if the buffer reaches that far. */
  function Slot<T>(s: seq<T>, width: nat, k: nat): (r: seq<T>)
    ensures width * k + width <= |s| ==> |r| == width
  {
    if width * k + width <= |s| then s[width * k..width * k + width] else []
  }

  /** Two rows with equal slots are equal. */
  lemma EqualSlots<T>(a: seq<T>, b: seq<T>, width: nat, count: nat)
    requires 0 < width && width * count <= |a| && width * count <= |b|
    requires forall k :: 0 <= k < count ==> Slot(a, width, k) == Slot(b, width, k)
    ensures a[..width * count] == b[..width * count]
  {
    forall m | 0 <= m < width * count
      ensures a[m] == b[m]
    {
      EqualElement(a, b, width, count, m);
    }
  }

  lemma EqualElement<T>(a: seq<T>, b: seq<T>, width: nat, count: nat, m: nat)
    requires 0 < width && m < width * count <= |a| && width * count <= |b|
    requires forall k :: 0 <= k < count ==> Slot(a, width, k) == Slot(b, width, k)
    ensures a[m] == b[m]
  {
    var i, k := CellOf(width, count, m);
    SlotFits(width, count, k);
    assert a[m] == Slot(a, width, k)[i] && b[m] == Slot(b, width, k)[i];
  }

  /** Overwriting one slot changes that slot and no other. */
  lemma OverwriteSlot<T>(before: seq<T>, after: seq<T>, width: nat, k: nat, l: nat, data: seq<T>)
    requires |data| == width && width * k + width <= |before| && width * l + width <= |before|
    requires after == before[..width * k] + data + before[width * k + width..]
    ensures Slot(after, width, l) == if l == k then data else Slot(before, width, l)
  {
    if l < k { SlotOrder(width, l, k); }
    if k < l { SlotOrder(width, k, l); }
  }

  /** memcpy */
  method MemCpy<T>(dst: array<T>, d: nat, src: array<T>, s: nat, n: nat)
    requires dst != src && d + n <= dst.Length && s + n <= src.Length
    modifies dst
    ensures dst[..] == old(dst[..d]) + src[s..s + n] + old(dst[d + n..])
  {
    for i := 0 to n
      invariant forall m :: 0 <= m < dst.Length ==>
                  dst[m] == if d <= m < d + i then src[s + (m - d)] else old(dst[m])
    {
      dst[d + i] := src[s + i];
    }
    assert dst[..d] == old(dst[..d]);
    assert dst[d..d + n] == src[s..s + n];
  }

  /** memmove towards the start of the same buffer. */
  method MemMoveDown<T>(buf: array<T>, offset: nat, n: nat)
    requires offset + n <= buf.Length
    modifies buf
    ensures buf[..] == old(buf[offset..offset + n]) + old(buf[n..])
  {
    for i := 0 to n
      invariant forall m :: 0 <= m < i ==> buf[m] == old(buf[offset + m])
      invariant forall m :: i <= m < buf.Length ==> buf[m] == old(buf[m])
    {
      buf[i] := buf[offset + i];
    }
    assert buf[..n] == old(buf[offset..offset + n]);
  }
}
