/** Moving samples between the PCM frame buffer of axfer and the buffers of its containers: one
    container with interleaved frames, or several containers of which the first channel is used. */
module Mapper {
  import opened Arithmetic
  import opened Slots

  /** Channel `i` of the interleaved buffer `inter` is the first channel of `bufs[i]`, whose
      frames are `strides[i]` samples wide. */
  ghost predicate Spread<T>(bufs: seq<seq<T>>, strides: seq<nat>, inter: seq<T>, width: nat, frames: nat) {
    && |strides| == |bufs|
    && forall i, j :: 0 <= i < |bufs| && 0 <= j < frames ==>
         Slot(bufs[i], width, Cell(strides[i], 0, j)) == Slot(inter, width, Cell(|bufs|, i, j))
  }

  /** The same in bytes: byte `b` of frame `j` of channel `i`. */
  lemma SpreadByte<T>(bufs: seq<seq<T>>, strides: seq<nat>, inter: seq<T>, width: nat, frames: nat, i: nat, j: nat, b: nat)
    requires Spread(bufs, strides, inter, width, frames)
    requires i < |bufs| && j < frames && b < width && 0 < strides[i]
    requires frames * strides[i] * width <= |bufs[i]| && frames * |bufs| * width <= |inter|
    ensures j * strides[i] * width + b < |bufs[i]| && (j * |bufs| + i) * width + b < |inter|
    ensures bufs[i][j * strides[i] * width + b] == inter[(j * |bufs| + i) * width + b]
  {
    InSlot(bufs[i], width, strides[i], frames, 0, j, b);
    InSlot(inter, width, |bufs|, frames, i, j, b);
    assert (j * strides[i] + 0) * width == j * strides[i] * width;
    assert Slot(bufs[i], width, Cell(strides[i], 0, j))[b] == Slot(inter, width, Cell(|bufs|, i, j))[b];
  }

  lemma InSlot<T>(s: seq<T>, width: nat, stride: nat, frames: nat, i: nat, j: nat, b: nat)
    requires i < stride && j < frames && b < width && frames * stride * width <= |s|
    ensures (j * stride + i) * width + b < |s|
    ensures width * Cell(stride, i, j) + width <= |s| && Slot(s, width, Cell(stride, i, j))[b] == s[(j * stride + i) * width + b]
  {
    CellFits(stride, frames, i, j);
    SlotFits(width, stride * frames, Cell(stride, i, j));
    assert width * (stride * frames) == frames * stride * width;
    assert width * Cell(stride, i, j) == (j * stride + i) * width;
  }

  /** Interleaving has one result: the channel buffers determine every byte of the frames. */
  lemma InterleavedIsUnique<T>(bufs: seq<seq<T>>, strides: seq<nat>, a: seq<T>, b: seq<T>, width: nat, frames: nat)
    requires Spread(bufs, strides, a, width, frames) && Spread(bufs, strides, b, width, frames)
    requires width * (|bufs| * frames) <= |a| && width * (|bufs| * frames) <= |b|
    ensures a[..width * (|bufs| * frames)] == b[..width * (|bufs| * frames)]
  {
    if width == 0 { return; }
    forall k | 0 <= k < |bufs| * frames
      ensures Slot(a, width, k) == Slot(b, width, k)
    {
      var i, j := CellOf(|bufs|, frames, k);
      assert Slot(a, width, Cell(|bufs|, i, j)) == Slot(bufs[i], width, Cell(strides[i], 0, j));
    }
    EqualSlots(a, b, width, |bufs| * frames);
  }

  /** Deinterleaving into buffers of one sample per frame has one result as well. */
  lemma ChannelsAreUnique<T>(a: seq<seq<T>>, b: seq<seq<T>>, strides: seq<nat>, inter: seq<T>,
                             width: nat, frames: nat, i: nat)
    requires |a| == |b| && Spread(a, strides, inter, width, frames) && Spread(b, strides, inter, width, frames)
    requires i < |a| && strides[i] == 1
    requires width * frames <= |a[i]| && width * frames <= |b[i]|
    ensures a[i][..width * frames] == b[i][..width * frames]
  {
    if width == 0 { return; }
    forall j | 0 <= j < frames
      ensures Slot(a[i], width, j) == Slot(b[i], width, j)
    {
      assert Cell(strides[i], 0, j) == j;
    }
    EqualSlots(a[i], b[i], width, frames);
  }

  /** Byte positions are computed with `unsigned int`; they are exact for buffers of less than
      4 GiB. */
  lemma ExactPosition(width: nat, stride: nat, frames: nat, index: nat, j: nat)
    requires index < stride && j < frames && width * (stride * frames) < 0x1_0000_0000
    ensures U32(width * U32(stride * j + index)) == width * Cell(stride, index, j)
    ensures width * Cell(stride, index, j) + width <= width * (stride * frames)
  {
    CellFits(stride, frames, index, j);
    SlotFits(width, stride * frames, Cell(stride, index, j));
    if width > 0 {
      MulMono(1, width, stride * frames);
    }
  }

  /** One sample of one channel of `src` is copied over one of `dst`. */
  method CopySample<T>(dst: array<T>, dstStride: nat, dstIndex: nat,
                       src: array<T>, srcStride: nat, srcIndex: nat, width: nat, frames: nat, j: nat)
    requires dst != src && dstIndex < dstStride && srcIndex < srcStride && j < frames
    requires width * (dstStride * frames) <= dst.Length < 0x1_0000_0000
    requires width * (srcStride * frames) <= src.Length < 0x1_0000_0000
    modifies dst
    ensures forall i, k :: 0 <= i < dstStride && 0 <= k < frames ==>
              Slot(dst[..], width, Cell(dstStride, i, k)) ==
                if i == dstIndex && k == j then Slot(src[..], width, Cell(srcStride, srcIndex, j))
                else old(Slot(dst[..], width, Cell(dstStride, i, k)))
    ensures forall m: nat :: width * (dstStride * frames) <= m < dst.Length ==> dst[m] == old(dst[m])
  {
    var srcPos := U32(width * U32(srcStride * j + srcIndex));
    var dstPos := U32(width * U32(dstStride * j + dstIndex));
    ExactPosition(width, srcStride, frames, srcIndex, j);
    ExactPosition(width, dstStride, frames, dstIndex, j);
    ghost var before, data := dst[..], src[srcPos..srcPos + width];
    MemCpy(dst, dstPos, src, srcPos, width);
    forall i, k | 0 <= i < dstStride && 0 <= k < frames
      ensures Slot(dst[..], width, Cell(dstStride, i, k)) ==
                if i == dstIndex && k == j then data else Slot(before, width, Cell(dstStride, i, k))
    {
      ExactPosition(width, dstStride, frames, i, k);
      OverwriteSlot(before, dst[..], width, Cell(dstStride, dstIndex, j), Cell(dstStride, i, k), data);
      if i != dstIndex || k != j { CellsDiffer(dstStride, i, k, dstIndex, j); }
    }
    assert data == Slot(src[..], width, Cell(srcStride, srcIndex, j));
    assert forall m: nat :: width * (dstStride * frames) <= m < dst.Length ==> dst[m] == before[m];
  }

  /** The inner loop of all four alignment functions: one channel of `src` is copied over one
      channel of `dst`, frame by frame. */
  method CopyChannel<T>(dst: array<T>, dstStride: nat, dstIndex: nat,
                        src: array<T>, srcStride: nat, srcIndex: nat, width: nat, frames: nat)
    requires dst != src && dstIndex < dstStride && srcIndex < srcStride
    requires width * (dstStride * frames) <= dst.Length < 0x1_0000_0000
    requires width * (srcStride * frames) <= src.Length < 0x1_0000_0000
    modifies dst
    ensures forall i, j :: 0 <= i < dstStride && 0 <= j < frames ==>
              Slot(dst[..], width, Cell(dstStride, i, j)) ==
                if i == dstIndex then Slot(src[..], width, Cell(srcStride, srcIndex, j))
                else old(Slot(dst[..], width, Cell(dstStride, i, j)))
    ensures forall m: nat :: width * (dstStride * frames) <= m < dst.Length ==> dst[m] == old(dst[m])
  {
    for j := 0 to frames
      invariant forall i, k :: 0 <= i < dstStride && 0 <= k < frames ==>
                  Slot(dst[..], width, Cell(dstStride, i, k)) ==
                    if i == dstIndex && k < j then Slot(src[..], width, Cell(srcStride, srcIndex, k))
                    else old(Slot(dst[..], width, Cell(dstStride, i, k)))
      invariant forall m: nat :: width * (dstStride * frames) <= m < dst.Length ==> dst[m] == old(dst[m])
    {
      CopySample(dst, dstStride, dstIndex, src, srcStride, srcIndex, width, frames, j);
    }
  }

  predicate Separate<T>(bufs: seq<array<T>>, other: array<T>) {
    && (forall i, k :: 0 <= i < k < |bufs| ==> bufs[i] != bufs[k])
    && (forall i :: 0 <= i < |bufs| ==> bufs[i] != other)
  }

  ghost function Contents<T>(bufs: seq<array<T>>): (r: seq<seq<T>>)
    reads bufs
    ensures |r| == |bufs| && forall i :: 0 <= i < |bufs| ==> r[i] == bufs[i][..]
  {
    seq(|bufs|, i requires 0 <= i < |bufs| reads bufs => bufs[i][..])
  }

  /** The buffers are large enough for `frames` frames of the given widths. */
  predicate RoomFor<T>(bufs: seq<array<T>>, strides: seq<nat>, width: nat, frames: nat) {
    && |strides| == |bufs|
    && forall i :: 0 <= i < |bufs| ==>
         0 < strides[i] && width * (strides[i] * frames) <= bufs[i].Length < 0x1_0000_0000
  }

  /** From interleaved frames to one buffer per channel: align_from_i, and align_to_vector when
      every stride is one. Nothing behind the frames is touched. */
  method Deinterleave<T>(dsts: seq<array<T>>, strides: seq<nat>, src: array<T>, width: nat, frames: nat)
    requires Separate(dsts, src) && RoomFor(dsts, strides, width, frames)
    requires width * (|dsts| * frames) <= src.Length < 0x1_0000_0000
    modifies dsts
    ensures Spread(Contents(dsts), strides, src[..], width, frames)
    ensures forall i, m: nat :: 0 <= i < |dsts| && width * (strides[i] * frames) <= m < dsts[i].Length ==>
              dsts[i][m] == old(dsts[i][m])
    ensures forall i, c, j :: 0 <= i < |dsts| && 0 < c < strides[i] && 0 <= j < frames ==>
              Slot(dsts[i][..], width, Cell(strides[i], c, j)) == old(Slot(dsts[i][..], width, Cell(strides[i], c, j)))
  {
    for i := 0 to |dsts|
      invariant forall k, j :: 0 <= k < i && 0 <= j < frames ==>
                  Slot(dsts[k][..], width, Cell(strides[k], 0, j)) == Slot(src[..], width, Cell(|dsts|, k, j))
      invariant forall k, m: nat :: 0 <= k < |dsts| && width * (strides[k] * frames) <= m < dsts[k].Length ==>
                  dsts[k][m] == old(dsts[k][m])
      invariant forall k, c, j :: 0 <= k < |dsts| && 0 < c < strides[k] && 0 <= j < frames ==>
                  Slot(dsts[k][..], width, Cell(strides[k], c, j)) == old(Slot(dsts[k][..], width, Cell(strides[k], c, j)))
      invariant forall k :: i <= k < |dsts| ==> dsts[k][..] == old(dsts[k][..])
    {
      CopyChannel(dsts[i], strides[i], 0, src, |dsts|, i, width, frames);
    }
  }

  /** From one buffer per channel to interleaved frames: align_to_i, and align_from_vector when
      every stride is one. Nothing behind the frames is touched. */
  method Interleave<T>(dst: array<T>, srcs: seq<array<T>>, strides: seq<nat>, width: nat, frames: nat)
    requires Separate(srcs, dst) && RoomFor(srcs, strides, width, frames)
    requires width * (|srcs| * frames) <= dst.Length < 0x1_0000_0000
    modifies dst
    ensures Spread(Contents(srcs), strides, dst[..], width, frames)
    ensures forall m: nat :: width * (|srcs| * frames) <= m < dst.Length ==> dst[m] == old(dst[m])
  {
    for i := 0 to |srcs|
      invariant forall k, j :: 0 <= k < i && 0 <= j < frames ==>
                  Slot(srcs[k][..], width, Cell(strides[k], 0, j)) == Slot(dst[..], width, Cell(|srcs|, k, j))
      invariant forall m: nat :: width * (|srcs| * frames) <= m < dst.Length ==> dst[m] == old(dst[m])
    {
      CopyChannel(dst, |srcs|, i, srcs[i], strides[i], 0, width, frames);
    }
  }

  /** Deinterleaving and interleaving again restores every byte of the frames. */
  method RestoreFrames<T>(frames: array<T>, bufs: seq<array<T>>, strides: seq<nat>, width: nat, count: nat)
    requires Separate(bufs, frames) && RoomFor(bufs, strides, width, count)
    requires width * (|bufs| * count) <= frames.Length < 0x1_0000_0000
    modifies frames, bufs
    ensures frames[..] == old(frames[..])
  {
    Deinterleave(bufs, strides, frames, width, count);
    Interleave(frames, bufs, strides, width, count);
    InterleavedIsUnique(Contents(bufs), strides, frames[..], old(frames[..]), width, count);
    assert forall m :: 0 <= m < width * (|bufs| * count) ==>
                frames[m] == frames[..][..width * (|bufs| * count)][m];
  }

  /** Interleaving and deinterleaving again restores every byte of every channel buffer. */
  method RestoreChannels<T>(bufs: seq<array<T>>, frames: array<T>, strides: seq<nat>, width: nat, count: nat)
    requires Separate(bufs, frames) && RoomFor(bufs, strides, width, count)
    requires width * (|bufs| * count) <= frames.Length < 0x1_0000_0000
    modifies frames, bufs
    ensures forall i :: 0 <= i < |bufs| ==> bufs[i][..] == old(bufs[i][..])
  {
    ghost var before := Contents(bufs);
    Interleave(frames, bufs, strides, width, count);
    Deinterleave(bufs, strides, frames, width, count);
    forall i | 0 <= i < |bufs|
      ensures bufs[i][..] == before[i]
    {
      SameBuffer(before[i], bufs[i][..], strides[i], width, count);
    }
  }

  lemma SameBuffer<T>(a: seq<T>, b: seq<T>, stride: nat, width: nat, frames: nat)
    requires |a| == |b| && 0 < stride && width * (stride * frames) <= |a|
    requires forall c, j :: 0 <= c < stride && 0 <= j < frames ==>
               Slot(a, width, Cell(stride, c, j)) == Slot(b, width, Cell(stride, c, j))
    requires forall m: nat :: width * (stride * frames) <= m < |a| ==> a[m] == b[m]
    ensures a == b
  {
    if width > 0 {
      forall k | 0 <= k < stride * frames
        ensures Slot(a, width, k) == Slot(b, width, k)
      {
        var c, j := CellOf(stride, frames, k);
      }
      EqualSlots(a, b, width, stride * frames);
    }
    var n := width * (stride * frames);
    forall m | 0 <= m < |a|
      ensures a[m] == b[m]
    {
      if m < n { assert a[m] == a[..n][m]; }
    }
  }
}
