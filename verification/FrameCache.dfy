/** The frame cache of axfer: frames that could not be transferred yet wait at the start of the
    cache, in one interleaved buffer or in one buffer per channel. */
module FrameCache {
  import opened Slots
  import opened Mapper

  /** Interleaved frames without the oldest `n`. */
  function DropFrames<T>(s: seq<T>, width: nat, channels: nat, n: nat): (r: seq<T>)
    requires width * (channels * n) <= |s|
  {
    s[width * (channels * n)..]
  }

  lemma SlotOfDrop<T>(s: seq<T>, width: nat, k: nat, l: nat)
    requires width * k <= |s|
    ensures Slot(s[width * k..], width, l) == Slot(s, width, k + l)
  {
    assert width * (k + l) == width * k + width * l;
    if width * l + width <= |s| - width * k {
      var t := s[width * k..];
      forall m | 0 <= m < width
        ensures Slot(t, width, l)[m] == Slot(s, width, k + l)[m]
      {
        assert t[width * l + m] == s[width * k + width * l + m];
      }
    }
  }

  /** From every channel the first `m` elements are gone. */
  ghost predicate Dropped<T>(chans: seq<seq<T>>, chans': seq<seq<T>>, m: nat) {
    |chans'| == |chans| && forall i :: 0 <= i < |chans| ==> m <= |chans[i]| && chans'[i] == chans[i][m..]
  }

  /** The two layouts commute with deinterleaving: if the channel buffers are the deinterleaved
      frames before both layouts drop the same oldest frames, they are so afterwards. */
  lemma DropCommutesWithDeinterleave<T>(chans: seq<seq<T>>, inter: seq<T>, width: nat, frames: nat,
                                        n: nat, chans': seq<seq<T>>)
    requires Spread(chans, Ones(|chans|), inter, width, frames) && n <= frames
    requires width * (|chans| * n) <= |inter| && Dropped(chans, chans', width * n)
    ensures Spread(chans', Ones(|chans|), DropFrames(inter, width, |chans|, n), width, frames - n)
  {
    var c := |chans|;
    forall i, j | 0 <= i < c && 0 <= j < frames - n
      ensures Slot(chans'[i], width, Cell(1, 0, j)) == Slot(DropFrames(inter, width, c, n), width, Cell(c, i, j))
    {
      SlotOfDrop(chans[i], width, n, j);
      SlotOfDrop(inter, width, c * n, Cell(c, i, j));
      assert c * n + Cell(c, i, j) == Cell(c, i, n + j) by { assert c * (n + j) == c * n + c * j; }
      assert Cell(1, 0, n + j) == n + j;
    }
  }

  function Ones(n: nat): (r: seq<nat>)
    ensures |r| == n && forall i :: 0 <= i < n ==> r[i] == 1
  {
    seq(n, _ => 1)
  }

  lemma SplitSize(width: nat, channels: nat, consumed: nat, remained: nat)
    ensures width * (channels * consumed) + width * (channels * remained) == width * (channels * (consumed + remained))
    ensures (width * channels) * consumed == width * (channels * consumed)
  {
    assert channels * (consumed + remained) == channels * consumed + channels * remained;
    assert width * (channels * consumed + channels * remained)
        == width * (channels * consumed) + width * (channels * remained);
  }

  /** Offset and size of what is kept, as align_frames_in_i computes them. */
  method Sizes(width: nat, channels: nat, consumed: nat, remained: nat) returns (offset: nat, size: nat)
    requires width * (channels * (consumed + remained)) < 0x1_0000_0000
    ensures offset == width * (channels * consumed) && size == width * (channels * remained)
    ensures offset + size == width * (channels * (consumed + remained))
  {
    SplitSize(width, channels, consumed, remained);
    SplitSize(width, channels, remained, 0);
    offset := U32(width * channels * consumed);
    size := U32(width * channels * remained);
  }

  /** The cache for interleaved access. */
  class InterleavedCache<T> {
    const buf: array<T>
    var bufPtr: nat  // offset of the next write
    var remained: nat
    const width: nat
    const channels: nat

    constructor (buf: array<T>, width: nat, channels: nat)
      ensures this.buf == buf && this.width == width && this.channels == channels
      ensures bufPtr == 0 && remained == 0
    {
      this.buf, this.width, this.channels := buf, width, channels;
      bufPtr, remained := 0, 0;
    }

    predicate Valid()
      reads this
    {
      width * (channels * remained) <= buf.Length < 0x1_0000_0000
    }

    /** The write pointer stands just behind the cached frames. */
    predicate Synced()
      reads this
    {
      bufPtr == width * (channels * remained)
    }

    function Content(): (r: seq<T>)
      requires Valid()
      reads this, buf
    {
      buf[..width * (channels * remained)]
    }

    /** align_frames_in_i: exactly the oldest frames are dropped, the rest keeps its order, and
        the write pointer stands just behind it. */
    method Reduce(consumed: nat)
      requires Valid() && consumed <= remained
      modifies this, buf
      ensures Valid() && Synced() && remained == old(remained) - consumed
      ensures width * (channels * consumed) <= |old(Content())|
      ensures Content() == DropFrames(old(Content()), width, channels, consumed)
    {
      remained := remained - consumed;
      var offset, size := Sizes(width, channels, consumed, remained);
      ghost var content := buf[..offset + size];
      MemMoveDown(buf, offset, size);
      assert buf[..size] == content[offset..];
      bufPtr := size;
    }

    /** New frames are stored at the write pointer and counted. They continue the cached frames
        when the pointer is in place; it is not moved, so a second fill before the next Reduce
        would store over them. */
    method Fill(data: array<T>, frames: nat)
      requires Valid() && data != buf
      requires width * (channels * frames) <= data.Length
      requires width * (channels * (remained + frames)) <= buf.Length
      requires bufPtr + width * (channels * frames) <= buf.Length
      modifies this, buf
      ensures Valid() && remained == old(remained) + frames && bufPtr == old(bufPtr)
      ensures old(Synced()) ==> Content() == old(Content()) + data[..width * (channels * frames)]
      ensures old(Synced()) ==> (Synced() <==> width * (channels * frames) == 0)
    {
      SplitSize(width, channels, remained, frames);
      MemCpy(buf, bufPtr, data, 0, width * (channels * frames));
      remained := remained + frames;
    }
  }

  /** The cache for non-interleaved access: one buffer and one write pointer per channel. */
  class ChannelCache<T> {
    const bufs: seq<array<T>>
    var bufPtrs: seq<nat>
    var remained: nat
    const width: nat

    constructor (bufs: seq<array<T>>, width: nat)
      ensures this.bufs == bufs && this.width == width && remained == 0
      ensures |bufPtrs| == |bufs|
    {
      this.bufs, this.width := bufs, width;
      bufPtrs, remained := seq(|bufs|, _ => 0), 0;
    }

    predicate Valid()
      reads this
    {
      && |bufPtrs| == |bufs|
      && (forall i, k :: 0 <= i < k < |bufs| ==> bufs[i] != bufs[k])
      && forall i :: 0 <= i < |bufs| ==> width * remained <= bufs[i].Length < 0x1_0000_0000
    }

    /** The cached frames of channel `i`. */
    function Content(i: nat): (r: seq<T>)
      requires Valid() && i < |bufs|
      reads this, bufs
    {
      bufs[i][..width * remained]
    }

    ghost function Contents(): (r: seq<seq<T>>)
      requires Valid()
      reads this, bufs
      ensures |r| == |bufs| && forall i :: 0 <= i < |bufs| ==> r[i] == Content(i)
    {
      seq(|bufs|, i requires Valid() && 0 <= i < |bufs| reads this, bufs => Content(i))
    }

    /** align_frames_in_n: the same in every channel. */
    method Reduce(consumed: nat)
      requires Valid() && consumed <= remained
      modifies this, bufs
      ensures Valid() && remained == old(remained) - consumed
      ensures width * consumed + width * remained == width * old(remained)
      ensures forall i :: 0 <= i < |bufs| ==> Content(i) == old(Content(i))[width * consumed..]
      ensures forall i :: 0 <= i < |bufs| ==> bufPtrs[i] == width * remained
    {
      ghost var total := width * remained;
      ghost var before := Contents();
      remained := remained - consumed;
      assert total == width * consumed + width * remained;
      ghost var n := width * remained;
      for i := 0 to |bufs|
        invariant |bufPtrs| == |bufs| && remained == old(remained) - consumed
        invariant forall k :: 0 <= k < i ==> bufs[k][..n] == before[k][width * consumed..] && bufPtrs[k] == n
        invariant forall k :: i <= k < |bufs| ==> bufs[k][..total] == before[k]
      {
        var offset := U32(width * consumed);
        var size := U32(width * remained);
        assert bufs[i][offset..offset + size] == bufs[i][..total][width * consumed..];
        MemMoveDown(bufs[i], offset, size);
        bufPtrs := bufPtrs[i := size];
      }
    }

    /** The same, said of all channels at once. */
    method ReduceContents(consumed: nat, ghost chans: seq<seq<T>>, ghost bytes: nat)
      requires Valid() && consumed <= remained && chans == Contents() && bytes == width * consumed
      modifies this, bufs
      ensures Valid() && remained == old(remained) - consumed && Dropped(chans, Contents(), bytes)
    {
      assert width * remained == width * consumed + width * (remained - consumed);
      Reduce(consumed);
    }
  }
}
