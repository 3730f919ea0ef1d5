/** The copy loop of an alsaloop job that needs a rate conversion: captured frames are gathered
    from the capture ring for the resampler, its output is scattered into the playback ring and
    what does not fit is kept. The resampler itself is any consumer of a prefix of its input. */
module PcmResample {
  import opened Arithmetic
  import opened Ring
  import opened PcmJob

  /** Output frames of the resampler as the playback buffer holds them. */
  function Packed<T, S>(pack: S -> T, s: seq<S>): (r: seq<T>)
    ensures |r| == |s| && forall i :: 0 <= i < |s| ==> r[i] == pack(s[i])
  {
    seq(|s|, i requires 0 <= i < |s| => pack(s[i]))
  }

  class ResampleLoop<T, S> {
    const play: Handle<T>
    const capt: Handle<T>
    const unpack: T -> S  // one captured frame as the resampler reads it
    const pack: S -> T    // one output frame as the playback buffer holds it
    const dataIn: array<S>
    const dataOut: array<S>
    var srcOutFrames: nat

    constructor (play: Handle<T>, capt: Handle<T>, unpack: T -> S, pack: S -> T,
                 dataIn: array<S>, dataOut: array<S>)
      ensures this.play == play && this.capt == capt
      ensures this.unpack == unpack && this.pack == pack
      ensures this.dataIn == dataIn && this.dataOut == dataOut && srcOutFrames == 0
    {
      this.play, this.capt := play, capt;
      this.unpack, this.pack := unpack, pack;
      this.dataIn, this.dataOut, this.srcOutFrames := dataIn, dataOut, 0;
    }

    predicate Valid()
      reads this, play, capt, play.buf, capt.buf
    {
      && play != capt && play.buf != capt.buf
      && dataIn != dataOut
      && dataIn as object !in {play.buf as object, capt.buf as object}
      && dataOut as object !in {play.buf as object, capt.buf as object}
      && play.Framed() && capt.Framed()
      && dataIn.Length == capt.bufSize
      && dataOut.Length == play.bufSize
      && srcOutFrames <= play.bufSize
    }

    /** The captured frames the resampler has not consumed yet, oldest first. */
    ghost function Unconsumed(): seq<T>
      requires capt.Framed()
      reads this, capt, capt.buf
    {
      Window(capt.buf[..], First(), capt.bufCount)
    }

    ghost function First(): (p: nat)
      requires capt.Framed()
      reads this, capt, capt.buf
      ensures p < capt.bufSize && Wrap(p + capt.bufCount, capt.bufSize) == capt.bufPos
    {
      if capt.bufCount <= capt.bufPos then capt.bufPos - capt.bufCount
      else capt.bufPos + capt.bufSize - capt.bufCount
    }

    /** src_short_to_float_array and src_int_to_float_array on `count` frames. */
    method ConvertIn(pos: nat, pos1: nat, count: nat)
      requires capt.Framed() && dataIn as object != capt.buf && pos + count <= dataIn.Length && pos1 + count <= capt.bufSize
      modifies dataIn
      ensures forall i :: 0 <= i < dataIn.Length ==>
                dataIn[i] == if pos <= i < pos + count then unpack(capt.buf[pos1 + (i - pos)]) else old(dataIn[i])
    {
      var k := 0;
      while k < count
        invariant k <= count
        invariant forall i :: 0 <= i < dataIn.Length ==>
                    dataIn[i] == if pos <= i < pos + k then unpack(capt.buf[pos1 + (i - pos)]) else old(dataIn[i])
      {
        dataIn[pos + k] := unpack(capt.buf[pos1 + k]);
        k := k + 1;
      }
    }

    /** One turn of the gather loop, up to the end of the ring. */
    method GatherChunk(pos: nat, pos1: nat, count: nat, ghost first: nat) returns (count1: nat, next: nat)
      requires capt.Framed() && dataIn as object != capt.buf && dataIn.Length == capt.bufSize
      requires first < capt.bufSize && 0 < count && pos + count <= capt.bufSize
      requires pos1 == Wrap(first + pos, capt.bufSize)
      modifies dataIn
      ensures 0 < count1 <= count && next == Wrap(first + pos + count1, capt.bufSize)
      ensures forall i :: 0 <= i < dataIn.Length ==>
                dataIn[i] == if pos <= i < pos + count1
                             then unpack(Window(capt.buf[..], first, pos + count)[i]) else old(dataIn[i])
    {
      ghost var want := Window(capt.buf[..], first, pos + count);
      count1 := count;
      if count1 + pos1 > capt.bufSize { count1 := capt.bufSize - pos1; }
      ChunkOfWindow(capt.buf[..], first, pos + count, pos, count1);
      ConvertIn(pos, pos1, count1);
      assert forall i :: pos <= i < pos + count1 ==> want[i] == want[pos..pos + count1][i - pos];
      next := (pos1 + count1) % capt.bufSize;
    }

    /** The first half of buf_add_src: the input area receives exactly the unconsumed frames, in
        capture order, wherever the ring wraps. */
    method Gather() returns (inputFrames: nat)
      requires Valid()
      modifies dataIn
      ensures inputFrames == capt.bufCount
      ensures forall i :: 0 <= i < inputFrames ==> dataIn[i] == unpack(Unconsumed()[i])
    {
      ghost var first, want := First(), Unconsumed();
      var count, pos: nat := capt.bufCount, 0;
      var pos1 := Uframes(capt.bufPos - count);
      if pos1 > capt.bufSize { pos1 := Uframes(pos1 + capt.bufSize); }
      while count > 0
        invariant 0 <= count && pos + count == capt.bufCount
        invariant pos1 == Wrap(first + pos, capt.bufSize)
        invariant forall i :: 0 <= i < pos ==> dataIn[i] == unpack(want[i])
        modifies dataIn
      {
        var count1, next := GatherChunk(pos, pos1, count, first);
        count := count - count1;
        pos := pos + count1;
        pos1 := next;
      }
      inputFrames := pos;
    }

    /** The resampler has used a prefix of its input: the rest, still in order, is what the next
        call will be handed first. */
    method Consume(used: nat)
      requires Valid() && used <= capt.bufCount
      modifies capt`bufCount
      ensures Valid()
      ensures Unconsumed() == old(Unconsumed())[used..]
    {
      ghost var first := First();
      SplitWindow(capt.buf[..], first, used, capt.bufCount - used);
      capt.bufCount := capt.bufCount - used;
      assert used == 0 || First() == Wrap(first + used, capt.bufSize);
    }

    /** The first `n` frames of the output area. */
    ghost function Output(n: nat): (r: seq<T>)
      requires n <= dataOut.Length
      reads this, dataOut
      ensures |r| == n
    {
      seq(n, i requires 0 <= i < n reads this, dataOut => pack(dataOut[i]))
    }

    /** Output that did not fit into the playback ring yet, oldest first. */
    ghost function Pending(): seq<T>
      requires Valid()
      reads this, play, capt, play.buf, capt.buf, dataOut
    {
      Output(srcOutFrames)
    }

    /** The frames waiting in the playback ring. */
    ghost function Unplayed(): seq<T>
      requires play.Framed()
      reads this, play, play.buf
    {
      Window(play.buf[..], play.bufPos, play.bufCount)
    }

    /** src_float_to_short_array and src_float_to_int_array on `count` frames. */
    method ConvertOut(pos: nat, pos1: nat, count: nat, ghost out: seq<T>)
      requires play.Framed() && dataOut as object != play.buf
      requires pos1 + count <= play.bufSize && pos + count <= |out| <= dataOut.Length && out == Output(|out|)
      modifies play.buf
      ensures play.buf[..] == old(play.buf[..pos1]) + out[pos..pos + count] + old(play.buf[pos1 + count..])
    {
      var k := 0;
      while k < count
        invariant k <= count
        invariant forall i :: 0 <= i < play.bufSize ==>
                    play.buf[i] == if pos1 <= i < pos1 + k then out[pos + (i - pos1)] else old(play.buf[i])
        modifies play.buf
      {
        assert out[pos + k] == Output(|out|)[pos + k] == pack(dataOut[pos + k]);
        play.buf[pos1 + k] := pack(dataOut[pos + k]);
        k := k + 1;
      }
      assert play.buf[..pos1] == old(play.buf[..pos1]);
      assert play.buf[pos1..pos1 + count] == out[pos..pos + count];
    }

    /** One turn of the scatter loop: as many of the frames of `out` from `pos` on as fit before
        the end of the ring and into its free part. */
    method ScatterChunk(pos: nat, pos1: nat, count: nat, ghost out: seq<T>) returns (count1: nat)
      requires play.Framed() && dataOut as object != play.buf && pos1 < play.bufSize
      requires pos + count == |out| <= dataOut.Length && out == Output(|out|)
      modifies play`bufCount, play.buf
      ensures play.Framed() && count1 <= count && pos1 + count1 <= play.bufSize
      ensures count1 == 0 ==> count == 0 || old(play.bufCount) == play.bufSize
      ensures play.bufCount == old(play.bufCount) + count1
      ensures play.buf[..] == Put(old(play.buf[..]), pos1, out[pos..pos + count1])
    {
      count1 := count;
      if count1 + pos1 > play.bufSize { count1 := play.bufSize - pos1; }
      if count1 > play.bufSize - play.bufCount { count1 := play.bufSize - play.bufCount; }
      Straight(play.buf[..], pos1, out[pos..pos + count1]);
      ConvertOut(pos, pos1, count1, out);
      play.bufCount := play.bufCount + count1;
    }

    /** The second half of buf_add_src: as many output frames as there is room for go behind the
        unplayed frames of the ring, in order, and no unplayed frame is touched. */
    method Scatter(total: nat, ghost out: seq<T>) returns (moved: nat)
      requires play.Framed() && dataOut as object != play.buf
      requires total == |out| <= dataOut.Length && out == Output(|out|)
      modifies play`bufCount, play.buf
      ensures play.Framed()
      ensures moved == Min(total, old(play.bufSize - play.bufCount))
      ensures play.bufCount == old(play.bufCount) + moved
      ensures Unplayed() == old(Unplayed()) + out[..moved]
    {
      ghost var size, buf0, pos0, count0 := play.bufSize, play.buf[..], play.bufPos, play.bufCount;
      ModIsWrap(play.bufPos + play.bufCount, play.bufSize);
      var pos1 := (play.bufPos + play.bufCount) % play.bufSize;
      ghost var start := pos1;
      assert Put(buf0, start, out[..0]) == buf0;
      moved := 0;
      while moved < total
        invariant play.Framed() && moved <= total && count0 + moved == play.bufCount
        invariant pos1 == Wrap(start + moved, size)
        invariant play.buf[..] == Put(buf0, start, out[..moved])
        invariant out == Output(|out|)
      {
        var count1 := ScatterChunk(moved, pos1, total - moved, out);
        if count1 == 0 { break; }
        PutGrow(buf0, start, out, moved, count1);
        StepAround(start, moved, count1, size);
        pos1 := (pos1 + count1) % play.bufSize;
        moved := moved + count1;
      }
      PutExtendsWindow(buf0, pos0, count0, out[..moved]);
      assert start == Wrap(pos0 + count0, |buf0|);
      assert play.buf[..] == Put(buf0, start, out[..moved]);
      assert play.bufPos == pos0 && play.bufCount == count0 + |out[..moved]|;
      assert Unplayed() == Window(Put(buf0, start, out[..moved]), pos0, count0 + |out[..moved]|);
    }

    /** The output that did not fit moves to the start of the output area. */
    method KeepRest(total: nat, moved: nat)
      requires Valid() && moved <= total <= play.bufSize
      modifies this`srcOutFrames, dataOut
      ensures Valid() && srcOutFrames == total - moved
      ensures Pending() == old(Output(total))[moved..]
    {
      srcOutFrames := total - moved;
      ghost var before := dataOut[..];
      if srcOutFrames > 0 {
        var k := 0;
        while k < srcOutFrames
          invariant k <= srcOutFrames
          modifies dataOut
          invariant forall i :: 0 <= i < k ==> dataOut[i] == before[moved + i]
          invariant forall i :: k <= i < dataOut.Length ==> dataOut[i] == before[i]
        {
          dataOut[k] := dataOut[moved + k];
          k := k + 1;
        }
      }
    }

    /** src_process: uses any prefix of the input and puts any beginning of `output`, which is
        arbitrary, behind the frames that are still pending. */
    method SrcProcess(inputFrames: nat, outputFrames: nat, output: seq<S>) returns (used: nat, gen: nat)
      requires srcOutFrames + outputFrames <= dataOut.Length
      modifies dataOut
      ensures used <= inputFrames && gen <= outputFrames && gen <= |output|
      ensures forall i :: 0 <= i < srcOutFrames ==> dataOut[i] == old(dataOut[i])
      ensures forall i :: 0 <= i < gen ==> dataOut[srcOutFrames + i] == output[i]
    {
      used, gen := *, *;
      if used > inputFrames { used := inputFrames; }
      if gen > outputFrames { gen := outputFrames; }
      if gen > |output| { gen := |output|; }
      var k := 0;
      while k < gen
        invariant k <= gen
        invariant forall i :: 0 <= i < srcOutFrames ==> dataOut[i] == old(dataOut[i])
        invariant forall i :: 0 <= i < k ==> dataOut[srcOutFrames + i] == output[i]
      {
        dataOut[srcOutFrames + k] := output[k];
        k := k + 1;
      }
    }

    /** What the loop behind the resampler does with all its output. */
    method PutOutput(total: nat, ghost out: seq<T>) returns (moved: nat)
      requires Valid() && total == |out| <= play.bufSize && out == Output(total)
      modifies this`srcOutFrames, dataOut, play`bufCount, play.buf
      ensures Valid() && Unconsumed() == old(Unconsumed())
      ensures moved == Min(|out|, old(play.bufSize - play.bufCount))
      ensures Unplayed() == old(Unplayed()) + out[..moved]
      ensures Pending() == out[moved..]
    {
      moved := Scatter(total, out);
      KeepRest(total, moved);
    }

    /** buf_add_src: the resampler is handed exactly the unconsumed captured frames; what it used
        is gone, the rest stays first in line. Its output, `generated`, goes behind what was
        pending; a prefix of that moves behind the unplayed frames and the rest stays pending.
        The C code offers the resampler an area that begins so many floats after the start, not
        frames: this contract holds of it for every output if and only if there is one channel,
        nothing is pending or there is no room (ResampleArea.OutputAreaSparesPending). */
    method BufAddSrc(output: seq<S>) returns (used: nat, moved: nat, gen: nat, ghost generated: seq<T>)
      requires Valid()
      modifies this`srcOutFrames, dataIn, dataOut, capt`bufCount, play`bufCount, play.buf
      ensures Valid()
      ensures used <= |old(Unconsumed())|
      ensures gen <= |output| && generated == Packed(pack, output[..gen])
      ensures forall i :: 0 <= i < |old(Unconsumed())| ==> dataIn[i] == unpack(old(Unconsumed())[i])
      ensures Unconsumed() == old(Unconsumed())[used..]
      ensures moved == Min(|old(Pending())| + |generated|, old(play.bufSize - play.bufCount))
      ensures Unplayed() == old(Unplayed()) + (old(Pending()) + generated)[..moved]
      ensures Pending() == (old(Pending()) + generated)[moved..]
    {
      ghost var pending0 := Pending();
      var inputFrames := Gather();
      used, gen := SrcProcess(inputFrames, play.bufSize - srcOutFrames, output);
      Consume(used);
      var total := gen + srcOutFrames;
      generated := Packed(pack, output[..gen]);
      assert Output(total) == pending0 + generated;
      moved := PutOutput(total, Output(total));
    }

    /** Catching up with separate buffers. On the capture side the oldest frames go; on the
        playback side only the count shrinks, so it is the newest frames that go. */
    method RemoveSamples(capturePreferred: bool, count: int) returns (removed: nat)
      requires Valid()
      modifies capt`bufCount, play`bufCount
      ensures Valid()
      ensures removed == Min(Uframes(count), if capturePreferred then |old(Unconsumed())| else |old(Unplayed())|)
      ensures capturePreferred ==>
                Unconsumed() == old(Unconsumed())[removed..] && Unplayed() == old(Unplayed())
      ensures !capturePreferred ==>
                Unconsumed() == old(Unconsumed()) && Unplayed() == old(Unplayed())[..old(play.bufCount) - removed]
    {
      removed := Uframes(count);
      if capturePreferred {
        if removed > capt.bufCount { removed := capt.bufCount; }
        Consume(removed);
      } else {
        if removed > play.bufCount { removed := play.bufCount; }
        play.bufCount := play.bufCount - removed;
      }
    }
  }
}
