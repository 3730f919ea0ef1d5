/** A whole alsaloop job with a rate conversion: any number of wake-ups, each with its rounds of
    reading, resampling and writing. */
module ResampleSession {
  import opened Arithmetic
  import opened Ring
  import opened PcmJob
  import opened PcmResample

  /** All frames the resampler has produced: call `k` was offered `outputs(k)` and produced its
      first `gens[k]` frames. */
  ghost function Produced<T, S>(pack: S -> T, outputs: nat -> seq<S>, gens: seq<nat>): (r: seq<T>) {
    if gens == [] then []
    else
      var k := |gens| - 1;
      Produced(pack, outputs, gens[..k]) + Packed(pack, outputs(k)[..Min(gens[k], |outputs(k)|)])
  }

  lemma ProducedMore<T, S>(pack: S -> T, outputs: nat -> seq<S>, gens: seq<nat>, gen: nat)
    requires gen <= |outputs(|gens|)|
    ensures Produced(pack, outputs, gens + [gen])
         == Produced(pack, outputs, gens) + Packed(pack, outputs(|gens|)[..gen])
  {
    assert (gens + [gen])[..|gens|] == gens;
  }

  lemma PackedMore<T, S>(unpack: T -> S, s: seq<T>, n: nat, m: nat, fed: seq<S>, now: seq<S>)
    requires n + m <= |s| && fed == Packed(unpack, s[..n])
    requires |now| == m && forall i :: 0 <= i < m ==> now[i] == unpack(s[n..][i])
    ensures fed + now == Packed(unpack, s[..n + m]) && s[n..][m..] == s[n + m..]
  {
  }

  lemma StillInOrder<T>(played: seq<T>, unplayed: seq<T>, pending: seq<T>, sent: seq<T>, generated: seq<T>, moved: nat)
    requires played + unplayed + pending == sent && moved <= |pending + generated|
    ensures played + (unplayed + (pending + generated)[..moved]) + (pending + generated)[moved..] == sent + generated
  {
    var more := pending + generated;
    assert more[..moved] + more[moved..] == more;
    assert (played + unplayed + pending) + generated == played + unplayed + more;
  }

  lemma AppendTo<T>(lead: seq<T>, a: seq<T>, b: seq<T>)
    ensures lead + (a + b) == (lead + a) + b
  {
  }

  lemma TakenInOrder<T>(buf: seq<T>, pos: nat, n: nat, count: nat, played: seq<T>, pending: seq<T>)
    requires pos < |buf| && n <= count <= |buf|
    ensures played + Window(buf, pos, n) + Window(buf, Wrap(pos + n, |buf|), count - n) + pending
         == played + Window(buf, pos, count) + pending
  {
    SplitWindow(buf, pos, n, count - n);
    assert (played + Window(buf, pos, n)) + Window(buf, Wrap(pos + n, |buf|), count - n)
        == played + (Window(buf, pos, n) + Window(buf, Wrap(pos + n, |buf|), count - n));
  }

  class ResampleJob<T, S> {
    const io: Loopback<T>
    const src: ResampleLoop<T, S>
    const outputs: nat -> seq<S>  // what the resampler has to offer at each call
    var calls: nat
    ghost var gens: seq<nat>      // how many frames each call has produced
    ghost var fed: seq<S>         // what the resampler has consumed

    constructor (io: Loopback<T>, src: ResampleLoop<T, S>, outputs: nat -> seq<S>)
      ensures this.io == io && this.src == src && this.outputs == outputs
      ensures calls == 0 && gens == [] && fed == []
    {
      this.io, this.src, this.outputs, this.calls, this.gens, this.fed := io, src, outputs, 0, [], [];
    }

    ghost predicate Valid()
      reads this, src, src.play, src.capt, src.play.buf, src.capt.buf
    {
      io.play == src.play && io.capt == src.capt && src.Valid() && |gens| == calls
    }

    /** The resampler has consumed the oldest captured frames, in capture order, and the others are
        waiting for it. */
    ghost predicate FedInOrder()
      requires Valid()
      reads this, io, io.cdev, src, src.play, src.capt, src.play.buf, src.capt.buf
    {
      && |fed| <= |io.cdev.captured|
      && fed == Packed(src.unpack, io.cdev.captured[..|fed|])
      && src.Unconsumed() == io.cdev.captured[|fed|..]
    }

    /** What was played and what is still to be played is `lead` and all the resampler produced. */
    ghost predicate PlayedInOrder(lead: seq<T>)
      requires Valid()
      reads this, io, io.pdev, src, src.play, src.capt, src.play.buf, src.capt.buf, src.dataOut
    {
      io.pdev.played + src.Unplayed() + src.Pending() == lead + Produced(src.pack, outputs, gens)
    }

    /** The part of pcmjob_start that fills the playback device with silence. With separate buffers it
        does no harm when the device cannot hold all of it: the rest is played next. */
    method Start(silence: T, lead: nat) returns (err: int)
      requires Valid() && calls == src.srcOutFrames == 0 && fed == [] && io.pdev.played == io.cdev.captured == []
      requires lead <= src.play.bufSize
      modifies io, src.play, src.capt, src.play.buf, io.pdev
      ensures src.play.buf == old(src.play.buf) && src.capt.buf == old(src.capt.buf)
      ensures err == 0 ==> Valid() && FedInOrder() && PlayedInOrder(Silence(silence, lead))
      ensures err == 0 ==> |io.pdev.played| == Min(lead, src.play.bufferSize)
    {
      io.reinit := false;
      src.play.bufPos, src.play.bufCount, src.capt.bufPos, src.capt.bufCount := 0, 0, 0, 0;
      var i := 0;
      while i < src.play.buf.Length
        invariant i <= src.play.buf.Length
        invariant forall k :: 0 <= k < i ==> src.play.buf[k] == silence
        modifies src.play.buf
      {
        src.play.buf[i] := silence;
        i := i + 1;
      }
      src.play.bufCount := lead;
      err := Prefill(silence, lead);
    }

    method Prefill(silence: T, lead: nat) returns (err: int)
      requires Valid() && calls == src.srcOutFrames == 0 && fed == [] && io.pdev.played == io.cdev.captured == []
      requires src.play.bufPos == src.capt.bufPos == src.capt.bufCount == 0 && lead == src.play.bufCount
      requires forall k :: 0 <= k < src.play.bufSize ==> src.play.buf[k] == silence
      modifies io, src.play, io.pdev
      ensures src.play.buf == old(src.play.buf)
      ensures err == 0 ==> Valid() && FedInOrder() && PlayedInOrder(Silence(silence, lead))
      ensures err == 0 ==> |io.pdev.played| == Min(lead, src.play.bufferSize)
    {
      ghost var n;
      err, n := io.WriteIt();
      SilentWindow(src.play.buf[..], silence, 0, n);
      SilentWindow(src.play.buf[..], silence, src.play.bufPos, src.play.bufCount);
      err := if err != Min(lead, src.play.bufferSize) then -EIO else 0;
      io.stopPending := false;
    }

    /** The count that readit returned: the frames it stored, or an error code taken as an unsigned number.
        Unless an answer of the device was short, it is all that was announced, as far as there was room. */
    ghost predicate ReadCounted(ccount: nat, captured: nat, count: nat, shorts: nat)
      reads io, io.cdev, src, src.capt
    {
      && captured <= |io.cdev.captured| && shorts <= io.cdev.shorts
      && (ccount < 0x8000_0000_0000_0000 ==> |io.cdev.captured| == captured + ccount)
      && (0x8000_0000_0000_0000 <= ccount ==> |io.cdev.captured| == captured)
      && (io.cdev.shorts == shorts && 0 <= io.cdev.announced && ccount < 0x8000_0000_0000_0000 ==>
            ccount == Min(io.cdev.announced, src.capt.bufSize - count))
    }

    /** readit: what it stores follows the frames that are waiting for the resampler. */
    method CaptureStep(ghost lead: seq<T>) returns (ccount: nat)
      requires Valid() && FedInOrder() && PlayedInOrder(lead)
      modifies io`reinit, src.capt, src.capt.buf, io.cdev
      ensures Valid() && FedInOrder() && PlayedInOrder(lead)
      ensures src.capt.buf == old(src.capt.buf) && src.capt.bufSize == old(src.capt.bufSize)
      ensures ReadCounted(ccount, old(|io.cdev.captured|), old(src.capt.bufCount), old(io.cdev.shorts))
      ensures ccount == 0 ==> src.capt.bufCount == old(src.capt.bufCount)
    {
      ghost var buf0, first, count0, captured0 := src.capt.buf[..], src.First(), src.capt.bufCount, io.cdev.captured;
      ghost var pending, unplayed := src.Pending(), src.Unplayed();
      var res;
      ghost var data;
      res, data := io.ReadIt();
      ccount := Uframes(res);
      PutExtendsWindow(buf0, first, count0, data);
      assert src.capt.bufCount == 0 || src.First() == first;
      assert src.Unconsumed() == captured0[|fed|..] + data;
      assert io.cdev.captured[..|fed|] == captured0[..|fed|];
      assert src.Pending() == pending && src.Unplayed() == unplayed;
    }

    /** buf_add: the number of frames is not used, so that an error code does no harm here. */
    method BufAdd(count: nat, ghost lead: seq<T>)
      requires Valid() && FedInOrder() && PlayedInOrder(lead)
      modifies this, src`srcOutFrames, src.dataIn, src.dataOut, src.capt`bufCount, src.play`bufCount, src.play.buf
      ensures Valid() && FedInOrder() && PlayedInOrder(lead)
      ensures src.capt.bufSize == old(src.capt.bufSize) && calls == old(calls) + if count > 0 then 1 else 0
      ensures count == 0 ==> src.capt.bufCount == old(src.capt.bufCount)
    {
      if count > 0 { Resample(lead); }
    }

    /** buf_add_src once; what it consumed and produced is not recorded in `fed` and `gens` yet. */
    method Call(ghost sent: seq<T>) returns (used: nat, gen: nat, ghost generated: seq<T>)
      requires Valid() && io.pdev.played + src.Unplayed() + src.Pending() == sent
      modifies src`srcOutFrames, src.dataIn, src.dataOut, src.capt`bufCount, src.play`bufCount, src.play.buf
      ensures Valid()
      ensures used <= |old(src.Unconsumed())| <= src.dataIn.Length
      ensures forall i :: 0 <= i < used ==> src.dataIn[i] == src.unpack(old(src.Unconsumed())[i])
      ensures src.Unconsumed() == old(src.Unconsumed())[used..]
      ensures gen <= |outputs(calls)| && generated == Packed(src.pack, outputs(calls)[..gen])
      ensures io.pdev.played + src.Unplayed() + src.Pending() == sent + generated
    {
      ghost var unplayed, pending := src.Unplayed(), src.Pending();
      var moved;
      used, moved, gen, generated := src.BufAddSrc(outputs(calls));
      StillInOrder(io.pdev.played, unplayed, pending, sent, generated, moved);
    }

    method Resample(ghost lead: seq<T>)
      requires Valid() && FedInOrder() && PlayedInOrder(lead)
      modifies this, src`srcOutFrames, src.dataIn, src.dataOut, src.capt`bufCount, src.play`bufCount, src.play.buf
      ensures Valid() && FedInOrder() && PlayedInOrder(lead)
      ensures calls == old(calls) + 1
    {
      ghost var produced := Produced(src.pack, outputs, gens);
      var used, gen;
      ghost var generated;
      used, gen, generated := Call(lead + produced);
      AppendTo(lead, produced, generated);
      ProducedMore(src.pack, outputs, gens, gen);
      gens, calls := gens + [gen], calls + 1;
      PackedMore(src.unpack, io.cdev.captured, |fed|, used, fed, src.dataIn[..used]);
      fed := fed + src.dataIn[..used];
    }

    /** The count that writeit returned, in the same way. */
    ghost predicate WriteCounted(pcount: nat, played: nat, shorts: nat)
      reads io, io.pdev, src, src.play
    {
      && shorts <= io.pdev.shorts
      && (pcount < 0x8000_0000_0000_0000 ==> |io.pdev.played| == played + pcount)
      && (io.pdev.shorts == shorts && 0 <= io.pdev.announced && !io.reinit && pcount < 0x8000_0000_0000_0000 ==>
            pcount == Min(io.pdev.announced, src.play.bufCount + pcount))
    }

    /** writeit: what it takes are the oldest frames of the playback ring. buf_remove has nothing to
        do with separate buffers. */
    method PlayStep(ghost lead: seq<T>) returns (pcount: nat)
      requires Valid() && FedInOrder() && PlayedInOrder(lead)
      modifies io`reinit, io`stopPending, io`stopCount, src.play, io.pdev
      ensures Valid() && FedInOrder() && PlayedInOrder(lead)
      ensures src.play.buf == old(src.play.buf) && src.capt.xrunPending == old(src.capt.xrunPending)
      ensures WriteCounted(pcount, old(|io.pdev.played|), old(io.pdev.shorts))
    {
      pcount := Write(io.pdev.played + src.Unplayed() + src.Pending());
    }

    method Write(ghost sent: seq<T>) returns (pcount: nat)
      requires Valid() && io.pdev.played + src.Unplayed() + src.Pending() == sent
      modifies io`reinit, io`stopPending, io`stopCount, src.play, io.pdev
      ensures Valid() && io.pdev.played + src.Unplayed() + src.Pending() == sent
      ensures src.play.buf == old(src.play.buf) && src.capt.xrunPending == old(src.capt.xrunPending)
      ensures WriteCounted(pcount, old(|io.pdev.played|), old(io.pdev.shorts))
    {
      ghost var buf0, pos0, count0 := src.play.buf[..], src.play.bufPos, src.play.bufCount;
      ghost var pending, played := src.Pending(), io.pdev.played;
      var res;
      ghost var n;
      res, n := io.WriteIt();
      pcount := Uframes(res);
      TakenInOrder(buf0, pos0, n, count0, played, pending);
      assert src.Pending() == pending;
    }

    /** Behind the first `cshorts` and `pshorts` short answers, the devices or the buffers have nothing
        left to move. */
    ghost predicate NothingLeft(cshorts: nat, pshorts: nat)
      reads io, io.cdev, io.pdev, src, src.play, src.capt
    {
      && (io.cdev.shorts == cshorts ==> io.cdev.announced <= 0 || src.capt.bufCount == src.capt.bufSize)
      && (io.pdev.shorts == pshorts ==> io.pdev.announced <= 0 || src.play.bufCount == 0)
    }

    /** One round of the do-loop of pcmjob_pollfds_handle. The resampler is called once for every read
        that gave frames, or an error code. */
    method Round(idle: bool, pcount0: nat, ghost lead: seq<T>) returns (ccount: nat, pcount: nat, stop: bool)
      requires Valid() && FedInOrder() && PlayedInOrder(lead)
      modifies this, io, src.play, src.capt, src.play.buf, src.capt.buf, io.pdev, io.cdev
      modifies src, src.dataIn, src.dataOut
      ensures Valid() && FedInOrder() && PlayedInOrder(lead)
      ensures src.play.buf == old(src.play.buf) && src.capt.buf == old(src.capt.buf)
      ensures calls == old(calls) + if ccount > 0 then 1 else 0
      ensures ReadCounted(ccount, old(|io.cdev.captured|), old(src.capt.bufCount), old(io.cdev.shorts))
      ensures stop <==> (idle && ccount == 0) || src.play.xrunPending || src.capt.xrunPending || io.reinit
      ensures old(io.pdev.shorts) <= io.pdev.shorts
      ensures !stop ==> WriteCounted(pcount, old(|io.pdev.played|), old(io.pdev.shorts))
      ensures !stop && ccount == 0 && pcount == 0 ==> NothingLeft(old(io.cdev.shorts), old(io.pdev.shorts))
    {
      pcount, stop := pcount0, true;
      ccount := ReadHalf(idle, lead);
      if (idle && ccount == 0) || src.capt.xrunPending || io.reinit { return; }
      pcount, stop := WriteHalf(lead);
    }

    /** The part of a round behind the first test for an xrun. */
    method WriteHalf(ghost lead: seq<T>) returns (pcount: nat, stop: bool)
      requires Valid() && FedInOrder() && PlayedInOrder(lead)
      modifies io`reinit, io`stopPending, io`stopCount, src.play, io.pdev
      ensures Valid() && FedInOrder() && PlayedInOrder(lead)
      ensures src.play.buf == old(src.play.buf) && src.capt.xrunPending == old(src.capt.xrunPending)
      ensures stop <==> src.play.xrunPending || io.reinit
      ensures WriteCounted(pcount, old(|io.pdev.played|), old(io.pdev.shorts))
    {
      pcount := PlayStep(lead);
      if pcount > 0 { SetStall(0, lead); }
      stop := src.play.xrunPending || io.reinit;
    }

    /** The part of a round in front of the first test for an xrun. */
    method ReadHalf(idle: bool, ghost lead: seq<T>) returns (ccount: nat)
      requires Valid() && FedInOrder() && PlayedInOrder(lead)
      modifies this, io`reinit, src.play`stall, src.capt, src.capt.buf, io.cdev
      modifies src`srcOutFrames, src.dataIn, src.dataOut, src.play`bufCount, src.play.buf
      ensures Valid() && FedInOrder() && PlayedInOrder(lead)
      ensures src.play.buf == old(src.play.buf) && src.capt.buf == old(src.capt.buf)
      ensures calls == old(calls) + if ccount > 0 then 1 else 0
      ensures ReadCounted(ccount, old(|io.cdev.captured|), old(src.capt.bufCount), old(io.cdev.shorts))
      ensures ccount == 0 ==> src.capt.bufCount == old(src.capt.bufCount)
    {
      ccount := CaptureStep(lead);
      Stalls(idle, ccount, lead);
      if idle && ccount == 0 { return; }
      BufAdd(ccount, lead);
    }

    method Stalls(idle: bool, ccount: nat, ghost lead: seq<T>)
      requires Valid() && FedInOrder() && PlayedInOrder(lead)
      modifies src.play`stall
      ensures Valid() && FedInOrder() && PlayedInOrder(lead)
    {
      if idle && ccount == 0 {
        src.play.stall := if src.play.stall > 20 then 0 else src.play.stall + 1;
      } else if ccount > 0 {
        src.play.stall := 0;
      }
    }

    method SetStall(stall: nat, ghost lead: seq<T>)
      requires Valid() && FedInOrder() && PlayedInOrder(lead)
      modifies src.play`stall
      ensures Valid() && FedInOrder() && PlayedInOrder(lead)
    {
      src.play.stall := stall;
    }

    /** The do-loop: at most ten rounds. It ends after ten of them, or with an xrun or a request to start
        again, or because the last one moved nothing; where it ends because nothing moved and no answer
        was short, there was nothing left to move. */
    method Transfer(prevents: bool, crevents: bool, ghost lead: seq<T>) returns (rounds: nat, ccount: nat, pcount: nat)
      requires Valid() && FedInOrder() && PlayedInOrder(lead)
      modifies this, io, src.play, src.capt, src.play.buf, src.capt.buf, io.pdev, io.cdev
      modifies src, src.dataIn, src.dataOut
      ensures Valid() && FedInOrder() && PlayedInOrder(lead)
      ensures src.play.buf == old(src.play.buf) && src.capt.buf == old(src.capt.buf)
      ensures 1 <= rounds <= 10 && calls <= old(calls) + rounds
      ensures rounds == 10 || src.play.xrunPending || src.capt.xrunPending || io.reinit
              || (ccount == 0 && (pcount == 0 || (rounds == 1 && prevents && !crevents)))
      ensures rounds > 1 && ccount == pcount == 0 && !src.play.xrunPending && !src.capt.xrunPending && !io.reinit ==>
                NothingLeft(old(io.cdev.shorts), old(io.pdev.shorts))
    {
      rounds, ccount, pcount := 0, 1, 0;
      var stop := false;
      while !stop && (ccount > 0 || pcount > 0) && rounds < 10
        invariant rounds <= 10 && Valid() && FedInOrder() && PlayedInOrder(lead)
        invariant src.play.buf == old(src.play.buf) && src.capt.buf == old(src.capt.buf)
        invariant 0 < rounds || (ccount == 1 && !stop)
        invariant calls <= old(calls) + rounds
        invariant old(io.cdev.shorts) <= io.cdev.shorts && old(io.pdev.shorts) <= io.pdev.shorts
        invariant 0 < rounds && !stop && ccount == 0 && pcount == 0 ==> NothingLeft(old(io.cdev.shorts), old(io.pdev.shorts))
        invariant stop ==> src.play.xrunPending || src.capt.xrunPending || io.reinit
                           || (ccount == 0 && rounds == 1 && prevents && !crevents)
        decreases 10 - rounds
      {
        ccount, pcount, stop := Round(prevents && !crevents && rounds == 0, pcount, lead);
        rounds := rounds + 1;
      }
    }

    /** A whole session, one Transfer per wake-up, up to and including the one that ends with an xrun
        or a request to start again. Whatever the devices answer, error codes included, the resampler
        has consumed a prefix of the captured frames, and the playback device has received a prefix of
        the lead followed by everything the resampler has produced. Of the C code this holds for one
        channel; for more, as long as no call finds frames pending and room for others
        (ResampleArea.OutputAreaSparesPending). */
    method Session(wakeups: seq<(bool, bool)>, ghost lead: seq<T>) returns (resync: bool, served: nat)
      requires Valid() && FedInOrder() && PlayedInOrder(lead)
      modifies this, io, src.play, src.capt, src.play.buf, src.capt.buf, io.pdev, io.cdev
      modifies src, src.dataIn, src.dataOut
      ensures Valid() && FedInOrder() && PlayedInOrder(lead)
      ensures fed <= Packed(src.unpack, io.cdev.captured)
      ensures |fed| + src.capt.bufCount == |io.cdev.captured|
      ensures io.pdev.played <= lead + Produced(src.pack, outputs, gens)
      ensures |io.pdev.played| + src.play.bufCount + src.srcOutFrames == |lead + Produced(src.pack, outputs, gens)|
      ensures served <= |wakeups| && (!resync ==> served == |wakeups|)
      ensures served > 0 ==> (resync <==> src.play.xrunPending || src.capt.xrunPending || io.reinit)
    {
      resync, served := false, 0;
      while !resync && served < |wakeups|
        invariant Valid() && FedInOrder() && PlayedInOrder(lead) && served <= |wakeups|
        invariant src.play.buf == old(src.play.buf) && src.capt.buf == old(src.capt.buf)
        invariant served > 0 ==> (resync <==> src.play.xrunPending || src.capt.xrunPending || io.reinit)
      {
        var _, _, _ := Transfer(wakeups[served].0, wakeups[served].1, lead);
        resync := src.play.xrunPending || src.capt.xrunPending || io.reinit;
        served := served + 1;
      }
      assert lead + Produced(src.pack, outputs, gens) == io.pdev.played + (src.Unplayed() + src.Pending());
    }

    /** A whole job: the initial silence and then a session. If the start succeeds, the playback device has
        received a prefix of the silence and everything the resampler has produced, the resampler has
        consumed a prefix of the captured frames, and all the rest is waiting. */
    method Run(silence: T, lead: nat, wakeups: seq<(bool, bool)>) returns (err: int, resync: bool, served: nat)
      requires Valid() && calls == src.srcOutFrames == 0 && fed == [] && io.pdev.played == io.cdev.captured == []
      requires lead <= src.play.bufSize
      modifies this, io, src.play, src.capt, src.play.buf, src.capt.buf, io.pdev, io.cdev
      modifies src, src.dataIn, src.dataOut
      ensures err == 0 ==> Valid() && fed <= Packed(src.unpack, io.cdev.captured)
      ensures err == 0 ==> |fed| + src.capt.bufCount == |io.cdev.captured|
      ensures err == 0 ==> io.pdev.played <= Silence(silence, lead) + Produced(src.pack, outputs, gens)
      ensures err == 0 ==>
        |io.pdev.played| + src.play.bufCount + src.srcOutFrames == lead + |Produced(src.pack, outputs, gens)|
      ensures err == 0 ==> served <= |wakeups| && (!resync ==> served == |wakeups|)
      ensures err == 0 && served > 0 ==> (resync <==> src.play.xrunPending || src.capt.xrunPending || io.reinit)
    {
      resync, served := false, 0;
      err := Start(silence, lead);
      if err == 0 { resync, served := Session(wakeups, Silence(silence, lead)); }
    }
  }
}
