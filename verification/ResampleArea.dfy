/** The output area that buf_add_src of alsaloop hands to the resampler: an array of samples, of which
    the frames at the start are still pending. */
module ResampleArea {
  import opened Arithmetic
  import opened Slots

  /** The first `n` frames of interleaved samples. */
  function Frames(s: seq<real>, channels: nat, n: nat): (f: seq<seq<real>>)
    requires channels * n <= |s|
    ensures |f| == n && forall i :: 0 <= i < n ==> channels * i + channels <= |s| && f[i] == Slot(s, channels, i)
  {
    if n == 0 then []
    else
      assert channels * n == channels * (n - 1) + channels;
      Frames(s, channels, n - 1) + [Slot(s, channels, n - 1)]
  }

  /** The output area after src_process: its pointer was moved on by the number of pending frames,
      which counts floats. */
  function Overlay(s: seq<real>, pending: nat, output: seq<real>): (r: seq<real>)
    requires pending + |output| <= |s|
    ensures |r| == |s|
  {
    s[..pending] + output + s[pending + |output|..]
  }

  /** The frames of the output area are those that were pending, followed by those generated. */
  ghost predicate InOrder(s: seq<real>, channels: nat, pending: nat, output: seq<real>, n: nat)
    requires channels * (pending + n) <= |s| && |output| == channels * n && pending + |output| <= |s|
  {
    channels * pending <= |s| &&
    Frames(Overlay(s, pending, output), channels, pending + n) == Frames(s, channels, pending) + Frames(output, channels, n)
  }

  lemma AreaBounds(channels: nat, pending: nat, n: nat, room: nat)
    requires 0 < channels && n <= room
    ensures channels * pending <= channels * (pending + n) <= channels * (pending + room)
    ensures pending + channels * n <= channels * (pending + n)
  {
    MulMono(pending, pending + n, channels);
    MulMono(pending + n, pending + room, channels);
    MulMono(1, channels, pending);
    assert channels * (pending + n) == channels * pending + channels * n;
  }

  lemma SlotOfPrefix(a: seq<real>, b: seq<real>, channels: nat, i: nat)
    requires channels * i + channels <= |a|
    ensures Slot(a + b, channels, i) == Slot(a, channels, i)
  {
  }

  lemma PrefixOfFrames(a: seq<real>, b: seq<real>, channels: nat, n: nat)
    requires channels * n == |a|
    ensures channels * n <= |a + b| && Frames(a + b, channels, n) == Frames(a, channels, n)
  {
    var f, g := Frames(a + b, channels, n), Frames(a, channels, n);
    forall i | 0 <= i < n
      ensures f[i] == g[i]
    {
      SlotOfPrefix(a, b, channels, i);
    }
  }

  lemma NothingPending(s: seq<real>, channels: nat, output: seq<real>, n: nat)
    requires 0 < channels && channels * (0 + n) <= |s| && |output| == channels * n && 0 + |output| <= |s|
    ensures InOrder(s, channels, 0, output, n)
  {
    var rest := s[|output|..];
    assert Overlay(s, 0, output) == output + rest;
    PrefixOfFrames(output, rest, channels, n);
    assert Frames(s, channels, 0) == [];
    assert [] + Frames(output, channels, n) == Frames(output, channels, n);
  }

  lemma SingleSample(s: seq<real>, n: nat, i: nat)
    requires i < n && 1 * n <= |s|
    ensures Frames(s, 1, n)[i] == [s[i]]
  {
  }

  lemma SamplesOfOverlay(s: seq<real>, pending: nat, output: seq<real>, i: nat)
    requires pending + |output| <= |s| && i < pending + |output|
    ensures Overlay(s, pending, output)[i] == if i < pending then s[i] else output[i - pending]
  {
  }

  lemma OneChannel(s: seq<real>, pending: nat, output: seq<real>, n: nat)
    requires 1 * (pending + n) <= |s| && |output| == 1 * n && pending + |output| <= |s|
    ensures InOrder(s, 1, pending, output, n)
  {
    var after := Overlay(s, pending, output);
    var f, g, h := Frames(after, 1, pending + n), Frames(s, 1, pending), Frames(output, 1, n);
    forall i | 0 <= i < pending + n
      ensures f[i] == (g + h)[i]
    {
      SingleSample(after, pending + n, i);
      SamplesOfOverlay(s, pending, output, i);
      if i < pending { SingleSample(s, pending, i); } else { SingleSample(output, n, i - pending); }
    }
  }

  lemma NothingGenerated(s: seq<real>, channels: nat, pending: nat, output: seq<real>)
    requires 0 < channels && channels * (pending + 0) <= |s| && pending <= |s| && output == []
    ensures InOrder(s, channels, pending, output, 0)
  {
    assert Frames(output, channels, 0) == [];
    assert Overlay(s, pending, output) == s;
    assert Frames(s, channels, pending) + [] == Frames(s, channels, pending);
  }

  /** With one channel, with nothing pending or nothing generated, the frames are in order. */
  lemma OutputFollowsPending(s: seq<real>, channels: nat, pending: nat, output: seq<real>, n: nat)
    requires 0 < channels && channels * (pending + n) <= |s| && |output| == channels * n
    requires pending + |output| <= |s|
    requires channels == 1 || pending == 0 || n == 0
    ensures InOrder(s, channels, pending, output, n)
  {
    if channels == 1 {
      OneChannel(s, pending, output, n);
    } else if pending == 0 {
      NothingPending(s, channels, output, n);
    } else {
      assert output == [];
      NothingGenerated(s, channels, pending, output);
    }
  }

  function Flat(x: real, n: nat): (s: seq<real>)
    ensures |s| == n && forall i :: 0 <= i < n ==> s[i] == x
  {
    seq(n, _ => x)
  }

  lemma FrameOf(channels: nat, k: nat, frames: nat) returns (i: nat)
    requires 0 < channels && k < channels * frames
    ensures i < frames && channels * i <= k < channels * i + channels
  {
    i := k / channels;
    if frames <= i { MulMono(frames, i, channels); }
  }

  /** With more channels and something pending, one generated frame spoils a pending one. */
  lemma OutputSpoilsPending(channels: nat, pending: nat, s: seq<real>, output: seq<real>)
    requires 1 < channels && 0 < pending && channels * (pending + 1) <= |s| && |output| == channels * 1
    requires (forall k :: 0 <= k < |s| ==> s[k] == 0.0) && forall k :: 0 <= k < |output| ==> output[k] == 1.0
    ensures pending + |output| <= |s| && !InOrder(s, channels, pending, output, 1)
  {
    AreaBounds(channels, pending, 1, 1);
    MulMono(2, channels, pending);
    var i := FrameOf(channels, pending, pending);
    var after := Overlay(s, pending, output);
    var f, g := Frames(after, channels, pending + 1), Frames(s, channels, pending);
    SamplesOfOverlay(s, pending, output, pending);
    SampleOfFrame(after, channels, pending + 1, i, pending);
    SampleOfFrame(s, channels, pending, i, pending);
    assert (g + Frames(output, channels, 1))[i] == g[i];
  }

  lemma SampleOfFrame(s: seq<real>, channels: nat, n: nat, i: nat, k: nat)
    requires channels * n <= |s| && i < n && channels * i <= k < channels * i + channels
    ensures k < |s| && |Frames(s, channels, n)[i]| == channels && Frames(s, channels, n)[i][k - channels * i] == s[k]
  {
    SampleOfSlice(Frames(s, channels, n)[i], s, channels * i, channels, k);
  }

  lemma SampleOfSlice(f: seq<real>, s: seq<real>, at: nat, n: nat, k: nat)
    requires at + n <= |s| && f == s[at..at + n] && at <= k < at + n
    ensures |f| == n && f[k - at] == s[k]
  {
  }

  /** Whatever is in the output area and whatever is generated into its room, the frames there are
      the pending ones followed by the generated ones. */
  ghost predicate AlwaysInOrder(channels: nat, pending: nat, room: nat)
    requires 0 < channels
  {
    forall s: seq<real>, output: seq<real>, n: nat ::
      n <= room && channels * (pending + n) <= |s| && |output| == channels * n && pending + |output| <= |s|
      ==> InOrder(s, channels, pending, output, n)
  }

  /** The resampler is offered an area that begins `pending` floats, not `pending` frames, after the
      start of the buffer, and has room for `room` frames. That is harmless if and only if there is
      one channel, nothing is pending, or there is no room. */
  lemma OutputAreaSparesPending(channels: nat, pending: nat, room: nat)
    requires 0 < channels
    ensures AlwaysInOrder(channels, pending, room) <==> channels == 1 || pending == 0 || room == 0
  {
    if channels == 1 || pending == 0 || room == 0 {
      forall s: seq<real>, output: seq<real>, n: nat
        | n <= room && channels * (pending + n) <= |s| && |output| == channels * n && pending + |output| <= |s|
        ensures InOrder(s, channels, pending, output, n)
      {
        OutputFollowsPending(s, channels, pending, output, n);
      }
    } else {
      OutputSpoilsPending(channels, pending, Flat(0.0, channels * (pending + 1)), Flat(1.0, channels * 1));
    }
  }
}
