/** Blocks of other types in front of the data of a Creative Voice file. Their size field does not count
    the four bytes of the header, but axfer reads as if it did. */
module VocSkip {
  import opened Bytes
  import opened Formats
  import opened VocTime
  import opened Voc

  /** A block of a type that is skipped, as the format lays it out. */
  function OtherBlock(kind: Byte, payload: seq<Byte>): (s: seq<Byte>)
    ensures |s| == 4 + |payload|
  {
    [kind] + Size24(|payload|) + payload
  }

  /** Four bytes that read as a whole block of four bytes. */
  predicate SkipsFour(q: seq<Byte>) {
    |q| == 4 && Skipped(q[0]) && (q[0] == CONTINUOUS_DATA || ParseSize(q[1..4]) == 4)
  }

  lemma {:induction false} StopsBehind(st: State, last: Byte, s: seq<Byte>)
    ensures var r := ScanBlocks(st, last, s); r.Stopped? ==> |r.rest| < |s|
    decreases |s|
  {
    var t := Turn(st, last, s);
    if t.OneMore? && |t.rest| < |s| { StopsBehind(t.state, t.last, t.rest); }
  }

  /** The scan stops in front of the last `n` bytes. */
  predicate StopsAt(st: State, last: Byte, s: seq<Byte>, n: nat) {
    var r := ScanBlocks(st, last, s);
    r.Stopped? && |r.rest| == n
  }

  /** How many bytes a block takes that ends the scan. */
  lemma LastBlock(st: State, last: Byte, s: seq<Byte>, n: nat)
    requires Turn(st, last, s).Done? && StopsAt(st, last, s, n) && s != []
    ensures |s| == n + if s[0] == TERMINATOR then 1 else if s[0] == DATA_V110 then 6 else 16
    ensures s[0] == TERMINATOR || s[0] == DATA_V110 || s[0] == DATA_V120
    ensures var st' := ScanBlocks(st, last, s).state;
      && (s[0] == TERMINATOR ==> st' == st)
      && (s[0] == DATA_V110 && !st.extended ==> st'.channels == 1)
  {
  }

  /** From inside the block of a 1.20 file, the scan does not stop at its end. */
  lemma {:induction false} Inside120(st: State, last: Byte, b: seq<Byte>, k: nat, frames: seq<Byte>)
    requires |b| == 16 && b[15] != TERMINATOR && b[10] != DATA_V110 && 1 <= k <= 16
    ensures !StopsAt(st, last, b[k..] + frames, |frames|)
    decreases 16 - k
  {
    var s := b[k..] + frames;
    StopsBehind(st, last, s);
    if k < 16 && StopsAt(st, last, s, |frames|) {
      assert s[0] == b[k];
      var t := Turn(st, last, s);
      if t.Done? {
        LastBlock(st, last, s, |frames|);
        assert false;
      } else {
        NextInside(st, last, b, k, frames);
        var n := |s| - |t.rest|;
        if k + n <= 16 { Inside120(t.state, t.last, b, k + n, frames); } else { StopsBehind(t.state, t.last, t.rest); }
      }
    }
  }

  /** Where the next block begins. */
  lemma NextInside(st: State, last: Byte, b: seq<Byte>, k: nat, frames: seq<Byte>)
    requires k < |b| && Turn(st, last, b[k..] + frames).OneMore?
    ensures var t := Turn(st, last, b[k..] + frames);
      var n := |b[k..] + frames| - |t.rest|;
      && 0 < n
      && (k + n <= |b| ==> t.rest == b[k + n..] + frames)
      && (b[k] != FORMAT_EXTENDED ==> t.state == st && 4 <= n)
      && (b[k] == FORMAT_EXTENDED ==> n == 8 || t.rest == [])
  {
    var s := b[k..] + frames;
    var t := Turn(st, last, s);
    assert s[0] == b[k];
    var n := |s| - |t.rest|;
    assert t.rest == s[n..];
    if k + n <= |b| { assert s[n..] == b[k + n..] + frames; }
  }

  /** What a scan that stops behind the blocks of a file in spite of being out of step has found: no rate,
      or a single channel in a stereo file. */
  predicate NotFound(b: seq<Byte>, st: State) {
    st.rate == 0 || (|b| >= 7 && st.channels == 1)
  }

  /** From inside the blocks of a 1.10 file, no extended block is found, and not what is in the file. */
  lemma {:induction false} Inside110(st: State, last: Byte, b: seq<Byte>, k: nat, frames: seq<Byte>)
    requires 1 <= k <= |b| <= 14 && st.rate == 0 && !st.extended
    requires forall j :: 1 <= j && j + 8 <= |b| ==> b[j] != FORMAT_EXTENDED
    ensures StopsAt(st, last, b[k..] + frames, |frames|) ==>
            NotFound(b, ScanBlocks(st, last, b[k..] + frames).state)
    decreases |b| - k
  {
    var s := b[k..] + frames;
    StopsBehind(st, last, s);
    if k < |b| && StopsAt(st, last, s, |frames|) {
      assert s[0] == b[k];
      var t := Turn(st, last, s);
      if t.Done? {
        LastBlock(st, last, s, |frames|);
      } else {
        NextInside(st, last, b, k, frames);
        var n := |s| - |t.rest|;
        StopsBehind(t.state, t.last, t.rest);
        if k + n <= |b| { Inside110(t.state, t.last, b, k + n, frames); }
      }
    }
  }

  // ----- one block more -----

  lemma ScanIgnoresLast(st: State, last: Byte, last': Byte, s: seq<Byte>)
    requires s != []
    ensures ScanBlocks(st, last, s) == ScanBlocks(st, last', s)
  {
  }

  /** A block is skipped but for its last four bytes. */
  lemma OtherBlockIsSkipped(kind: Byte, payload: seq<Byte>, s: seq<Byte>)
    requires 3 <= kind <= 7 && |payload| < 0x100_0000 && s != []
    ensures var r := ScanBlocks(INITIAL, TERMINATOR, OtherBlock(kind, payload) + s);
      if |payload| < 4 then r == Undefined
      else r == ScanBlocks(INITIAL, TERMINATOR, payload[|payload| - 4..] + s)
  {
    var n := |payload|;
    var b := OtherBlock(kind, payload) + s;
    SizeComesBack(n);
    assert n % 0x100_0000 == n;
    assert b[0] == kind && b[1..4] == Size24(n) && BlockSize(b) == n;
    if n >= 4 {
      assert b[n..] == payload[n - 4..] + s;
      assert Turn(INITIAL, TERMINATOR, b) == OneMore(INITIAL, kind, b[n..]);
      ScanIgnoresLast(INITIAL, kind, TERMINATOR, b[n..]);
    }
  }

  /** Four bytes that are skipped leave the scan as it would be without. */
  lemma FourAreSkipped(q: seq<Byte>, s: seq<Byte>)
    requires SkipsFour(q) && s != []
    ensures ScanBlocks(INITIAL, TERMINATOR, q + s) == ScanBlocks(INITIAL, TERMINATOR, s)
  {
    var b := q + s;
    assert b[0] == q[0] && b[1..4] == q[1..4] && b[4..] == s;
    assert Turn(INITIAL, TERMINATOR, b) == OneMore(INITIAL, q[0], s);
    ScanIgnoresLast(INITIAL, q[0], TERMINATOR, s);
  }

  /** What the proof needs to know of the blocks of a file. */
  predicate InStep(b: seq<Byte>) {
    && (|b| == 6 || |b| == 14 || |b| == 16)
    && if |b| == 16 then b[15] != TERMINATOR && b[10] != DATA_V110
       else b[4] > DATA_V120 && forall j :: 1 <= j && j + 8 <= |b| ==> b[j] != FORMAT_EXTENDED
  }

  lemma UnknownType(st: State, last: Byte, s: seq<Byte>)
    requires s != [] && s[0] > DATA_V120
    ensures ScanBlocks(st, last, s) == Bad
  {
  }

  /** Four other bytes put the scan out of step. */
  lemma FourAreNotSkipped(q: seq<Byte>, b: seq<Byte>, frames: seq<Byte>)
    requires |q| == 4 && !SkipsFour(q) && InStep(b)
    ensures StopsAt(INITIAL, TERMINATOR, q + (b + frames), |frames|) ==>
            |b| < 16 && NotFound(b, ScanBlocks(INITIAL, TERMINATOR, q + (b + frames)).state)
  {
    var s := q + (b + frames);
    assert s[0] == q[0] && s[1..4] == q[1..4];
    StopsBehind(INITIAL, TERMINATOR, s);
    if StopsAt(INITIAL, TERMINATOR, s, |frames|) {
      var t := Turn(INITIAL, TERMINATOR, s);
      if t.Done? {
        LastBlock(INITIAL, TERMINATOR, s, |frames|);
        assert false;
      } else {
        OutOfStep(t, q, b, frames);
      }
    }
  }

  /** Where the scan goes on behind four such bytes. */
  lemma BehindFour(t: Next, q: seq<Byte>, x: seq<Byte>)
    requires |q| == 4 && !SkipsFour(q) && |x| >= 6 && t == Turn(INITIAL, TERMINATOR, q + x) && t.OneMore?
    ensures var n := |q + x| - |t.rest|;
      && 4 < n && t.rest == (q + x)[n..]
      && if q[0] == FORMAT_EXTENDED then n == 8 else t.state == INITIAL
  {
    var s := q + x;
    assert s[0] == q[0] && s[1..4] == q[1..4];
    var n := |s| - |t.rest|;
    assert n == BlockSize(s);
    assert t.rest == s[n..];
  }

  lemma DropMore(q: seq<Byte>, b: seq<Byte>, frames: seq<Byte>, n: nat)
    requires |q| == 4 && 4 < n <= |b| + 4
    ensures (q + (b + frames))[n..] == b[n - 4..] + frames
  {
  }

  lemma OutOfStep(t: Next, q: seq<Byte>, b: seq<Byte>, frames: seq<Byte>)
    requires |q| == 4 && !SkipsFour(q) && InStep(b)
    requires t == Turn(INITIAL, TERMINATOR, q + (b + frames)) && t.OneMore?
    ensures StopsAt(t.state, t.last, t.rest, |frames|) ==> |b| < 16 && NotFound(b, ScanBlocks(t.state, t.last, t.rest).state)
  {
    BehindFour(t, q, b + frames);
    var n := |q + (b + frames)| - |t.rest|;
    if n - 4 <= |b| {
      DropMore(q, b, frames, n);
      StepInside(t.state, t.last, q, b, n - 4, frames);
    } else {
      StopsBehind(t.state, t.last, t.rest);
    }
  }

  lemma StepInside(st: State, last: Byte, q: seq<Byte>, b: seq<Byte>, k: nat, frames: seq<Byte>)
    requires |q| == 4 && InStep(b) && 1 <= k <= |b| && if q[0] == FORMAT_EXTENDED then k == 4 else st == INITIAL
    ensures var s := b[k..] + frames;
      StopsAt(st, last, s, |frames|) ==> |b| < 16 && NotFound(b, ScanBlocks(st, last, s).state)
  {
    if |b| == 16 {
      Inside120(st, last, b, k, frames);
    } else if q[0] == FORMAT_EXTENDED {
      assert (b[4..] + frames)[0] == b[4];
      UnknownType(st, last, b[4..] + frames);
    } else {
      Inside110(st, last, b, k, frames);
    }
  }

  // ----- the file -----

  /** A built file with one block more in front of the others. */
  function FileWith(p: Plan, rate: nat, size: nat, kind: Byte, payload: seq<Byte>, frames: seq<Byte>): seq<Byte> {
    FileHeader(p.version) + (OtherBlock(kind, payload) + (Blocks(p, rate, size) + frames))
  }

  lemma ParseByScan(version: nat, b: seq<Byte>)
    requires version == V110 || version == V120
    ensures Parse(FileHeader(version) + b) == match ScanBlocks(INITIAL, TERMINATOR, b)
            case Bad => (Invalid, [])
            case Undefined => (Overruns, [])
            case Spinning => (Spins, [])
            case Ended(st) => (Conclude(st), [])
            case Stopped(st, rest) => (Conclude(st), rest)
  {
    HeaderIsAccepted(version);
    Cut(FileHeader(version), b);
  }

  lemma BlocksInStep(p: Plan, rate: nat, size: nat)
    requires p.code in {0, 4, 6, 7} && (p.version == V110 ==> p.code == 0)
    requires p.version == V110 && p.extended ==> p.channels == 2 && Listed(rate)
    requires p.version == V110 && !p.extended ==> V110CodeFor(rate) != 0
    requires p.version == V110 || p.version == V120
    ensures InStep(Blocks(p, rate, size))
  {
    var b := Blocks(p, rate, size);
    if p.version == V120 {
      assert b[10] == p.code % 256;
    } else if p.extended {
      StereoBuild(rate);
      StereoBytes(rate);
    } else {
      assert b[4] == V110CodeFor(rate) % 256 && V110CodeFor(rate) % 256 > 9;
    }
  }

  lemma StereoBytes(rate: nat)
    requires Listed(rate)
    ensures StereoCode(rate).0 % 256 > 9 && StereoCode(rate).0 / 256 % 256 > 9
  {
  }

  /** What a built file without the block is parsed to, and the scan of its blocks. */
  lemma WithoutBlock(f: SampleFormat, channels: nat, rate: nat, p: Plan, size: nat, frames: seq<Byte>)
      returns (st: State)
    requires Supported(f) && 0 < channels && 0 < rate < 0x1_0000_0000 && p == PlanFor(f, channels, rate)
    ensures ScanBlocks(INITIAL, TERMINATOR, Blocks(p, rate, size) + frames) == Stopped(st, frames)
    ensures Conclude(st) == Expected(p, rate, size)
  {
    var b := Blocks(p, rate, size) + frames;
    PrologueParses(f, channels, rate, p, size, frames);
    Regroup(FileHeader(p.version), Blocks(p, rate, size), frames);
    ParseByScan(p.version, b);
    st := INITIAL;
    match ScanBlocks(INITIAL, TERMINATOR, b)
    case Stopped(st', rest) => st := st';
    case _ =>
      assert false;
  }

  /** A built file that has frames, with one block of silence, marker, text or repetition in front of the
      others, is parsed as without it, if and only if the payload of the block has at least four bytes
      and the last four read as a block of four bytes that is skipped. */
  lemma SkippedBlockIff(f: SampleFormat, channels: nat, rate: nat, p: Plan, size: nat, kind: Byte, payload: seq<Byte>,
                        frames: seq<Byte>)
    requires Supported(f) && 0 < channels && 0 < rate < 0x1_0000_0000 && p == PlanFor(f, channels, rate)
    requires 3 <= kind <= 7 && |payload| < 0x100_0000 && frames != []
    ensures Parse(FileWith(p, rate, size, kind, payload, frames)) == (Expected(p, rate, size), frames)
       <==> |payload| >= 4 && SkipsFour(payload[|payload| - 4..])
  {
    var b := Blocks(p, rate, size);
    var st := WithoutBlock(f, channels, rate, p, size, frames);
    ParseByScan(p.version, OtherBlock(kind, payload) + (b + frames));
    OtherBlockIsSkipped(kind, payload, b + frames);
    if |payload| >= 4 {
      var q := payload[|payload| - 4..];
      if SkipsFour(q) {
        FourAreSkipped(q, b + frames);
      } else {
        SkippedOutOfStep(f, channels, rate, p, size, q, frames);
      }
    }
  }

  lemma SkippedOutOfStep(f: SampleFormat, channels: nat, rate: nat, p: Plan, size: nat, q: seq<Byte>, frames: seq<Byte>)
    requires Supported(f) && 0 < channels && 0 < rate < 0x1_0000_0000 && p == PlanFor(f, channels, rate)
    requires |q| == 4 && !SkipsFour(q)
    ensures var r := ScanBlocks(INITIAL, TERMINATOR, q + (Blocks(p, rate, size) + frames));
      r.Stopped? && r.rest == frames ==> Conclude(r.state) != Expected(p, rate, size)
  {
    var b := Blocks(p, rate, size);
    if p.version == V110 && p.extended { CodeIsOfListed(rate); }
    BlocksInStep(p, rate, size);
    FourAreNotSkipped(q, b, frames);
    var r := ScanBlocks(INITIAL, TERMINATOR, q + (b + frames));
    if r.Stopped? && r.rest == frames {
      if p.extended {
        StereoRate(rate);
      } else {
        MonoRateComesBack(rate);
      }
    }
  }

  /** The rate that is read for a listed stereo rate is not zero. */
  lemma StereoRate(rate: nat)
    requires Listed(rate)
    ensures ParseExtended(CodeValue(BuildExtended(rate, 2)) % 65536, 2) != 0
  {
    StereoBuild(rate);
    StereoParse(rate);
  }
}
