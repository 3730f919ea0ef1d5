/** The copy loop of one alsaloop job whose two handles share a single buffer: capture stores
    frames at one position, playback takes them from another, and the pair is meant to act as
    a delay line that loses nothing. */
module PcmJob {
  import opened Arithmetic
  import opened Ring

  const EIO := 5
  const EPIPE := 32
  const ESTRPIPE := 86
  const MAX_ERRNO := 4095

  /** Conversion to snd_pcm_uframes_t. */
  function Uframes(x: int): nat {
    x % 0x1_0000_0000_0000_0000
  }

  function Silence<T>(silence: T, count: nat): seq<T> {
    seq(count, _ => silence)
  }

  // ----- the delay line as a value -----

  /** A job between two steps of the copy loop. Playback reads at `ppos`, capture writes at
      `cpos`, `count` frames are waiting; `played` and `captured` are everything the two
      devices have taken and delivered so far. */
  datatype Job<T> = Job(buf: seq<T>, ppos: nat, cpos: nat, count: nat,
                        played: seq<T>, captured: seq<T>)
  {
    /** Both handles agree on where the waiting frames are. */
    predicate Shaped() {
      && ppos < |buf| && cpos < |buf| && count <= |buf|
      && cpos == Wrap(ppos + count, |buf|)
    }
  }

  function Waiting<T>(j: Job<T>): seq<T>
    requires j.Shaped()
  {
    Window(j.buf, j.ppos, j.count)
  }

  /** Everything that was put in comes out in order. */
  ghost predicate Lossless<T>(j: Job<T>, lead: seq<T>)
    requires j.Shaped()
  {
    j.played + Waiting(j) == lead + j.captured
  }

  /** What one step moved: frames read from the capture device, a number of frames accepted by
      the playback device, or a number of frames thrown away to catch up. */
  datatype Event<T> = Captured(data: seq<T>) | Played(frames: nat) | Dropped(frames: nat)

  predicate Possible<T>(j: Job<T>, e: Event<T>) {
    match e
    case Captured(data) => j.count + |data| <= |j.buf|
    case Played(n) => n <= j.count
    case Dropped(n) => n <= j.count
  }

  function Step<T>(j: Job<T>, e: Event<T>): (j': Job<T>)
    requires j.Shaped() && Possible(j, e)
    ensures j'.Shaped() && |j'.buf| == |j.buf|
  {
    match e
    case Captured(data) =>
      j.(buf := Put(j.buf, j.cpos, data), cpos := Wrap(j.cpos + |data|, |j.buf|),
         count := j.count + |data|, captured := j.captured + data)
    case Played(n) =>
      j.(ppos := Wrap(j.ppos + n, |j.buf|), count := j.count - n,
         played := j.played + Window(j.buf, j.ppos, n))
    case Dropped(n) =>
      j.(ppos := Wrap(j.ppos + n, |j.buf|), count := j.count - n)
  }

  predicate Runs<T>(j: Job<T>, events: seq<Event<T>>)
    requires j.Shaped()
    decreases |events|
  {
    events == [] || (Possible(j, events[0]) && Runs(Step(j, events[0]), events[1..]))
  }

  function Run<T>(j: Job<T>, events: seq<Event<T>>): (j': Job<T>)
    requires j.Shaped() && Runs(j, events)
    ensures j'.Shaped() && |j'.buf| == |j.buf|
    decreases |events|
  {
    if events == [] then j else Run(Step(j, events[0]), events[1..])
  }

  /** One step that moves frames keeps the line lossless. */
  lemma StepIsLossless<T>(j: Job<T>, e: Event<T>, lead: seq<T>)
    requires j.Shaped() && Possible(j, e) && Lossless(j, lead) && !e.Dropped?
    ensures Lossless(Step(j, e), lead)
  {
    match e
    case Captured(data) =>
      PutExtendsWindow(j.buf, j.ppos, j.count, data);
      var j' := Step(j, e);
      assert Waiting(j') == Waiting(j) + data;
      assert j.played + (Waiting(j) + data) == (j.played + Waiting(j)) + data;
      assert lead + (j.captured + data) == (lead + j.captured) + data;
    case Played(n) =>
      SplitWindow(j.buf, j.ppos, n, j.count - n);
      var out := Window(j.buf, j.ppos, n);
      assert j.played + (out + Waiting(Step(j, e))) == (j.played + out) + Waiting(Step(j, e));
  }

  /** Dropping throws away the oldest waiting frames and nothing else. */
  lemma DropTakesTheOldest<T>(j: Job<T>, n: nat)
    requires j.Shaped() && n <= j.count
    ensures Waiting(Step(j, Dropped(n))) == Waiting(j)[n..]
  {
    SplitWindow(j.buf, j.ppos, n, j.count - n);
  }

  /** Main result for the shared buffer: for every schedule of partial reads and writes, what
      the playback device has received is at every moment a prefix of the leading silence
      followed by the captured frames, and the rest is still waiting. */
  lemma {:induction false} RunIsDelayLine<T>(j: Job<T>, events: seq<Event<T>>, lead: seq<T>)
    requires j.Shaped() && Runs(j, events) && Lossless(j, lead)
    requires forall e :: e in events ==> !e.Dropped?
    ensures Lossless(Run(j, events), lead)
    ensures Run(j, events).played <= lead + Run(j, events).captured
    ensures |Run(j, events).played| + Run(j, events).count == |lead| + |Run(j, events).captured|
    decreases |events|
  {
    if events != [] {
      StepIsLossless(j, events[0], lead);
      RunIsDelayLine(Step(j, events[0]), events[1..], lead);
    } else {
      assert j.played + Waiting(j) == lead + j.captured;
    }
  }

  lemma {:induction false} RunConcat<T>(j: Job<T>, a: seq<Event<T>>, b: seq<Event<T>>)
    requires j.Shaped() && Runs(j, a) && Runs(Run(j, a), b)
    ensures Runs(j, a + b)
    ensures Run(j, a + b) == Run(Run(j, a), b)
    decreases |a|
  {
    if a == [] {
      assert a + b == b;
    } else {
      assert (a + b)[1..] == a[1..] + b;
      RunConcat(Step(j, a[0]), a[1..], b);
    }
  }

  /** Reads and writes in turn, beginning with a read. */
  predicate InTurn<T>(events: seq<Event<T>>) {
    forall k :: 0 <= k < |events| ==> if k % 2 == 0 then events[k].Captured? else events[k].Played?
  }

  /** What `rounds` rounds did, the last of which moved `ccount` and `pcount` frames: all but the last
      moved something, and all wrote unless the last one stopped before. */
  ghost predicate RoundsDone<T>(events: seq<Event<T>>, rounds: nat, ccount: nat, pcount: nat, stop: bool) {
    && InTurn(events)
    && (|events| == 2 * rounds || (stop && |events| == 2 * rounds - 1))
    && (forall k :: 0 <= k < |events| - 2 && k % 2 == 0 ==> events[k] != Captured([]) || events[k + 1] != Played(0))
    && (0 < rounds ==> events[2 * rounds - 2].Captured? && ccount == |events[2 * rounds - 2].data|)
    && (0 < rounds && |events| == 2 * rounds ==> events[2 * rounds - 1].Played? && pcount == events[2 * rounds - 1].frames)
  }

  lemma OneMoreRound<T>(events: seq<Event<T>>, more: seq<Event<T>>, rounds: nat, c: nat, p: nat, ccount: nat, pcount: nat, stop: bool)
    requires RoundsDone(events, rounds, c, p, false) && (0 < rounds ==> 0 < c || 0 < p)
    requires InTurn(more) && 1 <= |more| <= 2 && ccount == |more[0].data|
    requires if |more| == 1 then stop else pcount == more[1].frames
    ensures RoundsDone(events + more, rounds + 1, ccount, pcount, stop)
  {
    var all := events + more;
    forall k | 0 <= k < |all|
      ensures if k % 2 == 0 then all[k].Captured? else all[k].Played?
    {
      if k >= 2 * rounds { assert all[k] == more[k - 2 * rounds]; }
    }
  }

  /** Rounds that came to an end. */
  lemma RoundsOver<T>(events: seq<Event<T>>, rounds: nat, ccount: nat, pcount: nat, stop: bool)
    requires RoundsDone(events, rounds, ccount, pcount, stop) && 0 < rounds <= 10
    requires stop || (ccount == 0 && pcount == 0) || rounds == 10
    ensures 1 <= |events| <= 20
    ensures |events| == 20 || stop || (|events| >= 2 && events[|events| - 2..] == [Captured([]), Played(0)])
    ensures |events| >= 2 && events[|events| - 2..] == [Captured([]), Played(0)] ==>
              |events| % 2 == 0 && ccount == 0 && pcount == 0
  {
    if |events| >= 2 {
      var last := events[|events| - 2..];
      assert last[0] == events[|events| - 2] && last[1] == events[|events| - 1];
      assert |last| == 2;
    }
  }

  /** The events of one round. */
  lemma ShortRuns<T>(j: Job<T>, e: Event<T>, f: Event<T>)
    requires j.Shaped() && Possible(j, e)
    ensures Runs(j, [e]) && Run(j, [e]) == Step(j, e)
    ensures Possible(Step(j, e), f) ==>
              Runs(j, [e, f]) && Run(j, [e, f]) == Step(Step(j, e), f)
  {
    assert [e][1..] == [];
    if Possible(Step(j, e), f) {
      assert [e, f][1..] == [f] && [f][1..] == [];
      assert Run(Step(j, e), [f]) == Step(Step(j, e), f);
    }
  }

  /** Behind `left` waiting frames that the capture handle does not count, a capture device may
      deliver more than there is room for. The frame at position `i` of the waiting ones is then
      the delivered one that lies a whole buffer further, if there is one. */
  lemma OverfullCapture<T>(buf: seq<T>, ppos: nat, left: nat, data: seq<T>, i: nat)
    requires ppos < |buf| && i < left <= |buf| && |data| <= |buf|
    ensures Window(Put(buf, Wrap(ppos + left, |buf|), data), ppos, left)[i]
         == if |buf| - left + i < |data| then data[|buf| - left + i] else Window(buf, ppos, left)[i]
  {
    var cpos := Wrap(ppos + left, |buf|);
    assert Window(Put(buf, cpos, data), ppos, left)[i] == Put(buf, cpos, data)[Wrap(ppos + i, |buf|)];
    assert Ahead(Wrap(ppos + i, |buf|), cpos, |buf|) == |buf| - left + i;
  }

  /** When the playback device could not take all of the initial silence, what is left of it
      survives a capture if and only if the frames that are delivered beyond the room behind it are
      silence themselves. */
  lemma SilenceSurvivesIff<T>(buf: seq<T>, ppos: nat, left: nat, data: seq<T>, silence: T)
    requires ppos < |buf| && left <= |buf| && |data| <= |buf| && Window(buf, ppos, left) == Silence(silence, left)
    ensures Window(Put(buf, Wrap(ppos + left, |buf|), data), ppos, left) == Silence(silence, left)
       <==> forall i :: |buf| - left <= i < |data| ==> data[i] == silence
  {
    var w := Window(Put(buf, Wrap(ppos + left, |buf|), data), ppos, left);
    forall i | 0 <= i < left
      ensures w[i] == if |buf| - left + i < |data| then data[|buf| - left + i] else silence
    {
      OverfullCapture(buf, ppos, left, data, i);
      assert Window(buf, ppos, left)[i] == Silence(silence, left)[i];
    }
    if w == Silence(silence, left) {
      forall i | |buf| - left <= i < |data|
        ensures data[i] == silence
      {
        assert w[i - (|buf| - left)] == data[i];
      }
    }
  }

  /** The count that reaches `buf_add` is an int converted to unsigned. Both handles still hold
      equal counts afterwards exactly when readit returned the number of frames it stored, that
      is, when it did not return an error code. */
  lemma CountsAgreeIffNoError(playCount: nat, captCount: nat, stored: nat, returned: int)
    requires playCount == captCount && captCount + stored < 0x8000_0000_0000_0000
    requires -MAX_ERRNO <= returned
    requires 0 <= returned ==> returned == stored
    requires returned < 0 ==> stored == 0
    ensures Uframes(playCount + Uframes(returned)) == captCount + stored <==> 0 <= returned
  {
    if returned < 0 {
      assert Uframes(returned) == returned + 0x1_0000_0000_0000_0000;
    }
  }

  lemma SilentWindow<T>(buf: seq<T>, silence: T, pos: nat, n: nat)
    requires forall k :: 0 <= k < |buf| ==> buf[k] == silence
    requires pos < |buf| && n <= |buf|
    ensures Window(buf, pos, n) == Silence(silence, n)
  {
    forall i | 0 <= i < n
      ensures Window(buf, pos, n)[i] == Silence(silence, n)[i]
    {
      assert Window(buf, pos, n)[i] == buf[Wrap(pos + i, |buf|)];
    }
  }

  // ----- the devices -----

  /** The capture PCM: an adversary that delivers any number of frames up to the requested one,
      or any error. What it delivers is the beginning of `incoming`, which is arbitrary. It reports
      a suspended stream finitely often. `announced` is its last answer about the frames available.
      `shorts` counts the answers that failed, or gave less than a request of at least one frame,
      `breaks` those that told of an xrun, and `unprepared` the preparations that failed. */
  class CaptureDevice<T> {
    ghost var captured: seq<T>
    ghost var announced: int
    ghost var shorts: nat
    ghost var breaks: nat
    ghost var unprepared: nat
    var incoming: seq<T>
    var suspends: nat

    method AvailUpdate() returns (avail: int)
      modifies this`announced, this`breaks
      ensures -MAX_ERRNO <= avail < 0x8000_0000_0000_0000 && announced == avail
      ensures breaks == old(breaks) + if avail == -EPIPE then 1 else 0
    {
      avail := *;
      if avail < -MAX_ERRNO || avail >= 0x8000_0000_0000_0000 { avail := 0; }
      announced := avail;
      if avail == -EPIPE { breaks := breaks + 1; }
    }

    method IsDraining() returns (draining: bool) {
      draining := *;
    }

    /** snd_pcm_prepare */
    method Prepare() returns (err: int)
      modifies this`unprepared
      ensures -MAX_ERRNO <= err <= 0 && unprepared == old(unprepared) + if err < 0 then 1 else 0
    {
      err := *;
      if err < -MAX_ERRNO || err > 0 { err := 0; }
      if err < 0 { unprepared := unprepared + 1; }
    }

    /** snd_pcm_resume, after its EAGAIN answers. */
    method Resume() returns (err: int)
      ensures -MAX_ERRNO <= err
    {
      err := *;
      if err < -MAX_ERRNO { err := 0; }
    }

    method ReadI(buf: array<T>, pos: nat, count: nat) returns (r: int)
      requires pos + count <= buf.Length
      modifies this, buf
      ensures -MAX_ERRNO <= r <= count
      ensures r < 0 ==> captured == old(captured) && buf[..] == old(buf[..])
      ensures 0 <= r ==> captured == old(captured) + buf[pos..pos + r]
      ensures 0 <= r ==> buf[..] == old(buf[..pos]) + buf[pos..pos + r] + old(buf[pos + r..])
      ensures suspends <= old(suspends) && announced == old(announced)
      ensures r == -ESTRPIPE ==> suspends < old(suspends)
      ensures shorts == old(shorts) + if r < count then 1 else 0
      ensures breaks == old(breaks) + (if r == -EPIPE then 1 else 0) && unprepared == old(unprepared)
    {
      r := *;
      if r < -MAX_ERRNO { r := 0; }
      if r > count { r := count; }
      if r > |incoming| { r := |incoming|; }
      if r == -ESTRPIPE {
        if suspends == 0 { r := 0; } else { suspends := suspends - 1; }
      }
      var i := 0;
      while i < r
        invariant 0 <= i && (0 <= r ==> i <= r <= count)
        invariant r < 0 ==> i == 0
        modifies buf
        invariant forall k :: 0 <= k < buf.Length && !(pos <= k < pos + i) ==> buf[k] == old(buf[k])
      {
        buf[pos + i] := incoming[i];
        i := i + 1;
      }
      if r < count { shorts := shorts + 1; }
      if r == -EPIPE { breaks := breaks + 1; }
      if 0 <= r {
        captured := captured + buf[pos..pos + r];
        incoming := incoming[r..];
      }
    }
  }

  /** The playback PCM: accepts any number of frames up to the offered one, or fails. Its answers are
      recorded as those of the capture PCM. */
  class PlaybackDevice<T> {
    ghost var played: seq<T>
    ghost var announced: int
    ghost var shorts: nat
    ghost var breaks: nat
    ghost var unprepared: nat
    var suspends: nat

    method AvailUpdate() returns (avail: int)
      modifies this
      ensures played == old(played) && shorts == old(shorts) && announced == avail
      ensures suspends <= old(suspends)
      ensures avail == -ESTRPIPE ==> suspends < old(suspends)
      ensures -MAX_ERRNO <= avail
      ensures breaks == old(breaks) + (if avail == -EPIPE then 1 else 0) && unprepared == old(unprepared)
    {
      avail := *;
      if avail < -MAX_ERRNO { avail := 0; }
      if avail == -ESTRPIPE {
        if suspends == 0 { avail := 0; } else { suspends := suspends - 1; }
      }
      announced := avail;
      if avail == -EPIPE { breaks := breaks + 1; }
    }

    method Prepare() returns (err: int)
      modifies this`unprepared
      ensures -MAX_ERRNO <= err <= 0 && unprepared == old(unprepared) + if err < 0 then 1 else 0
    {
      err := *;
      if err < -MAX_ERRNO || err > 0 { err := 0; }
      if err < 0 { unprepared := unprepared + 1; }
    }

    method Resume() returns (err: int)
      ensures -MAX_ERRNO <= err
    {
      err := *;
      if err < -MAX_ERRNO { err := 0; }
    }

    method WriteI(buf: array<T>, pos: nat, count: nat) returns (r: int)
      requires pos + count <= buf.Length
      modifies this
      ensures -MAX_ERRNO <= r <= count
      ensures played == old(played) + if 0 <= r then buf[pos..pos + r] else []
      ensures suspends == old(suspends) && announced == old(announced)
      ensures shorts == old(shorts) + if r < count then 1 else 0
      ensures breaks == old(breaks) + (if r == -EPIPE then 1 else 0) && unprepared == old(unprepared)
    {
      r := *;
      if r < -MAX_ERRNO { r := 0; }
      if r > count { r := count; }
      if r < count { shorts := shorts + 1; }
      if r == -EPIPE { breaks := breaks + 1; }
      if 0 <= r { played := played + buf[pos..pos + r]; }
    }
  }

  // ----- the two handles and the job -----

  class Handle<T> {
    var buf: array<T>
    var bufSize: nat
    var bufPos: nat
    var bufCount: nat
    var bufferSize: nat  // of the device
    var xrunPending: bool
    var stall: nat

    constructor (buf: array<T>, bufferSize: nat)
      ensures this.buf == buf && bufSize == buf.Length && bufPos == 0 && bufCount == 0
      ensures this.bufferSize == bufferSize && !xrunPending && stall == 0
    {
      this.buf := buf;
      this.bufSize := buf.Length;
      this.bufPos, this.bufCount, this.bufferSize := 0, 0, bufferSize;
      this.xrunPending, this.stall := false, 0;
    }

    /** The handle's fields describe its buffer. */
    predicate Framed()
      reads this, buf
    {
      && 0 < bufSize == buf.Length < 0x4000_0000_0000_0000
      && bufPos < bufSize && bufCount <= bufSize
    }
  }

  class Loopback<T> {
    const play: Handle<T>
    const capt: Handle<T>
    const pdev: PlaybackDevice<T>
    const cdev: CaptureDevice<T>
    var reinit: bool
    var stopPending: bool
    var stopCount: nat
    var latency: nat
    var pitch: real

    constructor (buf: array<T>, latency: nat, bufferSize: nat)
      ensures fresh(play) && fresh(capt) && fresh(pdev) && fresh(cdev)
      ensures play != capt && play.buf == capt.buf == buf
      ensures play.bufSize == capt.bufSize == buf.Length && play.bufferSize == bufferSize
      ensures this.latency == latency && !reinit && pdev.played == cdev.captured == []
    {
      play := new Handle(buf, bufferSize);
      capt := new Handle(buf, bufferSize);
      pdev := new PlaybackDevice;
      cdev := new CaptureDevice;
      reinit, stopPending, stopCount, this.latency, pitch := false, false, 0, latency, 1.0;
      new;
      pdev.played, cdev.captured := [], [];
    }

    /** A job that converts the rate: each side has its own buffer. */
    constructor Separate(playBuf: array<T>, captBuf: array<T>, latency: nat, bufferSize: nat)
      ensures fresh(play) && fresh(capt) && fresh(pdev) && fresh(cdev)
      ensures play != capt && play.buf == playBuf && capt.buf == captBuf
      ensures play.bufSize == playBuf.Length && capt.bufSize == captBuf.Length
      ensures play.bufPos == play.bufCount == capt.bufPos == capt.bufCount == 0
      ensures play.bufferSize == bufferSize && !play.xrunPending && !capt.xrunPending
      ensures this.latency == latency && !reinit && pdev.played == cdev.captured == []
    {
      play := new Handle(playBuf, bufferSize);
      capt := new Handle(captBuf, bufferSize);
      pdev := new PlaybackDevice;
      cdev := new CaptureDevice;
      reinit, stopPending, stopCount, this.latency, pitch := false, false, 0, latency, 1.0;
      new;
      pdev.played, cdev.captured := [], [];
    }

    /** Two different handles on one buffer. */
    predicate Shared()
      reads this, play, capt, play.buf, capt.buf
    {
      && play != capt && play.buf == capt.buf
      && play.Framed() && capt.Framed()
    }

    ghost predicate Valid()
      reads this, play, capt, play.buf, capt.buf
    {
      && Shared()
      && play.bufCount == capt.bufCount
      && capt.bufPos == Wrap(play.bufPos + play.bufCount, play.bufSize)
    }

    ghost function View(): (j: Job<T>)
      requires Valid()
      reads this, play, capt, play.buf, capt.buf, pdev, cdev
      ensures j.Shaped()
    {
      Job(play.buf[..], play.bufPos, capt.bufPos, play.bufCount, pdev.played, cdev.captured)
    }

    /** Behind the first `breaks` and `unprepared` ones, no xrun of the capture PCM goes unnoticed: it is
        pending, unless the PCM could not be prepared. */
    ghost predicate CaptureNoticed(breaks: nat, unprepared: nat)
      reads capt, cdev
    {
      breaks <= cdev.breaks && unprepared <= cdev.unprepared
      && (breaks < cdev.breaks ==> capt.xrunPending || unprepared < cdev.unprepared)
    }

    ghost predicate PlaybackNoticed(breaks: nat, unprepared: nat)
      reads play, pdev
    {
      breaks <= pdev.breaks && unprepared <= pdev.unprepared
      && (breaks < pdev.breaks ==> play.xrunPending || unprepared < pdev.unprepared)
    }

    method XrunCapture() returns (err: int)
      modifies capt`xrunPending, cdev`unprepared
      ensures -MAX_ERRNO <= err <= 0 && (err < 0 || capt.xrunPending) && (old(capt.xrunPending) ==> capt.xrunPending)
      ensures cdev.unprepared == old(cdev.unprepared) + if err < 0 then 1 else 0
    {
      err := cdev.Prepare();
      if err < 0 { return; }
      capt.xrunPending := true;
    }

    method XrunPlayback() returns (err: int)
      modifies play`xrunPending, pdev`unprepared
      ensures -MAX_ERRNO <= err <= 0 && (err < 0 || play.xrunPending) && (old(play.xrunPending) ==> play.xrunPending)
      ensures pdev.unprepared == old(pdev.unprepared) + if err < 0 then 1 else 0
    {
      err := pdev.Prepare();
      if err < 0 { return; }
      play.xrunPending := true;
    }

    method SuspendCapture() returns (err: int)
      modifies capt`xrunPending, cdev`unprepared
      ensures -MAX_ERRNO <= err <= 0 && (old(capt.xrunPending) ==> capt.xrunPending)
      ensures old(cdev.unprepared) <= cdev.unprepared
    {
      err := cdev.Resume();
      if err < 0 { err := XrunCapture(); } else { err := 0; }
    }

    method SuspendPlayback() returns (err: int)
      modifies play`xrunPending, pdev`unprepared
      ensures -MAX_ERRNO <= err <= 0 && (old(play.xrunPending) ==> play.xrunPending)
      ensures old(pdev.unprepared) <= pdev.unprepared
    {
      err := pdev.Resume();
      if err < 0 { err := XrunPlayback(); } else { err := 0; }
    }

    /** One snd_pcm_readi of at most `avail` frames, not past the end of the buffer, and the
        bookkeeping for what it delivered. */
    method ReadChunk(avail: nat) returns (r: int, ghost got: seq<T>)
      requires capt.Framed()
      modifies capt, capt.buf, cdev
      ensures capt.Framed() && capt.buf == old(capt.buf) && capt.bufSize == old(capt.bufSize)
      ensures capt.bufferSize == old(capt.bufferSize)
      ensures -MAX_ERRNO <= r <= avail
      ensures |got| == (if 0 <= r then r else 0) <= old(capt.bufSize - capt.bufCount)
      ensures cdev.captured == old(cdev.captured) + got
      ensures capt.buf[..] == Put(old(capt.buf[..]), old(capt.bufPos), got)
      ensures capt.bufPos == Wrap(old(capt.bufPos) + |got|, capt.bufSize)
      ensures capt.bufCount == old(capt.bufCount) + |got|
      ensures cdev.suspends <= old(cdev.suspends) && cdev.announced == old(cdev.announced)
      ensures capt.xrunPending == old(capt.xrunPending) && cdev.unprepared == old(cdev.unprepared)
      ensures cdev.breaks == old(cdev.breaks) + if r == -EPIPE then 1 else 0
      ensures r == -ESTRPIPE ==> cdev.suspends < old(cdev.suspends)
      ensures old(cdev.shorts) <= cdev.shorts
      ensures cdev.shorts == old(cdev.shorts) && 0 < avail <= old(capt.bufSize - capt.bufCount) ==> 0 < r
    {
      r, got := capt.bufSize - capt.bufCount, [];
      if r + capt.bufPos > capt.bufSize { r := capt.bufSize - capt.bufPos; }
      if r > avail { r := avail; }
      r := cdev.ReadI(capt.buf, capt.bufPos, r);
      if 0 <= r {
        got := CountRead(r, old(capt.buf[..]));
      } else {
        assert Put(old(capt.buf[..]), capt.bufPos, []) == old(capt.buf[..]);
      }
    }

    /** The bookkeeping for `r` frames that snd_pcm_readi has put at the capture position of a buffer
        that was `before`. */
    method CountRead(r: nat, ghost before: seq<T>) returns (ghost got: seq<T>)
      requires capt.Framed() && capt.bufPos + r <= capt.bufSize && r <= capt.bufSize - capt.bufCount
      requires |before| == capt.bufSize
      requires capt.buf[..] == before[..capt.bufPos] + capt.buf[capt.bufPos..capt.bufPos + r] + before[capt.bufPos + r..]
      modifies capt`bufCount, capt`bufPos
      ensures capt.Framed() && got == capt.buf[old(capt.bufPos)..old(capt.bufPos) + r]
      ensures capt.buf[..] == Put(before, old(capt.bufPos), got)
      ensures capt.bufPos == Wrap(old(capt.bufPos) + r, capt.bufSize)
      ensures capt.bufCount == old(capt.bufCount) + r
    {
      got := capt.buf[capt.bufPos..capt.bufPos + r];
      Straight(before, capt.bufPos, got);
      capt.bufCount := capt.bufCount + r;
      ModIsWrap(capt.bufPos + r, capt.bufSize);
      capt.bufPos := (capt.bufPos + r) % capt.bufSize;
    }

    /** How many frames readit tries to read: at most what is free in the buffer, nothing when
        it returns at once with `err`. */
    method CaptureAvail() returns (avail: nat, err: int)
      requires capt.Framed()
      modifies this`reinit, capt`xrunPending, cdev`announced, cdev`breaks, cdev`unprepared
      ensures CaptureNoticed(old(cdev.breaks), old(cdev.unprepared))
      ensures capt.Framed() && -MAX_ERRNO <= err <= 0 && (avail > 0 ==> err == 0)
      ensures avail <= capt.bufSize - capt.bufCount
      ensures if cdev.announced == -EPIPE then avail == 0 && (err < 0 || capt.xrunPending)
              else if cdev.announced == -ESTRPIPE then err < 0 || avail == capt.bufSize - capt.bufCount
              else avail == if cdev.announced < 0 then capt.bufSize - capt.bufCount
                            else Min(cdev.announced, capt.bufSize - capt.bufCount)
    {
      avail := 0;
      var room := capt.bufSize - capt.bufCount;
      var answer := cdev.AvailUpdate();
      err := 0;
      if answer == -EPIPE {
        err := XrunCapture();
        return;
      } else if answer == -ESTRPIPE {
        err := SuspendCapture();
        if err < 0 { return; }
      }
      if Uframes(answer) > room {
        avail := room;
      } else {
        avail := Uframes(answer);
        if answer == 0 {
          var draining := cdev.IsDraining();
          if draining { reinit := true; }
        }
      }
    }

    /** What readit does about an error of snd_pcm_readi: after a suspend it tries again, else
        it returns the frames read so far or, if there are none, the error. */
    method ReadError(r: int, sofar: nat) returns (again: bool, res: int)
      requires -MAX_ERRNO <= r < 0 && 0 <= sofar
      modifies capt`xrunPending, cdev`unprepared
      ensures (old(capt.xrunPending) ==> capt.xrunPending) && old(cdev.unprepared) <= cdev.unprepared
      ensures r == -EPIPE ==> capt.xrunPending || old(cdev.unprepared) < cdev.unprepared
      ensures again ==> r == -ESTRPIPE && res == sofar
      ensures -MAX_ERRNO <= res && (res == sofar || (sofar == 0 && res < 0))
    {
      again, res := false, sofar;
      var err := r;
      if r == -EPIPE {
        err := XrunCapture();
      } else if r == -ESTRPIPE {
        err := SuspendCapture();
        again := err >= 0;
      }
      if !again && sofar == 0 { res := err; }
    }

    /** Reads whatever the capture device gives, at most the free part of the buffer. `data` is
        what was read; a result that is not an error code is its length. Unless an answer of the
        device was short, all that it had announced is read, as far as there is room; a negative answer,
        other than that of an xrun or a suspended stream, counts as plenty. */
    method ReadIt() returns (res: int, ghost data: seq<T>)
      requires capt.Framed()
      modifies this`reinit, capt, capt.buf, cdev
      ensures capt.Framed() && capt.buf == old(capt.buf) && capt.bufSize == old(capt.bufSize)
      ensures capt.bufferSize == old(capt.bufferSize)
      ensures cdev.captured == old(cdev.captured) + data
      ensures |data| <= old(capt.bufSize - capt.bufCount)
      ensures capt.buf[..] == Put(old(capt.buf[..]), old(capt.bufPos), data)
      ensures capt.bufPos == Wrap(old(capt.bufPos) + |data|, capt.bufSize)
      ensures capt.bufCount == old(capt.bufCount) + |data|
      ensures 0 <= res ==> res == |data|
      ensures res < 0 ==> data == [] && -MAX_ERRNO <= res
      ensures old(cdev.shorts) <= cdev.shorts
      ensures cdev.shorts == old(cdev.shorts) && 0 <= cdev.announced ==>
                |data| == Min(cdev.announced, old(capt.bufSize - capt.bufCount))
      ensures cdev.shorts == old(cdev.shorts) && cdev.announced < 0 && cdev.announced !in {-EPIPE, -ESTRPIPE} ==>
                |data| == old(capt.bufSize - capt.bufCount)
      ensures cdev.announced == -EPIPE ==> data == [] && (res < 0 || capt.xrunPending)
      ensures CaptureNoticed(old(cdev.breaks), old(cdev.unprepared))
    {
      data := [];
      ghost var buf0, pos0, count0, captured0 := capt.buf[..], capt.bufPos, capt.bufCount, cdev.captured;
      assert Put(buf0, pos0, data) == buf0;
      var avail;
      avail, res := CaptureAvail();
      ghost var all, shorts0 := avail, cdev.shorts;
      while avail > 0
        invariant capt.Framed() && capt.buf == old(capt.buf) && capt.bufSize == old(capt.bufSize)
        invariant capt.bufferSize == old(capt.bufferSize)
        invariant cdev.captured == captured0 + data
        invariant if avail > 0 then res == |data| else 0 <= res ==> res == |data|
        invariant res < 0 ==> data == [] && -MAX_ERRNO <= res
        invariant |data| + count0 == capt.bufCount
        invariant capt.buf[..] == Put(buf0, pos0, data)
        invariant capt.bufPos == Wrap(pos0 + |data|, capt.bufSize)
        invariant 0 <= avail && |data| + avail == all <= capt.bufSize - count0 && shorts0 <= cdev.shorts
        invariant CaptureNoticed(old(cdev.breaks), old(cdev.unprepared))
        invariant cdev.announced == -EPIPE ==> all == 0 && (res < 0 || capt.xrunPending)
        invariant 0 <= cdev.announced ==> all == Min(cdev.announced, capt.bufSize - count0)
        invariant cdev.announced < 0 && cdev.announced !in {-EPIPE, -ESTRPIPE} ==> all == capt.bufSize - count0
        decreases cdev.suspends, avail
      {
        ghost var got;
        var r;
        r, got := ReadChunk(avail);
        PutPut(buf0, pos0, data, got);
        data := data + got;
        if r == 0 { break; }
        if r < 0 {
          var again;
          again, res := ReadError(r, res);
          if !again { break; }
          r := 0;
        }
        res := res + r;
        avail := avail - r;
      }
    }

    /** One snd_pcm_writei of at most `avail` waiting frames, not past the end of the buffer. */
    method WriteChunk(avail: nat) returns (r: int)
      requires play.Framed() && 0 < play.bufCount
      modifies play, pdev
      ensures play.Framed() && play.buf == old(play.buf) && play.bufSize == old(play.bufSize)
      ensures play.bufferSize == old(play.bufferSize) && play.xrunPending == old(play.xrunPending)
      ensures -MAX_ERRNO <= r <= avail && r <= old(play.bufCount)
      ensures var n := if 0 <= r then r else 0;
              && pdev.played == old(pdev.played) + Window(play.buf[..], old(play.bufPos), n)
              && play.bufPos == Wrap(old(play.bufPos) + n, play.bufSize)
              && play.bufCount == old(play.bufCount) - n
      ensures pdev.suspends == old(pdev.suspends) && pdev.announced == old(pdev.announced)
      ensures pdev.unprepared == old(pdev.unprepared)
      ensures pdev.breaks == old(pdev.breaks) + if r == -EPIPE then 1 else 0
      ensures old(pdev.shorts) <= pdev.shorts
      ensures pdev.shorts == old(pdev.shorts) && 0 < avail ==> 0 < r
    {
      r := play.bufCount;
      if r + play.bufPos > play.bufSize { r := play.bufSize - play.bufPos; }
      if r > avail { r := avail; }
      r := pdev.WriteI(play.buf, play.bufPos, r);
      if 0 <= r {
        Straight(play.buf[..], play.bufPos, play.buf[play.bufPos..play.bufPos + r]);
        play.bufCount := play.bufCount - r;
        ModIsWrap(play.bufPos + r, play.bufSize);
        play.bufPos := (play.bufPos + r) % play.bufSize;
      }
    }

    /** How many frames the playback device can take, once it is not suspended any more; a
        negative answer means that writeit gives up with `err`. */
    method PlaybackRoom() returns (avail: int, err: int)
      modifies play`xrunPending, pdev
      ensures pdev.played == old(pdev.played) && pdev.shorts == old(pdev.shorts)
      ensures avail < 0 ==> -MAX_ERRNO <= err <= 0
      ensures avail == pdev.announced && (avail == -EPIPE ==> err < 0 || play.xrunPending)
      ensures PlaybackNoticed(old(pdev.breaks), old(pdev.unprepared))
    {
      err := 0;
      avail := pdev.AvailUpdate();
      while avail == -ESTRPIPE
        invariant pdev.played == old(pdev.played) && pdev.shorts == old(pdev.shorts) && avail == pdev.announced
        invariant pdev.breaks == old(pdev.breaks) + (if avail == -EPIPE then 1 else 0) && old(pdev.unprepared) <= pdev.unprepared
        decreases pdev.suspends, avail == -ESTRPIPE
      {
        err := SuspendPlayback();
        if err < 0 { return; }
        avail := pdev.AvailUpdate();
      }
      if avail == -EPIPE { err := XrunPlayback(); }
    }

    /** A pending stop takes effect once three latencies have been played. */
    method CountDown(r: nat) returns (stop: bool)
      requires stopPending
      modifies this`reinit, this`stopPending, this`stopCount
      ensures stopCount == old(stopCount) + r && stop == (stopCount as real * pitch > (latency * 3) as real)
      ensures stopPending == !stop && reinit == (old(reinit) || stop)
    {
      stopCount := stopCount + r;
      stop := stopCount as real * pitch > (latency * 3) as real;
      if stop {
        stopPending := false;
        reinit := true;
      }
    }

    /** The result of writeit when the device took nothing. */
    method WriteError(r: int, sofar: nat) returns (res: int)
      requires -MAX_ERRNO <= r <= 0
      modifies play`xrunPending, pdev`unprepared
      ensures (old(play.xrunPending) ==> play.xrunPending) && old(pdev.unprepared) <= pdev.unprepared
      ensures r == -EPIPE ==> play.xrunPending || old(pdev.unprepared) < pdev.unprepared
      ensures -MAX_ERRNO <= res && (0 <= res ==> res == sofar)
    {
      res := sofar;
      if r == -EPIPE {
        var err := XrunPlayback();
        if err < 0 { res := err; }
        return;
      }
      if res == 0 { res := r; }
    }

    /** Writes waiting frames while the playback device accepts them. `n` is how many it took; a
        result that is not an error code equals it. Unless an answer of the device was short, or a
        pending stop took effect, it gets all that it had announced to take, as far as frames wait. */
    method WriteIt() returns (res: int, ghost n: nat)
      requires play.Framed()
      modifies this`reinit, this`stopPending, this`stopCount, play, pdev
      ensures play.Framed() && play.buf == old(play.buf) && play.bufSize == old(play.bufSize)
      ensures play.bufferSize == old(play.bufferSize)
      ensures n <= old(play.bufCount)
      ensures pdev.played == old(pdev.played) + Window(play.buf[..], old(play.bufPos), n)
      ensures play.bufPos == Wrap(old(play.bufPos) + n, play.bufSize)
      ensures play.bufCount == old(play.bufCount) - n
      ensures 0 <= res ==> res == n
      ensures -MAX_ERRNO <= res
      ensures old(pdev.shorts) <= pdev.shorts
      ensures pdev.shorts == old(pdev.shorts) && 0 <= pdev.announced && stopPending == old(stopPending) ==>
                n == Min(pdev.announced, old(play.bufCount))
      ensures pdev.announced < 0 ==> n == 0
      ensures PlaybackNoticed(old(pdev.breaks), old(pdev.unprepared))
      ensures if stopPending == old(stopPending) then reinit == old(reinit) else reinit
    {
      res, n := 0, 0;
      ghost var buf, pos0, count0, played0 := play.buf[..], play.bufPos, play.bufCount, pdev.played;
      var avail, err := PlaybackRoom();
      ghost var shorts0 := pdev.shorts;
      if avail < 0 { res := err; return; }
      while avail > 0 && play.bufCount > 0
        invariant play.Framed() && play.buf == old(play.buf) && play.bufSize == old(play.bufSize)
        invariant play.bufferSize == old(play.bufferSize)
        invariant n + play.bufCount == count0 && res == n
        invariant play.buf[..] == buf && pdev.played == played0 + Window(buf, pos0, n)
        invariant play.bufPos == Wrap(pos0 + n, play.bufSize)
        invariant PlaybackNoticed(old(pdev.breaks), old(pdev.unprepared))
        invariant n + avail == pdev.announced && 0 <= avail && shorts0 <= pdev.shorts
        invariant stopPending == old(stopPending) && reinit == old(reinit)
        decreases avail
      {
        var r := WriteChunk(avail);
        if r <= 0 {
          res := WriteError(r, res);
          return;
        }
        SplitWindow(buf, pos0, n, r);
        assert pdev.played == played0 + (Window(buf, pos0, n) + Window(buf, Wrap(pos0 + n, |buf|), r));
        n := n + r;
        res := res + r;
        avail := avail - r;
        if stopPending {
          var stop := CountDown(r);
          if stop { break; }
        }
      }
    }

    /** buf_add on a shared buffer: the frames just captured become playable. */
    method BufAdd(count: nat)
      requires Shared()
      modifies play`bufCount
      ensures play.bufCount == if count == 0 then old(play.bufCount)
                               else Uframes(old(play.bufCount) + count)
    {
      if count <= 0 { return; }
      play.bufCount := Uframes(play.bufCount + count);
    }

    /** buf_remove on a shared buffer: the frames just played become free. */
    method BufRemove(count: nat)
      requires Shared()
      modifies capt`bufCount
      ensures capt.bufCount == if count < old(capt.bufCount) then old(capt.bufCount) - count
                               else if count == 0 then old(capt.bufCount) else 0
    {
      if count <= 0 { return; }
      if count < capt.bufCount {
        capt.bufCount := capt.bufCount - count;
      } else {
        capt.bufCount := 0;
      }
    }

    /** Catching up on a shared buffer: the oldest waiting frames are skipped. */
    method RemoveSamples(count: int) returns (removed: nat)
      requires Shared()
      modifies play, capt
      ensures removed == Min(Uframes(count), Min(old(play.bufCount), old(capt.bufCount)))
      ensures Shared() && (old(Valid()) ==> Valid() && View() == Step(old(View()), Dropped(removed)))
    {
      removed := Uframes(count);
      if removed > play.bufCount { removed := play.bufCount; }
      if removed > capt.bufCount { removed := capt.bufCount; }
      capt.bufCount := capt.bufCount - removed;
      ModIsWrap(play.bufPos + removed, play.bufSize);
      play.bufPos := (play.bufPos + removed) % play.bufSize;
      play.bufCount := play.bufCount - removed;
    }

    /** The part of pcmjob_start that fills the playback device with silence. After a successful
        start the two handles agree if and only if the device can hold the whole lead; what it
        could not take waits as silence in front of the capture position. */
    method InitialFill(silence: T, lead: nat) returns (err: int)
      requires play != capt && play.buf == capt.buf && pdev.played == cdev.captured == []
      requires play.bufSize == capt.bufSize == play.buf.Length < 0x4000_0000_0000_0000
      requires lead < play.bufSize
      modifies this, play, capt, play.buf, pdev
      ensures play.buf == old(play.buf) && capt.buf == old(capt.buf)
      ensures play.bufferSize == old(play.bufferSize)
      ensures err == 0 ==> Shared() && capt.bufCount == 0
      ensures err == 0 ==> play.bufCount == lead - Min(lead, play.bufferSize)
      ensures err == 0 ==> capt.bufPos == Wrap(play.bufPos + play.bufCount, play.bufSize)
      ensures err == 0 ==> (Valid() <==> lead <= play.bufferSize)
      ensures err == 0 ==> pdev.played == Silence(silence, Min(lead, play.bufferSize))
      ensures err == 0 ==> Window(play.buf[..], play.bufPos, play.bufCount) == Silence(silence, play.bufCount)
      ensures err == 0 && lead <= play.bufferSize ==> Lossless(View(), Silence(silence, lead))
    {
      reinit := false;
      play.bufPos, play.bufCount, capt.bufPos, capt.bufCount := 0, 0, 0, 0;
      var i := 0;
      while i < play.buf.Length
        invariant i <= play.buf.Length
        invariant forall k :: 0 <= k < i ==> play.buf[k] == silence
        modifies play.buf
      {
        play.buf[i] := silence;
        i := i + 1;
      }
      play.bufCount := lead;
      capt.bufPos := lead;
      ghost var n;
      err, n := WriteIt();
      SilentWindow(play.buf[..], silence, 0, n);
      var accepted := lead;
      if accepted > play.bufferSize { accepted := play.bufferSize; }
      if err != accepted {
        err := -EIO;
        return;
      }
      err := 0;
      stopPending := false;
      SilentWindow(play.buf[..], silence, play.bufPos, play.bufCount);
    }

    /** The start and the first capture behind it. What the device did not take of the initial
        silence is still silence afterwards, if and only if the frames that were delivered beyond
        the room behind it are; if it took all of it there are no such frames. */
    method FirstCapture(silence: T, lead: nat) returns (err: int, ghost data: seq<T>)
      requires play != capt && play.buf == capt.buf && pdev.played == cdev.captured == []
      requires play.bufSize == capt.bufSize == play.buf.Length < 0x4000_0000_0000_0000
      requires lead < play.bufSize
      modifies this, play, capt, play.buf, pdev, cdev
      ensures err == 0 ==> cdev.captured == data && |data| <= play.bufSize
      ensures err == 0 ==> play.Framed() && play.bufCount == lead - Min(lead, play.bufferSize)
      ensures err == 0 ==>
        (Window(play.buf[..], play.bufPos, play.bufCount) == Silence(silence, play.bufCount)
         <==> forall i :: play.bufSize - play.bufCount <= i < |data| ==> data[i] == silence)
    {
      data := [];
      err := InitialFill(silence, lead);
      if err != 0 { return; }
      ghost var buf := play.buf[..];
      var res;
      res, data := ReadIt();
      SilenceSurvivesIff(buf, play.bufPos, play.bufCount, data, silence);
    }

    /** Reading into the shared buffer and publishing the frames is one Captured event. When
        readit returns an error code instead, the code is added to the count as an unsigned number
        and the two handles do not agree any more. */
    method CaptureStep() returns (ccount: nat, ghost data: seq<T>, ok: bool)
      requires Valid()
      modifies this`reinit, play`bufCount, capt, capt.buf, cdev
      ensures play.bufSize == old(play.bufSize) && play.buf == old(play.buf) == capt.buf
      ensures Valid() <==> ok
      ensures ok ==> ccount == |data| && Possible(old(View()), Captured(data))
      ensures ok ==> View() == Step(old(View()), Captured(data))
      ensures play.xrunPending == old(play.xrunPending)
      ensures ok ==> play.bufCount == old(play.bufCount) + |data|
      ensures old(cdev.shorts) <= cdev.shorts
      ensures cdev.shorts == old(cdev.shorts) && 0 <= cdev.announced ==>
                |data| == Min(cdev.announced, old(play.bufSize - play.bufCount))
      ensures CaptureNoticed(old(cdev.breaks), old(cdev.unprepared))
    {
      ghost var j := View();
      ghost var playCount, captCount := play.bufCount, capt.bufCount;
      var res;
      res, data := ReadIt();
      ok := 0 <= res;
      ccount := Uframes(res);
      CountsAgreeIffNoError(playCount, captCount, |data|, res);
      BufAdd(ccount);
    }

    /** Writing waiting frames and freeing them is one Played event. An error code of writeit frees
        the whole buffer, which is right if and only if all waiting frames were taken before. */
    method PlayStep() returns (pcount: nat, ghost n: nat, ok: bool)
      requires Valid()
      modifies this`reinit, this`stopPending, this`stopCount, play, capt`bufCount, pdev
      ensures play.bufSize == old(play.bufSize) && play.buf == old(play.buf) == capt.buf
      ensures Valid() <==> ok || n == old(play.bufCount)
      ensures ok ==> pcount == n
      ensures Valid() ==> Possible(old(View()), Played(n)) && View() == Step(old(View()), Played(n))
      ensures capt.xrunPending == old(capt.xrunPending)
      ensures play.bufCount == old(play.bufCount) - n && old(pdev.shorts) <= pdev.shorts
      ensures pdev.shorts == old(pdev.shorts) && 0 <= pdev.announced && !reinit ==>
                n == Min(pdev.announced, old(play.bufCount))
      ensures PlaybackNoticed(old(pdev.breaks), old(pdev.unprepared))
    {
      var res;
      res, n := WriteIt();
      ok := 0 <= res;
      pcount := Uframes(res);
      BufRemove(pcount);
    }

    method SetStall(stall: nat)
      requires Valid()
      modifies play`stall
      ensures Valid() && View() == old(View())
    {
      play.stall := stall;
    }

    /** Without a short answer behind the first `cshorts` and `pshorts`, the round that ends here has
        read `ccount` and written `pcount` frames because the device had no more, or the buffer was
        full or empty. */
    ghost predicate AllMoved(ccount: nat, pcount: nat, cshorts: nat, pshorts: nat)
      reads play, pdev, cdev
    {
      && (cdev.shorts == cshorts && 0 <= cdev.announced ==>
            ccount == Min(cdev.announced, play.bufSize - (play.bufCount + pcount - ccount)))
      && (pdev.shorts == pshorts && 0 <= pdev.announced ==>
            pcount == Min(pdev.announced, play.bufCount + pcount))
    }

    /** One round of the do-loop; `ccount` and `pcount` are left as the loop condition sees
        them, `stop` tells that the round ended in a break. A round that does not stop reads and
        writes once, and if neither device had a short answer they moved all they could. An xrun
        stops it, unless the PCM could not be prepared. */
    method Round(idle: bool, pcount0: nat)
        returns (ccount: nat, pcount: nat, stop: bool, ok: bool, ghost events: seq<Event<T>>)
      requires Valid()
      modifies this`reinit, this`stopPending, this`stopCount, play, capt, capt.buf, pdev, cdev
      ensures play.buf == old(play.buf) == capt.buf
      ensures ok ==> Valid() && Runs(old(View()), events) && View() == Run(old(View()), events)
      ensures ok ==> (stop <==> (idle && ccount == 0) || play.xrunPending || capt.xrunPending || reinit)
      ensures ok ==> InTurn(events) && 1 <= |events| <= 2 && ccount == |events[0].data|
      ensures ok && |events| == 1 ==> stop
      ensures ok && |events| == 2 ==> pcount == events[1].frames
      ensures ok && stop && !play.xrunPending && !capt.xrunPending && !reinit ==> events == [Captured([])] && idle
      ensures old(cdev.shorts) <= cdev.shorts && old(pdev.shorts) <= pdev.shorts
      ensures ok ==> CaptureNoticed(old(cdev.breaks), old(cdev.unprepared))
      ensures ok ==> PlaybackNoticed(old(pdev.breaks), old(pdev.unprepared))
      ensures ok && |events| == 2 && !reinit ==> AllMoved(ccount, pcount, old(cdev.shorts), old(pdev.shorts))
    {
      ghost var j := View();
      ghost var data, n;
      pcount, stop, events := pcount0, true, [];
      ccount, data, ok := ReadHalf(idle);
      if !ok { return; }
      ShortRuns(j, Captured(data), Played(0));
      events := [Captured(data)];
      if (idle && ccount == 0) || capt.xrunPending || reinit { return; }
      pcount, stop, ok, n := WriteHalf();
      if !ok { return; }
      ShortRuns(j, Captured(data), Played(n));
      events := [Captured(data), Played(n)];
    }

    /** The part of a round in front of the first test for an xrun. */
    method ReadHalf(idle: bool) returns (ccount: nat, ghost data: seq<T>, ok: bool)
      requires Valid()
      modifies this`reinit, play`bufCount, play`stall, capt, capt.buf, cdev
      ensures play.bufSize == old(play.bufSize) && play.buf == old(play.buf) == capt.buf
      ensures ok ==> Valid() && ccount == |data| && Possible(old(View()), Captured(data))
      ensures ok ==> View() == Step(old(View()), Captured(data))
      ensures ok ==> play.bufCount == old(play.bufCount) + |data|
      ensures old(cdev.shorts) <= cdev.shorts
      ensures cdev.shorts == old(cdev.shorts) && 0 <= cdev.announced ==>
                |data| == Min(cdev.announced, old(play.bufSize - play.bufCount))
      ensures CaptureNoticed(old(cdev.breaks), old(cdev.unprepared))
    {
      ccount, data, ok := CaptureStep();
      if !ok { return; }
      if idle && ccount == 0 {
        SetStall(if play.stall > 20 then 0 else play.stall + 1);
      } else if ccount > 0 {
        SetStall(0);
      }
    }

    /** The part of a round behind the first test for an xrun. */
    method WriteHalf() returns (pcount: nat, stop: bool, ok: bool, ghost n: nat)
      requires Valid()
      modifies this`reinit, this`stopPending, this`stopCount, play, capt`bufCount, pdev
      ensures play.bufSize == old(play.bufSize) && play.buf == old(play.buf) == capt.buf
      ensures play.bufCount == old(play.bufCount) - n && old(pdev.shorts) <= pdev.shorts
      ensures ok ==> Valid() && Possible(old(View()), Played(n)) && View() == Step(old(View()), Played(n))
      ensures ok ==> pcount == n && (stop <==> play.xrunPending || reinit)
      ensures capt.xrunPending == old(capt.xrunPending)
      ensures pdev.shorts == old(pdev.shorts) && 0 <= pdev.announced && !reinit ==>
                n == Min(pdev.announced, old(play.bufCount))
      ensures PlaybackNoticed(old(pdev.breaks), old(pdev.unprepared))
    {
      stop := true;
      pcount, n, ok := PlayStep();
      if !ok { return; }
      if pcount > 0 { SetStall(0); }
      stop := play.xrunPending || reinit;
    }

    /** What holds between two rounds of the do-loop that started on `j`. */
    ghost predicate InRounds(j: Job<T>, events: seq<Event<T>>, rounds: nat, ccount: nat, pcount: nat, stop: bool,
                             idle: bool, cshorts: nat, pshorts: nat)
      reads this, play, capt, play.buf, capt.buf, pdev, cdev
    {
      && Valid() && j.Shaped() && Runs(j, events) && View() == Run(j, events)
      && cshorts <= cdev.shorts && pshorts <= pdev.shorts
      && RoundsDone(events, rounds, ccount, pcount, stop)
      && (stop ==> play.xrunPending || capt.xrunPending || reinit || (events == [Captured([])] && idle))
      && (0 < rounds && |events| % 2 == 0 && !reinit ==> AllMoved(ccount, pcount, cshorts, pshorts))
    }

    /** One more round. */
    method NextRound(rounds: nat, ccount0: nat, pcount0: nat, idle: bool, ghost j: Job<T>, ghost before: seq<Event<T>>,
                     ghost cshorts: nat, ghost pshorts: nat)
        returns (ccount: nat, pcount: nat, stop: bool, ok: bool, ghost events: seq<Event<T>>)
      requires InRounds(j, before, rounds, ccount0, pcount0, false, idle, cshorts, pshorts)
      requires 0 < ccount0 || 0 < pcount0
      modifies this`reinit, this`stopPending, this`stopCount, play, capt, capt.buf, pdev, cdev
      ensures play.buf == old(play.buf) == capt.buf
      ensures ok ==> InRounds(j, events, rounds + 1, ccount, pcount, stop, idle, cshorts, pshorts)
    {
      ghost var more;
      ccount, pcount, stop, ok, more := Round(idle && rounds == 0, pcount0);
      events := before + more;
      if !ok { return; }
      RunConcat(j, before, more);
      OneMoreRound(before, more, rounds, ccount0, pcount0, ccount, pcount, stop);
    }

    /** The do-loop of pcmjob_pollfds_handle: at most ten rounds of reading and writing. All it
        did is described by `events`, which drop nothing. It ends after ten rounds, or with an xrun
        or a request to start again, or because its last round moved nothing, and not before; where
        it ends because nothing moved and no answer was short, there was nothing left to move. The
        model stops (`ok` is false) where readit or writeit returns an error code: the C code would
        go on with that code added to a frame count. */
    method Transfer(prevents: bool, crevents: bool) returns (ok: bool, ghost events: seq<Event<T>>)
      requires Valid()
      modifies this`reinit, this`stopPending, this`stopCount, play, capt, capt.buf, pdev, cdev
      ensures play.buf == old(play.buf) == capt.buf
      ensures ok ==> Valid() && Runs(old(View()), events) && View() == Run(old(View()), events)
      ensures ok ==> InTurn(events) && 1 <= |events| <= 20
      ensures ok && |events| < 20 ==>
        || play.xrunPending || capt.xrunPending || reinit
        || (events == [Captured([])] && prevents && !crevents)
        || (|events| >= 2 && events[|events| - 2..] == [Captured([]), Played(0)])
      ensures ok ==> forall k :: 0 <= k < |events| - 2 && k % 2 == 0 ==>
        events[k] != Captured([]) || events[k + 1] != Played(0)
      ensures ok && |events| >= 2 && events[|events| - 2..] == [Captured([]), Played(0)] && !reinit ==>
        && (cdev.shorts == old(cdev.shorts) ==> cdev.announced <= 0 || play.bufCount == play.bufSize)
        && (pdev.shorts == old(pdev.shorts) ==> pdev.announced <= 0 || play.bufCount == 0)
    {
      events, ok := [], true;
      ghost var j, cshorts, pshorts := View(), cdev.shorts, pdev.shorts;
      var loopcount, ccount, pcount, stop := 0, 1, 0, false;
      while !stop && (ccount > 0 || pcount > 0) && loopcount < 10
        invariant loopcount <= 10 && (0 < loopcount || (ccount == 1 && !stop))
        invariant play.buf == old(play.buf) == capt.buf
        invariant InRounds(j, events, loopcount, ccount, pcount, stop, prevents && !crevents, cshorts, pshorts)
        decreases 10 - loopcount
      {
        ccount, pcount, stop, ok, events :=
          NextRound(loopcount, ccount, pcount, prevents && !crevents, j, events, cshorts, pshorts);
        if !ok { return; }
        loopcount := loopcount + 1;
      }
      RoundsOver(events, loopcount, ccount, pcount, stop);
    }

    /** A whole session: the initial fill, then one Transfer per wake-up, in any order, until one of
        them ends with an xrun or a request to start again. If the device can hold the lead and no
        call fails, the playback device has received a prefix of the silent lead followed by the
        captured frames, and what is missing is waiting, up to and including that wake-up.
        `served` is the number of wake-ups. */
    method Session(silence: T, lead: nat, wakeups: seq<(bool, bool)>) returns (ok: bool, resync: bool, served: nat)
      requires play != capt && play.buf == capt.buf && pdev.played == cdev.captured == []
      requires play.bufSize == capt.bufSize == play.buf.Length < 0x4000_0000_0000_0000
      requires lead < play.bufSize && lead <= play.bufferSize
      modifies this, play, capt, play.buf, pdev, cdev
      ensures ok ==> Valid() && Lossless(View(), Silence(silence, lead))
      ensures ok ==> pdev.played <= Silence(silence, lead) + cdev.captured
      ensures ok ==> |pdev.played| + play.bufCount == lead + |cdev.captured|
      ensures served <= |wakeups| && (ok && !resync ==> served == |wakeups|)
      ensures ok && served > 0 ==> (resync <==> play.xrunPending || capt.xrunPending || reinit)
    {
      var err := InitialFill(silence, lead);
      ok, resync, served := err == 0, false, 0;
      while ok && !resync && served < |wakeups|
        invariant play.buf == old(play.buf) == capt.buf && served <= |wakeups|
        invariant ok ==> Valid() && Lossless(View(), Silence(silence, lead))
        invariant ok && served > 0 ==> (resync <==> play.xrunPending || capt.xrunPending || reinit)
      {
        ghost var j, events := View(), [];
        ok, events := Transfer(wakeups[served].0, wakeups[served].1);
        if ok { RunIsDelayLine(j, events, Silence(silence, lead)); }
        resync := play.xrunPending || capt.xrunPending || reinit;
        served := served + 1;
      }
      if ok { RunIsDelayLine(View(), [], Silence(silence, lead)); }
    }
  }
}
