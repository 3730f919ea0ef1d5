/** The controls that alsamixer shows for the mixer elements: they are counted in a first pass, and
    created in a second one in an array of just that size. */
module MixerControls {
  import opened Options

  datatype ViewMode = Playback | Capture | All

  /** The channels of a mixer element: front left 0, front right 1, rear left 2, rear right 3,
      front centre 4, woofer 5, side left 6, side right 7. */
  const UNKNOWN := -1
  const CHANNELS: nat := 8
  const PAIRS: nat := 5

  /** control_channels: the channels that one control is for. */
  function Pair(i: nat): (int, int)
    requires i < PAIRS
  {
    match i
    case 0 => (0, 1)
    case 1 => (2, 3)
    case 2 => (4, UNKNOWN)
    case 3 => (5, UNKNOWN)
    case _ => (6, 7)
  }

  /** What alsa-lib tells about an element. */
  datatype Elem = Elem(
    simple: bool, enumerated: bool, enumCapture: bool, enumItems: set<int>, active: bool,
    hasPvol: bool, pvolJoined: bool, hasPsw: bool, pswJoined: bool, playback: set<int>,
    hasCvol: bool, cvolJoined: bool, hasCsw: bool, cswJoined: bool, capture: set<int>)

  /** Two flags and two channels of a control: of its volume or one of its switches. */
  datatype Half = Half(has0: bool, has1: bool, ch0: int, ch1: int)

  const NO_HALF := Half(false, false, 0, 0)

  /** The type flags and IS_ACTIVE, the low bits `pair`, and the channels. */
  datatype Control = Control(
    elem: Option<Elem>, pvolume: bool, cvolume: bool, pswitch: bool, cswitch: bool, isEnum: bool,
    volume: Half, psw: Half, csw: Half, multi: bool, pair: nat, active: bool, enumBits: set<int>)

  /** A control as it is allocated. */
  const ZERO := Control(None, false, false, false, false, false, NO_HALF, NO_HALF, NO_HALF, false, 0, false, {})

  // ----- what the controls mean -----

  /** The channels that a half stands for. */
  function Chosen(h: Half): seq<int> {
    (if h.has0 then [h.ch0] else []) + (if h.has1 then [h.ch1] else [])
  }

  /** A second channel comes only behind a first one. */
  predicate Packed(h: Half) {
    h.has1 ==> h.has0
  }

  /** A control as the user sees it. */
  datatype View = View(
    elem: Elem, pvolume: bool, cvolume: bool, pswitch: bool, cswitch: bool, isEnum: bool,
    volume: seq<int>, psw: seq<int>, csw: seq<int>, multi: bool, pair: nat, active: bool, enumBits: set<int>)

  ghost predicate Shows(c: Control, v: View) {
    && c.elem == Some(v.elem) && c.pvolume == v.pvolume && c.cvolume == v.cvolume
    && c.pswitch == v.pswitch && c.cswitch == v.cswitch && c.isEnum == v.isEnum
    && Chosen(c.volume) == v.volume && Chosen(c.psw) == v.psw && Chosen(c.csw) == v.csw
    && Packed(c.volume) && Packed(c.psw) && Packed(c.csw)
    && c.multi == v.multi && c.pair == v.pair && c.active == v.active && c.enumBits == v.enumBits
  }

  /** The channels of a pair that are there. */
  function Present(channels: set<int>, i: nat): seq<int>
    requires i < PAIRS
  {
    (if Pair(i).0 in channels then [Pair(i).0] else []) +
    (if Pair(i).1 != UNKNOWN && Pair(i).1 in channels then [Pair(i).1] else [])
  }

  predicate AnyPresent(channels: set<int>, i: nat)
    requires i < PAIRS
  {
    Pair(i).0 in channels || (Pair(i).1 != UNKNOWN && Pair(i).1 in channels)
  }

  function Channels(joined: bool, channels: set<int>, i: nat): seq<int>
    requires i < PAIRS
  {
    if joined then [0] else Present(channels, i)
  }

  /** The capture switch is shown with the playback controls. */
  predicate Merged(e: Elem) {
    && (e.hasPvol || e.hasPsw) && e.hasCsw && !e.hasCvol
    && (e.cswJoined ||
        (!(((e.hasPvol && e.pvolJoined) || (e.hasPsw && e.pswJoined)) && exists c :: 2 <= c < CHANNELS && c in e.capture)
         && forall i :: 0 <= i < PAIRS && AnyPresent(e.capture, i) ==> AnyPresent(e.playback, i)))
  }

  function EnumView(e: Elem): View {
    View(e, false, false, false, false, true, [], [], [], false, 0, e.active, set c | 0 <= c <= 31 && c in e.enumItems)
  }

  datatype Side = Play | Capt

  predicate HasSide(e: Elem, side: Side) {
    if side == Play then e.hasPvol || e.hasPsw else e.hasCvol || e.hasCsw
  }

  predicate Joined(e: Elem, side: Side) {
    if side == Play then (!e.hasPvol || e.pvolJoined) && (!e.hasPsw || e.pswJoined)
    else (!e.hasCvol || e.cvolJoined) && (!e.hasCsw || e.cswJoined)
  }

  function SideChannels(e: Elem, side: Side): set<int> {
    if side == Play then e.playback else e.capture
  }

  function When(b: bool, channels: seq<int>): seq<int> {
    if b then channels else []
  }

  /** The control for a pair of channels; a merged capture switch comes with playback. */
  function PairView(e: Elem, side: Side, merged: bool, i: nat): View
    requires i < PAIRS
  {
    if side == Play then
      View(e, e.hasPvol, false, e.hasPsw, merged, false,
           When(e.hasPvol, Channels(e.pvolJoined, e.playback, i)),
           When(e.hasPsw, Channels(e.pswJoined, e.playback, i)),
           When(merged, Channels(e.cswJoined, e.capture, i)),
           i > 0, i, e.active, {})
    else
      View(e, false, e.hasCvol, false, e.hasCsw, false,
           When(e.hasCvol, Channels(e.cvolJoined, e.capture, i)), [],
           When(e.hasCsw, Channels(e.cswJoined, e.capture, i)),
           i > 0, i, e.active, {})
  }

  /** The views of the first `n` pairs, those without any channel left out. */
  function PairViews(e: Elem, side: Side, merged: bool, n: nat): (vs: seq<View>)
    requires n <= PAIRS
  {
    if n == 0 then []
    else PairViews(e, side, merged, n - 1)
         + if AnyPresent(SideChannels(e, side), n - 1) then [PairView(e, side, merged, n - 1)] else []
  }

  /** The first of several controls of an element is marked as such, too. */
  function MarkFirst(vs: seq<View>): (ws: seq<View>)
    ensures |ws| == |vs|
  {
    if |vs| > 1 then vs[0 := vs[0].(multi := true)] else vs
  }

  function SideViews(e: Elem, side: Side, merged: bool): seq<View> {
    if Joined(e, side) then [PairView(e, side, merged, 0)]
    else MarkFirst(PairViews(e, side, merged, PAIRS))
  }

  /** The controls of a side, if it is to be shown. */
  function Part(e: Elem, side: Side, merged: bool, shown: bool): seq<View> {
    if shown && HasSide(e, side) then SideViews(e, side, merged) else []
  }

  /** What is to be seen of an element. */
  function Views(e: Elem, mode: ViewMode): seq<View> {
    if !e.simple then []
    else if e.enumerated then
      if (mode == Playback && e.enumCapture) || (mode == Capture && !e.enumCapture) then [] else [EnumView(e)]
    else
      var merged := mode == All && Merged(e);
      FrontedHasControls(e, Play, merged, mode != Capture);
      Marked(Part(e, Play, merged, mode != Capture), Stale(e, mode, merged))
      + Part(e, Capt, false, mode != Playback && !merged)
  }

  function AllViews(es: seq<Elem>, mode: ViewMode): seq<View> {
    if es == [] then [] else AllViews(es[..|es| - 1], mode) + Views(es[|es| - 1], mode)
  }

  /** The side is shown, with a control for each pair of channels and one for the front channels. */
  predicate Fronted(e: Elem, side: Side, shown: bool) {
    shown && HasSide(e, side) && !Joined(e, side) && AnyPresent(SideChannels(e, side), 0)
  }

  /** The side is shown, with a control for each pair of channels but none for the front channels. */
  predicate Headless(e: Elem, side: Side, shown: bool) {
    && shown && HasSide(e, side) && !Joined(e, side)
    && !AnyPresent(SideChannels(e, side), 0) && PairCount(SideChannels(e, side), PAIRS) > 0
  }

  /** The controls of a headless capture side mark the front control of the playback side. */
  predicate Stale(e: Elem, mode: ViewMode, merged: bool) {
    Headless(e, Capt, mode != Playback && !merged) && Fronted(e, Play, mode != Capture)
  }

  /** A headless side whose controls have no front control to mark: the code follows a null pointer. */
  predicate FollowsNull(e: Elem, mode: ViewMode) {
    var merged := mode == All && Merged(e);
    && e.simple && !e.enumerated
    && (Headless(e, Play, mode != Capture)
        || (Headless(e, Capt, mode != Playback && !merged) && !Fronted(e, Play, mode != Capture)))
  }

  // ----- the counting pass -----

  function PairCount(channels: set<int>, n: nat): (count: nat)
    requires n <= PAIRS
  {
    if n == 0 then 0 else PairCount(channels, n - 1) + if AnyPresent(channels, n - 1) then 1 else 0
  }

  lemma {:induction false} PairViewsCount(e: Elem, side: Side, merged: bool, n: nat)
    requires n <= PAIRS
    ensures |PairViews(e, side, merged, n)| == PairCount(SideChannels(e, side), n)
  {
    if n > 0 { PairViewsCount(e, side, merged, n - 1); }
  }

  method HasMoreThanFrontCaptureChannels(e: Elem) returns (b: bool)
    ensures b <==> exists c :: 2 <= c < CHANNELS && c in e.capture
  {
    for c := 2 to CHANNELS
      invariant forall d :: 2 <= d < c ==> d !in e.capture
    {
      if c in e.capture { return true; }
    }
    return false;
  }

  method HasMergedCswitch(e: Elem) returns (b: bool)
    ensures b == Merged(e)
  {
    if (e.hasPvol || e.hasPsw) && e.hasCsw && !e.hasCvol {
      if e.cswJoined { return true; }
      if (e.hasPvol && e.pvolJoined) || (e.hasPsw && e.pswJoined) {
        var more := HasMoreThanFrontCaptureChannels(e);
        if more { return false; }
      }
      for i := 0 to PAIRS
        invariant forall j :: 0 <= j < i && AnyPresent(e.capture, j) ==> AnyPresent(e.playback, j)
      {
        if AnyPresent(e.capture, i) && !AnyPresent(e.playback, i) { return false; }
      }
      return true;
    }
    return false;
  }

  method CountPairs(channels: set<int>) returns (count: nat)
    ensures count == PairCount(channels, PAIRS)
  {
    count := 0;
    for i := 0 to PAIRS
      invariant count == PairCount(channels, i)
    {
      if Pair(i).0 in channels || (Pair(i).1 != UNKNOWN && Pair(i).1 in channels) { count := count + 1; }
    }
  }

  /** get_playback_controls_count */
  method CountPlayback(e: Elem, ghost merged: bool) returns (count: nat)
    ensures count == if HasSide(e, Play) then |SideViews(e, Play, merged)| else 0
  {
    if !e.hasPvol && !e.hasPsw { return 0; }
    if (!e.hasPvol || e.pvolJoined) && (!e.hasPsw || e.pswJoined) { return 1; }
    count := CountPairs(e.playback);
    PairViewsCount(e, Play, merged, PAIRS);
  }

  /** get_capture_controls_count */
  method CountCapture(e: Elem, mode: ViewMode) returns (count: nat)
    ensures count == if HasSide(e, Capt) && !(mode == All && Merged(e)) then |SideViews(e, Capt, false)| else 0
  {
    var merged := HasMergedCswitch(e);
    if (!e.hasCvol && !e.hasCsw) || (mode == All && merged) { return 0; }
    if (!e.hasCvol || e.cvolJoined) && (!e.hasCsw || e.cswJoined) { return 1; }
    count := CountPairs(e.capture);
    PairViewsCount(e, Capt, false, PAIRS);
  }

  /** get_controls_count_for_elem */
  method CountForElem(e: Elem, mode: ViewMode) returns (count: nat)
    ensures count == |Views(e, mode)|
  {
    if !e.simple { return 0; }
    if e.enumerated {
      match mode
      case Playback => return if e.enumCapture then 0 else 1;
      case Capture => return if e.enumCapture then 1 else 0;
      case All => return 1;
    }
    match mode
    case Playback => count := CountPlayback(e, false);
    case Capture => count := CountCapture(e, mode);
    case All =>
      var p := CountPlayback(e, Merged(e));
      var c := CountCapture(e, mode);
      var merged := HasMergedCswitch(e);
      count := if merged then p else p + c;
  }

  // ----- the creating pass -----

  /** A volume or switch: the front channel if it is joined, else those of a pair that are there.
      The last step moves a lone second channel to the first place. */
  method MakeHalf(joined: bool, has0: bool, has1: bool, channels: (int, int)) returns (h: Half)
    ensures Packed(h) && Chosen(h) == if joined then [0]
            else (if has0 then [channels.0] else []) + (if has1 then [channels.1] else [])
  {
    h := NO_HALF;
    if joined {
      h := h.(has0 := true, ch0 := 0);
    } else {
      if has0 { h := h.(has0 := true, ch0 := channels.0); }
      if has1 { h := h.(has1 := true, ch1 := channels.1); }
    }
    if !h.has0 && h.has1 {
      h := h.(has0 := !h.has0, has1 := !h.has1);
      h := h.(ch0 := h.ch1);
    }
  }

  /** The same for an element that may not have it, and a pair of channels. */
  method HalfFor(has: bool, joined: bool, channels: set<int>, i: nat) returns (h: Half)
    requires i < PAIRS
    ensures Packed(h) && Chosen(h) == When(has, Channels(joined, channels, i))
  {
    h := NO_HALF;
    if has {
      var has0, has1 := Pair(i).0 in channels, Pair(i).1 != UNKNOWN && Pair(i).1 in channels;
      h := MakeHalf(joined, has0, has1, Pair(i));
    }
  }

  /** The control for a pair of channels, before it is known to be one of several. */
  method MakeControl(a: array<Control>, at: nat, e: Elem, side: Side, merged: bool, i: nat) returns (c: Control)
    requires i < PAIRS && at < a.Length && a[at] == ZERO
    ensures Shows(c, PairView(e, side, merged, i).(multi := false, pair := 0))
  {
    if side == Play {
      var volume := HalfFor(e.hasPvol, e.pvolJoined, e.playback, i);
      var psw := HalfFor(e.hasPsw, e.pswJoined, e.playback, i);
      var csw := HalfFor(merged, e.cswJoined, e.capture, i);
      c := a[at].(elem := Some(e), pvolume := e.hasPvol, volume := volume, pswitch := e.hasPsw, psw := psw,
                  cswitch := merged, csw := csw, active := e.active);
    } else {
      var volume := HalfFor(e.hasCvol, e.cvolJoined, e.capture, i);
      var csw := HalfFor(e.hasCsw, e.cswJoined, e.capture, i);
      c := a[at].(elem := Some(e), cvolume := e.hasCvol, volume := volume,
                  cswitch := e.hasCsw, csw := csw, active := e.active);
    }
  }

  method MakeEnum(a: array<Control>, at: nat, e: Elem) returns (c: Control)
    requires at < a.Length && a[at] == ZERO
    ensures Shows(c, EnumView(e))
  {
    var bits: set<int> := {};
    for i := 0 to 32
      invariant bits == set c | 0 <= c < i && c in e.enumItems
    {
      if i in e.enumItems { bits := bits + {i}; }
    }
    c := a[at].(elem := Some(e), isEnum := true, enumBits := bits, active := e.active);
  }

  /** The controls `a[k..]` show the views. */
  ghost predicate ShowsAll(a: seq<Control>, k: nat, vs: seq<View>)
    requires k + |vs| <= |a|
  {
    forall j :: 0 <= j < |vs| ==> Shows(a[k + j], vs[j])
  }

  lemma {:induction false} PairCountGrows(channels: set<int>, m: nat, n: nat)
    requires m <= n <= PAIRS
    ensures PairCount(channels, m) <= PairCount(channels, n)
  {
    if m < n { PairCountGrows(channels, m, n - 1); }
  }

  lemma {:induction false} PairCountFirst(channels: set<int>, n: nat)
    requires n <= PAIRS
    ensures AnyPresent(channels, 0) && n > 0 ==> PairCount(channels, n) > 0
  {
    if n > 1 { PairCountFirst(channels, n - 1); }
  }

  /** Another control behind others: the first one is marked, and so is the new one. */
  lemma MarkStep(a: seq<Control>, b: seq<Control>, k: nat, vs: seq<View>, v: View)
    requires vs != [] && k + |vs| < |a| == |b| && ShowsAll(a, k, MarkFirst(vs))
    requires b[k] == a[k].(multi := true) && Shows(b[k + |vs|], v)
    requires forall j :: 0 <= j < |a| && j != k && j != k + |vs| ==> b[j] == a[j]
    ensures ShowsAll(b, k, MarkFirst(vs + [v]))
  {
    var ws := MarkFirst(vs + [v]);
    forall j | 0 <= j < |ws| ensures Shows(b[k + j], ws[j]) {
      if j < |vs| { assert Shows(a[k + j], MarkFirst(vs)[j]); }
    }
  }

  /** A headless side: all its controls are marked anyway. */
  lemma {:induction false} HeadlessIsMarked(e: Elem, side: Side, merged: bool, n: nat)
    requires n <= PAIRS && !AnyPresent(SideChannels(e, side), 0)
    ensures forall v :: v in PairViews(e, side, merged, n) ==> v.multi
    ensures MarkFirst(PairViews(e, side, merged, n)) == PairViews(e, side, merged, n)
  {
    if n > 0 { HeadlessIsMarked(e, side, merged, n - 1); }
    var vs := PairViews(e, side, merged, n);
    if |vs| > 1 { assert vs[0] in vs && vs[0].(multi := true) == vs[0]; }
  }

  /** The control for a pair of channels that is there; `front` is where the first one is. */
  method PutPair(a: array<Control>, k: nat, at: nat, e: Elem, side: Side, merged: bool, i: nat, front: int,
                 ghost vs: seq<View>)
    requires i < PAIRS && at == k + |vs| < a.Length && a[at] == ZERO && ShowsAll(a[..], k, MarkFirst(vs))
    requires if i == 0 then vs == [] else vs != [] && front == k
    modifies a
    ensures ShowsAll(a[..], k, MarkFirst(vs + [PairView(e, side, merged, i)]))
    ensures forall j :: 0 <= j < a.Length && !(k <= j <= at) ==> a[j] == old(a[j])
  {
    ghost var b := a[..];
    var c := MakeControl(a, at, e, side, merged, i);
    a[at] := c;
    if i > 0 {
      a[front] := a[front].(multi := true);
      a[at] := a[at].(multi := true, pair := i);
      MarkStep(b, a[..], k, vs, PairView(e, side, merged, i));
    }
  }

  /** The same on a headless side, where `front` is left from the other side. */
  method PutHeadless(a: array<Control>, k: nat, at: nat, e: Elem, side: Side, merged: bool, i: nat, front: nat,
                     ghost vs: seq<View>)
    requires 0 < i < PAIRS && at == k + |vs| < a.Length && a[at] == ZERO && ShowsAll(a[..], k, vs)
    requires front < k
    modifies a
    ensures ShowsAll(a[..], k, vs + [PairView(e, side, merged, i)])
    ensures a[front] == old(a[front]).(multi := true)
    ensures forall j :: 0 <= j < a.Length && !(k <= j <= at) && j != front ==> a[j] == old(a[j])
  {
    var c := MakeControl(a, at, e, side, merged, i);
    a[at] := c;
    a[front] := a[front].(multi := true);
    a[at] := a[at].(multi := true, pair := i);
  }

  /** There is room for another control. */
  lemma PairRoom(e: Elem, side: Side, merged: bool, i: nat)
    requires i < PAIRS && AnyPresent(SideChannels(e, side), i)
    ensures |PairViews(e, side, merged, i)| < PairCount(SideChannels(e, side), i + 1)
    ensures |PairViews(e, side, merged, i + 1)| == |PairViews(e, side, merged, i)| + 1
    ensures AnyPresent(SideChannels(e, side), 0) ==> (i == 0 <==> PairViews(e, side, merged, i) == [])
  {
    var channels := SideChannels(e, side);
    PairCountFirst(channels, i);
    PairViewsCount(e, side, merged, i);
    PairViewsCount(e, side, merged, i + 1);
  }

  /** Outside `a[k..to]` nothing has changed but that the control at `front` may have been marked. */
  ghost predicate OnlyMarks(b: seq<Control>, a: seq<Control>, k: nat, to: nat, front: int, marked: bool) {
    && |a| == |b| && front < k
    && (forall j :: 0 <= j < |a| && !(k <= j < to) && j != front ==> a[j] == b[j])
    && (0 <= front < |a| ==> a[front] == if marked then b[front].(multi := true) else b[front])
  }

  /** One round of the loop over the pairs of channels. `front0` is the front control that the other
      side has left; `crash` tells that there is none to mark. */
  method NextPair(a: array<Control>, k: nat, e: Elem, side: Side, merged: bool, i: nat, count: nat, front: int,
                  ghost front0: int, ghost head: bool, ghost vs: seq<View>)
    returns (count': nat, front': int, crash: bool)
    requires front0 < k && i < PAIRS && head == AnyPresent(SideChannels(e, side), 0)
    requires k + PairCount(SideChannels(e, side), i + 1) <= a.Length
    requires vs == PairViews(e, side, merged, i) && count == |vs|
    requires if head then count > 0 ==> front == k else front == front0
    requires k + count <= a.Length && ShowsAll(a[..], k, MarkFirst(vs))
    requires forall j :: k + count <= j < a.Length ==> a[j] == ZERO
    modifies a
    ensures crash <==> AnyPresent(SideChannels(e, side), i) && !head && front0 < 0
    ensures !crash ==> count' == |PairViews(e, side, merged, i + 1)| && count <= count' && k + count' <= a.Length
    ensures !crash ==> if head then count' > 0 ==> front' == k else front' == front0
    ensures !crash ==> ShowsAll(a[..], k, MarkFirst(PairViews(e, side, merged, i + 1)))
    ensures !crash ==>
              OnlyMarks(old(a[..]), a[..], k, k + count', front0, !head && AnyPresent(SideChannels(e, side), i))
  {
    count', front', crash := count, front, false;
    if AnyPresent(SideChannels(e, side), i) {
      PairRoom(e, side, merged, i);
      if i == 0 {
        PutPair(a, k, k + count, e, side, merged, i, front, vs);
        front' := k + count;
      } else if front < 0 {
        crash := true;
        return;
      } else if front < k {
        HeadlessIsMarked(e, side, merged, i);
        HeadlessIsMarked(e, side, merged, i + 1);
        PutHeadless(a, k, k + count, e, side, merged, i, front, vs);
      } else {
        PutPair(a, k, k + count, e, side, merged, i, front, vs);
      }
      count' := count + 1;
    } else {
      assert PairViews(e, side, merged, i + 1) == vs;
    }
  }

  lemma MarksTwice(b: seq<Control>, c: seq<Control>, a: seq<Control>, k: nat, to: nat, to': nat, front: int,
                   first: bool, second: bool, marked: bool)
    requires OnlyMarks(b, c, k, to, front, first) && OnlyMarks(c, a, k, to', front, second)
    requires to <= to' && marked == (first || second)
    ensures OnlyMarks(b, a, k, to', front, marked)
  {
  }

  /** The controls for the first `i` pairs have been put from `k` on into an array that was `b`. */
  ghost predicate PairsDone(b: seq<Control>, a: seq<Control>, k: nat, e: Elem, side: Side, merged: bool, i: nat,
                            count: nat, front: int, front0: int) {
    var channels := SideChannels(e, side);
    var head := AnyPresent(channels, 0);
    && i <= PAIRS && count == |PairViews(e, side, merged, i)| && k + count <= |a|
    && (if head then count > 0 ==> front == k else front == front0)
    && ShowsAll(a, k, MarkFirst(PairViews(e, side, merged, i)))
    && OnlyMarks(b, a, k, k + count, front0, !head && PairCount(channels, i) > 0)
    && (forall j :: k + count <= j < |a| ==> a[j] == ZERO)
  }

  /** One round of the loop, from its invariant to its invariant. */
  method PairRound(a: array<Control>, k: nat, e: Elem, side: Side, merged: bool, i: nat, count: nat, front: int,
                   ghost front0: int, ghost b: seq<Control>)
    returns (count': nat, front': int, crash: bool)
    requires i < PAIRS && k + PairCount(SideChannels(e, side), i + 1) <= a.Length
    requires PairsDone(b, a[..], k, e, side, merged, i, count, front, front0)
    modifies a
    ensures crash <==> AnyPresent(SideChannels(e, side), i) && !AnyPresent(SideChannels(e, side), 0) && front0 < 0
    ensures !crash ==> PairsDone(b, a[..], k, e, side, merged, i + 1, count', front', front0)
  {
    ghost var c, channels := a[..], SideChannels(e, side);
    ghost var head := AnyPresent(channels, 0);
    count', front', crash := NextPair(a, k, e, side, merged, i, count, front, front0, head, PairViews(e, side, merged, i));
    if crash { return; }
    MarksTwice(b, c, a[..], k, k + count, k + count', front0, !head && PairCount(channels, i) > 0,
               !head && AnyPresent(channels, i), !head && PairCount(channels, i + 1) > 0);
  }

  lemma AllPairsDone(b: seq<Control>, a: seq<Control>, k: nat, e: Elem, side: Side, merged: bool, n: nat,
                     count: nat, front: int, front0: int)
    requires 0 < n <= PAIRS && PairsDone(b, a, k, e, side, merged, n, count, front, front0)
    ensures count == |MarkFirst(PairViews(e, side, merged, n))| && k + count <= |a|
    ensures front == if AnyPresent(SideChannels(e, side), 0) then k else front0
  {
    PairViewsCount(e, side, merged, n);
    PairCountFirst(SideChannels(e, side), n);
  }

  /** The loop over the pairs of channels in create_controls_for_elem, of which there are `n`. */
  method CreatePairs(a: array<Control>, k: nat, e: Elem, side: Side, merged: bool, front0: int, n: nat)
    returns (count: nat, front: int, crash: bool)
    requires front0 < k && 0 < n <= PAIRS && k + PairCount(SideChannels(e, side), n) <= a.Length
    requires forall j :: k <= j < a.Length ==> a[j] == ZERO
    modifies a
    ensures crash <==> !AnyPresent(SideChannels(e, side), 0) && PairCount(SideChannels(e, side), n) > 0 && front0 < 0
    ensures !crash ==> count == |MarkFirst(PairViews(e, side, merged, n))| && k + count <= a.Length
    ensures !crash ==> front == if AnyPresent(SideChannels(e, side), 0) then k else front0
    ensures !crash ==> PairsDone(old(a[..]), a[..], k, e, side, merged, n, count, front, front0)
  {
    ghost var channels, b := SideChannels(e, side), a[..];
    count, front, crash := 0, front0, false;
    for i := 0 to n
      invariant !crash && PairsDone(b, a[..], k, e, side, merged, i, count, front, front0)
      invariant !AnyPresent(channels, 0) && front0 < 0 ==> PairCount(channels, i) == 0
    {
      PairCountGrows(channels, i + 1, n);
      count, front, crash := PairRound(a, k, e, side, merged, i, count, front, front0, b);
      if crash { return; }
    }
    AllPairsDone(b, a[..], k, e, side, merged, n, count, front, front0);
  }

  /** The controls of one side of an element. */
  method CreateSide(a: array<Control>, k: nat, e: Elem, side: Side, merged: bool, front0: int)
    returns (count: nat, front: int, crash: bool)
    requires front0 < k && HasSide(e, side) && k + |SideViews(e, side, merged)| <= a.Length
    requires forall j :: k <= j < a.Length ==> a[j] == ZERO
    modifies a
    ensures crash <==> Headless(e, side, true) && front0 < 0
    ensures !crash ==> count == |SideViews(e, side, merged)| && front == if Fronted(e, side, true) then k else front0
    ensures !crash ==> ShowsAll(a[..], k, SideViews(e, side, merged))
    ensures !crash ==> OnlyMarks(old(a[..]), a[..], k, k + count, front0, Headless(e, side, true))
  {
    if Joined(e, side) {
      var c := MakeControl(a, k, e, side, merged, 0);
      a[k] := c;
      count, front, crash := 1, front0, false;
    } else {
      PairViewsCount(e, side, merged, PAIRS);
      count, front, crash := CreatePairs(a, k, e, side, merged, front0, PAIRS);
    }
  }

  lemma ShowsBoth(a: seq<Control>, b: seq<Control>, k: nat, vs: seq<View>, ws: seq<View>)
    requires k + |vs| + |ws| <= |a| == |b| && ShowsAll(a, k, vs) && ShowsAll(b, k + |vs|, ws)
    requires forall j :: 0 <= j < k + |vs| ==> b[j] == a[j]
    ensures ShowsAll(b, k, vs + ws)
  {
    forall j | 0 <= j < |vs + ws| ensures Shows(b[k + j], (vs + ws)[j]) {
      if j < |vs| { assert Shows(a[k + j], vs[j]); } else { assert Shows(b[k + |vs| + (j - |vs|)], ws[j - |vs|]); }
    }
  }

  method CreatePart(a: array<Control>, k: nat, e: Elem, side: Side, merged: bool, shown: bool, front0: int)
    returns (count: nat, front: int, crash: bool)
    requires front0 < k && k + |Part(e, side, merged, shown)| <= a.Length
    requires forall j :: k <= j < a.Length ==> a[j] == ZERO
    modifies a
    ensures crash <==> Headless(e, side, shown) && front0 < 0
    ensures !crash ==> count == |Part(e, side, merged, shown)| && front == if Fronted(e, side, shown) then k else front0
    ensures !crash ==> ShowsAll(a[..], k, Part(e, side, merged, shown))
    ensures !crash ==> OnlyMarks(old(a[..]), a[..], k, k + count, front0, Headless(e, side, shown))
  {
    count, front, crash := 0, front0, false;
    if shown && HasSide(e, side) { count, front, crash := CreateSide(a, k, e, side, merged, front0); }
  }

  /** The controls of the first side, with the mark that those of the second one put on it. */
  function Marked(vs: seq<View>, mark: bool): (ws: seq<View>)
    requires mark ==> vs != []
    ensures |ws| == |vs|
  {
    if mark then vs[0 := vs[0].(multi := true)] else vs
  }

  lemma MarkedShows(b: seq<Control>, a: seq<Control>, k: nat, vs: seq<View>, to: nat, front: int, mark: bool)
    requires k + |vs| <= |b| && ShowsAll(b, k, vs) && OnlyMarks(b, a, k + |vs|, to, front, mark)
    requires 0 <= front ==> front == k && vs != []
    ensures ShowsAll(a, k, Marked(vs, mark && 0 <= front))
    ensures forall j :: 0 <= j < |a| && !(k <= j < k + |vs|) && !(k + |vs| <= j < to) ==> a[j] == b[j]
  {
    var ws := Marked(vs, mark && 0 <= front);
    forall j | 0 <= j < |vs|
      ensures Shows(a[k + j], ws[j])
    {
      assert Shows(b[k + j], vs[j]);
    }
  }

  lemma FrontedHasControls(e: Elem, side: Side, merged: bool, shown: bool)
    ensures Fronted(e, side, shown) ==> Part(e, side, merged, shown) != []
  {
    PairViewsCount(e, side, merged, PAIRS);
    PairCountFirst(SideChannels(e, side), PAIRS);
  }

  method CreateBoth(a: array<Control>, k: nat, e: Elem, mode: ViewMode, merged: bool,
                    ghost vs: seq<View>, ghost ws: seq<View>) returns (count: nat, crash: bool)
    requires k + |vs| + |ws| <= a.Length
    requires vs == Part(e, Play, merged, mode != Capture)
    requires ws == Part(e, Capt, false, mode != Playback && !merged)
    requires forall j :: k <= j < a.Length ==> a[j] == ZERO
    requires Stale(e, mode, merged) ==> vs != []
    modifies a
    ensures crash <==> (Headless(e, Play, mode != Capture) ||
                        (Headless(e, Capt, mode != Playback && !merged) && !Fronted(e, Play, mode != Capture)))
    ensures !crash ==> count == |vs + ws| && ShowsAll(a[..], k, Marked(vs, Stale(e, mode, merged)) + ws)
    ensures !crash ==> forall j :: 0 <= j < a.Length && !(k <= j < k + count) ==> a[j] == old(a[j])
  {
    var front, more;
    count, front, crash := CreatePart(a, k, e, Play, merged, mode != Capture, -1);
    if crash { return; }
    FrontedHasControls(e, Play, merged, mode != Capture);
    ghost var b, n, front0 := a[..], count, front;
    more, front, crash := CreatePart(a, k + count, e, Capt, false, mode != Playback && !merged, front);
    if crash { return; }
    MarkedShows(b, a[..], k, vs, k + n + more, front0, Headless(e, Capt, mode != Playback && !merged));
    ShowsBoth(a[..], a[..], k, Marked(vs, Stale(e, mode, merged)), ws);
    count := count + more;
  }

  /** create_controls_for_elem */
  method CreateForElem(a: array<Control>, k: nat, e: Elem, mode: ViewMode) returns (count: nat, crash: bool)
    requires k + |Views(e, mode)| <= a.Length
    requires forall j :: k <= j < a.Length ==> a[j] == ZERO
    modifies a
    ensures crash <==> FollowsNull(e, mode)
    ensures !crash ==> count == |Views(e, mode)| && ShowsAll(a[..], k, Views(e, mode))
    ensures !crash ==> forall j :: 0 <= j < a.Length && !(k <= j < k + count) ==> a[j] == old(a[j])
  {
    count, crash := 0, false;
    if !e.simple { return; }
    if e.enumerated {
      if (mode == Playback && e.enumCapture) || (mode == Capture && !e.enumCapture) { return; }
      var c := MakeEnum(a, k, e);
      a[k] := c;
      return 1, false;
    }
    var merged := HasMergedCswitch(e);
    merged := mode == All && merged;
    FrontedHasControls(e, Play, merged, mode != Capture);
    count, crash := CreateBoth(a, k, e, mode, merged, Part(e, Play, merged, mode != Capture),
                               Part(e, Capt, false, mode != Playback && !merged));
  }

  lemma OneMoreElem(es: seq<Elem>, e: Elem, mode: ViewMode)
    ensures AllViews(es + [e], mode) == AllViews(es, mode) + Views(e, mode)
  {
    assert (es + [e])[..|es|] == es;
  }

  predicate NoMoreViews(a: seq<Elem>, b: seq<Elem>, mode: ViewMode) {
    |AllViews(a, mode)| <= |AllViews(b, mode)|
  }

  lemma OneFewer(es: seq<Elem>, mode: ViewMode, i: nat)
    requires i < |es|
    ensures NoMoreViews(es[..i], es[..i + 1], mode)
  {
    OneMoreElem(es[..i], es[i], mode);
    assert es[..i + 1] == es[..i] + [es[i]];
  }

  lemma FewerAndFewer(a: seq<Elem>, b: seq<Elem>, c: seq<Elem>, mode: ViewMode)
    requires NoMoreViews(a, b, mode) && NoMoreViews(b, c, mode)
    ensures NoMoreViews(a, c, mode)
  {
  }

  lemma {:induction false} ViewsFit(es: seq<Elem>, mode: ViewMode, i: nat)
    requires i <= |es|
    ensures NoMoreViews(es[..i], es, mode)
    decreases |es| - i
  {
    if i == |es| {
      assert es[..i] == es;
    } else {
      ViewsFit(es, mode, i + 1);
      OneFewer(es, mode, i);
      FewerAndFewer(es[..i], es[..i + 1], es, mode);
    }
  }

  lemma ViewsSplit(es: seq<Elem>, mode: ViewMode, i: nat)
    requires i < |es|
    ensures AllViews(es[..i + 1], mode) == AllViews(es[..i], mode) + Views(es[i], mode)
    ensures |AllViews(es[..i + 1], mode)| <= |AllViews(es, mode)|
  {
    ViewsFit(es, mode, i + 1);
    OneMoreElem(es[..i], es[i], mode);
    assert es[..i + 1] == es[..i] + [es[i]];
  }

  /** The first pass. */
  method CountAll(es: seq<Elem>, mode: ViewMode) returns (total: nat)
    ensures total == |AllViews(es, mode)|
  {
    total := 0;
    for i := 0 to |es|
      invariant total == |AllViews(es[..i], mode)|
    {
      ViewsSplit(es, mode, i);
      var n := CountForElem(es[i], mode);
      total := total + n;
    }
    assert es[..|es|] == es;
  }

  /** One element in the second pass. */
  method CreateNext(controls: array<Control>, control: nat, e: Elem, mode: ViewMode,
                    ghost vs: seq<View>, ghost vs': seq<View>) returns (control': nat, crash: bool)
    requires vs' == vs + Views(e, mode)
    requires control == |vs| <= |vs'| <= controls.Length && ShowsAll(controls[..], 0, vs)
    requires forall j :: control <= j < controls.Length ==> controls[j] == ZERO
    modifies controls
    ensures crash <==> FollowsNull(e, mode)
    ensures !crash ==> control' == |vs'| && ShowsAll(controls[..], 0, vs')
    ensures !crash ==> forall j :: control' <= j < controls.Length ==> controls[j] == ZERO
  {
    ghost var b := controls[..];
    var n;
    n, crash := CreateForElem(controls, control, e, mode);
    control' := control;
    if crash { return; }
    ShowsBoth(b, controls[..], 0, vs, Views(e, mode));
    control' := control + n;
  }

  /** One of the elements makes the code follow a null pointer. */
  predicate SomeFollowsNull(es: seq<Elem>, mode: ViewMode) {
    es != [] && (SomeFollowsNull(es[..|es| - 1], mode) || FollowsNull(es[|es| - 1], mode))
  }

  lemma {:induction false} SomeIsOne(es: seq<Elem>, mode: ViewMode)
    ensures SomeFollowsNull(es, mode) <==> exists i :: 0 <= i < |es| && FollowsNull(es[i], mode)
  {
    if es != [] {
      var n := |es| - 1;
      SomeIsOne(es[..n], mode);
      assert forall i :: 0 <= i < n ==> es[..n][i] == es[i];
    }
  }

  lemma {:induction false} SomeSplit(es: seq<Elem>, mode: ViewMode, i: nat)
    requires i < |es|
    ensures SomeFollowsNull(es[..i + 1], mode) <==> SomeFollowsNull(es[..i], mode) || FollowsNull(es[i], mode)
    ensures SomeFollowsNull(es[..i + 1], mode) ==> SomeFollowsNull(es, mode)
    decreases |es| - i
  {
    assert es[..i + 1][..i] == es[..i];
    if i + 1 == |es| {
      assert es[..i + 1] == es;
    } else {
      SomeSplit(es, mode, i + 1);
    }
  }

  method NextElem(controls: array<Control>, control: nat, es: seq<Elem>, i: nat, mode: ViewMode)
    returns (control': nat, crash: bool)
    requires i < |es| && controls.Length == |AllViews(es, mode)| && !SomeFollowsNull(es[..i], mode)
    requires control == |AllViews(es[..i], mode)| <= controls.Length && ShowsAll(controls[..], 0, AllViews(es[..i], mode))
    requires forall j :: control <= j < controls.Length ==> controls[j] == ZERO
    modifies controls
    ensures crash == SomeFollowsNull(es[..i + 1], mode) && (crash ==> SomeFollowsNull(es, mode))
    ensures !crash ==> control' == |AllViews(es[..i + 1], mode)| <= controls.Length
    ensures !crash ==> ShowsAll(controls[..], 0, AllViews(es[..i + 1], mode))
    ensures !crash ==> forall j :: control' <= j < controls.Length ==> controls[j] == ZERO
  {
    ViewsSplit(es, mode, i);
    SomeSplit(es, mode, i);
    control', crash := CreateNext(controls, control, es[i], mode, AllViews(es[..i], mode), AllViews(es[..i + 1], mode));
  }

  /** The second pass. */
  method FillControls(controls: array<Control>, es: seq<Elem>, mode: ViewMode) returns (control: nat, crash: bool)
    requires controls.Length == |AllViews(es, mode)|
    requires forall j :: 0 <= j < controls.Length ==> controls[j] == ZERO
    modifies controls
    ensures crash == SomeFollowsNull(es, mode)
    ensures !crash ==> control == controls.Length && ShowsAll(controls[..], 0, AllViews(es, mode))
  {
    control, crash := 0, false;
    for i := 0 to |es|
      invariant !crash && control == |AllViews(es[..i], mode)| <= controls.Length
      invariant ShowsAll(controls[..], 0, AllViews(es[..i], mode)) && !SomeFollowsNull(es[..i], mode)
      invariant forall j :: control <= j < controls.Length ==> controls[j] == ZERO
    {
      control, crash := NextElem(controls, control, es, i, mode);
      if crash { return; }
    }
    assert es[..|es|] == es;
  }

  /** create_controls: unless the code follows a null pointer, as many controls are created as were
      counted, and they are those to be seen. It follows one if and only if some element has a
      headless side and no front control on the side before. */
  method CreateControls(es: seq<Elem>, mode: ViewMode) returns (controls: array<Control>, crash: bool)
    ensures crash <==> exists i :: 0 <= i < |es| && FollowsNull(es[i], mode)
    ensures !crash ==> controls.Length == |AllViews(es, mode)| && ShowsAll(controls[..], 0, AllViews(es, mode))
  {
    var total := CountAll(es, mode);
    controls := new Control[total](_ => ZERO);
    var control;
    control, crash := FillControls(controls, es, mode);
    SomeIsOne(es, mode);
  }

  /** The two flags of a half tell how many channels it has, the second never without the first. */
  lemma SecondChannelHasAFirst(c: Control, v: View)
    requires Shows(c, v)
    ensures |v.volume| <= 2 && |v.psw| <= 2 && |v.csw| <= 2
    ensures c.volume.has1 <==> |v.volume| == 2
    ensures c.psw.has1 <==> |v.psw| == 2
    ensures c.csw.has1 <==> |v.csw| == 2
  {
    assert Chosen(c.volume) == v.volume && Chosen(c.psw) == v.psw && Chosen(c.csw) == v.csw;
  }

  // ----- no channel is lost -----

  datatype Which = Volume | PlaySwitch | CaptSwitch

  function Of(v: View, w: Which): seq<int> {
    match w
    case Volume => v.volume
    case PlaySwitch => v.psw
    case CaptSwitch => v.csw
  }

  /** The channels of the volumes, or of one kind of switch, on all controls. */
  function Shown(vs: seq<View>, w: Which): seq<int> {
    if vs == [] then [] else Shown(vs[..|vs| - 1], w) + Of(vs[|vs| - 1], w)
  }

  /** The channels below `n` that are there, in ascending order. */
  function Listed(channels: set<int>, n: nat): seq<int> {
    if n == 0 then [] else Listed(channels, n - 1) + if n - 1 in channels then [n - 1] else []
  }

  /** The channels of the first `n` pairs are the first ones in the list of supported channels. */
  function ChannelsBefore(n: nat): nat
    requires n <= PAIRS
  {
    match n
    case 0 => 0
    case 1 => 2
    case 2 => 4
    case 3 => 5
    case 4 => 6
    case _ => 8
  }

  lemma ListedPair(channels: set<int>, n: nat)
    requires n < PAIRS
    ensures Listed(channels, ChannelsBefore(n + 1)) == Listed(channels, ChannelsBefore(n)) + Present(channels, n)
    ensures AnyPresent(channels, n) <==> Present(channels, n) != []
  {
    var m := ChannelsBefore(n);
    var l := Listed(channels, m);
    assert Listed(channels, m + 1) == l + if m in channels then [m] else [];
    if Pair(n).1 != UNKNOWN {
      assert Listed(channels, m + 2) == Listed(channels, m + 1) + if m + 1 in channels then [m + 1] else [];
    }
  }

  lemma {:induction false} ShownJoin(vs: seq<View>, ws: seq<View>, w: Which)
    ensures Shown(vs + ws, w) == Shown(vs, w) + Shown(ws, w)
  {
    if ws == [] {
      assert vs + ws == vs;
    } else {
      var n := |ws| - 1;
      ShownJoin(vs, ws[..n], w);
      assert (vs + ws)[..|vs| + n] == vs + ws[..n] && (vs + ws)[|vs| + n] == ws[n];
      Assoc(Shown(vs, w), Shown(ws[..n], w), Of(ws[n], w));
    }
  }

  lemma Assoc(a: seq<int>, b: seq<int>, c: seq<int>)
    ensures (a + b) + c == a + (b + c)
  {
  }

  lemma ShownStep(vs: seq<View>, there: bool, v: View, all: seq<View>, w: Which)
    requires all == vs + if there then [v] else []
    ensures Shown(all, w) == Shown(vs, w) + if there then Of(v, w) else []
  {
    if there { assert all[..|vs|] == vs; } else { assert all == vs; }
  }

  /** The volumes or switches are there and separate for the channels; those that are merged have a control
      to be shown on. */
  predicate Separate(e: Elem, side: Side, merged: bool, w: Which) {
    match w
    case Volume => if side == Play then e.hasPvol && !e.pvolJoined else e.hasCvol && !e.cvolJoined
    case PlaySwitch => side == Play && e.hasPsw && !e.pswJoined
    case CaptSwitch =>
      && !e.cswJoined
      && if side == Capt then e.hasCsw
         else merged && forall i :: 0 <= i < PAIRS && AnyPresent(e.capture, i) ==> AnyPresent(e.playback, i)
  }

  function ChannelsOf(e: Elem, side: Side, w: Which): set<int> {
    if w == CaptSwitch then e.capture else SideChannels(e, side)
  }

  lemma PairShows(e: Elem, side: Side, merged: bool, w: Which, i: nat)
    requires i < PAIRS && Separate(e, side, merged, w)
    ensures Of(PairView(e, side, merged, i), w) == Present(ChannelsOf(e, side, w), i)
    ensures AnyPresent(SideChannels(e, side), i) || Present(ChannelsOf(e, side, w), i) == []
  {
  }

  /** The controls of a side whose volume or switch is not joined have each of its supported channels,
      once and in order. */
  lemma {:induction false} EveryChannelOnce(e: Elem, side: Side, merged: bool, w: Which, n: nat)
    requires n <= PAIRS && Separate(e, side, merged, w)
    ensures Shown(PairViews(e, side, merged, n), w) == Listed(ChannelsOf(e, side, w), ChannelsBefore(n))
  {
    if n > 0 {
      var i, channels := n - 1, ChannelsOf(e, side, w);
      EveryChannelOnce(e, side, merged, w, i);
      ListedPair(channels, i);
      PairShows(e, side, merged, w, i);
      ShownStep(PairViews(e, side, merged, i), AnyPresent(SideChannels(e, side), i), PairView(e, side, merged, i),
                PairViews(e, side, merged, n), w);
    }
  }

  lemma {:induction false} MarkedShown(vs: seq<View>, ws: seq<View>, w: Which)
    requires |ws| == |vs| && forall j :: 0 <= j < |vs| ==> Of(ws[j], w) == Of(vs[j], w)
    ensures Shown(ws, w) == Shown(vs, w)
  {
    if vs != [] { MarkedShown(vs[..|vs| - 1], ws[..|vs| - 1], w); }
  }

  lemma {:induction false} NothingShown(vs: seq<View>, w: Which)
    requires forall j :: 0 <= j < |vs| ==> Of(vs[j], w) == []
    ensures Shown(vs, w) == []
  {
    if vs != [] { NothingShown(vs[..|vs| - 1], w); }
  }

  /** A channel of the same pair. */
  predicate HasPartner(c: int, channels: set<int>) {
    match c
    case 0 => 0 in channels || 1 in channels
    case 1 => 0 in channels || 1 in channels
    case 2 => 2 in channels || 3 in channels
    case 3 => 2 in channels || 3 in channels
    case 4 => 4 in channels
    case 5 => 5 in channels
    case 6 => 6 in channels || 7 in channels
    case 7 => 6 in channels || 7 in channels
    case _ => false
  }

  lemma PartnersIff(e: Elem)
    ensures (forall i :: 0 <= i < PAIRS && AnyPresent(e.capture, i) ==> AnyPresent(e.playback, i))
       <==> (forall c :: 0 <= c < 8 && c in e.capture ==> HasPartner(c, e.playback))
  {
    if forall i :: 0 <= i < PAIRS && AnyPresent(e.capture, i) ==> AnyPresent(e.playback, i) {
      forall c | 0 <= c < 8 && c in e.capture ensures HasPartner(c, e.playback) {
        var i := if c < 2 then 0 else if c < 4 then 1 else if c == 4 then 2 else if c == 5 then 3 else 4;
        assert AnyPresent(e.capture, i);
      }
    } else {
      var i :| 0 <= i < PAIRS && AnyPresent(e.capture, i) && !AnyPresent(e.playback, i);
      var c := if Pair(i).0 in e.capture then Pair(i).0 else Pair(i).1;
      assert c in e.capture && !HasPartner(c, e.playback);
    }
  }

  /** When the capture switch is shown with the playback controls, channel by channel. */
  lemma MergedIff(e: Elem)
    ensures Merged(e) <==>
      && e.hasCsw && !e.hasCvol && (e.hasPvol || e.hasPsw)
      && (e.cswJoined || forall c :: 0 <= c < 8 && c in e.capture ==>
            && HasPartner(c, e.playback)
            && (c < 2 || ((e.hasPvol ==> !e.pvolJoined) && (e.hasPsw ==> !e.pswJoined))))
  {
    PartnersIff(e);
  }

  lemma {:induction false} ListedLess(channels: set<int>, n: nat)
    requires n >= 2 && forall c :: 2 <= c < n ==> c !in channels
    ensures Listed(channels, n) == Listed(channels, 2)
  {
    if n > 2 { ListedLess(channels, n - 1); }
  }

  /** What one side shows. */
  lemma SideShows(e: Elem, side: Side, merged: bool, w: Which)
    requires Separate(e, side, merged, w)
    requires Joined(e, side) ==> forall c :: 2 <= c < 8 ==> c !in ChannelsOf(e, side, w)
    ensures Shown(SideViews(e, side, merged), w) == Listed(ChannelsOf(e, side, w), 8)
  {
    var channels := ChannelsOf(e, side, w);
    if Joined(e, side) {
      ListedLess(channels, 8);
      ListedPair(channels, 0);
      PairShows(e, side, merged, w, 0);
      var v := PairView(e, side, merged, 0);
      ShownStep([], true, v, [v], w);
    } else {
      EveryChannelOnce(e, side, merged, w, PAIRS);
      MarkedShown(PairViews(e, side, merged, PAIRS), SideViews(e, side, merged), w);
    }
  }

  lemma {:induction false} NoCaptSwitch(e: Elem, n: nat)
    requires n <= PAIRS
    ensures forall v :: v in PairViews(e, Play, false, n) ==> v.csw == []
  {
    if n > 0 { NoCaptSwitch(e, n - 1); }
  }

  lemma {:induction false} NoPlaySwitch(e: Elem, n: nat)
    requires n <= PAIRS
    ensures forall v :: v in PairViews(e, Capt, false, n) ==> v.psw == []
  {
    if n > 0 { NoPlaySwitch(e, n - 1); }
  }

  /** The two parts of what is to be seen of an element. */
  lemma ViewsShow(e: Elem, mode: ViewMode, w: Which)
    requires e.simple && !e.enumerated
    ensures var merged := mode == All && Merged(e);
      Shown(Views(e, mode), w) == Shown(Part(e, Play, merged, mode != Capture), w)
                                + Shown(Part(e, Capt, false, mode != Playback && !merged), w)
  {
    var merged := mode == All && Merged(e);
    var vs, ws := Part(e, Play, merged, mode != Capture), Part(e, Capt, false, mode != Playback && !merged);
    FrontedHasControls(e, Play, merged, mode != Capture);
    ShownJoin(Marked(vs, Stale(e, mode, merged)), ws, w);
    MarkedShown(vs, Marked(vs, Stale(e, mode, merged)), w);
  }

  /** With everything in view no capture switch is lost, be it shown with playback or on its own: all
      channels have one, once and in order. */
  lemma EveryCaptureSwitchOnce(e: Elem)
    requires e.simple && !e.enumerated && e.hasCsw && !e.cswJoined
    ensures Shown(Views(e, All), CaptSwitch) == Listed(e.capture, 8)
  {
    ViewsShow(e, All, CaptSwitch);
    if Merged(e) {
      SideShows(e, Play, true, CaptSwitch);
    } else {
      NoCaptSwitch(e, PAIRS);
      NothingShown(Part(e, Play, false, true), CaptSwitch);
      SideShows(e, Capt, false, CaptSwitch);
    }
  }

  /** Neither is a playback switch, with playback in view. */
  lemma EveryPlaybackSwitchOnce(e: Elem, mode: ViewMode)
    requires e.simple && !e.enumerated && e.hasPsw && !e.pswJoined && mode != Capture
    ensures Shown(Views(e, mode), PlaySwitch) == Listed(e.playback, 8)
  {
    var merged := mode == All && Merged(e);
    ViewsShow(e, mode, PlaySwitch);
    SideShows(e, Play, merged, PlaySwitch);
    NoPlaySwitchOfCapture(e, mode != Playback && !merged);
  }

  lemma NoPlaySwitchOfCapture(e: Elem, shown: bool)
    ensures Shown(Part(e, Capt, false, shown), PlaySwitch) == []
  {
    NoPlaySwitch(e, PAIRS);
    NothingShown(Part(e, Capt, false, shown), PlaySwitch);
  }

  predicate Ascends(vs: seq<View>, n: nat) {
    |vs| <= n && forall k :: 0 <= k < |vs| ==> k <= vs[k].pair < n && (vs[k].multi <==> vs[k].pair > 0)
  }

  lemma AscendsMore(vs: seq<View>, v: View, n: nat, there: bool)
    requires Ascends(vs, n) && v.pair == n && (v.multi <==> n > 0)
    ensures Ascends(vs + if there then [v] else [], n + 1)
  {
  }

  lemma {:induction false} PairsAscend(e: Elem, side: Side, merged: bool, n: nat)
    requires n <= PAIRS
    ensures Ascends(PairViews(e, side, merged, n), n)
  {
    if n > 0 {
      PairsAscend(e, side, merged, n - 1);
      PairIs(e, side, merged, n - 1);
      AscendsMore(PairViews(e, side, merged, n - 1), PairView(e, side, merged, n - 1), n - 1,
                  AnyPresent(SideChannels(e, side), n - 1));
    }
  }

  lemma PairIs(e: Elem, side: Side, merged: bool, i: nat)
    requires i < PAIRS
    ensures var v := PairView(e, side, merged, i); v.pair == i && (v.multi <==> i > 0)
  {
  }

  /** The controls of a side are marked as belonging together if there are several of them, or if the only
      one is not for the front channels. */
  lemma MultiIff(e: Elem, side: Side, merged: bool)
    requires !Joined(e, side)
    ensures var ws := SideViews(e, side, merged);
      forall k :: 0 <= k < |ws| ==> (ws[k].multi <==> |ws| > 1 || ws[k].pair > 0)
  {
    PairsAscend(e, side, merged, PAIRS);
  }
}
