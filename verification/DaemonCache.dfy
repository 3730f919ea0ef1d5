/** The two id lists in which the daemon of alsactl remembers, for each control element, whether
    it can be written; and what they make it answer over any history of events. */
module DaemonCache {
  import opened Options

  /** The fields of an element id that are compared. */
  datatype Id = Id(iface: int, index: int, name: string, device: int, subdevice: int)

  /** A slot of a list; a removed entry leaves an empty slot behind. */
  type Slot = Option<Id>

  function CompareIds(id1: Slot, id2: Slot): bool
  {
    if id1.None? || id2.None? then false
    else
      && id1.value.iface == id2.value.iface && id1.value.index == id2.value.index
      && id1.value.name == id2.value.name
      && id1.value.device == id2.value.device && id1.value.subdevice == id2.value.subdevice
  }

  // ----- the lists -----

  ghost predicate Distinct(s: seq<Slot>) {
    forall i, j :: 0 <= i < j < |s| && s[i].Some? ==> s[i] != s[j]
  }

  ghost predicate Disjoint(s: seq<Slot>, t: seq<Slot>) {
    forall i, j :: 0 <= i < |s| && 0 <= j < |t| && s[i].Some? ==> s[i] != t[j]
  }

  /** The list with an entry put into its first free slot, or behind its end. */
  function Added(s: seq<Slot>, id: Id): (r: seq<Slot>)
  {
    if s == [] then [Some(id)]
    else if s[0].None? then [Some(id)] + s[1..]
    else [s[0]] + Added(s[1..], id)
  }

  /** Adding changes one slot only, which was free, and the list grows only if no slot was. */
  lemma {:induction false} AddedAt(s: seq<Slot>, id: Id) returns (k: nat)
    ensures k <= |s| && (k < |s| ==> s[k].None?) && forall i :: 0 <= i < k ==> s[i].Some?
    ensures Added(s, id) == s[..k] + [Some(id)] + if k < |s| then s[k + 1..] else []
  {
    if s == [] || s[0].None? {
      k := 0;
    } else {
      var l := AddedAt(s[1..], id);
      k := l + 1;
      assert s[..k] == [s[0]] + s[1..][..l];
      assert k < |s| ==> s[k + 1..] == s[1..][l + 1..];
    }
  }

  /** The same by positions. */
  lemma AddedSlots(s: seq<Slot>, id: Id) returns (k: nat)
    ensures k <= |s| && (k < |s| ==> s[k] == None) && (k == |s| ==> None !in s)
    ensures var r := Added(s, id);
      && |r| == (if k < |s| then |s| else |s| + 1) && r[k] == Some(id)
      && forall i :: 0 <= i < |s| && i != k ==> r[i] == s[i]
  {
    k := AddedAt(s, id);
  }

  /** What adding means for the contents. */
  lemma AddedHolds(s: seq<Slot>, id: Id)
    ensures forall x :: Some(x) in Added(s, id) <==> Some(x) in s || x == id
    ensures Distinct(s) && Some(id) !in s ==> Distinct(Added(s, id))
    ensures |Added(s, id)| == if None in s then |s| else |s| + 1
  {
    var k := AddedSlots(s, id);
    var r := Added(s, id);
    forall x ensures Some(x) in r <==> Some(x) in s || x == id {
      if i :| 0 <= i < |s| && s[i] == Some(x) { assert r[i] == Some(x); }
    }
  }

  class IdList {
    var list: seq<Slot>

    constructor ()
      ensures list == []
    {
      list := [];
    }

    /** in_list */
    method InList(id: Id) returns (found: bool)
      ensures found <==> Some(id) in list
    {
      for i := 0 to |list|
        invariant Some(id) !in list[..i]
      {
        if list[i].Some? && CompareIds(Some(id), list[i]) { return true; }
      }
      return false;
    }

    /** remove_from_list */
    method RemoveFromList(id: Id)
      modifies this
      ensures |list| == |old(list)|
      ensures forall i :: 0 <= i < |list| ==> list[i] == if old(list[i]) == Some(id) then None else old(list[i])
    {
      for i := 0 to |list|
        invariant |list| == |old(list)|
        invariant forall k :: 0 <= k < i ==> list[k] == if old(list[k]) == Some(id) then None else old(list[k])
        invariant forall k :: i <= k < |list| ==> list[k] == old(list[k])
      {
        if CompareIds(Some(id), list[i]) { list := list[i := None]; }
      }
    }

    /** add_to_list */
    method AddToList(id: Id)
      modifies this
      ensures list == Added(old(list), id)
    {
      assert list[0..] == list;
      for i := 0 to |list|
        invariant list == old(list)
        invariant Added(list, id) == list[..i] + Added(list[i..], id)
      {
        if list[i].None? {
          assert Added(list, id) == list[i := Some(id)];
          list := list[i := Some(id)];
          return;
        }
        assert list[i..][1..] == list[i + 1..];
        assert list[..i + 1] == list[..i] + [list[i]];
      }
      list := list + [Some(id)];
    }
  }

  // ----- events -----

  /** What the driver answers to a query about an element. */
  datatype Reply = Failed | Info(writable: bool, tlvWritable: bool)

  predicate Writable(r: Reply) {
    r.Info? && (r.writable || r.tlvWritable)
  }

  const VALUE: bv32 := 0x1
  const INFO: bv32 := 0x2
  const ADD: bv32 := 0x4
  const TLV: bv32 := 0x8
  const REMOVE: bv32 := 0xffff_ffff

  datatype Event = Elem(mask: bv32, id: Id) | OtherEvent

  /** An event, with what the driver would answer at the time it is handled. */
  datatype Step = Step(event: Event, driver: Id -> Reply)

  /** The event tells that the element has changed or gone. */
  predicate Announces(e: Event, id: Id) {
    e.Elem? && e.id == id && (e.mask == REMOVE || e.mask & INFO != 0)
  }

  /** The event makes the daemon ask whether the element can be written. */
  predicate Uses(e: Event, id: Id) {
    e.Elem? && e.id == id && e.mask != REMOVE && e.mask & (VALUE | ADD | TLV) != 0
  }

  // ----- the cache as a map -----

  function Forget(m: map<Id, bool>, id: Id): map<Id, bool> {
    m - {id}
  }

  /** The answer about an element, from memory if it is there. */
  function Answer(m: map<Id, bool>, id: Id, reply: Reply): bool {
    if id in m then m[id] else Writable(reply)
  }

  function Remember(m: map<Id, bool>, id: Id, reply: Reply): map<Id, bool> {
    if id in m || reply.Failed? then m else m[id := Writable(reply)]
  }

  /** The memory after an event. */
  function Next(m: map<Id, bool>, s: Step): map<Id, bool> {
    if s.event.OtherEvent? then m
    else
      var id := s.event.id;
      var m1 := if Announces(s.event, id) then Forget(m, id) else m;
      if Uses(s.event, id) then Remember(m1, id, s.driver(id)) else m1
  }

  /** The memory after a history. */
  function Memory(h: seq<Step>): map<Id, bool> {
    if h == [] then map[] else Next(Memory(h[..|h| - 1]), h[|h| - 1])
  }

  /** Whether the daemon takes an event for a change of a writable element. */
  function Reaction(m: map<Id, bool>, s: Step): bool {
    && s.event.Elem? && Uses(s.event, s.event.id)
    && Answer(if Announces(s.event, s.event.id) then Forget(m, s.event.id) else m, s.event.id,
              s.driver(s.event.id))
  }

  /** The reaction to the last event of a history. */
  function LastReaction(h: seq<Step>): bool
    requires h != []
  {
    Reaction(Memory(h[..|h| - 1]), h[|h| - 1])
  }

  // ----- what is remembered, in terms of the history alone -----

  /** The element is used and the driver answers. */
  ghost predicate Asked(h: seq<Step>, id: Id, u: nat) {
    u < |h| && Uses(h[u].event, id) && h[u].driver(id).Info?
  }

  /** The element is not announced behind event `i` and in front of event `j`. */
  ghost predicate Quiet(h: seq<Step>, id: Id, i: int, j: nat)
    requires j <= |h|
  {
    forall k :: 0 <= k && i < k < j ==> !Announces(h[k].event, id)
  }

  /** `u` is the first time the driver was asked about the element and answered, since the element
      was last announced. */
  ghost predicate Learnt(h: seq<Step>, id: Id, u: nat)
  {
    && Asked(h, id, u) && Quiet(h, id, u, |h|)
    && forall k :: 0 <= k < u && Asked(h, id, k) ==> !Quiet(h, id, k, u + 1)
  }

  lemma Shorter(h: seq<Step>, g: seq<Step>, id: Id)
    requires h != [] && g == h[..|h| - 1]
    ensures forall k :: 0 <= k < |g| ==> (Asked(h, id, k) <==> Asked(g, id, k))
    ensures forall i, j :: 0 <= j <= |g| ==> (Quiet(h, id, i, j) <==> Quiet(g, id, i, j))
    ensures forall i :: i < |g| ==>
      (Quiet(h, id, i, |h|) <==> Quiet(g, id, i, |g|) && !Announces(h[|g|].event, id))
  {
  }

  lemma LearntBefore(h: seq<Step>, g: seq<Step>, id: Id, u: nat)
    requires h != [] && g == h[..|h| - 1] && u < |g|
    ensures Learnt(h, id, u) <==> Learnt(g, id, u) && !Announces(h[|g|].event, id)
  {
    Shorter(h, g, id);
  }

  /** If the driver was asked at all since the last announcement, there was a first time. */
  lemma {:induction false} FirstTime(h: seq<Step>, id: Id, k: nat) returns (u: nat)
    requires Asked(h, id, k) && Quiet(h, id, k, |h|)
    ensures Learnt(h, id, u)
  {
    if l: nat :| l < k && Asked(h, id, l) && Quiet(h, id, l, k + 1) {
      assert Quiet(h, id, l, |h|);
      u := FirstTime(h, id, l);
    } else {
      u := k;
    }
  }

  lemma LearntNow(h: seq<Step>, g: seq<Step>, id: Id)
    requires h != [] && g == h[..|h| - 1]
    ensures Learnt(h, id, |g|) <==>
      Asked(h, id, |g|) && (Announces(h[|g|].event, id) || forall u: nat :: !Learnt(g, id, u))
  {
    Shorter(h, g, id);
    var n := |g|;
    assert Quiet(h, id, n, |h|);
    forall u: nat | Learnt(g, id, u) && !Announces(h[n].event, id) ensures u < n && Asked(h, id, u) && Quiet(h, id, u, n + 1) {
    }
    if k: nat :| k < n && Asked(h, id, k) && Quiet(h, id, k, n + 1) {
      var u := FirstTime(g, id, k);
    }
  }

  /** What an event does to the memory about one element. */
  lemma AboutOne(m: map<Id, bool>, s: Step, id: Id)
    ensures var known, asked := id in m && !Announces(s.event, id), Uses(s.event, id) && s.driver(id).Info?;
      && (id in Next(m, s) <==> known || asked)
      && (known ==> Next(m, s)[id] == m[id])
      && (!known && asked ==> Next(m, s)[id] == Writable(s.driver(id)))
  {
  }

  /** The memory about one element: what the driver said when it was first asked since the last
      announcement. */
  lemma {:induction false} MemoryIsLearnt(h: seq<Step>, id: Id)
    ensures id in Memory(h) <==> exists u: nat :: Learnt(h, id, u)
    ensures forall u: nat :: Learnt(h, id, u) ==> id in Memory(h) && Memory(h)[id] == Writable(h[u].driver(id))
  {
    if h != [] {
      var n := |h| - 1;
      var g := h[..n];
      MemoryIsLearnt(g, id);
      LearntNow(h, g, id);
      forall u: nat | u < n ensures Learnt(h, id, u) <==> Learnt(g, id, u) && !Announces(h[n].event, id) {
        LearntBefore(h, g, id, u);
      }
      assert Memory(h) == Next(Memory(g), h[n]);
      AboutOne(Memory(g), h[n], id);
      if id in Memory(g) {
        var u: nat :| Learnt(g, id, u);
        assert u < n;
      }
    }
  }

  /** Whether the element is writable, as the driver would answer at event `k`. */
  ghost predicate WritableAt(h: seq<Step>, id: Id, k: nat)
    requires k < |h|
  {
    Writable(h[k].driver(id))
  }

  /** Main result: the answer to a use is the first answer of the driver since the element was last
      announced; it is "no" as long as the driver has not answered. */
  lemma ReactionIsFirstAnswer(h: seq<Step>, id: Id)
    requires h != [] && Uses(h[|h| - 1].event, id)
    ensures forall u: nat :: Learnt(h, id, u) ==> (LastReaction(h) <==> WritableAt(h, id, u))
    ensures (forall u: nat :: !Learnt(h, id, u)) ==> !LastReaction(h) && h[|h| - 1].driver(id).Failed?
  {
    MemoryIsLearnt(h, id);
    var s, m := h[|h| - 1], Memory(h[..|h| - 1]);
    assert Memory(h) == Next(m, s);
    assert LastReaction(h) <==> id in Memory(h) && Memory(h)[id];
  }

  /** The cache is exact for the use at the end of a history if and only if the element is
      as writable now as it was when the driver first answered. */
  lemma ExactIffNotStale(h: seq<Step>, id: Id)
    requires h != [] && Uses(h[|h| - 1].event, id)
    ensures LastReaction(h) == WritableAt(h, id, |h| - 1) <==>
      forall u: nat :: Learnt(h, id, u) ==> WritableAt(h, id, u) == WritableAt(h, id, |h| - 1)
  {
    ReactionIsFirstAnswer(h, id);
    if u: nat :| Learnt(h, id, u) {
    }
  }

  /** Every change of writability is announced after it happened (or with it) and before the end of
      the history. */
  ghost predicate ChangesAnnounced(h: seq<Step>, id: Id)
  {
    forall k: nat :: 0 < k < |h| && WritableAt(h, id, k) != WritableAt(h, id, k - 1) ==>
      !Quiet(h, id, k - 1, |h|)
  }

  lemma {:induction false} SameSince(h: seq<Step>, id: Id, u: nat, k: nat)
    requires u <= k < |h| && ChangesAnnounced(h, id) && Quiet(h, id, u, |h|)
    ensures WritableAt(h, id, k) == WritableAt(h, id, u)
  {
    if u < k {
      SameSince(h, id, u, k - 1);
      assert Quiet(h, id, k - 1, |h|);
    }
  }

  /** If changes are announced before the next use, the cache answers as the driver would. */
  lemma CacheIsTransparent(h: seq<Step>, id: Id)
    requires h != [] && Uses(h[|h| - 1].event, id) && ChangesAnnounced(h, id)
    ensures LastReaction(h) == WritableAt(h, id, |h| - 1)
  {
    ExactIffNotStale(h, id);
    forall u: nat | Learnt(h, id, u) ensures WritableAt(h, id, u) == WritableAt(h, id, |h| - 1) {
      SameSince(h, id, u, |h| - 1);
    }
  }

  /** Without an announcement the old answer stays: a history with a wrong one. */
  lemma UnannouncedChangeIsMissed(id: Id)
    ensures var no := Step(Elem(VALUE, id), (x: Id) => Info(false, false));
            var yes := Step(Elem(VALUE, id), (x: Id) => Info(true, false));
            !LastReaction([no, yes]) && WritableAt([no, yes], id, 1)
  {
    var no := Step(Elem(VALUE, id), (x: Id) => Info(false, false));
    var yes := Step(Elem(VALUE, id), (x: Id) => Info(true, false));
    var h := [no, yes];
    assert h[..1] == [no] && [no][..0] == [];
    assert VALUE & INFO == 0 && VALUE & (VALUE | ADD | TLV) != 0;
    assert Memory([no]) == Next(map[], no) == map[id := false];
  }

  // ----- masks and flags by their values -----

  /** An element that is not known yet counts as changed if the value, its presence or its TLV data has
      changed, and it or its TLV data can be written. */
  lemma FirstEventIff(mask: bv32, id: Id, reply: Reply)
    ensures LastReaction([Step(Elem(mask, id), (x: Id) => reply)]) <==>
      mask != 0xffff_ffff && mask & 0xd != 0 && reply.Info? && (reply.writable || reply.tlvWritable)
  {
    var h := [Step(Elem(mask, id), (x: Id) => reply)];
    assert h[..0] == [];
    assert VALUE | ADD | TLV == 0xd;
  }

  /** The driver is asked again after an event, if and only if this tells that the element has gone or that
      its description has changed. */
  lemma AskedAgainIff(mask: bv32, id: Id)
    ensures var yes, no := (x: Id) => Info(true, false), (x: Id) => Info(false, false);
            LastReaction([Step(Elem(0x1, id), yes), Step(Elem(mask, id), no), Step(Elem(0x1, id), no)])
            <==> mask != 0xffff_ffff && mask & 0x2 == 0
  {
    var yes, no := (x: Id) => Info(true, false), (x: Id) => Info(false, false);
    var h := [Step(Elem(0x1, id), yes), Step(Elem(mask, id), no), Step(Elem(0x1, id), no)];
    assert h[..2][..1] == [h[0]] && [h[0]][..0] == [] && h[..2][1] == h[1];
    assert VALUE & INFO == 0 && VALUE & (VALUE | ADD | TLV) != 0;
    assert Memory([h[0]]) == Next(map[], h[0]) == map[id := true];
    assert Memory(h[..2]) == Next(map[id := true], h[1]);
  }

  // ----- the daemon's card -----

  class Card {
    const whitelist: IdList
    const blacklist: IdList

    /** The lists are duplicate-free and share no entry. */
    ghost predicate Valid()
      reads this, whitelist, blacklist
    {
      && whitelist != blacklist
      && Distinct(whitelist.list) && Distinct(blacklist.list)
      && Disjoint(whitelist.list, blacklist.list)
    }

    /** The two lists hold exactly the memory. */
    ghost predicate Holds(m: map<Id, bool>)
      reads this, whitelist, blacklist
    {
      forall id :: (Some(id) in whitelist.list <==> id in m && m[id]) &&
                   (Some(id) in blacklist.list <==> id in m && !m[id])
    }

    constructor ()
      ensures Valid() && Holds(Memory([])) && fresh(whitelist) && fresh(blacklist)
    {
      whitelist := new IdList();
      blacklist := new IdList();
    }

    /** check_lists; the driver answers `reply` if it is asked. */
    method CheckLists(id: Id, reply: Reply, ghost m: map<Id, bool>) returns (res: bool)
      requires Valid() && Holds(m)
      modifies whitelist, blacklist
      ensures Valid() && Holds(Remember(m, id, reply))
      ensures res == Answer(m, id, reply)
    {
      var found := blacklist.InList(id);
      if found { return false; }
      found := whitelist.InList(id);
      if found { return true; }
      if reply.Failed? { return false; }
      res := reply.writable || reply.tlvWritable;
      if res {
        AddedHolds(whitelist.list, id);
        whitelist.AddToList(id);
      } else {
        AddedHolds(blacklist.list, id);
        blacklist.AddToList(id);
      }
    }

    method Remove(id: Id, ghost m: map<Id, bool>)
      requires Valid() && Holds(m)
      modifies whitelist, blacklist
      ensures Valid() && Holds(Forget(m, id))
    {
      whitelist.RemoveFromList(id);
      blacklist.RemoveFromList(id);
    }

    /** One event in the loop of card_events. */
    method OneEvent(s: Step, ghost m: map<Id, bool>) returns (res: bool)
      requires Valid() && Holds(m)
      modifies whitelist, blacklist
      ensures Valid() && Holds(Next(m, s)) && res == Reaction(m, s)
    {
      if s.event.OtherEvent? { return false; }
      var mask, id := s.event.mask, s.event.id;
      if mask == REMOVE {
        Remove(id, m);
        return false;
      }
      ghost var m1 := m;
      if mask & INFO != 0 {
        Remove(id, m);
        m1 := Forget(m, id);
      }
      res := false;
      if mask & (VALUE | ADD | TLV) != 0 {
        res := CheckLists(id, s.driver(id), m1);
      }
    }

    /** card_events, for the events that are there to be read behind a history `h`: it tells whether
        it reacted to any of them. */
    method CardEvents(events: seq<Step>, ghost h: seq<Step>) returns (res: bool)
      requires Valid() && Holds(Memory(h))
      modifies whitelist, blacklist
      ensures Valid() && Holds(Memory(h + events))
      ensures res <==> exists n :: |h| < n <= |h + events| && LastReaction((h + events)[..n])
    {
      ghost var all := h + events;
      assert all[..|h|] == h && all[..|all|] == all;
      res := false;
      ghost var m := Memory(h);
      for i := 0 to |events|
        invariant Valid() && Holds(m) && m == Memory(all[..|h| + i])
        invariant res == AnyReaction(all, |h|, |h| + i)
      {
        NextPrefix(all, |h| + i);
        var yes := OneEvent(events[i], m);
        m := Next(m, events[i]);
        res := res || yes;
      }
      AnyReactionIff(all, |h|, |all|);
    }
  }

  /** One of the events `from`..`to` of a history was reacted to. */
  ghost predicate AnyReaction(all: seq<Step>, from: nat, to: nat)
    requires from <= to <= |all|
  {
    from < to && (AnyReaction(all, from, to - 1) || LastReaction(all[..to]))
  }

  lemma {:induction false} AnyReactionIff(all: seq<Step>, from: nat, to: nat)
    requires from <= to <= |all|
    ensures AnyReaction(all, from, to) <==> exists n :: from < n <= to && LastReaction(all[..n])
  {
    if from < to { AnyReactionIff(all, from, to - 1); }
  }

  lemma NextPrefix(all: seq<Step>, k: nat)
    requires k < |all|
    ensures Memory(all[..k + 1]) == Next(Memory(all[..k]), all[k])
    ensures LastReaction(all[..k + 1]) == Reaction(Memory(all[..k]), all[k])
  {
    assert all[..k + 1][..k] == all[..k];
  }
}
