/** Saving the values of a control element in the configuration tree of alsactl, and restoring them
    from it. */
module ControlState {
  import opened Options
  import opened Config
  import Hex

  // ----- elements -----

  datatype Kind = Boolean | Integer | Integer64 | Enumerated | Bytes | Iec958

  datatype ElemId = ElemId(iface: int, device: nat, subdevice: nat, name: string, index: nat)

  /** What the driver tells about an element. The decibel range is that of its TLV data. The query
      for the name of item `named` fails, if there is one. */
  datatype Info = Info(
    numid: nat, id: ElemId, kind: Kind, count: nat,
    readable: bool, writable: bool, inactive: bool, isVolatile: bool, locked: bool, user: bool,
    min: int, max: int, step: int, items: seq<string>, named: nat, dB: Option<(int, int)>)

  /** The items in front of the first one whose name cannot be queried. */
  function Names(i: Info): seq<string> {
    if i.named < |i.items| then i.items[..i.named] else i.items
  }

  /** All names can be queried, without which an element is not saved. */
  predicate AllNamed(i: Info) {
    i.kind == Enumerated ==> i.named >= |i.items|
  }

  const IEC958_SIZE: nat := 176

  predicate ByBytes(kind: Kind) {
    kind == Bytes || kind == Iec958
  }

  /** How many numbers the values of an element are. */
  function Size(i: Info): nat {
    if i.kind == Iec958 then IEC958_SIZE else i.count
  }

  /** An IEC958 element has one value, which is a structure of 176 bytes. */
  predicate GoodInfo(i: Info) {
    i.kind == Iec958 ==> i.count == 1
  }

  /** An element as a driver may describe it. */
  type Elem = i: Info | GoodInfo(i)
    witness Info(0, ElemId(0, 0, 0, "", 0), Boolean, 1, true, true, false, false, false, false, 0, 0, 0, [], 0, None)

  /** Values as they can be read from an element. */
  predicate GoodValues(i: Info, vals: seq<int>) {
    && |vals| == Size(i)
    && (ByBytes(i.kind) ==> forall k :: 0 <= k < |vals| ==> 0 <= vals[k] < 256)
    && (i.kind == Enumerated ==> forall k :: 0 <= k < |vals| ==> 0 <= vals[k] < 0x1_0000_0000)
  }

  // ----- what is saved -----

  /** One value as a node. */
  function ElemNode(i: Info, v: int): Node
  {
    match i.kind
    case Boolean => Str(if v != 0 then "true" else "false")
    case Integer => Int(v)
    case Integer64 => Int64(v)
    case _ => if 0 <= v < |i.items| then Str(i.items[v]) else Int(v)
  }

  /** The values as children named by their index. */
  function ElemKids(i: Info, vals: seq<int>): (kids: seq<Kid>)
    ensures |kids| == |vals|
    ensures forall k :: 0 <= k < |vals| ==> kids[k] == Kid(NumKey(k), ElemNode(i, vals[k]))
  {
    if vals == [] then []
    else ElemKids(i, vals[..|vals| - 1]) + [Kid(NumKey(|vals| - 1), ElemNode(i, vals[|vals| - 1]))]
  }

  function Naturals(vals: seq<int>): (ns: seq<nat>)
    requires forall k :: 0 <= k < |vals| ==> vals[k] >= 0
    ensures |ns| == |vals| && forall k :: 0 <= k < |vals| ==> ns[k] == vals[k]
  {
    if vals == [] then [] else Naturals(vals[..|vals| - 1]) + [vals[|vals| - 1]]
  }

  /** The node "value" of an element. */
  function ValueNode(i: Info, vals: seq<int>): Node
    requires GoodValues(i, vals)
  {
    if ByBytes(i.kind) then Str(Hex.HexText(Naturals(vals), 2))
    else if i.count == 1 then ElemNode(i, vals[0])
    else Compound(ElemKids(i, vals))
  }

  // ----- what a node is taken for -----

  /** What restore_config_value2 does with a node: it sets a value, leaves the index unset, or
      fails. */
  datatype Conv = Set(v: int) | Skip | Bad

  /** The conversion to int of a 64-bit machine. */
  function Int32(v: int): int {
    (v + 0x8000_0000) % 0x1_0000_0000 - 0x8000_0000
  }

  /** config_bool; `lax` means that errors are to be forced away. */
  function ConfigBool(n: Node, lax: bool): int
  {
    match n
    case Int(v) => if 0 <= v <= 1 then v else -1
    case Int64(v) => if 0 <= v <= 1 then v else -1
    case Str(s) => if s == "on" || s == "true" then 1 else if s == "off" || s == "false" then 0 else -1
    case Compound(kids) => if lax && kids != [] then ConfigBool(kids[0].node, lax) else -1
  }

  /** The first item of a name, or -1. */
  function ItemIndex(items: seq<string>, s: string): (v: int)
    ensures -1 <= v < |items| && (v >= 0 ==> items[v] == s)
    ensures forall k :: 0 <= k < (if v >= 0 then v else |items|) ==> items[k] != s
  {
    if items == [] then -1
    else
      var v := ItemIndex(items[..|items| - 1], s);
      if v >= 0 then v else if items[|items| - 1] == s then |items| - 1 else -1
  }

  /** config_enumerated */
  function ConfigEnumerated(n: Node, items: seq<string>, lax: bool): int
  {
    match n
    case Int(v) => Int32(v)
    case Int64(v) => Int32(v)
    case Str(s) => ItemIndex(items, s)
    case Compound(kids) => if lax && kids != [] then ConfigEnumerated(kids[0].node, items, lax) else -1
  }

  /** config_integer and config_integer64 */
  function ConfigInteger(n: Node, wide: bool, lax: bool): Option<int>
  {
    match n
    case Int(v) => if wide then None else Some(v)
    case Int64(v) => if wide then Some(v) else None
    case Str(_) => None
    case Compound(kids) => if lax && kids != [] then ConfigInteger(kids[0].node, wide, lax) else None
  }

  function SetIf(v: int): Conv {
    if v >= 0 then Set(v) else Skip
  }

  /** restore_config_value: nothing happens for bytes. */
  function Convert1(i: Info, n: Node, lax: bool): Conv
  {
    match i.kind
    case Boolean => SetIf(ConfigBool(n, lax))
    case Integer => var r := ConfigInteger(n, false, lax); if r.Some? then Set(r.value) else Skip
    case Integer64 => var r := ConfigInteger(n, true, lax); if r.Some? then Set(r.value) else Skip
    case Enumerated => SetIf(ConfigEnumerated(n, Names(i), lax))
    case _ => Skip
  }

  /** restore_config_value2 */
  function Convert(i: Info, n: Node, lax: bool): Conv
  {
    if !ByBytes(i.kind) then Convert1(i, n, lax)
    else if n.Int? && 0 <= n.num <= 255 then Set(n.num)
    else if lax then Skip else Bad
  }

  // ----- restoring from children -----

  /** The value for index `k`: that of the first child of this index which sets one. */
  function First(i: Info, kids: seq<Kid>, lax: bool, k: int): Option<int>
  {
    if kids == [] then None
    else
      var r := First(i, kids[..|kids| - 1], lax, k);
      var kid := kids[|kids| - 1];
      if r.Some? then r
      else if KeyNumber(kid.key) == k && Convert(i, kid.node, lax).Set? then Some(Convert(i, kid.node, lax).v)
      else None
  }

  /** Index `k` is given by some child. */
  predicate Given(i: Info, kids: seq<Kid>, lax: bool, k: int) {
    First(i, kids, lax, k).Some?
  }

  /** No child gives reason to stop: its index is in range and not set before. */
  predicate InOrder(i: Info, kids: seq<Kid>, lax: bool)
  {
    kids == [] ||
    (InOrder(i, kids[..|kids| - 1], lax) &&
     var kid := kids[|kids| - 1];
     && 0 <= KeyNumber(kid.key) < i.count && First(i, kids[..|kids| - 1], lax, KeyNumber(kid.key)).None?
     && !Convert(i, kid.node, lax).Bad?)
  }

  function Or0(r: Option<int>): int {
    if r.Some? then r.value else 0
  }

  /** The values to be written for a node "value"; nothing if that is an error. */
  function Restored(i: Info, n: Node, lax: bool): Option<seq<int>>
    requires GoodInfo(i)
  {
    if i.count == 1 && Convert1(i, n, lax).Set? then Some([Convert1(i, n, lax).v])
    else if ByBytes(i.kind) && n.Str? then
      if |n.text| == 2 * Size(i) && Hex.AllHex(n.text) then Some(Hex.Numbers(n.text, 2)) else None
    else if !n.Compound? then
      if !lax then None
      else
        var v := if Convert(i, n, lax).Set? then Convert(i, n, lax).v else 0;
        Some(seq(Size(i), k => if k < i.count then v else 0))
    else if !lax && !(InOrder(i, n.kids, lax) && forall k :: 0 <= k < i.count ==> Given(i, n.kids, lax, k)) then
      None
    else Some(seq(Size(i), k => if k < i.count then Or0(First(i, n.kids, lax, k)) else 0))
  }

  // ----- the values come back if and only if ... -----

  /** A value that survives: a boolean is 0 or 1, an item is the first of its name, and a number
      beyond the items is not too large for an int. */
  predicate Survives(i: Info, v: int)
  {
    match i.kind
    case Boolean => v == 0 || v == 1
    case Enumerated => if v < |i.items| then forall k :: 0 <= k < v ==> i.items[k] != i.items[v] else v < 0x8000_0000
    case _ => true
  }

  lemma NumberSurvives(v: int)
    requires 0 <= v < 0x1_0000_0000
    ensures Int32(v) == if v < 0x8000_0000 then v else v - 0x1_0000_0000
  {
  }

  lemma ItemSurvives(items: seq<string>, v: nat)
    requires v < |items|
    ensures 0 <= ItemIndex(items, items[v]) <= v
    ensures ItemIndex(items, items[v]) == v <==> forall k :: 0 <= k < v ==> items[k] != items[v]
  {
  }

  /** One value: it comes back if and only if it survives, and otherwise another one is set, or none
      and the value is not zero. */
  lemma ElemComesBack(i: Info, v: int, lax: bool)
    requires AllNamed(i)
    requires !ByBytes(i.kind) && (i.kind == Enumerated ==> 0 <= v < 0x1_0000_0000)
    ensures Convert1(i, ElemNode(i, v), lax) == Set(v) <==> Survives(i, v)
    ensures Convert1(i, ElemNode(i, v), lax) == Skip ==> v != 0
    ensures !Convert1(i, ElemNode(i, v), lax).Bad? && !ElemNode(i, v).Compound?
  {
    if i.kind == Enumerated {
      if v < |i.items| { ItemSurvives(i.items, v); } else { NumberSurvives(v); }
    }
  }

  lemma FirstStep(i: Info, kids: seq<Kid>, lax: bool, n: int, node: Node, k: int)
    ensures First(i, kids + [Kid(NumKey(n), node)], lax, k) ==
            if First(i, kids, lax, k).Some? then First(i, kids, lax, k)
            else if n == k && Convert(i, node, lax).Set? then Some(Convert(i, node, lax).v)
            else None
  {
    AtoiNumStr(n);
    assert (kids + [Kid(NumKey(n), node)])[..|kids|] == kids;
  }

  /** Among the children that are saved, index `k` is only given by the one for `k`. */
  lemma {:induction false} FirstOfElemKids(i: Info, vals: seq<int>, lax: bool, k: int)
    requires !ByBytes(i.kind)
    ensures First(i, ElemKids(i, vals), lax, k) ==
            if 0 <= k < |vals| && Convert1(i, ElemNode(i, vals[k]), lax).Set?
            then Some(Convert1(i, ElemNode(i, vals[k]), lax).v) else None
  {
    if vals != [] {
      var m := |vals| - 1;
      var kids, node := ElemKids(i, vals[..m]), ElemNode(i, vals[m]);
      FirstOfElemKids(i, vals[..m], lax, k);
      FirstStep(i, kids, lax, m, node, k);
      assert ElemKids(i, vals) == kids + [Kid(NumKey(m), node)];
      assert Convert(i, node, lax) == Convert1(i, node, lax);
    }
  }

  lemma InOrderStep(i: Info, kids: seq<Kid>, lax: bool, n: int, node: Node)
    requires InOrder(i, kids, lax) && 0 <= n < i.count && First(i, kids, lax, n).None?
    requires !Convert(i, node, lax).Bad?
    ensures InOrder(i, kids + [Kid(NumKey(n), node)], lax)
  {
    AtoiNumStr(n);
    assert (kids + [Kid(NumKey(n), node)])[..|kids|] == kids;
  }

  lemma {:induction false} ElemKidsInOrder(i: Info, vals: seq<int>, lax: bool)
    requires AllNamed(i)
    requires !ByBytes(i.kind) && |vals| <= i.count
    requires i.kind == Enumerated ==> forall k :: 0 <= k < |vals| ==> 0 <= vals[k] < 0x1_0000_0000
    ensures InOrder(i, ElemKids(i, vals), lax)
  {
    if vals != [] {
      var m := |vals| - 1;
      ElemKidsInOrder(i, vals[..m], lax);
      FirstOfElemKids(i, vals[..m], lax, m);
      ElemComesBack(i, vals[m], lax);
      InOrderStep(i, ElemKids(i, vals[..m]), lax, m, ElemNode(i, vals[m]));
    }
  }

  lemma BytesComeBack(i: Info, vals: seq<int>, lax: bool)
    requires GoodInfo(i) && GoodValues(i, vals) && ByBytes(i.kind)
    ensures Restored(i, ValueNode(i, vals), lax) == Some(vals)
  {
    var ns := Naturals(vals);
    Hex.Powers();
    Hex.NumbersOfHexText(ns, 2);
    Hex.HexTextLength(ns);
    assert ns == vals;
  }

  lemma OneComesBackIff(i: Info, v: int, lax: bool)
    requires AllNamed(i)
    requires !ByBytes(i.kind) && i.count == 1 && (i.kind == Enumerated ==> 0 <= v < 0x1_0000_0000)
    ensures Restored(i, ElemNode(i, v), lax) == Some([v]) <==> Survives(i, v)
  {
    ElemComesBack(i, v, lax);
    var n := ElemNode(i, v);
    if !Convert1(i, n, lax).Set? && lax {
      assert Restored(i, n, lax).value[0] == 0;
    }
    if Convert1(i, n, lax).Set? {
      assert Restored(i, n, lax).value[0] == Convert1(i, n, lax).v;
    }
  }

  /** Values that are collected from what may be found for each index. */
  lemma CollectedIff(vals: seq<int>, found: seq<Option<int>>, w: seq<int>, good: seq<bool>)
    requires |vals| == |found| == |w| == |good|
    requires forall k :: 0 <= k < |vals| ==>
      && w[k] == Or0(found[k]) && (found[k] == Some(vals[k]) <==> good[k]) && (found[k].None? ==> vals[k] != 0)
    ensures w == vals <==> forall k :: 0 <= k < |vals| ==> good[k]
    ensures w == vals ==> forall k :: 0 <= k < |vals| ==> found[k].Some?
  {
  }

  predicate AllSurvive(i: Info, vals: seq<int>) {
    forall k :: 0 <= k < |vals| ==> Survives(i, vals[k])
  }

  function AllFound(i: Info, kids: seq<Kid>, lax: bool, n: nat): (found: seq<Option<int>>)
    ensures |found| == n && forall k :: 0 <= k < n ==> found[k] == First(i, kids, lax, k)
  {
    if n == 0 then [] else AllFound(i, kids, lax, n - 1) + [First(i, kids, lax, n - 1)]
  }

  function AllOr0(found: seq<Option<int>>): (w: seq<int>)
    ensures |w| == |found| && forall k :: 0 <= k < |w| ==> w[k] == Or0(found[k])
  {
    if found == [] then [] else AllOr0(found[..|found| - 1]) + [Or0(found[|found| - 1])]
  }

  function AllGood(i: Info, vals: seq<int>): (good: seq<bool>)
    ensures |good| == |vals| && forall k :: 0 <= k < |vals| ==> good[k] == Survives(i, vals[k])
  {
    if vals == [] then [] else AllGood(i, vals[..|vals| - 1]) + [Survives(i, vals[|vals| - 1])]
  }

  lemma OneFound(i: Info, vals: seq<int>, lax: bool, k: nat)
    requires AllNamed(i)
    requires !ByBytes(i.kind) && GoodValues(i, vals) && k < |vals|
    ensures First(i, ElemKids(i, vals), lax, k) == Some(vals[k]) <==> Survives(i, vals[k])
    ensures First(i, ElemKids(i, vals), lax, k).None? ==> vals[k] != 0
  {
    FirstOfElemKids(i, vals, lax, k);
    ElemComesBack(i, vals[k], lax);
  }

  /** What is found for each index, whether it is the value that was saved, and what is written. */
  lemma Collect(i: Info, vals: seq<int>, lax: bool, kids: seq<Kid>)
    returns (found: seq<Option<int>>, w: seq<int>, good: seq<bool>)
    requires AllNamed(i)
    requires !ByBytes(i.kind) && GoodValues(i, vals) && kids == ElemKids(i, vals)
    ensures |found| == |w| == |good| == |vals|
    ensures forall k :: 0 <= k < |vals| ==> found[k] == First(i, kids, lax, k) && w[k] == Or0(found[k])
    ensures forall k :: 0 <= k < |vals| ==> (found[k] == Some(vals[k]) <==> good[k]) && (found[k].None? ==> vals[k] != 0)
    ensures (forall k :: 0 <= k < |vals| ==> good[k]) <==> AllSurvive(i, vals)
  {
    found := AllFound(i, kids, lax, |vals|);
    w := AllOr0(found);
    good := AllGood(i, vals);
    forall k | 0 <= k < |vals|
      ensures (found[k] == Some(vals[k]) <==> good[k]) && (found[k].None? ==> vals[k] != 0)
    {
      OneFound(i, vals, lax, k);
    }
  }

  lemma ManyComeBackIff(i: Info, vals: seq<int>, lax: bool)
    requires AllNamed(i)
    requires !ByBytes(i.kind) && i.count != 1 && GoodValues(i, vals)
    ensures Restored(i, Compound(ElemKids(i, vals)), lax) == Some(vals) <==> AllSurvive(i, vals)
  {
    var kids := ElemKids(i, vals);
    ElemKidsInOrder(i, vals, lax);
    var found, w, good := Collect(i, vals, lax, kids);
    CollectedIff(vals, found, w, good);
    RestoredKids(i, kids, lax, w, found);
  }

  lemma RestoredKids(i: Info, kids: seq<Kid>, lax: bool, w: seq<int>, found: seq<Option<int>>)
    requires !ByBytes(i.kind) && i.count != 1 && InOrder(i, kids, lax) && |w| == |found| == i.count
    requires forall k :: 0 <= k < i.count ==> found[k] == First(i, kids, lax, k) && w[k] == Or0(found[k])
    ensures Restored(i, Compound(kids), lax)
         == if lax || forall k :: 0 <= k < i.count ==> found[k].Some? then Some(w) else None
  {
    assert forall k :: 0 <= k < i.count ==> (Given(i, kids, lax, k) <==> found[k].Some?);
    var r := seq(Size(i), k => if k < i.count then Or0(First(i, kids, lax, k)) else 0);
    assert r == w;
  }

  /** Main result: the values that are saved are the values that are restored, if and only if each of
      them survives. */
  lemma ValuesComeBackIff(i: Info, vals: seq<int>, lax: bool)
    requires AllNamed(i)
    requires GoodInfo(i) && GoodValues(i, vals)
    ensures Restored(i, ValueNode(i, vals), lax) == Some(vals)
         <==> AllSurvive(i, vals)
  {
    if ByBytes(i.kind) {
      BytesComeBack(i, vals, lax);
    } else if i.count == 1 {
      OneComesBackIff(i, vals[0], lax);
      assert vals == [vals[0]];
    } else {
      ManyComeBackIff(i, vals, lax);
    }
  }

  /** The texts of a boolean: one of two is saved, and four are understood. */
  lemma BooleanTexts(i: Info, vals: seq<int>, s: string)
    requires i.kind == Boolean && i.count == 1 && |vals| == 1
    ensures ValueNode(i, vals) == Str(if vals[0] == 0 then "false" else "true")
    ensures Restored(i, Str(s), false)
         == if s in {"on", "true"} then Some([1]) else if s in {"off", "false"} then Some([0]) else None
  {
  }
}
