/** get_control of alsactl: a control element becomes a node of the configuration tree. */
module ControlSave {
  import opened Options
  import opened Config
  import opened ControlState
  import Hex

  // ----- the tree of an element -----

  const IFACES: nat := 7

  function IfaceName(n: int): string
    requires 0 <= n < IFACES
  {
    match n
    case 0 => "CARD"
    case 1 => "HWDEP"
    case 2 => "MIXER"
    case 3 => "PCM"
    case 4 => "RAWMIDI"
    case 5 => "TIMER"
    case _ => "SEQUENCER"
  }

  function KindName(kind: Kind): string {
    match kind
    case Boolean => "BOOLEAN"
    case Integer => "INTEGER"
    case Integer64 => "INTEGER64"
    case Enumerated => "ENUMERATED"
    case Bytes => "BYTES"
    case Iec958 => "IEC958"
  }

  function IfSet(b: bool, word: string): string {
    if b then word else ""
  }

  /** The text "access", with a blank in front that is dropped. */
  function AccessWords(i: Info): string {
    IfSet(i.readable, " read") + IfSet(i.writable, " write") + IfSet(i.inactive, " inactive")
    + IfSet(i.isVolatile, " volatile") + IfSet(i.locked, " locked") + IfSet(i.user, " user")
  }

  function Tail(s: string): string {
    if s == "" then "" else s[1..]
  }

  function RangeText(min: int, max: int, step: int): string {
    NumStr(min) + (" - " + (NumStr(max) + if step != 0 then " (step " + NumStr(step) + ")" else ""))
  }

  function ItemKids(items: seq<string>): (kids: seq<Kid>)
    ensures |kids| == |items|
    ensures forall k :: 0 <= k < |items| ==> kids[k] == Kid(NumKey(k), Str(items[k]))
  {
    if items == [] then [] else ItemKids(items[..|items| - 1]) + [Kid(NumKey(|items| - 1), Str(items[|items| - 1]))]
  }

  function When(b: bool, key: Key, node: Node): seq<Kid> {
    if b then [Kid(key, node)] else []
  }

  predicate HasRange(i: Info) {
    i.kind == Integer || i.kind == Integer64
  }

  function CommentHead(access: string, kind: string, count: int, ranged: bool, range: string): seq<Kid> {
    [Kid(Access, Str(access))] + [Kid(Type, Str(kind))] + [Kid(Count, Int(count))] + When(ranged, Range, Str(range))
  }

  /** The values of an element in decibels, named by their index. */
  function GainKids(gains: seq<int>): (kids: seq<Kid>)
    ensures |kids| == |gains|
    ensures forall k :: 0 <= k < |gains| ==> kids[k] == Kid(NumKey(k), Int(gains[k]))
  {
    if gains == [] then [] else GainKids(gains[..|gains| - 1]) + [Kid(NumKey(|gains| - 1), Int(gains[|gains| - 1]))]
  }

  /** What add_tlv_comments adds. */
  function TlvKids(tlv: Option<string>, dB: Option<(int, int)>, gains: seq<int>): seq<Kid> {
    When(tlv.Some?, TlvText, Str(if tlv.Some? then tlv.value else ""))
    + When(dB.Some?, DbMin, Int(if dB.Some? then dB.value.0 else 0))
    + When(dB.Some?, DbMax, Int(if dB.Some? then dB.value.1 else 0))
    + When(dB.Some?, DbValue, Compound(GainKids(gains)))
  }

  /** What is told about an element besides its description: the words of its TLV data, if they are to
      be kept, and the decibels of its values. */
  datatype Extra = Extra(tlv: Option<string>, gains: seq<int>)

  /** The node "comment". Only integers have the decibel range of their TLV data, and its words. */
  function CommentKids(i: Info, x: Extra): seq<Kid> {
    CommentHead(Tail(AccessWords(i)), KindName(i.kind), i.count, HasRange(i), RangeText(i.min, i.max, i.step))
    + (if i.kind == Integer then TlvKids(x.tlv, i.dB, x.gains) else [])
    + When(i.kind == Enumerated, Item, Compound(ItemKids(i.items)))
  }

  predicate GoodIface(i: Info) {
    0 <= i.id.iface < IFACES
  }

  function IdKids(i: Info): seq<Kid>
    requires GoodIface(i)
  {
    [Kid(Iface, Str(IfaceName(i.id.iface)))]
    + When(i.id.device != 0, Device, Int(i.id.device))
    + When(i.id.subdevice != 0, Subdevice, Int(i.id.subdevice))
    + [Kid(Name, Str(i.id.name))]
    + When(i.id.index != 0, Index, Int(i.id.index))
  }

  /** The whole node of an element. */
  function ControlKid(i: Info, vals: seq<int>, x: Extra): Kid
    requires GoodIface(i) && GoodValues(i, vals)
  {
    Kid(NumKey(i.numid),
        Compound(IdKids(i) + [Kid(Value, ValueNode(i, vals))] + [Kid(Comment, Compound(CommentKids(i, x)))]))
  }

  // ----- the code -----

  /** All names of the children are among these. */
  ghost predicate Within(kids: seq<Kid>, keys: set<Key>) {
    forall i :: 0 <= i < |kids| ==> kids[i].key in keys
  }

  /** A compound to which children are added one by one, or nothing after an error. */
  method AddTo(kids: Option<seq<Kid>>, wanted: bool, key: Key, node: Node, ghost keys: set<Key>)
    returns (r: Option<seq<Kid>>)
    requires kids.Some? ==> Within(kids.value, keys)
    ensures kids.None? ==> r.None?
    ensures kids.Some? && key !in keys ==> r == Some(kids.value + When(wanted, key, node))
    ensures r.Some? ==> Within(r.value, keys + {key})
  {
    if kids.None? { return None; }
    if !wanted {
      assert kids.value + [] == kids.value;
      return kids;
    }
    r := Add(kids.value, key, node);
  }

  /** The children of a numbered list have their numbers as names. */
  lemma NoSuchNumber(kids: seq<Kid>, n: nat)
    requires |kids| <= n && forall k :: 0 <= k < |kids| ==> kids[k].key == NumKey(k)
    ensures !HasKey(kids, NumKey(n))
  {
    forall k | 0 <= k < |kids| ensures kids[k].key != NumKey(n) {
      NumStrInjective(k, n);
    }
  }

  /** The compound "item" of an enumerated element. */
  method SaveItems(items: seq<string>) returns (r: Option<seq<Kid>>)
    ensures r == Some(ItemKids(items))
  {
    r := Some([]);
    for idx := 0 to |items|
      invariant r == Some(ItemKids(items[..idx]))
    {
      NoSuchNumber(r.value, idx);
      assert items[..idx + 1][..idx] == items[..idx];
      r := Add(r.value, NumKey(idx), Str(items[idx]));
    }
    assert items[..|items|] == items;
  }

  lemma SearchOnly(kids: seq<Kid>, key: Key, v: nat)
    requires forall k :: 0 <= k < |kids| ==> (kids[k].key == key <==> k == v)
    ensures Search(kids, key) == if v < |kids| then Some(kids[v].node) else None
  {
    if v < |kids| { SearchAt(kids, v); }
  }

  lemma OnlyNumber(kids: seq<Kid>, key: Key, v: nat)
    requires key == NumKey(v) && forall k :: 0 <= k < |kids| ==> kids[k].key == NumKey(k)
    ensures forall k :: 0 <= k < |kids| ==> (kids[k].key == key <==> k == v)
  {
    forall k | 0 <= k < |kids| ensures kids[k].key == key <==> k == v {
      NumStrInjective(k, v);
    }
  }

  /** The item of a number is the one of this position. */
  lemma SearchItem(items: seq<string>, v: nat, key: Key)
    requires key == NumKey(v)
    ensures Search(ItemKids(items), key) == if v < |items| then Some(Str(items[v])) else None
  {
    var kids := ItemKids(items);
    OnlyNumber(kids, key, v);
    SearchOnly(kids, key, v);
  }

  /** The node of one value; `item` is the compound of the items of an enumerated element. */
  method SaveElem(i: Info, v: int, item: seq<Kid>) returns (n: Node)
    requires !ByBytes(i.kind) && item == ItemKids(i.items) && (i.kind == Enumerated ==> v >= 0)
    ensures n == ElemNode(i, v)
  {
    if i.kind == Boolean {
      n := Str(if v != 0 then "true" else "false");
    } else if i.kind == Integer {
      n := Int(v);
    } else if i.kind == Integer64 {
      n := Int64(v);
    } else {
      var key := NumKey(v);
      SearchItem(i.items, v, key);
      var c := Search(item, key);
      n := if c.Some? && c.value.Str? then Str(c.value.text) else Int(v);
    }
  }

  method SaveBytes(bytes: seq<int>, size: nat) returns (s: string)
    requires |bytes| == size && forall k :: 0 <= k < size ==> 0 <= bytes[k] < 256
    ensures s == Hex.HexText(Naturals(bytes), 2)
  {
    s := "";
    for idx := 0 to size
      invariant s == Hex.HexText(Naturals(bytes[..idx]), 2)
    {
      var v: nat := bytes[idx];
      TwoDigits(v);
      Hex.HexTextMore(Naturals(bytes[..idx]), v, 2);
      assert bytes[..idx + 1][..idx] == bytes[..idx];
      s := s + [Hex.Digit(v / 16), Hex.Digit(v % 16)];
    }
    assert bytes[..size] == bytes;
  }

  lemma TwoDigits(v: nat)
    requires v < 256
    ensures Hex.Digits(v, 2) == [Hex.Digit(v / 16), Hex.Digit(v % 16)]
  {
    assert Hex.Digits(v / 16, 1) == Hex.Digits(v / 16 / 16, 0) + [Hex.Digit(v / 16 % 16)];
    assert v / 16 % 16 == v / 16;
  }

  /** The node "value". */
  method SaveValue(i: Info, vals: seq<int>, item: seq<Kid>) returns (r: Option<Node>)
    requires GoodInfo(i) && GoodValues(i, vals) && item == ItemKids(i.items)
    ensures r == Some(ValueNode(i, vals))
  {
    if ByBytes(i.kind) {
      var s := SaveBytes(vals, Size(i));
      return Some(Str(s));
    }
    if i.count == 1 {
      var n := SaveElem(i, vals[0], item);
      return Some(n);
    }
    var kids := Some([]);
    for idx := 0 to i.count
      invariant kids == Some(ElemKids(i, vals[..idx]))
    {
      var n := SaveElem(i, vals[idx], item);
      NoSuchNumber(kids.value, idx);
      assert vals[..idx + 1][..idx] == vals[..idx];
      kids := Add(kids.value, NumKey(idx), n);
    }
    assert vals[..i.count] == vals;
    return Some(Compound(kids.value));
  }

  method SaveCommentHead(access: string, kind: string, count: int, ranged: bool, range: string)
    returns (r: Option<seq<Kid>>)
    ensures r == Some(CommentHead(access, kind, count, ranged, range))
    ensures r.Some? ==> Within(r.value, {Access, Type, Count, Range})
  {
    assert [] + [Kid(Access, Str(access))] == [Kid(Access, Str(access))];
    r := AddTo(Some([]), true, Access, Str(access), {});
    r := AddTo(r, true, Type, Str(kind), {Access});
    r := AddTo(r, true, Count, Int(count), {Access, Type});
    r := AddTo(r, ranged, Range, Str(range), {Access, Type, Count});
  }

  /** The compound "dbvalue". */
  method SaveGains(gains: seq<int>) returns (r: Option<seq<Kid>>)
    ensures r == Some(GainKids(gains))
  {
    r := Some([]);
    for idx := 0 to |gains|
      invariant r == Some(GainKids(gains[..idx]))
    {
      NoSuchNumber(r.value, idx);
      assert gains[..idx + 1][..idx] == gains[..idx];
      r := Add(r.value, NumKey(idx), Int(gains[idx]));
    }
    assert gains[..|gains|] == gains;
  }

  /** add_tlv_comments */
  method SaveDecibels(head: seq<Kid>, tlv: Option<string>, dB: Option<(int, int)>, gains: seq<int>, ghost keys: set<Key>)
    returns (r: Option<seq<Kid>>)
    requires Within(head, keys) && TlvText !in keys && DbMin !in keys && DbMax !in keys && DbValue !in keys
    ensures r == Some(head + TlvKids(tlv, dB, gains)) && Within(r.value, keys + {TlvText, DbMin, DbMax, DbValue})
  {
    var dbvalue := SaveGains(gains);
    r := AddTo(Some(head), tlv.Some?, TlvText, Str(if tlv.Some? then tlv.value else ""), keys);
    r := AddTo(r, dB.Some?, DbMin, Int(if dB.Some? then dB.value.0 else 0), keys + {TlvText});
    r := AddTo(r, dB.Some?, DbMax, Int(if dB.Some? then dB.value.1 else 0), keys + {TlvText, DbMin});
    r := AddTo(r, dB.Some?, DbValue, Compound(dbvalue.value), keys + {TlvText, DbMin, DbMax});
    assert r.value == head + TlvKids(tlv, dB, gains);
  }

  /** The node "comment", without its texts. */
  method SaveCommentKids(access: string, kind: string, count: int, ranged: bool, range: string, isInteger: bool,
                         x: Extra, dB: Option<(int, int)>, isEnum: bool, item: seq<Kid>)
    returns (r: Option<seq<Kid>>)
    ensures r == Some(CommentHead(access, kind, count, ranged, range)
                      + (if isInteger then TlvKids(x.tlv, dB, x.gains) else [])
                      + When(isEnum, Item, Compound(item)))
  {
    ghost var keys := {Access, Type, Count, Range};
    r := SaveCommentHead(access, kind, count, ranged, range);
    if r.None? { return; }
    ghost var head := r.value;
    if isInteger {
      r := SaveDecibels(r.value, x.tlv, dB, x.gains, keys);
    } else {
      assert head + [] == head;
    }
    r := AddTo(r, isEnum, Item, Compound(item), keys + {TlvText, DbMin, DbMax, DbValue});
  }

  /** The node "comment". */
  method SaveComment(i: Info, x: Extra) returns (r: Option<seq<Kid>>)
    ensures r == Some(CommentKids(i, x))
  {
    var item := SaveItems(i.items);
    if item.None? { return None; }
    r := SaveCommentKids(Tail(AccessWords(i)), KindName(i.kind), i.count, HasRange(i), RangeText(i.min, i.max, i.step),
                         i.kind == Integer, x, i.dB, i.kind == Enumerated, item.value);
  }

  /** The identity of an element, whose interface has a name. */
  method SaveId(iface: string, device: nat, subdevice: nat, name: string, index: nat) returns (r: Option<seq<Kid>>)
    ensures r == Some([Kid(Iface, Str(iface))] + When(device != 0, Device, Int(device))
                      + When(subdevice != 0, Subdevice, Int(subdevice))
                      + [Kid(Name, Str(name))] + When(index != 0, Index, Int(index)))
    ensures r.Some? ==> Within(r.value, {Iface, Device, Subdevice, Name, Index})
  {
    assert [] + [Kid(Iface, Str(iface))] == [Kid(Iface, Str(iface))];
    r := AddTo(Some([]), true, Iface, Str(iface), {});
    r := AddTo(r, device != 0, Device, Int(device), {Iface});
    r := AddTo(r, subdevice != 0, Subdevice, Int(subdevice), {Iface, Device});
    r := AddTo(r, true, Name, Str(name), {Iface, Device, Subdevice});
    r := AddTo(r, index != 0, Index, Int(index), {Iface, Device, Subdevice, Name});
  }

  /** An element is saved; or it has nothing to be read; or a query has failed. */
  datatype Save = Saved(kid: Kid) | Unreadable | Failed

  /** The values in decibels, if all of them can be converted. */
  function Gains(toDb: int -> Option<int>, vals: seq<int>): (gains: Option<seq<int>>)
    ensures gains.Some? <==> forall k :: 0 <= k < |vals| ==> toDb(vals[k]).Some?
    ensures gains.Some? ==> |gains.value| == |vals|
    ensures gains.Some? ==> forall k :: 0 <= k < |vals| ==> toDb(vals[k]) == Some(gains.value[k])
  {
    if vals == [] then Some([])
    else
      var n := |vals| - 1;
      var r := Gains(toDb, vals[..n]);
      assert forall k :: 0 <= k < n ==> vals[..n][k] == vals[k];
      if r.Some? && toDb(vals[n]).Some? then Some(r.value + [toDb(vals[n]).value]) else None
  }

  method ConvertGains(toDb: int -> Option<int>, vals: seq<int>) returns (gains: Option<seq<int>>)
    ensures gains == Gains(toDb, vals)
  {
    var r := [];
    for idx := 0 to |vals|
      invariant Gains(toDb, vals[..idx]) == Some(r)
    {
      assert vals[..idx + 1][..idx] == vals[..idx];
      var gain := toDb(vals[idx]);
      if gain.None? {
        assert toDb(vals[idx]).None?;
        return None;
      }
      r := r + [gain.value];
    }
    assert vals[..|vals|] == vals;
    return Some(r);
  }

  /** Values of an integer element with a decibel range are saved in decibels, too. */
  predicate HasGains(i: Info) {
    i.kind == Integer && i.dB.Some?
  }

  /** Everything that get_control asks for is answered. */
  predicate Answered(i: Info, vals: Option<seq<int>>, toDb: int -> Option<int>) {
    vals.Some? && AllNamed(i) && (HasGains(i) ==> Gains(toDb, vals.value).Some?)
  }

  function ExtraOf(i: Info, vals: seq<int>, toDb: int -> Option<int>, tlv: Option<string>): Extra {
    Extra(tlv, if HasGains(i) && Gains(toDb, vals).Some? then Gains(toDb, vals).value else [])
  }

  /** get_control. `info` and `vals` are what the driver answers, if it does; `toDb` is what its TLV data
      make of a value. No name occurs twice in the tree, so nothing else can fail. */
  method GetControl(info: Option<Elem>, vals: Option<seq<int>>, toDb: int -> Option<int>, tlv: Option<string>) returns (r: Save)
    requires info.Some? ==> GoodIface(info.value)
    requires info.Some? && vals.Some? ==> GoodValues(info.value, vals.value)
    ensures r.Unreadable? <==> info.Some? && !info.value.readable
    ensures info.None? ==> r.Failed?
    ensures info.Some? && info.value.readable ==> (r.Saved? <==> Answered(info.value, vals, toDb))
    ensures r.Saved? ==> r.kid == ControlKid(info.value, vals.value, ExtraOf(info.value, vals.value, toDb, tlv))
  {
    if info.None? { return Failed; }
    var i := info.value;
    if !i.readable { return Unreadable; }
    if vals.None? { return Failed; }
    var x := Extra(tlv, []);
    if HasGains(i) {
      var gains := ConvertGains(toDb, vals.value);
      if gains.None? { return Failed; }
      x := Extra(tlv, gains.value);
    }
    if i.kind == Enumerated && i.named < |i.items| { return Failed; }
    var kid := SaveControl(i, vals.value, x);
    r := Saved(kid.value);
  }

  /** The tree of an element that was read. */
  method SaveControl(i: Elem, vals: seq<int>, x: Extra) returns (r: Option<Kid>)
    requires GoodIface(i) && GoodValues(i, vals)
    ensures r == Some(ControlKid(i, vals, x))
  {
    var comment := SaveComment(i, x);
    var kids := SaveId(IfaceName(i.id.iface), i.id.device, i.id.subdevice, i.id.name, i.id.index);
    var value := SaveValue(i, vals, ItemKids(i.items));
    ghost var keys := {Iface, Device, Subdevice, Name, Index};
    assert kids.Some? ==> Within(kids.value, keys);
    assert Value !in keys && Comment !in keys;
    r := Assemble(i.numid, kids, value, comment, keys);
  }

  /** The parts of a node are put together, if there was no error. */
  method Assemble(numid: nat, id: Option<seq<Kid>>, value: Option<Node>, comment: Option<seq<Kid>>,
                  ghost keys: set<Key>) returns (r: Option<Kid>)
    requires id.Some? ==> Within(id.value, keys)
    requires Value !in keys && Comment !in keys
    ensures r == if id.None? || value.None? || comment.None? then None
                 else Some(Kid(NumKey(numid), Compound(id.value + [Kid(Value, value.value)]
                                                       + [Kid(Comment, Compound(comment.value))])))
  {
    if id.None? || value.None? || comment.None? { return None; }
    var kids := AddTo(id, true, Value, value.value, keys);
    kids := AddTo(kids, true, Comment, Compound(comment.value), keys + {Value});
    r := Some(Kid(NumKey(numid), Compound(kids.value)));
  }
}
