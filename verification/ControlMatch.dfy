/** The checks of set_control of alsactl in front of restoring the values: which element a node is
    for, and whether it is still as it was. */
module ControlMatch {
  import opened Options
  import opened Config
  import opened ControlState
  import opened ControlSave
  import opened ControlRestore
  import opened ControlRange
  import Hex

  // ----- the interface -----

  function Lower(c: char): char {
    if 'A' <= c <= 'Z' then (c as int + 32) as char else c
  }

  /** strcasecmp */
  predicate SameText(a: string, b: string) {
    |a| == |b| && forall k :: 0 <= k < |a| ==> Lower(a[k]) == Lower(b[k])
  }

  /** The first of the first `n` interfaces whose name is `s`, or -1. */
  function IfaceIndex(s: string, n: nat): (v: int)
    requires n <= IFACES
    ensures -1 <= v < n
  {
    if n == 0 then -1
    else
      var v := IfaceIndex(s, n - 1);
      if v >= 0 then v else if SameText(IfaceName(n - 1), s) then n - 1 else -1
  }

  /** config_iface */
  function IfaceOf(n: Node): int {
    match n
    case Int(v) => v
    case Int64(v) => v
    case Str(s) => IfaceIndex(s, IFACES)
    case Compound(_) => -1
  }

  lemma IfaceNamesDiffer(m: nat, n: nat)
    requires m < n < IFACES
    ensures !SameText(IfaceName(m), IfaceName(n))
  {
    var a, b := IfaceName(m), IfaceName(n);
    assert |a| == |b| ==> Lower(a[0]) != Lower(b[0]);
  }

  lemma {:induction false} IfaceIndexOf(m: nat, n: nat)
    requires m < IFACES && n <= IFACES
    ensures IfaceIndex(IfaceName(m), n) == if m < n then m else -1
  {
    if n > 0 {
      IfaceIndexOf(m, n - 1);
      if n - 1 < m { IfaceNamesDiffer(n - 1, m); }
    }
  }

  // ----- parse_config_id -----

  /** The variables of parse_config_id. */
  datatype Fields = Fields(iface: int, device: int, subdevice: int, name: Option<string>, index: int,
                           comment: Option<seq<Kid>>, value: Option<Node>)

  /** Whether a field has the type it should have. */
  predicate FieldOk(kid: Kid) {
    match kid.key
    case Comment => kid.node.Compound?
    case Iface => IfaceOf(kid.node) >= 0
    case Device => kid.node.Int?
    case Subdevice => kid.node.Int?
    case Index => kid.node.Int?
    case Name => kid.node.Str?
    case _ => true
  }

  function IntOr(n: Option<Node>): int {
    if n.Some? && n.value.Int? then n.value.num else -1
  }

  function KidsOf(n: Option<Node>): Option<seq<Kid>> {
    if n.Some? && n.value.Compound? then Some(n.value.kids) else None
  }

  /** Of several fields of a name the last one counts. */
  function FieldsOf(kids: seq<Kid>): Fields {
    Fields(if Last(kids, Iface).Some? then IfaceOf(Last(kids, Iface).value) else -1,
           IntOr(Last(kids, Device)), IntOr(Last(kids, Subdevice)), TextOf(Last(kids, Name)),
           IntOr(Last(kids, Index)), KidsOf(Last(kids, Comment)), Last(kids, Value))
  }

  function NonNegative(v: int): nat {
    if v < 0 then 0 else v
  }

  function IdOf(f: Fields): ElemId {
    ElemId(f.iface, NonNegative(f.device), NonNegative(f.subdevice),
           if f.name.Some? then f.name.value else "", NonNegative(f.index))
  }

  /** The variables after another field of the right type. */
  function WithField(f: Fields, kid: Kid): Fields
    requires FieldOk(kid)
  {
    match kid.key
    case Comment => f.(comment := Some(kid.node.kids))
    case Iface => f.(iface := IfaceOf(kid.node))
    case Device => f.(device := kid.node.num)
    case Subdevice => f.(subdevice := kid.node.num)
    case Name => f.(name := Some(kid.node.text))
    case Index => f.(index := kid.node.num)
    case Value => f.(value := Some(kid.node))
    case _ => f
  }

  method ParseField(f: Fields, kid: Kid) returns (ok: bool, f': Fields)
    ensures ok <==> FieldOk(kid)
    ensures ok ==> f' == WithField(f, kid)
  {
    f' := f;
    ok := true;
    if kid.key == Comment {
      if !kid.node.Compound? { return false, f; }
      f' := f.(comment := Some(kid.node.kids));
    } else if kid.key == Iface {
      var iface := IfaceOf(kid.node);
      if iface < 0 { return false, f; }
      f' := f.(iface := iface);
    } else if kid.key in {Device, Subdevice, Index} {
      if !kid.node.Int? { return false, f; }
      var num := kid.node.num;
      f' := if kid.key == Device then f.(device := num)
            else if kid.key == Subdevice then f.(subdevice := num)
            else f.(index := num);
    } else if kid.key == Name {
      if !kid.node.Str? { return false, f; }
      f' := f.(name := Some(kid.node.text));
    } else if kid.key == Value {
      f' := f.(value := Some(kid.node));
    }
  }

  /** parse_config_id */
  method ParseConfigId(kids: seq<Kid>) returns (ok: bool, f: Fields)
    ensures ok <==> forall j :: 0 <= j < |kids| ==> FieldOk(kids[j])
    ensures ok ==> f == FieldsOf(kids)
  {
    f := Fields(-1, -1, -1, None, -1, None, None);
    for j := 0 to |kids|
      invariant forall k :: 0 <= k < j ==> FieldOk(kids[k])
      invariant f == FieldsOf(kids[..j])
    {
      FieldsMore(kids[..j], kids[j]);
      assert kids[..j + 1] == kids[..j] + [kids[j]];
      ok, f := ParseField(f, kids[j]);
      if !ok { return; }
    }
    assert kids[..|kids|] == kids;
    ok := true;
  }

  lemma LastsMore(kids: seq<Kid>, kid: Kid)
    ensures forall key :: Last(kids + [kid], key) == if kid.key == key then Some(kid.node) else Last(kids, key)
  {
    assert (kids + [kid])[..|kids|] == kids;
  }

  lemma FieldsMore(kids: seq<Kid>, kid: Kid)
    ensures FieldOk(kid) ==> FieldsOf(kids + [kid]) == WithField(FieldsOf(kids), kid)
  {
    LastsMore(kids, kid);
  }

  // ----- what is saved is read back -----

  /** The children are read without error, and leave these variables. */
  ghost predicate Reads(kids: seq<Kid>, f: Fields) {
    (forall j :: 0 <= j < |kids| ==> FieldOk(kids[j])) && FieldsOf(kids) == f
  }

  lemma ReadsMore(kids: seq<Kid>, f: Fields, b: bool, kid: Kid)
    requires Reads(kids, f) && FieldOk(kid)
    ensures Reads(kids + When(b, kid.key, kid.node), if b then WithField(f, kid) else f)
  {
    if b {
      FieldsMore(kids, kid);
      assert When(b, kid.key, kid.node) == [kid];
    } else {
      assert kids + [] == kids;
    }
  }

  lemma PartsComeBack(iface: Node, device: nat, subdevice: nat, name: string, index: nat, value: Node, comment: Node)
    requires comment.Compound? && IfaceOf(iface) >= 0
    ensures Reads([Kid(Iface, iface)] + When(device != 0, Device, Int(device))
                  + When(subdevice != 0, Subdevice, Int(subdevice)) + [Kid(Name, Str(name))]
                  + When(index != 0, Index, Int(index)) + [Kid(Value, value)] + [Kid(Comment, comment)],
                  Fields(IfaceOf(iface), if device != 0 then device else -1, if subdevice != 0 then subdevice else -1,
                         Some(name), if index != 0 then index else -1, Some(comment.kids), Some(value)))
  {
    var f := Fields(-1, -1, -1, None, -1, None, None);
    ReadsMore([], f, true, Kid(Iface, iface));
    var k1, f1 := [Kid(Iface, iface)], f.(iface := IfaceOf(iface));
    assert [] + When(true, Iface, iface) == k1;
    ReadsMore(k1, f1, device != 0, Kid(Device, Int(device)));
    var k2, f2 := k1 + When(device != 0, Device, Int(device)), f1.(device := if device != 0 then device else -1);
    ReadsMore(k2, f2, subdevice != 0, Kid(Subdevice, Int(subdevice)));
    var k3 := k2 + When(subdevice != 0, Subdevice, Int(subdevice));
    RestComesBack(k3, f2.(subdevice := if subdevice != 0 then subdevice else -1), name, index, value, comment);
  }

  lemma RestComesBack(kids: seq<Kid>, f: Fields, name: string, index: nat, value: Node, comment: Node)
    requires Reads(kids, f) && comment.Compound? && f.index == -1
    ensures Reads(kids + [Kid(Name, Str(name))] + When(index != 0, Index, Int(index)) + [Kid(Value, value)] + [Kid(Comment, comment)],
                  f.(name := Some(name), index := if index != 0 then index else -1, comment := Some(comment.kids), value := Some(value)))
  {
    ReadsMore(kids, f, true, Kid(Name, Str(name)));
    var k4, f4 := kids + [Kid(Name, Str(name))], f.(name := Some(name));
    ReadsMore(k4, f4, index != 0, Kid(Index, Int(index)));
    var k5, f5 := k4 + When(index != 0, Index, Int(index)), f4.(index := if index != 0 then index else -1);
    ReadsMore(k5, f5, true, Kid(Value, value));
    ReadsMore(k5 + [Kid(Value, value)], f5.(value := Some(value)), true, Kid(Comment, comment));
  }

  lemma IdComesBack(i: Info, value: Node, comment: Node) returns (f: Fields)
    requires GoodIface(i) && comment.Compound?
    ensures Reads(IdKids(i) + [Kid(Value, value)] + [Kid(Comment, comment)], f)
    ensures f.value == Some(value) && f.comment == Some(comment.kids) && f.name == Some(i.id.name) && IdOf(f) == i.id
  {
    var iface := Str(IfaceName(i.id.iface));
    IfaceIndexOf(i.id.iface, IFACES);
    PartsComeBack(iface, i.id.device, i.id.subdevice, i.id.name, i.id.index, value, comment);
    f := FieldsOf(IdKids(i) + [Kid(Value, value)] + [Kid(Comment, comment)]);
  }

  // ----- check_comment_access -----

  /** strstr */
  predicate Contains(s: string, w: string) {
    w <= s || (s != "" && Contains(s[1..], w))
  }

  function AccessHas(kids: seq<Kid>, w: string): bool {
    if kids == [] then false
    else if kids[0].key != Access then AccessHas(kids[1..], w)
    else kids[0].node.Str? && (Contains(kids[0].node.text, w) || AccessHas(kids[1..], w))
  }

  method CheckAccess(kids: seq<Kid>, w: string) returns (b: bool)
    ensures b == AccessHas(kids, w)
  {
    assert kids[0..] == kids;
    for j := 0 to |kids|
      invariant AccessHas(kids, w) == AccessHas(kids[j..], w)
    {
      assert kids[j..][1..] == kids[j + 1..];
      if kids[j].key == Access {
        if !kids[j].node.Str? { return false; }
        if Contains(kids[j].node.text, w) { return true; }
      }
    }
    return false;
  }

  lemma {:induction false} NoAccess(kids: seq<Kid>, w: string)
    requires forall j :: 0 <= j < |kids| ==> kids[j].key != Access
    ensures !AccessHas(kids, w)
  {
    if kids != [] { NoAccess(kids[1..], w); }
  }

  /** No "in" anywhere. */
  predicate NoIn(s: string) {
    s == "" || (!(|s| >= 2 && s[0] == 'i' && s[1] == 'n') && NoIn(s[1..]))
  }

  lemma {:induction false} NoInJoin(a: string, b: string)
    requires NoIn(a) && NoIn(b) && (b != "" ==> b[0] == ' ')
    ensures NoIn(a + b)
  {
    if a == "" {
      assert a + b == b;
    } else {
      assert (a + b)[1..] == a[1..] + b;
      NoInJoin(a[1..], b);
      if |a + b| >= 2 { assert (a + b)[1] == if |a| >= 2 then a[1] else b[0]; }
    }
  }

  lemma {:induction false} NotFound(s: string)
    requires NoIn(s)
    ensures !Contains(s, "inactive")
  {
    assert "inactive"[0] == 'i' && "inactive"[1] == 'n';
    if s != "" { NotFound(s[1..]); }
  }

  lemma {:induction false} Found(a: string, w: string, b: string)
    ensures Contains(a + w + b, w)
  {
    if a == "" {
      assert a + w + b == w + b;
    } else {
      assert (a + w + b)[1..] == a[1..] + w + b;
      Found(a[1..], w, b);
    }
  }

  /** A word of the access text, or nothing. */
  predicate Word(s: string) {
    NoIn(s) && (s != "" ==> s[0] == ' ')
  }

  lemma {:induction false} NoN(s: string)
    requires 'n' !in s
    ensures NoIn(s)
  {
    if s != "" { NoN(s[1..]); }
  }

  lemma ReadIsWord()
    ensures Word(" read")
  {
    NoN(" read");
  }

  lemma WriteIsWord()
    ensures Word(" write")
  {
    NoN(" write");
  }

  lemma VolatileIsWord()
    ensures Word(" volatile")
  {
    NoN(" volatile");
  }

  lemma LockedIsWord()
    ensures Word(" locked")
  {
    NoN(" locked");
  }

  lemma UserIsWord()
    ensures Word(" user")
  {
    NoN(" user");
  }

  lemma WordsJoin(r: string, w: string, v: string, l: string, u: string)
    requires Word(r) && Word(w) && Word(v) && Word(l) && Word(u)
    ensures NoIn(r + w + "" + v + l + u)
  {
    NoInJoin(r, w);
    assert r + w + "" == r + w;
    NoInJoin(r + w + "", v);
    NoInJoin(r + w + "" + v, l);
    NoInJoin(r + w + "" + v + l, u);
  }

  lemma WordsAround(r: string, w: string, v: string, l: string, u: string)
    ensures Contains(Tail(r + w + " inactive" + v + l + u), "inactive")
  {
    InactiveFound(r + w, v + l + u);
    assert r + w + " inactive" + (v + l + u) == r + w + " inactive" + v + l + u;
  }

  /** What is saved as access tells whether the element is inactive. */
  lemma InactiveIff(i: Info)
    ensures Contains(Tail(AccessWords(i)), "inactive") <==> i.inactive
  {
    var r, w, v := IfSet(i.readable, " read"), IfSet(i.writable, " write"), IfSet(i.isVolatile, " volatile");
    var l, u := IfSet(i.locked, " locked"), IfSet(i.user, " user");
    if i.inactive {
      WordsAround(r, w, v, l, u);
    } else {
      ReadIsWord();
      WriteIsWord();
      VolatileIsWord();
      LockedIsWord();
      UserIsWord();
      WordsJoin(r, w, v, l, u);
      InactiveNotFound(AccessWords(i));
    }
  }

  lemma InactiveFound(a: string, b: string)
    ensures Contains(Tail(a + " inactive" + b), "inactive")
  {
    if a == "" {
      assert Tail(a + " inactive" + b) == "" + "inactive" + b;
      Found("", "inactive", b);
    } else {
      assert Tail(a + " inactive" + b) == (a[1..] + " ") + "inactive" + b;
      Found(a[1..] + " ", "inactive", b);
    }
  }

  lemma InactiveNotFound(s: string)
    requires NoIn(s)
    ensures !Contains(Tail(s), "inactive")
  {
    NotFound(Tail(s));
  }

  // ----- set_control -----

  /** What the driver answers: about elements by their number and by their identity, whether an
      element can be added for a comment, what decibels are for an element, and whether it takes
      values that are written. */
  datatype Card = Card(byNumid: int -> Option<Elem>, byId: ElemId -> Option<Elem>,
                       addUser: seq<Kid> -> Option<Elem>, fromDb: Elem -> FromDb,
                       write: (nat, seq<int>) -> bool)

  /** Values for the element of a number: the driver has taken or refused them, or they would be handed
      to it if this were not only a check; nothing is to be written; an error; or the code follows the
      null pointer of a value that is missing. */
  datatype Result =
    | Written(numid: nat, values: seq<int>)
    | Refused(numid: nat, values: seq<int>)
    | Passed(numid: nat, values: seq<int>)
    | Ignored
    | Error
    | Crash

  /** The results that set_control reports as an error. */
  predicate Fails(r: Result) {
    r.Error? || r.Refused?
  }

  /** The element that a node is for: the one of its number, unless restoring is forced, else the one
      of its identity, which needs a name; a user element that is not there is added. */
  function Target(card: Card, numid: int, f: Fields, force: bool): Option<Elem> {
    if !force && card.byNumid(numid).Some? then card.byNumid(numid)
    else if IdOf(f).name == "" then None
    else if card.byId(IdOf(f)).Some? then card.byId(IdOf(f))
    else if f.comment.Some? && AccessHas(f.comment.value, "user") then card.addUser(f.comment.value)
    else None
  }

  /** The search for the element that a node is for. */
  method FindElem(card: Card, numid: int, f: Fields, force: bool) returns (r: Option<Elem>)
    ensures r == Target(card, numid, f, force)
  {
    r := None;
    if !force { r := card.byNumid(numid); }
    var id := IdOf(f);
    if r.None? && id.name != "" {
      r := card.byId(id);
      if r.None? && f.comment.Some? {
        var user := CheckAccess(f.comment.value, "user");
        if user { r := card.addUser(f.comment.value); }
      }
    }
  }

  /** Values that are handed to the driver. */
  function Wrote(card: Card, numid: nat, values: seq<int>): Result {
    if card.write(numid, values) then Written(numid, values) else Refused(numid, values)
  }

  /** The element is to be written. */
  predicate Active(i: Elem, comment: seq<Kid>) {
    !AccessHas(comment, "inactive") && !i.inactive && i.writable
  }

  /** What becomes of a node for element `i` whose checks have been passed. */
  function Outcome(card: Card, i: Elem, comment: seq<Kid>, value: Option<Node>, force: bool, doit: bool): Result
  {
    if !Active(i, comment) then Ignored
    else if value.None? then Crash
    else
      var r := Restored(i, value.value, force && doit);
      if r.None? then Error else if doit then Wrote(card, i.numid, r.value) else Passed(i.numid, r.value)
  }

  /** What the range of an element comes to; only integers have one. */
  function RangeOf(i: Elem, comment: seq<Kid>, lax: bool): (r: RangeCheck)
    ensures r.Converted? ==> r.ranges.omin < r.ranges.omax && r.ranges.nmin < r.ranges.nmax
  {
    if i.kind == Integer then CheckRange(i, comment, lax) else Same
  }

  /** The node "value" after the range was checked. */
  function ValueAfter(card: Card, i: Elem, comment: seq<Kid>, value: Option<Node>, lax: bool): Option<Node>
  {
    var check := RangeOf(i, comment, lax);
    if check.Converted? && value.Some? then Some(NewValue(value.value, comment, check.ranges, card.fromDb(i), lax))
    else value
  }

  /** What becomes of a node for element `i`. */
  function Checked(card: Card, i: Elem, comment: seq<Kid>, value: Option<Node>, force: bool, doit: bool): Result
  {
    match RangeOf(i, comment, force && doit)
    case Mismatch => Error
    case Same => Outcome(card, i, comment, value, force, doit)
    case Converted(_) =>
      if value.None? then Crash
      else Outcome(card, i, comment, ValueAfter(card, i, comment, value, force && doit), force, doit)
  }

  /** The range in what becomes of a node: when both of its ends are different now, strict restoring is
      refused. Else the values stay if nothing is different, and otherwise are all moved. */
  ghost predicate RangeRule(card: Card, i: Elem, comment: seq<Kid>, node: Option<Node>, force: bool, doit: bool,
                            r: Result, node': Option<Node>)
  {
    var lax := force && doit;
    if BothEndsMoved(i, comment) && !lax then r == Error && node' == node
    else if !RangeChanged(i, comment, lax) then r == Outcome(card, i, comment, node, force, doit) && node' == node
    else if node.None? then r == Crash && node' == None
    else
      && node'.Some? && r == Outcome(card, i, comment, node', force, doit)
      && AllMoved(node.value, node'.value, i, comment, card.fromDb(i), RangeIn(comment).value, DecibelsIn(comment, lax).value)
  }

  lemma RangeRuleHolds(card: Card, i: Elem, comment: seq<Kid>, node: Option<Node>, force: bool, doit: bool)
    ensures RangeRule(card, i, comment, node, force, doit, Checked(card, i, comment, node, force, doit),
                      ValueAfter(card, i, comment, node, force && doit))
  {
    var lax := force && doit;
    if i.kind == Integer {
      RangeDecides(i, comment, lax);
      var check := CheckRange(i, comment, lax);
      if check.Converted? && node.Some? { ValueMoved(node.value, i, comment, check.ranges, card.fromDb(i), lax); }
    }
  }

  /** The checks against the element, and the values. The node is converted in place. */
  method SetElem(card: Card, i: Elem, comment: seq<Kid>, node: Option<Node>, force: bool, doit: bool)
    returns (r: Result, node': Option<Node>)
    ensures r == Checked(card, i, comment, node, force, doit)
    ensures node' == ValueAfter(card, i, comment, node, force && doit)
    ensures RangeRule(card, i, comment, node, force, doit, r, node')
  {
    RangeRuleHolds(card, i, comment, node, force, doit);
    node' := node;
    if i.kind == Integer {
      var check := CheckRange(i, comment, force && doit);
      if check == Mismatch { return Error, node'; }
      if check.Converted? {
        if node.None? { return Crash, node'; }
        var n := ConvertValue(node.value, comment, check.ranges, card.fromDb(i), force && doit);
        node' := Some(n);
      }
    }
    r := WriteElem(card, i, comment, node', force, doit);
  }

  /** The rest of set_control, behind the check of the range. */
  method WriteElem(card: Card, i: Elem, comment: seq<Kid>, value: Option<Node>, force: bool, doit: bool) returns (r: Result)
    ensures r == Outcome(card, i, comment, value, force, doit)
  {
    var inactive := CheckAccess(comment, "inactive");
    if inactive || i.inactive || !i.writable { return Ignored; }
    if value.None? { return Crash; }
    var ok, ctl := RestoreValue(i, value.value, force && doit);
    if !ok { return Error; }
    if !doit { return Passed(i.numid, ctl[..]); }
    var taken := card.write(i.numid, ctl[..]);
    return if taken then Written(i.numid, ctl[..]) else Refused(i.numid, ctl[..]);
  }

  function CommentOf(f: Fields): seq<Kid> {
    if f.comment.Some? then f.comment.value else []
  }

  /** The element has the number, unless restoring is forced, and the identity of the node. */
  predicate Agrees(i: Elem, numid: int, f: Fields, force: bool) {
    (force || numid == i.numid) && IdOf(f) == i.id
  }

  /** The element of a node whose fields have the right types, if there is one and it agrees. */
  function Match(card: Card, control: Kid, force: bool): Option<Elem> {
    if !control.node.Compound? || exists j :: 0 <= j < |control.node.kids| && !FieldOk(control.node.kids[j]) then None
    else
      var f, numid := FieldsOf(control.node.kids), KeyNumber(control.key);
      var e := Target(card, numid, f, force);
      if e.Some? && Agrees(e.value, numid, f, force) then e else None
  }

  function FieldsIn(control: Kid): Fields {
    FieldsOf(if control.node.Compound? then control.node.kids else [])
  }

  /** What set_control makes of a node, from the tree and the answers of the driver alone. */
  function Restoring(card: Card, control: Kid, force: bool, doit: bool): Result {
    var e, f := Match(card, control, force), FieldsIn(control);
    if e.None? then Error else Checked(card, e.value, CommentOf(f), f.value, force, doit)
  }

  /** The children with another node for the field "value". */
  function WithValue(kids: seq<Kid>, node: Node): (r: seq<Kid>)
    ensures |r| == |kids|
  {
    if kids == [] then []
    else
      var n := |kids| - 1;
      if kids[n].key == Value then kids[..n] + [Kid(Value, node)] else WithValue(kids[..n], node) + [kids[n]]
  }

  /** The node in the tree afterwards. */
  function TreeAfter(card: Card, control: Kid, force: bool, doit: bool): Kid {
    var e, f := Match(card, control, force), FieldsIn(control);
    if e.None? || f.value.None? then control
    else
      var node := ValueAfter(card, e.value, CommentOf(f), f.value, force && doit);
      Kid(control.key, Compound(WithValue(if control.node.Compound? then control.node.kids else [], node.value)))
  }

  /** set_control */
  method SetControl(card: Card, control: Kid, force: bool, doit: bool) returns (r: Result, control': Kid)
    ensures r == Restoring(card, control, force, doit)
    ensures control' == TreeAfter(card, control, force, doit)
  {
    control' := control;
    if !control.node.Compound? { return Error, control'; }
    var numid := KeyNumber(control.key);
    var ok, f := ParseConfigId(control.node.kids);
    if !ok { return Error, control'; }
    var e := FindElem(card, numid, f, force);
    if e.None? { return Error, control'; }
    if (!force && numid != e.value.numid) || IdOf(f) != e.value.id { return Error, control'; }
    var node;
    r, node := SetElem(card, e.value, if f.comment.Some? then f.comment.value else [], f.value, force, doit);
    if node.Some? { control' := Kid(control.key, Compound(WithValue(control.node.kids, node.value))); }
  }

  // ----- the run that only checks -----

  /** What is restored strictly is restored laxly, too; laxly, only a byte string can be refused. */
  lemma LaxRestoresMore(i: Elem, n: Node)
    ensures Restored(i, n, false).Some? ==> Restored(i, n, true).Some?
    ensures Restored(i, n, true).None? <==>
      ByBytes(i.kind) && n.Str? && !(|n.text| == 2 * Size(i) && Hex.AllHex(n.text))
  {
    if ByBytes(i.kind) { assert !Convert1(i, n, true).Set? && !Convert1(i, n, false).Set?; }
  }

  /** The element is to be written, and its byte string is malformed. */
  predicate BadBytes(i: Elem, comment: seq<Kid>, value: Option<Node>) {
    && Active(i, comment) && ByBytes(i.kind) && value.Some? && value.value.Str?
    && !(|value.value.text| == 2 * Size(i) && Hex.AllHex(value.value.text))
  }

  /** The values that a forced run hands to the driver, if it gets that far. */
  function Handed(card: Card, i: Elem, comment: seq<Kid>, value: Option<Node>): Option<seq<int>> {
    if !Active(i, comment) || value.None? then None
    else Restored(i, ValueAfter(card, i, comment, value, true).value, true)
  }

  lemma ForcedCheckedIff(card: Card, i: Elem, comment: seq<Kid>, value: Option<Node>)
    ensures Checked(card, i, comment, value, true, true) == Error <==> BadBytes(i, comment, value)
    ensures Checked(card, i, comment, value, true, true).Refused? <==>
      var vals := Handed(card, i, comment, value); vals.Some? && !card.write(i.numid, vals.value)
  {
    if value.Some? { LaxRestoresMore(i, ValueAfter(card, i, comment, value, true).value); }
  }

  /** A forced run that writes fails exactly when there is no element for the node, when that is to be
      written and its byte string is malformed, or when the driver refuses the values. */
  lemma ForcedFailsIff(card: Card, control: Kid, e: Option<Elem>, f: Fields)
    requires e == Match(card, control, true) && f == FieldsIn(control)
    ensures Fails(Restoring(card, control, true, true)) <==>
      (e.Some? ==>
        || BadBytes(e.value, CommentOf(f), f.value)
        || var vals := Handed(card, e.value, CommentOf(f), f.value);
           vals.Some? && !card.write(e.value.numid, vals.value))
  {
    if e.Some? { ForcedCheckedIff(card, e.value, CommentOf(f), f.value); }
  }

  /** The driver after the run: a user element that was added is found from then on. */
  function CardAfter(card: Card, control: Kid, force: bool): Card {
    var f, numid := FieldsIn(control), KeyNumber(control.key);
    var e := Target(card, numid, f, force);
    if !control.node.Compound? || (exists j :: 0 <= j < |control.node.kids| && !FieldOk(control.node.kids[j])) then card
    else if e.None? || (!force && card.byNumid(numid).Some?) || card.byId(IdOf(f)).Some? then card
    else
      card.(byNumid := (n: int) => if n == e.value.numid then e else card.byNumid(n),
            byId := (id: ElemId) => if id == IdOf(f) then e else card.byId(id))
  }

  lemma WithValueParts(kids: seq<Kid>, node: Node)
    requires kids != []
    ensures var n := |kids| - 1;
      WithValue(kids, node) == if kids[n].key == Value then kids[..n] + [Kid(Value, node)] else WithValue(kids[..n], node) + [kids[n]]
  {
  }

  lemma {:induction false} LastOfWithValue(kids: seq<Kid>, node: Node, key: Key)
    requires Last(kids, Value).Some?
    ensures Last(WithValue(kids, node), key) == if key == Value then Some(node) else Last(kids, key)
  {
    var n := |kids| - 1;
    WithValueParts(kids, node);
    if kids[n].key == Value {
      LastsMore(kids[..n], Kid(Value, node));
    } else {
      LastOfWithValue(kids[..n], node, key);
      LastsMore(WithValue(kids[..n], node), kids[n]);
    }
  }

  lemma {:induction false} WithValueOk(kids: seq<Kid>, node: Node)
    ensures forall j :: 0 <= j < |kids| ==> (FieldOk(WithValue(kids, node)[j]) <==> FieldOk(kids[j]))
  {
    if kids != [] {
      var n := |kids| - 1;
      var w := WithValue(kids, node);
      WithValueParts(kids, node);
      if kids[n].key != Value { WithValueOk(kids[..n], node); }
      forall j | 0 <= j < |kids|
        ensures FieldOk(w[j]) <==> FieldOk(kids[j])
      {
        if j < n && kids[n].key != Value { assert w[j] == WithValue(kids[..n], node)[j] && kids[j] == kids[..n][j]; }
      }
    }
  }

  lemma FieldsAfter(kids: seq<Kid>, node: Node)
    requires Last(kids, Value).Some?
    ensures FieldsOf(WithValue(kids, node)) == FieldsOf(kids).(value := Some(node))
    ensures (forall j :: 0 <= j < |kids| ==> FieldOk(kids[j])) <==>
            (forall j :: 0 <= j < |kids| ==> FieldOk(WithValue(kids, node)[j]))
  {
    forall key ensures Last(WithValue(kids, node), key) == if key == Value then Some(node) else Last(kids, key) {
      LastOfWithValue(kids, node, key);
    }
    WithValueOk(kids, node);
  }

  /** The second run finds the same element, and the fields differ in the value only. */
  lemma MatchAfter(card: Card, control: Kid, force: bool)
    ensures Match(CardAfter(card, control, force), TreeAfter(card, control, force, false), force) == Match(card, control, force)
    ensures var e, f := Match(card, control, force), FieldsIn(control);
      FieldsIn(TreeAfter(card, control, force, false)) ==
        if e.None? then f else f.(value := ValueAfter(card, e.value, CommentOf(f), f.value, false))
  {
    var e, f, control' := Match(card, control, force), FieldsIn(control), TreeAfter(card, control, force, false);
    if e.Some? && f.value.Some? {
      var node := ValueAfter(card, e.value, CommentOf(f), f.value, false).value;
      FieldsAfter(control.node.kids, node);
    }
    SameTarget(card, control, force, FieldsIn(control'));
  }

  lemma SameTarget(card: Card, control: Kid, force: bool, f': Fields)
    requires f' == FieldsIn(control).(value := f'.value)
    ensures var f, numid := FieldsIn(control), KeyNumber(control.key);
      Target(CardAfter(card, control, force), numid, f', force) == Target(card, numid, f, force)
  {
  }

  lemma RangeStaysConverted(i: Elem, comment: seq<Kid>)
    ensures var strict, lax := RangeOf(i, comment, false), RangeOf(i, comment, true);
      !lax.Mismatch? && (strict.Converted? ==> lax == strict)
  {
  }

  /** If the range in decibels was saved, so were the decibels of the values. */
  predicate KeptAt(value: Option<Node>, comment: seq<Kid>) {
    value.Some? && Search(comment, DbMin).Some? ==> Kept(value.value, comment)
  }

  /** What the check has converted and kept is no further converted by the run behind it. */
  lemma ValueTwice(card: Card, i: Elem, comment: seq<Kid>, value: Option<Node>, lax: bool)
    requires KeptAt(value, comment)
    ensures ValueAfter(card, i, comment, ValueAfter(card, i, comment, value, false), lax)
         == ValueAfter(card, i, comment, value, lax)
  {
    var check := RangeOf(i, comment, false);
    RangeStaysConverted(i, comment);
    if value.Some? && check.Converted? {
      NewValueTwice(value.value, comment, check.ranges, card.fromDb(i), lax);
    }
  }

  // The conversion changes integers only, and so not whether strict restoring succeeds.

  predicate SameShape(a: Node, b: Node) {
    if a.Int? then b.Int? else a == b
  }

  predicate SameShapes(a: seq<Kid>, b: seq<Kid>) {
    |a| == |b| && forall k :: 0 <= k < |a| ==> a[k].key == b[k].key && SameShape(a[k].node, b[k].node)
  }

  lemma {:induction false} ShapesDecide(i: Elem, a: seq<Kid>, b: seq<Kid>)
    requires i.kind == Integer && SameShapes(a, b)
    ensures InOrder(i, a, false) <==> InOrder(i, b, false)
    ensures forall k :: First(i, a, false, k).Some? <==> First(i, b, false, k).Some?
  {
    if a != [] {
      var n := |a| - 1;
      ShapesDecide(i, a[..n], b[..n]);
      assert a[n].key == b[n].key && (Convert(i, a[n].node, false).Set? <==> Convert(i, b[n].node, false).Set?);
    }
  }

  lemma RestoredByShape(i: Elem, a: Node, b: Node)
    requires i.kind == Integer
    requires if a.Compound? then b.Compound? && SameShapes(a.kids, b.kids) else SameShape(a, b)
    ensures Restored(i, a, false).Some? <==> Restored(i, b, false).Some?
  {
    if a.Compound? {
      ShapesDecide(i, a.kids, b.kids);
      assert forall k :: 0 <= k < i.count ==> (Given(i, a.kids, false, k) <==> Given(i, b.kids, false, k));
    }
  }

  lemma ConvertedByShape(card: Card, i: Elem, comment: seq<Kid>, value: Node, lax: bool)
    ensures Restored(i, ValueAfter(card, i, comment, Some(value), lax).value, false).Some? <==> Restored(i, value, false).Some?
  {
    var check := RangeOf(i, comment, lax);
    if check.Converted? {
      RestoredByShape(i, value, NewValue(value, comment, check.ranges, card.fromDb(i), lax));
    }
  }

  lemma CheckedErrorIff(card: Card, i: Elem, comment: seq<Kid>, value: Option<Node>, force: bool, doit: bool)
    ensures Checked(card, i, comment, value, force, doit) == Error <==>
      RangeOf(i, comment, force && doit).Mismatch? ||
      (Active(i, comment) && value.Some? && Restored(i, ValueAfter(card, i, comment, value, force && doit).value, force && doit).None?)
  {
  }

  /** The run that writes, behind a check of the same element. */
  lemma CheckedBehind(card: Card, card': Card, i: Elem, comment: seq<Kid>, value: Option<Node>, force: bool)
    requires card'.fromDb == card.fromDb && card'.write == card.write
    ensures var r0 := Checked(card, i, comment, value, force, false);
      var r := Checked(card', i, comment, ValueAfter(card, i, comment, value, false), force, true);
      && (r0 != Error ==> r != Error)
      && (!force ==> (r == Error <==> r0 == Error))
  {
    var value' := ValueAfter(card, i, comment, value, false);
    RangeStaysConverted(i, comment);
    CheckedErrorIff(card, i, comment, value, force, false);
    CheckedErrorIff(card', i, comment, value', force, true);
    if value.Some? {
      var value2 := ValueAfter(card', i, comment, value', force);
      if force {
        LaxRestoresMore(i, value.value);
        LaxRestoresMore(i, value2.value);
      } else {
        ConvertedByShape(card, i, comment, value.value, false);
        ConvertedByShape(card', i, comment, value'.value, false);
      }
    }
  }

  lemma CheckedIs(card: Card, i: Elem, comment: seq<Kid>, value: Option<Node>, force: bool, doit: bool, check: RangeCheck)
    requires check == RangeOf(i, comment, force && doit)
    ensures Checked(card, i, comment, value, force, doit) ==
            if check.Mismatch? then Error else if check.Converted? && value.None? then Crash
            else Outcome(card, i, comment, ValueAfter(card, i, comment, value, force && doit), force, doit)
  {
  }

  lemma SameOutcome(card: Card, card': Card, i: Elem, comment: seq<Kid>, value: Option<Node>, force: bool, doit: bool)
    requires card'.write == card.write
    ensures Outcome(card', i, comment, value, force, doit) == Outcome(card, i, comment, value, force, doit)
  {
  }

  lemma SameValueAfter(card: Card, card': Card, i: Elem, comment: seq<Kid>, value: Option<Node>, lax: bool)
    requires card'.fromDb == card.fromDb
    ensures ValueAfter(card', i, comment, value, lax) == ValueAfter(card, i, comment, value, lax)
    ensures ValueAfter(card, i, comment, value, lax).None? <==> value.None?
  {
  }

  /** If the decibels of its values were saved, the check changes nothing for the run behind it. */
  lemma CheckedTwice(card: Card, card': Card, i: Elem, comment: seq<Kid>, value: Option<Node>, force: bool)
    requires card'.fromDb == card.fromDb && card'.write == card.write && KeptAt(value, comment)
    ensures Checked(card', i, comment, ValueAfter(card, i, comment, value, false), force, true)
         == Checked(card, i, comment, value, force, true)
  {
    var check, value' := RangeOf(i, comment, force), ValueAfter(card, i, comment, value, false);
    ValueTwice(card, i, comment, value, force);
    SameValueAfter(card, card', i, comment, value', force);
    SameValueAfter(card, card', i, comment, value, false);
    CheckedIs(card, i, comment, value, force, true, check);
    CheckedIs(card', i, comment, value', force, true, check);
    SameOutcome(card, card', i, comment, ValueAfter(card, i, comment, value, force), force, true);
  }

  lemma CheckedThenWritten(card: Card, i: Elem, comment: seq<Kid>, value: Option<Node>)
    ensures var r0, r := Checked(card, i, comment, value, false, false), Checked(card, i, comment, value, false, true);
      r == if r0.Passed? then Wrote(card, r0.numid, r0.values) else r0
  {
  }

  predicate KeptIn(control: Kid) {
    KeptAt(FieldsIn(control).value, CommentOf(FieldsIn(control)))
  }

  /** How the result `r` of a run that writes follows from that of the check in front of it, `r0`, and
      from what it would be `alone`. The check hands no values to the driver. Unless restoring is
      forced, an error in one is an error in the other, and forced the second has none when the first
      has none. If the decibels of the values were `kept`, the second does what it would have done
      alone; unless forced it hands over what the first has computed, and fails if and only if the
      first does or the driver refuses these values. */
  predicate Predicted(card: Card, r0: Result, r: Result, alone: Result, force: bool, kept: bool) {
    && !r0.Written? && !r0.Refused?
    && (r0 != Error ==> r != Error)
    && (!force ==> (r == Error <==> r0 == Error))
    && (kept ==> r == alone)
    && (kept && !force ==>
         && (r == if r0.Passed? then Wrote(card, r0.numid, r0.values) else r0)
         && (Fails(r) <==> Fails(r0) || (r0.Passed? && !card.write(r0.numid, r0.values))))
  }

  lemma CheckedPredicts(card: Card, card': Card, i: Elem, comment: seq<Kid>, value: Option<Node>, force: bool)
    requires card'.fromDb == card.fromDb && card'.write == card.write
    ensures Predicted(card, Checked(card, i, comment, value, force, false),
                      Checked(card', i, comment, ValueAfter(card, i, comment, value, false), force, true),
                      Checked(card, i, comment, value, force, true), force, KeptAt(value, comment))
  {
    CheckedBehind(card, card', i, comment, value, force);
    if KeptAt(value, comment) { CheckedTwice(card, card', i, comment, value, force); }
    if !force { CheckedThenWritten(card, i, comment, value); }
  }

  lemma RestoringIs(card: Card, control: Kid, force: bool, doit: bool, e: Option<Elem>, f: Fields)
    requires e == Match(card, control, force) && f == FieldsIn(control)
    ensures Restoring(card, control, force, doit) ==
            if e.None? then Error else Checked(card, e.value, CommentOf(f), f.value, force, doit)
  {
  }

  lemma AfterKeepsDriver(card: Card, control: Kid, force: bool)
    ensures CardAfter(card, control, force).fromDb == card.fromDb && CardAfter(card, control, force).write == card.write
  {
  }

  /** Two runs over a node, as a load does them: one with `doit` zero, and one that writes, on the tree
      and the driver that the first one leaves behind. */
  lemma CheckRunPredicts(card: Card, control: Kid, force: bool, card': Card, control': Kid)
    requires card' == CardAfter(card, control, force) && control' == TreeAfter(card, control, force, false)
    ensures Predicted(card, Restoring(card, control, force, false), Restoring(card', control', force, true),
                      Restoring(card, control, force, true), force, KeptIn(control))
  {
    var e, f, f' := Match(card, control, force), FieldsIn(control), FieldsIn(control');
    MatchAfter(card, control, force);
    AfterKeepsDriver(card, control, force);
    RestoringIs(card, control, force, false, e, f);
    RestoringIs(card, control, force, true, e, f);
    RestoringIs(card', control', force, true, e, f');
    if e.Some? { CheckedPredicts(card, card', e.value, CommentOf(f), f.value, force); }
  }

  // ----- saving and restoring -----

  /** The card has the element as it was saved. */
  ghost predicate Unchanged(card: Card, i: Elem) {
    card.byNumid(i.numid) == Some(i) && card.byId(i.id) == Some(i)
  }

  /** There is one node "access" in a comment. */
  lemma AccessOfParts(access: string, kind: string, count: int, ranged: bool, range: string,
                      tlv: seq<Kid>, item: seq<Kid>, w: string)
    requires forall j :: 0 <= j < |tlv| ==> tlv[j].key != Access
    requires forall j :: 0 <= j < |item| ==> item[j].key != Access
    ensures AccessHas(CommentHead(access, kind, count, ranged, range) + tlv + item, w) == Contains(access, w)
  {
    var kids := CommentHead(access, kind, count, ranged, range) + tlv + item;
    assert kids[0] == Kid(Access, Str(access));
    NoAccess(kids[1..], w);
  }

  lemma TlvHasNoAccess(tlv: Option<string>, dB: Option<(int, int)>, gains: seq<int>)
    ensures forall j :: 0 <= j < |TlvKids(tlv, dB, gains)| ==> TlvKids(tlv, dB, gains)[j].key != Access
  {
  }

  /** The comment says that the element is inactive if it is. */
  lemma CommentAccess(i: Info, x: Extra)
    ensures AccessHas(CommentKids(i, x), "inactive") <==> i.inactive
  {
    InactiveIff(i);
    TlvHasNoAccess(x.tlv, i.dB, x.gains);
    AccessOfParts(Tail(AccessWords(i)), KindName(i.kind), i.count, HasRange(i), RangeText(i.min, i.max, i.step),
                  if i.kind == Integer then TlvKids(x.tlv, i.dB, x.gains) else [],
                  When(i.kind == Enumerated, Item, Compound(ItemKids(i.items))), "inactive");
  }

  lemma NoDbMinIn(access: string, kind: string, count: int, ranged: bool, range: string, isEnum: bool, item: Node)
    ensures Search(CommentHead(access, kind, count, ranged, range) + [] + When(isEnum, Item, item), DbMin).None?
  {
    var kids := CommentHead(access, kind, count, ranged, range) + [] + When(isEnum, Item, item);
    assert forall j :: 0 <= j < |kids| ==> kids[j].key in {Access, Type, Count, Range, Item};
  }

  lemma NoDbMin(i: Info, x: Extra)
    requires i.kind != Integer
    ensures Search(CommentKids(i, x), DbMin).None?
  {
    NoDbMinIn(Tail(AccessWords(i)), KindName(i.kind), i.count, HasRange(i), RangeText(i.min, i.max, i.step),
              i.kind == Enumerated, Compound(ItemKids(i.items)));
  }

  lemma DbMinOf(i: Info, x: Extra)
    requires i.kind == Integer
    ensures Search(CommentKids(i, x), DbMin).Some? <==> i.dB.Some?
    ensures i.dB.Some? ==> Search(CommentKids(i, x), DbValue) == Some(Compound(GainKids(x.gains)))
  {
    var range := RangeText(i.min, i.max, i.step);
    var kids := CommentHead(Tail(AccessWords(i)), KindName(i.kind), i.count, true, range) + TlvKids(x.tlv, i.dB, x.gains);
    CommentSearch(Tail(AccessWords(i)), KindName(i.kind), i.count, range, x.tlv, i.dB, x.gains);
    assert CommentKids(i, x) == kids + [] == kids;
  }

  /** The tree of every element that alsactl saves keeps the decibels of its values, so that converting
      it twice is converting it once. */
  lemma SavedIsKept(i: Elem, vals: seq<int>, toDb: int -> Option<int>, tlv: Option<string>)
    requires GoodIface(i) && GoodValues(i, vals) && Answered(i, Some(vals), toDb)
    ensures KeptIn(ControlKid(i, vals, ExtraOf(i, vals, toDb, tlv)))
  {
    var x := ExtraOf(i, vals, toDb, tlv);
    var f := IdComesBack(i, ValueNode(i, vals), Compound(CommentKids(i, x)));
    if i.kind != Integer {
      NoDbMin(i, x);
    } else {
      DbMinOf(i, x);
      if i.dB.Some? { GainsAreKept(i, vals, CommentKids(i, x), x.gains); }
    }
  }

  /** What the values of an unchanged element come to. */
  lemma OutcomeIs(card: Card, i: Elem, vals: seq<int>, comment: seq<Kid>, force: bool, doit: bool)
    requires AllNamed(i) && GoodValues(i, vals) && (AccessHas(comment, "inactive") <==> i.inactive)
    ensures ComesBack(card, i, vals, doit, Outcome(card, i, comment, Some(ValueNode(i, vals)), force, doit))
  {
    ValuesComeBackIff(i, vals, force && doit);
  }

  /** The result for an element that was saved with these values and is restored: nothing is written if
      it is inactive or read-only, and these values are handed to the driver if they survive. */
  predicate ComesBack(card: Card, i: Elem, vals: seq<int>, doit: bool, r: Result) {
    if i.inactive || !i.writable then r == Ignored
    else if AllSurvive(i, vals) then r == if doit then Wrote(card, i.numid, vals) else Passed(i.numid, vals)
    else r !in {Written(i.numid, vals), Refused(i.numid, vals), Passed(i.numid, vals)}
  }

  /** Main result: an element that is saved, and restored on an unchanged card, gets its values back, if
      and only if each of them survives and the driver takes them. Only elements without a name cannot
      be forced. */
  method SaveAndRestore(card: Card, i: Elem, vals: seq<int>, toDb: int -> Option<int>, tlv: Option<string>,
                        force: bool, doit: bool)
    returns (saved: bool, r: Result)
    requires GoodIface(i) && GoodValues(i, vals) && i.readable && Unchanged(card, i)
    ensures saved <==> Answered(i, Some(vals), toDb)
    ensures saved && force && i.id.name == "" ==> r == Error
    ensures saved && !(force && i.id.name == "") ==> ComesBack(card, i, vals, doit, r)
  {
    var s := GetControl(Some(i), Some(vals), toDb, tlv);
    saved, r := s.Saved?, Error;
    if !saved { return; }
    ghost var x := ExtraOf(i, vals, toDb, tlv);
    r := Restore(card, i, s.kid, vals, CommentKids(i, x), force, doit) by {
      CommentAccess(i, x);
      if i.kind == Integer { RangeIsSame(i, x, force && doit); }
    }
  }

  /** Restoring what was saved, with a comment that agrees with the element. */
  method Restore(card: Card, i: Elem, control: Kid, ghost vals: seq<int>, ghost comment: seq<Kid>, force: bool, doit: bool)
    returns (r: Result)
    requires GoodIface(i) && GoodValues(i, vals) && AllNamed(i) && Unchanged(card, i)
    requires control == Kid(NumKey(i.numid), Compound(IdKids(i) + [Kid(Value, ValueNode(i, vals))] + [Kid(Comment, Compound(comment))]))
    requires AccessHas(comment, "inactive") <==> i.inactive
    requires i.kind == Integer ==> CheckRange(i, comment, force && doit) == Same
    ensures if force && i.id.name == "" then r == Error else ComesBack(card, i, vals, doit, r)
  {
    ghost var f := IdComesBack(i, ValueNode(i, vals), Compound(comment));
    AtoiNumStr(i.numid);
    OutcomeIs(card, i, vals, comment, force, doit);
    var control';
    r, control' := SetControl(card, control, force, doit);
  }

  // ----- which element a saved node finds -----

  /** A driver that describes its elements by number and by identity in the same way. */
  ghost predicate Consistent(card: Card) {
    && (forall n: int :: card.byNumid(n).Some? ==> card.byNumid(n).value.numid == n)
    && (forall id: ElemId :: card.byId(id).Some? ==> card.byId(id).value.id == id)
    && (forall n: int :: card.byNumid(n).Some? ==> card.byId(card.byNumid(n).value.id) == card.byNumid(n))
    && (forall id: ElemId :: card.byId(id).Some? ==> card.byNumid(card.byId(id).value.numid) == card.byId(id))
  }

  /** A saved element finds the one that has its number and its identity. By force it finds the one of its
      identity, whatever its number is now. (Elements that have been added by users and are not there are
      added again.) */
  lemma FoundIff(card: Card, i: Elem, vals: seq<int>, x: Extra)
    requires Consistent(card) && GoodIface(i) && GoodValues(i, vals) && i.id.name != ""
    requires card.addUser(CommentKids(i, x)) == None
    ensures Match(card, ControlKid(i, vals, x), false)
         == if card.byNumid(i.numid).Some? && card.byNumid(i.numid).value.id == i.id then card.byNumid(i.numid) else None
    ensures Match(card, ControlKid(i, vals, x), true) == card.byId(i.id)
  {
    var f := IdComesBack(i, ValueNode(i, vals), Compound(CommentKids(i, x)));
    AtoiNumStr(i.numid);
    TargetIs(card, i.numid, f, CommentKids(i, x));
    MatchIs(card, ControlKid(i, vals, x), f, false);
    MatchIs(card, ControlKid(i, vals, x), f, true);
  }

  lemma MatchIs(card: Card, control: Kid, f: Fields, force: bool)
    requires control.node.Compound? && Reads(control.node.kids, f)
    ensures var e := Target(card, KeyNumber(control.key), f, force);
      Match(card, control, force) == if e.Some? && Agrees(e.value, KeyNumber(control.key), f, force) then e else None
  {
  }

  lemma TargetIs(card: Card, n: int, f: Fields, comment: seq<Kid>)
    requires Consistent(card) && IdOf(f).name != "" && f.comment == Some(comment) && card.addUser(comment) == None
    ensures var e, d := Target(card, n, f, false), card.byNumid(n);
      (if e.Some? && Agrees(e.value, n, f, false) then e else None) == if d.Some? && d.value.id == IdOf(f) then d else None
    ensures var e := Target(card, n, f, true);
      (if e.Some? && Agrees(e.value, n, f, true) then e else None) == card.byId(IdOf(f))
  {
    var e := card.byId(IdOf(f));
    if e.Some? { assert card.byNumid(e.value.numid) == e; }
  }

  /** Nothing is written for an element that was inactive when it was saved, or is inactive now, or cannot
      be written. */
  lemma IgnoredIff(card: Card, i: Elem, j: Elem, x: Extra, value: Option<Node>, force: bool, doit: bool)
    ensures Outcome(card, i, CommentKids(j, x), value, force, doit) == Ignored <==> j.inactive || i.inactive || !i.writable
  {
    CommentAccess(j, x);
  }
}
