/** set_control of alsactl: a node of the configuration tree is checked against the element it was
    saved from, and its values are written. */
module ControlRestore {
  import opened Options
  import opened Config
  import opened ControlState
  import Hex

  // ----- values -----

  /** The loop of config_enumerated. It ends when a name cannot be queried. */
  method FindItem(i: Info, s: string) returns (v: int)
    ensures v == ItemIndex(Names(i), s)
  {
    for idx := 0 to |i.items|
      invariant idx <= |Names(i)| && forall k :: 0 <= k < idx ==> i.items[k] != s
    {
      if idx >= i.named { return -1; }
      if i.items[idx] == s { return idx; }
    }
    return -1;
  }

  /** config_enumerated */
  method EnumeratedOf(n: Node, i: Info, lax: bool) returns (v: int)
    ensures v == ConfigEnumerated(n, Names(i), lax)
    decreases n
  {
    match n
    case Int(num) => v := Int32(num);
    case Int64(num) => v := Int32(num);
    case Str(text) => v := FindItem(i, text);
    case Compound(kids) =>
      if !lax || kids == [] { return -1; }
      v := EnumeratedOf(kids[0].node, i, lax);
  }

  /** restore_config_value */
  method Conversion1(i: Info, n: Node, lax: bool) returns (c: Conv)
    ensures c == Convert1(i, n, lax)
  {
    if i.kind == Enumerated {
      var v := EnumeratedOf(n, i, lax);
      c := SetIf(v);
    } else if i.kind == Boolean {
      c := SetIf(ConfigBool(n, lax));
    } else if i.kind == Integer || i.kind == Integer64 {
      var r := ConfigInteger(n, i.kind == Integer64, lax);
      c := if r.Some? then Set(r.value) else Skip;
    } else {
      c := Skip;
    }
  }

  /** restore_config_value2 */
  method Conversion(i: Info, n: Node, lax: bool) returns (c: Conv)
    ensures c == Convert(i, n, lax)
  {
    c := Conversion1(i, n, lax);
    if c == Skip && ByBytes(i.kind) {
      c := if n.Int? && 0 <= n.num <= 255 then Set(n.num) else if lax then Skip else Bad;
    }
  }

  /** The values collected so far, and which of them are set. */
  ghost predicate Collected(i: Info, kids: seq<Kid>, lax: bool, ctl: seq<int>, done: seq<bool>)
  {
    && |done| == i.count <= |ctl|
    && (forall k :: 0 <= k < i.count ==>
         done[k] == Given(i, kids, lax, k) && ctl[k] == Or0(First(i, kids, lax, k)))
    && forall k :: i.count <= k < |ctl| ==> ctl[k] == 0
  }

  /** What another child adds for index `k`. */
  function Otherwise(r: Option<int>, i: Info, kid: Kid, lax: bool, k: int): Option<int> {
    if r.Some? then r
    else if KeyNumber(kid.key) == k && Convert(i, kid.node, lax).Set? then Some(Convert(i, kid.node, lax).v)
    else None
  }

  lemma FirstMore(i: Info, kids: seq<Kid>, kid: Kid, lax: bool)
    ensures forall k :: First(i, kids + [kid], lax, k) == Otherwise(First(i, kids, lax, k), i, kid, lax, k)
    ensures InOrder(i, kids + [kid], lax) <==>
      && InOrder(i, kids, lax) && 0 <= KeyNumber(kid.key) < i.count
      && First(i, kids, lax, KeyNumber(kid.key)).None? && !Convert(i, kid.node, lax).Bad?
  {
    assert (kids + [kid])[..|kids|] == kids;
  }

  lemma {:induction false} InOrderPrefix(i: Info, kids: seq<Kid>, lax: bool, n: nat)
    requires n <= |kids| && InOrder(i, kids, lax)
    ensures InOrder(i, kids[..n], lax)
    decreases |kids|
  {
    if n == |kids| {
      assert kids[..n] == kids;
    } else {
      InOrderPrefix(i, kids[..|kids| - 1], lax, n);
      assert kids[..|kids| - 1][..n] == kids[..n];
    }
  }

  /** One child of the compound "value". It reports an error only if errors count, or if the child
      cannot be converted. */
  method RestoreKid(i: Info, kid: Kid, lax: bool, ctl: array<int>, done: array<bool>, ghost before: seq<Kid>)
    returns (ok: bool)
    requires done.Length == i.count && Collected(i, before, lax, ctl[..], done[..])
    modifies ctl, done
    ensures Collected(i, before + [kid], lax, ctl[..], done[..]) || !ok
    ensures ok ==> lax || (InOrder(i, before, lax) ==> InOrder(i, before + [kid], lax))
    ensures !ok ==> !lax && !InOrder(i, before + [kid], lax)
  {
    FirstMore(i, before, kid, lax);
    ok := true;
    var idx := KeyNumber(kid.key);
    if !(0 <= idx < i.count) || done[idx] {
      return lax;
    }
    var c := Conversion(i, kid.node, lax);
    if c.Bad? { return false; }
    if c.Set? { ctl[idx], done[idx] := c.v, true; }
  }

  /** The loop over the children of "value", and the check that all values are set. */
  method RestoreKids(i: Info, kids: seq<Kid>, lax: bool, ctl: array<int>) returns (ok: bool)
    requires i.count <= ctl.Length && forall k :: 0 <= k < ctl.Length ==> ctl[k] == 0
    modifies ctl
    ensures ok <==> lax || (InOrder(i, kids, lax) && forall k :: 0 <= k < i.count ==> Given(i, kids, lax, k))
    ensures ok ==> forall k :: 0 <= k < ctl.Length ==>
      ctl[..][k] == if k < i.count then Or0(First(i, kids, lax, k)) else 0
  {
    var done := new bool[i.count](_ => false);
    for j := 0 to |kids|
      invariant Collected(i, kids[..j], lax, ctl[..], done[..])
      invariant lax || InOrder(i, kids[..j], lax)
    {
      assert kids[..j + 1] == kids[..j] + [kids[j]];
      ok := RestoreKid(i, kids[j], lax, ctl, done, kids[..j]);
      if !ok {
        if InOrder(i, kids, lax) { InOrderPrefix(i, kids, lax, j + 1); }
        return;
      }
    }
    assert kids[..|kids|] == kids;
    ok := AllSet(done, lax);
    AllFound(i, kids, lax, ctl[..], done[..]);
  }

  /** The check that all values are set. */
  method AllSet(done: array<bool>, lax: bool) returns (ok: bool)
    ensures ok <==> lax || forall k :: 0 <= k < done.Length ==> done[..][k]
  {
    for idx := 0 to done.Length
      invariant lax || forall k :: 0 <= k < idx ==> done[..][k]
    {
      if !done[idx] && !lax {
        assert !done[..][idx];
        return false;
      }
    }
    return true;
  }

  lemma AllFound(i: Info, kids: seq<Kid>, lax: bool, ctl: seq<int>, done: seq<bool>)
    requires Collected(i, kids, lax, ctl, done)
    ensures (forall k :: 0 <= k < |done| ==> done[k]) <==> forall k :: 0 <= k < i.count ==> Given(i, kids, lax, k)
    ensures forall k :: 0 <= k < |ctl| ==> ctl[k] == if k < i.count then Or0(First(i, kids, lax, k)) else 0
  {
    assert forall k :: 0 <= k < i.count ==> (done[k] <==> Given(i, kids, lax, k));
  }

  /** The loop over the digits of a byte string. */
  method RestoreBytes(buf: string, ctl: array<int>) returns (ok: bool)
    requires |buf| == 2 * ctl.Length
    modifies ctl
    ensures ok <==> Hex.AllHex(buf)
    ensures ok ==> ctl[..] == Hex.Numbers(buf, 2)
  {
    var c1, idx := 0, 0;
    while idx < |buf|
      invariant 0 <= idx <= |buf| && Hex.AllHex(buf[..idx]) && 0 <= c1 < 16
      invariant ctl[..idx / 2] == Hex.Numbers(buf[..2 * (idx / 2)], 2)
      invariant idx % 2 == 1 ==> c1 == Hex.HexDigit(buf[idx - 1])
    {
      var c := Hex.HexDigit(buf[idx]);
      if c < 0 { return false; }
      if idx % 2 == 1 {
        ByteMore(buf, idx - 1, idx / 2);
        ctl[idx / 2] := c1 * 16 + c;
        assert ctl[..idx / 2 + 1] == ctl[..idx / 2] + [c1 * 16 + c];
      } else {
        c1 := c;
      }
      idx := idx + 1;
    }
    assert buf[..|buf|] == buf && ctl[..ctl.Length] == ctl[..];
    ok := true;
  }

  /** Two more digits are one more byte. */
  lemma ByteMore(buf: string, p: nat, k: nat)
    requires p == 2 * k && p + 2 <= |buf| && Hex.AllHex(buf[..p + 1]) && Hex.HexDigit(buf[p + 1]) >= 0
    ensures Hex.AllHex(buf[..p]) && Hex.AllHex(buf[..p + 2]) && Hex.HexDigit(buf[p]) >= 0
    ensures Hex.Numbers(buf[..p + 2], 2)
         == Hex.Numbers(buf[..p], 2) + [Hex.HexDigit(buf[p]) * 16 + Hex.HexDigit(buf[p + 1])]
  {
    var a, b := buf[..p], buf[p..p + 2];
    assert buf[..p + 1][p] == buf[p];
    assert forall j :: 0 <= j < p ==> buf[..p][j] == buf[..p + 1][j];
    assert b == [buf[p]] + [buf[p + 1]];
    Hex.ValueMore([], buf[p]);
    Hex.ValueMore([buf[p]], buf[p + 1]);
    assert [] + [buf[p]] == [buf[p]];
    Hex.NumbersMore(a, b, k, 2);
    assert buf[..p + 2] == a + b;
  }

  /** The part of set_control that fills the values; what it cannot find stays zero. */
  method RestoreValue(i: Info, n: Node, lax: bool) returns (ok: bool, ctl: array<int>)
    requires GoodInfo(i)
    ensures ok <==> Restored(i, n, lax).Some?
    ensures ok ==> ctl[..] == Restored(i, n, lax).value
  {
    ctl := new int[Size(i)](_ => 0);
    if i.count == 1 {
      var c := Conversion1(i, n, lax);
      if c.Set? {
        ctl[0] := c.v;
        assert ctl[..] == [c.v];
        return true, ctl;
      }
    }
    if ByBytes(i.kind) && n.Str? {
      if 2 * Size(i) != |n.text| { return false, ctl; }
      ok := RestoreBytes(n.text, ctl);
      return;
    }
    if !n.Compound? {
      if !lax { return false, ctl; }
      RestoreAll(i, n, ctl);
      return true, ctl;
    }
    ok := RestoreKids(i, n.kids, lax, ctl);
  }

  /** One node is forced on all values. */
  method RestoreAll(i: Info, n: Node, ctl: array<int>)
    requires i.count <= ctl.Length && forall k :: 0 <= k < ctl.Length ==> ctl[k] == 0
    modifies ctl
    ensures var c := Convert(i, n, true);
      ctl[..] == seq(ctl.Length, k => if k < i.count then (if c.Set? then c.v else 0) else 0)
  {
    var c := Conversion(i, n, true);
    for idx := 0 to i.count
      invariant forall k :: 0 <= k < idx ==> ctl[k] == if c.Set? then c.v else 0
      invariant forall k :: idx <= k < ctl.Length ==> ctl[k] == 0
    {
      if c.Set? { ctl[idx] := c.v; }
    }
  }
}
