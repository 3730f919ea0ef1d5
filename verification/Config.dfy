/** The configuration tree that alsactl saves the state of a card in, and the decimal numbers it uses
    as names of its nodes. */
module Config {
  import opened Options

  /** The name of a node: one of those that the code compares with, or any other text. */
  datatype Key =
    | Iface | Device | Subdevice | Name | Index | Value | Comment
    | Access | Type | Count | Range | Item | DbMin | DbMax | DbValue | TlvText
    | Other(text: string)

  datatype Node = Int(num: int) | Int64(num: int) | Str(text: string) | Compound(kids: seq<Kid>)

  datatype Kid = Kid(key: Key, node: Node)

  // ----- decimal numbers -----

  predicate IsDigit(c: char) {
    '0' <= c <= '9'
  }

  function Digit(d: nat): (c: char)
    requires d < 10
    ensures IsDigit(c)
  {
    ('0' as int + d) as char
  }

  function Decimal(n: nat): (s: string)
    ensures s != ""
  {
    if n < 10 then [Digit(n)] else Decimal(n / 10) + [Digit(n % 10)]
  }

  /** num_str */
  function NumStr(n: int): string {
    if n < 0 then "-" + Decimal(-n) else Decimal(n)
  }

  predicate AllDigits(s: string) {
    forall i :: 0 <= i < |s| ==> IsDigit(s[i])
  }

  function NatOf(s: string): nat
    requires AllDigits(s)
  {
    if s == "" then 0 else NatOf(s[..|s| - 1]) * 10 + (s[|s| - 1] as int - '0' as int)
  }

  /** The digits at the front. */
  function Leading(s: string): (d: string)
    ensures |d| <= |s| && d == s[..|d|] && AllDigits(d)
  {
    if s == "" || !IsDigit(s[0]) then "" else [s[0]] + Leading(s[1..])
  }

  function SkipSpace(s: string): (t: string) {
    if s != "" && (s[0] == ' ' || '\t' <= s[0] <= '\r') then SkipSpace(s[1..]) else s
  }

  /** Digits at the front of a text, with what follows them; nothing if there are none. */
  function ScanDigits(s: string): (r: Option<(nat, string)>)
  {
    var d := Leading(s);
    if d == "" then None else Some((NatOf(d), s[|d|..]))
  }

  /** The same with white space and a sign in front. */
  function ScanNumber(s: string): (r: Option<(int, string)>)
  {
    var t := SkipSpace(s);
    if t == "" then None
    else
      var r := ScanDigits(if t[0] == '-' || t[0] == '+' then t[1..] else t);
      if r.None? then None
      else
        var n: int := r.value.0;
        Some((if t[0] == '-' then -n else n, r.value.1))
  }

  /** atoi */
  function Atoi(s: string): int {
    var r := ScanNumber(s);
    if r.Some? then r.value.0 else 0
  }

  lemma {:induction false} NatOfDecimal(n: nat)
    ensures AllDigits(Decimal(n)) && NatOf(Decimal(n)) == n
  {
    if n >= 10 {
      NatOfDecimal(n / 10);
      var s := Decimal(n);
      assert s[..|s| - 1] == Decimal(n / 10);
    }
  }

  lemma {:induction false} LeadingOf(d: string, rest: string)
    requires AllDigits(d) && (rest != "" ==> !IsDigit(rest[0]))
    ensures Leading(d + rest) == d
  {
    if d == "" {
      assert d + rest == rest;
    } else {
      assert (d + rest)[1..] == d[1..] + rest;
      LeadingOf(d[1..], rest);
    }
  }

  lemma ScanDecimal(n: nat, rest: string)
    requires rest != "" ==> !IsDigit(rest[0])
    ensures ScanDigits(Decimal(n) + rest) == Some((n, rest))
  {
    var d := Decimal(n);
    NatOfDecimal(n);
    LeadingOf(d, rest);
    assert (d + rest)[|d|..] == rest;
  }

  lemma NoSpace(s: string)
    requires s != "" && (IsDigit(s[0]) || s[0] == '-')
    ensures SkipSpace(s) == s
  {
  }

  lemma ScanPlain(s: string, n: nat, rest: string)
    requires s != "" && IsDigit(s[0]) && ScanDigits(s) == Some((n, rest))
    ensures ScanNumber(s) == Some((n, rest))
  {
    NoSpace(s);
  }

  lemma ScanMinus(s: string, t: string, n: int, rest: string)
    requires n <= 0 && s == "-" + t && ScanDigits(t) == Some((-n, rest))
    ensures ScanNumber(s) == Some((n, rest))
  {
    NoSpace(s);
    assert s[1..] == t;
  }

  lemma DecimalStart(n: nat, rest: string)
    ensures Decimal(n) + rest != "" && IsDigit((Decimal(n) + rest)[0])
  {
    NatOfDecimal(n);
  }

  /** A number is read back, whatever follows it that is no digit. */
  lemma ScanNumStr(n: int, rest: string)
    requires rest != "" ==> !IsDigit(rest[0])
    ensures ScanNumber(NumStr(n) + rest) == Some((n, rest))
  {
    if n < 0 {
      ScanDecimal(-n, rest);
      assert ("-" + Decimal(-n)) + rest == "-" + (Decimal(-n) + rest);
      ScanMinus(NumStr(n) + rest, Decimal(-n) + rest, n, rest);
    } else {
      ScanDecimal(n, rest);
      DecimalStart(n, rest);
      ScanPlain(Decimal(n) + rest, n, rest);
    }
  }

  lemma AtoiNumStr(n: int)
    ensures Atoi(NumStr(n)) == n
  {
    ScanNumStr(n, "");
    assert NumStr(n) + "" == NumStr(n);
  }

  /** Different numbers have different names. */
  lemma NumStrInjective(m: int, n: int)
    ensures NumStr(m) == NumStr(n) <==> m == n
  {
    AtoiNumStr(m);
    AtoiNumStr(n);
  }

  /** atoi of the name of a node; the known names start with a letter. */
  function KeyNumber(key: Key): int {
    if key.Other? then Atoi(key.text) else 0
  }

  function NumKey(n: int): Key {
    Other(NumStr(n))
  }

  // ----- trees -----

  predicate HasKey(kids: seq<Kid>, key: Key) {
    exists i :: 0 <= i < |kids| && kids[i].key == key
  }

  /** snd_config_add: a second node of the same name is refused. */
  function Add(kids: seq<Kid>, key: Key, node: Node): (r: Option<seq<Kid>>)
    ensures r == if HasKey(kids, key) then None else Some(kids + [Kid(key, node)])
  {
    if exists i :: 0 <= i < |kids| && kids[i].key == key then None else Some(kids + [Kid(key, node)])
  }

  /** snd_config_search for a name without a dot in it */
  function Search(kids: seq<Kid>, key: Key): (r: Option<Node>)
    ensures r.Some? <==> HasKey(kids, key)
  {
    if kids == [] then None
    else if kids[0].key == key then Some(kids[0].node)
    else
      var r := Search(kids[1..], key);
      assert r.Some? <==> HasKey(kids[1..], key);
      assert forall i :: 1 <= i < |kids| ==> kids[i] == kids[1..][i - 1];
      r
  }

  /** The last node of a name. */
  function Last(kids: seq<Kid>, key: Key): (r: Option<Node>)
  {
    if kids == [] then None
    else if kids[|kids| - 1].key == key then Some(kids[|kids| - 1].node)
    else Last(kids[..|kids| - 1], key)
  }

  lemma {:induction false} SearchAt(kids: seq<Kid>, k: nat)
    requires k < |kids| && forall i :: 0 <= i < k ==> kids[i].key != kids[k].key
    ensures Search(kids, kids[k].key) == Some(kids[k].node)
  {
    if k > 0 {
      assert kids[1..][k - 1] == kids[k];
      assert forall i :: 0 <= i < k - 1 ==> kids[1..][i] == kids[i + 1];
      SearchAt(kids[1..], k - 1);
    }
  }

  lemma {:induction false} SearchJoin(a: seq<Kid>, b: seq<Kid>, key: Key)
    ensures Search(a + b, key) == if Search(a, key).Some? then Search(a, key) else Search(b, key)
  {
    if a == [] {
      assert a + b == b;
    } else {
      assert (a + b)[1..] == a[1..] + b;
      SearchJoin(a[1..], b, key);
    }
  }

  lemma SearchOne(kid: Kid, key: Key)
    ensures Search([kid], key) == if kid.key == key then Some(kid.node) else None
  {
    assert [kid][1..] == [];
  }

  // ----- decimal places -----

  /** Digits have their usual values, and each place is worth ten times the next one. */
  lemma DecimalPlaces(n: int)
    ensures 0 <= n < 10 ==> NumStr(n) == ["0123456789"[n]]
    ensures n >= 10 ==> NumStr(n) == NumStr(n / 10) + NumStr(n % 10)
    ensures n < 0 ==> NumStr(n) == "-" + NumStr(-n)
  {
  }
}
