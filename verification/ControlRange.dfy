/** check_comment_range of alsactl: whether the range of an integer element is still as it was saved, and
    the conversion of the values when it is not. */
module ControlRange {
  import opened Options
  import opened Config
  import opened ControlState
  import opened ControlSave

  // ----- the saved range -----

  function TextOf(n: Option<Node>): Option<string> {
    if n.Some? && n.value.Str? then Some(n.value.text) else None
  }

  /** The two numbers of the text "range". */
  function ScanRange(s: string): Option<(int, int)>
  {
    var min := ScanNumber(s);
    if min.None? then None
    else
      var t := SkipSpace(min.value.1);
      if t == "" || t[0] != '-' then None
      else
        var max := ScanNumber(t[1..]);
        if max.None? then None else Some((min.value.0, max.value.0))
  }

  lemma ScanSkipsBlank(s: string)
    ensures ScanNumber(" " + s) == ScanNumber(s)
  {
    assert (" " + s)[1..] == s;
  }

  lemma SkipsToMinus(rest: string, s: string)
    requires rest == " - " + s
    ensures rest[0] == ' ' && SkipSpace(rest) == "- " + s && ("- " + s)[0] == '-' && ("- " + s)[1..] == " " + s
  {
    assert rest[1..] == "- " + s;
    assert SkipSpace("- " + s) == "- " + s;
  }

  lemma TwoNumbers(min: int, max: int, tail: string)
    requires tail != "" ==> !IsDigit(tail[0])
    ensures ScanRange(NumStr(min) + (" - " + (NumStr(max) + tail))) == Some((min, max))
  {
    var s := NumStr(max) + tail;
    var rest := " - " + s;
    SkipsToMinus(rest, s);
    ScanNumStr(min, rest);
    ScanSkipsBlank(s);
    ScanNumStr(max, tail);
  }

  /** The range that is saved is read back. */
  lemma RangeComesBack(min: int, max: int, step: int)
    ensures ScanRange(RangeText(min, max, step)) == Some((min, max))
  {
    TwoNumbers(min, max, if step != 0 then " (step " + NumStr(step) + ")" else "");
  }

  /** The old and the new range of the values, and the old range in decibels. */
  datatype Ranges = Ranges(omin: int, omax: int, nmin: int, nmax: int, odbmin: int, odbmax: int)

  datatype RangeCheck = Same | Mismatch | Converted(ranges: Ranges)

  /** check_comment_range: whether the values can be restored as they are, not at all, or are first
      converted to another range. The decibel range of the element is that of its TLV data. */
  function CheckRange(i: Info, comment: seq<Kid>, lax: bool): (r: RangeCheck)
    ensures r.Converted? ==> r.ranges.omin < r.ranges.omax && r.ranges.nmin < r.ranges.nmax && r.ranges.odbmin < r.ranges.odbmax
  {
    var range := TextOf(Search(comment, Range));
    var was := if range.Some? then ScanRange(range.value) else None;
    if was.None? then Same
    else
      var (omin, omax) := was.value;
      if omin != i.min && omax != i.max && !lax then Mismatch
      else if omin >= omax || i.min >= i.max then Same
      else
        var dbmin, dbmax := Search(comment, DbMin), Search(comment, DbMax);
        var lo := if dbmin.Some? then ConfigInteger(dbmin.value, false, lax) else None;
        var hi := if dbmax.Some? then ConfigInteger(dbmax.value, false, lax) else None;
        if lo.None? || hi.None? || lo.value >= hi.value || i.dB.None? || i.dB.value.0 >= i.dB.value.1 then Same
        else if omin == i.min && omax == i.max && (lo.value, hi.value) == i.dB.value then Same
        else Converted(Ranges(omin, omax, i.min, i.max, lo.value, hi.value))
  }

  lemma SearchWhen(a: seq<Kid>, b: bool, key: Key, node: Node, k: Key)
    ensures Search(a + When(b, key, node), k) ==
            if Search(a, k).Some? then Search(a, k) else if b && key == k then Some(node) else None
  {
    SearchJoin(a, When(b, key, node), k);
    if b { SearchOne(Kid(key, node), k); }
  }

  /** What is found in the comment of an integer element. */
  lemma CommentSearch(access: string, kind: string, count: int, range: string, tlv: Option<string>, dB: Option<(int, int)>,
                      gains: seq<int>)
    ensures var kids := CommentHead(access, kind, count, true, range) + TlvKids(tlv, dB, gains);
      && Search(kids, Range) == Some(Str(range))
      && Search(kids, DbMin) == (if dB.Some? then Some(Int(dB.value.0)) else None)
      && Search(kids, DbMax) == (if dB.Some? then Some(Int(dB.value.1)) else None)
      && Search(kids, DbValue) == (if dB.Some? then Some(Compound(GainKids(gains))) else None)
  {
    OneSearch(access, kind, count, range, tlv, dB, gains, Range);
    OneSearch(access, kind, count, range, tlv, dB, gains, DbMin);
    OneSearch(access, kind, count, range, tlv, dB, gains, DbMax);
    OneSearch(access, kind, count, range, tlv, dB, gains, DbValue);
  }

  lemma OneSearch(access: string, kind: string, count: int, range: string, tlv: Option<string>, dB: Option<(int, int)>,
                  gains: seq<int>, k: Key)
    requires k in {Range, DbMin, DbMax, DbValue}
    ensures Search(CommentHead(access, kind, count, true, range) + TlvKids(tlv, dB, gains), k)
         == if k == Range then Some(Str(range)) else if dB.None? then None
            else if k == DbMin then Some(Int(dB.value.0))
            else if k == DbMax then Some(Int(dB.value.1)) else Some(Compound(GainKids(gains)))
  {
    HeadSearch(access, kind, count, range, k);
    TailSearch(tlv, dB, gains, k);
    SearchJoin(CommentHead(access, kind, count, true, range), TlvKids(tlv, dB, gains), k);
  }

  lemma HeadSearch(access: string, kind: string, count: int, range: string, k: Key)
    requires k in {Range, DbMin, DbMax, DbValue}
    ensures Search(CommentHead(access, kind, count, true, range), k) == if k == Range then Some(Str(range)) else None
  {
    var a := [Kid(Access, Str(access))];
    SearchOne(a[0], k);
    SearchJoin(a, [Kid(Type, Str(kind))], k);
    SearchOne(Kid(Type, Str(kind)), k);
    SearchJoin(a + [Kid(Type, Str(kind))], [Kid(Count, Int(count))], k);
    SearchOne(Kid(Count, Int(count)), k);
    SearchWhen(a + [Kid(Type, Str(kind))] + [Kid(Count, Int(count))], true, Range, Str(range), k);
  }

  lemma TailSearch(tlv: Option<string>, dB: Option<(int, int)>, gains: seq<int>, k: Key)
    requires k in {Range, DbMin, DbMax, DbValue}
    ensures Search(TlvKids(tlv, dB, gains), k) == if dB.None? || k == Range then None
            else if k == DbMin then Some(Int(dB.value.0))
            else if k == DbMax then Some(Int(dB.value.1)) else Some(Compound(GainKids(gains)))
  {
    var a := When(tlv.Some?, TlvText, Str(if tlv.Some? then tlv.value else ""));
    var lo, hi := Int(if dB.Some? then dB.value.0 else 0), Int(if dB.Some? then dB.value.1 else 0);
    if a != [] { SearchOne(a[0], k); }
    SearchWhen(a, dB.Some?, DbMin, lo, k);
    SearchWhen(a + When(dB.Some?, DbMin, lo), dB.Some?, DbMax, hi, k);
    SearchWhen(a + When(dB.Some?, DbMin, lo) + When(dB.Some?, DbMax, hi), dB.Some?, DbValue, Compound(GainKids(gains)), k);
  }

  /** On an unchanged element the values are restored as they are. */
  lemma RangeIsSame(i: Info, x: Extra, lax: bool)
    requires i.kind == Integer
    ensures CheckRange(i, CommentKids(i, x), lax) == Same
  {
    var range := RangeText(i.min, i.max, i.step);
    var kids := CommentHead(Tail(AccessWords(i)), KindName(i.kind), i.count, true, range) + TlvKids(x.tlv, i.dB, x.gains);
    CommentSearch(Tail(AccessWords(i)), KindName(i.kind), i.count, range, x.tlv, i.dB, x.gains);
    assert CommentKids(i, x) == kids + [] == kids;
    RangeComesBack(i.min, i.max, i.step);
    SameWhen(i, kids, lax, range);
  }

  lemma SameWhen(i: Info, kids: seq<Kid>, lax: bool, range: string)
    requires Search(kids, Range) == Some(Str(range)) && ScanRange(range) == Some((i.min, i.max))
    requires Search(kids, DbMin) == if i.dB.Some? then Some(Int(i.dB.value.0)) else None
    requires Search(kids, DbMax) == if i.dB.Some? then Some(Int(i.dB.value.1)) else None
    ensures CheckRange(i, kids, lax) == Same
  {
  }

  // ----- the conversion of values -----

  /** What the driver makes of decibels, rounding up or down. */
  type FromDb = (int, bool) -> Option<int>

  /** The decibels that were saved for the value of a name. */
  function SavedDb(comment: seq<Kid>, key: Key): Option<int> {
    var c := Search(comment, DbValue);
    if c.Some? && c.value.Compound? then
      var n := Search(c.value.kids, key);
      if n.Some? && n.value.Int? then Some(n.value.num) else None
    else None
  }

  /** The decibels of a value: those that were saved, or else, inside the old range, those at the same
      place of the old range in decibels. */
  function OldDb(n: Node, key: Key, comment: seq<Kid>, r: Ranges, lax: bool): Option<int>
    requires r.omin < r.omax
  {
    if SavedDb(comment, key).Some? then SavedDb(comment, key)
    else
      var v := ConfigInteger(n, false, lax);
      if v.None? || v.value < r.omin || v.value > r.omax then None
      else Some((v.value - r.omin) * (r.odbmax - r.odbmin) / (r.omax - r.omin) + r.odbmin)
  }

  function Clamp(v: int, min: int, max: int): int {
    if v < min then min else if v > max then max else v
  }

  /** convert_to_new_db: only a node that is an integer can be set. */
  function NewNode(n: Node, key: Key, comment: seq<Kid>, r: Ranges, fromDb: FromDb, lax: bool): Node
    requires r.omin < r.omax
  {
    var db := OldDb(n, key, comment, r, lax);
    if !n.Int? || db.None? then n
    else
      var v := fromDb(db.value, db.value > 0);
      if v.None? then n else Int(Clamp(v.value, r.nmin, r.nmax))
  }

  function NewKids(kids: seq<Kid>, comment: seq<Kid>, r: Ranges, fromDb: FromDb, lax: bool): (new': seq<Kid>)
    requires r.omin < r.omax
    ensures |new'| == |kids|
    ensures forall k :: 0 <= k < |kids| ==>
      new'[k] == Kid(kids[k].key, NewNode(kids[k].node, kids[k].key, comment, r, fromDb, lax))
  {
    if kids == [] then []
    else
      var n := |kids| - 1;
      NewKids(kids[..n], comment, r, fromDb, lax)
      + [Kid(kids[n].key, NewNode(kids[n].node, kids[n].key, comment, r, fromDb, lax))]
  }

  /** The node "value" afterwards; what is not a compound is looked up as the value of name 0. */
  function NewValue(value: Node, comment: seq<Kid>, r: Ranges, fromDb: FromDb, lax: bool): Node
    requires r.omin < r.omax
  {
    if value.Compound? then Compound(NewKids(value.kids, comment, r, fromDb, lax))
    else NewNode(value, NumKey(0), comment, r, fromDb, lax)
  }

  /** convert_to_new_db */
  method ConvertNode(n: Node, key: Key, comment: seq<Kid>, r: Ranges, fromDb: FromDb, lax: bool) returns (n': Node)
    requires r.omin < r.omax
    ensures n' == NewNode(n, key, comment, r, fromDb, lax)
  {
    n' := n;
    var db := SavedDb(comment, key);
    if db.None? {
      var val := ConfigInteger(n, false, lax);
      if val.None? || val.value < r.omin || val.value > r.omax { return; }
      db := Some((val.value - r.omin) * (r.odbmax - r.odbmin) / (r.omax - r.omin) + r.odbmin);
    }
    var val := fromDb(db.value, db.value > 0);
    if val.None? { return; }
    var v := val.value;
    if v < r.nmin { v := r.nmin; } else if v > r.nmax { v := r.nmax; }
    if n.Int? { n' := Int(v); }
  }

  /** The loop over the values in check_comment_range. */
  method ConvertValue(value: Node, comment: seq<Kid>, r: Ranges, fromDb: FromDb, lax: bool) returns (value': Node)
    requires r.omin < r.omax
    ensures value' == NewValue(value, comment, r, fromDb, lax)
  {
    if !value.Compound? {
      value' := ConvertNode(value, NumKey(0), comment, r, fromDb, lax);
      return;
    }
    var kids := [];
    for j := 0 to |value.kids|
      invariant kids == NewKids(value.kids[..j], comment, r, fromDb, lax)
    {
      var n := ConvertNode(value.kids[j].node, value.kids[j].key, comment, r, fromDb, lax);
      assert value.kids[..j + 1][..j] == value.kids[..j];
      kids := kids + [Kid(value.kids[j].key, n)];
    }
    assert value.kids[..|value.kids|] == value.kids;
    value' := Compound(kids);
  }

  // ----- converting twice -----

  /** The load of a state runs over the tree twice, and the first run converts it in place. What was
      saved in decibels is not converted any further by the second. */
  predicate Kept(value: Node, comment: seq<Kid>) {
    if value.Compound? then
      forall k :: 0 <= k < |value.kids| && value.kids[k].node.Int? ==> SavedDb(comment, value.kids[k].key).Some?
    else value.Int? ==> SavedDb(comment, NumKey(0)).Some?
  }

  lemma NewValueTwice(value: Node, comment: seq<Kid>, r: Ranges, fromDb: FromDb, lax: bool)
    requires r.omin < r.omax && Kept(value, comment)
    ensures NewValue(NewValue(value, comment, r, fromDb, false), comment, r, fromDb, lax)
         == NewValue(value, comment, r, fromDb, lax)
  {
    if value.Compound? {
      var once, kids := NewKids(value.kids, comment, r, fromDb, false), NewKids(value.kids, comment, r, fromDb, lax);
      var twice := NewKids(once, comment, r, fromDb, lax);
      forall k | 0 <= k < |value.kids|
        ensures twice[k] == kids[k]
      {
        assert once[k] == Kid(value.kids[k].key, NewNode(value.kids[k].node, value.kids[k].key, comment, r, fromDb, false));
      }
      assert twice == kids;
    }
  }

  /** The decibels at the place of a value in the old range. */
  function DbOf(v: int, r: Ranges): int
    requires r.omin < r.omax
  {
    (v - r.omin) * (r.odbmax - r.odbmin) / (r.omax - r.omin) + r.odbmin
  }

  predicate InBoth(v: int, r: Ranges) {
    r.omin <= v <= r.omax && r.nmin <= v <= r.nmax
  }

  /** Whatever the driver answers, a second conversion changes nothing. */
  ghost predicate AlwaysStable(n: Node, key: Key, comment: seq<Kid>, r: Ranges)
    requires r.omin < r.omax
  {
    forall fromDb: FromDb ::
      NewNode(NewNode(n, key, comment, r, fromDb, false), key, comment, r, fromDb, false)
      == NewNode(n, key, comment, r, fromDb, false)
  }

  /** That is so, exactly, if nothing is converted, if the decibels were saved, or if the values that the
      new range shares with the old one all have the decibels of this one. */
  lemma AlwaysStableIff(n: Node, key: Key, comment: seq<Kid>, r: Ranges)
    requires r.omin < r.omax && r.nmin < r.nmax
    ensures AlwaysStable(n, key, comment, r) <==>
      || !n.Int? || SavedDb(comment, key).Some? || n.num < r.omin || n.num > r.omax
      || forall w :: InBoth(w, r) ==> DbOf(w, r) == DbOf(n.num, r)
  {
    if n.Int? && SavedDb(comment, key).None? && r.omin <= n.num <= r.omax {
      if w :| InBoth(w, r) && DbOf(w, r) != DbOf(n.num, r) {
        var fromDb := OnceIsNotEnough(n, key, comment, r, w);
      } else {
        forall fromDb: FromDb
          ensures NewNode(NewNode(n, key, comment, r, fromDb, false), key, comment, r, fromDb, false)
               == NewNode(n, key, comment, r, fromDb, false)
        {
          OnceIsEnough(n, key, comment, r, fromDb);
        }
      }
    }
  }

  lemma OnceIsNotEnough(n: Node, key: Key, comment: seq<Kid>, r: Ranges, w: int) returns (fromDb: FromDb)
    requires r.omin < r.omax && r.nmin < r.nmax && n.Int? && SavedDb(comment, key).None? && r.omin <= n.num <= r.omax
    requires InBoth(w, r) && DbOf(w, r) != DbOf(n.num, r)
    ensures NewNode(NewNode(n, key, comment, r, fromDb, false), key, comment, r, fromDb, false)
         != NewNode(n, key, comment, r, fromDb, false)
  {
    var db, other := DbOf(n.num, r), if w == r.nmin then r.nmax else r.nmin;
    fromDb := (d: int, up: bool) => if d == db then Some(w) else Some(other);
    NewNodeIs(n, key, comment, r, fromDb, w);
    NewNodeIs(Int(w), key, comment, r, fromDb, other);
  }

  lemma NewNodeIs(n: Node, key: Key, comment: seq<Kid>, r: Ranges, fromDb: FromDb, v: int)
    requires r.omin < r.omax && n.Int? && SavedDb(comment, key).None? && r.omin <= n.num <= r.omax
    requires r.nmin <= v <= r.nmax && forall up: bool :: fromDb(DbOf(n.num, r), up) == Some(v)
    ensures NewNode(n, key, comment, r, fromDb, false) == Int(v)
  {
    assert OldDb(n, key, comment, r, false) == Some(DbOf(n.num, r));
  }

  lemma OnceIsEnough(n: Node, key: Key, comment: seq<Kid>, r: Ranges, fromDb: FromDb)
    requires r.omin < r.omax && r.nmin < r.nmax && n.Int? && SavedDb(comment, key).None? && r.omin <= n.num <= r.omax
    requires forall w :: InBoth(w, r) ==> DbOf(w, r) == DbOf(n.num, r)
    ensures NewNode(NewNode(n, key, comment, r, fromDb, false), key, comment, r, fromDb, false)
         == NewNode(n, key, comment, r, fromDb, false)
  {
    assert OldDb(n, key, comment, r, false) == Some(DbOf(n.num, r));
    var n' := NewNode(n, key, comment, r, fromDb, false);
    if n' != n && InBoth(n'.num, r) { assert DbOf(n'.num, r) == DbOf(n.num, r); }
  }

  lemma SearchGains(gains: seq<int>, k: nat)
    requires k < |gains|
    ensures Search(GainKids(gains), NumKey(k)) == Some(Int(gains[k]))
  {
    var kids := GainKids(gains);
    forall j | 0 <= j < k ensures kids[j].key != kids[k].key {
      NumStrInjective(j, k);
    }
    SearchAt(kids, k);
  }

  lemma GainsAreKept(i: Info, vals: seq<int>, comment: seq<Kid>, gains: seq<int>)
    requires GoodValues(i, vals) && i.kind == Integer && |gains| == |vals|
    requires Search(comment, DbValue) == Some(Compound(GainKids(gains)))
    ensures Kept(ValueNode(i, vals), comment)
  {
    forall k | 0 <= k < |vals|
      ensures SavedDb(comment, NumKey(k)) == Some(gains[k])
    {
      SearchGains(gains, k);
    }
  }

  // ----- the conversion, seen from what was saved and what the element is -----

  /** The range that was saved. */
  function RangeIn(comment: seq<Kid>): Option<(int, int)> {
    var n := Search(comment, Range);
    if n.Some? && n.value.Str? then ScanRange(n.value.text) else None
  }

  /** The range in decibels that was saved. */
  function DecibelsIn(comment: seq<Kid>, lax: bool): Option<(int, int)> {
    var lo, hi := Search(comment, DbMin), Search(comment, DbMax);
    if lo.None? || hi.None? then None
    else
      var a, b := ConfigInteger(lo.value, false, lax), ConfigInteger(hi.value, false, lax);
      if a.None? || b.None? then None else Some((a.value, b.value))
  }

  /** Both ends of the range are different now. */
  predicate BothEndsMoved(i: Info, comment: seq<Kid>) {
    i.kind == Integer && RangeIn(comment).Some? && RangeIn(comment).value.0 != i.min && RangeIn(comment).value.1 != i.max
  }

  /** Both ranges were saved, the element has both, none of the four is empty, and one of the two is
      different now. */
  predicate RangeChanged(i: Info, comment: seq<Kid>, lax: bool) {
    var was, dB := RangeIn(comment), DecibelsIn(comment, lax);
    && i.kind == Integer && was.Some? && dB.Some? && i.dB.Some?
    && was.value.0 < was.value.1 && i.min < i.max && dB.value.0 < dB.value.1 && i.dB.value.0 < i.dB.value.1
    && !(was.value.0 == i.min && was.value.1 == i.max && dB == i.dB)
  }

  /** The decibels of a value: what was saved for it, or, if nothing was and it lies in the saved range,
      those that divide the saved range in decibels as it divides that range, rounded down. */
  predicate HasDecibels(db: int, v: int, key: Key, comment: seq<Kid>, was: (int, int), dB: (int, int)) {
    var saved := Search(comment, DbValue);
    var one := if saved.Some? && saved.value.Compound? then Search(saved.value.kids, key) else None;
    if one.Some? && one.value.Int? then db == one.value.num
    else
      && was.0 <= v <= was.1
      && (db - dB.0) * (was.1 - was.0) <= (v - was.0) * (dB.1 - dB.0) < (db - dB.0 + 1) * (was.1 - was.0)
  }

  /** In the range of the element no value is nearer to what the driver has answered. */
  predicate Nearest(v: int, i: Info, answer: Option<int>) {
    && answer.Some? && i.min <= v <= i.max
    && (i.min <= answer.value <= i.max ==> v == answer.value)
    && (answer.value < i.min ==> v == i.min)
    && (answer.value > i.max ==> v == i.max)
  }

  /** What becomes of one value. */
  ghost predicate Moved(n: Node, n': Node, key: Key, i: Info, comment: seq<Kid>, fromDb: FromDb, was: (int, int), dB: (int, int)) {
    if n.Int? && exists db :: HasDecibels(db, n.num, key, comment, was, dB) && fromDb(db, db > 0).Some? then
      && n'.Int?
      && forall db :: HasDecibels(db, n.num, key, comment, was, dB) ==> Nearest(n'.num, i, fromDb(db, db > 0))
    else n' == n
  }

  /** What becomes of all values of an element; a value that is not a compound goes by the name 0. */
  ghost predicate AllMoved(value: Node, value': Node, i: Info, comment: seq<Kid>, fromDb: FromDb, was: (int, int), dB: (int, int)) {
    if value.Compound? then
      && value'.Compound? && |value'.kids| == |value.kids|
      && forall k :: 0 <= k < |value.kids| ==>
           && value'.kids[k].key == value.kids[k].key
           && Moved(value.kids[k].node, value'.kids[k].node, value.kids[k].key, i, comment, fromDb, was, dB)
    else Moved(value, value', NumKey(0), i, comment, fromDb, was, dB)
  }

  /** When the range of an element is a reason to refuse its values, and when to convert them. */
  lemma RangeDecides(i: Info, comment: seq<Kid>, lax: bool)
    requires i.kind == Integer
    ensures CheckRange(i, comment, lax) == Mismatch <==> BothEndsMoved(i, comment) && !lax
    ensures CheckRange(i, comment, lax).Converted? <==>
              RangeChanged(i, comment, lax) && !(BothEndsMoved(i, comment) && !lax)
    ensures CheckRange(i, comment, lax).Converted? ==>
              var was, dB := RangeIn(comment).value, DecibelsIn(comment, lax).value;
              CheckRange(i, comment, lax).ranges == Ranges(was.0, was.1, i.min, i.max, dB.0, dB.1)
  {
  }

  /** Rounding down has one result. */
  lemma Quotient(a: int, b: int, q: int)
    requires 0 < b
    ensures q == a / b <==> q * b <= a < (q + 1) * b
  {
    var d := a / b;
    assert d * b <= a < (d + 1) * b;
    if q < d { LessEqual(q + 1, d, b); }
    if q > d { LessEqual(d + 1, q, b); }
  }

  lemma LessEqual(x: int, y: int, b: int)
    requires x <= y && 0 < b
    ensures x * b <= y * b
  {
  }

  lemma OldDbIff(n: Node, key: Key, comment: seq<Kid>, r: Ranges, lax: bool, db: int)
    requires r.omin < r.omax && n.Int?
    ensures OldDb(n, key, comment, r, lax) == Some(db)
       <==> HasDecibels(db, n.num, key, comment, (r.omin, r.omax), (r.odbmin, r.odbmax))
  {
    Quotient((n.num - r.omin) * (r.odbmax - r.odbmin), r.omax - r.omin, db - r.odbmin);
  }

  lemma NodeMoved(n: Node, key: Key, i: Info, comment: seq<Kid>, r: Ranges, fromDb: FromDb, lax: bool)
    requires r.omin < r.omax && r.nmin == i.min < r.nmax == i.max
    ensures Moved(n, NewNode(n, key, comment, r, fromDb, lax), key, i, comment, fromDb, (r.omin, r.omax), (r.odbmin, r.odbmax))
  {
    if n.Int? {
      forall db
        ensures OldDb(n, key, comment, r, lax) == Some(db)
           <==> HasDecibels(db, n.num, key, comment, (r.omin, r.omax), (r.odbmin, r.odbmax))
      {
        OldDbIff(n, key, comment, r, lax, db);
      }
      if OldDb(n, key, comment, r, lax).Some? {
        assert HasDecibels(OldDb(n, key, comment, r, lax).value, n.num, key, comment, (r.omin, r.omax), (r.odbmin, r.odbmax));
      }
    }
  }

  /** Every integer that is converted becomes the value of the element that is nearest to what the driver
      answers for its decibels; the others stay. */
  lemma ValueMoved(value: Node, i: Info, comment: seq<Kid>, r: Ranges, fromDb: FromDb, lax: bool)
    requires r.omin < r.omax && r.nmin == i.min < r.nmax == i.max
    ensures AllMoved(value, NewValue(value, comment, r, fromDb, lax), i, comment, fromDb, (r.omin, r.omax), (r.odbmin, r.odbmax))
  {
    if value.Compound? {
      forall k | 0 <= k < |value.kids|
        ensures Moved(value.kids[k].node, NewNode(value.kids[k].node, value.kids[k].key, comment, r, fromDb, lax),
                      value.kids[k].key, i, comment, fromDb, (r.omin, r.omax), (r.odbmin, r.odbmax))
      {
        NodeMoved(value.kids[k].node, value.kids[k].key, i, comment, r, fromDb, lax);
      }
    } else {
      NodeMoved(value, NumKey(0), i, comment, r, fromDb, lax);
    }
  }
}
