/** The streaming JSON renderer of alsaucm. It prints as it goes and only remembers, for each level
    of nesting, whether something has been printed there. */
module UcmDump {
  import opened Options
  import opened TextFacts
  import opened Json

  // ----- what the use case manager tells -----

  datatype Device = Device(name: string, comment: Option<string>, supported: seq<string>,
                           conflicting: seq<string>, values: seq<(string, string)>)

  datatype Modifier = Modifier(name: string, comment: Option<string>)

  datatype Verb = Verb(name: string, comment: Option<string>, devices: seq<Device>, modifiers: seq<Modifier>)

  // ----- what jesc keeps of a string -----

  const BUFFER: nat := 256

  /** Every quotation mark takes two from a counter of the free space, which starts at 255; the others
      take nothing. So the string is cut off in front of a quotation mark behind 126 others. */
  const MAX_QUOTES: nat := 126

  function ShownFrom(s: string, quotes: nat): (r: string)
    ensures |r| <= |s|
  {
    if s == "" || (s[0] == QUOTE && quotes == MAX_QUOTES) then ""
    else [s[0]] + ShownFrom(s[1..], if s[0] == QUOTE then quotes + 1 else quotes)
  }

  function Shown(s: string): string {
    ShownFrom(s, 0)
  }

  /** How many characters jesc writes: what is kept of the string, with its escapes, two quotation marks
      and the terminating zero. */
  function Size(s: string): nat {
    |Shown(s)| + Quotes(Shown(s)) + 3
  }

  predicate Fits(s: string) {
    Size(s) <= BUFFER
  }

  lemma {:induction false} ShownIffFewQuotes(s: string, quotes: nat)
    requires quotes <= MAX_QUOTES
    ensures ShownFrom(s, quotes) == s <==> quotes + Quotes(s) <= MAX_QUOTES
  {
    if s != "" && !(s[0] == QUOTE && quotes == MAX_QUOTES) {
      ShownIffFewQuotes(s[1..], if s[0] == QUOTE then quotes + 1 else quotes);
      assert s == [s[0]] + s[1..];
    }
  }

  // ----- the tree it stands for -----

  /** A missing or empty comment is left out. */
  function CommentTree(comment: Option<string>): seq<Member> {
    if comment.Some? && comment.value != "" then [Member("Comment", Str(Shown(comment.value)))] else []
  }

  function Strings(l: seq<string>): (items: seq<Value>)
    ensures |items| == |l|
  {
    if l == [] then [] else Strings(l[..|l| - 1]) + [Str(Shown(l[|l| - 1]))]
  }

  /** The two lists of devices, which have the same renderer but for the key. */
  datatype ListKind = Supported | Conflicting

  function Key(kind: ListKind): string {
    match kind
    case Supported => "SupportedDevices"
    case Conflicting => "ConflictingDevices"
  }

  /** An empty list is left out. */
  function ListTree(kind: ListKind, l: seq<string>): seq<Member> {
    if l == [] then [] else [Member(Key(kind), Arr(Strings(l)))]
  }

  function Pairs(values: seq<(string, string)>): seq<Member> {
    if values == [] then []
    else
      var (ident, value) := values[|values| - 1];
      Pairs(values[..|values| - 1]) + [Member(Shown(ident), Str(Shown(value)))]
  }

  function ValuesTree(values: seq<(string, string)>): seq<Member> {
    if values == [] then [] else [Member("Values", Obj(Pairs(values)))]
  }

  function DeviceMembers(d: Device): seq<Member> {
    CommentTree(d.comment) + ListTree(Supported, d.supported)
    + ListTree(Conflicting, d.conflicting) + ValuesTree(d.values)
  }

  function DeviceTree(d: Device): Member {
    Member(Shown(d.name), Obj(DeviceMembers(d)))
  }

  function DeviceTrees(ds: seq<Device>): seq<Member> {
    if ds == [] then [] else DeviceTrees(ds[..|ds| - 1]) + [DeviceTree(ds[|ds| - 1])]
  }

  function ModifierTree(m: Modifier): Member {
    Member(Shown(m.name), Obj(CommentTree(m.comment)))
  }

  function ModifierTrees(ms: seq<Modifier>): seq<Member> {
    if ms == [] then [] else ModifierTrees(ms[..|ms| - 1]) + [ModifierTree(ms[|ms| - 1])]
  }

  /** The two blocks of a verb. */
  datatype BlockKind = DevicesBlock | ModifiersBlock

  function BlockKey(kind: BlockKind): string {
    match kind
    case DevicesBlock => "Devices"
    case ModifiersBlock => "Modifiers"
  }

  /** A block of named objects, left out if there are none. */
  function BlockTree(kind: BlockKind, ms: seq<Member>): seq<Member> {
    if ms == [] then [] else [Member(BlockKey(kind), Obj(ms))]
  }

  function VerbMembers(v: Verb): seq<Member> {
    CommentTree(v.comment) + BlockTree(DevicesBlock, DeviceTrees(v.devices))
    + BlockTree(ModifiersBlock, ModifierTrees(v.modifiers))
  }

  function VerbTree(v: Verb): Member {
    Member(Shown(v.name), Obj(VerbMembers(v)))
  }

  function VerbTrees(vs: seq<Verb>): seq<Member> {
    if vs == [] then [] else VerbTrees(vs[..|vs| - 1]) + [VerbTree(vs[|vs| - 1])]
  }

  function Tree(verbs: seq<Verb>): Value {
    Obj([Member("Verbs", Obj(VerbTrees(verbs)))])
  }

  // ----- which strings can be printed -----

  predicate CommentFits(comment: Option<string>) {
    comment.Some? ==> Fits(comment.value)
  }

  predicate AllFit(l: seq<string>) {
    l == [] || (AllFit(l[..|l| - 1]) && Fits(l[|l| - 1]))
  }

  predicate PairFits(value: (string, string)) {
    Fits(value.0) && Fits(value.1)
  }

  predicate PairsFit(values: seq<(string, string)>) {
    values == [] || (PairsFit(values[..|values| - 1]) && PairFits(values[|values| - 1]))
  }

  predicate DeviceListsFit(d: Device) {
    AllFit(d.supported) && AllFit(d.conflicting) && PairsFit(d.values)
  }

  predicate DeviceFits(d: Device) {
    Fits(d.name) && CommentFits(d.comment) && DeviceListsFit(d)
  }

  predicate DevicesFit(ds: seq<Device>) {
    ds == [] || (DevicesFit(ds[..|ds| - 1]) && DeviceFits(ds[|ds| - 1]))
  }

  predicate ModifierFits(m: Modifier) {
    Fits(m.name) && CommentFits(m.comment)
  }

  predicate ModifiersFit(ms: seq<Modifier>) {
    ms == [] || (ModifiersFit(ms[..|ms| - 1]) && ModifierFits(ms[|ms| - 1]))
  }

  predicate VerbFits(v: Verb) {
    Fits(v.name) && CommentFits(v.comment) && DevicesFit(v.devices) && ModifiersFit(v.modifiers)
  }

  predicate VerbsFit(vs: seq<Verb>) {
    vs == [] || (VerbsFit(vs[..|vs| - 1]) && VerbFits(vs[|vs| - 1]))
  }

  // ----- lemmas about the printer -----

  lemma {:induction false} MembersJoin(a: seq<Member>, b: seq<Member>, indent: nat, more: bool)
    ensures PrintMembers(a + b, indent, more)
         == PrintMembers(a, indent, more) + PrintMembers(b, indent, more || a != [])
  {
    if a == [] {
      assert a + b == b;
      assert "" + PrintMembers(b, indent, more) == PrintMembers(b, indent, more);
    } else {
      assert (a + b)[1..] == a[1..] + b;
      MembersJoin(a[1..], b, indent, true);
      Assoc(Line(more, indent) + PrintMember(a[0], indent), PrintMembers(a[1..], indent, true), PrintMembers(b, indent, true));
    }
  }

  lemma {:induction false} ItemsJoin(a: seq<Value>, b: seq<Value>, indent: nat, more: bool)
    ensures PrintItems(a + b, indent, more)
         == PrintItems(a, indent, more) + PrintItems(b, indent, more || a != [])
  {
    if a == [] {
      assert a + b == b;
      assert "" + PrintItems(b, indent, more) == PrintItems(b, indent, more);
    } else {
      assert (a + b)[1..] == a[1..] + b;
      ItemsJoin(a[1..], b, indent, true);
      Assoc(Line(more, indent) + Print(a[0], indent), PrintItems(a[1..], indent, true), PrintItems(b, indent, true));
    }
  }

  lemma SpacesAre()
    ensures Spaces(2) == "  " && Spaces(4) == "    " && Spaces(6) == "      "
    ensures Spaces(8) == "        " && Spaces(10) == "          " && Spaces(12) == "            "
  {
    assert Spaces(2) == "  ";
    assert Spaces(4) == "    ";
    assert Spaces(6) == "      ";
    assert Spaces(8) == "        ";
    assert Spaces(10) == "          ";
  }

  function Sep(more: bool): string {
    if more then ",\n" else "\n"
  }

  /** The start of a member that is an object or an array. */
  function Open(key: string, bracket: char, indent: nat, more: bool): string {
    Line(more, indent) + Quoted(key) + [':', ' ', bracket]
  }

  function Close(bracket: char, indent: nat): string {
    Line(false, indent) + [bracket]
  }

  lemma Glue(line: string, key: string, open: char, inner: string, close: string, bracket: char)
    ensures line + (key + ": " + ([open] + inner + close + [bracket]))
         == line + key + [':', ' ', open] + inner + (close + [bracket])
  {
    assert [':', ' ', open] == ": " + [open];
  }

  lemma OneMember(m: Member, indent: nat, more: bool)
    ensures PrintMembers([m], indent, more) == Line(more, indent) + PrintMember(m, indent)
  {
    assert [m][1..] == [];
  }

  lemma BlockText(key: string, ms: seq<Member>, indent: nat, more: bool)
    ensures PrintMembers([Member(key, Obj(ms))], indent, more)
         == Open(key, '{', indent, more) + PrintMembers(ms, indent + 2, false) + Close('}', indent)
  {
    OneMember(Member(key, Obj(ms)), indent, more);
    Glue(Line(more, indent), Quoted(key), '{', PrintMembers(ms, indent + 2, false), Line(false, indent), '}');
  }

  lemma ArrayText(key: string, items: seq<Value>, indent: nat, more: bool)
    ensures PrintMembers([Member(key, Arr(items))], indent, more)
         == Open(key, '[', indent, more) + PrintItems(items, indent + 2, false) + Close(']', indent)
  {
    OneMember(Member(key, Arr(items)), indent, more);
    Glue(Line(more, indent), Quoted(key), '[', PrintItems(items, indent + 2, false), Line(false, indent), ']');
  }

  lemma StringText(key: string, text: string, indent: nat, more: bool)
    ensures PrintMembers([Member(key, Str(text))], indent, more)
         == Line(more, indent) + (Quoted(key) + ": " + Quoted(text))
  {
    OneMember(Member(key, Str(text)), indent, more);
  }

  // ----- jesc -----

  lemma {:induction false} EscapedSplit(s: string, i: nat)
    requires i < |s|
    ensures Escaped(s[..i + 1]) == Escaped(s[..i]) + if s[i] == QUOTE then [BACKSLASH, QUOTE] else [s[i]]
    ensures Quotes(s[..i + 1]) == Quotes(s[..i]) + if s[i] == QUOTE then 1 else 0
  {
    if i > 0 {
      EscapedSplit(s[1..], i - 1);
      assert s[..i + 1][1..] == s[1..][..i] && s[..i][1..] == s[1..][..i - 1];
    } else {
      assert s[..1] == [s[0]] && s[..0] == [] && [s[0]][1..] == [];
    }
  }

  /** What is written of a string up to position `i`. */
  function Written(s: string, i: nat): string
    requires i <= |s|
  {
    [QUOTE] + Escaped(s[..i])
  }

  lemma WrittenStep(s: string, i: nat)
    requires i < |s|
    ensures Written(s, i + 1) == Written(s, i) + if s[i] == QUOTE then [BACKSLASH, QUOTE] else [s[i]]
  {
    EscapedSplit(s, i);
    var e := Escaped(s[..i]);
    if s[i] == QUOTE { Assoc([QUOTE], e, [BACKSLASH, QUOTE]); } else { Assoc([QUOTE], e, [s[i]]); }
  }

  lemma {:induction false} QuotesJoin(a: string, b: string)
    ensures Quotes(a + b) == Quotes(a) + Quotes(b)
  {
    if a == "" {
      assert a + b == b;
    } else {
      assert (a + b)[1..] == a[1..] + b;
      QuotesJoin(a[1..], b);
    }
  }

  /** What is shown begins with the first `i` characters; what else is shown depends on the number of
      quotation marks in them. */
  predicate ShownSoFar(s: string, i: nat) {
    i <= |s| && Quotes(s[..i]) <= MAX_QUOTES && Shown(s) == s[..i] + ShownFrom(s[i..], Quotes(s[..i]))
  }

  lemma ShownStart(s: string)
    ensures ShownSoFar(s, 0)
  {
    assert s[0..] == s && s[..0] == "";
  }

  lemma ShownStep(s: string, i: nat)
    requires ShownSoFar(s, i) && i < |s|
    ensures if s[i] == QUOTE && Quotes(s[..i]) == MAX_QUOTES then Shown(s) == s[..i] else ShownSoFar(s, i + 1)
  {
    EscapedSplit(s, i);
    assert s[i..][1..] == s[i + 1..];
    var more := ShownFrom(s[i..], Quotes(s[..i]));
    if more != "" {
      assert s[..i] + ([s[i]] + more[1..]) == s[..i + 1] + more[1..];
    }
  }

  lemma Room(s: string, i: nat)
    requires ShownSoFar(s, i)
    ensures i + Quotes(s[..i]) <= |Shown(s)| + Quotes(Shown(s))
  {
    QuotesJoin(s[..i], ShownFrom(s[i..], Quotes(s[..i])));
  }

  /** One or two characters behind those written. */
  method Write(s: string, i: nat, buf: array<char>, n: nat, quote: bool) returns (n': nat)
    requires i < |s| && quote == (s[i] == QUOTE) && n + 2 < buf.Length && buf[..n] == Written(s, i)
    modifies buf
    ensures n' == n + (if quote then 2 else 1) && buf[..n'] == Written(s, i + 1)
    ensures buf[n'..] == old(buf[n'..])
  {
    WrittenStep(s, i);
    n' := n;
    if quote {
      buf[n'] := BACKSLASH;
      n' := n' + 1;
    }
    buf[n'] := s[i];
    n' := n' + 1;
  }

  /** One turn of the loop of jesc; `stop` tells that it ended in a break. */
  method Step(s: string, i: nat, buf: array<char>, n: nat, left: int) returns (n': nat, left': int, stop: bool)
    requires Size(s) <= buf.Length && i < |s| && ShownSoFar(s, i)
    requires n == 1 + i + Quotes(s[..i]) && left == BUFFER - 1 - 2 * Quotes(s[..i]) && n + 2 <= Size(s)
    requires buf[..n] == Written(s, i)
    modifies buf
    ensures stop <==> s[i] == QUOTE && Quotes(s[..i]) == MAX_QUOTES
    ensures stop ==> n' == n && buf[..] == old(buf[..])
    ensures buf[Size(s)..] == old(buf[Size(s)..])
    ensures !stop ==> ShownSoFar(s, i + 1) && n' == 2 + i + Quotes(s[..i + 1]) && n' + 2 <= Size(s)
    ensures !stop ==> left' == BUFFER - 1 - 2 * Quotes(s[..i + 1]) && buf[..n'] == Written(s, i + 1)
  {
    n', left', stop := n, left, s[i] == QUOTE && left <= 3;
    ShownStep(s, i);
    EscapedSplit(s, i);
    if stop { return; }
    Room(s, i + 1);
    n' := Write(s, i, buf, n, s[i] == QUOTE);
    if s[i] == QUOTE { left' := left - 2; }
  }

  /** jesc: puts what is shown of the string in quotation marks, with a backslash in front of those
      inside. It counts on a buffer of 256 characters; `buf` stands for that and for the memory behind
      it, where it writes if and only if the string does not fit. */
  method Jesc(s: string, buf: array<char>) returns (n: nat)
    requires Size(s) <= buf.Length
    modifies buf
    ensures n + 1 == Size(s) && (n + 1 <= BUFFER <==> Fits(s))
    ensures buf[..n] == Quoted(Shown(s)) && buf[n] == '\0' && buf[n + 1..] == old(buf[n + 1..])
  {
    var left: int, i: nat := BUFFER - 1, 0;
    buf[0] := QUOTE;
    n := 1;
    assert buf[..1] == Written(s, 0);
    ShownStart(s);
    while i < |s| && left > 2
      invariant ShownSoFar(s, i) && n == 1 + i + Quotes(s[..i]) && left == BUFFER - 1 - 2 * Quotes(s[..i])
      invariant n + 2 <= Size(s) && buf[..n] == Written(s, i) && buf[Size(s)..] == old(buf[Size(s)..])
    {
      var stop;
      n, left, stop := Step(s, i, buf, n, left);
      if stop { break; }
      i := i + 1;
    }
    AllShown(s, i);
    buf[n] := QUOTE;
    n := n + 1;
    buf[n] := '\0';
  }

  lemma AllShown(s: string, i: nat)
    requires ShownSoFar(s, i) && (i == |s| || (s[i] == QUOTE && Quotes(s[..i]) == MAX_QUOTES))
    ensures Written(s, i) + [QUOTE] == Quoted(Shown(s)) && i + Quotes(s[..i]) + 3 == Size(s)
  {
    if i < |s| { ShownStep(s, i); }
    assert s[..i] == Shown(s);
  }

  // ----- the renderer -----

  lemma {:induction false} PlainText(s: string)
    requires QUOTE !in s
    ensures Escaped(s) == s
  {
    if s != [] { PlainText(s[1..]); }
  }

  lemma PlainKey(s: string)
    requires QUOTE !in s
    ensures Quoted(s) == [QUOTE] + s + [QUOTE]
  {
    PlainText(s);
  }

  /** Text that has grown by `t` grows by `u`. */
  lemma Grow(base: string, t: string, u: string)
    ensures base + t + u == base + (t + u)
  {
  }

  /** The state of the renderer. */
  datatype Shot = Shot(out: string, block: seq<bool>, overran: bool)

  /** The first `i` devices have been printed since the renderer was in state `was`. */
  ghost predicate DevicesDone(now: Shot, was: Shot, ds: seq<Device>, i: nat) {
    && i <= |ds| && |was.block| == 5
    && now.out == was.out + PrintMembers(DeviceTrees(ds[..i]), 8, false)
    && now.block == was.block[2 := i > 0]
    && now.overran == (was.overran || !DevicesFit(ds[..i]))
  }

  lemma DeviceDone(now': Shot, now: Shot, was: Shot, ds: seq<Device>, i: nat)
    requires i < |ds| && DevicesDone(now, was, ds, i)
    requires now'.out == now.out + PrintMembers([DeviceTree(ds[i])], 8, now.block[2])
    requires now'.block == now.block[2 := true] && now'.overran == (now.overran || !DeviceFits(ds[i]))
    ensures DevicesDone(now', was, ds, i + 1)
  {
    DeviceStep(was.out, ds, i);
  }

  lemma AllDevicesDone(now: Shot, was: Shot, ds: seq<Device>)
    requires DevicesDone(now, was, ds, |ds|)
    ensures now.out == was.out + PrintMembers(DeviceTrees(ds), 8, false)
    ensures now.block == was.block[2 := ds != []] && now.overran == (was.overran || !DevicesFit(ds))
  {
    assert ds[..|ds|] == ds;
  }

  ghost predicate ModifiersDone(now: Shot, was: Shot, ms: seq<Modifier>, i: nat) {
    && i <= |ms| && |was.block| == 5
    && now.out == was.out + PrintMembers(ModifierTrees(ms[..i]), 8, false)
    && now.block == was.block[2 := i > 0]
    && now.overran == (was.overran || !ModifiersFit(ms[..i]))
  }

  lemma ModifierDone(now': Shot, now: Shot, was: Shot, ms: seq<Modifier>, i: nat)
    requires i < |ms| && ModifiersDone(now, was, ms, i)
    requires now'.out == now.out + PrintMembers([ModifierTree(ms[i])], 8, now.block[2])
    requires now'.block == now.block[2 := true] && now'.overran == (now.overran || !ModifierFits(ms[i]))
    ensures ModifiersDone(now', was, ms, i + 1)
  {
    ModifierStep(was.out, ms, i);
  }

  lemma AllModifiersDone(now: Shot, was: Shot, ms: seq<Modifier>)
    requires ModifiersDone(now, was, ms, |ms|)
    ensures now.out == was.out + PrintMembers(ModifierTrees(ms), 8, false)
    ensures now.block == was.block[2 := ms != []] && now.overran == (was.overran || !ModifiersFit(ms))
  {
    assert ms[..|ms|] == ms;
  }

  ghost predicate VerbsDone(now: Shot, was: Shot, verbs: seq<Verb>, i: nat) {
    && i <= |verbs|
    && now.out == was.out + PrintMembers(VerbTrees(verbs[..i]), 4, false)
    && now.block == [i > 0, false, false, false, false]
    && now.overran == (was.overran || !VerbsFit(verbs[..i]))
  }

  lemma VerbDone(now': Shot, now: Shot, was: Shot, verbs: seq<Verb>, i: nat)
    requires i < |verbs| && VerbsDone(now, was, verbs, i)
    requires now'.out == now.out + PrintMembers([VerbTree(verbs[i])], 4, now.block[0])
    requires now'.block == now.block[0 := true] && now'.overran == (now.overran || !VerbFits(verbs[i]))
    ensures VerbsDone(now', was, verbs, i + 1)
  {
    VerbStep(was.out, verbs, i);
  }

  lemma AllVerbsDone(now: Shot, was: Shot, verbs: seq<Verb>)
    requires VerbsDone(now, was, verbs, |verbs|)
    ensures now.out == was.out + PrintMembers(VerbTrees(verbs), 4, false)
    ensures now.block == [verbs != [], false, false, false, false] && now.overran == (was.overran || !VerbsFit(verbs))
  {
    assert verbs[..|verbs|] == verbs;
  }

  class Renderer {
    var out: string
    var block: seq<bool>
    var overran: bool  // jesc has written behind its buffer

    ghost predicate Valid()
      reads this
    {
      |block| == 5
    }

    constructor ()
      ensures Valid() && out == "" && block == [false, false, false, false, false] && !overran
    {
      out, block, overran := "", [false, false, false, false, false], false;
    }

    ghost function Now(): Shot
      reads this
    {
      Shot(out, block, overran)
    }

    /** printf */
    method Put(t: string)
      modifies this`out
      ensures out == old(out) + t
    {
      out := out + t;
    }

    /** json_block */
    method Block(level: nat, last: bool)
      requires Valid() && level < 5
      modifies this`out, this`block
      ensures out == old(out) + Sep(old(block[level]) && !last)
      ensures block == old(block)[level := !last]
    {
      Put(Sep(block[level] && !last));
      block := block[level := !last];
    }

    /** A new line at a level, with what is printed there. */
    method Item(level: nat, t: string, ghost indent: nat, ghost text: string)
      requires Valid() && level < 5 && t == Spaces(indent) + text
      modifies this`out, this`block
      ensures out == old(out) + (Line(old(block[level]), indent) + text)
      ensures block == old(block)[level := true]
    {
      ghost var base, sep := out, Sep(block[level]);
      Block(level, false);
      Put(t);
      assert base + sep + (Spaces(indent) + text) == base + ((sep + Spaces(indent)) + text);
    }

    /** The end of a block. */
    method End(level: nat, t: string, ghost indent: nat, ghost bracket: char)
      requires Valid() && level < 5 && t == Spaces(indent) + [bracket]
      modifies this`out, this`block
      ensures out == old(out) + Close(bracket, indent)
      ensures block == old(block)[level := false]
    {
      ghost var base := out;
      Block(level, true);
      Put(t);
      assert base + "\n" + (Spaces(indent) + [bracket]) == base + (("\n" + Spaces(indent)) + [bracket]);
    }

    method Escape(s: string) returns (r: string)
      modifies this`overran
      ensures r == Quoted(Shown(s)) && overran == (old(overran) || !Fits(s))
    {
      var buf := new char[BUFFER + Size(s)];
      var n := Jesc(s, buf);
      if n + 1 > BUFFER { overran := true; }
      r := buf[..n];
    }

    method Comment(level: nat, spaces: string, comment: Option<string>, ghost indent: nat)
      requires Valid() && level < 5 && !block[level] && spaces == Spaces(indent)
      modifies this
      ensures out == old(out) + PrintMembers(CommentTree(comment), indent, false)
      ensures block == old(block)[level := CommentTree(comment) != []]
      ensures overran == (old(overran) || !CommentFits(comment))
    {
      if comment.Some? && comment.value != "" {
        var r := Escape(comment.value);
        CommentText(Shown(comment.value), indent);
        Grow(spaces, "\"Comment\": ", r);
        Item(level, spaces + "\"Comment\": " + r, indent, "\"Comment\": " + r);
      }
    }

    /** json_supcon_value for all values of a list */
    method ListValues(l: seq<string>)
      requires Valid() && !block[4]
      modifies this
      ensures out == old(out) + PrintItems(Strings(l), 12, false)
      ensures block == old(block)[4 := l != []]
      ensures overran == (old(overran) || !AllFit(l))
    {
      SpacesAre();
      ghost var base, b := out, block;
      for i := 0 to |l|
        invariant out == base + PrintItems(Strings(l[..i]), 12, false)
        invariant block == b[4 := i > 0] && overran == (old(overran) || !AllFit(l[..i]))
      {
        ListStep(base, l, i);
        var r := Escape(l[i]);
        Item(4, "            " + r, 12, r);
      }
      assert l[..|l|] == l;
    }

    /** The first line of a member of a device. */
    method FieldStart(text: string, ghost key: string, ghost bracket: char)
      requires Valid() && QUOTE !in key && text == [QUOTE] + key + [QUOTE, ':', ' ', bracket]
      modifies this`out, this`block
      ensures out == old(out) + Open(key, bracket, 10, old(block[3]))
      ensures block == old(block)[3 := true]
    {
      SpacesAre();
      OpenText(key, bracket, 10, block[3]);
      Item(3, "          " + text, 10, text);
    }

    /** json_sup_start and json_con_start */
    method SupconStart(kind: ListKind)
      requires Valid()
      modifies this`out, this`block
      ensures out == old(out) + Open(Key(kind), '[', 10, old(block[3]))
      ensures block == old(block)[3 := true]
    {
      var text := if kind == Supported then "\"SupportedDevices\": [" else "\"ConflictingDevices\": [";
      KeyParts(kind, text);
      FieldStart(text, Key(kind), '[');
    }

    /** A non-empty list of render_devlist. */
    method PrintList(kind: ListKind, l: seq<string>)
      requires Valid() && !block[4]
      requires l != []
      modifies this
      ensures out == old(out) + PrintMembers(ListTree(kind, l), 10, old(block[3]))
      ensures block == old(block)[3 := true]
      ensures overran == (old(overran) || !AllFit(l))
    {
      ghost var base, more := out, block[3];
      SpacesAre();
      SupconStart(kind);
      ListValues(l);
      End(4, "          ]", 10, ']');
      WrappedArray(base, Key(kind), Strings(l), 10, more);
    }

    /** render_devlist */
    method RenderDevlist(kind: ListKind, l: seq<string>, ghost before: seq<Member>, ghost base: string)
      requires Valid() && !block[4]
      requires out == base + PrintMembers(before, 10, false) && block[3] == (before != [])
      modifies this
      ensures out == base + PrintMembers(before + ListTree(kind, l), 10, false)
      ensures block == old(block)[3 := before + ListTree(kind, l) != []]
      ensures overran == (old(overran) || !AllFit(l))
    {
      JoinMore(base, before, ListTree(kind, l), 10);
      if |l| > 0 { PrintList(kind, l); }
    }

    method ValueList(values: seq<(string, string)>)
      requires Valid() && !block[4]
      modifies this
      ensures out == old(out) + PrintMembers(Pairs(values), 12, false)
      ensures block == old(block)[4 := values != []]
      ensures overran == (old(overran) || !PairsFit(values))
    {
      SpacesAre();
      ghost var base, b := out, block;
      for i := 0 to |values|
        invariant out == base + PrintMembers(Pairs(values[..i]), 12, false)
        invariant block == b[4 := i > 0] && overran == (old(overran) || !PairsFit(values[..i]))
      {
        PairStep(base, values, i);
        var r := Escape(values[i].0);
        var t := Escape(values[i].1);
        Grow("            ", r + ": ", t);
        Item(4, "            " + (r + ": ") + t, 12, r + ": " + t);
      }
      assert values[..|values|] == values;
    }

    /** json_value_end */
    method ValueEnd(ghost base: string, ghost key: string, ghost ms: seq<Member>, ghost more: bool)
      requires Valid() && out == base + Open(key, '{', 10, more) + PrintMembers(ms, 12, false)
      modifies this`out, this`block
      ensures out == base + PrintMembers([Member(key, Obj(ms))], 10, more)
      ensures block == old(block)[4 := false]
    {
      SpacesAre();
      End(4, "          }", 10, '}');
      WrappedBlock(base, key, ms, 10, more);
    }

    /** The values of render_values, if there are any, between json_value_begin and json_value_end;
        `text` is what the first prints. */
    method PrintValues(text: string, values: seq<(string, string)>, ghost key: string)
      requires Valid() && !block[4] && values != []
      requires QUOTE !in key && text == [QUOTE] + key + [QUOTE, ':', ' ', '{']
      modifies this
      ensures out == old(out) + PrintMembers([Member(key, Obj(Pairs(values)))], 10, old(block[3]))
      ensures block == old(block)[3 := true]
      ensures overran == (old(overran) || !PairsFit(values))
    {
      ghost var base, more := out, block[3];
      FieldStart(text, key, '{');
      ValueList(values);
      ValueEnd(base, key, Pairs(values), more);
    }

    /** render_values */
    method RenderValues(values: seq<(string, string)>, ghost before: seq<Member>, ghost base: string)
      requires Valid() && !block[4]
      requires out == base + PrintMembers(before, 10, false) && block[3] == (before != [])
      modifies this
      ensures out == base + PrintMembers(before + ValuesTree(values), 10, false)
      ensures block == old(block)[3 := before + ValuesTree(values) != []]
      ensures overran == (old(overran) || !PairsFit(values))
    {
      JoinMore(base, before, ValuesTree(values), 10);
      if |values| > 0 {
        ValuesParts();
        PrintValues("\"Values\": {", values, "Values");
      }
    }

    /** render_device */
    method RenderDevice(d: Device, ghost before: seq<Member>, ghost base: string)
      requires Valid() && !block[4]
      requires out == base + PrintMembers(before, 10, false) && before == CommentTree(d.comment)
      requires block[3] == (before != [])
      modifies this
      ensures out == base + PrintMembers(DeviceMembers(d), 10, false)
      ensures block == old(block)[3 := DeviceMembers(d) != []]
      ensures overran == (old(overran) || !DeviceListsFit(d))
    {
      ghost var l1, l2 := ListTree(Supported, d.supported), ListTree(Conflicting, d.conflicting);
      RenderDevlist(Supported, d.supported, before, base);
      RenderDevlist(Conflicting, d.conflicting, before + l1, base);
      RenderValues(d.values, before + l1 + l2, base);
    }

    /** The first line of json_verb_start and json_2nd_level_begin. */
    method Start(level: nat, spaces: string, name: string, ghost indent: nat)
      requires Valid() && level < 5 && spaces == Spaces(indent)
      modifies this
      ensures out == old(out) + Open(Shown(name), '{', indent, old(block[level]))
      ensures block == old(block)[level := true]
      ensures overran == (old(overran) || !Fits(name))
    {
      var r := Escape(name);
      Grow(spaces, r, ": {");
      Grow(Line(block[level], indent), r, ": {");
      Item(level, spaces + r + ": {", indent, r + ": {");
    }

    /** json_2nd_level_begin */
    method SecondLevelBegin(name: string, comment: Option<string>)
      requires Valid() && !block[3]
      modifies this
      ensures out == old(out) + Open(Shown(name), '{', 8, old(block[2])) + PrintMembers(CommentTree(comment), 10, false)
      ensures block == old(block)[2 := true][3 := CommentTree(comment) != []]
      ensures overran == (old(overran) || !(Fits(name) && CommentFits(comment)))
    {
      SpacesAre();
      Start(2, "        ", name, 8);
      Comment(3, "          ", comment, 10);
    }

    /** json_2nd_level_end */
    method SecondLevelEnd(ghost base: string, ghost name: string, ghost ms: seq<Member>, ghost more: bool)
      requires Valid() && out == base + Open(name, '{', 8, more) + PrintMembers(ms, 10, false)
      modifies this`out, this`block
      ensures out == base + PrintMembers([Member(name, Obj(ms))], 8, more)
      ensures block == old(block)[3 := false]
    {
      SpacesAre();
      End(3, "        }", 8, '}');
      WrappedBlock(base, name, ms, 8, more);
    }

    /** One device in render. */
    method OneDevice(d: Device)
      requires Valid() && !block[3] && !block[4]
      modifies this
      ensures out == old(out) + PrintMembers([DeviceTree(d)], 8, old(block[2]))
      ensures block == old(block)[2 := true]
      ensures overran == (old(overran) || !DeviceFits(d))
    {
      ghost var base, more, name, before := out, block[2], Shown(d.name), CommentTree(d.comment);
      SecondLevelBegin(d.name, d.comment);
      RenderDevice(d, before, base + Open(name, '{', 8, more));
      SecondLevelEnd(base, name, DeviceMembers(d), more);
      OnlyFlag(old(block), block, 2);
    }

    /** One modifier in render. */
    method OneModifier(m: Modifier)
      requires Valid() && !block[3]
      modifies this
      ensures out == old(out) + PrintMembers([ModifierTree(m)], 8, old(block[2]))
      ensures block == old(block)[2 := true]
      ensures overran == (old(overran) || !ModifierFits(m))
    {
      ghost var base, more := out, block[2];
      SecondLevelBegin(m.name, m.comment);
      SecondLevelEnd(base, Shown(m.name), CommentTree(m.comment), more);
    }

    method NextDevice(ds: seq<Device>, i: nat, ghost was: Shot)
      requires Valid() && i < |ds| && !block[3] && !block[4] && DevicesDone(Now(), was, ds, i)
      modifies this
      ensures DevicesDone(Now(), was, ds, i + 1)
    {
      ghost var now := Now();
      OneDevice(ds[i]);
      DeviceDone(Now(), now, was, ds, i);
    }

    /** The devices of a verb in render. */
    method Devices(ds: seq<Device>)
      requires Valid() && !block[2] && !block[3] && !block[4]
      modifies this
      ensures out == old(out) + PrintMembers(DeviceTrees(ds), 8, false)
      ensures block == old(block)[2 := ds != []]
      ensures overran == (old(overran) || !DevicesFit(ds))
    {
      ghost var was := Now();
      for i := 0 to |ds|
        invariant DevicesDone(Now(), was, ds, i)
      {
        NextDevice(ds, i, was);
      }
      AllDevicesDone(Now(), was, ds);
    }

    method NextModifier(ms: seq<Modifier>, i: nat, ghost was: Shot)
      requires Valid() && i < |ms| && !block[3] && ModifiersDone(Now(), was, ms, i)
      modifies this
      ensures ModifiersDone(Now(), was, ms, i + 1)
    {
      ghost var now := Now();
      OneModifier(ms[i]);
      ModifierDone(Now(), now, was, ms, i);
    }

    /** The modifiers of a verb in render. */
    method Modifiers(ms: seq<Modifier>)
      requires Valid() && !block[2] && !block[3]
      modifies this
      ensures out == old(out) + PrintMembers(ModifierTrees(ms), 8, false)
      ensures block == old(block)[2 := ms != []]
      ensures overran == (old(overran) || !ModifiersFit(ms))
    {
      ghost var was := Now();
      for i := 0 to |ms|
        invariant ModifiersDone(Now(), was, ms, i)
      {
        NextModifier(ms, i, was);
      }
      AllModifiersDone(Now(), was, ms);
    }

    /** json_dev_block_start and json_mod_block_start */
    method BlockStart(kind: BlockKind)
      requires Valid()
      modifies this`out, this`block
      ensures out == old(out) + Open(BlockKey(kind), '{', 6, old(block[1]))
      ensures block == old(block)[1 := true]
    {
      var text := if kind == DevicesBlock then "\"Devices\": {" else "\"Modifiers\": {";
      BlockKeyText(kind, text, block[1]);
      Item(1, "      " + text, 6, text);
    }

    /** json_2nd_level_block_end */
    method BlockEnd(ghost base: string, ghost kind: BlockKind, ghost ms: seq<Member>, ghost more: bool)
      requires Valid() && out == base + Open(BlockKey(kind), '{', 6, more) + PrintMembers(ms, 8, false)
      modifies this`out, this`block
      ensures out == base + PrintMembers([Member(BlockKey(kind), Obj(ms))], 6, more)
      ensures block == old(block)[2 := false]
    {
      SpacesAre();
      End(2, "      }", 6, '}');
      WrappedBlock(base, BlockKey(kind), ms, 6, more);
    }

    /** The devices of a verb, if there are any. */
    method DeviceBlock(ds: seq<Device>, ghost before: seq<Member>, ghost base: string)
      requires Valid() && !block[2] && !block[3] && !block[4]
      requires out == base + PrintMembers(before, 6, false) && block[1] == (before != [])
      modifies this
      ensures out == base + PrintMembers(before + BlockTree(DevicesBlock, DeviceTrees(ds)), 6, false)
      ensures block == old(block)[1 := before + BlockTree(DevicesBlock, DeviceTrees(ds)) != []]
      ensures overran == (old(overran) || !DevicesFit(ds))
    {
      JoinMore(base, before, BlockTree(DevicesBlock, DeviceTrees(ds)), 6);
      if |ds| > 0 {
        ghost var base1, more, kind := out, block[1], DevicesBlock;
        BlockStart(DevicesBlock);
        Devices(ds);
        BlockEnd(base1, kind, DeviceTrees(ds), more);
      }
    }

    /** The modifiers of a verb, if there are any. */
    method ModifierBlock(ms: seq<Modifier>, ghost before: seq<Member>, ghost base: string)
      requires Valid() && !block[2] && !block[3]
      requires out == base + PrintMembers(before, 6, false) && block[1] == (before != [])
      modifies this
      ensures out == base + PrintMembers(before + BlockTree(ModifiersBlock, ModifierTrees(ms)), 6, false)
      ensures block == old(block)[1 := before + BlockTree(ModifiersBlock, ModifierTrees(ms)) != []]
      ensures overran == (old(overran) || !ModifiersFit(ms))
    {
      JoinMore(base, before, BlockTree(ModifiersBlock, ModifierTrees(ms)), 6);
      if |ms| > 0 {
        ghost var base1, more, kind := out, block[1], ModifiersBlock;
        BlockStart(ModifiersBlock);
        Modifiers(ms);
        BlockEnd(base1, kind, ModifierTrees(ms), more);
      }
    }

    /** json_verb_start */
    method VerbStart(name: string, comment: Option<string>)
      requires Valid() && !block[1]
      modifies this
      ensures out == old(out) + Open(Shown(name), '{', 4, old(block[0])) + PrintMembers(CommentTree(comment), 6, false)
      ensures block == old(block)[0 := true][1 := CommentTree(comment) != []]
      ensures overran == (old(overran) || !(Fits(name) && CommentFits(comment)))
    {
      SpacesAre();
      Start(0, "    ", name, 4);
      Comment(1, "      ", comment, 6);
    }

    /** json_verb_end */
    method VerbEnd(ghost base: string, ghost name: string, ghost ms: seq<Member>, ghost more: bool)
      requires Valid() && out == base + Open(name, '{', 4, more) + PrintMembers(ms, 6, false)
      modifies this`out, this`block
      ensures out == base + PrintMembers([Member(name, Obj(ms))], 4, more)
      ensures block == old(block)[1 := false]
    {
      SpacesAre();
      End(1, "    }", 4, '}');
      WrappedBlock(base, name, ms, 4, more);
    }

    /** The devices and modifiers of a verb in render. */
    method VerbBlocks(v: Verb, ghost base: string)
      requires Valid() && !block[2] && !block[3] && !block[4]
      requires out == base + PrintMembers(CommentTree(v.comment), 6, false) && block[1] == (CommentTree(v.comment) != [])
      modifies this
      ensures out == base + PrintMembers(VerbMembers(v), 6, false)
      ensures block == old(block)[1 := VerbMembers(v) != []]
      ensures overran == (old(overran) || !(DevicesFit(v.devices) && ModifiersFit(v.modifiers)))
    {
      ghost var before := CommentTree(v.comment);
      DeviceBlock(v.devices, before, base);
      ModifierBlock(v.modifiers, before + BlockTree(DevicesBlock, DeviceTrees(v.devices)), base);
    }

    /** One verb in render. */
    method OneVerb(v: Verb)
      requires Valid() && !block[1] && !block[2] && !block[3] && !block[4]
      modifies this
      ensures out == old(out) + PrintMembers([VerbTree(v)], 4, old(block[0]))
      ensures block == old(block)[0 := true]
      ensures overran == (old(overran) || !VerbFits(v))
    {
      ghost var base, more, name := out, block[0], Shown(v.name);
      VerbStart(v.name, v.comment);
      VerbBlocks(v, base + Open(name, '{', 4, more));
      VerbEnd(base, name, VerbMembers(v), more);
      OnlyFlag(old(block), block, 0);
    }

    /** One round of render's loop. */
    method NextVerb(verbs: seq<Verb>, i: nat, ghost was: Shot)
      requires i < |verbs| && was.block == [false, false, false, false, false] && VerbsDone(Now(), was, verbs, i)
      modifies this
      ensures VerbsDone(Now(), was, verbs, i + 1)
    {
      ghost var now := Now();
      OneVerb(verbs[i]);
      VerbDone(Now(), now, was, verbs, i);
    }

    /** The loop of render. */
    method AllVerbs(verbs: seq<Verb>)
      requires block == [false, false, false, false, false]
      modifies this
      ensures out == old(out) + PrintMembers(VerbTrees(verbs), 4, false)
      ensures block == [verbs != [], false, false, false, false]
      ensures overran == (old(overran) || !VerbsFit(verbs))
    {
      ghost var was := Now();
      for i := 0 to |verbs|
        invariant VerbsDone(Now(), was, verbs, i)
      {
        NextVerb(verbs, i, was);
      }
      AllVerbsDone(Now(), was, verbs);
    }

    method Document(verbs: seq<Verb>)
      requires block == [false, false, false, false, false]
      modifies this
      ensures out == old(out) + PrintText(Tree(verbs)) && block == old(block)
      ensures overran == (old(overran) || !VerbsFit(verbs))
    {
      ghost var base := out;
      Put("{\n  \"Verbs\": {");
      AllVerbs(verbs);
      Block(0, true);
      Put("  }\n}\n");
      WholeText(base, VerbTrees(verbs), "{\n  \"Verbs\": {", "  }\n}\n");
    }

    /** render: the output is the printed tree, and all flags are reset at the end. A program that parses
        it finds all strings under their names. */
    method Render(verbs: seq<Verb>)
      requires block == [false, false, false, false, false]
      modifies this
      ensures out == old(out) + PrintText(Tree(verbs)) && block == old(block)
      ensures overran == (old(overran) || !VerbsFit(verbs))
      ensures VerbsReadable(verbs) ==> |old(out)| <= |out| && ReadsAs(out[|old(out)|..], verbs)
    {
      ghost var base := out;
      Document(verbs);
      RenderedReads(base, out, verbs);
    }
  }

  /** Flags of which only that of one level has been set. */
  lemma OnlyFlag(b: seq<bool>, c: seq<bool>, level: nat)
    requires |b| == |c| == 5 && level < 5 && c[level] && forall k :: 0 <= k < 5 && k != level ==> c[k] == b[k]
    ensures c == b[level := true]
  {
  }

  lemma DeviceStep(base: string, ds: seq<Device>, i: nat)
    requires i < |ds|
    ensures base + PrintMembers(DeviceTrees(ds[..i]), 8, false) + PrintMembers([DeviceTree(ds[i])], 8, i > 0)
         == base + PrintMembers(DeviceTrees(ds[..i + 1]), 8, false)
    ensures DevicesFit(ds[..i + 1]) <==> DevicesFit(ds[..i]) && DeviceFits(ds[i])
  {
    assert ds[..i + 1][..i] == ds[..i];
    JoinMore(base, DeviceTrees(ds[..i]), [DeviceTree(ds[i])], 8);
  }

  lemma ModifierStep(base: string, ms: seq<Modifier>, i: nat)
    requires i < |ms|
    ensures base + PrintMembers(ModifierTrees(ms[..i]), 8, false) + PrintMembers([ModifierTree(ms[i])], 8, i > 0)
         == base + PrintMembers(ModifierTrees(ms[..i + 1]), 8, false)
    ensures ModifiersFit(ms[..i + 1]) <==> ModifiersFit(ms[..i]) && ModifierFits(ms[i])
  {
    assert ms[..i + 1][..i] == ms[..i];
    JoinMore(base, ModifierTrees(ms[..i]), [ModifierTree(ms[i])], 8);
  }

  lemma VerbStep(base: string, vs: seq<Verb>, i: nat)
    requires i < |vs|
    ensures base + PrintMembers(VerbTrees(vs[..i]), 4, false) + PrintMembers([VerbTree(vs[i])], 4, i > 0)
         == base + PrintMembers(VerbTrees(vs[..i + 1]), 4, false)
    ensures VerbsFit(vs[..i + 1]) <==> VerbsFit(vs[..i]) && VerbFits(vs[i])
  {
    assert vs[..i + 1][..i] == vs[..i];
    JoinMore(base, VerbTrees(vs[..i]), [VerbTree(vs[i])], 4);
  }

  /** More members behind those already printed. */
  lemma JoinMore(base: string, a: seq<Member>, b: seq<Member>, indent: nat)
    ensures base + PrintMembers(a, indent, false) + PrintMembers(b, indent, a != [])
         == base + PrintMembers(a + b, indent, false)
  {
    MembersJoin(a, b, indent, false);
    Grow(base, PrintMembers(a, indent, false), PrintMembers(b, indent, a != []));
  }

  lemma WrappedBlock(base: string, key: string, ms: seq<Member>, indent: nat, more: bool)
    ensures base + Open(key, '{', indent, more) + PrintMembers(ms, indent + 2, false) + Close('}', indent)
         == base + PrintMembers([Member(key, Obj(ms))], indent, more)
  {
    var open, inner := Open(key, '{', indent, more), PrintMembers(ms, indent + 2, false);
    Grow(base, open, inner);
    Grow(base, open + inner, Close('}', indent));
    BlockText(key, ms, indent, more);
  }

  lemma WrappedArray(base: string, key: string, items: seq<Value>, indent: nat, more: bool)
    ensures base + Open(key, '[', indent, more) + PrintItems(items, indent + 2, false) + Close(']', indent)
         == base + PrintMembers([Member(key, Arr(items))], indent, more)
  {
    var open, inner := Open(key, '[', indent, more), PrintItems(items, indent + 2, false);
    Grow(base, open, inner);
    Grow(base, open + inner, Close(']', indent));
    ArrayText(key, items, indent, more);
  }

  lemma CommentText(text: string, indent: nat)
    ensures PrintMembers([Member("Comment", Str(text))], indent, false)
         == Line(false, indent) + ("\"Comment\": " + Quoted(text))
  {
    PlainKey("Comment");
    StringText("Comment", text, indent, false);
    assert Quoted("Comment") + ": " == "\"Comment\": ";
  }

  lemma ValuesParts()
    ensures "\"Values\": {" == [QUOTE] + "Values" + [QUOTE, ':', ' ', '{'] && QUOTE !in "Values"
  {
  }

  lemma KeyParts(kind: ListKind, text: string)
    requires text == if kind == Supported then "\"SupportedDevices\": [" else "\"ConflictingDevices\": ["
    ensures text == [QUOTE] + Key(kind) + [QUOTE, ':', ' ', '['] && QUOTE !in Key(kind)
  {
    if kind == Supported { SupportedParts(); } else { ConflictingParts(); }
  }

  lemma SupportedParts()
    ensures "\"SupportedDevices\": [" == [QUOTE] + "SupportedDevices" + [QUOTE, ':', ' ', '['] && QUOTE !in "SupportedDevices"
  {
  }

  lemma ConflictingParts()
    ensures "\"ConflictingDevices\": [" == [QUOTE] + "ConflictingDevices" + [QUOTE, ':', ' ', '['] && QUOTE !in "ConflictingDevices"
  {
  }

  lemma BlockKeyParts(kind: BlockKind, text: string)
    requires text == if kind == DevicesBlock then "\"Devices\": {" else "\"Modifiers\": {"
    ensures text == [QUOTE] + BlockKey(kind) + [QUOTE, ':', ' ', '{'] && QUOTE !in BlockKey(kind)
  {
  }

  lemma BlockKeyText(kind: BlockKind, text: string, more: bool)
    requires text == if kind == DevicesBlock then "\"Devices\": {" else "\"Modifiers\": {"
    ensures Line(more, 6) + text == Open(BlockKey(kind), '{', 6, more)
    ensures Spaces(6) == "      "
  {
    SpacesAre();
    BlockKeyParts(kind, text);
    OpenText(BlockKey(kind), '{', 6, more);
  }

  lemma WholeHead()
    ensures "{\n  \"Verbs\": {" == "{" + Open("Verbs", '{', 2, false)
  {
    SpacesAre();
    OpenText("Verbs", '{', 2, false);
  }

  lemma WholeTail()
    ensures "\n" + "  }\n}\n" == Close('}', 2) + Line(false, 0) + "}" + "\n"
  {
    SpacesAre();
  }

  lemma WholeGlue(base: string, head: string, open: string, inner: string, close: string, line: string, tail: string)
    requires head == "{" + open && "\n" + tail == close + line + "}" + "\n"
    ensures base + head + inner + "\n" + tail == base + ("{" + (open + inner + close) + line + "}" + "\n")
  {
    assert base + head + inner + "\n" + tail == base + head + inner + ("\n" + tail);
  }

  lemma WholeText(base: string, ms: seq<Member>, head: string, tail: string)
    requires head == "{\n  \"Verbs\": {" && tail == "  }\n}\n"
    ensures base + head + PrintMembers(ms, 4, false) + "\n" + tail
         == base + PrintText(Obj([Member("Verbs", Obj(ms))]))
  {
    WholeHead();
    WholeTail();
    BlockText("Verbs", ms, 2, false);
    WholeGlue(base, head, Open("Verbs", '{', 2, false), PrintMembers(ms, 4, false), Close('}', 2), Line(false, 0), tail);
  }

  lemma OpenText(key: string, bracket: char, indent: nat, more: bool)
    requires QUOTE !in key
    ensures Line(more, indent) + ([QUOTE] + key + [QUOTE, ':', ' ', bracket]) == Open(key, bracket, indent, more)
  {
    PlainKey(key);
    assert [QUOTE, ':', ' ', bracket] == [QUOTE] + [':', ' ', bracket];
  }

  lemma PairStep(base: string, values: seq<(string, string)>, i: nat)
    requires i < |values|
    ensures base + PrintMembers(Pairs(values[..i]), 12, false)
                 + (Line(i > 0, 12) + (Quoted(Shown(values[i].0)) + ": " + Quoted(Shown(values[i].1))))
         == base + PrintMembers(Pairs(values[..i + 1]), 12, false)
    ensures PairsFit(values[..i + 1]) <==> PairsFit(values[..i]) && PairFits(values[i])
  {
    var a, x := Pairs(values[..i]), Member(Shown(values[i].0), Str(Shown(values[i].1)));
    assert values[..i + 1][..i] == values[..i];
    StringText(x.key, Shown(values[i].1), 12, i > 0);
    JoinMore(base, a, [x], 12);
  }

  lemma ListStep(base: string, l: seq<string>, i: nat)
    requires i < |l|
    ensures base + PrintItems(Strings(l[..i]), 12, false) + (Line(i > 0, 12) + Quoted(Shown(l[i])))
         == base + PrintItems(Strings(l[..i + 1]), 12, false)
    ensures AllFit(l[..i + 1]) <==> AllFit(l[..i]) && Fits(l[i])
  {
    var a, x := Strings(l[..i]), Str(Shown(l[i]));
    assert l[..i + 1][..i] == l[..i];
    ItemsJoin(a, [x], 12, false);
    assert [x][1..] == [];
    assert PrintItems([x], 12, i > 0) == Line(i > 0, 12) + Quoted(Shown(l[i]));
    Grow(base, PrintItems(a, 12, false), PrintItems([x], 12, i > 0));
  }

  // ----- the output is JSON for the tree -----

  /** What is shown of the string can be read back. */
  predicate Readable(s: string) {
    Clean(Shown(s))
  }

  /** An empty comment is not printed. */
  predicate CommentReadable(comment: Option<string>) {
    comment.Some? ==> Readable(comment.value)
  }

  predicate AllReadable(l: seq<string>) {
    forall i :: 0 <= i < |l| ==> Readable(l[i])
  }

  predicate PairsReadable(values: seq<(string, string)>) {
    forall i :: 0 <= i < |values| ==> Readable(values[i].0) && Readable(values[i].1)
  }

  predicate DeviceReadable(d: Device) {
    && Readable(d.name) && CommentReadable(d.comment)
    && AllReadable(d.supported) && AllReadable(d.conflicting) && PairsReadable(d.values)
  }

  predicate ModifierReadable(m: Modifier) {
    Readable(m.name) && CommentReadable(m.comment)
  }

  predicate DevicesReadable(ds: seq<Device>) {
    forall i :: 0 <= i < |ds| ==> DeviceReadable(ds[i])
  }

  predicate ModifiersReadable(ms: seq<Modifier>) {
    forall i :: 0 <= i < |ms| ==> ModifierReadable(ms[i])
  }

  predicate VerbReadable(v: Verb) {
    && Readable(v.name) && CommentReadable(v.comment)
    && DevicesReadable(v.devices) && ModifiersReadable(v.modifiers)
  }

  predicate VerbsReadable(vs: seq<Verb>) {
    forall i :: 0 <= i < |vs| ==> VerbReadable(vs[i])
  }

  lemma {:induction false} CleanJoin(a: seq<Member>, b: seq<Member>)
    ensures CleanMembers(a + b) <==> CleanMembers(a) && CleanMembers(b)
  {
    if a == [] {
      assert a + b == b;
    } else {
      assert (a + b)[1..] == a[1..] + b;
      CleanJoin(a[1..], b);
    }
  }

  lemma {:induction false} CleanItemsJoin(a: seq<Value>, b: seq<Value>)
    ensures CleanItems(a + b) <==> CleanItems(a) && CleanItems(b)
  {
    if a == [] {
      assert a + b == b;
    } else {
      assert (a + b)[1..] == a[1..] + b;
      CleanItemsJoin(a[1..], b);
    }
  }

  lemma CleanOne(m: Member)
    ensures CleanMembers([m]) <==> Clean(m.key) && CleanValue(m.value)
  {
    assert [m][1..] == [];
  }

  lemma {:induction false} StringsCleanIff(l: seq<string>)
    ensures CleanItems(Strings(l)) <==> AllReadable(l)
  {
    if l != [] {
      var n := |l| - 1;
      StringsCleanIff(l[..n]);
      CleanItemsJoin(Strings(l[..n]), [Str(Shown(l[n]))]);
      assert [Str(Shown(l[n]))][1..] == [];
      assert AllReadable(l) <==> AllReadable(l[..n]) && Readable(l[n]);
    }
  }

  lemma {:induction false} PairsCleanIff(values: seq<(string, string)>)
    ensures CleanMembers(Pairs(values)) <==> PairsReadable(values)
  {
    if values != [] {
      var n := |values| - 1;
      PairsCleanIff(values[..n]);
      var m := Member(Shown(values[n].0), Str(Shown(values[n].1)));
      CleanJoin(Pairs(values[..n]), [m]);
      CleanOne(m);
      assert PairsReadable(values) <==> PairsReadable(values[..n]) && Readable(values[n].0) && Readable(values[n].1);
    }
  }

  lemma CommentCleanIff(comment: Option<string>)
    ensures CleanMembers(CommentTree(comment)) <==> CommentReadable(comment)
  {
    if CommentTree(comment) != [] { CleanOne(CommentTree(comment)[0]); }
  }

  lemma ListCleanIff(kind: ListKind, l: seq<string>)
    ensures CleanMembers(ListTree(kind, l)) <==> AllReadable(l)
  {
    StringsCleanIff(l);
    if l != [] { CleanOne(ListTree(kind, l)[0]); }
  }

  lemma ValuesCleanIff(values: seq<(string, string)>)
    ensures CleanMembers(ValuesTree(values)) <==> PairsReadable(values)
  {
    PairsCleanIff(values);
    if values != [] { CleanOne(ValuesTree(values)[0]); }
  }

  lemma DeviceCleanIff(d: Device)
    ensures CleanMembers([DeviceTree(d)]) <==> DeviceReadable(d)
  {
    var a, b, c, v := CommentTree(d.comment), ListTree(Supported, d.supported), ListTree(Conflicting, d.conflicting), ValuesTree(d.values);
    CommentCleanIff(d.comment);
    ListCleanIff(Supported, d.supported);
    ListCleanIff(Conflicting, d.conflicting);
    ValuesCleanIff(d.values);
    CleanJoin(a, b);
    CleanJoin(a + b, c);
    CleanJoin(a + b + c, v);
    CleanOne(DeviceTree(d));
  }

  lemma AllOfLast<T>(s: seq<T>, p: T -> bool)
    requires s != []
    ensures var n := |s| - 1;
            (forall i :: 0 <= i < |s| ==> p(s[i])) <==> (forall i :: 0 <= i < n ==> p(s[..n][i])) && p(s[n])
  {
    var n := |s| - 1;
    assert forall i :: 0 <= i < n ==> s[..n][i] == s[i];
  }

  lemma {:induction false} DevicesCleanIff(ds: seq<Device>)
    ensures CleanMembers(DeviceTrees(ds)) <==> DevicesReadable(ds)
  {
    if ds != [] {
      var n := |ds| - 1;
      DevicesCleanIff(ds[..n]);
      DeviceCleanIff(ds[n]);
      CleanJoin(DeviceTrees(ds[..n]), [DeviceTree(ds[n])]);
      AllOfLast(ds, DeviceReadable);
    }
  }

  lemma {:induction false} ModifiersCleanIff(ms: seq<Modifier>)
    ensures CleanMembers(ModifierTrees(ms)) <==> ModifiersReadable(ms)
  {
    if ms != [] {
      var n := |ms| - 1;
      ModifiersCleanIff(ms[..n]);
      CommentCleanIff(ms[n].comment);
      CleanOne(ModifierTree(ms[n]));
      CleanJoin(ModifierTrees(ms[..n]), [ModifierTree(ms[n])]);
      AllOfLast(ms, ModifierReadable);
    }
  }

  lemma BlockCleanIff(kind: BlockKind, ms: seq<Member>)
    ensures CleanMembers(BlockTree(kind, ms)) <==> CleanMembers(ms)
  {
    if ms != [] { CleanOne(BlockTree(kind, ms)[0]); }
  }

  lemma VerbCleanIff(v: Verb)
    ensures CleanMembers([VerbTree(v)]) <==> VerbReadable(v)
  {
    var a, d, m := CommentTree(v.comment), BlockTree(DevicesBlock, DeviceTrees(v.devices)), BlockTree(ModifiersBlock, ModifierTrees(v.modifiers));
    CommentCleanIff(v.comment);
    DevicesCleanIff(v.devices);
    ModifiersCleanIff(v.modifiers);
    BlockCleanIff(DevicesBlock, DeviceTrees(v.devices));
    BlockCleanIff(ModifiersBlock, ModifierTrees(v.modifiers));
    CleanJoin(a, d);
    CleanJoin(a + d, m);
    CleanOne(VerbTree(v));
  }

  lemma {:induction false} VerbsCleanIff(vs: seq<Verb>)
    ensures CleanMembers(VerbTrees(vs)) <==> VerbsReadable(vs)
  {
    if vs != [] {
      var n := |vs| - 1;
      VerbsCleanIff(vs[..n]);
      VerbCleanIff(vs[n]);
      CleanJoin(VerbTrees(vs[..n]), [VerbTree(vs[n])]);
      AllOfLast(vs, VerbReadable);
    }
  }

  lemma TreeCleanIff(verbs: seq<Verb>, key: string)
    requires Clean(key)
    ensures CleanValue(Obj([Member(key, Obj(VerbTrees(verbs)))])) <==> VerbsReadable(verbs)
  {
    VerbsCleanIff(verbs);
    CleanOne(Member(key, Obj(VerbTrees(verbs))));
  }

  /** Main result: parsing what is printed gives the tree of all verbs, devices, modifiers, lists and
      values if and only if no string that is shown has a backslash or a control character. */
  lemma DumpComesBackIff(verbs: seq<Verb>)
    ensures ParseText(PrintText(Tree(verbs))) == Ok(Tree(verbs), [])
       <==> VerbsReadable(verbs)
  {
    TreeCleanIff(verbs, "Verbs");
    TextComesBackIff(Tree(verbs));
  }

  // ----- the output as another program finds it -----

  /** The value of the first member of that name. */
  function Find(ms: seq<Member>, key: string): Option<Value> {
    if ms == [] then None else if ms[0].key == key then Some(ms[0].value) else Find(ms[1..], key)
  }

  function Optional(present: bool, key: string): seq<string> {
    if present then [key] else []
  }

  /** An object with these names, in this order. */
  predicate HasKeys(x: Value, keys: seq<string>) {
    x.Obj? && |x.members| == |keys| && forall i :: 0 <= i < |keys| ==> x.members[i].key == keys[i]
  }

  predicate Commented(comment: Option<string>) {
    comment.Some? && comment.value != ""
  }

  predicate ReadsComment(x: Option<Value>, comment: Option<string>) {
    x == if Commented(comment) then Some(Str(Shown(comment.value))) else None
  }

  predicate ReadsList(x: Option<Value>, l: seq<string>) {
    if l == [] then x == None
    else
      && x.Some? && x.value.Arr? && |x.value.items| == |l|
      && forall i :: 0 <= i < |l| ==> x.value.items[i] == Str(Shown(l[i]))
  }

  predicate ReadsValues(x: Option<Value>, values: seq<(string, string)>) {
    if values == [] then x == None
    else
      && x.Some? && x.value.Obj? && |x.value.members| == |values|
      && forall i :: 0 <= i < |values| ==>
           x.value.members[i] == Member(Shown(values[i].0), Str(Shown(values[i].1)))
  }

  predicate ReadsDevice(x: Value, d: Device) {
    && HasKeys(x, Optional(Commented(d.comment), "Comment") + Optional(d.supported != [], "SupportedDevices")
                  + Optional(d.conflicting != [], "ConflictingDevices") + Optional(d.values != [], "Values"))
    && ReadsComment(Find(x.members, "Comment"), d.comment)
    && ReadsList(Find(x.members, "SupportedDevices"), d.supported)
    && ReadsList(Find(x.members, "ConflictingDevices"), d.conflicting)
    && ReadsValues(Find(x.members, "Values"), d.values)
  }

  predicate ReadsDevices(x: Option<Value>, ds: seq<Device>) {
    if ds == [] then x == None
    else
      && x.Some? && x.value.Obj? && |x.value.members| == |ds|
      && forall i :: 0 <= i < |ds| ==>
           x.value.members[i].key == Shown(ds[i].name) && ReadsDevice(x.value.members[i].value, ds[i])
  }

  predicate ReadsModifier(x: Value, m: Modifier) {
    HasKeys(x, Optional(Commented(m.comment), "Comment")) && ReadsComment(Find(x.members, "Comment"), m.comment)
  }

  predicate ReadsModifiers(x: Option<Value>, ms: seq<Modifier>) {
    if ms == [] then x == None
    else
      && x.Some? && x.value.Obj? && |x.value.members| == |ms|
      && forall i :: 0 <= i < |ms| ==>
           x.value.members[i].key == Shown(ms[i].name) && ReadsModifier(x.value.members[i].value, ms[i])
  }

  predicate ReadsVerb(x: Value, v: Verb) {
    && HasKeys(x, Optional(Commented(v.comment), "Comment") + Optional(v.devices != [], "Devices")
                  + Optional(v.modifiers != [], "Modifiers"))
    && ReadsComment(Find(x.members, "Comment"), v.comment)
    && ReadsDevices(Find(x.members, "Devices"), v.devices)
    && ReadsModifiers(Find(x.members, "Modifiers"), v.modifiers)
  }

  /** The text is one JSON value, and a program that looks for the names below finds every verb, device,
      modifier, comment, list and value there, and nothing else. */
  predicate ReadsAs(text: string, verbs: seq<Verb>) {
    var p := ParseText(text);
    && p.Ok? && p.rest == "" && HasKeys(p.value, ["Verbs"])
    && var x := Find(p.value.members, "Verbs");
       && x.Some? && x.value.Obj? && |x.value.members| == |verbs|
       && forall i :: 0 <= i < |verbs| ==>
            x.value.members[i].key == Shown(verbs[i].name) && ReadsVerb(x.value.members[i].value, verbs[i])
  }

  lemma {:induction false} FindJoin(a: seq<Member>, b: seq<Member>, key: string)
    ensures Find(a + b, key) == if Find(a, key).Some? then Find(a, key) else Find(b, key)
  {
    if a == [] {
      assert a + b == b;
    } else {
      assert (a + b)[1..] == a[1..] + b;
      FindJoin(a[1..], b, key);
    }
  }

  lemma FindOne(m: Member, key: string)
    ensures Find([m], key) == if m.key == key then Some(m.value) else None
  {
    assert [m][1..] == [];
  }

  lemma KeysDiffer()
    ensures "Comment" != "Values" && "Comment" != "SupportedDevices" && "Comment" != "ConflictingDevices"
    ensures "SupportedDevices" != "ConflictingDevices" && "Values" != "SupportedDevices" && "Values" != "ConflictingDevices"
    ensures "Comment" != "Devices" && "Comment" != "Modifiers" && "Devices" != "Modifiers"
  {
    assert "Comment"[0] == 'C' && "Devices"[0] == 'D';
    assert |"Comment"| == 7 && |"Devices"| == 7 && |"Modifiers"| == 9 && |"Values"| == 6;
    assert |"SupportedDevices"| == 16 && |"ConflictingDevices"| == 18;
  }

  lemma {:induction false} StringsAt(l: seq<string>, i: nat)
    requires i < |l|
    ensures Strings(l)[i] == Str(Shown(l[i]))
  {
    if i < |l| - 1 { StringsAt(l[..|l| - 1], i); }
  }

  lemma {:induction false} PairsAre(values: seq<(string, string)>)
    ensures |Pairs(values)| == |values|
    ensures forall i :: 0 <= i < |values| ==> Pairs(values)[i] == Member(Shown(values[i].0), Str(Shown(values[i].1)))
  {
    if values != [] { PairsAre(values[..|values| - 1]); }
  }

  lemma {:induction false} DeviceTreesAre(ds: seq<Device>)
    ensures |DeviceTrees(ds)| == |ds| && forall i :: 0 <= i < |ds| ==> DeviceTrees(ds)[i] == DeviceTree(ds[i])
  {
    if ds != [] { DeviceTreesAre(ds[..|ds| - 1]); }
  }

  lemma {:induction false} ModifierTreesAre(ms: seq<Modifier>)
    ensures |ModifierTrees(ms)| == |ms| && forall i :: 0 <= i < |ms| ==> ModifierTrees(ms)[i] == ModifierTree(ms[i])
  {
    if ms != [] { ModifierTreesAre(ms[..|ms| - 1]); }
  }

  lemma {:induction false} VerbTreesAre(vs: seq<Verb>)
    ensures |VerbTrees(vs)| == |vs| && forall i :: 0 <= i < |vs| ==> VerbTrees(vs)[i] == VerbTree(vs[i])
  {
    if vs != [] { VerbTreesAre(vs[..|vs| - 1]); }
  }

  /** A member that may be left out, by its name and by every other one. */
  predicate IsOptional(ms: seq<Member>, present: bool, key: string, value: Option<Value>) {
    && (forall i :: 0 <= i < |ms| ==> ms[i].key == key)
    && |ms| == (if present then 1 else 0)
    && value == if present then Some(ms[0].value) else None
  }

  lemma FindOptional(ms: seq<Member>, present: bool, key: string, value: Option<Value>, other: string)
    requires IsOptional(ms, present, key, value)
    ensures Find(ms, key) == value && (other != key ==> Find(ms, other) == None)
  {
    if present {
      assert ms == [ms[0]];
      FindOne(ms[0], key);
      FindOne(ms[0], other);
    }
  }

  lemma CommentReads(comment: Option<string>)
    ensures IsOptional(CommentTree(comment), Commented(comment), "Comment", Find(CommentTree(comment), "Comment"))
    ensures ReadsComment(Find(CommentTree(comment), "Comment"), comment)
  {
    if Commented(comment) { FindOne(CommentTree(comment)[0], "Comment"); }
  }

  lemma ListReads(kind: ListKind, l: seq<string>, key: string)
    requires key == Key(kind)
    ensures IsOptional(ListTree(kind, l), l != [], key, Find(ListTree(kind, l), key))
    ensures ReadsList(Find(ListTree(kind, l), key), l)
  {
    if l != [] {
      FindOne(ListTree(kind, l)[0], key);
      forall i | 0 <= i < |l|
        ensures Strings(l)[i] == Str(Shown(l[i]))
      {
        StringsAt(l, i);
      }
    }
  }

  lemma ValuesRead(values: seq<(string, string)>)
    ensures IsOptional(ValuesTree(values), values != [], "Values", Find(ValuesTree(values), "Values"))
    ensures ReadsValues(Find(ValuesTree(values), "Values"), values)
  {
    PairsAre(values);
    if values != [] { FindOne(ValuesTree(values)[0], "Values"); }
  }

  /** Three or four members that may be left out, under different names. */
  lemma FindInFour(a: seq<Member>, b: seq<Member>, c: seq<Member>, d: seq<Member>,
                   pa: bool, pb: bool, pc: bool, pd: bool, ka: string, kb: string, kc: string, kd: string)
    requires IsOptional(a, pa, ka, Find(a, ka)) && IsOptional(b, pb, kb, Find(b, kb))
    requires IsOptional(c, pc, kc, Find(c, kc)) && IsOptional(d, pd, kd, Find(d, kd))
    requires ka != kb && ka != kc && ka != kd && kb != kc && kb != kd && kc != kd
    ensures HasKeys(Obj(a + b + c + d), Optional(pa, ka) + Optional(pb, kb) + Optional(pc, kc) + Optional(pd, kd))
    ensures Find(a + b + c + d, ka) == Find(a, ka) && Find(a + b + c + d, kb) == Find(b, kb)
    ensures Find(a + b + c + d, kc) == Find(c, kc) && Find(a + b + c + d, kd) == Find(d, kd)
  {
    assert HasKeys(Obj(a), Optional(pa, ka)) && HasKeys(Obj(b), Optional(pb, kb));
    assert HasKeys(Obj(c), Optional(pc, kc)) && HasKeys(Obj(d), Optional(pd, kd));
    KeysOfFour(a, b, c, d, Optional(pa, ka), Optional(pb, kb), Optional(pc, kc), Optional(pd, kd));
    FindOthers(a, pa, ka, kb, kc, kd);
    FindOthers(b, pb, kb, ka, kc, kd);
    FindOthers(c, pc, kc, ka, kb, kd);
    FindOthers(d, pd, kd, ka, kb, kc);
    FindApart(a, b, c, d, ka, kb, kc, kd);
  }

  lemma FindApart(a: seq<Member>, b: seq<Member>, c: seq<Member>, d: seq<Member>, ka: string, kb: string, kc: string, kd: string)
    requires Find(b, ka) == Find(c, ka) == Find(d, ka) == None && Find(a, kb) == Find(c, kb) == Find(d, kb) == None
    requires Find(a, kc) == Find(b, kc) == Find(d, kc) == None && Find(a, kd) == Find(b, kd) == Find(c, kd) == None
    ensures Find(a + b + c + d, ka) == Find(a, ka) && Find(a + b + c + d, kb) == Find(b, kb)
    ensures Find(a + b + c + d, kc) == Find(c, kc) && Find(a + b + c + d, kd) == Find(d, kd)
  {
    FindFour(a, b, c, d, ka, Find(a, ka), None, None, None);
    FindFour(a, b, c, d, kb, None, Find(b, kb), None, None);
    FindFour(a, b, c, d, kc, None, None, Find(c, kc), None);
    FindFour(a, b, c, d, kd, None, None, None, Find(d, kd));
  }

  lemma FindFour(a: seq<Member>, b: seq<Member>, c: seq<Member>, d: seq<Member>, key: string,
                 fa: Option<Value>, fb: Option<Value>, fc: Option<Value>, fd: Option<Value>)
    requires fa == Find(a, key) && fb == Find(b, key) && fc == Find(c, key) && fd == Find(d, key)
    ensures Find(a + b + c + d, key) == if fa.Some? then fa else if fb.Some? then fb else if fc.Some? then fc else fd
  {
    FindJoin(a, b, key);
    FindJoin(a + b, c, key);
    FindJoin(a + b + c, d, key);
  }

  lemma KeysOfFour(a: seq<Member>, b: seq<Member>, c: seq<Member>, d: seq<Member>,
                   ka: seq<string>, kb: seq<string>, kc: seq<string>, kd: seq<string>)
    requires HasKeys(Obj(a), ka) && HasKeys(Obj(b), kb) && HasKeys(Obj(c), kc) && HasKeys(Obj(d), kd)
    ensures HasKeys(Obj(a + b + c + d), ka + kb + kc + kd)
  {
    KeysJoin(a, b, ka, kb);
    KeysJoin(a + b, c, ka + kb, kc);
    KeysJoin(a + b + c, d, ka + kb + kc, kd);
  }

  lemma KeysJoin(a: seq<Member>, b: seq<Member>, ka: seq<string>, kb: seq<string>)
    requires HasKeys(Obj(a), ka) && HasKeys(Obj(b), kb)
    ensures HasKeys(Obj(a + b), ka + kb)
  {
  }

  lemma FindOthers(ms: seq<Member>, present: bool, key: string, x: string, y: string, z: string)
    requires IsOptional(ms, present, key, Find(ms, key)) && key != x && key != y && key != z
    ensures Find(ms, x) == Find(ms, y) == Find(ms, z) == None
  {
    FindOptional(ms, present, key, Find(ms, key), x);
    FindOptional(ms, present, key, Find(ms, key), y);
    FindOptional(ms, present, key, Find(ms, key), z);
  }

  lemma DeviceReads(d: Device)
    ensures ReadsDevice(Obj(DeviceMembers(d)), d)
  {
    KeysDiffer();
    CommentReads(d.comment);
    ListReads(Supported, d.supported, "SupportedDevices");
    ListReads(Conflicting, d.conflicting, "ConflictingDevices");
    ValuesRead(d.values);
    FindInFour(CommentTree(d.comment), ListTree(Supported, d.supported), ListTree(Conflicting, d.conflicting), ValuesTree(d.values),
               Commented(d.comment), d.supported != [], d.conflicting != [], d.values != [],
               "Comment", "SupportedDevices", "ConflictingDevices", "Values");
  }

  lemma ModifierReads(m: Modifier)
    ensures ReadsModifier(Obj(CommentTree(m.comment)), m)
  {
    CommentReads(m.comment);
  }

  lemma BlockReads(kind: BlockKind, ms: seq<Member>, key: string)
    requires key == BlockKey(kind)
    ensures IsOptional(BlockTree(kind, ms), ms != [], key, Find(BlockTree(kind, ms), key))
    ensures Find(BlockTree(kind, ms), key) == if ms == [] then None else Some(Obj(ms))
  {
    if ms != [] { FindOne(BlockTree(kind, ms)[0], key); }
  }

  lemma VerbReads(v: Verb)
    ensures ReadsVerb(Obj(VerbMembers(v)), v)
  {
    var ds, ms := DeviceTrees(v.devices), ModifierTrees(v.modifiers);
    DeviceTreesAre(v.devices);
    ModifierTreesAre(v.modifiers);
    forall i | 0 <= i < |ds| ensures ReadsDevice(ds[i].value, v.devices[i]) { DeviceReads(v.devices[i]); }
    forall i | 0 <= i < |ms| ensures ReadsModifier(ms[i].value, v.modifiers[i]) { ModifierReads(v.modifiers[i]); }
    CommentReads(v.comment);
    BlockReads(DevicesBlock, ds, "Devices");
    BlockReads(ModifiersBlock, ms, "Modifiers");
    KeysDiffer();
    var a, b, c := CommentTree(v.comment), BlockTree(DevicesBlock, ds), BlockTree(ModifiersBlock, ms);
    FindInFour(a, b, c, [], Commented(v.comment), v.devices != [], v.modifiers != [], false, "Comment", "Devices", "Modifiers", "");
    assert a + b + c + [] == a + b + c;
    var ka, kb, kc := Optional(Commented(v.comment), "Comment"), Optional(v.devices != [], "Devices"), Optional(v.modifiers != [], "Modifiers");
    assert ka + kb + kc + Optional(false, "") == ka + kb + kc;
  }

  lemma RenderedReads(base: string, out: string, verbs: seq<Verb>)
    requires out == base + PrintText(Tree(verbs))
    ensures VerbsReadable(verbs) ==> ReadsAs(out[|base|..], verbs)
  {
    assert out[|base|..] == PrintText(Tree(verbs));
    if VerbsReadable(verbs) {
      DumpComesBackIff(verbs);
      var vs := VerbTrees(verbs);
      FindOne(Member("Verbs", Obj(vs)), "Verbs");
      VerbTreesAre(verbs);
      forall i | 0 <= i < |vs| ensures ReadsVerb(vs[i].value, verbs[i]) { VerbReads(verbs[i]); }
    }
  }

  /** What jesc shows of a string is the string, or its part in front of the 127th quotation mark. */
  lemma ShownIsCut(s: string)
    ensures Shown(s) <= s && Quotes(Shown(s)) <= 126
    ensures Shown(s) != s ==> s[|Shown(s)|] == '\"' && Quotes(Shown(s)) == 126
  {
    CutFrom(s, 0);
  }

  lemma {:induction false} CutFrom(s: string, quotes: nat)
    requires quotes <= 126
    ensures var r := ShownFrom(s, quotes);
            && r <= s && quotes + Quotes(r) <= 126
            && (r != s ==> s[|r|] == '\"' && quotes + Quotes(r) == 126)
  {
    if s != "" && !(s[0] == QUOTE && quotes == MAX_QUOTES) {
      CutFrom(s[1..], if s[0] == QUOTE then quotes + 1 else quotes);
      var t := ShownFrom(s[1..], if s[0] == QUOTE then quotes + 1 else quotes);
      assert s == [s[0]] + s[1..] && ([s[0]] + t)[1..] == t;
    }
  }
}
