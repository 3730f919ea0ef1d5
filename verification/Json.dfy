/** JSON texts made of objects, arrays and strings: a parser after RFC 8259, a pretty printer in the
    layout of alsaucm, and the proof that they fit together. */
module Json {
  import opened TextFacts
  import Hex

  datatype Value = Str(text: string) | Arr(items: seq<Value>) | Obj(members: seq<Member>)

  datatype Member = Member(key: string, value: Value)

  datatype Parsed<T> = Fail | Ok(value: T, rest: string)

  // ----- strings, RFC 8259 section 7 -----

  const QUOTE: char := '\"'
  const BACKSLASH: char := '\\'

  predicate IsControl(c: char) {
    c < ' '
  }

  /** Characters that must be escaped in a string. */
  predicate Special(c: char) {
    c == QUOTE || c == BACKSLASH || IsControl(c)
  }

  /** The four hexadecimal digits behind a `\u`. */
  function Hex4(s: string): (r: Parsed<nat>)
    ensures r.Ok? ==> |r.rest| < |s| && r.value < 0x1_0000
  {
    if |s| < 4 || exists i :: 0 <= i < 4 && Hex.HexDigit(s[i]) < 0 then Fail
    else Ok(((Hex.HexDigit(s[0]) * 16 + Hex.HexDigit(s[1])) * 16 + Hex.HexDigit(s[2])) * 16 + Hex.HexDigit(s[3]), s[4..])
  }

  /** A character given by its number; two surrogates make one. */
  function UnicodeEscape(s: string): (r: Parsed<char>)
    ensures r.Ok? ==> |r.rest| < |s|
  {
    var h := Hex4(s);
    if h.Fail? then Fail
    else if !(0xd800 <= h.value < 0xe000) then Ok(h.value as char, h.rest)
    else if h.value >= 0xdc00 || |h.rest| < 2 || h.rest[0] != BACKSLASH || h.rest[1] != 'u' then Fail
    else
      var l := Hex4(h.rest[2..]);
      if l.Fail? || !(0xdc00 <= l.value < 0xe000) then Fail
      else Ok((0x1_0000 + (h.value - 0xd800) * 0x400 + (l.value - 0xdc00)) as char, l.rest)
  }

  /** What follows a backslash. */
  function Escape(s: string): (r: Parsed<char>)
    ensures r.Ok? ==> |r.rest| < |s|
  {
    if s == [] then Fail
    else
      match s[0]
      case '\"' => Ok('\"', s[1..])
      case '\\' => Ok('\\', s[1..])
      case '/' => Ok('/', s[1..])
      case 'b' => Ok(8 as char, s[1..])
      case 'f' => Ok(12 as char, s[1..])
      case 'n' => Ok('\n', s[1..])
      case 'r' => Ok('\r', s[1..])
      case 't' => Ok('\t', s[1..])
      case 'u' => UnicodeEscape(s[1..])
      case _ => Fail
  }

  /** The characters of a string behind its opening quotation mark. */
  function Chars(s: string): (r: Parsed<string>)
    ensures r.Ok? ==> |r.rest| < |s|
    decreases |s|
  {
    if s == [] || IsControl(s[0]) then Fail
    else if s[0] == QUOTE then Ok("", s[1..])
    else
      var c := if s[0] == BACKSLASH then Escape(s[1..]) else Ok(s[0], s[1..]);
      if c.Fail? then Fail
      else
        var r := Chars(c.rest);
        if r.Fail? then Fail else Ok([c.value] + r.value, r.rest)
  }

  // ----- structure, RFC 8259 sections 2, 4 and 5 -----

  predicate IsWs(c: char) {
    c == ' ' || c == '\t' || c == '\n' || c == '\r'
  }

  function SkipWs(s: string): (r: string)
    ensures |r| <= |s|
  {
    if s != [] && IsWs(s[0]) then SkipWs(s[1..]) else s
  }

  /** A structural character, with white space in front of it. */
  function Token(c: char, s: string): (r: Parsed<()>)
    ensures r.Ok? ==> |r.rest| < |s|
  {
    var t := SkipWs(s);
    if t != [] && t[0] == c then Ok((), t[1..]) else Fail
  }

  function ParseString(s: string): (r: Parsed<string>)
    ensures r.Ok? ==> |r.rest| < |s|
  {
    var q := Token(QUOTE, s);
    if q.Ok? then Chars(q.rest) else Fail
  }

  function ParseValue(s: string): (r: Parsed<Value>)
    ensures r.Ok? ==> |r.rest| < |s|
    decreases |s|, 0
  {
    if Token(QUOTE, s).Ok? then
      var r := ParseString(s);
      if r.Ok? then Ok(Str(r.value), r.rest) else Fail
    else if Token('[', s).Ok? then
      var inner := Token('[', s).rest;
      if Token(']', inner).Ok? then Ok(Arr([]), Token(']', inner).rest)
      else
        var r := ParseItems(inner);
        if r.Ok? then Ok(Arr(r.value), r.rest) else Fail
    else if Token('{', s).Ok? then
      var inner := Token('{', s).rest;
      if Token('}', inner).Ok? then Ok(Obj([]), Token('}', inner).rest)
      else
        var r := ParseMembers(inner);
        if r.Ok? then Ok(Obj(r.value), r.rest) else Fail
    else Fail
  }

  /** One or more values up to the closing bracket. */
  function ParseItems(s: string): (r: Parsed<seq<Value>>)
    ensures r.Ok? ==> |r.rest| < |s|
    decreases |s|, 1
  {
    var v := ParseValue(s);
    if v.Fail? then Fail
    else if Token(']', v.rest).Ok? then Ok([v.value], Token(']', v.rest).rest)
    else if Token(',', v.rest).Ok? then
      var r := ParseItems(Token(',', v.rest).rest);
      if r.Ok? then Ok([v.value] + r.value, r.rest) else Fail
    else Fail
  }

  function ParseMember(s: string): (r: Parsed<Member>)
    ensures r.Ok? ==> |r.rest| < |s|
    decreases |s|, 1
  {
    var k := ParseString(s);
    if k.Fail? || Token(':', k.rest).Fail? then Fail
    else
      var v := ParseValue(Token(':', k.rest).rest);
      if v.Ok? then Ok(Member(k.value, v.value), v.rest) else Fail
  }

  /** One or more members up to the closing brace. */
  function ParseMembers(s: string): (r: Parsed<seq<Member>>)
    ensures r.Ok? ==> |r.rest| < |s|
    decreases |s|, 2
  {
    var m := ParseMember(s);
    if m.Fail? then Fail
    else if Token('}', m.rest).Ok? then Ok([m.value], Token('}', m.rest).rest)
    else if Token(',', m.rest).Ok? then
      var r := ParseMembers(Token(',', m.rest).rest);
      if r.Ok? then Ok([m.value] + r.value, r.rest) else Fail
    else Fail
  }

  /** A JSON text is one value with white space around it. */
  function ParseText(s: string): (r: Parsed<Value>)
  {
    var v := ParseValue(s);
    if v.Ok? && SkipWs(v.rest) == [] then Ok(v.value, []) else Fail
  }

  // ----- the printer -----

  function Escaped(s: string): string {
    if s == [] then []
    else (if s[0] == QUOTE then [BACKSLASH, QUOTE] else [s[0]]) + Escaped(s[1..])
  }

  function Quoted(s: string): string {
    [QUOTE] + Escaped(s) + [QUOTE]
  }

  function Spaces(n: nat): string {
    if n == 0 then "" else " " + Spaces(n - 1)
  }

  /** A new line, with a comma in front if something goes before. */
  function Line(more: bool, indent: nat): string {
    (if more then ",\n" else "\n") + Spaces(indent)
  }

  function Print(v: Value, indent: nat): string
    decreases v, 0
  {
    match v
    case Str(text) => Quoted(text)
    case Arr(items) => "[" + PrintItems(items, indent + 2, false) + Line(false, indent) + "]"
    case Obj(members) => "{" + PrintMembers(members, indent + 2, false) + Line(false, indent) + "}"
  }

  /** The items of an array; `more` tells that others stand in front of them. */
  function PrintItems(items: seq<Value>, indent: nat, more: bool): string
    decreases items, 1
  {
    if items == [] then ""
    else Line(more, indent) + Print(items[0], indent) + PrintItems(items[1..], indent, true)
  }

  function PrintMember(m: Member, indent: nat): string
    decreases m, 1
  {
    Quoted(m.key) + ": " + Print(m.value, indent)
  }

  function PrintMembers(ms: seq<Member>, indent: nat, more: bool): string
    decreases ms, 2
  {
    if ms == [] then ""
    else Line(more, indent) + PrintMember(ms[0], indent) + PrintMembers(ms[1..], indent, true)
  }

  function PrintText(v: Value): string {
    Print(v, 0) + "\n"
  }

  lemma NothingBehind(s: string)
    ensures s + "" == s
  {
  }

  /** The punctuation of an object with one member. */
  lemma ObjectText(key: string, v: Value, n: nat)
    ensures Print(Obj([Member(key, v)]), n)
         == "{" + ("\n" + Spaces(n + 2) + (("\"" + Escaped(key) + "\"") + ": " + Print(v, n + 2))) + ("\n" + Spaces(n)) + "}"
  {
    var m := Member(key, v);
    assert [m][1..] == [] && "\"" == [QUOTE];
    NothingBehind(Line(false, n + 2) + PrintMember(m, n + 2));
    assert PrintMembers([m], n + 2, false) == Line(false, n + 2) + PrintMember(m, n + 2);
  }

  /** The punctuation of an array with two items. */
  lemma ArrayOfTwoText(v: Value, w: Value, n: nat)
    ensures Print(Arr([v, w]), n)
         == "[" + (("\n" + Spaces(n + 2) + Print(v, n + 2)) + (",\n" + Spaces(n + 2) + Print(w, n + 2))) + ("\n" + Spaces(n)) + "]"
  {
    assert [v, w][1..] == [w] && [w][1..] == [];
    NothingBehind(Line(true, n + 2) + Print(w, n + 2));
    assert PrintItems([w], n + 2, true) == Line(true, n + 2) + Print(w, n + 2);
    assert PrintItems([v, w], n + 2, false) == Line(false, n + 2) + Print(v, n + 2) + PrintItems([w], n + 2, true);
  }

  // ----- strings come back if and only if ... -----

  /** The printer escapes quotation marks only, so this is what it can print. */
  predicate Clean(s: string) {
    forall i :: 0 <= i < |s| ==> s[i] != BACKSLASH && !IsControl(s[i])
  }

  function Quotes(s: string): nat {
    if s == [] then 0 else (if s[0] == QUOTE then 1 else 0) + Quotes(s[1..])
  }

  function Specials(s: string): nat {
    if s == [] then 0 else (if Special(s[0]) then 1 else 0) + Specials(s[1..])
  }

  lemma {:induction false} EscapedLength(s: string)
    ensures |Escaped(s)| == |s| + Quotes(s)
    ensures Quotes(s) <= Specials(s) && (Quotes(s) == Specials(s) <==> Clean(s))
  {
    if s != [] {
      EscapedLength(s[1..]);
      assert Clean(s) <==> s[0] != BACKSLASH && !IsControl(s[0]) && Clean(s[1..]) by {
        assert s == [s[0]] + s[1..];
      }
    }
  }

  /** A special character takes at least two characters to write. */
  lemma {:induction false} CharsCost(t: string)
    requires Chars(t).Ok?
    ensures |t| >= |Chars(t).rest| + 1 + |Chars(t).value| + Specials(Chars(t).value)
  {
    if t[0] != QUOTE {
      var c := if t[0] == BACKSLASH then Escape(t[1..]) else Ok(t[0], t[1..]);
      CharsCost(c.rest);
      var r := Chars(c.rest);
      assert Chars(t).value[1..] == r.value;
    }
  }

  lemma {:induction false} CharsOfEscaped(s: string, rest: string)
    requires Clean(s)
    ensures Chars(Escaped(s) + ([QUOTE] + rest)) == Ok(s, rest)
  {
    if s == [] {
      HeadTail(QUOTE, rest);
      assert [] + ([QUOTE] + rest) == [QUOTE] + rest;
    } else {
      var t := Escaped(s[1..]) + ([QUOTE] + rest);
      CharsOfEscaped(s[1..], rest);
      if s[0] == QUOTE {
        Assoc([BACKSLASH, QUOTE], Escaped(s[1..]), [QUOTE] + rest);
        QuoteFirst(t, s[1..], rest);
      } else {
        Assoc([s[0]], Escaped(s[1..]), [QUOTE] + rest);
        PlainFirst(s[0], t, s[1..], rest);
      }
      assert [s[0]] + s[1..] == s;
    }
  }

  lemma QuoteFirst(t: string, u: string, rest: string)
    requires Chars(t) == Ok(u, rest)
    ensures Chars([BACKSLASH, QUOTE] + t) == Ok([QUOTE] + u, rest)
  {
    HeadTail(BACKSLASH, [QUOTE] + t);
    HeadTail(QUOTE, t);
    assert [BACKSLASH, QUOTE] + t == [BACKSLASH] + ([QUOTE] + t);
  }

  lemma PlainFirst(c: char, t: string, u: string, rest: string)
    requires Chars(t) == Ok(u, rest) && !Special(c)
    ensures Chars([c] + t) == Ok([c] + u, rest)
  {
    HeadTail(c, t);
  }

  /** A printed string is read back, up to its closing quotation mark, if and only if it has no
      backslash and no control character. */
  lemma StringComesBackIff(s: string, rest: string)
    ensures ParseString(Quoted(s) + rest) == Ok(s, rest) <==> Clean(s)
  {
    var t := Escaped(s) + ([QUOTE] + rest);
    assert Quoted(s) + rest == [QUOTE] + t;
    HeadTail(QUOTE, t);
    EscapedLength(s);
    if Clean(s) {
      CharsOfEscaped(s, rest);
    } else if Chars(t).Ok? {
      CharsCost(t);
    }
  }

  // ----- values come back -----

  predicate CleanValue(v: Value)
    decreases v, 0
  {
    match v
    case Str(text) => Clean(text)
    case Arr(items) => CleanItems(items)
    case Obj(members) => CleanMembers(members)
  }

  predicate CleanItems(items: seq<Value>)
    decreases items, 1
  {
    items == [] || (CleanValue(items[0]) && CleanItems(items[1..]))
  }

  predicate CleanMembers(ms: seq<Member>)
    decreases ms, 1
  {
    ms == [] || (Clean(ms[0].key) && CleanValue(ms[0].value) && CleanMembers(ms[1..]))
  }

  predicate AllWs(s: string) {
    s == [] || (IsWs(s[0]) && AllWs(s[1..]))
  }

  lemma {:induction false} SkipsWs(w: string, s: string)
    requires AllWs(w)
    ensures SkipWs(w + s) == SkipWs(s)
  {
    if w == [] {
      assert w + s == s;
    } else {
      SkipsWs(w[1..], s);
      assert (w + s)[0] == w[0] && (w + s)[1..] == w[1..] + s;
    }
  }

  lemma {:induction false} SpacesAreWs(n: nat)
    ensures AllWs(Spaces(n)) && AllWs(Line(false, n))
  {
    if n > 0 { SpacesAreWs(n - 1); HeadTail(' ', Spaces(n - 1)); }
    HeadTail('\n', Spaces(n));
  }

  /** Parsing starts behind white space. */
  lemma ParseSkipsWs(w: string, s: string)
    requires AllWs(w)
    ensures ParseValue(w + s) == ParseValue(s)
    ensures ParseString(w + s) == ParseString(s)
    ensures forall c :: Token(c, w + s) == Token(c, s)
  {
    SkipsWs(w, s);
  }

  lemma ParseManySkipWs(w: string, s: string)
    requires AllWs(w)
    ensures ParseItems(w + s) == ParseItems(s)
    ensures ParseMembers(w + s) == ParseMembers(s)
  {
    ParseSkipsWs(w, s);
  }

  lemma TokenFirst(c: char, d: char, s: string)
    requires !IsWs(c)
    ensures Token(d, [c] + s) == if c == d then Ok((), s) else Fail
  {
    HeadTail(c, s);
  }

  /** A printed value starts with the character that tells its kind. */
  lemma PrintStart(v: Value, indent: nat)
    ensures Print(v, indent) != [] && Print(v, indent)[0] == match v
            case Str(_) => QUOTE
            case Arr(_) => '['
            case Obj(_) => '{'
  {
  }

  lemma ItemsStep(s: string, v: Value, t: string)
    requires ParseValue(s) == Ok(v, t)
    ensures Token(']', t).Ok? ==> ParseItems(s) == Ok([v], Token(']', t).rest)
    ensures Token(']', t).Fail? && Token(',', t).Ok? && ParseItems(Token(',', t).rest).Ok? ==>
      var r := ParseItems(Token(',', t).rest); ParseItems(s) == Ok([v] + r.value, r.rest)
  {
  }

  lemma MembersStep(s: string, m: Member, t: string)
    requires ParseMember(s) == Ok(m, t)
    ensures Token('}', t).Ok? ==> ParseMembers(s) == Ok([m], Token('}', t).rest)
    ensures Token('}', t).Fail? && Token(',', t).Ok? && ParseMembers(Token(',', t).rest).Ok? ==>
      var r := ParseMembers(Token(',', t).rest); ParseMembers(s) == Ok([m] + r.value, r.rest)
  {
  }

  /** The closing character on its own line. */
  lemma TokenOnLine(c: char, indent: nat, rest: string)
    requires !IsWs(c)
    ensures Token(c, Line(false, indent) + [c] + rest) == Ok((), rest)
  {
    SpacesAreWs(indent);
    Assoc(Line(false, indent), [c], rest);
    ParseSkipsWs(Line(false, indent), [c] + rest);
    TokenFirst(c, c, rest);
  }

  /** What comes behind an item if another one follows. */
  lemma CommaLine(indent: nat, next: string, more: string, tail: string, close: char)
    requires close != ','
    ensures var t := Line(true, indent) + next + more + tail;
      && Token(close, t).Fail? && Token(',', t) == Ok((), Line(false, indent) + (next + (more + tail)))
  {
    var u := Line(false, indent) + (next + (more + tail));
    assert Line(true, indent) == [','] + Line(false, indent);
    assert Line(true, indent) + next + more + tail == [','] + u;
    TokenFirst(',', close, u);
    TokenFirst(',', ',', u);
  }

  lemma ItemsMore(s: string, v: Value, t: string, indent: nat, next: string, later: string, tail: string,
                  vs: seq<Value>, rest: string)
    requires ParseValue(s) == Ok(v, t) && t == Line(true, indent) + next + later + tail
    requires ParseItems(next + (later + tail)) == Ok(vs, rest)
    ensures ParseItems(s) == Ok([v] + vs, rest)
  {
    CommaLine(indent, next, later, tail, ']');
    SpacesAreWs(indent);
    ParseManySkipWs(Line(false, indent), next + (later + tail));
    ItemsStep(s, v, t);
  }

  lemma HeadMore<T>(s: seq<T>, head: T, more: seq<T>)
    requires s != [] && head == s[0] && more == s[1..]
    ensures [head] + more == s
  {
  }

  lemma {:induction false} ItemsParse(items: seq<Value>, indent: nat, tail: string, rest: string)
    requires items != [] && CleanItems(items) && Token(']', tail) == Ok((), rest)
    ensures ParseItems(Print(items[0], indent) + (PrintItems(items[1..], indent, true) + tail)) == Ok(items, rest)
    decreases items, 1
  {
    var first, more := items[0], items[1..];
    var t := PrintItems(more, indent, true) + tail;
    var s := Print(first, indent) + t;
    HeadMore(items, first, more);
    PrintParses(first, indent, t);
    if more == [] {
      assert t == tail && [first] == [first] + more;
      ItemsStep(s, first, t);
    } else {
      var next, later := Print(more[0], indent), PrintItems(more[1..], indent, true);
      ItemsParse(more, indent, tail, rest);
      ItemsMore(s, first, t, indent, next, later, tail, more, rest);
    }
  }

  lemma MemberParses(m: Member, indent: nat, t: string)
    requires Clean(m.key) && ParseValue(Print(m.value, indent) + t) == Ok(m.value, t)
    ensures ParseMember(PrintMember(m, indent) + t) == Ok(m, t)
  {
    var v := Print(m.value, indent) + t;
    var s := PrintMember(m, indent) + t;
    assert s == Quoted(m.key) + ([':'] + ([' '] + v));
    StringComesBackIff(m.key, [':'] + ([' '] + v));
    TokenFirst(':', ':', [' '] + v);
    HeadTail(' ', v);
    ParseSkipsWs([' '], v);
  }

  lemma MembersMore(s: string, v: Member, t: string, indent: nat, next: string, later: string, tail: string,
                  vs: seq<Member>, rest: string)
    requires ParseMember(s) == Ok(v, t) && t == Line(true, indent) + next + later + tail
    requires ParseMembers(next + (later + tail)) == Ok(vs, rest)
    ensures ParseMembers(s) == Ok([v] + vs, rest)
  {
    CommaLine(indent, next, later, tail, '}');
    SpacesAreWs(indent);
    ParseManySkipWs(Line(false, indent), next + (later + tail));
    MembersStep(s, v, t);
  }

  lemma {:induction false} MembersParse(ms: seq<Member>, indent: nat, tail: string, rest: string)
    requires ms != [] && CleanMembers(ms) && Token('}', tail) == Ok((), rest)
    ensures ParseMembers(PrintMember(ms[0], indent) + (PrintMembers(ms[1..], indent, true) + tail)) == Ok(ms, rest)
    decreases ms, 2
  {
    var first, more := ms[0], ms[1..];
    var t := PrintMembers(more, indent, true) + tail;
    var s := PrintMember(first, indent) + t;
    HeadMore(ms, first, more);
    FirstMemberParses(first, indent, t);
    if more == [] {
      assert t == tail && [first] == [first] + more;
      MembersStep(s, first, t);
    } else {
      var next, later := PrintMember(more[0], indent), PrintMembers(more[1..], indent, true);
      MembersParse(more, indent, tail, rest);
      MembersMore(s, first, t, indent, next, later, tail, more, rest);
    }
  }

  lemma {:induction false} FirstMemberParses(m: Member, indent: nat, t: string)
    requires Clean(m.key) && CleanValue(m.value)
    ensures ParseMember(PrintMember(m, indent) + t) == Ok(m, t)
    decreases m, 1
  {
    PrintParses(m.value, indent, t);
    MemberParses(m, indent, t);
  }

  /** Behind an opening bracket, and a line break, comes the first item. */
  lemma OpenArray(s: string, w: string, inner: string, items: seq<Value>, rest: string)
    requires s == ['['] + (w + inner) && AllWs(w) && Token(']', inner).Fail? && ParseItems(inner) == Ok(items, rest)
    ensures ParseValue(s) == Ok(Arr(items), rest)
  {
    TokenFirst('[', QUOTE, w + inner);
    TokenFirst('[', '[', w + inner);
    ParseSkipsWs(w, inner);
    ParseManySkipWs(w, inner);
  }

  lemma OpenObject(s: string, w: string, inner: string, ms: seq<Member>, rest: string)
    requires s == ['{'] + (w + inner) && AllWs(w) && Token('}', inner).Fail? && ParseMembers(inner) == Ok(ms, rest)
    ensures ParseValue(s) == Ok(Obj(ms), rest)
  {
    TokenFirst('{', QUOTE, w + inner);
    TokenFirst('{', '[', w + inner);
    TokenFirst('{', '{', w + inner);
    ParseSkipsWs(w, inner);
    ParseManySkipWs(w, inner);
  }

  lemma EmptyBlock(open: char, close: char, indent: nat, rest: string)
    requires (open == '[' && close == ']') || (open == '{' && close == '}')
    ensures ParseValue([open] + (Line(false, indent) + [close] + rest))
         == Ok(if open == '[' then Arr([]) else Obj([]), rest)
  {
    var inner := Line(false, indent) + [close] + rest;
    TokenOnLine(close, indent, rest);
    TokenFirst(open, QUOTE, inner);
    TokenFirst(open, '[', inner);
    TokenFirst(open, '{', inner);
  }

  lemma Layout(open: char, w: string, first: string, more: string, line: string, close: char, rest: string)
    ensures ([open] + (w + first + more) + line + [close]) + rest
         == [open] + (w + (first + (more + (line + [close] + rest))))
  {
  }

  lemma PrintArray(items: seq<Value>, indent: nat)
    requires items != []
    ensures Print(Arr(items), indent)
         == ['['] + (Line(false, indent + 2) + Print(items[0], indent + 2) + PrintItems(items[1..], indent + 2, true))
            + Line(false, indent) + [']']
  {
  }

  lemma PrintObject(ms: seq<Member>, indent: nat)
    requires ms != []
    ensures Print(Obj(ms), indent)
         == ['{'] + (Line(false, indent + 2) + PrintMember(ms[0], indent + 2) + PrintMembers(ms[1..], indent + 2, true))
            + Line(false, indent) + ['}']
  {
  }

  /** The text of an array, in the parts in which it is parsed. */
  lemma ArrayLayout(items: seq<Value>, indent: nat, rest: string)
    requires items != []
    ensures Print(Arr(items), indent) + rest ==
            ['['] + (Line(false, indent + 2) + (Print(items[0], indent + 2) + (PrintItems(items[1..], indent + 2, true) +
                     (Line(false, indent) + [']'] + rest))))
  {
    PrintArray(items, indent);
    Layout('[', Line(false, indent + 2), Print(items[0], indent + 2), PrintItems(items[1..], indent + 2, true),
           Line(false, indent), ']', rest);
  }

  lemma ObjectLayout(ms: seq<Member>, indent: nat, rest: string)
    requires ms != []
    ensures Print(Obj(ms), indent) + rest ==
            ['{'] + (Line(false, indent + 2) + (PrintMember(ms[0], indent + 2) + (PrintMembers(ms[1..], indent + 2, true) +
                     (Line(false, indent) + ['}'] + rest))))
  {
    PrintObject(ms, indent);
    Layout('{', Line(false, indent + 2), PrintMember(ms[0], indent + 2), PrintMembers(ms[1..], indent + 2, true),
           Line(false, indent), '}', rest);
  }

  lemma TokenNot(c: char, s: string)
    requires s != [] && !IsWs(s[0]) && s[0] != c
    ensures Token(c, s).Fail?
  {
  }

  lemma StringParses(text: string, rest: string)
    requires Clean(text)
    ensures ParseValue(Quoted(text) + rest) == Ok(Str(text), rest)
  {
    StringComesBackIff(text, rest);
  }

  lemma FirstStays(s: string, t: string)
    requires s != []
    ensures (s + t)[0] == s[0]
  {
  }

  lemma {:induction false} ArrayParses(items: seq<Value>, indent: nat, rest: string)
    requires items != [] && CleanItems(items)
    ensures ParseValue(Print(Arr(items), indent) + rest) == Ok(Arr(items), rest)
    decreases items, 3
  {
    var w, line := Line(false, indent + 2), Line(false, indent);
    var tail := line + [']'] + rest;
    var first, more := Print(items[0], indent + 2), PrintItems(items[1..], indent + 2, true);
    TokenOnLine(']', indent, rest);
    ItemsParse(items, indent + 2, tail, rest);
    SpacesAreWs(indent + 2);
    PrintStart(items[0], indent + 2);
    FirstStays(first, more + tail);
    TokenNot(']', first + (more + tail));
    ArrayLayout(items, indent, rest);
    OpenArray(Print(Arr(items), indent) + rest, w, first + (more + tail), items, rest);
  }

  lemma {:induction false} ObjectParses(ms: seq<Member>, indent: nat, rest: string)
    requires ms != [] && CleanMembers(ms)
    ensures ParseValue(Print(Obj(ms), indent) + rest) == Ok(Obj(ms), rest)
    decreases ms, 3
  {
    var w, line := Line(false, indent + 2), Line(false, indent);
    var tail := line + ['}'] + rest;
    var first, more := PrintMember(ms[0], indent + 2), PrintMembers(ms[1..], indent + 2, true);
    TokenOnLine('}', indent, rest);
    MembersParse(ms, indent + 2, tail, rest);
    SpacesAreWs(indent + 2);
    FirstStays(first, more + tail);
    TokenNot('}', first + (more + tail));
    ObjectLayout(ms, indent, rest);
    OpenObject(Print(Obj(ms), indent) + rest, w, first + (more + tail), ms, rest);
  }

  /** A printed value is read back, whatever follows. */
  lemma {:induction false} PrintParses(v: Value, indent: nat, rest: string)
    requires CleanValue(v)
    ensures ParseValue(Print(v, indent) + rest) == Ok(v, rest)
    decreases v, 0
  {
    match v
    case Str(text) =>
      StringParses(text, rest);
    case Arr(items) =>
      if items == [] { EmptyArray(indent, rest); } else { ArrayParses(items, indent, rest); }
    case Obj(ms) =>
      if ms == [] { EmptyObject(indent, rest); } else { ObjectParses(ms, indent, rest); }
  }

  lemma EmptyLayout(open: string, line: string, close: string, rest: string)
    ensures (open + "" + line + close) + rest == open + (line + close + rest)
  {
  }

  lemma EmptyArray(indent: nat, rest: string)
    ensures ParseValue(Print(Arr([]), indent) + rest) == Ok(Arr([]), rest)
  {
    EmptyBlock('[', ']', indent, rest);
    EmptyLayout("[", Line(false, indent), "]", rest);
    assert "[" == ['['] && "]" == [']'];
  }

  lemma EmptyObject(indent: nat, rest: string)
    ensures ParseValue(Print(Obj([]), indent) + rest) == Ok(Obj([]), rest)
  {
    EmptyBlock('{', '}', indent, rest);
    EmptyLayout("{", Line(false, indent), "}", rest);
    assert "{" == ['{'] && "}" == ['}'];
  }

  // ----- only clean values come back -----

  /** The characters of a text that are not white space. */
  function Ink(s: string): nat {
    if s == [] then 0 else (if IsWs(s[0]) then 0 else 1) + Ink(s[1..])
  }

  /** How much ink the printer spends on a character of a string. */
  function Printed(c: char): nat {
    if c == QUOTE then 2 else if IsWs(c) then 0 else 1
  }

  /** How much ink the parser needs at least to read a character of a string. */
  function Needed(c: char): nat {
    if Special(c) then 2 else if c == ' ' then 0 else 1
  }

  /** The ink of a value: its structural characters, and those of its strings by their weights. */
  function StringInk(w: char -> nat, s: string): nat {
    if s == [] then 0 else w(s[0]) + StringInk(w, s[1..])
  }

  function ValueInk(w: char -> nat, v: Value): nat
    decreases v, 0
  {
    match v
    case Str(text) => 2 + StringInk(w, text)
    case Arr(items) => if items == [] then 2 else 1 + ItemsInk(w, items)
    case Obj(members) => if members == [] then 2 else 1 + MembersInk(w, members)
  }

  /** Behind each item stands a comma or the closing bracket. */
  function ItemsInk(w: char -> nat, items: seq<Value>): nat
    decreases items, 1
  {
    if items == [] then 0 else ValueInk(w, items[0]) + 1 + ItemsInk(w, items[1..])
  }

  function MemberInk(w: char -> nat, m: Member): nat
    decreases m, 1
  {
    2 + StringInk(w, m.key) + 1 + ValueInk(w, m.value)
  }

  function MembersInk(w: char -> nat, ms: seq<Member>): nat
    decreases ms, 2
  {
    if ms == [] then 0 else MemberInk(w, ms[0]) + 1 + MembersInk(w, ms[1..])
  }

  lemma {:induction false} InkJoin(a: string, b: string)
    ensures Ink(a + b) == Ink(a) + Ink(b)
  {
    if a == [] {
      assert a + b == b;
    } else {
      assert (a + b)[1..] == a[1..] + b;
      InkJoin(a[1..], b);
    }
  }

  lemma InkOfRest(s: string, n: nat)
    requires n <= |s|
    ensures Ink(s[n..]) <= Ink(s)
  {
    assert s == s[..n] + s[n..];
    InkJoin(s[..n], s[n..]);
  }

  // what the parser needs

  lemma {:induction false} InkOfSkip(s: string)
    ensures Ink(SkipWs(s)) == Ink(s)
  {
    if s != [] && IsWs(s[0]) { InkOfSkip(s[1..]); }
  }

  lemma TokenNeeds(c: char, s: string)
    requires !IsWs(c) && Token(c, s).Ok?
    ensures Ink(s) == Ink(Token(c, s).rest) + 1
  {
    InkOfSkip(s);
  }

  lemma UnicodeNeeds(s: string)
    requires UnicodeEscape(s).Ok?
    ensures Ink(UnicodeEscape(s).rest) <= Ink(s)
  {
    var h := Hex4(s);
    InkOfRest(s, 4);
    if 0xd800 <= h.value < 0xe000 {
      InkOfRest(h.rest, 2);
      InkOfRest(h.rest[2..], 4);
    }
  }

  lemma EscapeNeeds(s: string)
    requires Escape(s).Ok?
    ensures Ink(s) >= Ink(Escape(s).rest) + 1
  {
    if s[0] == 'u' { UnicodeNeeds(s[1..]); }
  }

  lemma {:induction false} CharsNeed(t: string)
    requires Chars(t).Ok?
    ensures Ink(t) >= Ink(Chars(t).rest) + 1 + StringInk(Needed, Chars(t).value)
    decreases |t|
  {
    if t[0] != QUOTE {
      var c := if t[0] == BACKSLASH then Escape(t[1..]) else Ok(t[0], t[1..]);
      if t[0] == BACKSLASH { EscapeNeeds(t[1..]); }
      CharsNeed(c.rest);
      assert Chars(t).value == [c.value] + Chars(c.rest).value;
      assert Chars(t).value[1..] == Chars(c.rest).value;
    }
  }

  lemma StringNeeds(t: string)
    requires ParseString(t).Ok?
    ensures Ink(t) >= Ink(ParseString(t).rest) + 2 + StringInk(Needed, ParseString(t).value)
  {
    TokenNeeds(QUOTE, t);
    CharsNeed(Token(QUOTE, t).rest);
  }

  lemma {:induction false} ValueNeeds(t: string)
    requires ParseValue(t).Ok?
    ensures Ink(t) >= Ink(ParseValue(t).rest) + ValueInk(Needed, ParseValue(t).value)
    decreases |t|, 0
  {
    if Token(QUOTE, t).Ok? {
      StringNeeds(t);
    } else if Token('[', t).Ok? {
      var inner := Token('[', t).rest;
      TokenNeeds('[', t);
      if Token(']', inner).Ok? { TokenNeeds(']', inner); } else { ItemsNeed(inner); }
    } else {
      var inner := Token('{', t).rest;
      TokenNeeds('{', t);
      if Token('}', inner).Ok? { TokenNeeds('}', inner); } else { MembersNeed(inner); }
    }
  }

  lemma {:induction false} ItemsNeed(t: string)
    requires ParseItems(t).Ok?
    ensures ParseItems(t).value != []
    ensures Ink(t) >= Ink(ParseItems(t).rest) + ItemsInk(Needed, ParseItems(t).value)
    decreases |t|, 1
  {
    var v := ParseValue(t);
    ValueNeeds(t);
    if Token(']', v.rest).Ok? {
      TokenNeeds(']', v.rest);
      assert [v.value][1..] == [];
    } else {
      var u := Token(',', v.rest).rest;
      TokenNeeds(',', v.rest);
      ItemsNeed(u);
      assert ([v.value] + ParseItems(u).value)[1..] == ParseItems(u).value;
    }
  }

  lemma {:induction false} MembersNeed(t: string)
    requires ParseMembers(t).Ok?
    ensures ParseMembers(t).value != []
    ensures Ink(t) >= Ink(ParseMembers(t).rest) + MembersInk(Needed, ParseMembers(t).value)
    decreases |t|, 2
  {
    var m := ParseMember(t);
    MemberNeeds(t);
    if Token('}', m.rest).Ok? {
      TokenNeeds('}', m.rest);
      assert [m.value][1..] == [];
    } else {
      var u := Token(',', m.rest).rest;
      TokenNeeds(',', m.rest);
      MembersNeed(u);
      assert ([m.value] + ParseMembers(u).value)[1..] == ParseMembers(u).value;
    }
  }

  lemma {:induction false} MemberNeeds(t: string)
    requires ParseMember(t).Ok?
    ensures Ink(t) >= Ink(ParseMember(t).rest) + MemberInk(Needed, ParseMember(t).value)
    decreases |t|, 1
  {
    var k := ParseString(t);
    StringNeeds(t);
    TokenNeeds(':', k.rest);
    ValueNeeds(Token(':', k.rest).rest);
  }

  // what the printer spends

  lemma {:induction false} InkOfSpaces(n: nat)
    ensures Ink(Spaces(n)) == 0
  {
    if n > 0 {
      InkOfSpaces(n - 1);
      HeadTail(' ', Spaces(n - 1));
    }
  }

  lemma InkOfLine(more: bool, n: nat)
    ensures Ink(Line(more, n)) == if more then 1 else 0
  {
    InkOfSpaces(n);
    InkJoin(if more then ",\n" else "\n", Spaces(n));
    assert ",\n"[1..] == "\n" && "\n"[1..] == "";
  }

  lemma {:induction false} InkOfEscaped(s: string)
    ensures Ink(Escaped(s)) == StringInk(Printed, s)
  {
    if s != [] {
      var head := if s[0] == QUOTE then [BACKSLASH, QUOTE] else [s[0]];
      InkJoin(head, Escaped(s[1..]));
      assert [BACKSLASH, QUOTE][1..] == [QUOTE] && [QUOTE][1..] == [] && [s[0]][1..] == [];
      InkOfEscaped(s[1..]);
    }
  }

  lemma InkOfChar(c: char)
    ensures Ink([c]) == if IsWs(c) then 0 else 1
  {
    assert [c][1..] == [];
  }

  lemma InkOfQuoted(s: string)
    ensures Ink(Quoted(s)) == 2 + StringInk(Printed, s)
  {
    InkJoin([QUOTE] + Escaped(s), [QUOTE]);
    InkJoin([QUOTE], Escaped(s));
    InkOfChar(QUOTE);
    InkOfEscaped(s);
  }

  /** An array or object around its printed items. */
  lemma InkOfBlock(open: char, inner: string, indent: nat, close: char)
    requires !IsWs(open) && !IsWs(close)
    ensures Ink([open] + inner + Line(false, indent) + [close]) == Ink(inner) + 2
  {
    InkJoin([open] + inner + Line(false, indent), [close]);
    InkJoin([open] + inner, Line(false, indent));
    InkJoin([open], inner);
    InkOfLine(false, indent);
    InkOfChar(open);
    InkOfChar(close);
  }

  lemma {:induction false} InkOfPrint(v: Value, indent: nat)
    ensures Ink(Print(v, indent)) == ValueInk(Printed, v)
    decreases v, 0
  {
    match v
    case Str(text) => InkOfQuoted(text);
    case Arr(items) =>
      InkOfItems(items, indent + 2, false);
      InkOfBlock('[', PrintItems(items, indent + 2, false), indent, ']');
    case Obj(members) =>
      InkOfMembers(members, indent + 2, false);
      InkOfBlock('{', PrintMembers(members, indent + 2, false), indent, '}');
  }

  lemma {:induction false} InkOfItems(items: seq<Value>, indent: nat, more: bool)
    ensures Ink(PrintItems(items, indent, more)) + (if items != [] && !more then 1 else 0) == ItemsInk(Printed, items)
    decreases items, 1
  {
    if items != [] {
      InkJoin(Line(more, indent) + Print(items[0], indent), PrintItems(items[1..], indent, true));
      InkJoin(Line(more, indent), Print(items[0], indent));
      InkOfLine(more, indent);
      InkOfPrint(items[0], indent);
      InkOfItems(items[1..], indent, true);
    }
  }

  lemma {:induction false} InkOfMember(m: Member, indent: nat)
    ensures Ink(PrintMember(m, indent)) == MemberInk(Printed, m)
    decreases m, 1
  {
    InkJoin(Quoted(m.key) + ": ", Print(m.value, indent));
    InkJoin(Quoted(m.key), ": ");
    assert ": "[1..] == " " && " "[1..] == "";
    InkOfQuoted(m.key);
    InkOfPrint(m.value, indent);
  }

  lemma {:induction false} InkOfMembers(ms: seq<Member>, indent: nat, more: bool)
    ensures Ink(PrintMembers(ms, indent, more)) + (if ms != [] && !more then 1 else 0) == MembersInk(Printed, ms)
    decreases ms, 2
  {
    if ms != [] {
      InkJoin(Line(more, indent) + PrintMember(ms[0], indent), PrintMembers(ms[1..], indent, true));
      InkJoin(Line(more, indent), PrintMember(ms[0], indent));
      InkOfLine(more, indent);
      InkOfMember(ms[0], indent);
      InkOfMembers(ms[1..], indent, true);
    }
  }

  // and the two compared

  lemma {:induction false} StringTooShort(s: string)
    ensures StringInk(Printed, s) <= StringInk(Needed, s)
    ensures StringInk(Printed, s) == StringInk(Needed, s) ==> Clean(s)
  {
    if s != [] { StringTooShort(s[1..]); }
  }

  lemma {:induction false} ValueTooShort(v: Value)
    ensures ValueInk(Printed, v) <= ValueInk(Needed, v)
    ensures ValueInk(Printed, v) == ValueInk(Needed, v) ==> CleanValue(v)
    decreases v, 0
  {
    match v
    case Str(text) => StringTooShort(text);
    case Arr(items) => ItemsTooShort(items);
    case Obj(members) => MembersTooShort(members);
  }

  lemma {:induction false} ItemsTooShort(items: seq<Value>)
    ensures ItemsInk(Printed, items) <= ItemsInk(Needed, items)
    ensures ItemsInk(Printed, items) == ItemsInk(Needed, items) ==> CleanItems(items)
    decreases items, 1
  {
    if items != [] {
      ValueTooShort(items[0]);
      ItemsTooShort(items[1..]);
    }
  }

  lemma {:induction false} MembersTooShort(ms: seq<Member>)
    ensures MembersInk(Printed, ms) <= MembersInk(Needed, ms)
    ensures MembersInk(Printed, ms) == MembersInk(Needed, ms) ==> CleanMembers(ms)
    decreases ms, 2
  {
    if ms != [] {
      StringTooShort(ms[0].key);
      ValueTooShort(ms[0].value);
      MembersTooShort(ms[1..]);
    }
  }

  /** Main result: a printed text is read back as the same value if and only if no string in it,
      name or text, has a backslash or a control character. */
  lemma TextComesBackIff(v: Value)
    ensures ParseText(PrintText(v)) == Ok(v, []) <==> CleanValue(v)
  {
    assert "\n"[1..] == [];
    if CleanValue(v) {
      PrintParses(v, 0, "\n");
    } else {
      var t := PrintText(v);
      InkJoin(Print(v, 0), "\n");
      InkOfPrint(v, 0);
      ValueTooShort(v);
      if ParseValue(t).Ok? { ValueNeeds(t); }
    }
  }
}
