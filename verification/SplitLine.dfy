/** The in-place tokenizer of amixer: it splits a line at unquoted white space, strips quotes and
    backslashes, and leaves the tokens as zero-terminated strings inside the line itself. */
module SplitLine {
  import opened Arithmetic
  import opened TextFacts

  const NUL: char := '\0'

  /** isspace in the C locale */
  predicate IsSpace(c: char) {
    c == ' ' || '\t' <= c <= '\r'
  }

  predicate IsQuote(c: char) {
    c == '\'' || c == '\"'
  }

  predicate StartsComment(c: char) {
    c == '#' || c == '!'
  }

  // ----- the tokenizer as a function of the text -----

  /** The text of a token and how many characters of the line it takes up. */
  datatype Scanned = Scanned(text: string, used: nat)

  function Kept(c: char, r: Scanned): Scanned { Scanned([c] + r.text, r.used + 1) }

  function Dropped(r: Scanned): Scanned { Scanned(r.text, r.used + 1) }

  /** What becomes of one character: it ends the token, it only changes the state, or it is
      part of the text. The state is whether the last character was an escaping backslash, and
      which quote is open (NUL if none). */
  datatype Fate = Ends | Skipped(esc: bool, quote: char) | Copied

  /** The chain of tests in the inner loop. */
  function Look(c: char, esc: bool, quote: char): (fate: Fate)
  {
    if esc then Copied
    else if IsSpace(c) && quote == NUL then Ends
    else if c == '\\' then Skipped(true, quote)
    else if IsQuote(c) && quote == NUL then Skipped(false, c)
    else if IsQuote(c) && quote == c then Skipped(false, NUL)
    else Copied
  }

  /** Reads one token from the front of `s`. */
  function Scan(s: string, esc: bool, quote: char): (r: Scanned)
    ensures |r.text| <= r.used <= |s|
  {
    if s == [] || s[0] == '\n' then Scanned([], 0)
    else
      match Look(s[0], esc, quote)
      case Ends => Scanned([], 1)
      case Skipped(esc', quote') => Dropped(Scan(s[1..], esc', quote'))
      case Copied => Kept(s[0], Scan(s[1..], false, quote))
  }

  function SkipSpace(s: string): (r: string)
    ensures |r| <= |s|
  {
    if s != [] && IsSpace(s[0]) then SkipSpace(s[1..]) else s
  }

  /** At most `max` tokens of the text. */
  function Tokens(s: string, max: nat): (r: seq<string>)
    ensures |r| <= max
    decreases max
  {
    var t := SkipSpace(s);
    if max == 0 || t == [] || StartsComment(t[0]) then []
    else
      var r := Scan(t, false, NUL);
      [r.text] + Tokens(t[r.used..], max - 1)
  }

  // ----- what a tokenizer is for: any way of writing the tokens down is read back -----

  /** A character written as itself or behind a backslash. */
  datatype Letter = Bare(c: char) | Escaped(c: char)

  /** A letter outside of quotes, or a quoted part. */
  datatype Piece = Single(letter: Letter) | Quoted(quote: char, body: seq<Letter>)

  predicate Writable(c: char) {
    c != '\0' && c != '\n'
  }

  /** Blank, tab, newline, vertical tab, form feed or carriage return. */
  predicate Blank(c: char) {
    c as int in {32, 9, 10, 11, 12, 13}
  }

  predicate GoodLetter(l: Letter, quote: char)
  {
    && Writable(l.c)
    && (l.Bare? ==> l.c != '\\' && if quote == '\0' then !Blank(l.c) && l.c != '\'' && l.c != '\"' else l.c != quote)
  }

  predicate GoodPiece(p: Piece)
  {
    match p
    case Single(l) => GoodLetter(l, '\0')
    case Quoted(q, body) => q in {'\'', '\"'} && forall i :: 0 <= i < |body| ==> GoodLetter(body[i], q)
  }

  function WriteLetter(l: Letter): string {
    if l.Bare? then [l.c] else ['\\', l.c]
  }

  function WriteLetters(ls: seq<Letter>): string {
    if ls == [] then [] else WriteLetter(ls[0]) + WriteLetters(ls[1..])
  }

  function WritePiece(p: Piece): string {
    match p
    case Single(l) => WriteLetter(l)
    case Quoted(q, body) => [q] + WriteLetters(body) + [q]
  }

  function WritePieces(ps: seq<Piece>): string {
    if ps == [] then [] else WritePiece(ps[0]) + WritePieces(ps[1..])
  }

  function LettersText(ls: seq<Letter>): (t: string)
    ensures |t| == |ls|
  {
    if ls == [] then [] else [ls[0].c] + LettersText(ls[1..])
  }

  function PieceText(p: Piece): string {
    match p
    case Single(l) => [l.c]
    case Quoted(q, body) => LettersText(body)
  }

  function PiecesText(ps: seq<Piece>): string {
    if ps == [] then [] else PieceText(ps[0]) + PiecesText(ps[1..])
  }

  /** A token as written: it is not empty and does not look like a comment. */
  predicate GoodToken(ps: seq<Piece>)
  {
    && ps != []
    && (forall i :: 0 <= i < |ps| ==> GoodPiece(ps[i]))
    && (ps[0].Single? && ps[0].letter.Bare? ==> ps[0].letter.c != '#' && ps[0].letter.c != '!')
  }

  predicate AllBlank(s: string) {
    forall i :: 0 <= i < |s| ==> Blank(s[i])
  }

  /** A token with the white space in front of it. */
  datatype Word = Word(gap: string, pieces: seq<Piece>)

  predicate GoodWord(w: Word, first: bool) {
    GoodToken(w.pieces) && AllBlank(w.gap) && (first || w.gap != [])
  }

  predicate GoodWords(ws: seq<Word>) {
    forall i :: 0 <= i < |ws| ==> GoodWord(ws[i], i == 0)
  }

  /** What may follow the last token: white space and perhaps a comment, which may also be all there is. */
  predicate GoodEnd(gap: string, comment: string, first: bool) {
    AllBlank(gap) && (comment != "" ==> comment[0] in {'#', '!'} && (first || gap != ""))
  }

  function WriteLine(ws: seq<Word>, end: string): string {
    if ws == [] then end else ws[0].gap + (WritePieces(ws[0].pieces) + WriteLine(ws[1..], end))
  }

  function Texts(ws: seq<Word>): (ts: seq<string>)
    ensures |ts| == |ws|
  {
    if ws == [] then [] else [PiecesText(ws[0].pieces)] + Texts(ws[1..])
  }

  function Prepend(text: string, n: nat, r: Scanned): Scanned {
    Scanned(text + r.text, n + r.used)
  }

  lemma PrependTwice(a: string, m: nat, b: string, n: nat, r: Scanned)
    ensures Prepend(a, m, Prepend(b, n, r)) == Prepend(a + b, m + n, r)
  {
    Assoc(a, b, r.text);
  }

  lemma ScanLetter(l: Letter, s: string, quote: char)
    requires GoodLetter(l, quote) && (quote == NUL || IsQuote(quote))
    ensures Scan(WriteLetter(l) + s, false, quote)
         == Prepend([l.c], |WriteLetter(l)|, Scan(s, false, quote))
  {
    HeadTail(l.c, s);
    if l.Escaped? {
      Assoc(['\\'], [l.c], s);
      HeadTail('\\', [l.c] + s);
      assert WriteLetter(l) == ['\\'] + [l.c];
    }
  }

  lemma {:induction false} ScanLetters(ls: seq<Letter>, s: string, quote: char)
    requires (forall i :: 0 <= i < |ls| ==> GoodLetter(ls[i], quote)) && (quote == NUL || IsQuote(quote))
    ensures Scan(WriteLetters(ls) + s, false, quote)
         == Prepend(LettersText(ls), |WriteLetters(ls)|, Scan(s, false, quote))
  {
    var r := Scan(s, false, quote);
    if ls == [] {
      assert [] + s == s && [] + r.text == r.text;
    } else {
      var w, rest := WriteLetter(ls[0]), WriteLetters(ls[1..]);
      ScanLetters(ls[1..], s, quote);
      ScanLetter(ls[0], rest + s, quote);
      JoinTwo(w, rest, s, [ls[0].c], LettersText(ls[1..]), r);
    }
  }

  /** Two parts of a token, one after the other. */
  lemma JoinTwo(w: string, rest: string, s: string, a: string, b: string, r: Scanned)
    ensures (w + rest) + s == w + (rest + s)
    ensures Prepend(a, |w|, Prepend(b, |rest|, r)) == Prepend(a + b, |w + rest|, r)
  {
    Assoc(w, rest, s);
    PrependTwice(a, |w|, b, |rest|, r);
  }

  lemma OpenQuote(q: char, t: string)
    requires IsQuote(q)
    ensures Scan([q] + t, false, NUL) == Dropped(Scan(t, false, q))
  {
    HeadTail(q, t);
  }

  lemma CloseQuote(q: char, t: string)
    requires IsQuote(q)
    ensures Scan([q] + t, false, q) == Dropped(Scan(t, false, NUL))
  {
    HeadTail(q, t);
  }

  lemma QuotedParts(q: char, inner: string, s: string, text: string, r: Scanned)
    ensures [q] + inner + [q] + s == [q] + (inner + ([q] + s))
    ensures Dropped(Prepend(text, |inner|, Dropped(r))) == Prepend(text, |[q] + inner + [q]|, r)
  {
  }

  lemma ScanPiece(p: Piece, s: string)
    requires GoodPiece(p)
    ensures Scan(WritePiece(p) + s, false, NUL) == Prepend(PieceText(p), |WritePiece(p)|, Scan(s, false, NUL))
  {
    match p
    case Single(l) => ScanLetter(l, s, NUL);
    case Quoted(q, body) =>
      ScanLetters(body, [q] + s, q);
      OpenQuote(q, WriteLetters(body) + ([q] + s));
      CloseQuote(q, s);
      QuotedParts(q, WriteLetters(body), s, LettersText(body), Scan(s, false, NUL));
  }

  lemma {:induction false} ScanPieces(ps: seq<Piece>, s: string)
    requires forall i :: 0 <= i < |ps| ==> GoodPiece(ps[i])
    ensures Scan(WritePieces(ps) + s, false, NUL)
         == Prepend(PiecesText(ps), |WritePieces(ps)|, Scan(s, false, NUL))
  {
    var r := Scan(s, false, NUL);
    if ps == [] {
      assert [] + s == s && [] + r.text == r.text;
    } else {
      var w, rest := WritePiece(ps[0]), WritePieces(ps[1..]);
      ScanPieces(ps[1..], s);
      ScanPiece(ps[0], rest + s);
      JoinTwo(w, rest, s, PieceText(ps[0]), PiecesText(ps[1..]), r);
    }
  }

  lemma {:induction false} SkipGap(gap: string, s: string)
    requires AllBlank(gap)
    ensures SkipSpace(gap + s) == SkipSpace(s)
  {
    if gap == [] {
      assert [] + s == s;
    } else {
      assert (gap + s)[1..] == gap[1..] + s;
      SkipGap(gap[1..], s);
    }
  }

  /** A written token neither starts with white space nor like a comment. */
  lemma TokenStart(ps: seq<Piece>)
    requires GoodToken(ps)
    ensures var w := WritePieces(ps); w != [] && !IsSpace(w[0]) && !StartsComment(w[0])
  {
    assert GoodPiece(ps[0]);
    assert WritePieces(ps)[0] == WritePiece(ps[0])[0];
  }

  /** Behind a token the scan stops at the white space of the next one. */
  lemma ScanStops(s: string)
    requires s != [] ==> IsSpace(s[0])
    ensures Scan(s, false, NUL) == Scanned([], if s == [] || s[0] == '\n' then 0 else 1)
  {
  }

  lemma {:induction false} SkipAfterStop(s: string)
    requires s != [] ==> IsSpace(s[0])
    ensures SkipSpace(s[Scan(s, false, NUL).used..]) == SkipSpace(s)
  {
    ScanStops(s);
    if s != [] { assert s[0..] == s; }
  }

  lemma TokensDependOnSkipped(s: string, t: string, max: nat)
    requires SkipSpace(s) == SkipSpace(t)
    ensures Tokens(s, max) == Tokens(t, max)
  {
  }

  /** Nothing, or white space first. */
  predicate Spaced(s: string) {
    s != [] ==> IsSpace(s[0])
  }

  lemma RestIsSpaced(ws: seq<Word>, end: string)
    requires ws != [] && GoodWords(ws) && Spaced(end)
    ensures var rest := WriteLine(ws[1..], end); rest != [] ==> IsSpace(rest[0])
  {
    if |ws| > 1 {
      assert GoodWord(ws[1], false) && ws[1..][0] == ws[1];
    }
  }

  lemma DropFront(a: string, b: string, u: nat)
    requires u <= |b|
    ensures (a + b)[|a| + u..] == b[u..]
  {
  }

  lemma FirstOfTokens(line: string, body: string, text: string, rest: string, r: Scanned, max: nat)
    requires body != [] && !StartsComment(body[0]) && max > 0 && SkipSpace(line) == body
    requires r == Scan(body, false, NUL) && r.text == text && SkipSpace(body[r.used..]) == SkipSpace(rest)
    ensures Tokens(line, max) == [text] + Tokens(rest, max - 1)
  {
    TokensDependOnSkipped(body[r.used..], rest, max - 1);
  }

  lemma ScanToken(tok: string, text: string, rest: string, r: Scanned, u: nat)
    requires rest != [] ==> IsSpace(rest[0])
    requires u == Scan(rest, false, NUL).used && r == Prepend(text, |tok|, Scan(rest, false, NUL))
    ensures r.text == text && r.used <= |tok + rest| && SkipSpace((tok + rest)[r.used..]) == SkipSpace(rest)
  {
    ScanStops(rest);
    SkipAfterStop(rest);
    DropFront(tok, rest, u);
  }

  lemma SkipNothing(s: string)
    requires s != [] && !IsSpace(s[0])
    ensures SkipSpace(s) == s
  {
  }

  lemma TokensOfFirst(w: Word, rest: string, max: nat)
    requires GoodWord(w, true) && max > 0 && (rest != [] ==> IsSpace(rest[0]))
    ensures Tokens(w.gap + (WritePieces(w.pieces) + rest), max)
         == [PiecesText(w.pieces)] + Tokens(rest, max - 1)
  {
    var tok, text := WritePieces(w.pieces), PiecesText(w.pieces);
    var body := tok + rest;
    SkipGap(w.gap, body);
    TokenStart(w.pieces);
    assert body[0] == tok[0];
    SkipNothing(body);
    ScanPieces(w.pieces, rest);
    var r := Scan(body, false, NUL);
    ScanToken(tok, text, rest, r, Scan(rest, false, NUL).used);
    FirstOfTokens(w.gap + body, body, text, rest, r, max);
  }

  lemma GoodRest(ws: seq<Word>)
    requires GoodWords(ws) && ws != []
    ensures GoodWords(ws[1..])
  {
    forall i | 0 <= i < |ws[1..]| ensures GoodWord(ws[1..][i], i == 0) {
      assert GoodWord(ws[i + 1], false);
    }
  }

  lemma FirstAndRest(ws: seq<Word>, end: string, max: nat)
    requires ws != [] && GoodWords(ws) && Spaced(end) && max > 0
    requires Tokens(WriteLine(ws[1..], end), max - 1) == Texts(ws[1..])[..Min(|ws| - 1, max - 1)]
    ensures Tokens(WriteLine(ws, end), max) == Texts(ws)[..Min(|ws|, max)]
  {
    SplitFirst(ws, end, max);
    TextsSplit(ws);
    OneMoreToken(Tokens(WriteLine(ws, end), max), PiecesText(ws[0].pieces),
                 Tokens(WriteLine(ws[1..], end), max - 1), Texts(ws[1..]), Texts(ws), max);
  }

  lemma OneMoreToken(got: seq<string>, t: string, more: seq<string>, ts: seq<string>, all: seq<string>, max: nat)
    requires max > 0 && got == [t] + more && more == ts[..Min(|ts|, max - 1)] && all == [t] + ts
    ensures got == all[..Min(|all|, max)]
  {
  }

  lemma TextsSplit(ws: seq<Word>)
    requires ws != []
    ensures Texts(ws) == [PiecesText(ws[0].pieces)] + Texts(ws[1..])
  {
  }

  lemma SplitFirst(ws: seq<Word>, end: string, max: nat)
    requires ws != [] && GoodWords(ws) && Spaced(end) && max > 0
    ensures Tokens(WriteLine(ws, end), max)
         == [PiecesText(ws[0].pieces)] + Tokens(WriteLine(ws[1..], end), max - 1)
  {
    assert GoodWord(ws[0], true);
    RestIsSpaced(ws, end);
    TokensOfFirst(ws[0], WriteLine(ws[1..], end), max);
  }

  lemma {:induction false} SplitSpaced(ws: seq<Word>, end: string, max: nat)
    requires GoodWords(ws) && Tokens(end, max) == [] && (ws != [] ==> Spaced(end))
    requires forall k: nat :: k <= max ==> Tokens(end, k) == []
    ensures Tokens(WriteLine(ws, end), max) == Texts(ws)[..Min(|ws|, max)]
  {
    if ws == [] || max == 0 {
      assert Texts(ws)[..0] == [];
    } else {
      GoodRest(ws);
      SplitSpaced(ws[1..], end, max - 1);
      FirstAndRest(ws, end, max);
    }
  }

  lemma EndHasNoToken(gap: string, comment: string, first: bool, max: nat)
    requires GoodEnd(gap, comment, first)
    ensures Tokens(gap + comment, max) == [] && (!first ==> Spaced(gap + comment))
  {
    SkipGap(gap, comment);
    if comment != "" { SkipNothing(comment); }
  }

  /** Main result: however the tokens are written (bare, escaped, quoted with either quote, or mixed; any
      white space between them; a comment behind them), splitting returns their texts, up to `max` of
      them. The characters that play a part in the writing are named one by one. */
  lemma SplitReadsWriting(ws: seq<Word>, gap: string, comment: string, max: nat)
    requires GoodWords(ws) && GoodEnd(gap, comment, ws == [])
    ensures Tokens(WriteLine(ws, gap + comment), max) == Texts(ws)[..Min(|ws|, max)]
  {
    forall k: nat | k <= max
      ensures Tokens(gap + comment, k) == [] && (ws != [] ==> Spaced(gap + comment))
    {
      EndHasNoToken(gap, comment, ws == [], k);
    }
    SplitSpaced(ws, gap + comment, max);
  }

  /** The plainest writer: a backslash in front of every character, one blank between tokens. */
  function EscapeAll(t: string): (ps: seq<Piece>)
    ensures |ps| == |t| && forall i :: 0 <= i < |t| ==> ps[i] == Single(Escaped(t[i]))
  {
    if t == [] then [] else [Single(Escaped(t[0]))] + EscapeAll(t[1..])
  }

  function Backslashed(t: string): string {
    if t == [] then [] else ['\\', t[0]] + Backslashed(t[1..])
  }

  function Joined(ts: seq<string>): string {
    if ts == [] then [] else [' '] + (Backslashed(ts[0]) + Joined(ts[1..]))
  }

  function EscapedWords(ts: seq<string>): (ws: seq<Word>)
    ensures |ws| == |ts| && forall i :: 0 <= i < |ts| ==> ws[i] == Word([' '], EscapeAll(ts[i]))
  {
    if ts == [] then [] else [Word([' '], EscapeAll(ts[0]))] + EscapedWords(ts[1..])
  }

  lemma {:induction false} EscapeAllWrites(t: string)
    ensures WritePieces(EscapeAll(t)) == Backslashed(t) && PiecesText(EscapeAll(t)) == t
  {
    if t != [] {
      EscapeAllWrites(t[1..]);
      assert EscapeAll(t)[1..] == EscapeAll(t[1..]);
    }
  }

  lemma {:induction false} EscapedWordsWrite(ts: seq<string>)
    ensures WriteLine(EscapedWords(ts), []) == Joined(ts) && Texts(EscapedWords(ts)) == ts
  {
    if ts != [] {
      EscapeAllWrites(ts[0]);
      EscapedWordsWrite(ts[1..]);
      assert EscapedWords(ts)[1..] == EscapedWords(ts[1..]);
    }
  }

  /** Escaping every character, joining with blanks and splitting again returns the tokens. */
  lemma EscapeJoinSplit(ts: seq<string>, max: nat)
    requires |ts| <= max
    requires forall i :: 0 <= i < |ts| ==> ts[i] != [] && forall k :: 0 <= k < |ts[i]| ==> Writable(ts[i][k])
    ensures Tokens(Joined(ts), max) == ts
  {
    var ws := EscapedWords(ts);
    forall i | 0 <= i < |ws| ensures GoodWord(ws[i], i == 0) {
      assert ws[i].pieces == EscapeAll(ts[i]) && ts[i] != [];
    }
    SplitReadsWriting(ws, [], [], max);
    assert [] + [] == "";
    EscapedWordsWrite(ts);
    assert ts[..|ts|] == ts;
  }

  // ----- the in-place code -----

  /** The line as getline returns it: zero-terminated at `end`, with no newline but perhaps at the
      end. */
  ghost predicate IsLine(s: string)
  {
    forall i :: 0 <= i < |s| ==> s[i] != NUL && (s[i] == '\n' ==> i == |s| - 1)
  }

  /** A zero-terminated string inside the buffer. */
  ghost predicate StringAt(b: string, at: nat, text: string)
  {
    && at + |text| < |b| && b[at..at + |text|] == text && b[at + |text|] == NUL
    && NUL !in text
  }

  /** The characters of the token so far with what the scan adds from position `p` on are the
      whole token. */
  ghost predicate Partly(done: string, p: nat, rest: Scanned, whole: Scanned)
  {
    Prepend(done, p, rest) == whole
  }

  lemma DropStep(done: string, p: nat, rest: Scanned, whole: Scanned)
    requires Partly(done, p, Dropped(rest), whole)
    ensures Partly(done, p + 1, rest, whole)
  {
  }

  lemma KeepStep(done: string, p: nat, c: char, rest: Scanned, whole: Scanned)
    requires Partly(done, p, Kept(c, rest), whole)
    ensures Partly(done + [c], p + 1, rest, whole)
  {
    Assoc(done, [c], rest.text);
  }

  lemma ScanDone(done: string, p: nat, used: nat, whole: Scanned)
    requires Partly(done, p, Scanned([], used), whole)
    ensures whole == Scanned(done, p + used)
  {
    assert done + [] == done;
  }

  lemma ScanBegins(s: string)
    ensures Partly([], 0, Scan(s, false, NUL), Scan(s, false, NUL))
  {
    assert [] + Scan(s, false, NUL).text == Scan(s, false, NUL).text;
  }

  /** `*dst++ = c` behind the characters already moved. */
  method Store(buf: array<char>, at: nat, d: nat, c: char, ghost done: string)
    requires at <= d < buf.Length && buf[at..d] == done
    modifies buf
    ensures buf[at..d + 1] == done + [c]
    ensures forall i :: 0 <= i < buf.Length && i != d ==> buf[i] == old(buf[i])
  {
    buf[d] := c;
    assert buf[at..d] == done;
  }

  /** One round of the inner loop, for the character under the read cursor `p`: the line from
      there on is `t`. */
  method Move(buf: array<char>, at: nat, p: nat, d: nat, fate: Fate, ghost end: nat, ghost t: string,
              ghost done: string, ghost rest: Scanned, ghost whole: Scanned)
    returns (d': nat, ghost done': string)
    requires at <= d <= p < end < buf.Length && t == buf[p..end] && t[0] != NUL
    requires done == buf[at..d] && NUL !in done
    requires Partly(done, p - at, if fate.Copied? then Kept(t[0], rest) else Dropped(rest), whole)
    modifies buf
    ensures d <= d' <= d + 1
    ensures forall i :: 0 <= i < at || p < i < buf.Length ==> buf[i] == old(buf[i])
    ensures t[1..] == buf[p + 1..end]
    ensures done' == buf[at..d'] && NUL !in done' && Partly(done', p + 1 - at, rest, whole)
  {
    d', done' := d, done;
    assert t[1..] == buf[p + 1..end];
    if fate == Copied {
      KeepStep(done, p - at, t[0], rest, whole);
      var c := buf[p];
      Store(buf, at, d, c, done);
      d', done' := d + 1, done + [c];
      assert t[1..] == buf[p + 1..end];
    } else {
      DropStep(done, p - at, rest, whole);
    }
  }

  /** What remains to be scanned behind the first character. */
  ghost function After(t: string, esc: bool, quote: char): Scanned
    requires t != []
  {
    match Look(t[0], esc, quote)
    case Ends => Scanned([], 0)
    case Skipped(esc', quote') => Scan(t[1..], esc', quote')
    case Copied => Scan(t[1..], false, quote)
  }

  lemma ScanRound(t: string, esc: bool, quote: char, c: char, fate: Fate, rest': Scanned)
    requires t != [] && t[0] == c != '\n' && fate == Look(c, esc, quote) && rest' == After(t, esc, quote)
    ensures Scan(t, esc, quote) == if fate.Copied? then Kept(c, rest') else Dropped(rest')
  {
  }

  lemma ScanAtEnd(t: string, esc: bool, quote: char)
    requires t != [] ==> t[0] == '\n'
    ensures Scan(t, esc, quote) == Scanned([], 0)
  {
  }

  /** The inner loop: reads the token at `at` and moves its characters to the front. The read
      cursor ends at `next` and the write cursor at `dst`. */
  method ScanInPlace(buf: array<char>, at: nat, ghost end: nat, ghost s: string, ghost whole: Scanned)
    returns (next: nat, dst: nat)
    requires at <= end < buf.Length && buf[end] == NUL && s == buf[at..end] && NUL !in s
    requires whole == Scan(s, false, NUL)
    modifies buf
    ensures at <= dst <= next <= end && whole == Scanned(buf[at..dst], next - at)
    ensures NUL !in buf[at..dst]
    ensures forall i :: 0 <= i < at || next <= i < buf.Length ==> buf[i] == old(buf[i])
  {
    var esc, quote := false, NUL;
    next, dst := at, at;
    ghost var done, t, rest := "", s, whole;
    ScanBegins(s);
    while buf[next] != NUL && buf[next] != '\n'
      invariant at <= dst <= next <= end && buf[end] == NUL && NUL !in t
      invariant forall i :: 0 <= i < at || next <= i < buf.Length ==> buf[i] == old(buf[i])
      invariant done == buf[at..dst] && NUL !in done
      invariant t == buf[next..end] && rest == Scan(t, esc, quote)
      invariant Partly(done, next - at, rest, whole)
      decreases end - next
    {
      assert t[0] == buf[next];
      var fate := Look(buf[next], esc, quote);
      rest := After(t, esc, quote);
      ScanRound(t, esc, quote, buf[next], fate, rest);
      dst, done := Move(buf, at, next, dst, fate, end, t, done, rest, whole);
      t := t[1..];
      next := next + 1;
      if fate == Ends { break; }
      quote := if fate.Skipped? then fate.quote else quote;
      esc := fate.Skipped? && fate.esc;
    }
    if rest != Scanned([], 0) { ScanAtEnd(t, esc, quote); }
    ScanDone(done, next - at, 0, whole);
  }

  /** A token that takes up no more characters than it has ends at the end of the line. */
  lemma {:induction false} ScanTight(s: string, esc: bool, quote: char)
    ensures var r := Scan(s, esc, quote); |r.text| == r.used < |s| ==> s[r.used] == '\n'
  {
    if s != [] && s[0] != '\n' && Look(s[0], esc, quote).Copied? {
      ScanTight(s[1..], false, quote);
    }
  }

  /** `t` is the rest of the line, from `p` up to a zero at `end`. */
  ghost predicate RestAt(b: string, p: nat, end: nat, t: string) {
    p <= end < |b| && b[end] == NUL && t == b[p..end] && IsLine(t)
  }

  lemma RestSame(b: string, b': string, p: nat, next: nat, end: nat, t: string)
    requires RestAt(b, p, end, t) && p <= next <= end && |b'| == |b|
    requires forall i :: next <= i < |b| ==> b'[i] == b[i]
    ensures RestAt(b', next, end, t[next - p..])
  {
    var t' := t[next - p..];
    assert t' == b'[next..end];
    assert forall i :: 0 <= i < |t'| ==> t'[i] == t[next - p + i];
  }

  /** The terminating zero of the token takes the place of a newline: nothing remains either way. */
  lemma RestGone(b: string, b': string, p: nat, next: nat, end: nat, t: string)
    requires RestAt(b, p, end, t) && p <= next <= end && |b'| == |b| && b'[next] == NUL
    requires next < end ==> t[next - p] == '\n'
    ensures RestAt(b', next, next, []) && SkipSpace(t[next - p..]) == SkipSpace([])
  {
    if next < end {
      assert t[next - p..] == ['\n'];
      assert ['\n'][1..] == [];
    }
  }

  /** A token of the line: its text is put down at `at` as a zero-terminated string, `next` is
      where the next token is looked for. */
  method ReadToken(buf: array<char>, at: nat, ghost end: nat, ghost s: string)
    returns (next: nat, ghost text: string, ghost end': nat, ghost t': string)
    requires RestAt(buf[..], at, end, s)
    modifies buf
    ensures text == Scan(s, false, NUL).text && at + |text| <= next && StringAt(buf[..], at, text)
    ensures RestAt(buf[..], next, end', t') && end' <= end
    ensures SkipSpace(t') == SkipSpace(s[Scan(s, false, NUL).used..])
    ensures forall i :: 0 <= i < at || end < i < buf.Length ==> buf[i] == old(buf[i])
  {
    ghost var b := buf[..];
    ghost var whole := Scan(s, false, NUL);
    ScanTight(s, false, NUL);
    var dst;
    next, dst := ScanInPlace(buf, at, end, s, whole);
    text := whole.text;
    buf[dst] := NUL;
    assert buf[at..dst] == text;
    end', t' := Remains(b, buf[..], at, next, dst < next, end, s);
  }

  /** What is left of the line behind the token. */
  lemma Remains(b: string, b': string, at: nat, next: nat, cut: bool, end: nat, s: string)
    returns (end': nat, t': string)
    requires RestAt(b, at, end, s) && at <= next <= end && |b'| == |b|
    requires forall i :: next < i < |b| ==> b'[i] == b[i]
    requires if cut then b'[next] == b[next] else b'[next] == NUL && (next < end ==> s[next - at] == '\n')
    ensures RestAt(b', next, end', t') && end' <= end && SkipSpace(t') == SkipSpace(s[next - at..])
  {
    if cut {
      RestSame(b, b', at, next, end, s);
      end', t' := end, s[next - at..];
    } else {
      RestGone(b, b', at, next, end, s);
      end', t' := next, [];
    }
  }

  /** `while (isspace(*buf)) buf++` */
  method SkipSpaces(buf: array<char>, p: nat, ghost end: nat, ghost t: string) returns (at: nat, ghost t': string)
    requires RestAt(buf[..], p, end, t)
    ensures t' == SkipSpace(t) && p <= at && RestAt(buf[..], at, end, t')
    ensures if t' == [] then buf[at] == NUL else buf[at] == t'[0] != NUL
  {
    at, t' := p, t;
    while IsSpace(buf[at])
      invariant p <= at && RestAt(buf[..], at, end, t') && SkipSpace(t') == SkipSpace(t)
      decreases end - at
    {
      assert t'[0] == buf[at];
      RestSame(buf[..], buf[..], at, at + 1, end, t');
      at, t' := at + 1, t'[1..];
    }
    assert t' != [] ==> t'[0] == buf[at];
  }

  /** The tokens found so far are strings in the part of the buffer in front of `p`. */
  ghost predicate Found(b: string, token: seq<nat>, got: seq<string>, p: nat)
  {
    |token| == |got| && forall k :: 0 <= k < |got| ==> StringAt(b, token[k], got[k]) && token[k] + |got[k]| <= p
  }

  /** No token found is touched by writing from a character of the line on. */
  lemma FoundKept(b: string, b': string, token: seq<nat>, got: seq<string>, p: nat, at: nat)
    requires Found(b, token, got, p) && p <= at < |b| == |b'| && b[at] != NUL
    requires forall i :: 0 <= i < at ==> b'[i] == b[i]
    ensures Found(b', token, got, at)
  {
    forall k | 0 <= k < |got| ensures StringAt(b', token[k], got[k]) && token[k] + |got[k]| <= at {
      assert StringAt(b, token[k], got[k]);
      assert b'[token[k]..token[k] + |got[k]|] == b[token[k]..token[k] + |got[k]|];
    }
  }

  lemma FoundMore(b: string, token: seq<nat>, got: seq<string>, at: nat, text: string, p: nat)
    requires Found(b, token, got, at) && StringAt(b, at, text) && at + |text| <= p
    ensures Found(b, token + [at], got + [text], p)
  {
  }

  /** The tokens found and those still to come are the tokens of the line. */
  ghost predicate Split2(got: seq<string>, t: string, left: nat, all: seq<string>) {
    got + Tokens(t, left) == all
  }

  lemma SplitBegins(line: string, max: nat)
    ensures Split2([], line, max, Tokens(line, max))
  {
    assert [] + Tokens(line, max) == Tokens(line, max);
  }

  lemma SplitSkips(got: seq<string>, t: string, left: nat, all: seq<string>, t': string)
    requires Split2(got, t, left, all) && t' == SkipSpace(t)
    ensures Split2(got, t', left, all)
    ensures t' == [] || StartsComment(t'[0]) ==> got == all
    ensures t' != [] ==> !IsSpace(t'[0])
  {
    SkipTwice(t);
    TokensDependOnSkipped(t, t', left);
    assert got + [] == got;
  }

  lemma {:induction false} SkipTwice(t: string)
    ensures SkipSpace(SkipSpace(t)) == SkipSpace(t)
    ensures SkipSpace(t) != [] ==> !IsSpace(SkipSpace(t)[0])
  {
    if t != [] && IsSpace(t[0]) { SkipTwice(t[1..]); }
  }

  lemma SplitTakes(got: seq<string>, t: string, left: nat, all: seq<string>, text: string, t': string)
    requires Split2(got, t, left, all) && left > 0 && t != [] && !StartsComment(t[0]) && !IsSpace(t[0])
    requires text == Scan(t, false, NUL).text && SkipSpace(t') == SkipSpace(t[Scan(t, false, NUL).used..])
    ensures Split2(got + [text], t', left - 1, all)
  {
    SkipNothing(t);
    TokensDependOnSkipped(t[Scan(t, false, NUL).used..], t', left - 1);
    assert got + ([text] + Tokens(t', left - 1)) == got + [text] + Tokens(t', left - 1);
  }

  /** Goes to the next token, if there is one. */
  method NextToken(buf: array<char>, p: nat, ghost end: nat, ghost t: string, ghost left: nat,
                   ghost got: seq<string>, ghost all: seq<string>)
    returns (at: nat, found: bool, ghost t': string)
    requires RestAt(buf[..], p, end, t) && Split2(got, t, left, all)
    ensures p <= at && RestAt(buf[..], at, end, t') && Split2(got, t', left, all)
    ensures if found then t' != [] && buf[at] == t'[0] != NUL && !StartsComment(t'[0]) && !IsSpace(t'[0])
            else got == all
  {
    at, t' := SkipSpaces(buf, p, end, t);
    SplitSkips(got, t, left, all, t');
    found := !(buf[at] == NUL || StartsComment(buf[at]));
  }

  /** One round of split_line at the first character of a token. */
  method TakeToken(buf: array<char>, token: array<nat>, n: nat, at: nat, ghost p: nat, ghost end: nat,
                   ghost t: string, ghost left: nat, ghost got: seq<string>, ghost all: seq<string>)
    returns (next: nat, ghost got': seq<string>, ghost end': nat, ghost t': string)
    requires RestAt(buf[..], at, end, t) && p <= at && t != [] && buf[at] == t[0] != NUL
    requires Split2(got, t, left, all) && left > 0 && !StartsComment(t[0]) && !IsSpace(t[0])
    requires n < token.Length && Found(buf[..], token[..n], got, p)
    modifies buf, token
    ensures |got'| == |got| + 1 && Split2(got', t', left - 1, all)
    ensures RestAt(buf[..], next, end', t') && end' <= end
    ensures Found(buf[..], token[..n + 1], got', next)
    ensures forall i :: end < i < buf.Length ==> buf[i] == old(buf[i])
    ensures forall i :: n < i < token.Length ==> token[i] == old(token[i])
  {
    ghost var b, found := buf[..], token[..n];
    ghost var text;
    next, text, end', t' := ReadToken(buf, at, end, t);
    got' := got + [text];
    SplitTakes(got, t, left, all, text, t');
    FoundKept(b, buf[..], found, got, p, at);
    token[n] := at;
    FoundMore(buf[..], found, got, at, text, next);
    assert token[..n + 1] == found + [at];
  }

  /** The state of split_line between two tokens. */
  ghost predicate Splitting(b: string, token: seq<nat>, p: nat, last: nat, end: nat, t: string, got: seq<string>,
                            left: nat, all: seq<string>)
  {
    RestAt(b, p, last, t) && last <= end && Found(b, token, got, p) && Split2(got, t, left, all)
  }

  lemma SplitEnds(b: string, token: seq<nat>, p: nat, last: nat, end: nat, t: string, got: seq<string>, all: seq<string>)
    requires Splitting(b, token, p, last, end, t, got, 0, all)
    ensures got == all && Found(b, token, all, end)
  {
    assert got + [] == got;
  }

  /** One round of split_line. */
  method Round(buf: array<char>, token: array<nat>, n: nat, p: nat, ghost last: nat, ghost end: nat, ghost t: string,
               ghost left: nat, ghost got: seq<string>, ghost all: seq<string>)
    returns (found: bool, next: nat, ghost got': seq<string>, ghost last': nat, ghost t': string)
    requires n < token.Length && left > 0 && Splitting(buf[..], token[..n], p, last, end, t, got, left, all)
    modifies buf, token
    ensures |got'| == if found then |got| + 1 else |got|
    ensures if found then Splitting(buf[..], token[..n + 1], next, last', end, t', got', left - 1, all)
            else got' == all && Found(buf[..], token[..n], all, end) && token[..] == old(token[..])
    ensures forall i :: end < i < buf.Length ==> buf[i] == old(buf[i])
    ensures forall i :: n < i < token.Length ==> token[i] == old(token[i])
  {
    next, found, t' := NextToken(buf, p, last, t, left, got, all);
    last', got' := last, got;
    if found {
      next, got', last', t' := TakeToken(buf, token, n, next, p, last, t', left, got, all);
    }
  }

  /** The loop of split_line. */
  method SplitLoop(buf: array<char>, token: array<nat>, max: nat, ghost end: nat, ghost line: string, ghost all: seq<string>)
    returns (n: nat)
    requires max <= token.Length && Splitting(buf[..], token[..0], 0, end, end, line, [], max, all)
    modifies buf, token
    ensures n <= token.Length && Found(buf[..], token[..n], all, end)
    ensures forall i :: end < i < buf.Length ==> buf[i] == old(buf[i])
    ensures forall i :: n <= i < token.Length ==> token[i] == old(token[i])
  {
    var p := 0;
    n := 0;
    ghost var last: nat, t, got := end, line, [];
    while n < max
      invariant n <= max && Splitting(buf[..], token[..n], p, last, end, t, got, max - n, all)
      invariant forall i :: end < i < buf.Length ==> buf[i] == old(buf[i])
      invariant forall i :: n <= i < token.Length ==> token[i] == old(token[i])
    {
      var found;
      found, p, got, last, t := Round(buf, token, n, p, last, end, t, max - n, got, all);
      if !found { return; }
      n := n + 1;
    }
    SplitEnds(buf[..], token[..n], p, last, end, t, got, all);
  }

  /** split_line: the tokens of the line, as strings inside of it. */
  method Split(buf: array<char>, token: array<nat>, max: nat, ghost end: nat, ghost line: string) returns (n: nat)
    requires RestAt(buf[..], 0, end, line) && max <= token.Length
    modifies buf, token
    ensures n == |Tokens(line, max)|
    ensures Found(buf[..], token[..n], Tokens(line, max), end)
    ensures forall i :: end < i < buf.Length ==> buf[i] == old(buf[i])
    ensures forall i :: n <= i < token.Length ==> token[i] == old(token[i])
  {
    SplitBegins(line, max);
    n := SplitLoop(buf, token, max, end, line, Tokens(line, max));
  }
}
