/** Numbers written as hexadecimal digits, one after the other and each of the same width. */
module Hex {

  /** hextodigit */
  function HexDigit(c: char): (v: int)
    ensures -1 <= v < 16
  {
    if '0' <= c <= '9' then c as int - '0' as int
    else if 'a' <= c <= 'f' then c as int - 'a' as int + 10
    else if 'A' <= c <= 'F' then c as int - 'A' as int + 10
    else -1
  }

  function Digit(v: nat): (c: char)
    requires v < 16
    ensures HexDigit(c) == v
  {
    if v < 10 then ('0' as int + v) as char else ('a' as int + v - 10) as char
  }

  /** The lowest `n` hexadecimal digits, the highest first. */
  function Digits(w: nat, n: nat): (s: string)
    ensures |s| == n
  {
    if n == 0 then "" else Digits(w / 16, n - 1) + [Digit(w % 16)]
  }

  predicate AllHex(s: string) {
    forall i :: 0 <= i < |s| ==> HexDigit(s[i]) >= 0
  }

  /** The number that the digits stand for. */
  function Value(s: string): nat
    requires AllHex(s)
  {
    if s == "" then 0 else Value(s[..|s| - 1]) * 16 + HexDigit(s[|s| - 1])
  }

  function Power(n: nat): (p: nat)
    ensures p > 0
  {
    if n == 0 then 1 else 16 * Power(n - 1)
  }

  lemma Powers()
    ensures Power(1) == 16 && Power(2) == 0x100 && Power(4) == 0x1_0000
    ensures Power(7) == 0x1000_0000 && Power(8) == 0x1_0000_0000
  {
    assert Power(2) == 0x100;
    assert Power(4) == 0x1_0000;
    assert Power(6) == 0x100_0000;
  }

  lemma {:induction false} ValueOfDigits(w: nat, n: nat)
    requires w < Power(n)
    ensures AllHex(Digits(w, n)) && Value(Digits(w, n)) == w
  {
    if n > 0 {
      ValueOfDigits(w / 16, n - 1);
      var s := Digits(w, n);
      assert s[..n - 1] == Digits(w / 16, n - 1);
    }
  }

  /** Writing the number down again gives the same digits, in lower case. */
  function LowerCase(s: string): (r: string)
    requires AllHex(s)
    ensures |r| == |s|
  {
    if s == "" then "" else LowerCase(s[..|s| - 1]) + [Digit(HexDigit(s[|s| - 1]))]
  }

  lemma DivMod(v: nat, d: nat)
    requires d < 16
    ensures (v * 16 + d) / 16 == v && (v * 16 + d) % 16 == d
  {
  }

  lemma DigitsStep(v: nat, d: nat, n: nat)
    requires d < 16 && n > 0
    ensures Digits(v * 16 + d, n) == Digits(v, n - 1) + [Digit(d)]
  {
    DivMod(v, d);
  }

  lemma {:induction false} DigitsOfValue(s: string)
    requires AllHex(s)
    ensures Digits(Value(s), |s|) == LowerCase(s)
  {
    if s != "" {
      var a, d := s[..|s| - 1], HexDigit(s[|s| - 1]);
      DigitsOfValue(a);
      DigitsStep(Value(a), d, |s|);
    }
  }

  /** All the numbers, each with `n` digits. */
  function HexText(ws: seq<nat>, n: nat): (s: string)
  {
    if ws == [] then "" else Digits(ws[0], n) + HexText(ws[1..], n)
  }

  /** One more number at the end. */
  lemma {:induction false} HexTextMore(ws: seq<nat>, w: nat, n: nat)
    ensures HexText(ws + [w], n) == HexText(ws, n) + Digits(w, n)
  {
    if ws == [] {
      assert [] + [w] == [w] && [w][1..] == [];
    } else {
      assert (ws + [w])[1..] == ws[1..] + [w];
      HexTextMore(ws[1..], w, n);
    }
  }

  /** The numbers in a text of digits, each of which has `n`. */
  function Numbers(s: string, n: nat): (ws: seq<nat>)
    requires AllHex(s) && n > 0
  {
    if |s| < n then [] else [Value(s[..n])] + Numbers(s[n..], n)
  }

  /** Main result: numbers that fit their width come back. */
  lemma {:induction false} NumbersOfHexText(ws: seq<nat>, n: nat)
    requires n > 0 && forall i :: 0 <= i < |ws| ==> ws[i] < Power(n)
    ensures AllHex(HexText(ws, n)) && Numbers(HexText(ws, n), n) == ws
  {
    if ws != [] {
      NumbersOfHexText(ws[1..], n);
      ValueOfDigits(ws[0], n);
      NumbersStep(Digits(ws[0], n), HexText(ws[1..], n), n);
    }
  }

  lemma NumbersStep(d: string, rest: string, n: nat)
    requires AllHex(d) && AllHex(rest) && |d| == n > 0
    ensures AllHex(d + rest) && Numbers(d + rest, n) == [Value(d)] + Numbers(rest, n)
  {
    assert (d + rest)[..n] == d && (d + rest)[n..] == rest;
  }

  /** One more number read at the end. */
  lemma {:induction false} NumbersMore(a: string, b: string, k: nat, n: nat)
    requires (n == 2 && |a| == 2 * k) || (n == 8 && |a| == 8 * k)
    requires AllHex(a) && AllHex(b) && |b| == n
    ensures AllHex(a + b) && Numbers(a + b, n) == Numbers(a, n) + [Value(b)]
    decreases k
  {
    if k == 0 {
      assert a + b == b && b[..n] == b && b[n..] == "";
    } else {
      assert (a + b)[..n] == a[..n] && (a + b)[n..] == a[n..] + b;
      NumbersMore(a[n..], b, k - 1, n);
    }
  }

  lemma {:induction false} HexTextLength(ws: seq<nat>)
    ensures |HexText(ws, 2)| == 2 * |ws| && |HexText(ws, 8)| == 8 * |ws|
  {
    if ws != [] { HexTextLength(ws[1..]); }
  }

  /** One more digit at the end. */
  lemma ValueMore(a: string, c: char)
    ensures AllHex(a + [c]) <==> AllHex(a) && HexDigit(c) >= 0
    ensures AllHex(a + [c]) ==> Value(a + [c]) == Value(a) * 16 + HexDigit(c)
  {
    assert (a + [c])[..|a|] == a && (a + [c])[|a|] == c;
    if AllHex(a + [c]) {
      assert forall i :: 0 <= i < |a| ==> a[i] == (a + [c])[i];
    }
  }

  lemma {:induction false} LowerCaseJoin(a: string, b: string)
    requires AllHex(a) && AllHex(b) && AllHex(a + b)
    ensures LowerCase(a + b) == LowerCase(a) + LowerCase(b)
  {
    if b == "" {
      assert a + b == a;
    } else {
      var m := |b| - 1;
      assert (a + b)[..|a + b| - 1] == a + b[..m];
      LowerCaseJoin(a, b[..m]);
    }
  }

  /** The other way round: a text of digits comes back in lower case. */
  lemma {:induction false} HexTextOfNumbers(s: string, count: nat)
    requires AllHex(s) && |s| == 8 * count
    ensures |Numbers(s, 8)| == count && HexText(Numbers(s, 8), 8) == LowerCase(s)
    decreases count
  {
    if count > 0 {
      var a, b := s[..8], s[8..];
      HexTextOfNumbers(b, count - 1);
      HexTextStep(s, a, b);
    } else {
      assert s == "";
    }
  }

  lemma HexTextStep(s: string, a: string, b: string)
    requires AllHex(s) && |s| >= 8 && a == s[..8] && b == s[8..]
    ensures AllHex(a) && AllHex(b) && Numbers(s, 8) == [Value(a)] + Numbers(b, 8)
    ensures HexText(Numbers(b, 8), 8) == LowerCase(b) ==> HexText(Numbers(s, 8), 8) == LowerCase(s)
  {
    DigitsOfValue(a);
    assert s == a + b;
    LowerCaseJoin(a, b);
  }

  // ----- hexadecimal places -----

  /** The digits, in both cases. */
  lemma DigitTable(v: nat, c: char)
    requires v < 16
    ensures Digit(v) == "0123456789abcdef"[v]
    ensures HexDigit(c) == v <==> c == "0123456789abcdef"[v] || c == "0123456789ABCDEF"[v]
  {
  }

  /** Each place is worth sixteen times the next one. */
  lemma HexPlaces(w: nat, n: nat)
    ensures Digits(w, n + 1) == Digits(w / 16, n) + ["0123456789abcdef"[w % 16]]
  {
    DigitTable(w % 16, '0');
  }
}
