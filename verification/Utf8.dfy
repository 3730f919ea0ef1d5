/** The UTF-8 checks of alsactl: which byte sequences count as one valid character, and the
    sanitiser that overwrites everything else in a string. */
module Utf8 {

  /** Bytes and code points as the machine words that the bit masks of the code work on. */
  type Byte = bv8

  // ----- reference: the encoding of RFC 3629, section 3 -----

  /** The octets of a character number, by the table of RFC 3629, section 3. */
  function Encode(c: bv32): (s: seq<Byte>)
  {
    if c < 0x80 then [Low(c)]
    else if c < 0x800 then [0xc0 | Low(c >> 6), Tail(c)]
    else if c < 0x1_0000 then [0xe0 | Low(c >> 12), Tail(c >> 6), Tail(c)]
    else [0xf0 | Low((c >> 18) & 0x07), Tail(c >> 12), Tail(c >> 6), Tail(c)]
  }

  function Low(c: bv32): Byte {
    (c & 0xff) as bv8
  }

  /** A continuation octet with the lowest six bits. */
  function Tail(c: bv32): Byte {
    0x80 | (c & 0x3f) as bv8
  }

  /** The character numbers that the code accepts in encoded form: beyond ASCII and within the
      range of RFC 3629, no surrogates, and none of the noncharacters U+FDD0..U+FDEF and
      U+xxFFFF. (U+xxFFFE is accepted.) */
  predicate Accepted(c: bv32) {
    && 0x80 <= c <= 0x10_ffff
    && !(0xd800 <= c <= 0xdfff)
    && !(0xfdd0 <= c <= 0xfdef)
    && c & 0xffff != 0xffff
  }

  // ----- the code -----

  /** utf8_encoded_expected_len, from the first byte */
  function ExpectedLen(c: Byte): (n: nat)
    ensures n <= 6
  {
    if c < 0x80 then 1
    else if c & 0xe0 == 0xc0 then 2
    else if c & 0xf0 == 0xe0 then 3
    else if c & 0xf8 == 0xf0 then 4
    else if c & 0xfc == 0xf8 then 5
    else if c & 0xfe == 0xfc then 6
    else 0
  }

  /** utf8_unichar_to_encoded_len; characters that could be decoded are not negative. */
  function EncodedLen(c: bv32): (n: nat)
    ensures 1 <= n <= 6
  {
    if c < 0x80 then 1
    else if c < 0x800 then 2
    else if c < 0x1_0000 then 3
    else if c < 0x20_0000 then 4
    else if c < 0x400_0000 then 5
    else 6
  }

  /** utf8_unichar_valid_range */
  predicate ValidRange(c: bv32) {
    && c <= 0x10_ffff
    && c & 0xffff_f800 != 0xd800
    && !(c > 0xfdcf && c < 0xfdf0)
    && c & 0xffff != 0xffff
  }

  /** The bits of the first byte that belong to the character. */
  function LeadBits(c: Byte, len: nat): bv32
    requires 2 <= len <= 6
  {
    var mask: bv8 := if len == 2 then 0x1f else if len == 3 then 0x0f else if len == 4 then 0x07
                     else if len == 5 then 0x03 else 0x01;
    (c & mask) as bv32
  }

  /** One step of the decoding loop. */
  function Shift(c: bv32, b: Byte): bv32 {
    (c << 6) | (b & 0x3f) as bv32
  }

  /** Decoding `n` bytes, of which the first is the lead byte. */
  function Decode(s: seq<Byte>, len: nat, n: nat): (c: bv32)
    requires 2 <= len <= 6 && 1 <= n <= |s|
  {
    if n == 1 then LeadBits(s[0], len) else Shift(Decode(s, len, n - 1), s[n - 1])
  }

  predicate IsTail(b: Byte) {
    b & 0xc0 == 0x80
  }

  /** All of the first `len` bytes but the lead byte are continuation bytes. */
  predicate Tails(s: seq<Byte>, len: nat)
    requires len <= |s|
  {
    forall i :: 1 <= i < len ==> IsTail(s[i])
  }

  /** What utf8_encoded_valid_unichar answers: the length of a character at the start of `s`, or
      zero for its negative answers. */
  function ValidLen(s: seq<Byte>): (n: nat)
    requires |s| > 0
    ensures n <= |s|
  {
    var len := ExpectedLen(s[0]);
    if len <= 1 then len
    else if |s| < len || !Tails(s, len) then 0
    else
      var c := Decode(s, len, len);
      if EncodedLen(c) == len && ValidRange(c) then len else 0
  }

  lemma RangeIsAccepted(c: bv32)
    ensures c >= 0x80 ==> (ValidRange(c) <==> Accepted(c))
  {
  }

  lemma Decode2(s: seq<Byte>)
    requires |s| >= 2
    ensures Decode(s, 2, 2) == Shift(LeadBits(s[0], 2), s[1])
  {
  }

  lemma Decode3(s: seq<Byte>)
    requires |s| >= 3
    ensures Decode(s, 3, 3) == Shift(Shift(LeadBits(s[0], 3), s[1]), s[2])
  {
    assert Decode(s, 3, 2) == Shift(Decode(s, 3, 1), s[1]);
  }

  lemma Decode4(s: seq<Byte>)
    requires |s| >= 4
    ensures Decode(s, 4, 4) == Shift(Shift(Shift(LeadBits(s[0], 4), s[1]), s[2]), s[3])
  {
    assert Decode(s, 4, 2) == Shift(Decode(s, 4, 1), s[1]);
    assert Decode(s, 4, 3) == Shift(Decode(s, 4, 2), s[2]);
  }

  // pure bit-vector facts, one for each length

  lemma TwoBytes(a: Byte, b: Byte)
    requires ExpectedLen(a) == 2 && IsTail(b)
    ensures var c := Shift(LeadBits(a, 2), b);
            c < 0x800 && (c >= 0x80 ==> Encode(c) == [a, b])
  {
  }

  lemma TwoBytesBack(c: bv32)
    requires 0x80 <= c < 0x800
    ensures var a, b := 0xc0 | Low(c >> 6), Tail(c);
            ExpectedLen(a) == 2 && IsTail(b) && Shift(LeadBits(a, 2), b) == c
  {
  }

  lemma ThreeBytes(a: Byte, b: Byte, d: Byte)
    requires ExpectedLen(a) == 3 && IsTail(b) && IsTail(d)
    ensures var c := Shift(Shift(LeadBits(a, 3), b), d);
            c < 0x1_0000 && (c >= 0x800 ==> Encode(c) == [a, b, d])
  {
  }

  lemma ThreeBytesBack(c: bv32)
    requires 0x800 <= c < 0x1_0000
    ensures var a, b, d := 0xe0 | Low(c >> 12), Tail(c >> 6), Tail(c);
            ExpectedLen(a) == 3 && IsTail(b) && IsTail(d) && Shift(Shift(LeadBits(a, 3), b), d) == c
  {
  }

  lemma FourBytes(a: Byte, b: Byte, d: Byte, e: Byte)
    requires ExpectedLen(a) == 4 && IsTail(b) && IsTail(d) && IsTail(e)
    ensures var c := Shift(Shift(Shift(LeadBits(a, 4), b), d), e);
            c < 0x20_0000 && (c >= 0x1_0000 ==> Encode(c) == [a, b, d, e])
  {
  }

  lemma FourBytesBack(c: bv32)
    requires 0x1_0000 <= c <= 0x10_ffff
    ensures var a, b, d, e := 0xf0 | Low((c >> 18) & 0x07), Tail(c >> 12), Tail(c >> 6), Tail(c);
            && ExpectedLen(a) == 4 && IsTail(b) && IsTail(d) && IsTail(e)
            && Shift(Shift(Shift(LeadBits(a, 4), b), d), e) == c
  {
  }

  lemma AcceptedTwo(s: seq<Byte>, c: bv32)
    requires |s| >= 2 && ExpectedLen(s[0]) == 2 && IsTail(s[1])
    requires c == Decode(s, 2, 2) && EncodedLen(c) == 2 && ValidRange(c)
    ensures Accepted(c) && Encode(c) == s[..2]
  {
    Decode2(s);
    TwoBytes(s[0], s[1]);
    RangeIsAccepted(c);
    assert s[..2] == [s[0], s[1]];
  }

  lemma AcceptedThree(s: seq<Byte>, c: bv32)
    requires |s| >= 3 && ExpectedLen(s[0]) == 3 && IsTail(s[1]) && IsTail(s[2])
    requires c == Decode(s, 3, 3) && EncodedLen(c) == 3 && ValidRange(c)
    ensures Accepted(c) && Encode(c) == s[..3]
  {
    Decode3(s);
    ThreeBytes(s[0], s[1], s[2]);
    RangeIsAccepted(c);
    assert s[..3] == [s[0], s[1], s[2]];
  }

  lemma AcceptedFour(s: seq<Byte>, c: bv32)
    requires |s| >= 4 && ExpectedLen(s[0]) == 4 && IsTail(s[1]) && IsTail(s[2]) && IsTail(s[3])
    requires c == Decode(s, 4, 4) && EncodedLen(c) == 4 && ValidRange(c)
    ensures Accepted(c) && Encode(c) == s[..4]
  {
    Decode4(s);
    FourBytes(s[0], s[1], s[2], s[3]);
    RangeIsAccepted(c);
    assert s[..4] == [s[0], s[1], s[2], s[3]];
  }

  lemma LongIsOutOfRange(c: bv32)
    ensures EncodedLen(c) >= 5 ==> !ValidRange(c)
  {
  }

  /** What is accepted is the encoding of an accepted character, in its shortest form. */
  lemma AcceptedIsEncoding(s: seq<Byte>) returns (c: bv32)
    requires |s| > 0 && ValidLen(s) > 1
    ensures Accepted(c) && Encode(c) == s[..ValidLen(s)]
  {
    var n := ValidLen(s);
    c := Decode(s, n, n);
    LongIsOutOfRange(c);
    if n == 2 {
      AcceptedTwo(s, c);
    } else if n == 3 {
      AcceptedThree(s, c);
    } else {
      AcceptedFour(s, c);
    }
  }

  lemma EncodedTwo(c: bv32, s: seq<Byte>)
    requires Accepted(c) && c < 0x800 && |s| >= 2 && s[..2] == Encode(c)
    ensures ValidLen(s) == 2
  {
    var e := Encode(c);
    assert s[0] == s[..2][0] && s[1] == s[..2][1];
    TwoBytesBack(c);
    Decode2(s);
    RangeIsAccepted(c);
  }

  lemma EncodedThree(c: bv32, s: seq<Byte>)
    requires Accepted(c) && 0x800 <= c < 0x1_0000 && |s| >= 3 && s[..3] == Encode(c)
    ensures ValidLen(s) == 3
  {
    assert s[0] == s[..3][0] && s[1] == s[..3][1] && s[2] == s[..3][2];
    ThreeBytesBack(c);
    Decode3(s);
    RangeIsAccepted(c);
  }

  lemma FourAreValid(s: seq<Byte>, c: bv32)
    requires |s| >= 4 && ExpectedLen(s[0]) == 4 && IsTail(s[1]) && IsTail(s[2]) && IsTail(s[3])
    requires Decode(s, 4, 4) == c && EncodedLen(c) == 4 && ValidRange(c)
    ensures ValidLen(s) == 4
  {
    assert Tails(s, 4);
  }

  lemma FourInRange(c: bv32)
    requires Accepted(c) && 0x1_0000 <= c
    ensures EncodedLen(c) == 4 && ValidRange(c)
  {
  }

  lemma EncodedFour(c: bv32, s: seq<Byte>, a: Byte, b: Byte, d: Byte, e: Byte)
    requires Accepted(c) && 0x1_0000 <= c && |s| >= 4 && s[..4] == [a, b, d, e]
    requires ExpectedLen(a) == 4 && IsTail(b) && IsTail(d) && IsTail(e)
    requires Shift(Shift(Shift(LeadBits(a, 4), b), d), e) == c
    ensures ValidLen(s) == 4
  {
    assert s[0] == s[..4][0] && s[1] == s[..4][1] && s[2] == s[..4][2] && s[3] == s[..4][3];
    Decode4(s);
    FourInRange(c);
    FourAreValid(s, c);
  }

  /** Every such encoding is accepted, whatever follows it. */
  lemma EncodingIsAccepted(c: bv32, s: seq<Byte>)
    requires Accepted(c) && Encode(c) <= s
    ensures |s| > 0 && ValidLen(s) == |Encode(c)| > 1
  {
    assert s[..|Encode(c)|] == Encode(c);
    if c < 0x800 {
      EncodedTwo(c, s);
    } else if c < 0x1_0000 {
      EncodedThree(c, s);
    } else {
      FourBytesBack(c);
      EncodedFour(c, s, 0xf0 | Low((c >> 18) & 0x07), Tail(c >> 12), Tail(c >> 6), Tail(c));
    }
  }

  /** Main result about the validator: a sequence of `n` bytes, n > 1, is taken for a character if
      and only if it is the RFC 3629 encoding of an accepted character number. */
  lemma ValidIffEncoding(s: seq<Byte>, n: nat)
    requires 1 < n <= |s|
    ensures ValidLen(s) == n <==> exists c :: Accepted(c) && Encode(c) == s[..n]
  {
    if ValidLen(s) == n {
      var c := AcceptedIsEncoding(s);
    }
    if c :| Accepted(c) && Encode(c) == s[..n] {
      EncodingIsAccepted(c, s);
    }
  }

  /** Only the bytes of the character itself are looked at. */
  lemma SamePrefixSameLen(s: seq<Byte>, t: seq<Byte>)
    requires |s| > 0 && ValidLen(s) > 1 && s[..ValidLen(s)] <= t
    ensures |t| > 0 && ValidLen(t) == ValidLen(s)
  {
    var c := AcceptedIsEncoding(s);
    EncodingIsAccepted(c, t);
  }

  // ----- the sanitiser -----

  const UNDERSCORE: Byte := 0x5f

  /** Letters, digits and " #$%+-./:=?@_,". */
  predicate Plain(b: Byte) {
    || 0x30 <= b <= 0x39 || 0x41 <= b <= 0x5a || 0x61 <= b <= 0x7a
    || b in {0x20, 0x23, 0x24, 0x25, 0x2b, 0x2d, 0x2e, 0x2f, 0x3a, 0x3d, 0x3f, 0x40, 0x5f, 0x2c}
  }

  /** Text of plain bytes and valid characters only. */
  predicate Trusted(s: seq<Byte>) {
    s == [] || (Plain(s[0]) && Trusted(s[1..])) ||
    (!Plain(s[0]) && ValidLen(s) > 1 && Trusted(s[ValidLen(s)..]))
  }

  /** What replace_untrusted_chars leaves in the string. */
  function Sanitised(s: seq<Byte>): (r: seq<Byte>)
    ensures |r| == |s|
    ensures forall i :: 0 <= i < |s| ==> r[i] == s[i] || r[i] == UNDERSCORE
  {
    if s == [] then []
    else if Plain(s[0]) then s[..1] + Sanitised(s[1..])
    else if ValidLen(s) > 1 then s[..ValidLen(s)] + Sanitised(s[ValidLen(s)..])
    else [UNDERSCORE] + Sanitised(s[1..])
  }

  /** The characters that are let through as they are. */
  predicate LetThrough(c: char) {
    || '0' <= c <= '9' || 'A' <= c <= 'Z' || 'a' <= c <= 'z'
    || c in {' ', '#', '$', '%', '+', '-', '.', '/', ':', '=', '?', '@', '_', ','}
  }

  lemma PlainIff(b: Byte)
    ensures Plain(b) <==> LetThrough(b as int as char)
  {
  }

  /** An ASCII character at the front of a text stays or becomes an underscore. */
  lemma FrontIsAscii(s: seq<Byte>)
    requires s != [] && s[0] < 0x80
    ensures Sanitised(s) == [if LetThrough(s[0] as int as char) then s[0] else 0x5f] + Sanitised(s[1..])
  {
    PlainIff(s[0]);
    assert s[..1] == [s[0]];
  }

  /** Another byte becomes an underscore, unless it begins the RFC 3629 encoding of an accepted character
      number. */
  lemma FrontIsOther(s: seq<Byte>)
    requires s != [] && s[0] >= 0x80
    ensures (forall c :: Accepted(c) ==> !(Encode(c) <= s)) ==> Sanitised(s) == [0x5f] + Sanitised(s[1..])
  {
    HighIsNotPlain(s[0]);
    if ValidLen(s) > 1 {
      var c := AcceptedIsEncoding(s);
    }
  }

  /** Such an encoding stays. */
  lemma FrontIsCharacter(s: seq<Byte>, c: bv32)
    requires s != [] && Accepted(c) && Encode(c) <= s
    ensures Sanitised(s) == Encode(c) + Sanitised(s[|Encode(c)|..])
  {
    EncodingIsAccepted(c, s);
    LongIsHigh(s[0]);
    HighIsNotPlain(s[0]);
    assert s[..|Encode(c)|] == Encode(c);
  }

  lemma HighIsNotPlain(b: Byte)
    ensures b >= 0x80 ==> !Plain(b)
  {
  }

  lemma LongIsHigh(b: Byte)
    ensures ExpectedLen(b) > 1 ==> b >= 0x80
  {
  }

  /** In how many places two texts differ. */
  function Differences(s: seq<Byte>, t: seq<Byte>): (n: nat)
    requires |s| == |t|
  {
    if s == [] then 0 else (if s[0] == t[0] then 0 else 1) + Differences(s[1..], t[1..])
  }

  lemma {:induction false} SanitisedIsTrusted(s: seq<Byte>)
    ensures Trusted(Sanitised(s))
  {
    var r := Sanitised(s);
    if s == [] {
    } else if Plain(s[0]) {
      SanitisedIsTrusted(s[1..]);
      assert r[1..] == Sanitised(s[1..]);
    } else if ValidLen(s) > 1 {
      var n := ValidLen(s);
      SanitisedIsTrusted(s[n..]);
      assert r[..n] == s[..n] && r[n..] == Sanitised(s[n..]);
      SamePrefixSameLen(s, r);
    } else {
      SanitisedIsTrusted(s[1..]);
      assert r[1..] == Sanitised(s[1..]);
    }
  }

  lemma Rejoin(s: seq<Byte>, n: nat)
    requires n <= |s|
    ensures s[..n] + s[n..] == s
  {
  }

  /** Trusted text is left alone. */
  lemma {:induction false} TrustedIsUnchanged(s: seq<Byte>)
    requires Trusted(s)
    ensures Sanitised(s) == s
  {
    if s == [] {
    } else if Plain(s[0]) {
      TrustedIsUnchanged(s[1..]);
    } else {
      var n := ValidLen(s);
      TrustedIsUnchanged(s[n..]);
      SanitisedKeeps(s, n);
      Rejoin(s, n);
    }
  }

  /** Cleaning twice is cleaning once. */
  lemma SanitisedIsIdempotent(s: seq<Byte>)
    ensures Sanitised(Sanitised(s)) == Sanitised(s)
    ensures Trusted(s) <==> Sanitised(s) == s
  {
    SanitisedIsTrusted(s);
    TrustedIsUnchanged(Sanitised(s));
    if Trusted(s) { TrustedIsUnchanged(s); }
  }

  lemma {:induction false} DifferencesSplit(s: seq<Byte>, t: seq<Byte>, n: nat)
    requires |s| == |t| && n <= |s|
    ensures Differences(s, t) == Differences(s[..n], t[..n]) + Differences(s[n..], t[n..])
  {
    if n == 0 {
      assert s[0..] == s && t[0..] == t;
    } else {
      DifferencesSplit(s[1..], t[1..], n - 1);
      assert s[..n][1..] == s[1..][..n - 1] && t[..n][1..] == t[1..][..n - 1];
      assert s[1..][n - 1..] == s[n..] && t[1..][n - 1..] == t[n..];
    }
  }

  lemma {:induction false} NoDifference(s: seq<Byte>)
    ensures Differences(s, s) == 0
  {
    if s != [] { NoDifference(s[1..]); }
  }

  /** A C string: the bytes of `str` up to its first zero, which is at `n`. */
  ghost predicate IsString(str: array<Byte>, n: nat)
    reads str
  {
    n < str.Length && str[n] == 0 && forall i :: 0 <= i < n ==> str[i] != 0
  }

  /** utf8_encoded_to_unichar for the lengths it is called with; -1 becomes `ok` false. */
  method ToUnichar(str: array<Byte>, at: nat, len: nat) returns (ok: bool, c: bv32)
    requires 2 <= len <= 6 && at + len <= str.Length && ExpectedLen(str[at]) == len
    ensures ok <==> Tails(str[at..], len)
    ensures ok ==> c == Decode(str[at..], len, len)
  {
    ghost var s := str[at..];
    c := LeadBits(str[at], len);
    for i := 1 to len
      invariant c == Decode(s, len, i)
      invariant Tails(s, i)
    {
      assert s[i] == str[at + i];
      if !IsTail(str[at + i]) { return false, c; }
      c := Shift(c, str[at + i]);
    }
    ok := true;
  }

  /** utf8_encoded_valid_unichar at a position of a string. No byte behind the terminating zero
      is read. */
  method ValidUnichar(str: array<Byte>, at: nat, ghost n: nat) returns (len: nat)
    requires IsString(str, n) && at < n
    ensures len == ValidLen(str[at..n])
  {
    ghost var s := str[at..n];
    len := ExpectedLen(str[at]);
    if len <= 1 { return; }
    var i := 0;
    while i < len
      invariant i <= len && at + i <= n
    {
      NoTailWithoutHighBit(str[at + i]);
      if str[at + i] & 0x80 != 0x80 {
        assert at + i < n ==> str[at + i] == s[i];
        return 0;
      }
      i := i + 1;
    }
    var ok, c := ToUnichar(str, at, len);
    SamePrefix(s, str[at..], len);
    if !ok || EncodedLen(c) != len || !ValidRange(c) { return 0; }
  }

  lemma SamePrefix(s: seq<Byte>, t: seq<Byte>, len: nat)
    requires 2 <= len <= 6 && len <= |s| && s <= t
    ensures Tails(s, len) <==> Tails(t, len)
    ensures Decode(s, len, len) == Decode(t, len, len)
  {
    assert forall i :: 0 <= i < len ==> s[i] == t[i];
    DecodePrefix(s, t, len, len);
  }

  lemma NoTailWithoutHighBit(b: Byte)
    ensures b & 0x80 != 0x80 ==> !IsTail(b) && ExpectedLen(b) == 1
  {
  }

  lemma {:induction false} DecodePrefix(s: seq<Byte>, t: seq<Byte>, len: nat, n: nat)
    requires 2 <= len <= 6 && 1 <= n <= |s| && s <= t
    ensures Decode(s, len, n) == Decode(t, len, n)
  {
    if n > 1 { DecodePrefix(s, t, len, n - 1); }
  }

  /** A position of the text that is kept for `len` bytes. */
  lemma SanitisedKeeps(t: seq<Byte>, len: nat)
    requires |t| > 0 && if Plain(t[0]) then len == 1 else len > 1 && len == ValidLen(t)
    ensures len <= |t| && Sanitised(t) == t[..len] + Sanitised(t[len..])
  {
  }

  lemma SanitisedSpoils(t: seq<Byte>)
    requires |t| > 0 && !Plain(t[0]) && ValidLen(t) <= 1
    ensures Sanitised(t) == [UNDERSCORE] + Sanitised(t[1..]) && t[0] != UNDERSCORE
  {
  }

  lemma DifferencesGrow(s: seq<Byte>, t: seq<Byte>, i: nat, len: nat)
    requires |s| == |t| && i + len <= |s|
    ensures Differences(s[..i + len], t[..i + len])
         == Differences(s[..i], t[..i]) + Differences(s[i..i + len], t[i..i + len])
  {
    DifferencesSplit(s[..i + len], t[..i + len], i);
    assert s[..i + len][..i] == s[..i] && t[..i + len][..i] == t[..i];
    assert s[..i + len][i..] == s[i..i + len] && t[..i + len][i..] == t[i..i + len];
  }

  /** The cleaned part grows by one piece. */
  lemma Extend(s: seq<Byte>, now: seq<Byte>, i: nat, piece: seq<Byte>, clean: seq<Byte>, rest: seq<Byte>)
    requires |now| == |s| && i + |piece| <= |s|
    requires now[..i] + (piece + rest) == clean && now[i..i + |piece|] == piece
    ensures now[..i + |piece|] + rest == clean
  {
    assert now[..i + |piece|] == now[..i] + piece;
  }

  lemma SameRest(s: seq<Byte>, now: seq<Byte>, i: nat, len: nat)
    requires |now| == |s| && i + len <= |s| && now[i..] == s[i..]
    ensures now[i + len..] == s[i + len..] == s[i..][len..]
    ensures now[i..i + len] == s[i..i + len] == s[i..][..len]
  {
    assert now[i..][len..] == now[i + len..];
    assert now[i..][..len] == now[i..i + len];
  }

  lemma SameCount(s: seq<Byte>, now: seq<Byte>, i: nat, len: nat)
    requires |now| == |s| && i + len <= |s| && now[i..i + len] == s[i..i + len]
    ensures Differences(s[..i + len], now[..i + len]) == Differences(s[..i], now[..i])
  {
    DifferencesGrow(s, now, i, len);
    NoDifference(s[i..i + len]);
  }

  lemma OneMore(s: seq<Byte>, now: seq<Byte>, i: nat)
    requires |now| == |s| && i < |s| && now[i] != s[i]
    ensures Differences(s[..i + 1], now[..i + 1]) == Differences(s[..i], now[..i]) + 1
  {
    DifferencesGrow(s, now, i, 1);
    assert s[i..i + 1] == [s[i]] && now[i..i + 1] == [now[i]];
    assert [s[i]][1..] == [] && [now[i]][1..] == [];
  }

  /** How far the text is clean: `now` agrees with `s` from `i` on, and in front of it with the
      sanitised text, of which `rest` is still to come. */
  ghost predicate CleanTo(s: seq<Byte>, now: seq<Byte>, i: nat, clean: seq<Byte>, rest: seq<Byte>)
  {
    |now| == |s| && i <= |s| && now[i..] == s[i..] && now[..i] + rest == clean
  }

  lemma KeepStep(s: seq<Byte>, now: seq<Byte>, i: nat, len: nat, clean: seq<Byte>, rest: seq<Byte>)
    requires i + len <= |s| && CleanTo(s, now, i, clean, s[i..][..len] + rest)
    ensures CleanTo(s, now, i + len, clean, rest)
    ensures Differences(s[..i + len], now[..i + len]) == Differences(s[..i], now[..i])
  {
    SameRest(s, now, i, len);
    Extend(s, now, i, s[i..][..len], clean, rest);
    SameCount(s, now, i, len);
  }

  lemma SpoilStep(s: seq<Byte>, before: seq<Byte>, now: seq<Byte>, i: nat, clean: seq<Byte>, rest: seq<Byte>)
    requires i < |s| && CleanTo(s, before, i, clean, [UNDERSCORE] + rest)
    requires now == before[i := UNDERSCORE] && s[i] != UNDERSCORE
    ensures CleanTo(s, now, i + 1, clean, rest)
    ensures Differences(s[..i + 1], now[..i + 1]) == Differences(s[..i], before[..i]) + 1
  {
    assert now[i + 1..] == before[i + 1..];
    SameRest(s, before, i, 1);
    assert now[..i] == before[..i];
    Extend(s, now, i, [UNDERSCORE], clean, rest);
    OneMore(s, now, i);
  }

  /** The next piece that `f` cleans of `t`: `len` bytes to keep, or if `len` is zero one byte to replace. */
  ghost predicate Piece(f: seq<Byte> -> seq<Byte>, t: seq<Byte>, len: nat)
    requires t != []
  {
    && len <= |t|
    && if len > 0 then f(t) == t[..len] + f(t[len..])
       else f(t) == [UNDERSCORE] + f(t[1..]) && t[0] != UNDERSCORE
  }

  /** The three-way test of the loop body. The answer is the number of bytes to keep, or zero if
      the byte is to be replaced. */
  method Kept(str: array<Byte>, at: nat, ghost n: nat, ghost t: seq<Byte>) returns (len: nat)
    requires IsString(str, n) && at < n && t == str[at..n]
    ensures Piece(Sanitised, t, len)
  {
    if Plain(str[at]) {
      SanitisedKeeps(t, 1);
      return 1;
    }
    len := ValidUnichar(str, at, n);
    if len > 1 {
      SanitisedKeeps(t, len);
    } else {
      SanitisedSpoils(t);
      len := 0;
    }
  }

  /** The invariant of the loop: in front of `i` the string `now` is clean. */
  ghost predicate Inv(f: seq<Byte> -> seq<Byte>, s: seq<Byte>, now: seq<Byte>, i: nat, replaced: nat)
  {
    && |now| == |s| && i <= |s|
    && CleanTo(s, now, i, f(s), f(s[i..])) && replaced == Differences(s[..i], now[..i])
  }

  lemma InvKeep(f: seq<Byte> -> seq<Byte>, s: seq<Byte>, now: seq<Byte>, i: nat, replaced: nat, len: nat,
                i': nat)
    requires Inv(f, s, now, i, replaced) && i < |s| && Piece(f, s[i..], len) && len > 0
    requires i' == i + len
    ensures Inv(f, s, now, i', replaced)
  {
    assert s[i..][len..] == s[i'..];
    KeepStep(s, now, i, len, f(s), f(s[i'..]));
  }

  lemma InvSpoil(f: seq<Byte> -> seq<Byte>, s: seq<Byte>, now: seq<Byte>, i: nat, replaced: nat,
                 now': seq<Byte>, i': nat)
    requires Inv(f, s, now, i, replaced) && i < |s| && Piece(f, s[i..], 0)
    requires now' == now[i := UNDERSCORE] && i' == i + 1
    ensures Inv(f, s, now', i', replaced + 1)
  {
    assert s[i] == s[i..][0];
    assert s[i..][1..] == s[i'..];
    SpoilStep(s, now, now', i, f(s), f(s[i'..]));
  }

  /** One round of the loop of replace_untrusted_chars. */
  method ReplaceOne(str: array<Byte>, i: nat, ghost n: nat) returns (len: nat)
    requires IsString(str, n) && i < n
    modifies str
    ensures IsString(str, n) && i + len <= n && str[n..] == old(str[n..])
    ensures Piece(Sanitised, old(str[i..n]), len)
    ensures str[..n] == if len > 0 then old(str[..n]) else old(str[..n])[i := UNDERSCORE]
  {
    len := Kept(str, i, n, str[i..n]);
    if len == 0 { str[i] := UNDERSCORE; }
  }

  /** replace_untrusted_chars */
  method ReplaceUntrusted(str: array<Byte>, ghost n: nat) returns (replaced: nat)
    requires IsString(str, n)
    modifies str
    ensures IsString(str, n) && str[n..] == old(str[n..])
    ensures str[..n] == Sanitised(old(str[..n]))
    ensures replaced == Differences(old(str[..n]), str[..n])
  {
    ghost var s, now := str[..n], str[..n];
    var i := 0;
    replaced := 0;
    InvStart(Sanitised, s);
    while str[i] != 0
      invariant 0 <= i <= n && IsString(str, n) && str[n..] == old(str[n..])
      invariant now == str[..n] && Inv(Sanitised, s, now, i, replaced)
      decreases n - i
    {
      RestOf(Sanitised, str, n, s, now, i, replaced);
      ghost var was, at := now, i;
      var len := ReplaceOne(str, i, n);
      now := str[..n];
      if len > 0 {
        i := i + len;
        InvKeep(Sanitised, s, was, at, replaced, len, i);
      } else {
        i := i + 1;
        InvSpoil(Sanitised, s, was, at, replaced, now, i);
        replaced := replaced + 1;
      }
    }
    InvEnd(Sanitised, s, now, replaced);
  }

  lemma InvStart(f: seq<Byte> -> seq<Byte>, s: seq<Byte>)
    ensures Inv(f, s, s, 0, 0)
  {
    assert s[0..] == s && s[..0] + f(s) == f(s);
  }

  lemma InvEnd(f: seq<Byte> -> seq<Byte>, s: seq<Byte>, now: seq<Byte>, replaced: nat)
    requires Inv(f, s, now, |s|, replaced) && f([]) == []
    ensures now == f(s) && replaced == Differences(s, now)
  {
    assert s[|s|..] == [] && s[..|s|] == s && now[..|s|] == now;
    assert now + [] == now;
  }

  lemma RestOf(f: seq<Byte> -> seq<Byte>, str: array<Byte>, n: nat, s: seq<Byte>, now: seq<Byte>, i: nat,
               replaced: nat)
    requires IsString(str, n) && i <= n == |s| && now == str[..n] && Inv(f, s, now, i, replaced)
    ensures str[i..n] == s[i..]
  {
    assert str[i..n] == now[i..];
  }
}
