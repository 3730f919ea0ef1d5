/** The TLV words of a user control as they are kept in a state file of alsactl. */
module Tlv {
  import opened Options
  import opened Hex

  const MAX_USER_TLV_SIZE: nat := 64
  const WORD: nat := 0x1_0000_0000

  /** The number of words that the length in the second one asks for, with the header. */
  function Length(tlv: seq<nat>): nat
    requires |tlv| >= 2
  {
    tlv[1] / 4 + 2
  }

  /** tlv_to_str; the buffer is that of add_tlv_comments. */
  method TlvToStr(tlv: array<nat>) returns (s: Option<string>)
    requires tlv.Length == MAX_USER_TLV_SIZE && forall i :: 0 <= i < tlv.Length ==> tlv[i] < WORD
    ensures s.None? <==> tlv[1] / 4 + 2 >= 64
    ensures s.Some? ==> s.value == HexText(tlv[..tlv[1] / 4 + 2], 8)
  {
    var len := tlv[1] / 4 + 2;
    if len >= MAX_USER_TLV_SIZE { return None; }
    var p := "";
    for i := 0 to len
      invariant p == HexText(tlv[..i], 8)
    {
      HexTextMore(tlv[..i], tlv[i], 8);
      assert tlv[..i + 1] == tlv[..i] + [tlv[i]];
      p := p + Digits(tlv[i], 8);
    }
    s := Some(p);
  }

  /** The inner loop of str_to_tlv: eight digits make a word. */
  method ReadWord(s: string, p: nat) returns (ok: bool, w: nat)
    requires p + 8 <= |s|
    ensures ok <==> AllHex(s[p..p + 8])
    ensures ok ==> w == Value(s[p..p + 8])
  {
    w := 0;
    for j := 0 to 8
      invariant AllHex(s[p..p + j]) && w == Value(s[p..p + j])
    {
      var c := HexDigit(s[p + j]);
      if c < 0 {
        assert s[p..p + 8][j] == s[p + j];
        return false, w;
      }
      ValueMore(s[p..p + j], s[p + j]);
      assert s[p..p + j + 1] == s[p..p + j] + [s[p + j]];
      w := w * 16 + c;
    }
    ok := true;
  }

  /** str_to_tlv: the text is accepted if and only if it is a whole number of words, not more than
      there is room for. */
  method StrToTlv(s: string) returns (tlv: Option<array<nat>>)
    ensures tlv.Some? <==> |s| % 8 == 0 && |s| / 8 <= MAX_USER_TLV_SIZE && AllHex(s)
    ensures tlv.Some? ==> fresh(tlv.value) && tlv.value[..] == Numbers(s, 8)
  {
    var len := |s|;
    if len % 8 != 0 { return None; }
    len := len / 8;
    if len > MAX_USER_TLV_SIZE { return None; }
    var words := new nat[len];
    for i := 0 to len
      invariant AllHex(s[..8 * i]) && words[..i] == Numbers(s[..8 * i], 8)
    {
      var ok, w := ReadWord(s, 8 * i);
      if !ok {
        NotAllHex(s, 8 * i);
        return None;
      }
      WordsStep(s, i);
      words[i] := w;
      assert words[..i + 1] == words[..i] + [w];
    }
    assert s[..8 * len] == s && words[..len] == words[..];
    tlv := Some(words);
  }

  lemma NotAllHex(s: string, p: nat)
    requires p + 8 <= |s| && !AllHex(s[p..p + 8])
    ensures !AllHex(s)
  {
    var j :| 0 <= j < 8 && HexDigit(s[p..p + 8][j]) < 0;
    assert s[p..p + 8][j] == s[p + j];
  }

  lemma WordsStep(s: string, i: nat)
    requires 8 * i + 8 <= |s| && AllHex(s[..8 * i]) && AllHex(s[8 * i..8 * i + 8])
    ensures AllHex(s[..8 * (i + 1)])
    ensures Numbers(s[..8 * (i + 1)], 8) == Numbers(s[..8 * i], 8) + [Value(s[8 * i..8 * i + 8])]
  {
    NumbersMore(s[..8 * i], s[8 * i..8 * i + 8], i, 8);
    assert s[..8 * (i + 1)] == s[..8 * i] + s[8 * i..8 * i + 8];
  }

  lemma WordsComeBack(ws: seq<nat>)
    requires forall i :: 0 <= i < |ws| ==> ws[i] < WORD
    ensures AllHex(HexText(ws, 8)) && Numbers(HexText(ws, 8), 8) == ws
  {
    Powers();
    NumbersOfHexText(ws, 8);
  }

  lemma Eighth(n: nat, k: nat)
    requires n == 8 * k
    ensures n % 8 == 0 && n / 8 == k
  {
  }

  /** Main result: the words that are saved come back, whenever they are saved at all. */
  lemma TlvComesBack(tlv: seq<nat>)
    requires |tlv| == MAX_USER_TLV_SIZE && forall i :: 0 <= i < |tlv| ==> tlv[i] < WORD
    requires Length(tlv) < MAX_USER_TLV_SIZE
    ensures var s := HexText(tlv[..Length(tlv)], 8);
            |s| % 8 == 0 && |s| / 8 <= MAX_USER_TLV_SIZE && AllHex(s) && Numbers(s, 8) == tlv[..Length(tlv)]
  {
    var ws := tlv[..Length(tlv)];
    WordsComeBack(ws);
    HexTextLength(ws);
    Eighth(|HexText(ws, 8)|, |ws|);
  }

  /** Saving and reading as a program. */
  method RoundTrip(tlv: array<nat>) returns (back: Option<array<nat>>)
    requires tlv.Length == MAX_USER_TLV_SIZE && forall i :: 0 <= i < tlv.Length ==> tlv[i] < WORD
    ensures back.Some? <==> tlv[1] / 4 + 2 < 64
    ensures back.Some? ==> back.value[..] == tlv[..tlv[1] / 4 + 2]
  {
    var s := TlvToStr(tlv);
    if s.None? { return None; }
    TlvComesBack(tlv[..]);
    back := StrToTlv(s.value);
  }
}
