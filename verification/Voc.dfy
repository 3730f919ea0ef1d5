/** Creative Voice files in axfer: the three layouts the builder chooses from, the size field it
    goes back to, and the parser that reads them. */
module Voc {
  import opened Arithmetic
  import opened Bytes
  import opened Container
  import opened Formats
  import opened VocTime

  // "Creative Voice File" and 0x1a
  const MAGIC: seq<Byte> := [0x43, 0x72, 0x65, 0x61, 0x74, 0x69, 0x76, 0x65, 0x20, 0x56,
                             0x6f, 0x69, 0x63, 0x65, 0x20, 0x46, 0x69, 0x6c, 0x65, 0x1a]

  const V110 := 0x010a
  const V120 := 0x0114

  // block types
  const TERMINATOR: Byte := 0
  const DATA_V110: Byte := 1
  const CONTINUOUS_DATA: Byte := 2
  const FORMAT_EXTENDED: Byte := 8
  const DATA_V120: Byte := 9

  /** format_maps: the formats a VOC file can hold, with their code and the first version that
      knows them. */
  predicate Supported(f: SampleFormat) {
    f in {U8, S16_LE, A_LAW, MU_LAW}
  }

  function CodeOf(f: SampleFormat): (c: Byte)
    requires Supported(f)
  {
    match f
    case U8 => 0
    case S16_LE => 4
    case A_LAW => 6
    case _ => 7
  }

  function FirstVersion(f: SampleFormat): nat
    requires Supported(f)
  {
    if f == U8 then V110 else V120
  }

  /** The search for a code in the table. */
  function FormatOfCode(code: nat): (f: SampleFormat)
    ensures Supported(f) || f == S8
  {
    match code
    case 0 => U8
    case 4 => S16_LE
    case 6 => A_LAW
    case 7 => MU_LAW
    case _ => S8  // stands for "not in the table"
  }

  /** check_code_id, which looks at the low byte only. */
  predicate CodeAllowed(code: nat, version: nat) {
    var f := FormatOfCode(code % 256);
    Supported(f) && FirstVersion(f) <= version
  }

  // ----- layout -----

  /** build_block_data_size: the low 24 bits. */
  function Size24(x: nat): (s: seq<Byte>)
    ensures |s| == 3
  {
    [x % 256, x / 256 % 256, x / 65536 % 256]
  }

  /** parse_block_data_size */
  function ParseSize(s: seq<Byte>): (x: nat)
    requires |s| == 3
    ensures x < 0x100_0000
  {
    var a: int, b: int, c: int := s[0], s[1], s[2];
    c * 65536 + b * 256 + a
  }

  lemma SizeComesBack(x: nat)
    ensures ParseSize(Size24(x)) == x % 0x100_0000
  {
    var y := x / 65536;
    assert x % 65536 == x / 256 % 256 * 256 + x % 256;
    assert x == y * 65536 + x % 65536;
    assert y == y / 256 * 256 + y % 256;
    assert x == y / 256 * 0x100_0000 + (y % 256 * 65536 + x % 65536);
  }

  /** What the builder decides on. */
  datatype Plan = Plan(version: nat, extended: bool, code: Byte, channels: nat, sampleBytes: nat)

  function PlanFor(f: SampleFormat, channels: nat, rate: nat): (p: Plan)
    requires Supported(f)
  {
    var version := if channels > 2 then V120 else FirstVersion(f);
    var listed := if channels == 2 then ExtCodeFor(rate) != 0 else V110CodeFor(rate) != 0;
    Plan(if version == V110 && !listed then V120 else version,
         version == V110 && channels == 2 && listed,
         CodeOf(f), channels, f.SampleBytes())
  }

  function FileHeader(version: nat): (s: seq<Byte>)
    ensures |s| == 26
  {
    MAGIC + Bytes16(false, 26) + Bytes16(false, version) + Bytes16(false, (0x1234 - 1 - version) % 65536)
  }

  /** The 1.20 block; the reserved bytes keep what the file header left in the same memory. */
  function Block120(p: Plan, rate: nat, size: nat): (s: seq<Byte>)
    ensures |s| == 16
  {
    [DATA_V120] + Size24(size) + Bytes32(false, rate) + [p.sampleBytes * 8 % 256, p.channels % 256] +
    Bytes16(false, p.code) + MAGIC[12..16]
  }

  function BlockExtended(p: Plan, code: nat): (s: seq<Byte>)
    ensures |s| == 8
  {
    [FORMAT_EXTENDED] + Size24(4) + Bytes16(false, code) + [p.code, if p.channels == 1 then 0 else 1]
  }

  function Block110(p: Plan, code: Byte, size: nat): (s: seq<Byte>)
    ensures |s| == 6
  {
    [DATA_V110] + Size24(size) + [code, p.code]
  }

  /** How many bytes the size field counts besides the frames. */
  function SizeExtra(p: Plan): nat {
    if p.version == V110 then 2 else 12
  }

  /** The header and the blocks in front of the frames; `size` is the content of the size field. */
  function Prologue(p: Plan, rate: nat, size: nat): (s: seq<Byte>)
    ensures |s| == 26 + if p.version == V120 then 16 else if p.extended then 14 else 6
  {
    FileHeader(p.version) + Blocks(p, rate, size)
  }

  function Blocks(p: Plan, rate: nat, size: nat): (s: seq<Byte>)
    ensures |s| == if p.version == V120 then 16 else if p.extended then 14 else 6
  {
    if p.version == V120 then Block120(p, rate, size)
    else
      (if p.extended then BlockExtended(p, CodeValue(BuildExtended(rate, p.channels))) else []) +
      Block110(p, CodeValue(BuildV110(rate)) % 256, size)
  }

  function CodeValue(c: Coded): nat {
    if c.Code? then c.code else 0
  }

  /** Where the size field is. */
  function SizeOffset(p: Plan): nat {
    26 + 1 + if p.version == V110 && p.extended then 8 else 0
  }

  /** The content of the size field after writing: the real size, or the limit of the container
      when that would be exceeded. The subtraction is one of 64-bit unsigned numbers. */
  function FinalSize(p: Plan, byteCount: nat, maxSize: nat): nat {
    if byteCount > (maxSize - SizeExtra(p)) % 0x1_0000_0000_0000_0000 then maxSize
    else byteCount + SizeExtra(p)
  }

  // ----- the layouts, byte by byte -----

  lemma NumberOfSize(x: nat)
    ensures Number(false, Size24(x)) == x % 0x100_0000
  {
    var s := Size24(x);
    SizeComesBack(x);
    NumberOfTwo(false, s[1], s[2]);
    assert s[1..] == [s[1], s[2]];
  }

  /** "Creative Voice File" and 0x1a. */
  lemma MagicBytes()
    ensures MAGIC == [0x43, 0x72, 0x65, 0x61, 0x74, 0x69, 0x76, 0x65, 0x20, 0x56,
                      0x6f, 0x69, 0x63, 0x65, 0x20, 0x46, 0x69, 0x6c, 0x65, 0x1a]
  {
  }

  /** The 26 bytes of the file header. */
  lemma FileHeaderBytes(version: nat)
    requires version <= 0x114
    ensures var h := FileHeader(version);
      && h[0..20] == MAGIC
      && Number(false, h[20..22]) == 26 && Number(false, h[22..24]) == version
      && Number(false, h[24..26]) == 0x1233 - version
  {
    var check := 0x1233 - version;
    Small(check, 65536);
    Number16(26);
    Number16(version);
    Number16(check);
    FourParts(MAGIC, Bytes16(false, 26), Bytes16(false, version), Bytes16(false, check));
  }

  lemma Number16(x: nat)
    requires x < 0x1_0000
    ensures Number(false, Bytes16(false, x)) == x
  {
    NumberOfBytes(false, x);
  }

  lemma FourParts(m: seq<Byte>, a: seq<Byte>, b: seq<Byte>, c: seq<Byte>)
    requires |m| == 20 && |a| == |b| == |c| == 2
    ensures var h := m + a + b + c;
      h[0..20] == m && h[20..22] == a && h[22..24] == b && h[24..26] == c
  {
  }

  lemma Block120Bytes(p: Plan, rate: nat, size: nat)
    ensures var b := Block120(p, rate, size);
      && b[0] == 9 && Number(false, b[1..4]) == size % 0x100_0000 && Number(false, b[4..8]) == rate % 0x1_0000_0000
      && b[8] == p.sampleBytes * 8 % 256 && b[9] == p.channels % 256 && Number(false, b[10..12]) == p.code
  {
    var b := Block120(p, rate, size);
    NumberOfSize(size);
    NumberOfBytes(false, rate);
    NumberOfBytes(false, p.code);
    assert b[1..4] == Size24(size) && b[4..8] == Bytes32(false, rate) && b[10..12] == Bytes16(false, p.code);
  }

  lemma BlockExtendedBytes(p: Plan, code: nat)
    ensures var b := BlockExtended(p, code);
      && b[0] == 8 && Number(false, b[1..4]) == 4 && Number(false, b[4..6]) == code % 0x1_0000
      && b[6] == p.code && b[7] == if p.channels == 1 then 0 else 1
  {
    var b := BlockExtended(p, code);
    NumberOfSize(4);
    NumberOfBytes(false, code);
    assert b[1..4] == Size24(4) && b[4..6] == Bytes16(false, code);
  }

  lemma Block110Bytes(p: Plan, code: Byte, size: nat)
    ensures var b := Block110(p, code, size);
      b[0] == 1 && Number(false, b[1..4]) == size % 0x100_0000 && b[4] == code && b[5] == p.code
  {
    NumberOfSize(size);
    assert Block110(p, code, size)[1..4] == Size24(size);
  }

  /** The code of a format in a VOC file. */
  predicate HasCode(f: SampleFormat, code: nat) {
    match f
    case U8 => code == 0
    case S16_LE => code == 4
    case A_LAW => code == 6
    case MU_LAW => code == 7
    case _ => false
  }

  /** Unsigned bytes of one or two channels at a rate that the table for so many channels lists are
      written in the old way. */
  predicate WrittenOldWay(f: SampleFormat, channels: nat, rate: nat) {
    && f == U8 && channels <= 2
    && rate in if channels == 2
               then {5512, 8000, 11025, 16000, 22050, 32000, 44100, 48000, 64000, 88200, 96000, 176400, 192000, 352800, 384000}
               else {5512, 8000, 11025, 16000, 22050, 32000, 44100, 48000, 64000}
  }

  /** The block for everything else. */
  predicate IsLayout120(h: seq<Byte>, f: SampleFormat, channels: nat, rate: nat, size: nat) {
    && |h| == 42 && h[..26] == FileHeader(0x114)
    && h[26] == 9 && Number(false, h[27..30]) == size % 0x100_0000 && Number(false, h[30..34]) == rate % 0x1_0000_0000
    && h[34] == f.PhysicalWidth() && h[35] == channels % 256 && HasCode(f, Number(false, h[36..38]))
  }

  /** The old way, for two channels and for one. */
  predicate IsLayoutExtended(h: seq<Byte>, rate: nat, size: nat) {
    && |h| == 40 && h[..26] == FileHeader(0x10a)
    && h[26] == 8 && Number(false, h[27..30]) == 4
    && Number(false, h[30..32]) == CodeValue(BuildExtended(rate, 2)) % 0x1_0000 && h[32] == 0 && h[33] == 1
    && h[34] == 1 && Number(false, h[35..38]) == size % 0x100_0000
    && h[38] == CodeValue(BuildV110(rate)) % 256 && h[39] == 0
  }

  predicate IsLayout110(h: seq<Byte>, rate: nat, size: nat) {
    && |h| == 32 && h[..26] == FileHeader(0x10a)
    && h[26] == 1 && Number(false, h[27..30]) == size % 0x100_0000
    && h[30] == CodeValue(BuildV110(rate)) % 256 && h[31] == 0
  }

  /** Which layout is written for which parameters, and what is where in it. */
  lemma LayoutBytes(f: SampleFormat, channels: nat, rate: nat, size: nat)
    requires Supported(f)
    ensures var h := Prologue(PlanFor(f, channels, rate), rate, size);
      if !WrittenOldWay(f, channels, rate) then IsLayout120(h, f, channels, rate, size)
      else if channels == 2 then IsLayoutExtended(h, rate, size) else IsLayout110(h, rate, size)
  {
    var p := PlanFor(f, channels, rate);
    PlanIs(f, channels, rate);
    LayoutOfPlan(p, f, rate, size);
  }

  lemma LayoutOfPlan(p: Plan, f: SampleFormat, rate: nat, size: nat)
    requires p.version in {0x10a, 0x114} && HasCode(f, p.code) && p.sampleBytes * 8 == f.PhysicalWidth()
    requires p.version == 0x10a ==> p.code == 0 && (p.extended ==> p.channels == 2)
    ensures var h := Prologue(p, rate, size);
      if p.version == 0x114 then IsLayout120(h, f, p.channels, rate, size)
      else if p.extended then IsLayoutExtended(h, rate, size) else IsLayout110(h, rate, size)
  {
    var head := FileHeader(p.version);
    if p.version == V120 {
      Layout120(head, p, rate, size);
    } else if p.extended {
      LayoutExtended(head, p, CodeValue(BuildExtended(rate, 2)), CodeValue(BuildV110(rate)) % 256, size);
    } else {
      Layout110(head, p, CodeValue(BuildV110(rate)) % 256, size);
      assert Blocks(p, rate, size) == Block110(p, CodeValue(BuildV110(rate)) % 256, size);
    }
  }

  lemma Layout120(head: seq<Byte>, p: Plan, rate: nat, size: nat)
    requires |head| == 26
    ensures var h := head + Block120(p, rate, size);
      && h[..26] == head
      && h[26] == 9 && Number(false, h[27..30]) == size % 0x100_0000 && Number(false, h[30..34]) == rate % 0x1_0000_0000
      && h[34] == p.sampleBytes * 8 % 256 && h[35] == p.channels % 256 && Number(false, h[36..38]) == p.code
  {
    Block120Bytes(p, rate, size);
    Behind26(head, Block120(p, rate, size), 1, 4);
    Behind26(head, Block120(p, rate, size), 4, 8);
    Behind26(head, Block120(p, rate, size), 10, 12);
  }

  lemma LayoutExtended(head: seq<Byte>, p: Plan, code: nat, code8: Byte, size: nat)
    requires |head| == 26
    ensures var h := head + (BlockExtended(p, code) + Block110(p, code8, size));
      && h[..26] == head
      && h[26] == 8 && Number(false, h[27..30]) == 4 && Number(false, h[30..32]) == code % 0x1_0000
      && h[32] == p.code && h[33] == (if p.channels == 1 then 0 else 1)
      && h[34] == 1 && Number(false, h[35..38]) == size % 0x100_0000 && h[38] == code8 && h[39] == p.code
  {
    var c, d := BlockExtended(p, code), Block110(p, code8, size);
    BlockExtendedBytes(p, code);
    Block110Bytes(p, code8, size);
    assert (c + d)[1..4] == c[1..4] && (c + d)[4..6] == c[4..6] && (c + d)[9..12] == d[1..4];
    Behind26(head, c + d, 1, 4);
    Behind26(head, c + d, 4, 6);
    Behind26(head, c + d, 9, 12);
  }

  lemma Layout110(head: seq<Byte>, p: Plan, code: Byte, size: nat)
    requires |head| == 26
    ensures var h := head + Block110(p, code, size);
      && h[..26] == head
      && h[26] == 1 && Number(false, h[27..30]) == size % 0x100_0000 && h[30] == code && h[31] == p.code
  {
    Block110Bytes(p, code, size);
    Behind26(head, Block110(p, code, size), 1, 4);
  }

  lemma Behind26(head: seq<Byte>, b: seq<Byte>, i: nat, j: nat)
    requires |head| == 26 && i <= j <= |b|
    ensures (head + b)[26 + i..26 + j] == b[i..j] && (head + b)[..26] == head
  {
  }

  lemma PlanIs(f: SampleFormat, channels: nat, rate: nat)
    requires Supported(f)
    ensures var p := PlanFor(f, channels, rate);
      && p.version == (if WrittenOldWay(f, channels, rate) then 0x10a else 0x114)
      && p.extended == (WrittenOldWay(f, channels, rate) && channels == 2)
      && HasCode(f, p.code) && p.channels == channels && p.sampleBytes * 8 == f.PhysicalWidth()
  {
  }

  // ----- the parser as a function of the bytes -----

  datatype State = State(extended: bool, rate: nat, channels: nat, code: nat, byteCount: nat)

  const INITIAL := State(false, 0, 0, 0, 0)

  datatype Outcome =
    | Parsed(sampleFormat: SampleFormat, channels: nat, rate: nat, byteCount: nat)
    | Invalid
    | Overruns     // a block to be skipped is smaller than its header: the C code has no defined effect
    | Spins        // the C code reads at the end of the file again and again

  datatype Scan = Bad | Undefined | Spinning | Ended(state: State) | Stopped(state: State, rest: seq<Byte>)

  function ParseBlock120(st: State, b: seq<Byte>): (r: State)
    requires |b| == 16
  {
    st.(rate := Value32(false, b[4..8]), channels := b[9], code := Value16(false, b[10..12]),
        byteCount := (ParseSize(b[1..4]) - 12) % 0x1_0000_0000)
  }

  /** The extended block is refused for an unknown code or channel mode. */
  predicate ExtendedOk(b: seq<Byte>)
    requires |b| == 8
  {
    CodeAllowed(b[6], V110) && b[7] <= 1
  }

  function ParseBlockExtended(st: State, b: seq<Byte>): (r: State)
    requires |b| == 8 && ExtendedOk(b)
  {
    var channels := if b[7] == 0 then 1 else 2;
    st.(code := b[6], channels := channels, extended := true,
        rate := ParseExtended(Value16(false, b[4..6]), channels))
  }

  function ParseBlock110(st: State, b: seq<Byte>): (r: State)
    requires |b| == 6
  {
    var byteCount := (ParseSize(b[1..4]) - 2) % 0x1_0000_0000;
    if st.extended then st.(byteCount := byteCount)
    else st.(code := b[5], rate := ParseV110(b[4]), channels := 1, byteCount := byteCount)
  }

  /** Blocks that carry neither format nor frames. */
  predicate Skipped(kind: Byte) {
    2 <= kind <= 7
  }

  /** allocate_for_block_cache: how many bytes of a block are read. Those of most types are skipped
      together with as many bytes as their size field counts, which include the four of the header. */
  function BlockSize(s: seq<Byte>): (n: nat)
    requires |s| >= 4
  {
    if s[0] == DATA_V110 then 6
    else if s[0] == CONTINUOUS_DATA then 4
    else if s[0] == FORMAT_EXTENDED then 8
    else if s[0] == DATA_V120 then 16
    else ParseSize(s[1..4])
  }

  /** A block with frames behind its type byte and size. */
  function ScanBlock(st: State, s: seq<Byte>): (r: Scan)
    requires |s| >= 4 && (s[0] == DATA_V120 || s[0] == DATA_V110)
    ensures r.Bad? || r.Ended? || r.Stopped?
  {
    if |s| < BlockSize(s) then Ended(st)
    else if s[0] == DATA_V120 then
      var st' := ParseBlock120(st, s[..16]);
      if CodeAllowed(st'.code, V120) then Stopped(st', s[16..]) else Bad
    else if !st.extended && !CodeAllowed(s[5], V110) then Bad
    else Stopped(ParseBlock110(st, s[..6]), s[6..])
  }

  /** What one turn of detect_format_block leads to: another turn, or the end of the scan. */
  datatype Next = OneMore(state: State, last: Byte, rest: seq<Byte>) | Done(scan: Scan)

  /** One turn on the unread bytes `s`. At the end of the file the header keeps the type `last` of
      the block before; when that was an extended one, the code goes back to read the next block. */
  function Turn(st: State, last: Byte, s: seq<Byte>): (r: Next)
    ensures r.OneMore? ==> |r.rest| < |s| || r == OneMore(st, last, s)
  {
    if |s| < 1 then if last == FORMAT_EXTENDED then OneMore(st, last, s) else Done(Ended(st))
    else if s[0] > DATA_V120 then Done(Bad)
    else if s[0] == TERMINATOR then Done(Stopped(st, s[1..]))
    else if s[0] == FORMAT_EXTENDED then
      if |s| < 8 then OneMore(st, FORMAT_EXTENDED, [])
      else if !ExtendedOk(s[..8]) then Done(Bad)
      else OneMore(ParseBlockExtended(st, s[..8]), FORMAT_EXTENDED, s[8..])
    else if |s| < 4 then Done(Ended(st))
    else if !Skipped(s[0]) then Done(ScanBlock(st, s))
    else if BlockSize(s) < 4 then Done(Undefined)
    else if |s| < BlockSize(s) then Done(Ended(st))
    else OneMore(st, s[0], s[BlockSize(s)..])
  }

  /** All turns of detect_format_block; `Spinning` where a turn changes nothing. */
  function ScanBlocks(st: State, last: Byte, s: seq<Byte>): (r: Scan)
    decreases |s|
  {
    match Turn(st, last, s)
    case Done(r) => r
    case OneMore(st', last', rest) => if |rest| < |s| then ScanBlocks(st', last', rest) else Spinning
  }

  /** parse_container_header */
  predicate HeaderOk(h: seq<Byte>)
    requires |h| == 26
  {
    var version := Value16(false, h[22..24]);
    && h[..20] == MAGIC
    && Value16(false, h[20..22]) == 26
    && Value16(false, h[24..26]) == 0x1234 - 1 - version
    && (version == V110 || version == V120)
  }

  function Conclude(st: State): (r: Outcome) {
    var f := FormatOfCode(st.code);
    if Supported(f) then Parsed(f, st.channels, st.rate, st.byteCount) else Invalid
  }

  /** All of voc_parser_pre_process on the bytes of a file, with what is left unread. */
  function Parse(s: seq<Byte>): (r: (Outcome, seq<Byte>))
  {
    if |s| < 26 then (Conclude(INITIAL), [])
    else if !HeaderOk(s[..26]) then (Invalid, [])
    else
      match ScanBlocks(INITIAL, TERMINATOR, s[26..])
      case Bad => (Invalid, [])
      case Undefined => (Overruns, [])
      case Spinning => (Spins, [])
      case Ended(st) => (Conclude(st), [])
      case Stopped(st, rest) => (Conclude(st), rest)
  }

  // ----- what is accepted, byte by byte -----

  /** The file header, for any of the two versions. */
  predicate GoodHeader(s: seq<Byte>)
    requires |s| >= 26
  {
    && s[..20] == [0x43, 0x72, 0x65, 0x61, 0x74, 0x69, 0x76, 0x65, 0x20, 0x56,
                   0x6f, 0x69, 0x63, 0x65, 0x20, 0x46, 0x69, 0x6c, 0x65, 0x1a]
    && Number(false, s[20..22]) == 26 && Number(false, s[22..24]) in {0x10a, 0x114}
    && Number(false, s[22..24]) + Number(false, s[24..26]) == 0x1233
  }

  lemma GoodHeaderIff(s: seq<Byte>)
    requires |s| >= 26
    ensures HeaderOk(s[..26]) <==> GoodHeader(s)
  {
    var h := s[..26];
    assert h[..20] == s[..20] && h[20..22] == s[20..22] && h[22..24] == s[22..24] && h[24..26] == s[24..26];
    ValueIsNumber16(false, s[20..22]);
    ValueIsNumber16(false, s[22..24]);
    ValueIsNumber16(false, s[24..26]);
    MagicBytes();
  }

  lemma SizeIsNumber(s: seq<Byte>)
    requires |s| == 3
    ensures ParseSize(s) == Number(false, s)
  {
    NumberOfTwo(false, s[1], s[2]);
    assert s[1..] == [s[1], s[2]];
  }

  /** Any file whose first block is of the new kind. */
  lemma NewBlockIff(s: seq<Byte>)
    requires |s| >= 42 && s[26] == 9
    ensures match Parse(s).0
      case Parsed(f, channels, rate, byteCount) =>
        && GoodHeader(s) && HasCode(f, Number(false, s[36..38])) && channels == s[35]
        && rate == Number(false, s[30..34]) && byteCount == (Number(false, s[27..30]) - 12) % 0x1_0000_0000
      case Invalid => !(GoodHeader(s) && Number(false, s[36..38]) in {0, 4, 6, 7})
      case _ => false
  {
    GoodHeaderIff(s);
    var t := s[26..];
    assert t[..16][1..4] == s[27..30] && t[..16][4..8] == s[30..34] && t[..16][10..12] == s[36..38];
    assert t[..16][9] == s[35];
    SizeIsNumber(s[27..30]);
    ValueIsNumber32(false, s[30..34]);
    ValueIsNumber16(false, s[36..38]);
    NewBlockScans(INITIAL, t);
  }

  lemma NewBlockScans(st: State, t: seq<Byte>)
    requires |t| >= 16 && t[0] == 9
    ensures var st' := ParseBlock120(st, t[..16]);
      ScanBlocks(st, TERMINATOR, t) == if CodeAllowed(st'.code, V120) then Stopped(st', t[16..]) else Bad
  {
  }

  /** Any file whose first block is one of frames in the old way. */
  lemma OldBlockIff(s: seq<Byte>)
    requires |s| >= 32 && s[26] == 1
    ensures match Parse(s).0
      case Parsed(f, channels, rate, byteCount) =>
        && GoodHeader(s) && s[31] == 0 && f == U8 && channels == 1
        && rate == ParseV110(s[30]) && byteCount == (Number(false, s[27..30]) - 2) % 0x1_0000_0000
      case Invalid => !(GoodHeader(s) && s[31] == 0)
      case _ => false
  {
    GoodHeaderIff(s);
    var t := s[26..];
    assert t[..6][1..4] == s[27..30] && t[..6][4] == s[30] && t[..6][5] == s[31];
    SizeIsNumber(s[27..30]);
    OldBlockScans(INITIAL, t);
  }

  lemma OldBlockScans(st: State, t: seq<Byte>)
    requires |t| >= 6 && t[0] == 1 && !st.extended
    ensures ScanBlocks(st, TERMINATOR, t) == if t[5] == 0 then Stopped(ParseBlock110(st, t[..6]), t[6..]) else Bad
  {
  }

  // ----- round trip -----

  lemma HeaderParts(h: seq<Byte>, a: seq<Byte>, b: seq<Byte>, c: seq<Byte>)
    requires |a| == |b| == |c| == 2 && h == MAGIC + a + b + c
    ensures |h| == 26 && h[..20] == MAGIC && h[20..22] == a && h[22..24] == b && h[24..26] == c
  {
  }

  lemma HeaderIsAccepted(version: nat)
    requires version == V110 || version == V120
    ensures HeaderOk(FileHeader(version))
  {
    var check := 0x1234 - 1 - version;
    Value16OfBytes(false, 26);
    Value16OfBytes(false, version);
    Value16OfBytes(false, check);
    Small(check, 0x1_0000);
    HeaderParts(FileHeader(version), Bytes16(false, 26), Bytes16(false, version), Bytes16(false, check));
  }

  lemma Block120ComesBack(st: State, p: Plan, rate: nat, size: nat)
    requires rate < 0x1_0000_0000
    ensures ParseBlock120(st, Block120(p, rate, size))
         == st.(rate := rate, channels := p.channels % 256, code := p.code,
                byteCount := (size % 0x100_0000 - 12) % 0x1_0000_0000)
  {
    var b := Block120(p, rate, size);
    SizeComesBack(size);
    Value32OfBytes(false, rate);
    Value16OfBytes(false, p.code);
    assert b[1..4] == Size24(size);
    assert b[4..8] == Bytes32(false, rate);
    assert b[10..12] == Bytes16(false, p.code);
    Small(rate, 0x1_0000_0000);
    Small(p.code, 0x1_0000);
  }

  lemma BlockExtendedComesBack(st: State, p: Plan, code: nat)
    requires code < 65536 && p.code == 0 && p.channels == 2
    ensures ExtendedOk(BlockExtended(p, code))
    ensures ParseBlockExtended(st, BlockExtended(p, code))
         == st.(code := 0, channels := 2, extended := true, rate := ParseExtended(code, 2))
  {
    var b := BlockExtended(p, code);
    Value16OfBytes(false, code);
    assert b[4..6] == Bytes16(false, code);
    Small(code, 0x1_0000);
  }

  lemma Block110ComesBack(st: State, p: Plan, code: Byte, size: nat, byteCount: nat)
    requires p.code == 0 && byteCount == (size % 0x100_0000 - 2) % 0x1_0000_0000
    ensures ParseBlock110(st, Block110(p, code, size))
         == if st.extended then st.(byteCount := byteCount)
            else st.(code := 0, rate := ParseV110(code), channels := 1, byteCount := byteCount)
  {
    var b := Block110(p, code, size);
    SizeComesBack(size);
    assert b[1..4] == Size24(size);
  }

  /** What parsing a prologue gives. */
  function Expected(p: Plan, rate: nat, size: nat): Outcome
    requires p.version == V110 ==> 1 <= p.channels <= 2
  {
    var byteCount := (size % 0x100_0000 - SizeExtra(p)) % 0x1_0000_0000;
    if p.version == V120 then Parsed(FormatOfCode(p.code), p.channels % 256, rate, byteCount)
    else if p.extended then
      Parsed(U8, 2, ParseExtended(CodeValue(BuildExtended(rate, 2)) % 65536, 2), byteCount)
    else Parsed(U8, 1, ParseV110(CodeValue(BuildV110(rate)) % 256), byteCount)
  }

  lemma Parse120(st: State, p: Plan, rate: nat, size: nat, tail: seq<Byte>)
    requires rate < 0x1_0000_0000 && Supported(FormatOfCode(p.code))
    ensures ScanBlocks(st, TERMINATOR, Block120(p, rate, size) + tail)
         == Stopped(st.(rate := rate, channels := p.channels % 256, code := p.code,
                        byteCount := (size % 0x100_0000 - 12) % 0x1_0000_0000), tail)
  {
    var b := Block120(p, rate, size);
    Cut(b, tail);
    Block120ComesBack(st, p, rate, size);
    Small(p.code, 256);
    assert (b + tail)[0] == DATA_V120;
  }

  lemma Parse110(st: State, last: Byte, p: Plan, code: Byte, size: nat, byteCount: nat, tail: seq<Byte>)
    requires p.code == 0 && byteCount == (size % 0x100_0000 - 2) % 0x1_0000_0000
    ensures ScanBlocks(st, last, Block110(p, code, size) + tail)
         == Stopped(if st.extended then st.(byteCount := byteCount)
                    else st.(code := 0, rate := ParseV110(code), channels := 1, byteCount := byteCount), tail)
  {
    var b := Block110(p, code, size);
    Cut(b, tail);
    Block110ComesBack(st, p, code, size, byteCount);
    assert (b + tail)[0] == DATA_V110 && (b + tail)[5] == p.code;
  }

  lemma ParseExtendedBlock(st: State, p: Plan, code: nat, tail: seq<Byte>)
    requires code < 65536 && p.code == 0 && p.channels == 2
    ensures ScanBlocks(st, TERMINATOR, BlockExtended(p, code) + tail)
         == ScanBlocks(st.(code := 0, channels := 2, extended := true, rate := ParseExtended(code, 2)),
                       FORMAT_EXTENDED, tail)
  {
    var b := BlockExtended(p, code);
    Cut(b, tail);
    BlockExtendedComesBack(st, p, code);
    assert (b + tail)[0] == FORMAT_EXTENDED;
  }

  lemma Regroup(a: seq<Byte>, b: seq<Byte>, c: seq<Byte>)
    ensures a + b + c == a + (b + c)
  {
  }

  lemma HeaderThenBlocks(version: nat, b: seq<Byte>, st: State, rest: seq<Byte>)
    requires (version == V110 || version == V120) && ScanBlocks(INITIAL, TERMINATOR, b) == Stopped(st, rest)
    ensures Parse(FileHeader(version) + b) == (Conclude(st), rest)
  {
    HeaderIsAccepted(version);
    Cut(FileHeader(version), b);
  }

  lemma Prologue120Parses(p: Plan, rate: nat, size: nat, tail: seq<Byte>)
    requires rate < 0x1_0000_0000 && Supported(FormatOfCode(p.code)) && p.version == V120
    ensures Parse(Prologue(p, rate, size) + tail) == (Expected(p, rate, size), tail)
  {
    var b := Block120(p, rate, size) + tail;
    Regroup(FileHeader(p.version), Block120(p, rate, size), tail);
    Parse120(INITIAL, p, rate, size, tail);
    HeaderThenBlocks(V120, b, INITIAL.(rate := rate, channels := p.channels % 256, code := p.code,
                     byteCount := (size % 0x100_0000 - 12) % 0x1_0000_0000), tail);
  }

  lemma PrologueMonoParses(p: Plan, rate: nat, size: nat, tail: seq<Byte>)
    requires p.version == V110 && p.code == 0 && 1 <= p.channels <= 2 && !p.extended
    ensures Parse(Prologue(p, rate, size) + tail) == (Expected(p, rate, size), tail)
  {
    var byteCount, code := (size % 0x100_0000 - 2) % 0x1_0000_0000, CodeValue(BuildV110(rate)) % 256;
    var b := Block110(p, code, size) + tail;
    assert [] + Block110(p, code, size) == Block110(p, code, size);
    Regroup(FileHeader(p.version), Block110(p, code, size), tail);
    Parse110(INITIAL, TERMINATOR, p, code, size, byteCount, tail);
    HeaderThenBlocks(V110, b, INITIAL.(code := 0, rate := ParseV110(code), channels := 1, byteCount := byteCount), tail);
  }

  lemma PrologueStereoParses(p: Plan, rate: nat, size: nat, tail: seq<Byte>)
    requires p.version == V110 && p.code == 0 && p.channels == 2 && p.extended
    requires CodeValue(BuildExtended(rate, 2)) < 65536
    ensures Parse(Prologue(p, rate, size) + tail) == (Expected(p, rate, size), tail)
  {
    var byteCount, code := (size % 0x100_0000 - 2) % 0x1_0000_0000, CodeValue(BuildV110(rate)) % 256;
    var ext := CodeValue(BuildExtended(rate, 2));
    Small(ext, 65536);
    var b := Block110(p, code, size) + tail;
    Regroup(BlockExtended(p, ext), Block110(p, code, size), tail);
    Regroup(FileHeader(p.version), Blocks(p, rate, size), tail);
    ParseExtendedBlock(INITIAL, p, ext, b);
    var st := INITIAL.(code := 0, channels := 2, extended := true, rate := ParseExtended(ext, 2));
    Parse110(st, FORMAT_EXTENDED, p, code, size, byteCount, tail);
    HeaderThenBlocks(V110, BlockExtended(p, ext) + b, st.(byteCount := byteCount), tail);
  }

  // ----- when the parameters survive -----

  /** Rates of the 8-bit table come back. */
  lemma MonoRateComesBack(rate: nat)
    requires V110CodeFor(rate) != 0
    ensures ParseV110(CodeValue(BuildV110(rate)) % 256) == rate
  {
  }

  /** Stereo rates of the 16-bit table: the code, and the rate it stands for. */
  function StereoCode(rate: nat): (c: (nat, nat)) {
    match rate
    case 5512 => (42314, 5512)
    case 8000 => (49536, 8000)
    case 11025 => (53927, 11025)
    case 16000 => (57536, 16000)
    case 22050 => (59732, 22050)
    case 32000 => (61536, 32000)
    case 44100 => (62634, 44100)
    case 48000 => (62870, 48000)
    case 64000 => (63536, 64000)
    case 88200 => (64085, 88200)
    case 96000 => (64203, 96000)
    case 176400 => (64811, 176400)
    case 192000 => (64870, 192000)
    case 352800 => (65174, 353591)
    case 384000 => (65203, 384384)
    case _ => (0, 0)
  }

  lemma StereoBuild(rate: nat)
    requires Listed(rate)
    ensures BuildExtended(rate, 2) == Code(StereoCode(rate).0) && StereoCode(rate).0 < 65536
  {
    if rate <= 32000 { SlowStereoBuild(rate); } else { FastStereoBuild(rate); }
  }

  lemma SlowStereoBuild(rate: nat)
    requires Listed(rate) && rate <= 32000
    ensures BuildExtended(rate, 2) == Code(StereoCode(rate).0) && StereoCode(rate).0 < 65536
  {
  }

  lemma FastStereoBuild(rate: nat)
    requires Listed(rate) && rate > 32000
    ensures BuildExtended(rate, 2) == Code(StereoCode(rate).0) && StereoCode(rate).0 < 65536
  {
  }

  lemma StereoParse(rate: nat)
    requires Listed(rate)
    ensures StereoCode(rate).0 < 65536 && ParseExtended(StereoCode(rate).0, 2) == StereoCode(rate).1
  {
  }

  /** They come back exactly up to 192 kHz. */
  lemma StereoRateComesBackIff(rate: nat)
    requires Listed(rate)
    ensures CodeValue(BuildExtended(rate, 2)) < 65536
    ensures ParseExtended(CodeValue(BuildExtended(rate, 2)), 2) == rate <==> rate <= 192000
  {
    StereoBuild(rate);
    StereoParse(rate);
  }

  /** The size is not limited by the container, and it is either not cut to 24 bits or one of the last
      few of 32 bits, for which the two wrap-arounds of writing and reading cancel out. */
  predicate SizeFits(p: Plan, byteCount: nat, maxSize: nat) {
    && byteCount <= (maxSize - SizeExtra(p)) % 0x1_0000_0000_0000_0000
    && (byteCount + SizeExtra(p) < 0x100_0000 || 0x1_0000_0000 - SizeExtra(p) <= byteCount < 0x1_0000_0000)
  }

  /** What a caller can check beforehand: the channels fit their byte, an extended stereo rate is
      at most 192 kHz, and the size fits. */
  predicate Fits(p: Plan, rate: nat, byteCount: nat, maxSize: nat) {
    && (p.version == V120 ==> p.channels <= 255)
    && (p.version == V110 && p.extended ==> rate <= 192000)
    && SizeFits(p, byteCount, maxSize)
  }

  /** What the size field, cut to 24 bits, is read as. */
  function ReadSize(size: nat, extra: nat): nat {
    (size % 0x100_0000 - extra) % 0x1_0000_0000
  }

  lemma ReadSizeIs(size: nat, extra: nat)
    requires 0 < extra <= 12
    ensures var low: int := size % 0x100_0000;
      ReadSize(size, extra) == if low >= extra then low - extra else 0x1_0000_0000 + low - extra
  {
    var low: int := size % 0x100_0000;
    if low >= extra {
      Small(low - extra, 0x1_0000_0000);
    } else {
      assert (low - extra) % 0x1_0000_0000 == 0x1_0000_0000 + low - extra;
    }
  }

  lemma LimitIs(maxSize: nat, extra: nat)
    requires 0 < extra <= 12 && maxSize < 0x100_0000
    ensures (maxSize - extra) % 0x1_0000_0000_0000_0000
         == if maxSize < extra then 0x1_0000_0000_0000_0000 + maxSize - extra else maxSize - extra
  {
    if maxSize < extra {
      assert (maxSize - extra) % 0x1_0000_0000_0000_0000 == 0x1_0000_0000_0000_0000 + maxSize - extra;
    } else {
      Small(maxSize - extra, 0x1_0000_0000_0000_0000);
    }
  }

  /** A size that is cut to 24 bits survives only if it is one of the last few of 32 bits. */
  lemma CutSizeIs(byteCount: nat, extra: nat)
    requires 0 < extra <= 12 && byteCount + extra >= 0x100_0000
    ensures ReadSize(byteCount + extra, extra) == byteCount <==> 0x1_0000_0000 - extra <= byteCount < 0x1_0000_0000
  {
    ReadSizeIs(byteCount + extra, extra);
    if 0x1_0000_0000 - extra <= byteCount < 0x1_0000_0000 {
      var low: nat := byteCount + extra - 0x1_0000_0000;
      assert byteCount + extra == 0x100_0000 * 256 + low;
      assert (byteCount + extra) % 0x100_0000 == low;
    }
  }

  lemma SizeSurvivesIff(p: Plan, byteCount: nat, maxSize: nat)
    requires maxSize < 0x100_0000
    ensures ReadSize(FinalSize(p, byteCount, maxSize), SizeExtra(p)) == byteCount <==> SizeFits(p, byteCount, maxSize)
  {
    var extra := SizeExtra(p);
    LimitIs(maxSize, extra);
    if byteCount > (maxSize - extra) % 0x1_0000_0000_0000_0000 {
      ReadSizeIs(maxSize, extra);
      Small(maxSize, 0x100_0000);
    } else if byteCount + extra < 0x100_0000 {
      ReadSizeIs(byteCount + extra, extra);
      Small(byteCount + extra, 0x100_0000);
    } else {
      CutSizeIs(byteCount, extra);
    }
  }

  lemma ExpectedIff(f: SampleFormat, channels: nat, rate: nat, p: Plan, byteCount: nat, maxSize: nat)
    requires Supported(f) && 0 < channels && 0 < rate < 0x1_0000_0000 && p == PlanFor(f, channels, rate)
    requires maxSize < 0x100_0000
    ensures Expected(p, rate, FinalSize(p, byteCount, maxSize)) == Parsed(f, channels, rate, byteCount)
       <==> Fits(p, rate, byteCount, maxSize)
  {
    SizeSurvivesIff(p, byteCount, maxSize);
    if p.version == V120 {
      if channels < 256 { Small(channels, 256); }
    } else if p.extended {
      CodeIsOfListed(rate);
      StereoRateComesBackIff(rate);
      Small(CodeValue(BuildExtended(rate, 2)), 65536);
    } else {
      MonoRateComesBack(rate);
    }
  }

  lemma PrologueParses(f: SampleFormat, channels: nat, rate: nat, p: Plan, size: nat, tail: seq<Byte>)
    requires Supported(f) && 0 < channels && 0 < rate < 0x1_0000_0000 && p == PlanFor(f, channels, rate)
    ensures Parse(Prologue(p, rate, size) + tail) == (Expected(p, rate, size), tail)
  {
    if p.version == V120 {
      Prologue120Parses(p, rate, size, tail);
    } else if p.extended {
      CodeIsOfListed(rate);
      StereoRateComesBackIff(rate);
      PrologueStereoParses(p, rate, size, tail);
    } else {
      PrologueMonoParses(p, rate, size, tail);
    }
  }

  /** Main result: what the builder wrote for a format, a number of channels, a rate and a byte
      count is parsed to exactly these, and parsing stops in front of the first frame byte, if
      and only if the parameters fit. */
  lemma FileParsesBackIff(f: SampleFormat, channels: nat, rate: nat, p: Plan, byteCount: nat, maxSize: nat, tail: seq<Byte>)
    requires Supported(f) && 0 < channels && 0 < rate < 0x1_0000_0000 && p == PlanFor(f, channels, rate)
    requires maxSize < 0x100_0000
    ensures Parse(Prologue(p, rate, FinalSize(p, byteCount, maxSize)) + tail)
              == (Parsed(f, channels, rate, byteCount), tail)
       <==> Fits(p, rate, byteCount, maxSize)
  {
    PrologueParses(f, channels, rate, p, FinalSize(p, byteCount, maxSize), tail);
    ExpectedIff(f, channels, rate, p, byteCount, maxSize);
  }

  /** The size limit of the builder after container_context_pre_process has adjusted it. */
  function BuilderLimit(frameBytes: nat): nat
    requires 0 < frameBytes
  {
    0xfffffe - 0xfffffe / frameBytes
  }

  /** With that limit, up to 0x7ffff0 bytes fit for every frame size; for frames of one byte the
      limit becomes zero and only the wrap-around of the subtraction lets any size pass. */
  lemma SizesUpToHalfFit(p: Plan, frameBytes: nat, byteCount: nat)
    requires 0 < frameBytes && byteCount <= 0x7ffff0
    ensures byteCount + SizeExtra(p) < 0x100_0000
    ensures byteCount <= (BuilderLimit(frameBytes) - SizeExtra(p)) % 0x1_0000_0000_0000_0000
  {
    var extra: int := SizeExtra(p);
    if frameBytes == 1 {
      assert BuilderLimit(1) == 0;
      assert (0 - extra) % 0x1_0000_0000_0000_0000 == 0x1_0000_0000_0000_0000 - extra;
    } else {
      QuotientFalls(0xfffffe, 2, frameBytes);
      Small(BuilderLimit(frameBytes) - extra, 0x1_0000_0000_0000_0000);
    }
  }

  // ----- files that end too early -----

  /** `n` turns of detect_format_block. */
  function Turns(n: nat, st: State, last: Byte, s: seq<Byte>): (r: Next) {
    if n == 0 then OneMore(st, last, s)
    else
      match Turn(st, last, s)
      case Done(r) => Done(r)
      case OneMore(st', last', rest) => Turns(n - 1, st', last', rest)
  }

  lemma {:induction false} SpinningGoesOn(n: nat, st: State, last: Byte, s: seq<Byte>)
    requires ScanBlocks(st, last, s) == Spinning
    ensures Turns(n, st, last, s).OneMore?
  {
    if n > 0 {
      var next := Turn(st, last, s);
      SpinningGoesOn(n - 1, next.state, next.last, next.rest);
    }
  }

  lemma {:induction false} OtherScansEnd(st: State, last: Byte, s: seq<Byte>) returns (n: nat)
    requires ScanBlocks(st, last, s) != Spinning
    ensures Turns(n, st, last, s) == Done(ScanBlocks(st, last, s))
    decreases |s|
  {
    n := 0;
    match Turn(st, last, s)
    case Done(r) =>
      assert Turns(1, st, last, s) == Done(r);
      n := 1;
    case OneMore(st', last', rest) =>
      n := OtherScansEnd(st', last', rest);
      n := n + 1;
  }

  /** `Spinning` stands for a loop that never ends, and for nothing else. */
  lemma SpinningIffEndless(st: State, last: Byte, s: seq<Byte>)
    ensures ScanBlocks(st, last, s) == Spinning <==> forall n: nat :: Turns(n, st, last, s).OneMore?
  {
    if ScanBlocks(st, last, s) == Spinning {
      forall n: nat
        ensures Turns(n, st, last, s).OneMore?
      {
        SpinningGoesOn(n, st, last, s);
      }
    } else {
      var n := OtherScansEnd(st, last, s);
    }
  }

  /** A whole block that the scan passes over: an accepted extended one, or one to be skipped. */
  predicate PassedOver(b: seq<Byte>) {
    |b| >= 4 && |b| == BlockSize(b) && if b[0] == FORMAT_EXTENDED then ExtendedOk(b) else Skipped(b[0])
  }

  function Concat(blocks: seq<seq<Byte>>): seq<Byte> {
    if blocks == [] then [] else blocks[0] + Concat(blocks[1..])
  }

  /** `s` is made of blocks that are passed over and of `rest`, which is the beginning of an extended
      block, or nothing where the last block was an extended one. */
  predicate LoopsBy(last: Byte, s: seq<Byte>, blocks: seq<seq<Byte>>, rest: seq<Byte>) {
    && s == Concat(blocks) + rest
    && (forall b :: b in blocks ==> PassedOver(b))
    && |rest| < 8 && FORMAT_EXTENDED == if rest != [] then rest[0] else LastKind(last, blocks)
  }

  /** The type of the last block, or `last` if there is none. */
  function LastKind(last: Byte, blocks: seq<seq<Byte>>): Byte
    decreases |blocks|
  {
    if blocks == [] then last else LastKind(if blocks[0] == [] then last else blocks[0][0], blocks[1..])
  }

  lemma PassOver(st: State, last: Byte, b: seq<Byte>, s: seq<Byte>) returns (st': State)
    requires PassedOver(b)
    ensures Turn(st, last, b + s) == OneMore(st', b[0], s)
  {
    Cut(b, s);
    assert (b + s)[1..4] == b[1..4];
    st' := if b[0] == FORMAT_EXTENDED then ParseBlockExtended(st, b) else st;
  }

  lemma {:induction false} LoopingSpins(st: State, last: Byte, s: seq<Byte>, blocks: seq<seq<Byte>>, rest: seq<Byte>)
    requires LoopsBy(last, s, blocks, rest)
    ensures ScanBlocks(st, last, s) == Spinning
    decreases |blocks|
  {
    if blocks != [] {
      var b, s' := blocks[0], Concat(blocks[1..]) + rest;
      assert s == b + s' && b in blocks;
      var st' := PassOver(st, last, b, s');
      LoopingSpins(st', b[0], s', blocks[1..], rest);
    } else {
      assert s == rest;
    }
  }

  /** A whole block in front of which the scan goes on is one that it passes over. */
  lemma WholeBlock(st: State, last: Byte, s: seq<Byte>)
    requires 4 <= |s| && BlockSize(s) <= |s| && Turn(st, last, s).OneMore?
    ensures var b := s[..BlockSize(s)]; PassedOver(b) && s == b + s[BlockSize(s)..]
  {
    if BlockSize(s) >= 4 { assert s[..BlockSize(s)][1..4] == s[1..4]; }
  }

  lemma {:induction false} SpinningLoops(st: State, last: Byte, s: seq<Byte>)
      returns (blocks: seq<seq<Byte>>, rest: seq<Byte>)
    requires ScanBlocks(st, last, s) == Spinning
    ensures LoopsBy(last, s, blocks, rest)
    decreases |s|
  {
    blocks, rest := [], s;
    if 4 <= |s| && BlockSize(s) <= |s| {
      var b, s' := s[..BlockSize(s)], s[BlockSize(s)..];
      WholeBlock(st, last, s);
      var st' := PassOver(st, last, b, s');
      var more;
      more, rest := SpinningLoops(st', b[0], s');
      blocks := [b] + more;
      assert blocks[1..] == more;
    }
  }

  /** The bytes that make the parser spin, exactly. */
  lemma SpinsIff(st: State, last: Byte, s: seq<Byte>)
    ensures ScanBlocks(st, last, s) == Spinning <==> exists blocks, rest :: LoopsBy(last, s, blocks, rest)
  {
    if ScanBlocks(st, last, s) == Spinning {
      var blocks, rest := SpinningLoops(st, last, s);
    }
    forall blocks, rest | LoopsBy(last, s, blocks, rest)
      ensures ScanBlocks(st, last, s) == Spinning
    {
      LoopingSpins(st, last, s, blocks, rest);
    }
  }

  lemma ParseSpinsIff(version: nat, b: seq<Byte>)
    requires version == V110 || version == V120
    ensures Parse(FileHeader(version) + b).0 == Spins <==> ScanBlocks(INITIAL, TERMINATOR, b) == Spinning
  {
    HeaderIsAccepted(version);
    Cut(FileHeader(version), b);
  }

  lemma ExtendedThenDataSpinsIff(e: seq<Byte>, b: seq<Byte>, cut: nat)
    requires |e| == 8 && e[0] == FORMAT_EXTENDED && ExtendedOk(e) && 0 < |b| && b[0] == DATA_V110 && cut <= |e + b|
    ensures ScanBlocks(INITIAL, TERMINATOR, (e + b)[..cut]) == Spinning <==> 1 <= cut <= 8
  {
    var s := (e + b)[..cut];
    if cut >= 8 {
      assert s == e + b[..cut - 8];
      var st := PassOver(INITIAL, TERMINATOR, e, b[..cut - 8]);
    }
  }

  /** The blocks of a stereo file with an extended block, cut off anywhere. */
  lemma StereoBlocksSpinIff(p: Plan, rate: nat, size: nat, frames: seq<Byte>, cut: nat)
    requires p.version == V110 && p.extended && p.code == 0 && p.channels == 2 && Listed(rate)
    requires cut <= |Blocks(p, rate, size) + frames|
    ensures ScanBlocks(INITIAL, TERMINATOR, (Blocks(p, rate, size) + frames)[..cut]) == Spinning <==> 1 <= cut <= 8
  {
    var code := CodeValue(BuildExtended(rate, 2));
    var e, b := BlockExtended(p, code), Block110(p, CodeValue(BuildV110(rate)) % 256, size) + frames;
    StereoRateComesBackIff(rate);
    BlockExtendedComesBack(INITIAL, p, code);
    assert Blocks(p, rate, size) + frames == e + b;
    ExtendedThenDataSpinsIff(e, b, cut);
  }

  lemma OtherBlocksDoNotSpin(s: seq<Byte>)
    requires s == [] || s[0] == DATA_V110 || s[0] == DATA_V120
    ensures ScanBlocks(INITIAL, TERMINATOR, s) != Spinning
  {
  }

  /** Of the files that the builder writes, cut off anywhere, those make the parser spin that end
      inside or right behind the extended block of a stereo file. */
  lemma TruncatedSpinsIff(f: SampleFormat, channels: nat, rate: nat, p: Plan, size: nat, frames: seq<Byte>, cut: nat)
    requires Supported(f) && 0 < channels && 0 < rate < 0x1_0000_0000 && p == PlanFor(f, channels, rate)
    requires cut <= |Prologue(p, rate, size) + frames|
    ensures Parse((Prologue(p, rate, size) + frames)[..cut]).0 == Spins
       <==> p.version == V110 && p.extended && 27 <= cut <= 34
  {
    if cut >= 26 {
      var blocks := Blocks(p, rate, size) + frames;
      Regroup(FileHeader(p.version), Blocks(p, rate, size), frames);
      assert (Prologue(p, rate, size) + frames)[..cut] == FileHeader(p.version) + blocks[..cut - 26];
      ParseSpinsIff(p.version, blocks[..cut - 26]);
      if p.version == V110 && p.extended {
        CodeIsOfListed(rate);
        StereoBlocksSpinIff(p, rate, size, frames, cut - 26);
      } else {
        OtherBlocksDoNotSpin(blocks[..cut - 26]);
      }
    }
  }

  // ----- the code: writing -----

  class Builder {
    var plan: Plan

    constructor () {
      plan := Plan(0, false, 0, 0, 0);
    }

    /** The searches of voc_builder_pre_process. */
    method Decide(f: SampleFormat, channels: nat, rate: nat) returns (ok: bool)
      modifies this
      ensures ok <==> Supported(f)
      ensures ok ==> plan == PlanFor(f, channels, rate)
    {
      if !Supported(f) { return false; }
      var version, extended := if channels > 2 then V120 else FirstVersion(f), false;
      if version == V110 {
        var i := 0;
        if channels == 2 {
          while i < EXT_COUNT && ExtEntry(i).0 != rate
            invariant 0 <= i <= EXT_COUNT && forall k :: 0 <= k < i ==> ExtEntry(k).0 != rate
          {
            i := i + 1;
          }
          ExtSearch(rate, i);
          if i == EXT_COUNT { version := V120; } else { extended := true; }
        } else {
          while i < V110_COUNT && V110Entry(i).0 != rate
            invariant 0 <= i <= V110_COUNT && forall k :: 0 <= k < i ==> V110Entry(k).0 != rate
          {
            i := i + 1;
          }
          V110Search(rate, i);
          if i == V110_COUNT { version := V120; }
        }
      }
      plan := Plan(version, extended, CodeOf(f), channels, f.PhysicalWidth() / 8);
      return true;
    }

    /** write_extended_v110_format_block */
    method WriteExtended(cntr: Context, rate: nat) returns (err: int)
      requires cntr.Valid()
      modifies cntr`pos, cntr`script, cntr`bytes
      ensures cntr.Valid() && err <= 0 && (Benign(old(cntr.script)) ==> Benign(cntr.script))
      ensures Benign(old(cntr.script)) && plan.channels <= 2 ==> err == 0
      ensures err == 0 ==>
                && cntr.bytes == Overwrite(old(cntr.bytes), old(cntr.pos),
                                           BlockExtended(plan, CodeValue(BuildExtended(rate, plan.channels))))
                && cntr.pos == old(cntr.pos) + 8
    {
      var c := BuildTimeConstant(rate, plan.channels, true);
      if c == Refused { return -EINVAL; }
      err := cntr.WriteBytes(BlockExtended(plan, CodeValue(c)));
    }

    /** write_v110_format_block */
    method Write110(cntr: Context, rate: nat, byteCount: nat) returns (err: int)
      requires cntr.Valid()
      modifies cntr`pos, cntr`script, cntr`bytes
      ensures cntr.Valid() && err <= 0 && (Benign(old(cntr.script)) ==> err == 0 && Benign(cntr.script))
      ensures err == 0 ==>
                && cntr.bytes == Overwrite(old(cntr.bytes), old(cntr.pos),
                                           Block110(plan, CodeValue(BuildV110(rate)) % 256, 2 + byteCount))
                && cntr.pos == old(cntr.pos) + 6
    {
      var code := CodeFor110(rate);
      err := cntr.WriteBytes(Block110(plan, code, 2 + byteCount));
    }

    /** The code is stored in one byte. */
    method CodeFor110(rate: nat) returns (code: Byte)
      ensures code == CodeValue(BuildV110(rate)) % 256
    {
      var c := BuildTimeConstant(rate, 1, false);
      code := CodeValue(c) % 256;
    }

    /** write_data_blocks: the file header and the format and data blocks. */
    method WriteBlocks(cntr: Context, rate: nat, byteCount: nat) returns (err: int)
      requires cntr.Valid() && (plan.version == V110 || plan.version == V120)
      modifies cntr`pos, cntr`script, cntr`bytes
      ensures cntr.Valid() && err <= 0 && (Benign(old(cntr.script)) ==> Benign(cntr.script))
      ensures Benign(old(cntr.script)) && (plan.version == V110 && plan.extended ==> plan.channels <= 2) ==> err == 0
      ensures err == 0 ==>
                var s := Prologue(plan, rate, SizeExtra(plan) + byteCount);
                cntr.bytes == Overwrite(old(cntr.bytes), old(cntr.pos), s) && cntr.pos == old(cntr.pos) + |s|
    {
      ghost var bytes, pos := cntr.bytes, cntr.pos;
      var h := FileHeader(plan.version);
      err := cntr.WriteBytes(h);
      if err < 0 { return; }
      if plan.version == V120 {
        var b := Block120(plan, rate, 12 + byteCount);
        err := cntr.WriteBytes(b);
        OverwriteTwice(bytes, pos, h, b);
      } else {
        ghost var b;
        err, b := Write110Blocks(cntr, rate, byteCount);
        OverwriteTwice(bytes, pos, h, b);
      }
    }

    /** The blocks of a 1.10 file. */
    method Write110Blocks(cntr: Context, rate: nat, byteCount: nat) returns (err: int, ghost b: seq<Byte>)
      requires cntr.Valid() && plan.version == V110
      modifies cntr`pos, cntr`script, cntr`bytes
      ensures cntr.Valid() && err <= 0 && (Benign(old(cntr.script)) ==> Benign(cntr.script))
      ensures Benign(old(cntr.script)) && (plan.extended ==> plan.channels <= 2) ==> err == 0
      ensures err == 0 ==>
                cntr.bytes == Overwrite(old(cntr.bytes), old(cntr.pos), b) && cntr.pos == old(cntr.pos) + |b|
      ensures FileHeader(plan.version) + b == Prologue(plan, rate, 2 + byteCount)
    {
      ghost var bytes, pos := cntr.bytes, cntr.pos;
      ghost var e := if plan.extended then BlockExtended(plan, CodeValue(BuildExtended(rate, plan.channels))) else [];
      ghost var d := Block110(plan, CodeValue(BuildV110(rate)) % 256, 2 + byteCount);
      b := e + d;
      err := 0;
      if plan.extended {
        err := WriteExtended(cntr, rate);
        if err < 0 { return; }
      }
      err := Write110(cntr, rate, byteCount);
      OverwriteTwice(bytes, pos, e, d);
    }

    /** voc_builder_post_process: a terminator behind the frames, then back to the size field. */
    method PostProcess(cntr: Context, byteCount: nat, maxSize: nat) returns (err: int)
      requires cntr.Valid() && SizeOffset(plan) + 3 <= |cntr.bytes| && cntr.pos == |cntr.bytes|
      modifies cntr`pos, cntr`script, cntr`bytes
      ensures cntr.Valid() && err <= 0 && (Benign(old(cntr.script)) ==> err == 0 && Benign(cntr.script))
      ensures err == 0 ==>
                cntr.bytes == Overwrite(old(cntr.bytes) + [TERMINATOR], SizeOffset(plan),
                                        Size24(FinalSize(plan, byteCount, maxSize)))
    {
      ghost var bytes := cntr.bytes;
      err := cntr.WriteBytes([TERMINATOR]);
      if err < 0 { return; }
      assert cntr.bytes == bytes + [TERMINATOR];
      cntr.Seek(SizeOffset(plan));
      err := cntr.WriteBytes(Size24(FinalSize(plan, byteCount, maxSize)));
    }
  }

  /** The bytes in front of the size field and those behind it, up to the frames. */
  function BeforeSize(p: Plan, rate: nat): (s: seq<Byte>)
    requires p.version == V110 || p.version == V120
    ensures |s| == SizeOffset(p)
  {
    FileHeader(p.version) +
    if p.version == V120 then [DATA_V120]
    else if p.extended then BlockExtended(p, CodeValue(BuildExtended(rate, p.channels))) + [DATA_V110]
    else [DATA_V110]
  }

  function BehindSize(p: Plan, rate: nat): seq<Byte> {
    if p.version == V120 then
      Bytes32(false, rate) + [p.sampleBytes * 8 % 256, p.channels % 256] + Bytes16(false, p.code) + MAGIC[12..16]
    else [CodeValue(BuildV110(rate)) % 256, p.code]
  }

  lemma PrologueAroundSize(p: Plan, rate: nat, size: nat)
    requires p.version == V110 || p.version == V120
    ensures Prologue(p, rate, size) == BeforeSize(p, rate) + Size24(size) + BehindSize(p, rate)
  {
    if p.version == V120 {
      assert Block120(p, rate, size) == [DATA_V120] + Size24(size) + BehindSize(p, rate);
    } else {
      assert Block110(p, CodeValue(BuildV110(rate)) % 256, size) == [DATA_V110] + Size24(size) + BehindSize(p, rate);
    }
  }

  lemma OverwriteMiddle(head: seq<Byte>, a: seq<Byte>, b: seq<Byte>, rest: seq<Byte>, tail: seq<Byte>)
    requires |a| == |b|
    ensures Overwrite(head + a + rest + tail, |head|, b) == head + b + rest + tail
  {
  }

  /** Patching the size field of a prologue is writing it with that size. */
  lemma PatchSize(p: Plan, rate: nat, before: nat, after: nat, tail: seq<Byte>)
    requires p.version == V110 || p.version == V120
    ensures SizeOffset(p) + 3 <= |Prologue(p, rate, before)|
    ensures Overwrite(Prologue(p, rate, before) + tail, SizeOffset(p), Size24(after))
         == Prologue(p, rate, after) + tail
  {
    PrologueAroundSize(p, rate, before);
    PrologueAroundSize(p, rate, after);
    OverwriteMiddle(BeforeSize(p, rate), Size24(before), Size24(after), BehindSize(p, rate), tail);
  }

  predicate Writable(p: Plan) {
    && (p.version == V110 || p.version == V120)
    && (p.version == V110 && p.extended ==> p.channels <= 2)
  }

  method BeginFile(builder: Builder, rate: nat, script: seq<IoEvent>, firstCount: nat) returns (out: Context)
    requires Writable(builder.plan) && Benign(script)
    ensures fresh(out) && out.Valid() && Benign(out.script) && out.Rest() == []
    ensures out.bytes == Prologue(builder.plan, rate, SizeExtra(builder.plan) + firstCount)
  {
    out := new Context([], script);
    WriteHead(builder, out, rate, firstCount);
    assert out.bytes[out.pos..] == [];
  }

  method WriteHead(builder: Builder, out: Context, rate: nat, firstCount: nat)
    requires Writable(builder.plan) && out.Valid() && Benign(out.script) && out.bytes == [] && out.pos == 0
    modifies out`pos, out`script, out`bytes
    ensures out.Valid() && Benign(out.script) && out.pos == |out.bytes|
    ensures out.bytes == Prologue(builder.plan, rate, SizeExtra(builder.plan) + firstCount)
  {
    ghost var p, size := builder.plan, SizeExtra(builder.plan) + firstCount;
    var err := builder.WriteBlocks(out, rate, firstCount);
    assert err == 0 && builder.plan == p;
    OverwriteNothing(Prologue(p, rate, size));
  }

  lemma OverwriteNothing(b: seq<Byte>)
    ensures Overwrite([], 0, b) == b
  {
  }

  method AppendFrames(out: Context, frames: seq<Byte>)
    requires out.Valid() && Benign(out.script) && out.Rest() == []
    modifies out`pos, out`script, out`bytes
    ensures out.Valid() && Benign(out.script) && out.Rest() == [] && out.bytes == old(out.bytes) + frames
  {
    assert out.pos == |out.bytes|;
    OverwriteAtEnd(out.bytes, frames);
    var err := out.WriteBytes(frames);
  }

  method EndFile(builder: Builder, out: Context, rate: nat, before: nat, frames: seq<Byte>, maxSize: nat)
    requires Writable(builder.plan) && out.Valid() && Benign(out.script) && out.Rest() == []
    requires out.bytes == Prologue(builder.plan, rate, before) + frames
    modifies out`pos, out`script, out`bytes
    ensures out.bytes == Prologue(builder.plan, rate, FinalSize(builder.plan, |frames|, maxSize)) + (frames + [TERMINATOR])
  {
    assert out.pos == |out.bytes|;
    Finished(builder.plan, rate, before, FinalSize(builder.plan, |frames|, maxSize), frames);
    var err := builder.PostProcess(out, |frames|, maxSize);
  }

  /** Header, frames, terminator and final size, for a plan that is already made. */
  method WritePlanned(builder: Builder, rate: nat, frames: seq<Byte>, script: seq<IoEvent>,
                      firstCount: nat, maxSize: nat) returns (bytes: seq<Byte>)
    requires Writable(builder.plan) && Benign(script)
    ensures bytes == Prologue(builder.plan, rate, FinalSize(builder.plan, |frames|, maxSize)) + (frames + [TERMINATOR])
  {
    var out := BeginFile(builder, rate, script, firstCount);
    AppendFrames(out, frames);
    EndFile(builder, out, rate, SizeExtra(builder.plan) + firstCount, frames, maxSize);
    bytes := out.bytes;
  }

  /** Writing a file from start to end, with the transfers cut in any way. */
  method WriteFile(f: SampleFormat, channels: nat, rate: nat, frames: seq<Byte>, script: seq<IoEvent>,
                   firstCount: nat, maxSize: nat) returns (bytes: seq<Byte>, ghost p: Plan)
    requires Supported(f) && Benign(script)
    ensures p == PlanFor(f, channels, rate)
    ensures bytes == Prologue(p, rate, FinalSize(p, |frames|, maxSize)) + (frames + [TERMINATOR])
  {
    var builder := new Builder();
    var ok := builder.Decide(f, channels, rate);
    p := builder.plan;
    bytes := WritePlanned(builder, rate, frames, script, firstCount, maxSize);
  }

  lemma OverwriteAtEnd(a: seq<Byte>, b: seq<Byte>)
    ensures Overwrite(a, |a|, b) == a + b
  {
  }

  lemma Finished(p: Plan, rate: nat, before: nat, after: nat, frames: seq<Byte>)
    requires p.version == V110 || p.version == V120
    ensures SizeOffset(p) + 3 <= |Prologue(p, rate, before)|
    ensures Overwrite(Prologue(p, rate, before) + frames + [TERMINATOR], SizeOffset(p), Size24(after))
         == Prologue(p, rate, after) + (frames + [TERMINATOR])
  {
    PatchSize(p, rate, before, after, frames + [TERMINATOR]);
    assert Prologue(p, rate, before) + frames + [TERMINATOR] == Prologue(p, rate, before) + (frames + [TERMINATOR]);
  }

  // ----- the code: reading -----

  class Parser {
    var state: State

    constructor ()
      ensures state == INITIAL
    {
      state := INITIAL;
    }

    /** Type and size of the next block; the type stays in `buf` when the file ends there. */
    method ReadBlockHeader(cntr: Context, buf: array<Byte>) returns (err: int)
      requires cntr.Valid() && buf.Length == 16 && (cntr.eof ==> cntr.Rest() == [])
      modifies cntr`pos, cntr`script, cntr`eof, buf
      ensures cntr.Valid() && err <= 0 && (Benign(old(cntr.script)) ==> Benign(cntr.script))
      ensures err == 0 && cntr.eof ==> cntr.Rest() == []
      ensures err == 0 && !cntr.eof ==> |cntr.Rest()| < |old(cntr.Rest())| && buf[0] <= DATA_V120
      ensures Benign(old(cntr.script)) ==>
                var s := old(cntr.Rest());
                if |s| < 1 then err == 0 && cntr.eof && buf[0] == old(buf[0])
                else if s[0] > DATA_V120 then err == -EIO
                else if s[0] == TERMINATOR then err == 0 && !cntr.eof && buf[0] == s[0] && cntr.Rest() == s[1..]
                else if |s| < 4 then err == 0 && cntr.eof && buf[0] == s[0]
                else err == 0 && !cntr.eof && buf[0..4] == s[..4] && cntr.Rest() == s[4..]
    {
      ghost var s := cntr.Rest();
      ghost var before := buf[..];
      var one := new Byte[1](_ => 0);
      err := cntr.RecursiveRead(one, 0, 1);
      if err < 0 || cntr.eof { return; }
      assert one[0..1] == s[..1];
      buf[0] := one[0];
      assert buf[0] == one[0..1][0] == s[0];
      if buf[0] > DATA_V120 { return -EIO; }
      if buf[0] == TERMINATOR { return; }
      err := cntr.RecursiveRead(buf, 1, 3);
      assert buf[0] == buf[..1][0] == s[0];
      if err < 0 || cntr.eof { return; }
      assert buf[1..4] == s[1..][..3];
      assert buf[0..4] == s[..4];
    }

    /** One block of a type that carries the format: read and parsed. */
    method ReadBlock(cntr: Context, buf: array<Byte>) returns (err: int, ended: bool)
      requires cntr.Valid() && !cntr.eof && buf.Length == 16
      requires buf[0] == FORMAT_EXTENDED || buf[0] == DATA_V110 || buf[0] == DATA_V120
      modifies this, cntr`pos, cntr`script, cntr`eof, buf
      ensures cntr.Valid() && err <= 0 && (Benign(old(cntr.script)) ==> Benign(cntr.script))
      ensures buf[0] == old(buf[0]) && (err == 0 ==> ended == cntr.eof)
      ensures err == 0 && ended ==> cntr.Rest() == [] && state == old(state)
      ensures err == 0 && !ended ==> |cntr.Rest()| <= |old(cntr.Rest())|
      ensures Benign(old(cntr.script)) ==>
                var s := old(buf[0..4]) + old(cntr.Rest());
                if s[0] == FORMAT_EXTENDED then
                  if |s| < 8 then err == 0 && ended
                  else if !ExtendedOk(s[..8]) then err == -EIO
                  else err == 0 && !ended && cntr.Rest() == s[8..] && state == ParseBlockExtended(old(state), s[..8])
                else
                  match ScanBlock(old(state), s)
                  case Bad => err == -EIO
                  case Ended(st) => err == 0 && ended
                  case Stopped(st, rest) => err == 0 && !ended && state == st && cntr.Rest() == rest
                  case _ => false
    {
      ghost var rest := cntr.Rest();
      ghost var s := buf[0..4] + rest;
      var n := if buf[0] == FORMAT_EXTENDED then 8 else if buf[0] == DATA_V110 then 6 else 16;
      err := cntr.RecursiveRead(buf, 4, n - 4);
      assert buf[0] == buf[..4][0];
      ended := cntr.eof;
      if err < 0 || ended { return; }
      assert buf[..4] == s[..4] && buf[4..n] == rest[..n - 4];
      assert buf[0..n] == s[..n];
      if n == 8 {
        if !CodeAllowed(buf[6], V110) || buf[7] > 1 { return -EIO, ended; }
        var channels := if buf[7] == 0 then 1 else 2;
        var rate := ParseExtendedConstant(Value16(false, buf[4..6]), channels);
        assert buf[4..6] == s[..8][4..6];
        state := state.(code := buf[6], channels := channels, extended := true, rate := rate);
      } else if n == 16 {
        state := ParseBlock120(state, buf[0..16]);
        if !CodeAllowed(state.code, V120) { err := -EIO; }
      } else {
        if !state.extended && !CodeAllowed(buf[5], V110) { return -EIO, ended; }
        state := ParseBlock110(state, buf[0..6]);
      }
    }

    /** A block of one of the other types: read and thrown away. */
    method SkipBlock(cntr: Context, buf: array<Byte>) returns (err: int, ended: bool, over: bool)
      requires cntr.Valid() && !cntr.eof && buf.Length == 16 && Skipped(buf[0])
      modifies cntr`pos, cntr`script, cntr`eof
      ensures cntr.Valid() && err <= 0 && (Benign(old(cntr.script)) ==> err == 0 && Benign(cntr.script))
      ensures err < 0 || over ==> ended
      ensures err == 0 && cntr.eof ==> cntr.Rest() == []
      ensures err == 0 && !cntr.eof ==> |cntr.Rest()| <= |old(cntr.Rest())|
      ensures err == 0 ==>
                var s := buf[0..4] + old(cntr.Rest());
                if BlockSize(s) < 4 then over && !cntr.eof
                else if |s| < BlockSize(s) then ended && !over && cntr.eof
                else !ended && !over && !cntr.eof && cntr.Rest() == s[BlockSize(s)..]
    {
      ghost var s := buf[0..4] + cntr.Rest();
      assert s[1..4] == buf[1..4];
      err, ended, over := 0, true, false;
      var n := if buf[0] == CONTINUOUS_DATA then 4 else ParseSize(buf[1..4]);
      if n < 4 {
        over := true;
        return;
      }
      var data := new Byte[n - 4](_ => 0);
      err := cntr.RecursiveRead(data, 0, n - 4);
      ended := err < 0 || cntr.eof;
    }

    /** One turn of detect_format_block, at the end of the file too: `stop` is false where the C code
        goes back to read another block; `over` marks a block to be skipped
        that is smaller than its header. */
    method OneBlock(cntr: Context, buf: array<Byte>) returns (err: int, stop: bool, over: bool)
      requires cntr.Valid() && buf.Length == 16 && (cntr.eof ==> cntr.Rest() == [])
      modifies this, cntr`pos, cntr`script, cntr`eof, buf
      ensures cntr.Valid() && err <= 0 && (Benign(old(cntr.script)) ==> Benign(cntr.script))
      ensures err < 0 || over ==> stop
      ensures !stop && !cntr.eof ==> |cntr.Rest()| < |old(cntr.Rest())|
      ensures !stop && cntr.eof ==> buf[0] == FORMAT_EXTENDED
      ensures Benign(old(cntr.script)) ==>
                Turn(old(state), old(buf[0]), old(cntr.Rest())) ==
                  if !stop then OneMore(state, buf[0], cntr.Rest())
                  else Done(if err < 0 then Bad else if over then Undefined
                            else if cntr.eof then Ended(state) else Stopped(state, cntr.Rest()))
      ensures Benign(old(cntr.script)) ==> err == 0 || err == -EIO
      ensures err == 0 && cntr.eof ==> cntr.Rest() == []
    {
      ghost var s := cntr.Rest();
      stop, over := true, false;
      err := ReadBlockHeader(cntr, buf);
      if err < 0 { return; }
      if cntr.eof {
        stop := buf[0] != FORMAT_EXTENDED;
        return;
      }
      if buf[0] == TERMINATOR { return; }
      assert Benign(cntr.script) && Benign(old(cntr.script)) ==> buf[0..4] + cntr.Rest() == s;
      if Skipped(buf[0]) {
        err, stop, over := SkipBlock(cntr, buf);
        return;
      }
      var ended;
      err, ended := ReadBlock(cntr, buf);
      if err < 0 { return; }
      stop := buf[0] != FORMAT_EXTENDED;
    }

    /** detect_format_block. Before the first block the type in the header is uninitialised in C;
        here it is zero. Where the C code would go on at the end of the file, `spins` is set. */
    method DetectBlocks(cntr: Context) returns (err: int, over: bool, spins: bool)
      requires cntr.Valid() && !cntr.eof
      modifies this, cntr`pos, cntr`script, cntr`eof
      ensures cntr.Valid() && err <= 0
      ensures Benign(old(cntr.script)) ==>
                ScanBlocks(old(state), TERMINATOR, old(cntr.Rest())) ==
                  if err < 0 then Bad else if over then Undefined else if spins then Spinning
                  else if cntr.eof then Ended(state) else Stopped(state, cntr.Rest())
      ensures Benign(old(cntr.script)) ==> err == 0 || err == -EIO
      ensures err == 0 && cntr.eof ==> cntr.Rest() == []
    {
      var buf := new Byte[16](_ => 0);
      ghost var benign, goal := Benign(cntr.script), ScanBlocks(state, TERMINATOR, cntr.Rest());
      var stop := false;
      err, over, spins := 0, false, false;
      while !stop
        invariant fresh(buf) && buf.Length == 16 && cntr.Valid() && err <= 0
        invariant benign ==> Benign(cntr.script) && (err == 0 || err == -EIO)
        invariant !stop ==> !cntr.eof && err == 0 && !over && !spins
        invariant err == 0 && cntr.eof ==> cntr.Rest() == []
        invariant benign && !stop ==> goal == ScanBlocks(state, buf[0], cntr.Rest())
        invariant benign && stop ==>
                    goal == if err < 0 then Bad else if over then Undefined else if spins then Spinning
                            else if cntr.eof then Ended(state) else Stopped(state, cntr.Rest())
        decreases !stop, |cntr.Rest()|
      {
        err, stop, over := OneBlock(cntr, buf);
        if !stop && cntr.eof { stop, spins := true, true; }
      }
    }

    /** detect_container_version: the whole header has to be there and right. */
    method DetectVersion(cntr: Context, magic: seq<Byte>) returns (err: int)
      requires cntr.Valid() && !cntr.eof && |magic| == 4
      modifies cntr`pos, cntr`script, cntr`eof
      ensures cntr.Valid() && err <= 0 && (Benign(old(cntr.script)) ==> Benign(cntr.script))
      ensures err == 0 && cntr.eof ==> cntr.Rest() == []
      ensures Benign(old(cntr.script)) ==>
                var s := magic + old(cntr.Rest());
                if |s| < 26 then err == 0 && cntr.eof
                else if !HeaderOk(s[..26]) then err == -EIO
                else err == 0 && !cntr.eof && cntr.Rest() == s[26..]
    {
      var buf := new Byte[22](_ => 0);
      ghost var rest := cntr.Rest();
      err := cntr.RecursiveRead(buf, 0, 22);
      if err < 0 || cntr.eof { return; }
      assert buf[0..22] == rest[..22];
      assert (magic + rest)[..26] == magic + buf[0..22];
      if !HeaderOk(magic + buf[0..22]) { err := -EIO; }
    }

    /** voc_parser_pre_process: the result depends on the bytes of the file alone. */
    method PreProcess(cntr: Context, magic: seq<Byte>) returns (err: int, outcome: Outcome)
      requires cntr.Valid() && !cntr.eof && |magic| == 4 && state == INITIAL
      modifies this, cntr`pos, cntr`script, cntr`eof
      ensures cntr.Valid() && err <= 0
      ensures Benign(old(cntr.script)) ==> outcome == Parse(magic + old(cntr.Rest())).0
      ensures Benign(old(cntr.script)) && outcome.Parsed? ==> cntr.Rest() == Parse(magic + old(cntr.Rest())).1
    {
      outcome := Invalid;
      err := DetectVersion(cntr, magic);
      if err < 0 { return; }
      if !cntr.eof {
        var over, spins;
        err, over, spins := DetectBlocks(cntr);
        if err < 0 { return; }
        if over { return err, Overruns; }
        if spins { return err, Spins; }
      }
      var f := FormatOfCode(state.code);
      if !Supported(f) { return -EINVAL, Invalid; }
      outcome := Parsed(f, state.channels, state.rate, state.byteCount);
    }
  }

  /** Reading a file from the start, with the transfers cut in any way. */
  method ReadFile(bytes: seq<Byte>, script: seq<IoEvent>) returns (outcome: Outcome, unread: seq<Byte>)
    requires 4 <= |bytes| && Benign(script)
    ensures outcome == Parse(bytes).0
    ensures outcome.Parsed? ==> unread == Parse(bytes).1
  {
    var input := new Context(bytes, script);
    var buf := new Byte[4](_ => 0);
    assert input.Rest() == bytes;
    var err := input.RecursiveRead(buf, 0, 4);
    assert buf[0..4] == bytes[..4] && bytes == bytes[..4] + input.Rest();
    var parser := new Parser();
    err, outcome := parser.PreProcess(input, buf[0..4]);
    unread := input.Rest();
  }

  /** With such a limit of the builder the file parses back. */
  lemma SmallFileParsesBack(f: SampleFormat, channels: nat, rate: nat, p: Plan, byteCount: nat, limit: nat, tail: seq<Byte>)
    requires Supported(f) && 0 < channels <= 255 && 0 < rate < 0x1_0000_0000 && byteCount <= 0x7ffff0
    requires p == PlanFor(f, channels, rate) && (p.extended ==> rate <= 192000)
    requires limit < 0x100_0000 && byteCount + SizeExtra(p) < 0x100_0000
    requires byteCount <= (limit - SizeExtra(p)) % 0x1_0000_0000_0000_0000
    ensures Parse(Prologue(p, rate, FinalSize(p, byteCount, limit)) + tail) == (Parsed(f, channels, rate, byteCount), tail)
  {
    FileParsesBackIff(f, channels, rate, p, byteCount, limit, tail);
  }

  lemma LimitIsSmall(frameBytes: nat)
    requires 0 < frameBytes
    ensures BuilderLimit(frameBytes) < 0x100_0000
  {
  }

  /** What was written is read back, whatever the two files do to the single transfers. */
  method RoundTrip(f: SampleFormat, channels: nat, rate: nat, frames: seq<Byte>,
                   writes: seq<IoEvent>, reading: seq<IoEvent>) returns (outcome: Outcome, unread: seq<Byte>)
    requires Supported(f) && Benign(writes) && Benign(reading)
    requires 0 < channels <= 255 && 0 < rate < 0x1_0000_0000 && |frames| <= 0x7ffff0
    requires PlanFor(f, channels, rate).extended ==> rate <= 192000
    ensures outcome == Parsed(f, channels, rate, |frames|) && unread == frames + [TERMINATOR]
  {
    var frameBytes := f.SampleBytes() * channels;
    var limit := BuilderLimit(frameBytes);
    var bytes;
    ghost var p;
    bytes, p := WriteFile(f, channels, rate, frames, writes, 0xfffffe, limit);
    SizesUpToHalfFit(p, frameBytes, |frames|);
    LimitIsSmall(frameBytes);
    SmallFileParsesBack(f, channels, rate, p, |frames|, limit, frames + [TERMINATOR]);
    outcome, unread := ReadFile(bytes, reading);
  }
}
