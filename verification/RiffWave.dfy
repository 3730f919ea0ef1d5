/** Reading and writing RIFF/WAVE headers in axfer. The parser is stated twice: as a function of
    the bytes of the file, and as the loops that pull these bytes out of a file descriptor. */
module RiffWave {
  import opened Arithmetic
  import opened Bytes
  import opened Container
  import opened Formats

  // "RIFF", "RIFX", "WAVE", "fmt ", "data"
  const RIFF_LE: seq<Byte> := [0x52, 0x49, 0x46, 0x46]
  const RIFF_BE: seq<Byte> := [0x52, 0x49, 0x46, 0x58]
  const FORM_WAVE: seq<Byte> := [0x57, 0x41, 0x56, 0x45]
  const FMT_ID: seq<Byte> := [0x66, 0x6d, 0x74, 0x20]
  const DATA_ID: seq<Byte> := [0x64, 0x61, 0x74, 0x61]

  const WAVE_FORMAT_PCM := 0x0001
  const WAVE_FORMAT_IEEE_FLOAT := 0x0003
  const WAVE_FORMAT_ALAW := 0x0006
  const WAVE_FORMAT_MULAW := 0x0007

  /** The table format_maps: which codes of the wave registry stand for which sample format. */
  const MAP_SIZE := 19

  function FormatMap(i: nat): (nat, SampleFormat)
    requires i < MAP_SIZE
  {
    match i
    case 0 => (WAVE_FORMAT_PCM, U8)
    case 1 => (WAVE_FORMAT_PCM, S16_LE)
    case 2 => (WAVE_FORMAT_PCM, S16_BE)
    case 3 => (WAVE_FORMAT_PCM, S24_LE)
    case 4 => (WAVE_FORMAT_PCM, S24_BE)
    case 5 => (WAVE_FORMAT_PCM, S32_LE)
    case 6 => (WAVE_FORMAT_PCM, S32_BE)
    case 7 => (WAVE_FORMAT_PCM, S24_3LE)
    case 8 => (WAVE_FORMAT_PCM, S24_3BE)
    case 9 => (WAVE_FORMAT_PCM, S20_3LE)
    case 10 => (WAVE_FORMAT_PCM, S20_3BE)
    case 11 => (WAVE_FORMAT_PCM, S18_3LE)
    case 12 => (WAVE_FORMAT_PCM, S18_3BE)
    case 13 => (WAVE_FORMAT_IEEE_FLOAT, FLOAT_LE)
    case 14 => (WAVE_FORMAT_IEEE_FLOAT, FLOAT_BE)
    case 15 => (WAVE_FORMAT_IEEE_FLOAT, FLOAT64_LE)
    case 16 => (WAVE_FORMAT_IEEE_FLOAT, FLOAT64_BE)
    case 17 => (WAVE_FORMAT_ALAW, A_LAW)
    case _ => (WAVE_FORMAT_MULAW, MU_LAW)
  }

  /** struct parser_state */
  datatype State = State(be: bool, format: nat, channels: nat, rate: nat, average: nat,
                         frameBytes: nat, bits: nat, byteCount: nat)

  const INITIAL := State(false, 0, 0, 0, 0, 0, 0, 0)

  datatype Outcome =
    | Parsed(sampleFormat: SampleFormat, channels: nat, rate: nat, byteCount: nat)
    | Invalid
    | DivisionByZero  // the C code divides by the channel count and by the rate unchecked

  // ----- the parser as a function of the bytes -----

  /** Where reading the header has got to: an error, the end of the file, or the first byte
      behind the header of the `data` subchunk, with `rest` still unread. */
  datatype Scan = Bad | Ended(state: State) | AtFrames(state: State, rest: seq<Byte>)

  function ParseFmt(st: State, f: seq<Byte>): (r: State)
    requires |f| == 16
  {
    st.(format := Value16(st.be, f[..2]), channels := Value16(st.be, f[2..4]),
        rate := Value32(st.be, f[4..8]), average := Value32(st.be, f[8..12]),
        frameBytes := Value16(st.be, f[12..14]), bits := Value16(st.be, f[14..16]))
  }

  predicate ConsistentRate(st: State) {
    st.average == st.frameBytes * st.rate % TWO32
  }

  /** What one turn of the loop over subchunks does. */
  datatype Turn = Done(scan: Scan) | Next(state: State, rest: seq<Byte>)

  /** Leaving out the first `size` bytes of what follows. */
  function Skip(st: State, body: seq<Byte>, size: nat): (t: Turn)
    ensures t.Next? ==> |t.rest| <= |body|
  {
    if |body| < size then Done(Ended(st)) else Next(st, body[size..])
  }

  function TurnFmt(st: State, body: seq<Byte>, size: nat): (t: Turn)
    ensures t.Next? ==> |t.rest| <= |body|
  {
    if size < 16 then Done(Bad)
    else if |body| < 16 then Done(Ended(st))
    else
      var st' := ParseFmt(st, body[..16]);
      if ConsistentRate(st') then Skip(st', body, size) else Done(Bad)
  }

  function TurnOf(st: State, id: seq<Byte>, size: nat, body: seq<Byte>): (t: Turn)
    ensures t.Next? ==> |t.rest| <= |body|
  {
    if id == FMT_ID then TurnFmt(st, body, size)
    else if id == DATA_ID then Done(AtFrames(st.(byteCount := size), body))
    else Skip(st, body, size)
  }

  function ScanSubchunks(st: State, s: seq<Byte>): (r: Scan)
    decreases |s|
  {
    if |s| < 8 then Ended(st)
    else
      match TurnOf(st, s[..4], Value32(st.be, s[4..8]), s[8..])
      case Done(scan) => scan
      case Next(st', rest) => ScanSubchunks(st', rest)
  }

  /** The chunk header, whose first four bytes were read before as the magic of the file. */
  function ScanHeader(magic: seq<Byte>, s: seq<Byte>): (r: Scan)
    requires |magic| == 4
  {
    if |s| < 4 then Ended(INITIAL)
    else if magic != RIFF_BE && magic != RIFF_LE then Bad
    else
      var st := INITIAL.(be := magic == RIFF_BE);
      if |s| < 8 then Ended(st)
      else if s[4..8] != FORM_WAVE then Bad
      else ScanSubchunks(st, s[8..])
  }

  predicate Matches(st: State, physWidth: nat, m: (nat, SampleFormat)) {
    && st.format == m.0
    && st.bits == m.1.Width()
    && physWidth == m.1.PhysicalWidth()
    && (st.be ==> m.1.BigEndian())
  }

  /** The first entry of the table, from `i` on, that fits. */
  function FirstMatch(st: State, physWidth: nat, i: nat): (r: nat)
    requires i <= MAP_SIZE
    ensures i <= r <= MAP_SIZE
    ensures r < MAP_SIZE ==> Matches(st, physWidth, FormatMap(r))
    ensures forall k :: i <= k < r ==> !Matches(st, physWidth, FormatMap(k))
    decreases MAP_SIZE - i
  {
    if i == MAP_SIZE || Matches(st, physWidth, FormatMap(i)) then i
    else FirstMatch(st, physWidth, i + 1)
  }

  function Conclude(st: State): (r: Outcome) {
    if st.channels == 0 || st.rate == 0 then DivisionByZero
    else
      var i := FirstMatch(st, 8 * st.average % TWO32 / st.channels / st.rate, 0);
      if i == MAP_SIZE then Invalid
      else Parsed(FormatMap(i).1, st.channels, st.rate, st.byteCount)
  }

  /** All of wave_parser_pre_process, with what is left unread. */
  function Parse(magic: seq<Byte>, s: seq<Byte>): (r: (Outcome, seq<Byte>))
    requires |magic| == 4
  {
    match ScanHeader(magic, s)
    case Bad => (Invalid, [])
    case Ended(st) => (Conclude(st), [])
    case AtFrames(st, rest) => (Conclude(st), rest)
  }

  // ----- the builder -----

  /** The search for a sample format in the table. */
  function FindFormat(f: SampleFormat, i: nat): (r: nat)
    requires i <= MAP_SIZE
    ensures i <= r <= MAP_SIZE && (r < MAP_SIZE ==> FormatMap(r).1 == f)
    ensures forall k :: i <= k < r ==> FormatMap(k).1 != f
    decreases MAP_SIZE - i
  {
    if i == MAP_SIZE || FormatMap(i).1 == f then i else FindFormat(f, i + 1)
  }

  /** The formats that a WAVE file can hold, and the code that stands for them in the header. */
  predicate Supported(f: SampleFormat) {
    f != S8
  }

  function WaveFormatOf(f: SampleFormat): nat
    requires Supported(f)
  {
    match f
    case FLOAT_LE | FLOAT_BE | FLOAT64_LE | FLOAT64_BE => WAVE_FORMAT_IEEE_FLOAT
    case A_LAW => WAVE_FORMAT_ALAW
    case MU_LAW => WAVE_FORMAT_MULAW
    case U8 | S16_LE | S16_BE | S24_LE | S24_BE | S32_LE | S32_BE
       | S24_3LE | S24_3BE | S20_3LE | S20_3BE | S18_3LE | S18_3BE => WAVE_FORMAT_PCM
  }

  lemma CodeOfEntry(k: nat)
    requires k < MAP_SIZE
    ensures Supported(FormatMap(k).1) && FormatMap(k).0 == WaveFormatOf(FormatMap(k).1)
  {
  }

  /** This is what the search in the table finds. */
  lemma SearchFindsCode(f: SampleFormat)
    ensures Supported(f) <==> FindFormat(f, 0) < MAP_SIZE
    ensures Supported(f) ==> FormatMap(FindFormat(f, 0)).0 == WaveFormatOf(f)
  {
    var r := FindFormat(f, 0);
    if Supported(f) {
      var k := Place(f);
      assert FormatMap(k).1 == f;
    }
    if r < MAP_SIZE { CodeOfEntry(r); }
  }

  /** The position of a format in the table. */
  ghost function Place(f: SampleFormat): (r: nat)
    requires Supported(f)
    ensures r < MAP_SIZE && FormatMap(r).1 == f
  {
    match f
    case U8 => 0
    case S16_LE => 1
    case S16_BE => 2
    case S24_LE => 3
    case S24_BE => 4
    case S32_LE => 5
    case S32_BE => 6
    case S24_3LE => 7
    case S24_3BE => 8
    case S20_3LE => 9
    case S20_3BE => 10
    case S18_3LE => 11
    case S18_3BE => 12
    case FLOAT_LE => 13
    case FLOAT_BE => 14
    case FLOAT64_LE => 15
    case FLOAT64_BE => 16
    case A_LAW => 17
    case MU_LAW => 18
  }

  /** build_subchunk_header: the size field keeps the low 32 bits. */
  function Subchunk(be: bool, id: seq<Byte>, size: nat): (s: seq<Byte>)
    requires |id| == 4
    ensures |s| == 8 && s[..4] == id && s[4..8] == Bytes32(be, size)
  {
    id + Bytes32(be, size)
  }

  /** The six fields of a format subchunk, each cut to its width. */
  function FmtBytes(be: bool, format: nat, channels: nat, rate: nat, average: nat, frameBytes: nat, bits: nat): (s: seq<Byte>)
    ensures |s| == 16
  {
    Bytes16(be, format) + Bytes16(be, channels) + Bytes32(be, rate) + Bytes32(be, average) +
    Bytes16(be, frameBytes) + Bytes16(be, bits)
  }

  /** The products that build_wave_format_subchunk computes as `unsigned int`. */
  function FrameBytes(f: SampleFormat, channels: nat): nat {
    f.SampleBytes() * channels
  }

  function ByteRate(f: SampleFormat, channels: nat, rate: nat): nat {
    FrameBytes(f, channels) * rate
  }

  /** The fields that the builder writes for a format. */
  function FmtFields(be: bool, f: SampleFormat, channels: nat, rate: nat): (s: seq<Byte>)
    requires Supported(f)
    ensures |s| == 16
  {
    FmtBytes(be, WaveFormatOf(f), channels, rate, ByteRate(f, channels, rate) % TWO32,
             FrameBytes(f, channels) % TWO32, f.Width())
  }

  function RiffChunk(be: bool, riffSize: nat): (s: seq<Byte>)
    ensures |s| == 12
  {
    (if be then RIFF_BE else RIFF_LE) + Bytes32(be, riffSize) + FORM_WAVE
  }

  /** The 44 bytes that write_riff_chunk_for_wave writes. */
  function Header(f: SampleFormat, channels: nat, rate: nat, byteCount: nat, riffSize: nat): (s: seq<Byte>)
    requires Supported(f)
    ensures |s| == 44
  {
    var be := f.BigEndian();
    RiffChunk(be, riffSize) +
    Subchunk(be, FMT_ID, 16) + FmtFields(be, f, channels, rate) + Subchunk(be, DATA_ID, byteCount)
  }

  // ----- the header, byte by byte -----

  /** Four parts of a header, one behind the other. */
  lemma PartsOfHeader(a: seq<Byte>, b: seq<Byte>, c: seq<Byte>, d: seq<Byte>)
    requires |a| == 12 && |b| == 8 && |c| == 16 && |d| == 8
    ensures var h := a + b + c + d;
      && h[0..4] == a[0..4] && h[4..8] == a[4..8] && h[8..12] == a[8..12]
      && h[12..16] == b[0..4] && h[16..20] == b[4..8]
      && h[20..22] == c[0..2] && h[22..24] == c[2..4] && h[24..28] == c[4..8] && h[28..32] == c[8..12]
      && h[32..34] == c[12..14] && h[34..36] == c[14..16]
      && h[36..40] == d[0..4] && h[40..44] == d[4..8]
  {
  }

  lemma SixFields(a: seq<Byte>, b: seq<Byte>, c: seq<Byte>, d: seq<Byte>, e: seq<Byte>, g: seq<Byte>)
    requires |a| == |b| == |e| == |g| == 2 && |c| == |d| == 4
    ensures var f := a + b + c + d + e + g;
      && f[0..2] == a && f[2..4] == b && f[4..8] == c && f[8..12] == d && f[12..14] == e && f[14..16] == g
  {
  }

  lemma FmtFieldsAre(be: bool, f: SampleFormat, channels: nat, rate: nat)
    requires Supported(f)
    ensures var h := FmtFields(be, f, channels, rate);
      && Number(be, h[0..2]) == (if f in {FLOAT_LE, FLOAT_BE, FLOAT64_LE, FLOAT64_BE} then 3
                                 else if f == A_LAW then 6 else if f == MU_LAW then 7 else 1)
      && Number(be, h[2..4]) == channels % 0x1_0000
      && Number(be, h[4..8]) == rate % 0x1_0000_0000
      && Number(be, h[8..12]) == f.PhysicalWidth() / 8 * channels * rate % 0x1_0000_0000
      && Number(be, h[12..14]) == f.PhysicalWidth() / 8 * channels % 0x1_0000_0000 % 0x1_0000
      && Number(be, h[14..16]) == f.Width()
  {
    var average, frameBytes := ByteRate(f, channels, rate), FrameBytes(f, channels);
    FmtBytesAre(be, WaveFormatOf(f), channels, rate, average % TWO32, frameBytes % TWO32, f.Width());
    CodeAndWidth(f);
    Small(average % TWO32, TWO32);
    assert frameBytes == f.PhysicalWidth() / 8 * channels;
    assert average == f.PhysicalWidth() / 8 * channels * rate;
  }

  lemma CodeAndWidth(f: SampleFormat)
    requires Supported(f)
    ensures WaveFormatOf(f) % 0x1_0000 == (if f in {FLOAT_LE, FLOAT_BE, FLOAT64_LE, FLOAT64_BE} then 3
                                           else if f == A_LAW then 6 else if f == MU_LAW then 7 else 1)
    ensures f.Width() % 0x1_0000 == f.Width()
  {
  }

  lemma FmtBytesAre(be: bool, format: nat, channels: nat, rate: nat, average: nat, frameBytes: nat, bits: nat)
    ensures var h := FmtBytes(be, format, channels, rate, average, frameBytes, bits);
      && Number(be, h[0..2]) == format % 0x1_0000 && Number(be, h[2..4]) == channels % 0x1_0000
      && Number(be, h[4..8]) == rate % 0x1_0000_0000 && Number(be, h[8..12]) == average % 0x1_0000_0000
      && Number(be, h[12..14]) == frameBytes % 0x1_0000 && Number(be, h[14..16]) == bits % 0x1_0000
  {
    var a, b, c := Bytes16(be, format), Bytes16(be, channels), Bytes32(be, rate);
    var d, e, g := Bytes32(be, average), Bytes16(be, frameBytes), Bytes16(be, bits);
    SixFields(a, b, c, d, e, g);
    NumberOfBytes(be, format);
    NumberOfBytes(be, channels);
    NumberOfBytes(be, rate);
    NumberOfBytes(be, average);
    NumberOfBytes(be, frameBytes);
    NumberOfBytes(be, bits);
  }

  lemma HeaderStarts(be: bool, riffSize: nat)
    ensures var h := RiffChunk(be, riffSize);
      && h[0..4] == [0x52, 0x49, 0x46, if be then 0x58 else 0x46] && Number(be, h[4..8]) == riffSize % 0x1_0000_0000
      && h[8..12] == [0x57, 0x41, 0x56, 0x45]
  {
    NumberOfBytes(be, riffSize);
    assert RiffChunk(be, riffSize)[4..8] == Bytes32(be, riffSize);
  }

  /** The 44 bytes in front of the frames: which of them have fixed values, and the numbers in the others,
      in the byte order of the sample format. */
  lemma HeaderBytes(f: SampleFormat, channels: nat, rate: nat, byteCount: nat, riffSize: nat)
    requires Supported(f)
    ensures var h, be := Header(f, channels, rate, byteCount, riffSize), f.BigEndian();
      && h[0..4] == [0x52, 0x49, 0x46, if be then 0x58 else 0x46] && Number(be, h[4..8]) == riffSize % 0x1_0000_0000
      && h[8..12] == [0x57, 0x41, 0x56, 0x45] && h[12..16] == [0x66, 0x6d, 0x74, 0x20] && Number(be, h[16..20]) == 16
      && Number(be, h[20..22]) == (if f in {FLOAT_LE, FLOAT_BE, FLOAT64_LE, FLOAT64_BE} then 3
                                   else if f == A_LAW then 6 else if f == MU_LAW then 7 else 1)
      && Number(be, h[22..24]) == channels % 0x1_0000
      && Number(be, h[24..28]) == rate % 0x1_0000_0000
      && Number(be, h[28..32]) == f.PhysicalWidth() / 8 * channels * rate % 0x1_0000_0000
      && Number(be, h[32..34]) == f.PhysicalWidth() / 8 * channels % 0x1_0000_0000 % 0x1_0000
      && Number(be, h[34..36]) == f.Width()
      && h[36..40] == [0x64, 0x61, 0x74, 0x61] && Number(be, h[40..44]) == byteCount % 0x1_0000_0000
  {
    var be := f.BigEndian();
    PartsOfHeader(RiffChunk(be, riffSize), Subchunk(be, FMT_ID, 16), FmtFields(be, f, channels, rate), Subchunk(be, DATA_ID, byteCount));
    HeaderStarts(be, riffSize);
    FmtFieldsAre(be, f, channels, rate);
    NumberOfBytes(be, 16);
    NumberOfBytes(be, byteCount);
  }

  /** A file whose format fields contradict each other is refused: the third number must be the product of
      the second and the fourth one. */
  lemma BadRateIsInvalid(be: bool, riffSize: seq<Byte>, size: seq<Byte>, fields: seq<Byte>, rest: seq<Byte>)
    requires |riffSize| == |size| == 4 && |fields| == 16 && Number(be, size) >= 16
    requires Number(be, fields[8..12]) != Number(be, fields[12..14]) * Number(be, fields[4..8]) % 0x1_0000_0000
    ensures Parse([0x52, 0x49, 0x46, if be then 0x58 else 0x46],
                  riffSize + [0x57, 0x41, 0x56, 0x45] + ([0x66, 0x6d, 0x74, 0x20] + size + (fields + rest))).0 == Invalid
  {
    var magic, st := [0x52, 0x49, 0x46, if be then 0x58 else 0x46], INITIAL.(be := be);
    var body := fields + rest;
    var sub := [0x66, 0x6d, 0x74, 0x20] + size + body;
    var s := riffSize + [0x57, 0x41, 0x56, 0x45] + sub;
    assert s[4..8] == FORM_WAVE && s[8..] == sub;
    assert sub[..4] == FMT_ID && sub[4..8] == size && sub[8..] == body && body[..16] == fields;
    ValueIsNumber32(be, size);
    ValueIsNumber32(be, fields[4..8]);
    ValueIsNumber32(be, fields[8..12]);
    ValueIsNumber16(be, fields[12..14]);
    assert TurnOf(st, sub[..4], Value32(be, sub[4..8]), sub[8..]) == Done(Bad);
    assert magic[3] == RIFF_BE[3] <==> be;
    assert magic == if be then RIFF_BE else RIFF_LE;
  }

  // ----- round trip -----

  /** The search over wave format, width, physical width and byte order is unambiguous: what the
      builder derives from a format is matched by that entry and by no earlier one. */
  lemma SearchIsUnambiguous(st: State, f: SampleFormat)
    requires Supported(f) && st.format == WaveFormatOf(f) && st.bits == f.Width() && st.be == f.BigEndian()
    ensures FirstMatch(st, f.PhysicalWidth(), 0) == FindFormat(f, 0)
  {
    var i, r := FindFormat(f, 0), FirstMatch(st, f.PhysicalWidth(), 0);
    SearchFindsCode(f);
    assert Matches(st, f.PhysicalWidth(), FormatMap(i));
    assert r <= i;
    if r < i {
      assert FormatMap(r).1 != f;
      OnlyByteOrderDiffers(r, i);
      assert false;
    }
  }

  /** Two entries that agree in everything but the byte order: the little-endian one is first. */
  lemma OnlyByteOrderDiffers(r: nat, i: nat)
    requires r < i < MAP_SIZE && FormatMap(r).0 == FormatMap(i).0
    requires FormatMap(r).1.Width() == FormatMap(i).1.Width()
    requires FormatMap(r).1.PhysicalWidth() == FormatMap(i).1.PhysicalWidth()
    ensures !FormatMap(r).1.BigEndian() && FormatMap(i).1.BigEndian()
  {
  }

  /** What the fields of a header must satisfy: a frame fits 16 bits and eight times the byte
      rate fits 32 bits. */
  predicate Fits(f: SampleFormat, channels: nat, rate: nat) {
    && 0 < channels && 0 < rate
    && FrameBytes(f, channels) < TWO16
    && 8 * ByteRate(f, channels, rate) < TWO32
  }

  lemma DivCancel(k: nat, a: nat)
    requires 0 < a
    ensures k * a / a == k
  {
    var q, r := k * a / a, k * a % a;
    assert k * a == q * a + r;
    assert (k - q) * a == r;
    if k > q { MulGe(a, k - q); }
  }

  lemma MulSwap(a: nat, b: nat, c: nat)
    ensures a * b * c == a * c * b
  {
  }

  lemma MulGroup(a: nat, b: nat, c: nat)
    ensures a * (b * c) == (a * b) * c
  {
  }

  /** The physical width that the parser computes from the byte rate. */
  lemma WidthComesBack(f: SampleFormat, channels: nat, rate: nat)
    requires Fits(f, channels, rate)
    ensures channels < TWO16 && rate < TWO32
    ensures 8 * ByteRate(f, channels, rate) / channels / rate == f.PhysicalWidth()
  {
    var bytes, w := f.SampleBytes(), f.PhysicalWidth();
    assert bytes >= 1 && 8 * bytes == w;
    MulGe(channels, bytes);
    MulGe(rate, bytes * channels);
    MulSwap(bytes, channels, rate);
    MulGroup(8, bytes * rate, channels);
    MulGroup(8, bytes, rate);
    DivCancel(w * rate, channels);
    DivCancel(w, rate);
  }

  lemma FieldCuts(a: seq<Byte>, b: seq<Byte>, c: seq<Byte>, d: seq<Byte>, e: seq<Byte>, g: seq<Byte>)
    requires |a| == 2 && |b| == 2 && |c| == 4 && |d| == 4 && |e| == 2 && |g| == 2
    ensures var s := a + b + c + d + e + g;
            && |s| == 16 && s[..2] == a && s[2..4] == b && s[4..8] == c
            && s[8..12] == d && s[12..14] == e && s[14..16] == g
  {
  }

  /** Parsing what was written gives every field modulo its width. */
  lemma FieldsParse(st: State, format: nat, channels: nat, rate: nat, average: nat, frameBytes: nat, bits: nat)
    ensures ParseFmt(st, FmtBytes(st.be, format, channels, rate, average, frameBytes, bits))
         == st.(format := format % TWO16, channels := channels % TWO16, rate := rate % TWO32,
                average := average % TWO32, frameBytes := frameBytes % TWO16, bits := bits % TWO16)
  {
    var be := st.be;
    FieldCuts(Bytes16(be, format), Bytes16(be, channels), Bytes32(be, rate), Bytes32(be, average),
              Bytes16(be, frameBytes), Bytes16(be, bits));
    Value16OfBytes(be, format);
    Value16OfBytes(be, channels);
    Value32OfBytes(be, rate);
    Value32OfBytes(be, average);
    Value16OfBytes(be, frameBytes);
    Value16OfBytes(be, bits);
  }

  /** What the parser makes of a format subchunk written by the builder. */
  function Described(st: State, f: SampleFormat, channels: nat, rate: nat): State
    requires Supported(f)
  {
    st.(format := WaveFormatOf(f), channels := channels, rate := rate, average := ByteRate(f, channels, rate),
        frameBytes := FrameBytes(f, channels), bits := f.Width())
  }

  lemma FieldsComeBack(st: State, f: SampleFormat, channels: nat, rate: nat)
    requires Supported(f) && Fits(f, channels, rate)
    ensures ParseFmt(st, FmtFields(st.be, f, channels, rate)) == Described(st, f, channels, rate)
    ensures ConsistentRate(Described(st, f, channels, rate))
  {
    var average, frameBytes := ByteRate(f, channels, rate), FrameBytes(f, channels);
    WidthComesBack(f, channels, rate);
    FieldsParse(st, WaveFormatOf(f), channels, rate, average % TWO32, frameBytes % TWO32, f.Width());
    Small(average, TWO32);
    Small(frameBytes, TWO32);
    Small(frameBytes, TWO16);
    Small(channels, TWO16);
    Small(rate, TWO32);
    Small(WaveFormatOf(f), TWO16);
    Small(f.Width(), TWO16);
  }

  /** The parameters are found again from the fields. */
  lemma ConclusionIsRight(st: State, f: SampleFormat, channels: nat, rate: nat)
    requires Supported(f) && Fits(f, channels, rate) && st.be == f.BigEndian()
    ensures Conclude(Described(st, f, channels, rate)) == Parsed(f, channels, rate, st.byteCount)
  {
    WidthComesBack(f, channels, rate);
    Small(8 * ByteRate(f, channels, rate), TWO32);
    SearchIsUnambiguous(Described(st, f, channels, rate), f);
    SearchFindsCode(f);
  }

  /** A subchunk the parser does not know; its payload has exactly the length of its size field. */
  datatype Chunk = Chunk(id: seq<Byte>, payload: seq<Byte>)
  {
    predicate Unknown() {
      |id| == 4 && id != FMT_ID && id != DATA_ID && |payload| < TWO32
    }
  }

  function Chunks(be: bool, cs: seq<Chunk>): (s: seq<Byte>)
    requires forall c :: c in cs ==> c.Unknown()
  {
    if cs == [] then []
    else
      assert cs[0].Unknown();
      Subchunk(be, cs[0].id, |cs[0].payload|) + cs[0].payload + Chunks(be, cs[1..])
  }

  lemma SubchunkCut(be: bool, id: seq<Byte>, size: nat, body: seq<Byte>)
    requires |id| == 4
    ensures var s := Subchunk(be, id, size) + body;
            && |s| >= 8 && s[..4] == id && s[8..] == body
            && Value32(be, s[4..8]) == size % TWO32
  {
    Value32OfBytes(be, size);
    var s := Subchunk(be, id, size) + body;
    assert s[..4] == Subchunk(be, id, size)[..4];
    assert s[4..8] == Subchunk(be, id, size)[4..8];
  }

  lemma OneIsSkipped(st: State, c: Chunk, tail: seq<Byte>)
    requires c.Unknown()
    ensures ScanSubchunks(st, Subchunk(st.be, c.id, |c.payload|) + (c.payload + tail)) == ScanSubchunks(st, tail)
  {
    Cut(c.payload, tail);
    Small(|c.payload|, TWO32);
    ScanOne(st, c.id, |c.payload|, |c.payload|, c.payload + tail);
    assert TurnOf(st, c.id, |c.payload|, c.payload + tail) == Next(st, tail);
  }

  /** Unknown subchunks are skipped without a trace. */
  lemma {:induction false} UnknownChunksAreSkipped(st: State, cs: seq<Chunk>, s: seq<Byte>)
    requires forall c :: c in cs ==> c.Unknown()
    ensures ScanSubchunks(st, Chunks(st.be, cs) + s) == ScanSubchunks(st, s)
    decreases |cs|
  {
    if cs == [] {
      assert Chunks(st.be, cs) + s == s;
    } else {
      var c, tail := cs[0], Chunks(st.be, cs[1..]) + s;
      assert c.Unknown();
      assert Chunks(st.be, cs) + s == Subchunk(st.be, c.id, |c.payload|) + (c.payload + tail);
      OneIsSkipped(st, c, tail);
      UnknownChunksAreSkipped(st, cs[1..], s);
    }
  }

  /** One turn on a subchunk that is laid out in full. */
  lemma ScanOne(st: State, id: seq<Byte>, size: nat, value: nat, body: seq<Byte>)
    requires |id| == 4 && value == size % TWO32
    ensures ScanSubchunks(st, Subchunk(st.be, id, size) + body)
         == match TurnOf(st, id, value, body)
            case Done(scan) => scan
            case Next(st', rest) => ScanSubchunks(st', rest)
  {
    SubchunkCut(st.be, id, size, body);
  }

  /** A WAVE file with arbitrary unknown subchunks around the format subchunk and arbitrary
      extension bytes inside it. */
  function File(f: SampleFormat, channels: nat, rate: nat, byteCount: nat, riffSize: nat,
                before: seq<Chunk>, extension: seq<Byte>, between: seq<Chunk>, frames: seq<Byte>): (s: seq<Byte>)
    requires Supported(f)
    requires forall c :: c in before || c in between ==> c.Unknown()
    ensures |s| >= 12
  {
    RiffChunk(f.BigEndian(), riffSize)
    + Subchunks(f.BigEndian(), f, channels, rate, byteCount, before, extension, between, frames)
  }

  function Subchunks(be: bool, f: SampleFormat, channels: nat, rate: nat, byteCount: nat,
                     before: seq<Chunk>, extension: seq<Byte>, between: seq<Chunk>, frames: seq<Byte>): (s: seq<Byte>)
    requires Supported(f)
    requires forall c :: c in before || c in between ==> c.Unknown()
  {
    Chunks(be, before) + (Subchunk(be, FMT_ID, 16 + |extension|) +
    (FmtFields(be, f, channels, rate) + (extension + (Chunks(be, between) +
    (Subchunk(be, DATA_ID, byteCount) + frames)))))
  }

  lemma DataIsFound(st: State, byteCount: nat, frames: seq<Byte>)
    ensures ScanSubchunks(st, Subchunk(st.be, DATA_ID, byteCount) + frames)
         == AtFrames(st.(byteCount := byteCount % TWO32), frames)
  {
    ScanOne(st, DATA_ID, byteCount, byteCount % TWO32, frames);
  }

  lemma FmtIsParsed(st: State, f: SampleFormat, channels: nat, rate: nat, extension: seq<Byte>, s: seq<Byte>)
    requires Supported(f) && Fits(f, channels, rate) && 16 + |extension| < TWO32
    ensures ScanSubchunks(st, Subchunk(st.be, FMT_ID, 16 + |extension|) +
                              (FmtFields(st.be, f, channels, rate) + (extension + s)))
         == ScanSubchunks(Described(st, f, channels, rate), s)
  {
    FieldsComeBack(st, f, channels, rate);
    FieldsAreParsed(st, FmtFields(st.be, f, channels, rate), extension, s);
  }

  lemma FieldsAreParsed(st: State, fields: seq<Byte>, extension: seq<Byte>, s: seq<Byte>)
    requires |fields| == 16 && ConsistentRate(ParseFmt(st, fields)) && 16 + |extension| < TWO32
    ensures ScanSubchunks(st, Subchunk(st.be, FMT_ID, 16 + |extension|) + (fields + (extension + s)))
         == ScanSubchunks(ParseFmt(st, fields), s)
  {
    Small(16 + |extension|, TWO32);
    ScanOne(st, FMT_ID, 16 + |extension|, 16 + |extension|, fields + (extension + s));
    TurnOfFmt(st, fields, extension, s);
  }

  /** Behind its fields, the rest of a format subchunk is skipped. */
  lemma TurnOfFmt(st: State, fields: seq<Byte>, extension: seq<Byte>, s: seq<Byte>)
    requires |fields| == 16 && ConsistentRate(ParseFmt(st, fields))
    ensures TurnOf(st, FMT_ID, 16 + |extension|, fields + (extension + s)) == Next(ParseFmt(st, fields), s)
  {
    Cut(fields, extension + s);
    assert fields + (extension + s) == (fields + extension) + s;
    Cut(fields + extension, s);
  }

  lemma RiffChunkIsRead(be: bool, riffSize: nat, b: seq<Byte>)
    ensures var s := RiffChunk(be, riffSize) + b;
            ScanHeader(s[..4], s[4..]) == ScanSubchunks(INITIAL.(be := be), b)
  {
    var riff := RiffChunk(be, riffSize);
    var s := riff + b;
    assert s[..4] == riff[..4] == if be then RIFF_BE else RIFF_LE;
    assert s[4..][4..8] == riff[8..12] == FORM_WAVE;
    assert s[4..][8..] == b;
  }

  /** The scan of such a file stops in front of the first frame byte, with all fields read. */
  lemma FileIsScanned(f: SampleFormat, be: bool, channels: nat, rate: nat, byteCount: nat, before: seq<Chunk>,
                      extension: seq<Byte>, between: seq<Chunk>, frames: seq<Byte>, d: seq<Byte>)
    requires d == Subchunk(be, DATA_ID, byteCount) + frames
    requires Supported(f) && Fits(f, channels, rate) && 16 + |extension| < TWO32
    requires forall c :: c in before || c in between ==> c.Unknown()
    ensures ScanSubchunks(INITIAL.(be := be), Chunks(be, before) + (Subchunk(be, FMT_ID, 16 + |extension|) +
              (FmtFields(be, f, channels, rate) + (extension + (Chunks(be, between) + d)))))
         == AtFrames(Described(INITIAL.(be := be), f, channels, rate).(byteCount := byteCount % TWO32), frames)
  {
    var st := INITIAL.(be := be);
    UnknownChunksAreSkipped(st, before, Subchunk(be, FMT_ID, 16 + |extension|) +
                            (FmtFields(be, f, channels, rate) + (extension + (Chunks(be, between) + d))));
    FmtIsParsed(st, f, channels, rate, extension, Chunks(be, between) + d);
    var st' := Described(st, f, channels, rate);
    UnknownChunksAreSkipped(st', between, d);
    DataIsFound(st', byteCount, frames);
  }

  /** Main result: a file that was written for a format, a number of channels and a rate is
      parsed to exactly these, in both byte orders, whatever unknown subchunks and extension
      bytes it contains; the byte count comes back modulo its 32-bit field; and parsing stops
      exactly in front of the first frame byte. */
  lemma FileParsesBack(f: SampleFormat, channels: nat, rate: nat, byteCount: nat, riffSize: nat,
                       before: seq<Chunk>, extension: seq<Byte>, between: seq<Chunk>, frames: seq<Byte>)
    requires Supported(f) && Fits(f, channels, rate) && 16 + |extension| < TWO32
    requires forall c :: c in before || c in between ==> c.Unknown()
    ensures var s := File(f, channels, rate, byteCount, riffSize, before, extension, between, frames);
            Parse(s[..4], s[4..]) == (Parsed(f, channels, rate, byteCount % TWO32), frames)
  {
    var be := f.BigEndian();
    var count := byteCount % TWO32;
    var st := INITIAL.(be := be);
    RiffChunkIsRead(be, riffSize, Chunks(be, before) + (Subchunk(be, FMT_ID, 16 + |extension|) +
      (FmtFields(be, f, channels, rate) + (extension + (Chunks(be, between) + (Subchunk(be, DATA_ID, byteCount) + frames))))));
    FileIsScanned(f, be, channels, rate, byteCount, before, extension, between, frames,
                  Subchunk(be, DATA_ID, byteCount) + frames);
    ConclusionIsRight(st.(byteCount := count), f, channels, rate);
    assert Described(st, f, channels, rate).(byteCount := count) == Described(st.(byteCount := count), f, channels, rate);
  }

  /** The header of the builder is such a file without anything unknown in it. */
  lemma HeaderIsFile(f: SampleFormat, channels: nat, rate: nat, byteCount: nat, riffSize: nat, frames: seq<Byte>)
    requires Supported(f)
    ensures Header(f, channels, rate, byteCount, riffSize) + frames
         == File(f, channels, rate, byteCount, riffSize, [], [], [], frames)
  {
    var be := f.BigEndian();
    assert Chunks(be, []) == [];
  }

  // ----- files that end too early -----

  /** Something that is laid out before `tail`, cut off after `m` bytes. */
  lemma CutOff(a: seq<Byte>, tail: seq<Byte>, m: nat)
    requires m <= |a + tail|
    ensures (a + tail)[..m] == if m <= |a| then a[..m] else a + tail[..m - |a|]
  {
  }

  /** One subchunk with all that follows, cut off. */
  lemma OneOrEnds(st: State, id: seq<Byte>, size: nat, body: seq<Byte>, m: nat)
    requires |id| == 4 && size < TWO32 && m <= 8 + |body|
    ensures m < 8 ==> ScanSubchunks(st, (Subchunk(st.be, id, size) + body)[..m]) == Ended(st)
    ensures 8 <= m ==> ScanSubchunks(st, (Subchunk(st.be, id, size) + body)[..m]) ==
                       match TurnOf(st, id, size, body[..m - 8])
                       case Done(scan) => scan
                       case Next(st', rest) => ScanSubchunks(st', rest)
  {
    var head := Subchunk(st.be, id, size);
    CutOff(head, body, m);
    if 8 <= m {
      assert head[..8] == head;
      Small(size, TWO32);
      ScanOne(st, id, size, size, body[..m - 8]);
    }
  }

  lemma SkipOrEnds(st: State, payload: seq<Byte>, tail: seq<Byte>, k: nat)
    requires k <= |payload + tail|
    ensures Skip(st, (payload + tail)[..k], |payload|) ==
            if k < |payload| then Done(Ended(st)) else Next(st, tail[..k - |payload|])
  {
    CutOff(payload, tail, k);
    if |payload| <= k { Cut(payload, tail[..k - |payload|]); }
  }

  lemma SkippedOrEnds(st: State, c: Chunk, tail: seq<Byte>, m: nat)
    requires c.Unknown() && m <= 8 + |c.payload| + |tail|
    ensures ScanSubchunks(st, (Subchunk(st.be, c.id, |c.payload|) + (c.payload + tail))[..m]) ==
            if m < 8 + |c.payload| then Ended(st) else ScanSubchunks(st, tail[..m - 8 - |c.payload|])
  {
    OneOrEnds(st, c.id, |c.payload|, c.payload + tail, m);
    if 8 <= m { SkipOrEnds(st, c.payload, tail, m - 8); }
  }

  lemma FourParts(a: seq<Byte>, b: seq<Byte>, c: seq<Byte>, d: seq<Byte>)
    ensures (a + b + c) + d == a + (b + (c + d))
  {
  }

  lemma ChunksSplit(be: bool, cs: seq<Chunk>, tail: seq<Byte>)
    requires cs != [] && forall c :: c in cs ==> c.Unknown()
    ensures cs[0].Unknown() && forall c :: c in cs[1..] ==> c.Unknown()
    ensures Chunks(be, cs) + tail
         == Subchunk(be, cs[0].id, |cs[0].payload|) + (cs[0].payload + (Chunks(be, cs[1..]) + tail))
    ensures |Chunks(be, cs)| == 8 + |cs[0].payload| + |Chunks(be, cs[1..])|
  {
    assert cs[0].Unknown();
    FourParts(Subchunk(be, cs[0].id, |cs[0].payload|), cs[0].payload, Chunks(be, cs[1..]), tail);
  }

  /** The scan ends inside of `more`, or skips it. */
  predicate EndsOrSkips(st: State, s: seq<Byte>, n: nat, tail: seq<Byte>, m: nat)
    requires n + |tail| == |s|
  {
    m <= |s| && ScanSubchunks(st, s[..m]) == if m < n then Ended(st) else ScanSubchunks(st, tail[..m - n])
  }

  lemma ChunkThenMore(st: State, c: Chunk, more: seq<Byte>, n: nat, tail: seq<Byte>, m: nat)
    requires c.Unknown() && n + |tail| == |more| && m <= 8 + |c.payload| + |more|
    requires m >= 8 + |c.payload| ==> EndsOrSkips(st, more, n, tail, m - 8 - |c.payload|)
    ensures EndsOrSkips(st, Subchunk(st.be, c.id, |c.payload|) + (c.payload + more), 8 + |c.payload| + n, tail, m)
  {
    SkippedOrEnds(st, c, more, m);
  }

  lemma {:induction false} ChunksOrEnds(st: State, cs: seq<Chunk>, n: nat, tail: seq<Byte>, m: nat)
    requires (forall c :: c in cs ==> c.Unknown()) && n == |Chunks(st.be, cs)| && m <= n + |tail|
    ensures EndsOrSkips(st, Chunks(st.be, cs) + tail, n, tail, m)
    decreases |cs|
  {
    if cs == [] {
      assert Chunks(st.be, cs) + tail == tail;
      SkipsNothing(st, tail, m);
    } else {
      ChunksSplit(st.be, cs, tail);
      var c, more, k := cs[0], Chunks(st.be, cs[1..]) + tail, 8 + |cs[0].payload|;
      if m >= k { ChunksOrEnds(st, cs[1..], n - k, tail, m - k); }
      ChunkThenMore(st, c, more, n - k, tail, m);
    }
  }

  lemma SkipsNothing(st: State, tail: seq<Byte>, m: nat)
    requires m <= |tail|
    ensures EndsOrSkips(st, tail, 0, tail, m)
  {
  }

  /** The turn on a format subchunk that is cut off `k` bytes behind its header. */
  lemma FmtTurn(st: State, fields: seq<Byte>, extension: seq<Byte>, tail: seq<Byte>, k: nat)
    requires |fields| == 16 && ConsistentRate(ParseFmt(st, fields)) && k <= 16 + |extension| + |tail|
    ensures TurnOf(st, FMT_ID, 16 + |extension|, ((fields + extension) + tail)[..k]) ==
            if k < 16 then Done(Ended(st))
            else if k < 16 + |extension| then Done(Ended(ParseFmt(st, fields)))
            else Next(ParseFmt(st, fields), tail[..k - 16 - |extension|])
  {
    if 16 <= k {
      assert ((fields + extension) + tail)[..k][..16] == fields;
      SkipOrEnds(ParseFmt(st, fields), fields + extension, tail, k);
    }
  }

  lemma FmtOrEnds(st: State, fields: seq<Byte>, extension: seq<Byte>, tail: seq<Byte>, m: nat)
    requires |fields| == 16 && ConsistentRate(ParseFmt(st, fields)) && 16 + |extension| < TWO32
    requires m <= 24 + |extension| + |tail|
    ensures ScanSubchunks(st, (Subchunk(st.be, FMT_ID, 16 + |extension|) + (fields + (extension + tail)))[..m]) ==
            if m < 24 then Ended(st)
            else if m < 24 + |extension| then Ended(ParseFmt(st, fields))
            else ScanSubchunks(ParseFmt(st, fields), tail[..m - 24 - |extension|])
  {
    assert fields + (extension + tail) == (fields + extension) + tail;
    OneOrEnds(st, FMT_ID, 16 + |extension|, (fields + extension) + tail, m);
    if 8 <= m { FmtTurn(st, fields, extension, tail, m - 8); }
  }

  lemma DataOrEnds(st: State, byteCount: nat, frames: seq<Byte>, m: nat)
    requires m <= 8 + |frames|
    ensures ScanSubchunks(st, (Subchunk(st.be, DATA_ID, byteCount) + frames)[..m]) ==
            if m < 8 then Ended(st) else AtFrames(st.(byteCount := byteCount % TWO32), frames[..m - 8])
  {
    var head := Subchunk(st.be, DATA_ID, byteCount);
    CutOff(head, frames, m);
    if 8 <= m {
      assert head[..8] + frames[..m - 8] == head + frames[..m - 8];
      DataIsFound(st, byteCount, frames[..m - 8]);
    }
  }

  /** Behind the fields of the format, however the rest is cut, the state has them. */
  lemma DescribedStays(st: State, between: seq<Chunk>, byteCount: nat, frames: seq<Byte>, m: nat)
    requires forall c :: c in between ==> c.Unknown()
    requires m <= |Chunks(st.be, between) + (Subchunk(st.be, DATA_ID, byteCount) + frames)|
    ensures var r := ScanSubchunks(st, (Chunks(st.be, between) + (Subchunk(st.be, DATA_ID, byteCount) + frames))[..m]);
      !r.Bad? && r.state.channels == st.channels && r.state.rate == st.rate
  {
    var data, n := Subchunk(st.be, DATA_ID, byteCount) + frames, |Chunks(st.be, between)|;
    ChunksOrEnds(st, between, n, data, m);
    if m >= n { DataOrEnds(st, byteCount, frames, m - n); }
  }

  /** The subchunks of a file, cut off anywhere: the state has channels and a rate if and only if the
      fields of the format are there. */
  lemma CutSubchunks(st: State, f: SampleFormat, channels: nat, rate: nat, byteCount: nat, before: seq<Chunk>,
                     extension: seq<Byte>, between: seq<Chunk>, frames: seq<Byte>, m: nat)
    requires Supported(f) && Fits(f, channels, rate) && 16 + |extension| < TWO32
    requires forall c :: c in before || c in between ==> c.Unknown()
    requires m <= |Subchunks(st.be, f, channels, rate, byteCount, before, extension, between, frames)|
    ensures var r := ScanSubchunks(st, Subchunks(st.be, f, channels, rate, byteCount, before, extension, between, frames)[..m]);
      && !r.Bad?
      && if m < |Chunks(st.be, before)| + 24 then r.state == st else r.state.channels == channels && r.state.rate == rate
  {
    var tail := Chunks(st.be, between) + (Subchunk(st.be, DATA_ID, byteCount) + frames);
    var fields := FmtFields(st.be, f, channels, rate);
    var fmt, n := Subchunk(st.be, FMT_ID, 16 + |extension|) + (fields + (extension + tail)), |Chunks(st.be, before)|;
    ChunksOrEnds(st, before, n, fmt, m);
    FieldsComeBack(st, f, channels, rate);
    if m >= n { CutFmt(st, fields, extension, between, byteCount, frames, m - n); }
  }

  lemma CutFmt(st: State, fields: seq<Byte>, extension: seq<Byte>, between: seq<Chunk>, byteCount: nat,
               frames: seq<Byte>, m: nat)
    requires |fields| == 16 && ConsistentRate(ParseFmt(st, fields)) && 16 + |extension| < TWO32
    requires forall c :: c in between ==> c.Unknown()
    requires m <= 24 + |extension| + |Chunks(st.be, between) + (Subchunk(st.be, DATA_ID, byteCount) + frames)|
    ensures var tail, st' := Chunks(st.be, between) + (Subchunk(st.be, DATA_ID, byteCount) + frames), ParseFmt(st, fields);
      var r := ScanSubchunks(st, (Subchunk(st.be, FMT_ID, 16 + |extension|) + (fields + (extension + tail)))[..m]);
      && !r.Bad?
      && if m < 24 then r.state == st else r.state.channels == st'.channels && r.state.rate == st'.rate
  {
    var tail := Chunks(st.be, between) + (Subchunk(st.be, DATA_ID, byteCount) + frames);
    FmtOrEnds(st, fields, extension, tail, m);
    if m >= 24 + |extension| {
      DescribedStays(ParseFmt(st, fields), between, byteCount, frames, m - 24 - |extension|);
    }
  }

  /** A file that is laid out like those of the builder and cut off anywhere behind its magic makes the
      parser divide by zero, if and only if it ends in front of the end of the format fields. */
  lemma TruncatedDividesIff(f: SampleFormat, channels: nat, rate: nat, byteCount: nat, riffSize: nat,
                            before: seq<Chunk>, extension: seq<Byte>, between: seq<Chunk>, frames: seq<Byte>, cut: nat)
    requires Supported(f) && Fits(f, channels, rate) && 16 + |extension| < TWO32
    requires forall c :: c in before || c in between ==> c.Unknown()
    requires 4 <= cut <= |File(f, channels, rate, byteCount, riffSize, before, extension, between, frames)|
    ensures var s := File(f, channels, rate, byteCount, riffSize, before, extension, between, frames)[..cut];
      Parse(s[..4], s[4..]).0 == DivisionByZero <==> cut < 12 + |Chunks(f.BigEndian(), before)| + 24
  {
    var be := f.BigEndian();
    var sub := Subchunks(be, f, channels, rate, byteCount, before, extension, between, frames);
    CutOff(RiffChunk(be, riffSize), sub, cut);
    if cut < 12 {
      CutRiffChunk(be, riffSize, cut);
    } else {
      var st := INITIAL.(be := be);
      CutSubchunks(st, f, channels, rate, byteCount, before, extension, between, frames, cut - 12);
      assert st.be == be && Subchunks(st.be, f, channels, rate, byteCount, before, extension, between, frames) == sub;
      CutFile(be, riffSize, sub, |Chunks(be, before)| + 24, channels, rate, cut);
    }
  }

  lemma CutFile(be: bool, riffSize: nat, sub: seq<Byte>, n: nat, channels: nat, rate: nat, cut: nat)
    requires 12 <= cut <= 12 + |sub| && 0 < channels && 0 < rate
    requires var r := ScanSubchunks(INITIAL.(be := be), sub[..cut - 12]);
      && !r.Bad?
      && if cut - 12 < n then r.state == INITIAL.(be := be) else r.state.channels == channels && r.state.rate == rate
    ensures var s := (RiffChunk(be, riffSize) + sub)[..cut];
      Parse(s[..4], s[4..]).0 == DivisionByZero <==> cut < 12 + n
  {
    var riff := RiffChunk(be, riffSize);
    CutOff(riff, sub, cut);
    assert riff[..12] == riff;
    RiffChunkIsRead(be, riffSize, sub[..cut - 12]);
    DividesIff(riff + sub[..cut - 12], INITIAL.(be := be), sub[..cut - 12]);
  }

  lemma CutRiffChunk(be: bool, riffSize: nat, cut: nat)
    requires 4 <= cut < 12
    ensures var s := RiffChunk(be, riffSize)[..cut]; Parse(s[..4], s[4..]).0 == DivisionByZero
  {
    var s := RiffChunk(be, riffSize)[..cut];
    assert s[..4] == RiffChunk(be, riffSize)[..4] == if be then RIFF_BE else RIFF_LE;
  }

  lemma DividesIff(s: seq<Byte>, st: State, sub: seq<Byte>)
    requires |s| >= 4 && ScanHeader(s[..4], s[4..]) == ScanSubchunks(st, sub) && !ScanSubchunks(st, sub).Bad?
    ensures var r := ScanSubchunks(st, sub).state;
      Parse(s[..4], s[4..]).0 == DivisionByZero <==> r.channels == 0 || r.rate == 0
  {
  }

  /** So a file of the builder that has less than 36 of its bytes does. */
  lemma TruncatedHeaderDividesIff(f: SampleFormat, channels: nat, rate: nat, byteCount: nat, riffSize: nat,
                                  frames: seq<Byte>, cut: nat)
    requires Supported(f) && Fits(f, channels, rate) && 4 <= cut <= 44 + |frames|
    ensures var s := (Header(f, channels, rate, byteCount, riffSize) + frames)[..cut];
      Parse(s[..4], s[4..]).0 == DivisionByZero <==> cut < 36
  {
    HeaderIsFile(f, channels, rate, byteCount, riffSize, frames);
    assert Chunks(f.BigEndian(), []) == [];
    TruncatedDividesIff(f, channels, rate, byteCount, riffSize, [], [], [], frames, cut);
  }

  // ----- padding -----

  /** A subchunk as the RIFF rules lay it out: a payload of odd length is followed by a pad byte
      that its size field does not count. */
  function Padded(be: bool, c: Chunk): (s: seq<Byte>)
    requires c.Unknown()
  {
    Subchunk(be, c.id, |c.payload|) + c.payload + if |c.payload| % 2 == 0 then [] else [0]
  }

  /** The parser does not know about pad bytes: an unknown subchunk in front of `data` is passed
      over correctly exactly when its payload has even length. */
  lemma PaddingIsUnderstoodIffEven(st: State, c: Chunk, frames: seq<Byte>)
    requires c.Unknown()
    ensures ScanSubchunks(st, Padded(st.be, c) + (Subchunk(st.be, DATA_ID, |frames|) + frames))
         == AtFrames(st.(byteCount := |frames| % TWO32), frames)
       <==> |c.payload| % 2 == 0
  {
    var data := Subchunk(st.be, DATA_ID, |frames|) + frames;
    PaddedThenSkipped(st, c, data);
    if |c.payload| % 2 == 0 {
      assert [] + data == data;
      DataIsFound(st, |frames|, frames);
    } else {
      OutOfStep(st, |frames|, frames);
    }
  }

  lemma PaddedThenSkipped(st: State, c: Chunk, data: seq<Byte>)
    requires c.Unknown()
    ensures ScanSubchunks(st, Padded(st.be, c) + data)
         == ScanSubchunks(st, (if |c.payload| % 2 == 0 then [] else [0]) + data)
  {
    var pad: seq<Byte> := if |c.payload| % 2 == 0 then [] else [0];
    assert [c][1..] == [] && Chunks(st.be, []) == [];
    assert Padded(st.be, c) + data == Chunks(st.be, [c]) + (pad + data);
    UnknownChunksAreSkipped(st, [c], pad + data);
  }

  /** Frames are found behind at least one header. */
  lemma {:induction false} FramesAreBehindHeader(st: State, s: seq<Byte>)
    ensures var r := ScanSubchunks(st, s); r.AtFrames? ==> |r.rest| + 8 <= |s|
    decreases |s|
  {
    if 8 <= |s| {
      var t := TurnOf(st, s[..4], Value32(st.be, s[4..8]), s[8..]);
      if t.Next? { FramesAreBehindHeader(t.state, t.rest); }
    }
  }

  /** One byte out of step, the header of `data` reads as an unknown subchunk of at least 0x61
      bytes. If the file goes on behind these, and whatever is found there, it is not `frames`:
      what is left is too short. */
  lemma OutOfStep(st: State, n: nat, frames: seq<Byte>)
    requires n == |frames|
    ensures var r := ScanSubchunks(st, [0] + (Subchunk(st.be, DATA_ID, n) + frames));
            r.AtFrames? ==> |r.rest| < |frames|
  {
    var s := [0] + (Subchunk(st.be, DATA_ID, n) + frames);
    var size := Bytes32(st.be, n);
    var v := Value32(st.be, s[4..8]);
    assert s == [0, 0x64, 0x61, 0x74, 0x61] + size + frames;
    assert s[..4] == [0, 0x64, 0x61, 0x74];
    assert s[4..8] == [0x61, size[0], size[1], size[2]];
    assert |s[8..]| == 1 + n;
    FirstByteCounts(st.be, s[4..8]);
    var t := TurnOf(st, s[..4], v, s[8..]);
    assert t == Skip(st, s[8..], v);
    if t.Next? {
      assert |t.rest| == 1 + n - v;
      FramesAreBehindHeader(t.state, t.rest);
    }
  }

  lemma FirstByteCounts(be: bool, b: seq<Byte>)
    requires |b| == 4
    ensures Value32(be, b) >= b[0]
  {
  }

  // ----- the code: pulling the header out of a file -----

  class Parser {
    var state: State

    constructor ()
      ensures state == INITIAL
    {
      state := INITIAL;
    }

    /** Skips `size` bytes in pieces that fit the local buffer. */
    method SkipData(cntr: Context, buf: array<Byte>, size: nat) returns (err: int)
      requires cntr.Valid() && 0 < buf.Length && !cntr.eof
      modifies cntr`pos, cntr`script, cntr`eof, buf
      ensures cntr.Valid() && err <= 0 && (Benign(old(cntr.script)) ==> err == 0 && Benign(cntr.script))
      ensures err == 0 && size <= |old(cntr.Rest())| ==>
                cntr.Rest() == old(cntr.Rest())[size..] && cntr.eof == old(cntr.eof)
      ensures err == 0 && size > |old(cntr.Rest())| ==> cntr.eof && cntr.Rest() == []
    {
      var left := size;
      err := 0;
      ghost var rest := cntr.Rest();
      while left > 0
        invariant cntr.Valid() && 0 <= left <= size && size - left <= |rest| && err == 0
        invariant cntr.Rest() == rest[size - left..] && cntr.eof == old(cntr.eof)
        invariant Benign(old(cntr.script)) ==> Benign(cntr.script)
      {
        var consume := if left > buf.Length then buf.Length else left;
        err := cntr.RecursiveRead(buf, 0, consume);
        if err < 0 { return; }
        if cntr.eof { return; }
        left := left - consume;
      }
    }

    /** One turn of the loop in parse_wave_subchunk. */
    method ParseOne(cntr: Context, buf: array<Byte>) returns (err: int, found: bool)
      requires cntr.Valid() && !cntr.eof && buf.Length == 24
      modifies this, cntr`pos, cntr`script, cntr`eof, buf
      ensures cntr.Valid() && err <= 0
      ensures Benign(old(cntr.script)) ==> Benign(cntr.script)
      ensures Benign(old(cntr.script)) ==>
                var s := old(cntr.Rest());
                if |s| < 8 then err == 0 && cntr.eof && cntr.Rest() == [] && state == old(state)
                else match TurnOf(old(state), s[..4], Value32(old(state.be), s[4..8]), s[8..])
                  case Done(Bad) => err == -EINVAL
                  case Done(Ended(st)) => err == 0 && cntr.eof && cntr.Rest() == [] && state == st
                  case Done(AtFrames(st, rest)) =>
                    err == 0 && !cntr.eof && found && state == st && cntr.Rest() == rest
                  case Next(st, rest) =>
                    err == 0 && !cntr.eof && !found && state == st && cntr.Rest() == rest
      ensures err == 0 && !cntr.eof && !found ==> |cntr.Rest()| < |old(cntr.Rest())|
    {
      found := false;
      ghost var s := cntr.Rest();
      err := cntr.RecursiveRead(buf, 0, 8);
      if err < 0 || cntr.eof { return; }
      var id, size := buf[..4], Value32(state.be, buf[4..8]);
      assert buf[0..8] == s[..8];
      assert id == s[..4] && buf[4..8] == s[4..8];
      if id == DATA_ID {
        state := state.(byteCount := size);
        found := true;
        return;
      }
      if id == FMT_ID {
        if size < 16 { err := -EINVAL; return; }
        err := cntr.RecursiveRead(buf, 8, 16);
        if err < 0 || cntr.eof { return; }
        assert buf[8..24] == s[8..][..16];
        state := ParseFmt(state, buf[8..24]);
        if !ConsistentRate(state) { err := -EINVAL; return; }
        size := size - 16;
      }
      err := SkipData(cntr, buf, size);
    }

    /** parse_wave_subchunk: however the reads are cut into pieces, the result is that of the
        function on the unread bytes. */
    method ParseSubchunks(cntr: Context) returns (err: int)
      requires cntr.Valid() && (cntr.eof ==> cntr.Rest() == [])
      modifies this, cntr`pos, cntr`script, cntr`eof
      ensures cntr.Valid() && err <= 0
      ensures Benign(old(cntr.script)) ==>
                match ScanSubchunks(old(state), old(cntr.Rest()))
                case Bad => err == -EINVAL
                case Ended(st) => err == 0 && cntr.eof && cntr.Rest() == [] && state == st
                case AtFrames(st, rest) => err == 0 && !cntr.eof && state == st && cntr.Rest() == rest
    {
      var buf := new Byte[24](_ => 0);
      ghost var benign, goal := Benign(cntr.script), ScanSubchunks(state, cntr.Rest());
      err := 0;
      if cntr.eof { return; }
      var found := false;
      while !found
        invariant fresh(buf) && buf.Length == 24 && cntr.Valid() && err == 0 && !cntr.eof
        invariant benign ==> Benign(cntr.script)
        invariant benign && !found ==> ScanSubchunks(state, cntr.Rest()) == goal
        invariant benign && found ==> goal == AtFrames(state, cntr.Rest())
        decreases !found, |cntr.Rest()|
      {
        err, found := ParseOne(cntr, buf);
        if err < 0 || cntr.eof { return; }
      }
    }

    /** parse_riff_chunk; the first four bytes were read before. */
    method ParseRiffChunk(cntr: Context, magic: seq<Byte>) returns (err: int)
      requires cntr.Valid() && !cntr.eof && |magic| == 4 && state == INITIAL
      modifies this, cntr`pos, cntr`script, cntr`eof
      ensures cntr.Valid() && err <= 0 && (err == 0 && cntr.eof ==> cntr.Rest() == [])
      ensures Benign(old(cntr.script)) ==> Benign(cntr.script)
      ensures Benign(old(cntr.script)) ==>
                var s := old(cntr.Rest());
                if |s| < 4 then err == 0 && cntr.eof && state == INITIAL && cntr.Rest() == []
                else if magic != RIFF_BE && magic != RIFF_LE then err == -EINVAL
                else if |s| < 8 then
                  err == 0 && cntr.eof && cntr.Rest() == [] && state == INITIAL.(be := magic == RIFF_BE)
                else if s[4..8] != FORM_WAVE then err == -EINVAL
                else err == 0 && !cntr.eof && cntr.Rest() == s[8..] && state == INITIAL.(be := magic == RIFF_BE)
    {
      var buf := new Byte[8](_ => 0);
      ghost var s := cntr.Rest();
      err := cntr.RecursiveRead(buf, 4, 4);
      if err < 0 || cntr.eof { return; }
      if magic == RIFF_BE {
        state := state.(be := true);
      } else if magic == RIFF_LE {
        state := state.(be := false);
      } else {
        err := -EINVAL;
        return;
      }
      err := cntr.RecursiveRead(buf, 0, 4);
      if err < 0 || cntr.eof { return; }
      assert buf[0..4] == s[4..][..4] == s[4..8];
      if buf[0..4] != FORM_WAVE { err := -EINVAL; }
    }

    /** wave_parser_pre_process. The result does not depend on how the input was cut into short
        reads and EAGAINs. */
    method PreProcess(cntr: Context, magic: seq<Byte>) returns (err: int, outcome: Outcome)
      requires cntr.Valid() && !cntr.eof && |magic| == 4 && state == INITIAL
      modifies this, cntr`pos, cntr`script, cntr`eof
      ensures cntr.Valid() && err <= 0
      ensures Benign(old(cntr.script)) ==> outcome == Parse(magic, old(cntr.Rest())).0
      ensures Benign(old(cntr.script)) ==> (err == -EINVAL <==> outcome == Invalid)
      ensures Benign(old(cntr.script)) && outcome.Parsed? ==>
                err == 0 && cntr.Rest() == Parse(magic, old(cntr.Rest())).1
    {
      outcome := Invalid;
      ghost var s := cntr.Rest();
      err := ParseRiffChunk(cntr, magic);
      if err < 0 { return; }
      err := ParseSubchunks(cntr);
      if err < 0 { return; }
      outcome := FindParameters();
      if outcome == Invalid { err := -EINVAL; }
    }

    /** The search for the sample format and the values that are handed out. */
    method FindParameters() returns (outcome: Outcome)
      ensures outcome == Conclude(state)
    {
      if state.channels == 0 || state.rate == 0 { return DivisionByZero; }
      var physWidth := 8 * state.average % TWO32 / state.channels / state.rate;
      var i := 0;
      while i < MAP_SIZE && !Matches(state, physWidth, FormatMap(i))
        invariant 0 <= i <= MAP_SIZE
        invariant FirstMatch(state, physWidth, 0) == FirstMatch(state, physWidth, i)
      {
        i := i + 1;
      }
      if i == MAP_SIZE { return Invalid; }
      outcome := Parsed(FormatMap(i).1, state.channels, state.rate, state.byteCount);
    }
  }

  // ----- the code: writing the header -----

  /** The RIFF size that the builder computes; the parser never looks at it. */
  function RiffSize(byteCount: nat, maxSize: nat): nat {
    var total := 4 + 24 + 8;
    total + if byteCount > (maxSize - total) % TWO64 then maxSize else (total + byteCount) % TWO64
  }

  lemma HeaderParts(f: SampleFormat, channels: nat, rate: nat, byteCount: nat, riffSize: nat,
                    riff: seq<Byte>, fmt: seq<Byte>, data: seq<Byte>)
    requires Supported(f)
    requires riff == (if f.BigEndian() then RIFF_BE else RIFF_LE) + Bytes32(f.BigEndian(), riffSize)
    requires fmt == Subchunk(f.BigEndian(), FMT_ID, 16) + FmtFields(f.BigEndian(), f, channels, rate)
    requires data == Subchunk(f.BigEndian(), DATA_ID, byteCount)
    ensures Header(f, channels, rate, byteCount, riffSize) == riff + FORM_WAVE + fmt + data
  {
  }

  /** Four structures, one after the other. */
  method WriteFour(cntr: Context, a: seq<Byte>, b: seq<Byte>, c: seq<Byte>, d: seq<Byte>) returns (err: int)
    requires cntr.Valid()
    modifies cntr`pos, cntr`script, cntr`bytes
    ensures cntr.Valid() && err <= 0 && (Benign(old(cntr.script)) ==> err == 0 && Benign(cntr.script))
    ensures err == 0 ==> cntr.bytes == Overwrite(old(cntr.bytes), old(cntr.pos), a + b + c + d)
    ensures err == 0 ==> cntr.pos == old(cntr.pos) + |a + b + c + d|
  {
    ghost var bytes, pos := cntr.bytes, cntr.pos;
    err := WriteTwo(cntr, a, b);
    if err < 0 { return; }
    err := WriteTwo(cntr, c, d);
    OverwriteTwice(bytes, pos, a + b, c + d);
    assert a + b + (c + d) == a + b + c + d;
  }

  method WriteTwo(cntr: Context, a: seq<Byte>, b: seq<Byte>) returns (err: int)
    requires cntr.Valid()
    modifies cntr`pos, cntr`script, cntr`bytes
    ensures cntr.Valid() && err <= 0 && (Benign(old(cntr.script)) ==> err == 0 && Benign(cntr.script))
    ensures err == 0 ==> cntr.bytes == Overwrite(old(cntr.bytes), old(cntr.pos), a + b)
    ensures err == 0 ==> cntr.pos == old(cntr.pos) + |a + b|
  {
    ghost var bytes, pos := cntr.bytes, cntr.pos;
    err := cntr.WriteBytes(a);
    if err < 0 { return; }
    err := cntr.WriteBytes(b);
    OverwriteTwice(bytes, pos, a, b);
  }

  class Builder {
    var sampleFormat: SampleFormat
    var be: bool
    var format: nat
    var bits: nat
    var sampleBytes: nat
    var channels: nat
    var rate: nat

    constructor () {
      sampleFormat, be, format, bits, sampleBytes, channels, rate := S8, false, 0, 0, 0, 0, 0;
    }

    /** The fields describe `sampleFormat`. */
    predicate Ready()
      reads this
    {
      && Supported(sampleFormat) && be == sampleFormat.BigEndian()
      && format == WaveFormatOf(sampleFormat) && bits == sampleFormat.Width()
      && sampleBytes == sampleFormat.SampleBytes()
    }

    /** build_wave_format_subchunk */
    function FormatSubchunk(): (fmt: seq<Byte>)
      requires Ready()
      reads this
      ensures fmt == Subchunk(sampleFormat.BigEndian(), FMT_ID, 16)
                   + FmtFields(sampleFormat.BigEndian(), sampleFormat, channels, rate)
    {
      var frameBytes := sampleBytes * channels % TWO32;
      var average := sampleBytes * channels * rate % TWO32;
      Subchunk(be, FMT_ID, 16) + FmtBytes(be, format, channels, rate, average, frameBytes, bits)
    }

    /** write_riff_chunk_for_wave: four structures in a row. */
    method WriteHeader(cntr: Context, byteCount: nat, maxSize: nat) returns (err: int)
      requires cntr.Valid() && Ready()
      modifies cntr`pos, cntr`script, cntr`bytes
      ensures cntr.Valid() && err <= 0 && (Benign(old(cntr.script)) ==> err == 0 && Benign(cntr.script))
      ensures err == 0 ==>
                var h := Header(sampleFormat, channels, rate, byteCount, RiffSize(byteCount, maxSize));
                cntr.bytes == Overwrite(old(cntr.bytes), old(cntr.pos), h) && cntr.pos == old(cntr.pos) + 44
    {
      var fmt := FormatSubchunk();
      var riffSize := RiffSize(byteCount, maxSize);
      var riff := (if be then RIFF_BE else RIFF_LE) + Bytes32(be, riffSize);
      var data := Subchunk(be, DATA_ID, byteCount);
      HeaderParts(sampleFormat, channels, rate, byteCount, riffSize, riff, fmt, data);
      err := WriteFour(cntr, riff, FORM_WAVE, fmt, data);
    }

    /** The search of wave_builder_pre_process in the table. */
    method FindCode(f: SampleFormat) returns (found: bool, code: nat)
      ensures found <==> Supported(f)
      ensures found ==> code == WaveFormatOf(f)
    {
      var i := 0;
      while i < MAP_SIZE && FormatMap(i).1 != f
        invariant 0 <= i <= MAP_SIZE && forall k :: 0 <= k < i ==> FormatMap(k).1 != f
      {
        i := i + 1;
      }
      ghost var place := if Supported(f) then Place(f) else 0;
      found, code := i < MAP_SIZE, 0;
      if found {
        CodeOfEntry(i);
        code := FormatMap(i).0;
      }
    }

    /** wave_builder_pre_process */
    method PreProcess(cntr: Context, f: SampleFormat, channels: nat, rate: nat, byteCount: nat, maxSize: nat)
        returns (err: int)
      requires cntr.Valid()
      modifies this, cntr`pos, cntr`script, cntr`bytes
      ensures cntr.Valid() && err <= 0
      ensures !Supported(f) ==> err == -EINVAL && cntr.bytes == old(cntr.bytes)
      ensures Supported(f) && Benign(old(cntr.script)) ==> err == 0 && Benign(cntr.script)
      ensures Supported(f) && err == 0 ==>
                && Ready() && sampleFormat == f && this.channels == channels && this.rate == rate
                && cntr.pos == old(cntr.pos) + 44
                && cntr.bytes == Overwrite(old(cntr.bytes), old(cntr.pos),
                                           Header(f, channels, rate, byteCount, RiffSize(byteCount, maxSize)))
    {
      var found, code := FindCode(f);
      if !found { return -EINVAL; }
      sampleFormat, format, bits := f, code, f.Width();
      sampleBytes, this.channels, this.rate := f.PhysicalWidth() / 8, channels, rate;
      be := f.BigEndian();
      err := WriteHeader(cntr, byteCount, maxSize);
    }

    /** wave_builder_post_process: the header is written again, now with the real count. */
    method PostProcess(cntr: Context, byteCount: nat, maxSize: nat) returns (err: int)
      requires cntr.Valid() && Ready()
      modifies cntr`pos, cntr`script, cntr`bytes
      ensures cntr.Valid() && err <= 0 && (Benign(old(cntr.script)) ==> err == 0 && Benign(cntr.script))
      ensures err == 0 ==>
                cntr.bytes == Overwrite(old(cntr.bytes), 0,
                  Header(sampleFormat, channels, rate, byteCount, RiffSize(byteCount, maxSize)))
    {
      cntr.Seek(0);
      err := WriteHeader(cntr, byteCount, maxSize);
    }
  }

  /** Writing a file from start to end, with the transfers cut in any way. */
  method WriteFile(f: SampleFormat, channels: nat, rate: nat, frames: seq<Byte>, script: seq<IoEvent>, maxSize: nat)
      returns (bytes: seq<Byte>)
    requires Supported(f) && Benign(script)
    ensures bytes == Header(f, channels, rate, |frames|, RiffSize(|frames|, maxSize)) + frames
  {
    var out := new Context([], script);
    var builder := new Builder();
    var err := builder.PreProcess(out, f, channels, rate, maxSize, maxSize);
    ghost var first := out.bytes;
    assert |first| == 44;
    err := out.WriteBytes(frames);
    assert out.bytes == first + frames;
    err := builder.PostProcess(out, |frames|, maxSize);
    bytes := out.bytes;
  }

  /** Reading a file from the start, with the transfers cut in any way. */
  method ReadFile(bytes: seq<Byte>, script: seq<IoEvent>) returns (outcome: Outcome, unread: seq<Byte>)
    requires 4 <= |bytes| && Benign(script)
    ensures outcome == Parse(bytes[..4], bytes[4..]).0
    ensures outcome.Parsed? ==> unread == Parse(bytes[..4], bytes[4..]).1
  {
    var input := new Context(bytes, script);
    var buf := new Byte[4](_ => 0);
    assert input.Rest() == bytes;
    var err := input.RecursiveRead(buf, 0, 4);
    assert buf[0..4] == bytes[..4] && input.Rest() == bytes[4..];
    var parser := new Parser();
    err, outcome := parser.PreProcess(input, buf[0..4]);
    unread := input.Rest();
  }

  /** What was written is read back, whatever the two files do to the single transfers. */
  method RoundTrip(f: SampleFormat, channels: nat, rate: nat, frames: seq<Byte>,
                   writes: seq<IoEvent>, reading: seq<IoEvent>, maxSize: nat)
      returns (outcome: Outcome, unread: seq<Byte>)
    requires Supported(f) && Fits(f, channels, rate) && Benign(writes) && Benign(reading)
    ensures outcome == Parsed(f, channels, rate, |frames| % TWO32) && unread == frames
  {
    var bytes := WriteFile(f, channels, rate, frames, writes, maxSize);
    ghost var riffSize := RiffSize(|frames|, maxSize);
    HeaderIsFile(f, channels, rate, |frames|, riffSize, frames);
    FileParsesBack(f, channels, rate, |frames|, riffSize, [], [], [], frames);
    outcome, unread := ReadFile(bytes, reading);
  }
}
