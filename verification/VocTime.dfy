/** Time constants of Creative Voice files: an 8-bit and a 16-bit code for the sampling rate,
    computed by division but replaced by table entries for the usual rates. */
module VocTime {
  import opened Arithmetic

  datatype Coded = Code(code: nat) | Refused | DivisionByZero

  const V110_COUNT := 9
  const EXT_COUNT := 15

  /** v110_time_consts: rate and code. */
  function V110Entry(i: nat): (e: (nat, nat))
    requires i < 9
  {
    match i
    case 0 => (5512, 74)
    case 1 => (8000, 130)
    case 2 => (11025, 165)
    case 3 => (16000, 193)
    case 4 => (22050, 210)
    case 5 => (32000, 224)
    case 6 => (44100, 233)
    case 7 => (48000, 235)
    case _ => (64000, 240)
  }

  /** ex_v110_time_consts: rate times channels, and code. */
  function ExtEntry(i: nat): (e: (nat, nat))
    requires i < 15
  {
    match i
    case 0 => (5512, 19092)
    case 1 => (8000, 33536)
    case 2 => (11025, 42317)
    case 3 => (16000, 49536)
    case 4 => (22050, 53927)
    case 5 => (32000, 57536)
    case 6 => (44100, 59732)
    case 7 => (48000, 60203)
    case 8 => (64000, 61536)
    case 9 => (88200, 62634)
    case 10 => (96000, 62870)
    case 11 => (176400, 64085)
    case 12 => (192000, 64203)
    case 13 => (352800, 64811)
    case _ => (384000, 64870)
  }

  /** The code the first table gives for a rate; zero when the rate is not in it. */
  function V110CodeFor(rate: nat): (code: nat) {
    if rate == 5512 then 74
    else if rate == 8000 then 130
    else if rate == 11025 then 165
    else if rate == 16000 then 193
    else if rate == 22050 then 210
    else if rate == 32000 then 224
    else if rate == 44100 then 233
    else if rate == 48000 then 235
    else if rate == 64000 then 240
    else 0
  }

  /** The rate for a code of the first table or the code just below; zero when there is none. */
  function V110RateFor(code: nat): (rate: nat) {
    if code == 74 || code == 73 then 5512
    else if code == 130 || code == 129 then 8000
    else if code == 165 || code == 164 then 11025
    else if code == 193 || code == 192 then 16000
    else if code == 210 || code == 209 then 22050
    else if code == 224 || code == 223 then 32000
    else if code == 233 || code == 232 then 44100
    else if code == 235 || code == 234 then 48000
    else if code == 240 || code == 239 then 64000
    else 0
  }

  function ExtCodeFor(rate: nat): (code: nat) {
    if rate == 5512 then 19092
    else if rate == 8000 then 33536
    else if rate == 11025 then 42317
    else if rate == 16000 then 49536
    else if rate == 22050 then 53927
    else if rate == 32000 then 57536
    else if rate == 44100 then 59732
    else if rate == 48000 then 60203
    else if rate == 64000 then 61536
    else if rate == 88200 then 62634
    else if rate == 96000 then 62870
    else if rate == 176400 then 64085
    else if rate == 192000 then 64203
    else if rate == 352800 then 64811
    else if rate == 384000 then 64870
    else 0
  }

  function ExtRateFor(code: nat): (rate: nat) {
    if code == 19092 || code == 19091 then 5512
    else if code == 33536 || code == 33535 then 8000
    else if code == 42317 || code == 42316 then 11025
    else if code == 49536 || code == 49535 then 16000
    else if code == 53927 || code == 53926 then 22050
    else if code == 57536 || code == 57535 then 32000
    else if code == 59732 || code == 59731 then 44100
    else if code == 60203 || code == 60202 then 48000
    else if code == 61536 || code == 61535 then 64000
    else if code == 62634 || code == 62633 then 88200
    else if code == 62870 || code == 62869 then 96000
    else if code == 64085 || code == 64084 then 176400
    else if code == 64203 || code == 64202 then 192000
    else if code == 64811 || code == 64810 then 352800
    else if code == 64870 || code == 64869 then 384000
    else 0
  }

  // ----- what build_time_constant and parse_time_constant compute -----

  function BuildExtended(rate: nat, channels: nat): (r: Coded) {
    if channels > 2 then Refused else Encode(rate * channels % 0x1_0000_0000)
  }

  /** The code for a product of rate and channels. */
  function Encode(f: nat): (r: Coded) {
    if ExtCodeFor(f) != 0 && f <= 192000 then Code(ExtCodeFor(f))
    else if f == 0 then DivisionByZero
    else Code((65536 - 256000000 / f) % 65536)
  }

  function ParseExtended(code: nat, channels: nat): (rate: nat)
    requires code < 65536 && 1 <= channels <= 2
  {
    var listed := ExtRateFor(code);
    if listed != 0 then listed / channels else Clock(channels) / (65536 - code)
  }

  /** 256 MHz shared between the channels. */
  function Clock(channels: nat): (c: nat)
    requires 1 <= channels <= 2
  {
    if channels == 1 then 256000000 / 1 else 256000000 / 2
  }

  /** The code is stored in one byte. */
  function BuildV110(rate: nat): (r: Coded) {
    if V110CodeFor(rate) != 0 then Code(V110CodeFor(rate))
    else if rate == 0 then DivisionByZero
    else Code((256 - 1000000 / rate) % 65536 % 256)
  }

  function ParseV110(code: nat): (rate: nat)
    requires code < 256
  {
    if V110RateFor(code) != 0 then V110RateFor(code) else 1000000 / (256 - code)
  }

  // ----- the divisions, without the operator -----

  /** `q` is how often `d` goes into `m`. */
  predicate GoesInto(q: nat, d: nat, m: nat) {
    q * d <= m < (q + 1) * d
  }

  lemma QuotientGoesInto(m: nat, d: nat)
    requires 0 < d
    ensures GoesInto(m / d, d, m)
  {
  }

  /** A code for which the first table has a rate: its own codes and those just below. */
  predicate InFirstTable(code: nat) {
    code in {73, 74, 129, 130, 164, 165, 192, 193, 209, 210, 223, 224, 232, 233, 234, 235, 239, 240}
  }

  lemma FirstTableCodes(code: nat)
    ensures V110RateFor(code) == 0 <==> !InFirstTable(code)
  {
  }

  /** The tables hold what dividing gives, but the codes of the first one are smaller by one. */
  lemma TablesFollowDivision()
    ensures forall i :: 0 <= i < 9 ==> V110Entry(i).0 > 0 && GoesInto(255 - V110Entry(i).1, V110Entry(i).0, 1000000)
    ensures forall i :: 0 <= i < 15 ==> ExtEntry(i).0 > 0 && GoesInto(65536 - ExtEntry(i).1, ExtEntry(i).0, 256000000)
  {
  }

  /** A code for which the second table has a rate. */
  predicate InSecondTable(code: nat) {
    code in {19091, 19092, 33535, 33536, 42316, 42317, 49535, 49536, 53926, 53927, 57535, 57536, 59731, 59732, 60202, 60203,
             61535, 61536, 62633, 62634, 62869, 62870, 64084, 64085, 64202, 64203, 64810, 64811, 64869, 64870}
  }

  lemma SecondTableCodes(code: nat)
    ensures ExtRateFor(code) == 0 <==> !InSecondTable(code)
  {
  }

  lemma RateOfEntry(code: nat)
    ensures forall i :: 0 <= i < 15 && (ExtEntry(i).1 == code || ExtEntry(i).1 - 1 == code) ==> ExtRateFor(code) == ExtEntry(i).0
  {
  }

  /** A code of so many values stands for how often `d` goes into `m`. */
  ghost predicate IsCodeOf(code: nat, values: nat, d: nat, m: nat)
    requires 0 < values
  {
    exists q: nat :: GoesInto(q, d, m) && code < values && (code + q) % values == 0
  }

  lemma Wraps16(q: nat)
    ensures ((65536 - q) % 65536 + q) % 65536 == 0
  {
  }

  lemma Wraps8(q: nat)
    ensures ((256 - q) % 65536 % 256 + q) % 256 == 0
  {
    var x, k := (256 - q) % 65536, (256 - q) / 65536;
    assert x % 256 + q == 256 * (1 - 256 * k - x / 256);
  }

  lemma CodeOf16(d: nat, m: nat)
    requires 0 < d
    ensures IsCodeOf((65536 - m / d) % 65536, 65536, d, m)
  {
    QuotientGoesInto(m, d);
    Wraps16(m / d);
  }

  lemma CodeOf8(d: nat, m: nat)
    requires 0 < d
    ensures IsCodeOf((256 - m / d) % 65536 % 256, 256, d, m)
  {
    QuotientGoesInto(m, d);
    Wraps8(m / d);
  }

  lemma ExtendedIsQuotient(rate: nat, channels: nat)
    ensures var r := BuildExtended(rate, channels);
            r.Code? ==> IsCodeOf(r.code, 65536, rate * channels % 0x1_0000_0000, 256000000)
  {
    EncodeIsQuotient(rate * channels % 0x1_0000_0000);
  }

  lemma EncodeIsQuotient(f: nat)
    ensures Encode(f).Code? ==> IsCodeOf(Encode(f).code, 65536, f, 256000000)
  {
    if f > 0 {
      CodeOf16(f, 256000000);
      if ExtCodeFor(f) != 0 && f <= 192000 { EntryIsQuotient(f); }
    } else {
      assert ExtCodeFor(0) == 0;
    }
  }

  lemma EntryIsQuotient(f: nat)
    requires ExtCodeFor(f) != 0
    ensures IsCodeOf(ExtCodeFor(f), 65536, f, 256000000)
  {
    assert GoesInto(65536 - ExtCodeFor(f), f, 256000000);
  }

  lemma V110IsQuotient(rate: nat)
    ensures var r := BuildV110(rate);
            r.Code? ==> if V110CodeFor(rate) != 0 then IsCodeOf((r.code + 1) % 256, 256, rate, 1000000)
                        else IsCodeOf(r.code, 256, rate, 1000000)
  {
    if V110CodeFor(rate) != 0 {
      assert GoesInto(255 - V110CodeFor(rate), rate, 1000000);
      assert (V110CodeFor(rate) + 1) % 256 == V110CodeFor(rate) + 1;
    } else if rate > 0 {
      CodeOf8(rate, 1000000);
    }
  }

  lemma CodeOfEntry(rate: nat)
    ensures V110CodeFor(rate) != 0 <==> exists i :: 0 <= i < 9 && V110Entry(i).0 == rate
  {
    if V110CodeFor(rate) != 0 {
      assert V110Entry(0).0 == rate || V110Entry(1).0 == rate || V110Entry(2).0 == rate || V110Entry(3).0 == rate
        || V110Entry(4).0 == rate || V110Entry(5).0 == rate || V110Entry(6).0 == rate || V110Entry(7).0 == rate
        || V110Entry(8).0 == rate;
    }
  }

  lemma SharedClock(m: nat, channels: nat, d: nat, rate: nat)
    requires 1 <= channels <= 2 && 0 < d && m % 2 == 0 && rate == m / channels / d
    ensures GoesInto(rate, d * channels, m)
  {
    QuotientGoesInto(m / channels, d);
    assert rate * (d * 2) == rate * d * 2 && (rate + 1) * (d * 2) == (rate + 1) * d * 2;
    if channels == 1 { assert d * channels == d; }
  }

  // ----- the search loops -----

  lemma V110Search(rate: nat, i: nat)
    requires i <= V110_COUNT && (forall k :: 0 <= k < i ==> V110Entry(k).0 != rate)
    requires i < V110_COUNT ==> V110Entry(i).0 == rate
    ensures V110CodeFor(rate) == if i < V110_COUNT then V110Entry(i).1 else 0
  {
    assert 0 < i ==> V110Entry(0).0 != rate;
    assert 1 < i ==> V110Entry(1).0 != rate;
    assert 2 < i ==> V110Entry(2).0 != rate;
    assert 3 < i ==> V110Entry(3).0 != rate;
    assert 4 < i ==> V110Entry(4).0 != rate;
    assert 5 < i ==> V110Entry(5).0 != rate;
    assert 6 < i ==> V110Entry(6).0 != rate;
    assert 7 < i ==> V110Entry(7).0 != rate;
    assert 8 < i ==> V110Entry(8).0 != rate;
  }

  lemma ExtSearch(rate: nat, i: nat)
    requires i <= EXT_COUNT && (forall k :: 0 <= k < i ==> ExtEntry(k).0 != rate)
    requires i < EXT_COUNT ==> ExtEntry(i).0 == rate
    ensures ExtCodeFor(rate) == if i < EXT_COUNT then ExtEntry(i).1 else 0
  {
    assert 0 < i ==> ExtEntry(0).0 != rate;
    assert 1 < i ==> ExtEntry(1).0 != rate;
    assert 2 < i ==> ExtEntry(2).0 != rate;
    assert 3 < i ==> ExtEntry(3).0 != rate;
    assert 4 < i ==> ExtEntry(4).0 != rate;
    assert 5 < i ==> ExtEntry(5).0 != rate;
    assert 6 < i ==> ExtEntry(6).0 != rate;
    assert 7 < i ==> ExtEntry(7).0 != rate;
    assert 8 < i ==> ExtEntry(8).0 != rate;
    assert 9 < i ==> ExtEntry(9).0 != rate;
    assert 10 < i ==> ExtEntry(10).0 != rate;
    assert 11 < i ==> ExtEntry(11).0 != rate;
    assert 12 < i ==> ExtEntry(12).0 != rate;
    assert 13 < i ==> ExtEntry(13).0 != rate;
    assert 14 < i ==> ExtEntry(14).0 != rate;
  }

  predicate CodeHits(c: nat, code: nat) {
    c == code || c == code + 1
  }

  lemma V110CodeSearch(code: nat, i: nat)
    requires i <= V110_COUNT && (forall k :: 0 <= k < i ==> !CodeHits(V110Entry(k).1, code))
    requires i < V110_COUNT ==> CodeHits(V110Entry(i).1, code)
    ensures V110RateFor(code) == if i < V110_COUNT then V110Entry(i).0 else 0
  {
    assert 0 < i ==> !CodeHits(V110Entry(0).1, code);
    assert 1 < i ==> !CodeHits(V110Entry(1).1, code);
    assert 2 < i ==> !CodeHits(V110Entry(2).1, code);
    assert 3 < i ==> !CodeHits(V110Entry(3).1, code);
    assert 4 < i ==> !CodeHits(V110Entry(4).1, code);
    assert 5 < i ==> !CodeHits(V110Entry(5).1, code);
    assert 6 < i ==> !CodeHits(V110Entry(6).1, code);
    assert 7 < i ==> !CodeHits(V110Entry(7).1, code);
    assert 8 < i ==> !CodeHits(V110Entry(8).1, code);
  }

  lemma ExtCodeSearch(code: nat, i: nat)
    requires i <= EXT_COUNT && (forall k :: 0 <= k < i ==> !CodeHits(ExtEntry(k).1, code))
    requires i < EXT_COUNT ==> CodeHits(ExtEntry(i).1, code)
    ensures ExtRateFor(code) == if i < EXT_COUNT then ExtEntry(i).0 else 0
  {
    assert 0 < i ==> !CodeHits(ExtEntry(0).1, code);
    assert 1 < i ==> !CodeHits(ExtEntry(1).1, code);
    assert 2 < i ==> !CodeHits(ExtEntry(2).1, code);
    assert 3 < i ==> !CodeHits(ExtEntry(3).1, code);
    assert 4 < i ==> !CodeHits(ExtEntry(4).1, code);
    assert 5 < i ==> !CodeHits(ExtEntry(5).1, code);
    assert 6 < i ==> !CodeHits(ExtEntry(6).1, code);
    assert 7 < i ==> !CodeHits(ExtEntry(7).1, code);
    assert 8 < i ==> !CodeHits(ExtEntry(8).1, code);
    assert 9 < i ==> !CodeHits(ExtEntry(9).1, code);
    assert 10 < i ==> !CodeHits(ExtEntry(10).1, code);
    assert 11 < i ==> !CodeHits(ExtEntry(11).1, code);
    assert 12 < i ==> !CodeHits(ExtEntry(12).1, code);
    assert 13 < i ==> !CodeHits(ExtEntry(13).1, code);
    assert 14 < i ==> !CodeHits(ExtEntry(14).1, code);
  }

  /** The first half of build_time_constant. */
  method Build16(f: nat) returns (r: Coded)
    ensures r == Encode(f)
  {
    var i := 0;
    while i < EXT_COUNT && ExtEntry(i).0 != f
      invariant 0 <= i <= EXT_COUNT && forall k :: 0 <= k < i ==> ExtEntry(k).0 != f
    {
      i := i + 1;
    }
    ExtSearch(f, i);
    if i < EXT_COUNT && f <= 192000 {
      r := Code(ExtEntry(i).1);
    } else {
      if f == 0 { return DivisionByZero; }
      r := Code((65536 - 256000000 / f) % 65536);
    }
  }

  /** The second half; the code is not cut to one byte yet. */
  method Build8(rate: nat) returns (r: Coded)
    ensures if r.Code? then BuildV110(rate) == Code(r.code % 256) else r == BuildV110(rate)
  {
    var i := 0;
    while i < V110_COUNT && V110Entry(i).0 != rate
      invariant 0 <= i <= V110_COUNT && forall k :: 0 <= k < i ==> V110Entry(k).0 != rate
    {
      i := i + 1;
    }
    V110Search(rate, i);
    if i < V110_COUNT {
      r := Code(V110Entry(i).1);
    } else {
      if rate == 0 { return DivisionByZero; }
      r := Code((256 - 1000000 / rate) % 65536);
    }
  }

  /** build_time_constant */
  method BuildTimeConstant(rate: nat, channels: nat, extended: bool) returns (r: Coded)
    ensures extended ==> r == BuildExtended(rate, channels)
    ensures !extended ==>
              if channels != 1 then r == Refused
              else if r.Code? then BuildV110(rate) == Code(r.code % 256) else r == BuildV110(rate)
    ensures extended && r.Code? ==>
              IsCodeOf(r.code, 65536, rate * channels % 0x1_0000_0000, 256000000)
    ensures !extended && r.Code? ==>
              if exists i :: 0 <= i < 9 && V110Entry(i).0 == rate
              then IsCodeOf((r.code % 256 + 1) % 256, 256, rate, 1000000) else IsCodeOf(r.code % 256, 256, rate, 1000000)
  {
    if extended {
      if channels > 2 { return Refused; }
      ExtendedIsQuotient(rate, channels);
      r := Build16(rate * channels % 0x1_0000_0000);
    } else {
      if channels != 1 { return Refused; }
      V110IsQuotient(rate);
      CodeOfEntry(rate);
      r := Build8(rate);
    }
  }

  /** The search of parse_time_constant in the table for the 16-bit code. */
  method FindExtCode(code: nat) returns (i: nat)
    ensures i <= EXT_COUNT && ExtRateFor(code) == if i < EXT_COUNT then ExtEntry(i).0 else 0
  {
    i := 0;
    while i < EXT_COUNT && ExtEntry(i).1 != code && ExtEntry(i).1 - 1 != code
      invariant 0 <= i <= EXT_COUNT && forall k :: 0 <= k < i ==> !CodeHits(ExtEntry(k).1, code)
    {
      i := i + 1;
    }
    ExtCodeSearch(code, i);
  }

  /** parse_time_constant for the 16-bit code. */
  method ParseExtendedConstant(code: nat, channels: nat) returns (rate: nat)
    requires code < 65536 && 1 <= channels <= 2
    ensures rate == ParseExtended(code, channels)
    ensures !InSecondTable(code) ==> GoesInto(rate, (65536 - code) * channels, 256000000)
    ensures forall i :: 0 <= i < 15 && (ExtEntry(i).1 == code || ExtEntry(i).1 - 1 == code) ==>
              GoesInto(rate, channels, ExtEntry(i).0)
  {
    SecondTableCodes(code);
    SharedClock(256000000, channels, 65536 - code, Clock(channels) / (65536 - code));
    RateOfEntry(code);
    QuotientGoesInto(ExtRateFor(code), channels);
    var i := FindExtCode(code);
    if i < EXT_COUNT {
      rate := ExtEntry(i).0 / channels;
    } else {
      rate := Clock(channels) / (65536 - code);
    }
  }

  /** The same search for the 8-bit code. */
  method FindV110Code(code: nat) returns (i: nat)
    ensures i <= V110_COUNT && V110RateFor(code) == if i < V110_COUNT then V110Entry(i).0 else 0
  {
    i := 0;
    while i < V110_COUNT && V110Entry(i).1 != code && V110Entry(i).1 - 1 != code
      invariant 0 <= i <= V110_COUNT && forall k :: 0 <= k < i ==> !CodeHits(V110Entry(k).1, code)
    {
      i := i + 1;
    }
    V110CodeSearch(code, i);
  }

  /** parse_time_constant for the 8-bit code. */
  method ParseV110Constant(code: nat) returns (rate: nat)
    requires code < 256
    ensures rate == ParseV110(code)
    ensures !InFirstTable(code) ==> GoesInto(rate, 256 - code, 1000000)
    ensures forall i :: 0 <= i < 9 && (V110Entry(i).1 == code || V110Entry(i).1 - 1 == code) ==> rate == V110Entry(i).0
  {
    FirstTableCodes(code);
    QuotientGoesInto(1000000, 256 - code);
    var i := FindV110Code(code);
    if i < V110_COUNT {
      rate := V110Entry(i).0;
    } else {
      rate := 1000000 / (256 - code);
    }
  }

  // ----- the 16-bit code is a stable quantiser -----

  lemma MulLess(x: nat, y: nat, b: nat)
    ensures x < y ==> x * b + b <= y * b
    ensures x <= y ==> x * b <= y * b
  {
    if x <= y {
      var d := y - x;
      assert y * b == x * b + d * b;
      if d > 0 { MulGe(b, d); }
    }
  }

  lemma QuotientTimes(m: nat, b: nat)
    requires 0 < b
    ensures m / b * b <= m < m / b * b + b
  {
  }

  lemma AtMostQuotient(a: nat, b: nat, m: nat)
    requires 0 < b && a * b <= m
    ensures a <= m / b
  {
    QuotientTimes(m, b);
    MulLess(m / b, a, b);
  }

  lemma QuotientFalls(m: nat, a: nat, b: nat)
    requires 0 < a <= b
    ensures m / b <= m / a
  {
    var q := m / b;
    QuotientTimes(m, b);
    MulLess(a, b, q);
    assert q * a <= q * b;
    AtMostQuotient(q, a, m);
  }

  /** Dividing three times is dividing once. */
  lemma ThreeQuotients(m: nat, d: nat)
    requires 0 < d && 0 < m / d
    ensures d <= m / (m / d)
    ensures m / (m / (m / d)) == m / d
  {
    var r := m / d;
    QuotientTimes(m, d);
    assert d * r == r * d;
    AtMostQuotient(d, r, m);
    var q := m / r;
    QuotientFalls(m, d, q);
    QuotientTimes(m, r);
    assert r * q == q * r;
    AtMostQuotient(r, q, m);
  }

  /** 256 MHz over all channels gives the same quotient as the clock of one channel. */
  lemma ChannelClock(r: nat, channels: nat)
    requires 0 < r && 1 <= channels <= 2
    ensures 256000000 / (r * channels) == Clock(channels) / r
  {
    if channels == 2 {
      var q, p := 128000000 / r, 256000000 / (r * 2);
      QuotientTimes(128000000, r);
      assert q * (r * 2) == q * r * 2;
      AtMostQuotient(q, r * 2, 256000000);
      QuotientTimes(256000000, r * 2);
      assert p * (r * 2) == p * r * 2;
      AtMostQuotient(p, r, 128000000);
    }
  }

  /** Codes next to table codes stand for rates of their own: either dividing gives the rate of
      the table too, or the next smaller divisor gives another rate. */
  lemma TableCodesAreSharp(code: nat, channels: nat)
    requires code < 65535 && ExtRateFor(code) != 0 && 1 <= channels <= 2
    ensures var m, d := Clock(channels), 65536 - code;
            ExtRateFor(code) / channels == m / d || m / (d - 1) != m / d
  {
  }

  /** Encoding and decoding once more. */
  ghost predicate StableCode(code: nat, channels: nat)
    requires code < 65536 && 1 <= channels <= 2
  {
    var rate := ParseExtended(code, channels);
    var again := BuildExtended(rate, channels);
    again.Code? && again.code < 65536 && ParseExtended(again.code, channels) == rate
  }

  /** The entries of the table by rate. */
  predicate Listed(rate: nat) {
    rate in {5512, 8000, 11025, 16000, 22050, 32000, 44100, 48000, 64000, 88200, 96000, 176400, 192000, 352800, 384000}
  }

  lemma ListedRates(code: nat)
    ensures ExtRateFor(code) != 0 ==> Listed(ExtRateFor(code))
  {
  }

  lemma ListedCode(rate: nat)
    requires Listed(rate)
    ensures 0 < ExtCodeFor(rate) < 65536 && ExtRateFor(ExtCodeFor(rate)) == rate
    ensures rate > 192000 ==> ExtCodeFor(rate) == 65536 - 256000000 / rate
    ensures rate % 2 == 1 ==> rate == 11025
  {
  }

  /** A rate that the table lists is decoded from its own code. */
  lemma ListedRateIsStable(code: nat, channels: nat)
    requires code < 65536 && 1 <= channels <= 2 && ExtRateFor(code) != 0
    ensures StableCode(code, channels)
  {
    var t := ExtRateFor(code);
    ListedRates(code);
    ListedCode(t);
    if channels == 1 {
      BuildListed(t, 1);
    } else if t == 11025 {
      OddListedRate();
    } else {
      assert t / 2 * 2 == t;
      BuildListed(t / 2, 2);
    }
  }

  lemma OddListedRate()
    ensures BuildExtended(5512, 2) == Code(42314) && ParseExtended(42314, 2) == 5512
  {
  }

  lemma BuildListed(rate: nat, channels: nat)
    requires 1 <= channels <= 2 && Listed(rate * channels)
    ensures BuildExtended(rate, channels) == Code(ExtCodeFor(rate * channels))
  {
    var t := rate * channels;
    ListedCode(t);
    assert t % 0x1_0000_0000 == t;
    if t > 192000 {
      var c := 65536 - 256000000 / t;
      assert 0 <= c < 65536;
      assert c % 65536 == c;
    }
  }

  /** The largest divisor that gives a rate is decoded to that rate, unless the table has its
      code and the divisor was not the first one. */
  lemma LargestDivisorDecodes(code: nat, channels: nat, q: nat)
    requires 1 <= channels <= 2 && code < 65536 && ExtRateFor(code) == 0
    requires q == Clock(channels) / (Clock(channels) / (65536 - code)) && 65536 - code <= q <= 65535
    requires Clock(channels) / q == Clock(channels) / (65536 - code)
    ensures ParseExtended(65536 - q, channels) == Clock(channels) / (65536 - code)
  {
    var m, d := Clock(channels), 65536 - code;
    if ExtRateFor(65536 - q) != 0 {
      assert q != d;
      QuotientFalls(m, d, q - 1);
      QuotientFalls(m, q - 1, q);
      TableCodesAreSharp(65536 - q, channels);
    }
  }

  /** Dividing: the largest divisor that gives the same rate gives it again. */
  lemma DividedRateIsStable(code: nat, channels: nat)
    requires 1 <= channels <= 2 && code < 65536 && ExtRateFor(code) == 0
    requires Clock(channels) / (Clock(channels) / (65536 - code)) <= 65535
    ensures StableCode(code, channels)
  {
    var m, d := Clock(channels), 65536 - code;
    QuotientFalls(m, d, 65536);
    QuotientFalls(m, 1, d);
    var r := m / d;
    ThreeQuotients(m, d);
    var q := m / r;
    LargestDivisorDecodes(code, channels, q);
    DividedAgain(r, channels, q);
    var f := r * channels;
    if ExtCodeFor(f) != 0 && f <= 192000 {
      CodeIsOfListed(f);
      ListedCode(f);
      assert f / channels == r;
    }
  }

  lemma CodeIsOfListed(f: nat)
    ensures ExtCodeFor(f) != 0 ==> Listed(f)
  {
  }

  lemma EncodeDivided(f: nat, q: nat)
    requires 0 < f && q == 256000000 / f && 1 <= q <= 65535
    ensures Encode(f) == Code(if ExtCodeFor(f) != 0 && f <= 192000 then ExtCodeFor(f) else 65536 - q)
  {
    Small(65536 - q, 65536);
  }

  lemma SmallProduct(r: nat, channels: nat)
    requires 1 <= channels <= 2 && r <= 256000000
    ensures r * channels == (if channels == 1 then r else r + r) && r * channels % 0x1_0000_0000 == r * channels
  {
  }

  /** What a rate is encoded to, when dividing gives a divisor of 16 bits. */
  lemma DividedAgain(r: nat, channels: nat, q: nat)
    requires 1 <= channels <= 2 && 0 < r <= 256000000 && q == Clock(channels) / r && 1 <= q <= 65535
    ensures var f := r * channels;
            BuildExtended(r, channels) ==
              Code(if ExtCodeFor(f) != 0 && f <= 192000 then ExtCodeFor(f) else 65536 - q)
  {
    ChannelClock(r, channels);
    SmallProduct(r, channels);
    EncodeDivided(r * channels, q);
  }

  lemma SmallerDivisor(channels: nat, d: nat)
    requires 1 <= channels <= 2 && 0 < d <= if channels == 1 then 65523 else 65506
    ensures Clock(channels) / (Clock(channels) / d) <= 65535
  {
    if channels == 1 {
      QuotientFalls(256000000, d, 65523);
      QuotientFalls(256000000, 3907, 256000000 / d);
    } else {
      QuotientFalls(128000000, d, 65506);
      QuotientFalls(128000000, 1954, 128000000 / d);
    }
  }

  /** For rates that are so low that the quotient does not fit 16 bits, what is left of it still
      keeps clear of the top of the range. */
  lemma LowRatesStayClear(f: nat, channels: nat, k: nat, d: nat)
    requires 0 < f <= 256000000 && 1 <= channels <= 2 && (channels == 2 ==> f % 2 == 0)
    requires 256000000 / f == 65536 * k + d && 0 < d <= 65536
    ensures d <= if channels == 1 then 65523 else 65506
  {
    QuotientTimes(256000000, f);
    if f >= 3907 {
      QuotientFalls(256000000, 3907, f);
      if channels == 2 { QuotientFalls(256000000, 3908, f); }
    } else {
      var limit := if channels == 1 then 12 else 29;
      if 65536 - d <= limit { NearTheTop(f, channels, k + 1, 65536 - d); }
    }
  }

  /** A product with a number just below a multiple of 65536 is not close to 256000000. */
  lemma NearTheTop(f: nat, channels: nat, k: nat, slack: nat)
    requires 0 < f < 3907 && 1 <= channels <= 2 && (channels == 2 ==> f % 2 == 0)
    requires slack <= (if channels == 1 then 12 else 29) && slack <= 65536 * k
    ensures var p := (65536 * k - slack) * f; !(p <= 256000000 < p + f)
  {
    var g := k * f;
    MulLess(slack, if channels == 1 then 12 else 29, f);
    ProductBelow(k, slack, f);
    if channels == 2 { EvenFactor(k, f); }
    Between(f, channels, g, slack * f);
  }

  lemma ProductBelow(k: nat, slack: nat, f: nat)
    requires slack <= 65536 * k
    ensures (65536 * k - slack) * f == 65536 * (k * f) - slack * f
  {
  }

  lemma EvenFactor(k: nat, f: nat)
    requires f % 2 == 0
    ensures k * f % 2 == 0
  {
    assert k * f == 2 * (k * (f / 2));
  }

  /** The multiples of 65536, or of 131072, around 256000000. */
  lemma Between(f: nat, channels: nat, g: nat, sf: nat)
    requires f < 3907 && 1 <= channels <= 2 && (channels == 2 ==> g % 2 == 0)
    requires sf <= (if channels == 1 then 12 else 29) * f
    ensures !(65536 * g - sf <= 256000000 < 65536 * g - sf + f)
  {
  }

  lemma SlowestCode()
    ensures Encode(3906) == Code(65532)
  {
    assert 256000000 / 3906 == 65540;
  }

  lemma MonoWrapsToFast()
    ensures ParseExtended(0, 1) == 3906 && BuildExtended(3906, 1) == Code(65532)
    ensures ParseExtended(65532, 1) == 64000000
  {
    SlowestCode();
    SmallProduct(3906, 1);
  }

  lemma StereoWrapsToFast()
    ensures ParseExtended(0, 2) == 1953 && BuildExtended(1953, 2) == Code(65532)
    ensures ParseExtended(65532, 2) == 32000000
  {
    SlowestCode();
    SmallProduct(1953, 2);
  }

  lemma NoQuotient(f: nat)
    requires f > 256000000
    ensures 256000000 / f == 0
  {
  }

  /** Above 256 MHz the quotient is zero and the code wraps to zero. */
  lemma TooFastIsUnstable(f: nat, channels: nat)
    requires f > 256000000 && 1 <= channels <= 2
    ensures (65536 - 256000000 / f) % 65536 == 0 && ExtCodeFor(f) == 0
    ensures !StableCode(0, channels)
  {
    NoQuotient(f);
    if channels == 1 { MonoWrapsToFast(); } else { StereoWrapsToFast(); }
  }

  /** Codes that come from dividing decode stably. */
  lemma QuotientCodeIsStable(f: nat, channels: nat, code: nat)
    requires 0 < f <= 256000000 && 1 <= channels <= 2 && (channels == 2 ==> f % 2 == 0)
    requires code == (65536 - 256000000 / f) % 65536
    ensures StableCode(code, channels)
  {
    var q, d := 256000000 / f, 65536 - code;
    QuotientFalls(256000000, f, 256000000);
    var k := WrappedCode(q, code);
    LowRatesStayClear(f, channels, k, d);
    SmallerDivisor(channels, d);
    if ExtRateFor(code) != 0 {
      ListedRateIsStable(code, channels);
    } else {
      DividedRateIsStable(code, channels);
    }
  }

  lemma WrappedCode(q: nat, code: nat) returns (k: nat)
    requires q > 0 && code == (65536 - q) % 65536
    ensures code < 65536 && q == 65536 * k + (65536 - code)
  {
    k := (q + code) / 65536 - 1;
  }

  lemma EncodeIsStableIff(f: nat, channels: nat, c: Coded)
    requires 1 <= channels <= 2 && c == Encode(f) && (channels == 2 ==> f % 2 == 0)
    ensures c.Code? && c.code < 65536 && StableCode(c.code, channels) <==> 1 <= f <= 256000000
  {
    if f == 0 {
      assert ExtCodeFor(0) == 0;
    } else if f > 256000000 {
      TooFastIsUnstable(f, channels);
    } else if ExtCodeFor(f) != 0 && f <= 192000 {
      CodeIsOfListed(f);
      ListedCode(f);
      ListedRateIsStable(c.code, channels);
    } else {
      QuotientCodeIsStable(f, channels, c.code);
    }
  }

  lemma EvenProduct(rate: nat)
    ensures rate * 2 % 0x1_0000_0000 % 2 == 0
  {
  }

  /** Main result: encoding a rate, decoding, and encoding and decoding again gives the same rate
      as decoding once, if and only if rate times channels, as the code computes it, is between 1
      and 256000000. (For zero the code divides by zero.) */
  lemma QuantiserIsStableIff(rate: nat, channels: nat, c: Coded)
    requires 1 <= channels <= 2 && c == BuildExtended(rate, channels)
    ensures (c.Code? && c.code < 65536 && StableCode(c.code, channels))
       <==> 1 <= rate * channels % 0x1_0000_0000 <= 256000000
  {
    if channels == 2 { EvenProduct(rate); }
    EncodeIsStableIff(rate * channels % 0x1_0000_0000, channels, c);
  }

  // ----- the 8-bit code -----

  /** Encoding and decoding once more, for one channel. */
  ghost predicate StableV110(code: nat)
    requires code < 256
  {
    var rate := ParseV110(code);
    var again := BuildV110(rate);
    again.Code? && again.code < 256 && ParseV110(again.code) == rate
  }

  /** As for the second table: next to a table code, the next smaller divisor gives another rate. */
  lemma FirstTableIsSharp(code: nat)
    requires V110RateFor(code) != 0
    ensures code < 255 && 1000000 / (256 - code - 1) != 1000000 / (256 - code)
  {
  }

  lemma ListedV110IsStable(code: nat)
    requires code < 256 && V110RateFor(code) != 0
    ensures StableV110(code)
  {
  }

  lemma V110CodeIsListed(rate: nat)
    ensures V110CodeFor(rate) != 0 ==> V110RateFor(V110CodeFor(rate)) == rate && V110CodeFor(rate) < 256
  {
  }

  /** The largest divisor that gives the same rate gives it again. */
  lemma DividedV110IsStable(code: nat)
    requires code < 256 && V110RateFor(code) == 0
    ensures StableV110(code)
  {
    var d := 256 - code;
    QuotientFalls(1000000, d, 256);
    var r := 1000000 / d;
    ThreeQuotients(1000000, d);
    var q := 1000000 / r;
    QuotientFalls(1000000, 3906, r);
    V110CodeIsListed(r);
    Small(256 - q, 65536);
    Small(256 - q, 256);
    if V110RateFor(256 - q) != 0 {
      FirstTableIsSharp(256 - q);
      QuotientFalls(1000000, d, q - 1);
      QuotientFalls(1000000, q - 1, q);
    }
  }

  /** Every 8-bit code is stable, so that decoding, encoding and decoding again gives back the rate of the
      first decoding for every rate but zero, for which the code divides by zero. */
  lemma V110QuantiserIsStableIff(rate: nat, c: Coded)
    requires c == BuildV110(rate)
    ensures c.Code? && c.code < 256 && StableV110(c.code) <==> rate != 0
  {
    V110CodeIsListed(rate);
    if c.Code? {
      if V110RateFor(c.code) != 0 { ListedV110IsStable(c.code); } else { DividedV110IsStable(c.code); }
    } else {
      assert V110CodeFor(0) == 0;
    }
  }
}
