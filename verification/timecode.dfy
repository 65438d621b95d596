/** The timecode value: hours, minutes, seconds and frames at a frame rate, its
    carry-normalising constructor, its `Default` and its `Display` rendering. */
module Timecodes {
  import opened Wrappers

  /** An unsigned 8-bit field. Arithmetic happens on `int`, so every place where
      the source could leave the `u8` range is checked explicitly. */
  type uint8 = x: int | 0 <= x < 256

  /** Minutes and seconds roll over at this value. */
  const MaxTime: int := 60

  datatype Timecode = Timecode(hours: uint8, minutes: uint8, seconds: uint8, frames: uint8, fps: uint8)

  /** The ways `Timecode::new` can abort: `frames / fps` with `fps == 0`, and a
      `u8` addition whose sum exceeds 255 (a panic in a checked build). */
  datatype Panic = DivisionByZero | AddOverflow

  /** The documented field ranges of a constructed timecode. */
  predicate IsNormalised(t: Timecode) {
    t.frames < t.fps && t.seconds < MaxTime && t.minutes < MaxTime
  }

  /** Total number of frames since 0:0:0:0 for the given field values. */
  function TotalFrames(hours: int, minutes: int, seconds: int, frames: int, fps: int): int {
    ((hours * MaxTime + minutes) * MaxTime + seconds) * fps + frames
  }

  function Total(t: Timecode): int {
    TotalFrames(t.hours, t.minutes, t.seconds, t.frames, t.fps)
  }

  /** The three carry sums stay within `u8`, stated in closed form: the carried
      seconds, the minutes after the seconds carry, the hours after the minutes carry. */
  predicate CarriesFit(hours: uint8, minutes: uint8, seconds: uint8, frames: uint8, fps: uint8) {
    && fps > 0
    && seconds + frames / fps < 256
    && minutes + (seconds + frames / fps) / MaxTime < 256
    && hours + (minutes + (seconds + frames / fps) / MaxTime) / MaxTime < 256
  }

  /** One `if value >= radix` carry step of `Timecode::new`: the whole
      multiples of `radix` in `lo` move into `hi` (the sum may exceed `u8`). */
  function Carry(hi: int, lo: int, radix: int): (c: (int, int))
    requires radix > 0 && lo >= 0
    ensures c.0 == hi + lo / radix && 0 <= c.1 < radix
    ensures hi * radix + lo == c.0 * radix + c.1
  {
    if lo >= radix then
      DivModParts(lo, radix);
      Distribute(hi, lo / radix, radix);
      (hi + lo / radix, lo % radix)
    else
      DivModParts(lo, radix);
      (hi, lo)
  }

  lemma DivModParts(n: int, d: int)
    requires d > 0 && n >= 0
    ensures n == (n / d) * d + n % d && 0 <= n % d < d
  {
  }

  lemma Distribute(a: int, b: int, d: int)
    ensures (a + b) * d == a * d + b * d
  {
  }

  /** `Timecode::new`: carries frames into seconds, seconds into minutes and
      minutes into hours. Hours never wrap at 24. */
  function New(hours: uint8, minutes: uint8, seconds: uint8, frames: uint8, fps: uint8): (r: Result<Timecode, Panic>)
    ensures r == Failure(DivisionByZero) <==> fps == 0
    ensures r.Success? <==> CarriesFit(hours, minutes, seconds, frames, fps)
    ensures r.Success? ==> IsNormalised(r.value) && r.value.fps == fps
    ensures r.Success? ==> r.value.hours >= hours
  {
    if frames >= fps && fps == 0 then Failure(DivisionByZero)
    else
      var (s1, f1) := Carry(seconds, frames, fps);
      if s1 >= 256 then Failure(AddOverflow)
      else
        var (m1, s2) := Carry(minutes, s1, MaxTime);
        if m1 >= 256 then Failure(AddOverflow)
        else
          var (h1, m2) := Carry(hours, m1, MaxTime);
          if h1 >= 256 then Failure(AddOverflow)
          else Success(Timecode(h1, m2, s2, f1, fps))
  }

  /** Every carry is a lossless radix conversion, so the constructed timecode
      denotes the same total frame count as the raw input. */
  lemma NewConservesTotal(hours: uint8, minutes: uint8, seconds: uint8, frames: uint8, fps: uint8)
    requires New(hours, minutes, seconds, frames, fps).Success?
    ensures Total(New(hours, minutes, seconds, frames, fps).value) == TotalFrames(hours, minutes, seconds, frames, fps)
  {
    var (s1, f1) := Carry(seconds, frames, fps);
    var (m1, s2) := Carry(minutes, s1, MaxTime);
    var (h1, m2) := Carry(hours, m1, MaxTime);
    var x := hours * MaxTime + minutes;
    calc {
      TotalFrames(hours, minutes, seconds, frames, fps);
      (x * MaxTime + seconds) * fps + frames;
      { Distribute(x * MaxTime, seconds, fps); }
      (x * MaxTime) * fps + (seconds * fps + frames);
      (x * MaxTime) * fps + (s1 * fps + f1);
      { Distribute(x * MaxTime, s1, fps); }
      (x * MaxTime + s1) * fps + f1;
      { Distribute(hours * MaxTime, minutes, MaxTime); Distribute(hours * MaxTime, m1, MaxTime); }
      ((hours * MaxTime + m1) * MaxTime + s2) * fps + f1;
      ((h1 * MaxTime + m2) * MaxTime + s2) * fps + f1;
    }
  }

  /** Quotient and remainder are determined by the value they make up. */
  lemma DivModUnique(q1: int, r1: int, q2: int, r2: int, d: int)
    requires 0 <= r1 < d && 0 <= r2 < d
    requires q1 * d + r1 == q2 * d + r2
    ensures q1 == q2 && r1 == r2
  {
    var k := q1 - q2;
    Distribute(q2, k, d);
    assert k * d == r2 - r1;
    if k > 0 {
      MulAtLeast(k, d);
    } else if k < 0 {
      Distribute(k, -k, d);
      MulAtLeast(-k, d);
    }
  }

  lemma MulAtLeast(k: int, d: int)
    requires k >= 1 && d > 0
    ensures k * d >= d
  {
    Distribute(k - 1, 1, d);
    assert (k - 1) * d >= 0;
  }

  /** A normalised timecode is determined by its frame rate and its total frame
      count: there is exactly one normal form per instant. */
  lemma {:induction false} NormalFormUnique(a: Timecode, b: Timecode)
    requires IsNormalised(a) && IsNormalised(b) && a.fps == b.fps
    requires Total(a) == Total(b)
    ensures a == b
  {
    var ma := (a.hours * MaxTime + a.minutes) * MaxTime + a.seconds;
    var mb := (b.hours * MaxTime + b.minutes) * MaxTime + b.seconds;
    DivModUnique(ma, a.frames, mb, b.frames, a.fps);
    DivModUnique(a.hours * MaxTime + a.minutes, a.seconds, b.hours * MaxTime + b.minutes, b.seconds, MaxTime);
    DivModUnique(a.hours, a.minutes, b.hours, b.minutes, MaxTime);
  }

  /** `New` characterised without its carry steps: when the carries fit, it
      returns exactly the normalised timecode at the input's rate that denotes
      the input's total frame count. */
  lemma NewIsCanonical(hours: uint8, minutes: uint8, seconds: uint8, frames: uint8, fps: uint8, t: Timecode)
    requires CarriesFit(hours, minutes, seconds, frames, fps)
    ensures New(hours, minutes, seconds, frames, fps) == Success(t) <==>
              IsNormalised(t) && t.fps == fps && Total(t) == TotalFrames(hours, minutes, seconds, frames, fps)
  {
    NewConservesTotal(hours, minutes, seconds, frames, fps);
    if IsNormalised(t) && t.fps == fps && Total(t) == TotalFrames(hours, minutes, seconds, frames, fps) {
      NormalFormUnique(New(hours, minutes, seconds, frames, fps).value, t);
    }
  }

  /** Input already in range comes back field for field. */
  lemma NewIdempotent(t: Timecode)
    requires IsNormalised(t)
    ensures New(t.hours, t.minutes, t.seconds, t.frames, t.fps) == Success(t)
  {
  }

  /** Re-normalising a constructed timecode changes nothing. */
  lemma NewTwiceIsNew(hours: uint8, minutes: uint8, seconds: uint8, frames: uint8, fps: uint8)
    requires New(hours, minutes, seconds, frames, fps).Success?
    ensures var t := New(hours, minutes, seconds, frames, fps).value;
            New(t.hours, t.minutes, t.seconds, t.frames, t.fps) == Success(t)
  {
    NewIdempotent(New(hours, minutes, seconds, frames, fps).value);
  }

  /** The boundary cases of the source's unit tests: in-range input is kept, and
      one frame too many cascades through every field. */
  lemma NewBoundaryExamples()
    ensures New(100, 59, 59, 23, 24) == Success(Timecode(100, 59, 59, 23, 24))
    ensures New(100, 59, 59, 25, 24) == Success(Timecode(101, 0, 0, 1, 24))
  {
  }

  /** A zero frame rate always reaches `frames / fps`, even for all-zero input. */
  lemma NewZeroFpsPanics(hours: uint8, minutes: uint8, seconds: uint8, frames: uint8)
    ensures New(hours, minutes, seconds, frames, 0) == Failure(DivisionByZero)
  {
  }

  /** Hours do not wrap at 24: 255 hours and 59:59 plus one frame overflow `u8`,
      while 254 hours carry to 255. */
  lemma NewHourCarryExamples()
    ensures New(254, 59, 59, 24, 24) == Success(Timecode(255, 0, 0, 0, 24))
    ensures New(255, 59, 59, 24, 24) == Failure(AddOverflow)
  {
  }

  /** The derived `Default`: every field zero, shown as the placeholder
      "0:0:0:0 @ 0fps" before any value has been decoded. */
  function Default(): (t: Timecode)
    ensures Format(t) == "0:0:0:0 @ 0fps"
  {
    Timecode(0, 0, 0, 0, 0)
  }

  /** `Default` is not a value `New` can produce, because its frame rate is zero. */
  lemma DefaultNotConstructible(hours: uint8, minutes: uint8, seconds: uint8, frames: uint8, fps: uint8)
    ensures New(hours, minutes, seconds, frames, fps) != Success(Default())
  {
  }

  // ---------------------------------------------------------------------------
  // Display: "{hours}:{minutes}:{seconds}:{frames} @ {fps}fps", every number in
  // plain decimal without padding.
  // ---------------------------------------------------------------------------

  predicate IsDigit(c: char) {
    '0' <= c <= '9'
  }

  predicate AllDigits(s: string) {
    forall i :: 0 <= i < |s| ==> IsDigit(s[i])
  }

  function DigitChar(d: nat): (c: char)
    requires d < 10
    ensures IsDigit(c) && c as int - '0' as int == d
  {
    ('0' as int + d) as char
  }

  /** The decimal rendering of `{}` for an unsigned integer: at least one digit,
      and no leading zero unless the number is zero. */
  function Decimal(n: nat): (r: string)
    ensures |r| >= 1 && AllDigits(r)
    ensures r[0] == '0' ==> n == 0
    ensures n == 0 ==> r == "0"
    ensures |r| == 1 <==> n < 10
  {
    if n < 10 then [DigitChar(n)] else Decimal(n / 10) + [DigitChar(n % 10)]
  }

  /** Reads a string of decimal digits back as a number. */
  function ParseDecimal(s: string): nat
    requires AllDigits(s)
  {
    if |s| == 0 then 0 else ParseDecimal(s[..|s| - 1]) * 10 + (s[|s| - 1] as int - '0' as int)
  }

  lemma {:induction false} DecimalRoundTrip(n: nat)
    ensures ParseDecimal(Decimal(n)) == n
  {
    if n >= 10 {
      var d := Decimal(n);
      assert d[..|d| - 1] == Decimal(n / 10);
      DecimalRoundTrip(n / 10);
    }
  }

  /** `impl Display for Timecode`: `{hours}:{minutes}:{seconds}:{frames} @ {fps}fps`.
      The rendering loses nothing: every field, the frame rate included, can be
      read back from it. */
  function Format(t: Timecode): (r: string)
    ensures ParseFormat(r) == Some(t)
  {
    FormatParses(t);
    Decimal(t.hours) + (":" + (Decimal(t.minutes) + (":" + (Decimal(t.seconds) + (":" +
      (Decimal(t.frames) + (" @ " + (Decimal(t.fps) + "fps"))))))))
  }

  /** The parsing steps behind `Format`'s contract, one separator at a time. */
  lemma FormatParses(t: Timecode)
    ensures ParseFormat(Decimal(t.hours) + (":" + (Decimal(t.minutes) + (":" + (Decimal(t.seconds) + (":" +
              (Decimal(t.frames) + (" @ " + (Decimal(t.fps) + "fps"))))))))) == Some(t)
  {
    var tail4 := "@ " + (Decimal(t.fps) + "fps");
    var tail3 := Decimal(t.frames) + ([' '] + tail4);
    var tail2 := Decimal(t.seconds) + ([':'] + tail3);
    var tail1 := Decimal(t.minutes) + ([':'] + tail2);
    var whole := Decimal(t.hours) + ([':'] + tail1);
    assert " @ " + (Decimal(t.fps) + "fps") == [' '] + tail4;
    DecimalField(t.hours, ':');
    SplitFirstConcat(Decimal(t.hours), ':', tail1);
    DecimalField(t.minutes, ':');
    SplitFirstConcat(Decimal(t.minutes), ':', tail2);
    DecimalField(t.seconds, ':');
    SplitFirstConcat(Decimal(t.seconds), ':', tail3);
    DecimalField(t.frames, ' ');
    SplitFirstConcat(Decimal(t.frames), ' ', tail4);
    ParseRateOf(t.fps);
    assert ParseFormat(whole) == Some(t);
  }

  /** Splits at the first occurrence of `sep`, dropping the separator. */
  function SplitFirst(s: string, sep: char): Option<(string, string)> {
    if |s| == 0 then None
    else if s[0] == sep then Some(([], s[1..]))
    else
      match SplitFirst(s[1..], sep)
      case None => None
      case Some(parts) => Some(([s[0]] + parts.0, parts.1))
  }

  lemma {:induction false} SplitFirstConcat(a: string, sep: char, b: string)
    requires sep !in a
    ensures SplitFirst(a + ([sep] + b), sep) == Some((a, b))
  {
    if |a| > 0 {
      assert (a + ([sep] + b))[1..] == a[1..] + ([sep] + b);
      SplitFirstConcat(a[1..], sep, b);
      assert [a[0]] + a[1..] == a;
    } else {
      assert a + ([sep] + b) == [sep] + b;
    }
  }

  /** One decimal field of the rendering, back as a `u8`. Only the unpadded
      form `{}` produces is accepted: a leading zero only in `0` itself. */
  function ParseField(s: string): Option<uint8> {
    if |s| > 0 && AllDigits(s) && (|s| == 1 || s[0] != '0') && ParseDecimal(s) < 256 then Some(ParseDecimal(s))
    else None
  }

  /** `ParseField` accepts exactly the renderings `Decimal` produces: a field it
      reads is the unpadded decimal form of its value. */
  lemma ParseFieldCanonical(s: string)
    ensures ParseField(s).Some? ==> s == Decimal(ParseField(s).value)
  {
    if ParseField(s).Some? {
      DecimalOfParse(s);
    }
  }

  lemma {:induction false} DecimalOfParse(s: string)
    requires |s| > 0 && AllDigits(s) && (|s| == 1 || s[0] != '0')
    ensures Decimal(ParseDecimal(s)) == s
    decreases |s|
  {
    var d := s[|s| - 1] as int - '0' as int;
    if |s| == 1 {
      assert DigitChar(d) == s[0];
    } else {
      var p := s[..|s| - 1];
      DecimalOfParse(p);
      LeadingDigitPositive(p);
      var n := ParseDecimal(s);
      assert n / 10 == ParseDecimal(p) && n % 10 == d;
      assert DigitChar(d) == s[|s| - 1];
      assert s == p + [s[|s| - 1]];
    }
  }

  lemma {:induction false} LeadingDigitPositive(s: string)
    requires |s| > 0 && AllDigits(s) && s[0] != '0'
    ensures ParseDecimal(s) >= 1
    decreases |s|
  {
    if |s| > 1 {
      LeadingDigitPositive(s[..|s| - 1]);
    }
  }

  /** Reads a rendering of `Format` back into the timecode it shows. */
  function ParseFormat(s: string): Option<Timecode> {
    match SplitFirst(s, ':')
    case None => None
    case Some(p1) =>
      match SplitFirst(p1.1, ':')
      case None => None
      case Some(p2) =>
        match SplitFirst(p2.1, ':')
        case None => None
        case Some(p3) =>
          match SplitFirst(p3.1, ' ')
          case None => None
          case Some(p4) =>
            match (ParseField(p1.0), ParseField(p2.0), ParseField(p3.0), ParseField(p4.0), ParseRate(p4.1))
            case (Some(h), Some(m), Some(sec), Some(f), Some(fps)) => Some(Timecode(h, m, sec, f, fps))
            case _ => None
  }

  /** Reads the "@ {fps}fps" tail of a rendering. */
  function ParseRate(s: string): Option<uint8> {
    if |s| < 5 || s[..2] != "@ " || s[|s| - 3..] != "fps" then None
    else ParseField(s[2..|s| - 3])
  }

  lemma ParseRateOf(n: uint8)
    ensures ParseRate("@ " + (Decimal(n) + "fps")) == Some(n)
  {
    var s := "@ " + (Decimal(n) + "fps");
    assert s[..2] == "@ ";
    assert s[|s| - 3..] == "fps";
    assert s[2..|s| - 3] == Decimal(n);
    DecimalField(n, ' ');
  }

  lemma DecimalField(n: uint8, sep: char)
    requires !IsDigit(sep)
    ensures sep !in Decimal(n)
    ensures ParseField(Decimal(n)) == Some(n)
  {
    DecimalRoundTrip(n);
  }

  /** Two timecodes render alike only when they are equal. */
  lemma FormatInjective(a: Timecode, b: Timecode)
    requires Format(a) == Format(b)
    ensures a == b
  {
  }
}
