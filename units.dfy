/**
 * Units of measure used in attribute values (`src/unit.rs`): time designations
 * such as "+7s" or "700ms", decibel values such as "-6dB", and the percentage
 * formatter used for speeds.
 *
 * Rust's `f32` is modelled by `F32`, an exact decimal with a separate sign bit,
 * so that `-0.0` (which `is_sign_negative` reports as negative) stays distinct
 * from `0.0`.  Parsing accepts the decimal forms `[+-]?(d+(.d*)?|.d+)` and
 * display prints the shortest decimal, as `{}` and `{:+}` do for such values.
 */
module Units {
  import opened Wrappers

  /** (-1)^negative * mantissa / 10^scale */
  datatype F32 = F32(negative: bool, mantissa: nat, scale: nat)

  /** The default `f32`, `0.0`. */
  const Zero := F32(false, 0, 0)

  function Pow10(n: nat): (r: nat)
    ensures r >= 1
  {
    if n == 0 then 1 else 10 * Pow10(n - 1)
  }

  /** The number a value stands for, as an integer at a common scale `s`. */
  function Scaled(f: F32, s: nat): int
    requires s >= f.scale
  {
    (if f.negative then -1 else 1) * f.mantissa * Pow10(s - f.scale)
  }

  function MaxNat(a: nat, b: nat): nat { if a < b then b else a }

  /** `a < b` on the numbers the values stand for (`-0.0 < 0.0` is false). */
  predicate Less(a: F32, b: F32)
  {
    var s := MaxNat(a.scale, b.scale);
    Scaled(a, s) < Scaled(b, s)
  }

  /** `x * k` for a whole factor `k` (exact; the model has no rounding). */
  function Mul(f: F32, k: nat): (r: F32)
    ensures r.negative == f.negative && r.scale == f.scale
    ensures r.mantissa == f.mantissa * k
  {
    F32(f.negative, f.mantissa * k, f.scale)
  }

  /** `f32::max(x, 0.0)`: every value carrying the sign bit becomes `0.0`. */
  function Max0(f: F32): (r: F32)
    ensures !r.negative
    ensures !f.negative ==> r == f
  {
    if f.negative then Zero else f
  }

  /** `f32::clamp(x, lo, hi)` */
  function Clamp(f: F32, lo: F32, hi: F32): (r: F32)
    requires !Less(hi, lo)
    ensures !Less(r, lo) && !Less(hi, r)
    ensures !Less(f, lo) && !Less(hi, f) ==> r == f
  {
    if Less(f, lo) then lo else if Less(hi, f) then hi else f
  }

  /** A value above the upper bound is clamped to that bound, and one below
      the lower bound to that one. */
  lemma ClampOutside(f: F32, lo: F32, hi: F32)
    requires !Less(hi, lo)
    ensures Less(f, lo) ==> Clamp(f, lo, hi) == lo
    ensures Less(hi, f) ==> Clamp(f, lo, hi) == hi
  {
    if Less(hi, f) {
      var s := MaxNat(MaxNat(f.scale, lo.scale), hi.scale);
      LessAt(hi, lo, s);
      LessAt(hi, f, s);
      LessAt(f, lo, s);
    }
  }

  lemma {:induction false} Pow10Add(a: nat, b: nat)
    ensures Pow10(a + b) == Pow10(a) * Pow10(b)
    decreases b
  {
    if b > 0 {
      Pow10Add(a, b - 1);
      assert Pow10(a + b) == 10 * Pow10(a + b - 1);
      assert Pow10(a) * Pow10(b) == Pow10(a) * (10 * Pow10(b - 1));
    }
  }

  lemma ScaledUp(f: F32, s: nat, k: nat)
    requires s >= f.scale
    ensures Scaled(f, s + k) == Scaled(f, s) * Pow10(k)
  {
    var e := s - f.scale;
    assert s + k - f.scale == e + k;
    Pow10Add(e, k);
    MulAssoc((if f.negative then -1 else 1) * f.mantissa, Pow10(e), Pow10(k));
  }

  lemma MulAssoc(x: int, y: int, z: int)
    ensures x * (y * z) == (x * y) * z
  {
  }

  lemma MulPositive(x: int, y: int, p: int)
    requires p >= 1
    ensures x < y <==> x * p < y * p
  {
    if x < y {
      assert y * p - x * p == (y - x) * p;
    } else {
      assert x * p - y * p == (x - y) * p;
    }
  }

  /** `Less` compares at any scale fine enough for both values. */
  lemma LessAt(a: F32, b: F32, s: nat)
    requires s >= a.scale && s >= b.scale
    ensures Less(a, b) <==> Scaled(a, s) < Scaled(b, s)
  {
    var t := MaxNat(a.scale, b.scale);
    ScaledUp(a, t, s - t);
    ScaledUp(b, t, s - t);
    assert t + (s - t) == s;
    MulPositive(Scaled(a, t), Scaled(b, t), Pow10(s - t));
  }

  // ---------------------------------------------------------------- digits

  predicate IsDigit(c: char) { '0' <= c <= '9' }

  predicate AllDigits(s: string) { forall i :: 0 <= i < |s| ==> IsDigit(s[i]) }

  function DigitChar(d: nat): (c: char)
    requires d < 10
    ensures IsDigit(c)
  {
    ('0' as int + d) as char
  }

  /** The number a string of decimal digits denotes (most significant first). */
  function DigitsValue(d: string): nat
    requires AllDigits(d)
    decreases |d|
  {
    if d == [] then 0 else 10 * DigitsValue(d[..|d| - 1]) + ((d[|d| - 1] as int) - ('0' as int))
  }

  /** Decimal rendering of a natural number, as `{}` prints integers. */
  function NatToString(n: nat): (r: string)
    ensures |r| > 0 && AllDigits(r)
  {
    if n < 10 then [DigitChar(n)] else NatToString(n / 10) + [DigitChar(n % 10)]
  }

  // ---------------------------------------------------------------- display

  /** Strips trailing fractional zeros: the shortest decimal for the same number. */
  function Normalize(f: F32): (r: F32)
    ensures r.negative == f.negative
    ensures r.scale <= f.scale
    ensures r.scale == 0 || r.mantissa % 10 != 0
    decreases f.scale
  {
    if f.scale > 0 && f.mantissa % 10 == 0 then Normalize(F32(f.negative, f.mantissa / 10, f.scale - 1)) else f
  }

  function ZeroPad(d: string, width: nat): (r: string)
    ensures |r| == if |d| >= width then |d| else width
  {
    if |d| >= width then d else seq(width - |d|, _ => '0') + d
  }

  /** The digits of `|f|`, without sign and without trailing fractional zeros. */
  function Magnitude(f: F32): string
  {
    var n := Normalize(f);
    var p := Pow10(n.scale);
    if n.scale == 0 then NatToString(n.mantissa)
    else NatToString(n.mantissa / p) + "." + ZeroPad(NatToString(n.mantissa % p), n.scale)
  }

  /** `format!("{}", f)` */
  function Show(f: F32): string
  {
    (if f.negative then "-" else "") + Magnitude(f)
  }

  /** `format!("{:+}", f)`: the sign is always written. */
  function ShowSigned(f: F32): string
  {
    (if f.negative then "-" else "+") + Magnitude(f)
  }

  // ---------------------------------------------------------------- parse

  /** Index of the first '.', or `|s|` when there is none. */
  function DotIndex(s: string): (k: nat)
    ensures k <= |s|
    ensures k < |s| ==> s[k] == '.'
    ensures forall i :: 0 <= i < k ==> s[i] != '.'
  {
    if s == [] || s[0] == '.' then 0 else 1 + DotIndex(s[1..])
  }

  /** An unsigned decimal `d+(.d*)?` or `.d+`, as (mantissa, scale). */
  function ParseUnsigned(s: string): Option<(nat, nat)>
  {
    var k := DotIndex(s);
    if k < |s| then ParseParts(s[..k], s[k + 1..]) else ParseParts(s, "")
  }

  /** The digits before and after the point, at least one of them present. */
  function ParseParts(whole: string, frac: string): Option<(nat, nat)>
  {
    if AllDigits(whole) && AllDigits(frac) && |whole| + |frac| > 0
    then Some((DigitsValue(whole) * Pow10(|frac|) + DigitsValue(frac), |frac|))
    else None
  }

  /** `str::parse::<f32>` on the decimal forms; `None` stands for `ParseFloatError`. */
  function ParseF32(s: string): (r: Option<F32>)
    ensures r.Some? ==> (r.value.negative <==> |s| > 0 && s[0] == '-')
  {
    var signed := |s| > 0 && (s[0] == '+' || s[0] == '-');
    var rest := if signed then s[1..] else s;
    match ParseUnsigned(rest)
    case None => None
    case Some(p) => Some(F32(signed && s[0] == '-', p.0, p.1))
  }

  // ---------------------------------------------------------------- round trip

  lemma {:induction false} NatToStringValue(n: nat)
    ensures DigitsValue(NatToString(n)) == n
  {
    if n >= 10 {
      var r := NatToString(n);
      assert r[..|r| - 1] == NatToString(n / 10);
      NatToStringValue(n / 10);
    }
  }

  lemma {:induction false} NatToStringLength(n: nat, width: nat)
    requires width >= 1 && n < Pow10(width)
    ensures |NatToString(n)| <= width
  {
    if n >= 10 {
      assert Pow10(1) == 10;
      assert width >= 2;
      assert n / 10 < Pow10(width - 1);
      NatToStringLength(n / 10, width - 1);
    }
  }

  lemma {:induction false} ZerosValue(z: string)
    requires forall i :: 0 <= i < |z| ==> z[i] == '0'
    ensures AllDigits(z) && DigitsValue(z) == 0
    decreases |z|
  {
    if z != [] {
      ZerosValue(z[..|z| - 1]);
    }
  }

  lemma {:induction false} LeadingZerosValue(z: string, d: string)
    requires forall i :: 0 <= i < |z| ==> z[i] == '0'
    requires AllDigits(d)
    ensures AllDigits(z + d) && DigitsValue(z + d) == DigitsValue(d)
    decreases |d|
  {
    ZerosValue(z);
    if d == [] {
      assert z + d == z;
    } else {
      assert (z + d)[..|z + d| - 1] == z + d[..|d| - 1];
      LeadingZerosValue(z, d[..|d| - 1]);
    }
  }

  lemma ZeroPadValue(d: string, width: nat)
    requires AllDigits(d)
    ensures AllDigits(ZeroPad(d, width)) && DigitsValue(ZeroPad(d, width)) == DigitsValue(d)
  {
    if |d| < width {
      LeadingZerosValue(seq(width - |d|, _ => '0'), d);
    }
  }

  lemma {:induction false} DotIndexAt(a: string, b: string)
    requires forall i :: 0 <= i < |a| ==> a[i] != '.'
    ensures DotIndex(a + "." + b) == |a|
  {
    if a != [] {
      assert (a + "." + b)[1..] == a[1..] + "." + b;
      DotIndexAt(a[1..], b);
    }
  }

  lemma NoDot(a: string)
    requires AllDigits(a)
    ensures forall i :: 0 <= i < |a| ==> a[i] != '.'
  {
    forall i | 0 <= i < |a| ensures a[i] != '.' { assert IsDigit(a[i]); }
  }

  /** A whole number's digits parse back to it. */
  lemma WholeParses(m: nat)
    ensures ParseUnsigned(NatToString(m)) == Some((m, 0))
  {
    var a := NatToString(m);
    NoDot(a);
    assert DotIndex(a) == |a|;
    NatToStringValue(m);
  }

  /** `hi.lo` with `lo` zero-padded to `scale` digits parses back to `hi * 10^scale + lo`. */
  lemma FractionParses(hi: nat, lo: nat, scale: nat)
    requires scale >= 1 && lo < Pow10(scale)
    ensures ParseUnsigned(NatToString(hi) + "." + ZeroPad(NatToString(lo), scale)) == Some((hi * Pow10(scale) + lo, scale))
  {
    var a := NatToString(hi);
    var pad := ZeroPad(NatToString(lo), scale);
    var m := a + "." + pad;
    NoDot(a);
    DotIndexAt(a, pad);
    assert m[..|a|] == a;
    assert m[|a| + 1..] == pad;
    assert ParseUnsigned(m) == ParseParts(a, pad);
    NatToStringLength(lo, scale);
    ZeroPadValue(NatToString(lo), scale);
    NatToStringValue(hi);
    NatToStringValue(lo);
    assert |pad| == scale;
  }

  lemma DivMod(m: nat, p: nat)
    requires p >= 1
    ensures m % p < p && (m / p) * p + m % p == m
  {
  }

  lemma MagnitudeParses(f: F32)
    ensures ParseUnsigned(Magnitude(f)) == Some((Normalize(f).mantissa, Normalize(f).scale))
  {
    var n := Normalize(f);
    if n.scale == 0 {
      WholeParses(n.mantissa);
    } else {
      var p := Pow10(n.scale);
      var hi, lo := n.mantissa / p, n.mantissa % p;
      assert Magnitude(f) == NatToString(hi) + "." + ZeroPad(NatToString(lo), n.scale);
      DivMod(n.mantissa, p);
      FractionParses(hi, lo, n.scale);
    }
  }

  lemma MagnitudeStartsWithDigit(f: F32)
    ensures |Magnitude(f)| > 0 && IsDigit(Magnitude(f)[0])
  {
  }

  /** Displaying with `{:+}` and parsing back yields the same number, in shortest form. */
  lemma ShowSignedRoundTrip(f: F32)
    ensures ParseF32(ShowSigned(f)) == Some(Normalize(f))
  {
    MagnitudeStartsWithDigit(f);
    MagnitudeParses(f);
    var s := ShowSigned(f);
    assert s[1..] == Magnitude(f);
  }

  /** Displaying with `{}` and parsing back yields the same number, in shortest form. */
  lemma ShowRoundTrip(f: F32)
    ensures ParseF32(Show(f)) == Some(Normalize(f))
  {
    MagnitudeStartsWithDigit(f);
    MagnitudeParses(f);
    var s := Show(f);
    if f.negative {
      assert s[1..] == Magnitude(f);
    } else {
      assert s == Magnitude(f);
    }
  }

  // ---------------------------------------------------------------- byte length

  /** Number of UTF-8 bytes encoding `c`. */
  function CharUtf8Len(c: char): (n: nat)
    ensures 1 <= n <= 4
    ensures n == 1 <==> (c as int) < 0x80
  {
    if (c as int) < 0x80 then 1 else if (c as int) < 0x800 then 2 else if (c as int) < 0x1_0000 then 3 else 4
  }

  /** `str::len`: the length in UTF-8 bytes. */
  function Utf8Len(s: string): (n: nat)
    ensures n >= |s|
  {
    if s == [] then 0 else CharUtf8Len(s[0]) + Utf8Len(s[1..])
  }

  predicate IsAscii(s: string) { forall i :: 0 <= i < |s| ==> (s[i] as int) < 0x80 }

  lemma {:induction false} AsciiUtf8Len(s: string)
    ensures Utf8Len(s) == |s| <==> IsAscii(s)
  {
    if s != [] {
      AsciiUtf8Len(s[1..]);
      if IsAscii(s) {
        assert IsAscii(s[1..]) by {
          forall i | 0 <= i < |s[1..]| ensures (s[1..][i] as int) < 0x80 { assert s[1..][i] == s[i + 1]; }
        }
      } else if Utf8Len(s) == |s| {
        assert IsAscii(s) by {
          forall i | 0 <= i < |s| ensures (s[i] as int) < 0x80 {
            if i > 0 { assert s[i] == s[1..][i - 1]; }
          }
        }
      }
    }
  }

  predicate EndsWith(s: string, suffix: string)
  {
    |suffix| <= |s| && s[|s| - |suffix|..] == suffix
  }

  /** `s.chars().nth(k)` */
  function NthChar(s: string, k: int): Option<char>
  {
    if 0 <= k < |s| then Some(s[k]) else None
  }

  // ---------------------------------------------------------------- time designation

  /** A duration in milliseconds. */
  datatype TimeDesignation = TimeDesignation(millis: F32)

  datatype TimeDesignationError = BadUnit | BadLength | Negative | ParseFloat

  /** `TimeDesignation::from_str`: "<number>ms" or "<number>s", non-negative. */
  function TimeFromStr(s: string): (r: Result<TimeDesignation, TimeDesignationError>)
    ensures Utf8Len(s) < 2 ==> r == Err(TimeDesignationError.BadLength)
    ensures r.Ok? ==> !r.value.millis.negative
    ensures r.Ok? ==> EndsWith(s, "s")
  {
    var len := Utf8Len(s);
    if len < 2 then Err(TimeDesignationError.BadLength)
    else if EndsWith(s, "ms") then TimeNumber(s[..|s| - 2], 1)
    else if EndsWith(s, "s") && NthChar(s, len - 2).Some? && (IsDigit(NthChar(s, len - 2).value) || NthChar(s, len - 2).value == '.')
    then TimeNumber(s[..|s| - 1], 1000)
    else Err(TimeDesignationError.BadUnit)
  }

  /** The number in front of the unit, scaled to milliseconds. */
  function TimeNumber(num: string, unit: nat): (r: Result<TimeDesignation, TimeDesignationError>)
    ensures r.Ok? ==> !r.value.millis.negative
  {
    match ParseF32(num)
    case None => Err(TimeDesignationError.ParseFloat)
    case Some(f) => if f.negative then Err(TimeDesignationError.Negative) else Ok(TimeDesignation(Mul(f, unit)))
  }

  /** `From<&str> for TimeDesignation`: an unparseable string becomes the default, 0 ms. */
  function TimeFrom(s: string): (t: TimeDesignation)
    ensures !t.millis.negative
    ensures TimeFromStr(s).Ok? ==> t == TimeFromStr(s).value
    ensures TimeFromStr(s).Err? ==> t == TimeDesignation(Zero)
  {
    match TimeFromStr(s)
    case Ok(t) => t
    case Err(_) => TimeDesignation(Zero)
  }

  /** `Display for TimeDesignation`: signed milliseconds, as in "+700ms". */
  function TimeText(t: TimeDesignation): string
  {
    ShowSigned(t.millis) + "ms"
  }

  /** A displayed time parses back to the same number of milliseconds exactly
      when it is not negative; a negative one is refused as `Negative`. */
  lemma TimeTextRoundTrip(t: TimeDesignation)
    ensures !t.millis.negative ==> TimeFromStr(TimeText(t)) == Ok(TimeDesignation(Normalize(t.millis)))
    ensures t.millis.negative ==> TimeFromStr(TimeText(t)) == Err(TimeDesignationError.Negative)
  {
    var s := TimeText(t);
    ShowSignedRoundTrip(t.millis);
    assert s[..|s| - 2] == ShowSigned(t.millis);
    assert EndsWith(s, "ms");
  }

  /** A leading '-' can never produce a time, whatever follows. */
  lemma NegativeTimeRefused(s: string)
    requires |s| > 0 && s[0] == '-'
    ensures TimeFromStr(s).Err?
  {
    if Utf8Len(s) >= 2 && EndsWith(s, "ms") {
      assert s[..|s| - 2] == [] || s[..|s| - 2][0] == '-';
    } else if Utf8Len(s) >= 2 && EndsWith(s, "s") {
      assert s[..|s| - 1] == [] || s[..|s| - 1][0] == '-';
    }
  }

  /** For ASCII text the unit is chosen as written: "ms", or "s" after a digit or '.';
      anything else is `BadUnit`. */
  lemma TimeUnitChoice(s: string)
    requires IsAscii(s) && |s| >= 2
    ensures EndsWith(s, "ms") ==> TimeFromStr(s) == TimeNumber(s[..|s| - 2], 1)
    ensures !EndsWith(s, "ms") && s[|s| - 1] == 's' && (IsDigit(s[|s| - 2]) || s[|s| - 2] == '.')
      ==> TimeFromStr(s) == TimeNumber(s[..|s| - 1], 1000)
    ensures !EndsWith(s, "ms") && !(s[|s| - 1] == 's' && (IsDigit(s[|s| - 2]) || s[|s| - 2] == '.'))
      ==> TimeFromStr(s) == Err(TimeDesignationError.BadUnit)
  {
    AsciiUtf8Len(s);
  }

  // ---------------------------------------------------------------- decibels

  /** A level in decibels. */
  datatype Decibels = Decibels(value: F32)

  datatype DecibelsError = BadUnit | BadLength | ParseFloat

  /** `Decibels::from_str`: "<number>dB". */
  function DecibelsFromStr(s: string): (r: Result<Decibels, DecibelsError>)
    ensures Utf8Len(s) < 2 ==> r == Err(DecibelsError.BadLength)
    ensures r.Ok? ==> EndsWith(s, "dB")
  {
    if Utf8Len(s) < 2 then Err(DecibelsError.BadLength)
    else if !EndsWith(s, "dB") then Err(DecibelsError.BadUnit)
    else match ParseF32(s[..|s| - 2])
      case None => Err(DecibelsError.ParseFloat)
      case Some(f) => Ok(Decibels(f))
  }

  /** `From<&str> for Decibels`: an unparseable string becomes the default, 0 dB. */
  function DecibelsFrom(s: string): (d: Decibels)
    ensures DecibelsFromStr(s).Ok? ==> d == DecibelsFromStr(s).value
    ensures DecibelsFromStr(s).Err? ==> d == Decibels(Zero)
  {
    match DecibelsFromStr(s)
    case Ok(d) => d
    case Err(_) => Decibels(Zero)
  }

  /** `Display for Decibels`: signed, as in "+6dB" or "-0.6dB". */
  function DecibelsText(d: Decibels): string
  {
    ShowSigned(d.value) + "dB"
  }

  /** Every displayed level, negative ones included, parses back to the same number. */
  lemma DecibelsTextRoundTrip(d: Decibels)
    ensures DecibelsFromStr(DecibelsText(d)) == Ok(Decibels(Normalize(d.value)))
  {
    var s := DecibelsText(d);
    ShowSignedRoundTrip(d.value);
    assert s[..|s| - 2] == ShowSigned(d.value);
  }

  // ---------------------------------------------------------------- speed

  /** `SpeedFormatter`: a factor written as a percentage, 1.0 as "100%". */
  function SpeedText(f: F32): string
  {
    Show(Mul(f, 100)) + "%"
  }

  /** The percentage text parses back to a hundred times the factor. */
  lemma SpeedTextRoundTrip(f: F32)
    ensures EndsWith(SpeedText(f), "%")
    ensures ParseF32(SpeedText(f)[..|SpeedText(f)| - 1]) == Some(Normalize(Mul(f, 100)))
  {
    var s := SpeedText(f);
    assert s[..|s| - 1] == Show(Mul(f, 100));
    ShowRoundTrip(Mul(f, 100));
  }

  // ---------------------------------------------------------------- documented examples

  lemma TimeSecondsExample()
    ensures TimeFromStr("+7s") == Ok(TimeDesignation(F32(false, 7000, 0)))
  {
    assert "+7s"[..2] == "+7";
    assert "+7"[1..] == "7" == NatToString(7);
    WholeParses(7);
  }

  lemma TimeMillisExample()
    ensures TimeFromStr("700ms") == Ok(TimeDesignation(F32(false, 700, 0)))
  {
    assert "700ms"[..3] == "700" == NatToString(700);
    WholeParses(700);
  }

  /** "15s" and "15000ms" designate the same duration. */
  lemma TimeUnitsAgree()
    ensures TimeFromStr("15s") == TimeFromStr("15000ms") == Ok(TimeDesignation(F32(false, 15000, 0)))
  {
    FifteenSeconds();
    FifteenThousandMillis();
  }

  lemma FifteenSeconds()
    ensures TimeFromStr("15s") == Ok(TimeDesignation(F32(false, 15000, 0)))
  {
    assert "15s"[..2] == "15" == NatToString(15);
    WholeParses(15);
  }

  lemma FifteenThousandMillis()
    ensures TimeFromStr("15000ms") == Ok(TimeDesignation(F32(false, 15000, 0)))
  {
    assert "15000ms"[..5] == "15000" == NatToString(15000);
    WholeParses(15000);
  }

  lemma TimeRefusedExamples()
    ensures TimeFromStr("-.7s") == Err(TimeDesignationError.Negative)
    ensures TimeFromStr("s") == Err(TimeDesignationError.BadLength)
    ensures TimeFromStr("7m") == Err(TimeDesignationError.BadUnit)
  {
    assert "-.7s"[..3] == "-.7";
    assert "-.7"[1..] == ".7";
    assert ".7"[1..] == "7";
  }

  lemma TimeMillisExample2()
    ensures TimeFromStr("750ms") == Ok(TimeDesignation(F32(false, 750, 0)))
  {
    assert "750ms"[..3] == "750" == NatToString(750);
    WholeParses(750);
  }

  /** "+0.75s" is 750 milliseconds, the same duration as "750ms". */
  lemma TimeFractionExample()
    ensures TimeFromStr("+0.75s") == Ok(TimeDesignation(F32(false, 75000, 2)))
    ensures Normalize(F32(false, 75000, 2)) == F32(false, 750, 0)
  {
    assert "+0.75s"[..5] == "+0.75";
    assert "+0.75"[1..] == "0.75";
    assert DotIndex("0.75") == 1 by {
      assert "0.75"[..1] == "0";
      DotIndexAt("0", "75");
      assert "0" + "." + "75" == "0.75";
    }
    assert "0.75"[..1] == "0" && "0.75"[2..] == "75";
    assert DigitsValue("0") == 0;
    assert "75"[..1] == "7";
    assert DigitsValue("75") == 75;
  }

  lemma TimeUnitRefusals()
    ensures TimeFromStr("5 s") == Err(TimeDesignationError.BadUnit)
    ensures TimeFromStr("15sec") == Err(TimeDesignationError.BadUnit)
    ensures TimeFromStr("5m") == Err(TimeDesignationError.BadUnit)
    ensures TimeFromStr("-5s") == Err(TimeDesignationError.Negative)
  {
    assert "-5s"[..2] == "-5";
    assert "-5"[1..] == "5";
  }

  lemma DecibelsExamples()
    ensures DecibelsFromStr("+6dB") == Ok(Decibels(F32(false, 6, 0)))
    ensures DecibelsFromStr("-.6dB") == Ok(Decibels(F32(true, 6, 1)))
    ensures DecibelsFromStr("6") == Err(DecibelsError.BadLength)
    ensures DecibelsFromStr("6db") == Err(DecibelsError.BadUnit)
    ensures DecibelsText(Decibels(F32(true, 6, 1))) == "-0.6dB"
  {
    assert "+6dB"[..2] == "+6";
    assert "+6"[1..] == "6";
    assert "6"[..1] == "6";
    assert DigitsValue("6") == 6;
    assert "-.6dB"[..3] == "-.6";
    assert "-.6"[1..] == ".6";
    assert ".6"[1..] == "6";
    assert Magnitude(F32(true, 6, 1)) == "0.6";
  }

  /** A zero level with a fractional digit is still zero. */
  lemma DecibelsDocAccepted()
    ensures DecibelsFromStr("+0.0dB").Ok? && Normalize(DecibelsFromStr("+0.0dB").value.value) == Zero
    ensures DecibelsFromStr("-6dB") == Ok(Decibels(F32(true, 6, 0)))
    ensures DecibelsFromStr("2dB") == Ok(Decibels(F32(false, 2, 0)))
  {
    assert "+0.0dB"[..4] == "+0.0";
    assert "+0.0"[1..] == "0.0";
    assert DotIndex("0.0") == 1 by {
      DotIndexAt("0", "0");
      assert "0" + "." + "0" == "0.0";
    }
    assert "0.0"[..1] == "0" && "0.0"[2..] == "0";
    assert DigitsValue("0") == 0;
    assert "-6dB"[..2] == "-6";
    assert "-6"[1..] == "6";
    assert DigitsValue("6") == 6;
    assert "2dB"[..1] == "2";
    assert DigitsValue("2") == 2;
  }

  /** The unit is case-sensitive and no space may separate it from the number. */
  lemma DecibelsDocRefused()
    ensures DecibelsFromStr("-3DB") == Err(DecibelsError.BadUnit)
    ensures DecibelsFromStr("0 dB") == Err(DecibelsError.ParseFloat)
    ensures DecibelsFromStr("6") == Err(DecibelsError.BadLength)
  {
    assert "0 dB"[..2] == "0 ";
    assert !IsDigit(' ');
  }
}
