/** The time codec, the points formula, ordinals and the event-distance resolver (utils.ts). */
module Utils {
  import opened Wrappers
  import opened Text
  import opened Seqs
  import opened Types

  // ---------------------------------------------------------------------------
  // formatTime

  /** Two-digit zero padding: `n < 10 ? `0${n}` : `${n}``. */
  function Pad2(n: nat): (r: string)
    ensures |r| >= 2 && AllDigits(r)
  {
    if n < 10 then "0" + NatToString(n) else NatToString(n)
  }

  lemma {:induction false} Pad2Value(n: nat)
    requires n < 100
    ensures |Pad2(n)| == 2 && DigitsValue(Pad2(n)) == n
  {
    NatToStringValue(n);
    if n < 10 {
      assert Pad2(n)[..1] == "0";
    }
  }

  /** Renders a time: "DNS" for zero, "N/A" for negative, `h:mm:ss` from one hour
      (no fraction), else `m:ss.xx`. */
  function FormatTime(t: Time): (r: string)
    ensures r == "DNS" <==> t == 0
    ensures r == "N/A" <==> t < 0
  {
    if t == 0 then "DNS"
    else if t < 0 then "N/A"
    else
      var h := t / 360000;
      var m := (t % 360000) / 6000;
      var s := (t % 6000) / 100;
      var ms := t % 100;
      if h > 0 then NatToString(h) + ":" + Pad2(m) + ":" + Pad2(s)
      else NatToString(m) + ":" + Pad2(s) + "." + Pad2(ms)
  }

  // ---------------------------------------------------------------------------
  // parseTime

  /** The value, in hundredths, of a fraction of at most two digits. */
  function FractionValue(f: string): nat
    requires AllDigits(f) && |f| <= 2
  {
    if |f| == 0 then 0
    else if |f| == 1 then DigitValue(f[0]) * 10
    else DigitValue(f[0]) * 10 + DigitValue(f[1])
  }

  /** `parseFloat` on one clock component, in hundredths: digits, optionally a point
      and at most two fraction digits; anything else is NaN (`None`). */
  function ParseNumeral(p: string): (r: Option<int>)
    ensures r.Some? ==> r.value >= 0
  {
    var parts := Split(p, '.');
    if |parts| == 1 then
      if |p| > 0 && AllDigits(p) then Some(DigitsValue(p) * 100) else None
    else if |parts| == 2 then
      var ip, fp := parts[0], parts[1];
      if AllDigits(ip) && AllDigits(fp) && |fp| <= 2 && |ip| + |fp| > 0
      then Some(DigitsValue(ip) * 100 + FractionValue(fp))
      else None
    else None
  }

  /** `parseTime`: `h:m:s`, `m:s` or `s`, in hundredths; `None` is `null`. */
  function ParseTime(str: string): (r: Option<Time>)
    ensures r.Some? ==> r.value >= 0
  {
    var parts := Split(str, ':');
    if |parts| == 3 then
      match (ParseNumeral(parts[0]), ParseNumeral(parts[1]), ParseNumeral(parts[2]))
      case (Some(h), Some(m), Some(s)) => Some(h * 3600 + m * 60 + s)
      case _ => None
    else if |parts| == 2 then
      match (ParseNumeral(parts[0]), ParseNumeral(parts[1]))
      case (Some(m), Some(s)) => Some(m * 60 + s)
      case _ => None
    else if |parts| == 1 then ParseNumeral(parts[0])
    else None
  }

  predicate NoColon(s: string) { ':' !in s }

  lemma {:induction false} ParseHoursMinutesSeconds(a: string, b: string, c: string)
    requires NoColon(a) && NoColon(b) && NoColon(c)
    ensures ParseTime(a + ":" + b + ":" + c) ==
      if ParseNumeral(a).Some? && ParseNumeral(b).Some? && ParseNumeral(c).Some?
      then Some(ParseNumeral(a).value * 3600 + ParseNumeral(b).value * 60 + ParseNumeral(c).value)
      else None
  {
    assert a + ":" + b + ":" + c == a + [':'] + (b + [':'] + c);
    SplitAt(a, b + [':'] + c, ':');
    SplitAt(b, c, ':');
    SplitWithout(c, ':');
  }

  lemma {:induction false} ParseMinutesSeconds(a: string, b: string)
    requires NoColon(a) && NoColon(b)
    ensures ParseTime(a + ":" + b) ==
      if ParseNumeral(a).Some? && ParseNumeral(b).Some?
      then Some(ParseNumeral(a).value * 60 + ParseNumeral(b).value)
      else None
  {
    assert a + ":" + b == a + [':'] + b;
    SplitAt(a, b, ':');
    SplitWithout(b, ':');
  }

  lemma {:induction false} ParseSeconds(a: string)
    requires NoColon(a)
    ensures ParseTime(a) == ParseNumeral(a)
  {
    SplitWithout(a, ':');
  }

  /** More than three colon-separated parts never parse. */
  lemma {:induction false} ParseTooManyParts(a: string, b: string, c: string, d: string)
    requires NoColon(a) && NoColon(b) && NoColon(c)
    ensures ParseTime(a + ":" + b + ":" + c + ":" + d) == None
  {
    assert a + ":" + b + ":" + c + ":" + d == a + [':'] + (b + [':'] + (c + [':'] + d));
    SplitAt(a, b + [':'] + (c + [':'] + d), ':');
    SplitAt(b, c + [':'] + d, ':');
    SplitAt(c, d, ':');
  }

  lemma {:induction false} DigitsNoSeparators(s: string)
    requires AllDigits(s)
    ensures ':' !in s && '.' !in s
  {
    forall i | 0 <= i < |s| ensures s[i] != ':' && s[i] != '.' {
      assert IsDigit(s[i]);
    }
  }

  lemma {:induction false} ParseWholeNumeral(s: string)
    requires |s| > 0 && AllDigits(s)
    ensures ParseNumeral(s) == Some(DigitsValue(s) * 100)
  {
    DigitsNoSeparators(s);
    SplitWithout(s, '.');
  }

  lemma {:induction false} TwoDigitFraction(f: string)
    requires |f| == 2 && AllDigits(f)
    ensures FractionValue(f) == DigitsValue(f)
  {
    assert f[..1][..0] == [];
    assert f[..1] == [f[0]];
    assert DigitsValue(f[..1]) == DigitValue(f[0]);
  }

  lemma {:induction false} ParseDecimalNumeral(s: string, f: string)
    requires |s| > 0 && AllDigits(s) && |f| == 2 && AllDigits(f)
    ensures ParseNumeral(s + "." + f) == Some(DigitsValue(s) * 100 + DigitsValue(f))
  {
    DigitsNoSeparators(s);
    DigitsNoSeparators(f);
    assert s + "." + f == s + ['.'] + f;
    SplitAt(s, f, '.');
    SplitWithout(f, '.');
    var parts := Split(s + "." + f, '.');
    assert parts == [s, f];
    TwoDigitFraction(f);
  }

  lemma {:induction false} ClockShort(x: int)
    requires 0 < x < 360000
    ensures x / 360000 == 0
    ensures ((x % 360000) / 6000) * 6000 + ((x % 6000) / 100) * 100 + x % 100 == x
    ensures (x % 6000) / 100 < 60 && x % 100 < 100
  {
    DivisionOf(x, 360000, 0, x);
    var m, r := x / 6000, x % 6000;
    var s, c := r / 100, r % 100;
    assert x == 100 * (60 * m + s) + c;
    DivisionOf(x, 100, 60 * m + s, c);
    assert s < 60;
  }

  lemma {:induction false} ClockLong(x: int)
    requires x >= 360000 && x % 100 == 0
    ensures (x / 360000) * 360000 + ((x % 360000) / 6000) * 6000 + ((x % 6000) / 100) * 100 == x
    ensures x / 360000 > 0 && (x % 360000) / 6000 < 60 && (x % 6000) / 100 < 60
  {
    var h, r1 := x / 360000, x % 360000;
    var m, r2 := r1 / 6000, r1 % 6000;
    var s, c := r2 / 100, r2 % 100;
    assert x == 6000 * (60 * h + m) + r2;
    DivisionOf(x, 6000, 60 * h + m, r2);
    assert x == 100 * (3600 * h + 60 * m + s) + c;
    DivisionOf(x, 100, 3600 * h + 60 * m + s, c);
    assert h > 0;
    assert m < 60;
    assert s < 60;
  }

  /** Round trip below one hour: every positive time is recovered exactly. */
  lemma {:induction false} FormatParseShort(x: Time)
    requires 0 < x < 360000
    ensures ParseTime(FormatTime(x)) == Some(x)
  {
    var m, s, ms := (x % 360000) / 6000, (x % 6000) / 100, x % 100;
    ClockShort(x);
    var M, S, MS := NatToString(m), Pad2(s), Pad2(ms);
    FormatShort(x);
    NatToStringValue(m);
    Pad2Value(s);
    Pad2Value(ms);
    ParseClockShort(M, S, MS);
    assert DigitsValue(M) * 6000 + DigitsValue(S) * 100 + DigitsValue(MS) == x;
  }

  /** Below one hour, the text is minutes, then two-digit seconds and hundredths. */
  lemma {:induction false} FormatShort(x: Time)
    requires 0 < x < 360000
    ensures FormatTime(x) == NatToString((x % 360000) / 6000) + ":" + (Pad2((x % 6000) / 100) + "." + Pad2(x % 100))
  {
    assert x / 360000 == 0;
  }

  /** Whole minutes and seconds with two decimals read back as minutes and seconds. */
  lemma {:induction false} ParseClockShort(M: string, S: string, F: string)
    requires |M| > 0 && AllDigits(M) && |S| > 0 && AllDigits(S) && |F| == 2 && AllDigits(F)
    ensures ParseTime(M + ":" + (S + "." + F)) ==
      Some(DigitsValue(M) * 6000 + DigitsValue(S) * 100 + DigitsValue(F))
  {
    DigitsNoSeparators(M);
    DigitsNoSeparators(S);
    DigitsNoSeparators(F);
    assert NoColon(S + "." + F);
    ParseMinutesSeconds(M, S + "." + F);
    ParseWholeNumeral(M);
    ParseDecimalNumeral(S, F);
    var a := DigitsValue(M);
    assert (a * 100) * 60 == a * 6000;
  }

  /** Three whole clock components read back as hours, minutes and seconds. */
  lemma {:induction false} ParseClockLong(H: string, M: string, S: string)
    requires |H| > 0 && AllDigits(H) && |M| > 0 && AllDigits(M) && |S| > 0 && AllDigits(S)
    ensures ParseTime(H + ":" + M + ":" + S) ==
      Some(DigitsValue(H) * 360000 + DigitsValue(M) * 6000 + DigitsValue(S) * 100)
  {
    DigitsNoSeparators(H);
    DigitsNoSeparators(M);
    DigitsNoSeparators(S);
    ParseHoursMinutesSeconds(H, M, S);
    var a, b, c := DigitsValue(H), DigitsValue(M), DigitsValue(S);
    ParseWholeNumeral(H);
    ParseWholeNumeral(M);
    ParseWholeNumeral(S);
    assert (a * 100) * 3600 == a * 360000 && (b * 100) * 60 == b * 6000;
  }

  /** Round trip from one hour: whole seconds are recovered exactly. */
  lemma {:induction false} FormatParseLong(x: Time)
    requires x >= 360000 && x % 100 == 0
    ensures ParseTime(FormatTime(x)) == Some(x)
  {
    var h, m, s := x / 360000, (x % 360000) / 6000, (x % 6000) / 100;
    ClockLong(x);
    var H, M, S := NatToString(h), Pad2(m), Pad2(s);
    FormatLong(x);
    NatToStringValue(h);
    Pad2Value(m);
    Pad2Value(s);
    ParseClockLong(H, M, S);
    assert DigitsValue(H) * 360000 + DigitsValue(M) * 6000 + DigitsValue(S) * 100 == x;
  }

  /** From one hour on, the text is hours, then two-digit minutes and seconds. */
  lemma {:induction false} FormatLong(x: Time)
    requires x >= 360000
    ensures FormatTime(x) == NatToString(x / 360000) + ":" + Pad2((x % 360000) / 6000) + ":" + Pad2((x % 6000) / 100)
  {
    assert x / 360000 > 0;
  }

  // ---------------------------------------------------------------------------
  // calculatePoints

  /** `Math.pow` with a real exponent, left abstract: `law(base, k)` stands for `base ** k`. */
  type PowerLaw = (real, real) -> real

  /** What the points formula needs of `Math.pow`: `1 ** k == 1`, and monotone in the base. */
  ghost predicate ValidPowerLaw(law: PowerLaw) {
    && (forall k :: law(1.0, k) == 1.0)
    && (forall b1, b2, k :: 0.0 < b1 <= b2 && 0.0 < k ==> law(b1, k) <= law(b2, k))
  }

  /** `Math.round`: halves go up. */
  function Round(x: real): int {
    (x + 0.5).Floor
  }

  /** `calculatePoints(time, goldTime, kValue)`: round(1000 * (gold / time) ** k), 0 for time <= 0. */
  function CalculatePoints(time: Time, goldTime: Time, k: real, law: PowerLaw): (r: int)
    ensures time <= 0 ==> r == 0
  {
    if time <= 0 then 0 else Round(1000.0 * law(goldTime as real / time as real, k))
  }

  /** Running exactly the gold time scores 1000. */
  lemma {:induction false} PointsAtGold(t: Time, k: real, law: PowerLaw)
    requires ValidPowerLaw(law)
    requires t > 0
    ensures CalculatePoints(t, t, k, law) == 1000
  {
    assert t as real / t as real == 1.0;
  }

  lemma {:induction false} RoundMonotone(x: real, y: real)
    requires x <= y
    ensures Round(x) <= Round(y)
  {
  }

  lemma {:induction false} QuotientAntitone(g: real, a: real, b: real)
    requires 0.0 < g && 0.0 < a <= b
    ensures 0.0 < g / b <= g / a
  {
    assert g / a - g / b == g * (b - a) / (a * b);
  }

  /** A slower time never scores more. */
  lemma {:induction false} PointsNonIncreasing(t1: Time, t2: Time, goldTime: Time, k: real, law: PowerLaw)
    requires ValidPowerLaw(law)
    requires 0 < t1 <= t2 && goldTime > 0 && k > 0.0
    ensures CalculatePoints(t2, goldTime, k, law) <= CalculatePoints(t1, goldTime, k, law)
  {
    var g, a, b := goldTime as real, t1 as real, t2 as real;
    QuotientAntitone(g, a, b);
    assert 0.0 < g / b;
    RoundMonotone(1000.0 * law(g / b, k), 1000.0 * law(g / a, k));
  }

  // ---------------------------------------------------------------------------
  // getOrdinal

  /** JavaScript's `%`: the remainder takes the sign of the dividend. */
  function JsRem(a: int, b: int): int
    requires b > 0
  {
    if a >= 0 then a % b else -((-a) % b)
  }

  /** `["th", "st", "nd", "rd"][i]`, `None` being `undefined`. */
  function SuffixAt(i: int): Option<string> {
    if i == 0 then Some("th")
    else if i == 1 then Some("st")
    else if i == 2 then Some("nd")
    else if i == 3 then Some("rd")
    else None
  }

  /** `s[(v - 20) % 10] || s[v] || s[0]` with `v = n % 100`. */
  function OrdinalSuffix(n: int): string {
    TableSuffix(JsRem(n, 100))
  }

  /** The table lookup for `v = n % 100`. */
  function TableSuffix(v: int): string {
    match SuffixAt(JsRem(v - 20, 10))
    case Some(x) => x
    case None =>
      match SuffixAt(v)
      case Some(x) => x
      case None => "th"
  }

  /** `getOrdinal(n)` */
  function Ordinal(n: int): string {
    IntToString(n) + OrdinalSuffix(n)
  }

  /** The English rule: 1st, 2nd, 3rd, 4th, ..., 11th, 12th, 13th, ..., 21st, ... */
  function EnglishSuffix(n: nat): string {
    if 11 <= n % 100 <= 13 then "th"
    else if n % 10 == 1 then "st"
    else if n % 10 == 2 then "nd"
    else if n % 10 == 3 then "rd"
    else "th"
  }

  /** The lookup-table suffix is the English one for non-negative numbers and
      "th" for every negative number. */
  lemma {:induction false} OrdinalSuffixCorrect(n: int)
    ensures n >= 0 ==> OrdinalSuffix(n) == EnglishSuffix(n)
    ensures n < 0 ==> OrdinalSuffix(n) == "th"
  {
    if n >= 0 {
      TableSuffixNatural(n % 100);
      EnglishSuffixMod(n);
    } else {
      TableSuffixNegative(JsRem(n, 100));
    }
  }

  lemma {:induction false} TableSuffixNatural(v: int)
    requires 0 <= v < 100
    ensures TableSuffix(v) == EnglishSuffix(v)
  {
    var t, d := v / 10, v % 10;
    assert v == 10 * t + d && 0 <= d < 10 && 0 <= t < 10;
    assert v % 100 == v;
    if v >= 20 {
      assert v - 20 == 10 * (t - 2) + d;
      assert JsRem(v - 20, 10) == d;
    } else if v >= 10 {
      assert JsRem(v - 20, 10) == if d == 0 then 0 else d - 10;
    } else {
      assert TableSuffix(v) == if v <= 3 then EnglishSuffix(v) else "th";
    }
  }

  lemma {:induction false} EnglishSuffixMod(n: nat)
    ensures EnglishSuffix(n) == EnglishSuffix(n % 100)
  {
    var v := n % 100;
    var k := (n / 100) * 10 + v / 10;
    assert n == 10 * k + v % 10;
    RemainderOf(n, k, v % 10);
    assert v % 100 == v;
  }

  lemma {:induction false} RemainderOf(n: int, k: int, r: int)
    requires n == 10 * k + r && 0 <= r < 10
    ensures n % 10 == r
  {
    DivisionOf(n, 10, k, r);
  }

  /** Quotient and remainder are the unique `k`, `r` with `n == d * k + r` and `0 <= r < d`. */
  lemma {:induction false} DivisionOf(n: int, d: int, k: int, r: int)
    requires 0 < d && n == d * k + r && 0 <= r < d
    ensures n / d == k && n % d == r
  {
    var q, m := n / d, n % d;
    assert d * (k - q) == m - r;
    MultipleBounds(d, k - q);
  }

  /** A nonzero multiple of `d` is at least `d` away from zero. */
  lemma {:induction false} MultipleBounds(d: int, t: int)
    requires 0 < d
    ensures t >= 1 ==> d * t >= d
    ensures t <= -1 ==> d * t <= -d
  {
  }

  lemma {:induction false} TableSuffixNegative(v: int)
    requires -99 <= v <= 0
    ensures TableSuffix(v) == "th"
  {
    assert JsRem(v - 20, 10) == -((20 - v) % 10);
  }

  // ---------------------------------------------------------------------------
  // getEventDistance and sortEventsByDistance

  /** The first index at or after `i` that is not a digit. */
  function DigitRunEnd(s: string, i: nat): (j: nat)
    requires i <= |s|
    ensures i <= j <= |s|
    ensures AllDigits(s[i..j])
    ensures j < |s| ==> !IsDigit(s[j])
    decreases |s| - i
  {
    if i < |s| && IsDigit(s[i]) then DigitRunEnd(s, i + 1) else i
  }

  /** The first index at or after `i` that is not `\s`. */
  function SpaceRunEnd(s: string, i: nat): (j: nat)
    requires i <= |s|
    ensures i <= j <= |s|
    ensures j < |s| ==> !IsSpace(s[j])
    decreases |s| - i
  {
    if i < |s| && IsSpace(s[i]) then SpaceRunEnd(s, i + 1) else i
  }

  function Pow10(n: nat): (r: nat)
    ensures r > 0
  {
    if n == 0 then 1 else 10 * Pow10(n - 1)
  }

  /** `parseFloat` of `\d+(\.\d+)?`, exactly. */
  function DecimalValue(whole: string, fraction: string): real
    requires AllDigits(whole) && AllDigits(fraction)
  {
    DigitsValue(whole) as real + DigitsValue(fraction) as real / Pow10(|fraction|) as real
  }

  /** The regex `(\d+(\.\d+)?)\s*(km|m)` tried at position `i`: the distance in
      metres it denotes, or `None` when it does not match there. */
  function MatchAt(s: string, i: nat): Option<real>
    requires i <= |s|
  {
    if i == |s| || !IsDigit(s[i]) then None
    else
      var j := DigitRunEnd(s, i);
      var hasFraction := j + 1 < |s| && s[j] == '.' && IsDigit(s[j + 1]);
      var k := if hasFraction then DigitRunEnd(s, j + 1) else j;
      var value := if hasFraction then DecimalValue(s[i..j], s[j + 1..k]) else DecimalValue(s[i..j], "");
      var w := SpaceRunEnd(s, k);
      if w + 1 < |s| && s[w] == 'k' && s[w + 1] == 'm' then Some(value * 1000.0)
      else if w < |s| && s[w] == 'm' then Some(value)
      else None
  }

  /** `s.match(regex)`: the leftmost position where the regex matches. */
  function FindMatch(s: string, i: nat): Option<real>
    requires i <= |s|
    decreases |s| - i
  {
    if i == |s| then None
    else match MatchAt(s, i)
      case Some(d) => Some(d)
      case None => FindMatch(s, i + 1)
  }

  /** The fallback table, tried in order. */
  function FallbackDistance(lower: string): real {
    if Contains(lower, "1500") then 1500.0
    else if Contains(lower, "3000") then 3000.0
    else if Contains(lower, "5000") then 5000.0
    else if Contains(lower, "10000") then 10000.0
    else if Contains(lower, "half") then 21097.5
    else if Contains(lower, "marathon") then 42195.0
    else 0.0
  }

  /** `getEventDistance(name)` in metres. */
  function EventDistance(name: string): real {
    var lower := Lower(name);
    match FindMatch(lower, 0)
    case Some(d) => d
    case None => FallbackDistance(lower)
  }

  lemma {:induction false} DigitRunEndAt(s: string, i: nat, j: nat)
    requires i <= j <= |s|
    requires AllDigits(s[i..j])
    requires j < |s| ==> !IsDigit(s[j])
    ensures DigitRunEnd(s, i) == j
    decreases j - i
  {
    if i < j {
      assert s[i..j][0] == s[i];
      assert s[i + 1..j] == s[i..j][1..];
      DigitRunEndAt(s, i + 1, j);
    }
  }

  lemma {:induction false} LowerDigitsUnit(n: string, unit: string)
    requires AllDigits(n)
    requires forall i :: 0 <= i < |unit| ==> 'a' <= unit[i] <= 'z'
    ensures Lower(n + unit) == n + unit
  {
  }

  /** A digit run followed by a unit letter matches at its start. */
  lemma {:induction false} MatchAtUnit(s: string, n: string)
    requires |n| > 0 && AllDigits(n) && |s| > |n| && s[..|n|] == n
    requires s[|n|] == 'k' || s[|n|] == 'm'
    ensures MatchAt(s, 0) ==
      if |n| + 1 < |s| && s[|n|] == 'k' && s[|n| + 1] == 'm' then Some(DigitsValue(n) as real * 1000.0)
      else if s[|n|] == 'm' then Some(DigitsValue(n) as real)
      else None
  {
    assert s[..|n|][0] == s[0];
    DigitRunEndAt(s, 0, |n|);
    assert !IsSpace(s[|n|]);
    assert SpaceRunEnd(s, |n|) == |n|;
    assert s[0..|n|] == n;
    assert DecimalValue(n, "") == DigitsValue(n) as real;
  }

  /** "<n>km" is n thousand metres. */
  lemma {:induction false} DistanceInKilometres(n: string)
    requires |n| > 0 && AllDigits(n)
    ensures EventDistance(n + "km") == DigitsValue(n) as real * 1000.0
  {
    var s := n + "km";
    LowerDigitsUnit(n, "km");
    assert s[..|n|] == n;
    MatchAtUnit(s, n);
  }

  /** "<n>m" is n metres. */
  lemma {:induction false} DistanceInMetres(n: string)
    requires |n| > 0 && AllDigits(n)
    ensures EventDistance(n + "m") == DigitsValue(n) as real
  {
    var s := n + "m";
    LowerDigitsUnit(n, "m");
    assert s[..|n|] == n;
    MatchAtUnit(s, n);
  }

  lemma {:induction false} NoDigitNoMatch(s: string, i: nat)
    requires i <= |s|
    requires forall j :: 0 <= j < |s| ==> !IsDigit(s[j])
    ensures FindMatch(s, i) == None
    decreases |s| - i
  {
    if i < |s| {
      NoDigitNoMatch(s, i + 1);
    }
  }

  /** A name without digits is resolved by the named entries of the fallback table. */
  lemma {:induction false} DistanceWithoutDigits(name: string)
    requires forall j :: 0 <= j < |name| ==> !IsDigit(name[j])
    ensures EventDistance(name) ==
      if Contains(Lower(name), "half") then 21097.5
      else if Contains(Lower(name), "marathon") then 42195.0
      else 0.0
  {
    var lower := Lower(name);
    assert forall j :: 0 <= j < |lower| ==> !IsDigit(lower[j]);
    NoDigitNoMatch(lower, 0);
    ContainsDigitFree(lower, "1500");
    ContainsDigitFree(lower, "3000");
    ContainsDigitFree(lower, "5000");
    ContainsDigitFree(lower, "10000");
  }

  /** A bare number without a unit falls back to the table ("1500" is 1500 m). */
  lemma {:induction false} DistanceBareNumber(n: string)
    requires |n| > 0 && AllDigits(n)
    ensures EventDistance(n) == FallbackDistance(n)
  {
    assert Lower(n) == n;
    forall i | 0 <= i < |n| ensures MatchAt(n, i) == None {
      DigitRunEndAt(n, i, |n|);
    }
    BareNoMatch(n, 0);
  }

  lemma {:induction false} BareNoMatch(n: string, i: nat)
    requires i <= |n|
    requires forall j :: 0 <= j < |n| ==> MatchAt(n, j) == None
    ensures FindMatch(n, i) == None
    decreases |n| - i
  {
    if i < |n| {
      BareNoMatch(n, i + 1);
    }
  }

  /** The comparator of `sortEventsByDistance`: by distance, equal distances by name. */
  predicate EventLe(a: EventStandard, b: EventStandard) {
    var da, db := EventDistance(a.name), EventDistance(b.name);
    da < db || (da == db && StrLe(a.name, b.name))
  }

  lemma {:induction false} EventLeOrder()
    ensures TotalPreorder(EventLe)
  {
    StrLeOrder();
  }

  /** `sortEventsByDistance(events)`: a sorted copy. */
  function SortEventsByDistance(events: seq<EventStandard>): seq<EventStandard> {
    SortBy(events, EventLe)
  }

  /** The sorted copy is a permutation of the input, distances never decrease, and
      equal distances are in name order. */
  lemma {:induction false} SortEventsByDistanceCorrect(events: seq<EventStandard>)
    ensures multiset(SortEventsByDistance(events)) == multiset(events)
    ensures var r := SortEventsByDistance(events);
      forall i, j :: 0 <= i < j < |r| ==>
        && EventDistance(r[i].name) <= EventDistance(r[j].name)
        && (EventDistance(r[i].name) == EventDistance(r[j].name) ==> StrLe(r[i].name, r[j].name))
  {
    SortByPermutes(events, EventLe);
    EventLeOrder();
    SortBySorted(events, EventLe);
  }
}
