/**
 * Pydantic's lax-mode conversion of a JSON value to a field's declared type. A
 * request body is JSON, so it carries only strings, numbers, booleans and null; a
 * field typed `int`, `Decimal`, `bool` or `datetime` takes the forms pydantic
 * converts, and holds the converted value afterwards.
 */
module Coercion {
  import opened Wrappers
  import opened Text
  import opened Values

  function Pow10(n: nat): (p: nat)
    ensures p >= 1
  {
    if n == 0 then 1 else 10 * Pow10(n - 1)
  }

  function Abs(x: int): nat {
    if x < 0 then -x else x
  }

  // ---------------------------------------------------------------- decimals

  /**
   * A Decimal in lowest terms: no trailing zero digit, and zero written 0E0.
   * Python's Decimal compares by the number it denotes, so equal numbers in lowest
   * terms are equal values.
   */
  predicate Reduced(v: Value) {
    v.Decimal? && (if v.digits == 0 then v.exponent == 0 else v.digits % 10 != 0)
  }

  /** The Decimal digits × 10^exponent in lowest terms. */
  function Reduce(digits: int, exponent: int): (v: Value)
    ensures Reduced(v)
    decreases Abs(digits)
  {
    if digits == 0 then Decimal(0, 0)
    else if digits % 10 == 0 then Reduce(digits / 10, exponent + 1)
    else Decimal(digits, exponent)
  }

  /** Reducing keeps the number: the digits lose k trailing zeros and the exponent gains k. */
  lemma {:induction false} ReduceSameNumber(digits: int, exponent: int) returns (k: nat)
    requires digits != 0
    ensures digits == Reduce(digits, exponent).digits * Pow10(k)
    ensures Reduce(digits, exponent).exponent == exponent + k
    decreases Abs(digits)
  {
    if digits % 10 == 0 {
      var r := Reduce(digits, exponent);
      assert r == Reduce(digits / 10, exponent + 1);
      var j := ReduceSameNumber(digits / 10, exponent + 1);
      k := j + 1;
      calc {
        digits;
        (digits / 10) * 10;
        (r.digits * Pow10(j)) * 10;
        r.digits * (10 * Pow10(j));
      }
    } else {
      k := 0;
    }
  }

  /** A Decimal already in lowest terms reduces to itself. */
  lemma ReduceReduced(v: Value)
    requires Reduced(v)
    ensures Reduce(v.digits, v.exponent) == v
  {
  }

  /** Zero in any exponent is the one zero. */
  lemma ReduceZero(exponent: int)
    ensures Reduce(0, exponent) == Decimal(0, 0)
  {
  }

  /**
   * `Decimal(s)` on an optional sign, then digits with at most one '.', with a
   * digit on at least one side of it ("25000", "-1.50", ".5", "3.").
   */
  function ParseDecimal(s: string): Option<Value> {
    var signed := s != [] && (s[0] == '-' || s[0] == '+');
    var unsigned := if signed then s[1..] else s;
    var parts := Split(unsigned, '.');
    var whole := parts[0];
    var fraction := if |parts| == 2 then parts[1] else "";
    if |parts| <= 2 && AllDigits(whole) && AllDigits(fraction) && whole + fraction != [] then
      DigitsConcat(whole, fraction);
      var magnitude: int := DigitsValue(whole + fraction);
      Some(Reduce(if signed && s[0] == '-' then -magnitude else magnitude, -|fraction|))
    else None
  }

  lemma DigitsConcat(a: string, b: string)
    requires AllDigits(a) && AllDigits(b)
    ensures AllDigits(a + b)
  {
    assert forall i :: 0 <= i < |a + b| ==> (a + b)[i] == if i < |a| then a[i] else b[i - |a|];
  }

  /**
   * An int field's string: `int(s)`, or, when that fails, the part before a single
   * '.' followed by zeros only ("2020.", "2020.00"), which pydantic strips first.
   */
  function ParseIntText(s: string): Option<int> {
    if ParseInt(s).Some? then ParseInt(s)
    else
      var parts := Split(s, '.');
      if |parts| == 2 && forall i :: 0 <= i < |parts[1]| ==> parts[1][i] == '0' then ParseInt(parts[0]) else None
  }

  // ---------------------------------------------------------------- booleans

  /** ASCII lower-casing, which is all pydantic applies to boolean words. */
  function Lower(s: string): (l: string)
    ensures |l| == |s|
  {
    seq(|s|, i requires 0 <= i < |s| => if 'A' <= s[i] <= 'Z' then (s[i] as int + 32) as char else s[i])
  }

  const TrueWords: set<string> := {"1", "on", "t", "true", "y", "yes"}
  const FalseWords: set<string> := {"0", "off", "f", "false", "n", "no"}

  // ---------------------------------------------------------------- date-times

  predicate LeapYear(y: int) {
    y % 4 == 0 && (y % 100 != 0 || y % 400 == 0)
  }

  function DaysInMonth(y: int, m: int): int {
    if m == 2 then (if LeapYear(y) then 29 else 28)
    else if m == 4 || m == 6 || m == 9 || m == 11 then 30
    else 31
  }

  predicate ValidDate(y: int, m: int, d: int) {
    1 <= y <= 9999 && 1 <= m <= 12 && 1 <= d <= DaysInMonth(y, m)
  }

  /** Days from 1970-01-01 to the proleptic Gregorian date y-m-d. */
  function DaysFromCivil(y: int, m: int, d: int): int {
    var yy := if m <= 2 then y - 1 else y;
    var era := yy / 400;
    var yoe := yy - era * 400;
    var mp := if m > 2 then m - 3 else m + 9;
    var doy := (153 * mp + 2) / 5 + d - 1;
    var doe := yoe * 365 + yoe / 4 - yoe / 100 + doy;
    era * 146097 + doe - 719468
  }

  /** The digits s[i..j] as a number, if they are all digits. */
  function Number(s: string, i: nat, j: nat): Option<nat>
    requires i <= j <= |s|
  {
    if AllDigits(s[i..j]) then Some(DigitsValue(s[i..j])) else None
  }

  lemma TwoDigits(s: string)
    requires |s| == 2 && AllDigits(s)
    ensures DigitsValue(s) == DigitValue(s[0]) * 10 + DigitValue(s[1])
  {
    var first := s[..1];
    assert first[..0] == [] && first[0] == s[0];
    assert DigitsValue(first) == DigitValue(s[0]);
  }

  lemma FourDigits(s: string)
    requires |s| == 4 && AllDigits(s)
    ensures DigitsValue(s) == DigitValue(s[0]) * 1000 + DigitValue(s[1]) * 100 + DigitValue(s[2]) * 10 + DigitValue(s[3])
  {
    assert s[..3][..2] == s[..2];
    TwoDigits(s[..2]);
  }

  /** The number of digits s starts with. */
  function LeadingDigits(s: string): (n: nat)
    ensures n <= |s| && AllDigits(s[..n])
    ensures n < |s| ==> !IsDigit(s[n])
  {
    if s == [] || !IsDigit(s[0]) then 0
    else
      var n := 1 + LeadingDigits(s[1..]);
      assert forall i :: 1 <= i < n ==> s[..n][i] == s[1..][..n - 1][i - 1];
      n
  }

  /**
   * An optional ":SS", then (after seconds only) an optional fraction of one to six
   * digits, which a whole-second timestamp drops: the seconds and what follows.
   */
  function SecondsPart(r: string): Option<(nat, string)> {
    if r == [] || r[0] != ':' then Some((0, r))
    else if |r| < 3 then None
    else
      match Number(r, 1, 3)
      case None => None
      case Some(sec) =>
        if sec > 59 then None
        else
          var after := r[3..];
          if after != [] && after[0] == '.' then
            var n := LeadingDigits(after[1..]);
            if 1 <= n <= 6 then Some((sec, after[1 + n..])) else None
          else Some((sec, after))
  }

  /** No zone (naive, read as UTC), "Z", or ±HH:MM / ±HHMM: the offset east of UTC in seconds. */
  function Offset(z: string): Option<int> {
    if z == [] || z == "Z" || z == "z" then Some(0)
    else if (z[0] == '+' || z[0] == '-') && ((|z| == 6 && z[3] == ':') || |z| == 5) then
      var h := Number(z, 1, 3);
      var m := if |z| == 6 then Number(z, 4, 6) else Number(z, 3, 5);
      if h.None? || m.None? || h.value > 23 || m.value > 59 then None
      else
        var o := h.value * 3600 + m.value * 60;
        Some(if z[0] == '-' then -o else o)
    else None
  }

  /** HH:MM[:SS[.f]][zone] as seconds after midnight UTC (negative or past a day when shifted). */
  function ParseTime(t: string): Option<int> {
    if |t| < 5 || t[2] != ':' then None
    else
      var h, mi := Number(t, 0, 2), Number(t, 3, 5);
      if h.None? || mi.None? || h.value > 23 || mi.value > 59 then None
      else
        match SecondsPart(t[5..])
        case None => None
        case Some((sec, zone)) =>
          match Offset(zone)
          case None => None
          case Some(offset) => Some(h.value * 3600 + mi.value * 60 + sec - offset)
  }

  /** The characters pydantic accepts between the date and the time. */
  predicate DateTimeSeparator(c: char) {
    c == 'T' || c == 't' || c == ' ' || c == '_'
  }

  /**
   * An ISO 8601 date `YYYY-MM-DD`, or a date-time `YYYY-MM-DD` then a separator then
   * a time: the Unix time in seconds it denotes.
   */
  function ParseIso(s: string): Option<int> {
    if |s| < 10 || s[4] != '-' || s[7] != '-' then None
    else
      var y, m, d := Number(s, 0, 4), Number(s, 5, 7), Number(s, 8, 10);
      if y.None? || m.None? || d.None? || !ValidDate(y.value, m.value, d.value) then None
      else
        var midnight := DaysFromCivil(y.value, m.value, d.value) * 86400;
        if |s| == 10 then Some(midnight)
        else if !DateTimeSeparator(s[10]) then None
        else
          match ParseTime(s[11..])
          case None => None
          case Some(t) => Some(midnight + t)
  }

  /** A number read as Unix time: seconds, or milliseconds once it is too large for seconds. */
  function UnixTime(n: int): int {
    if -20_000_000_000 <= n <= 20_000_000_000 then n else n / 1000
  }

  // ---------------------------------------------------------------- the conversion

  /**
   * The value a field of type t holds after validating the JSON value v, or None
   * when pydantic reports a type error. Null is handled by the field (Optional or
   * not), not here.
   */
  function Coerce(t: FieldType, v: Value): Option<Value> {
    match t
    case TStr => if v.Str? then Some(v) else None
    case TChoice(choices) => if v.Str? && v.s in choices then Some(v) else None
    case TInt =>
      (match v
       case Int(_) => Some(v)
       case Bool(b) => Some(Int(if b then 1 else 0))
       case Decimal(d, e) =>
         var r := Reduce(d, e);
         if r.exponent >= 0 then Some(Int(r.digits * Pow10(r.exponent))) else None
       case Str(s) => if ParseIntText(s).Some? then Some(Int(ParseIntText(s).value)) else None
       case _ => None)
    case TDecimal =>
      (match v
       case Decimal(d, e) => Some(Reduce(d, e))
       case Int(i) => Some(Reduce(i, 0))
       case Str(s) => ParseDecimal(s)
       case _ => None)
    case TBool =>
      (match v
       case Bool(_) => Some(v)
       case Int(i) => if i == 0 then Some(Bool(false)) else if i == 1 then Some(Bool(true)) else None
       case Decimal(d, e) =>
         var r := Reduce(d, e);
         if r == Decimal(0, 0) then Some(Bool(false)) else if r == Decimal(1, 0) then Some(Bool(true)) else None
       case Str(s) =>
         if Lower(s) in TrueWords then Some(Bool(true))
         else if Lower(s) in FalseWords then Some(Bool(false))
         else None
       case _ => None)
    case TDateTime =>
      (match v
       case DateTime(_) => Some(v)
       case Int(i) => Some(DateTime(UnixTime(i)))
       case Str(s) =>
         if ParseIso(s).Some? then Some(DateTime(ParseIso(s).value))
         else if ParseInt(s).Some? then Some(DateTime(UnixTime(ParseInt(s).value)))
         else None
       case _ => None)
  }

  /** A value of the field's own type, a Decimal in lowest terms. */
  predicate Typed(v: Value, t: FieldType) {
    HasType(v, t) && (v.Decimal? ==> Reduced(v))
  }

  // ---------------------------------------------------------------- lemmas

  /** What a field holds after conversion is of the field's type. */
  lemma CoerceTyped(t: FieldType, v: Value)
    requires Coerce(t, v).Some?
    ensures Typed(Coerce(t, v).value, t)
  {
  }

  /** A value already of the field's type passes through unchanged. */
  lemma CoerceKeepsTyped(t: FieldType, v: Value)
    requires Typed(v, t)
    ensures Coerce(t, v) == Some(v)
  {
    if t == TDecimal {
      ReduceReduced(v);
    }
  }

  /** Converting twice is converting once: a validated value validates to itself. */
  lemma CoerceIdempotent(t: FieldType, v: Value)
    requires Coerce(t, v).Some?
    ensures Coerce(t, Coerce(t, v).value) == Coerce(t, v)
  {
    CoerceTyped(t, v);
    CoerceKeepsTyped(t, Coerce(t, v).value);
  }

  /** Only strings fill a string field: no number or boolean is turned into text. */
  lemma StringFieldsTakeStrings(t: FieldType, v: Value)
    requires t == TStr || t.TChoice?
    ensures Coerce(t, v).Some? <==> v.Str? && (t.TChoice? ==> v.s in t.choices)
    ensures Coerce(t, v).Some? ==> Coerce(t, v) == Some(v)
  {
  }

  /** Digits alone split on '.' into one whole part and no fraction. */
  lemma DigitsHaveNoPoint(digits: string)
    requires AllDigits(digits)
    ensures Split(digits, '.') == [digits]
  {
    assert '.' !in digits by {
      forall i | 0 <= i < |digits| ensures digits[i] != '.' {
        assert IsDigit(digits[i]);
      }
    }
    SplitNoSep(digits, '.');
  }

  /** Unsigned digits read as a Decimal with exponent 0. */
  lemma DigitsDecimal(digits: string)
    requires digits != [] && AllDigits(digits)
    ensures ParseDecimal(digits) == Some(Reduce(DigitsValue(digits), 0))
  {
    assert IsDigit(digits[0]);
    DigitsHaveNoPoint(digits);
    assert digits + "" == digits;
  }

  /** The same digits after a minus sign read as the negated Decimal. */
  lemma NegativeDigitsDecimal(digits: string)
    requires digits != [] && AllDigits(digits)
    ensures ParseDecimal("-" + digits) == Some(Reduce(-(DigitsValue(digits) as int), 0))
  {
    var s := "-" + digits;
    assert s[0] == '-' && s[1..] == digits;
    DigitsHaveNoPoint(digits);
    assert digits + "" == digits;
  }

  /** The decimal text of an int reads as the Decimal of that int. */
  lemma IntTextDecimal(n: int)
    ensures ParseDecimal(IntToString(n)) == Some(Reduce(n, 0))
  {
    var m: nat := if n < 0 then -n else n;
    DigitsOfNat(m);
    if n < 0 {
      assert IntToString(n) == "-" + NatToString(m);
      NegativeDigitsDecimal(NatToString(m));
    } else {
      assert IntToString(n) == NatToString(m);
      DigitsDecimal(NatToString(m));
    }
  }

  /** The decimal text of an int converts to that int, and to the same number as a Decimal. */
  lemma IntStrings(n: int)
    ensures Coerce(TInt, Str(IntToString(n))) == Some(Int(n))
    ensures Coerce(TDecimal, Str(IntToString(n))) == Some(Reduce(n, 0))
    ensures Coerce(TDecimal, Str(IntToString(n))) == Coerce(TDecimal, Int(n))
  {
    ParseIntToString(n);
    IntTextDecimal(n);
  }

  /**
   * An int's text followed by '.' and zeros only fills an int field with that int;
   * with a digit other than zero after the point it is refused.
   */
  lemma ZeroFractionInts(n: int, zeros: string, fraction: string)
    requires forall i :: 0 <= i < |zeros| ==> zeros[i] == '0'
    requires AllDigits(fraction) && exists i :: 0 <= i < |fraction| && fraction[i] != '0'
    ensures Coerce(TInt, Str(IntToString(n) + "." + zeros)) == Some(Int(n))
    ensures Coerce(TInt, Str(IntToString(n) + "." + fraction)).None?
  {
    IntTextHasNoPoint(n);
    ParseIntToString(n);
    PointedText(IntToString(n), zeros);
    assert '.' !in fraction by {
      forall i | 0 <= i < |fraction| ensures fraction[i] != '.' {
        assert IsDigit(fraction[i]);
      }
    }
    PointedText(IntToString(n), fraction);
    var j :| 0 <= j < |fraction| && fraction[j] != '0';
    assert Split(IntToString(n) + "." + fraction, '.')[1][j] != '0';
  }

  /** A text with one '.' splits there, and `int` refuses it. */
  lemma PointedText(a: string, b: string)
    requires '.' !in a && '.' !in b
    ensures Split(a + "." + b, '.') == [a, b]
    ensures ParseInt(a + "." + b).None?
  {
    var s := a + "." + b;
    assert s == a + ['.'] + b;
    SplitAfterPart(a, b, '.');
    SplitNoSep(b, '.');
    assert s[|a|] == '.' && !IsDigit('.');
    if s[0] == '-' || s[0] == '+' {
      assert s[1..][|a| - 1] == '.';
    }
  }

  lemma IntTextHasNoPoint(n: int)
    ensures '.' !in IntToString(n)
  {
    var m := NatToString(Abs(n));
    assert '.' !in m by {
      forall i | 0 <= i < |m| ensures m[i] != '.' {
        assert IsDigit(m[i]);
      }
    }
    if n < 0 {
      assert IntToString(n) == "-" + m;
    } else {
      assert IntToString(n) == m;
    }
  }

  /** An integral Decimal fills an int field with the same number; a fractional one is refused. */
  lemma IntegralDecimals(d: int, e: int)
    ensures d != 0 && Reduce(d, e).exponent >= 0 ==>
      Coerce(TInt, Decimal(d, e)) == Some(Int(Reduce(d, e).digits * Pow10(Reduce(d, e).exponent)))
    ensures Reduce(d, e).exponent < 0 ==> Coerce(TInt, Decimal(d, e)).None?
    ensures Coerce(TInt, Decimal(d * 10, -1)) == Some(Int(d))
  {
    if d != 0 {
      var k := ReduceSameNumber(d * 10, -1);
      var j := ReduceSameNumber(d, 0);
      assert Reduce(d * 10, -1) == Reduce(d, 0);
      assert Reduce(d, 0).exponent == j;
    }
  }

  /** Boolean words are read case-insensitively; other strings are refused. */
  lemma BoolWords()
    ensures Coerce(TBool, Str("True")) == Some(Bool(true))
    ensures Coerce(TBool, Str("no")) == Some(Bool(false))
    ensures Coerce(TBool, Str("OFF")) == Some(Bool(false))
    ensures Coerce(TBool, Str("maybe")).None?
    ensures Coerce(TBool, Int(2)).None?
  {
    assert Lower("True") == "true";
    assert Lower("no") == "no";
    assert Lower("OFF") == "off";
    assert Lower("maybe") == "maybe";
  }

  /** Consecutive days of a month are consecutive day numbers. */
  lemma NextDay(y: int, m: int, d: int)
    requires 1 <= m <= 12
    ensures DaysFromCivil(y, m, d + 1) == DaysFromCivil(y, m, d) + 1
  {
  }

  /** Midnight: a date alone, or the same date at 00:00:00 UTC after any separator, is the same instant. */
  lemma MidnightIsTheDate(date: string)
    requires |date| == 10
    ensures ParseIso(date + "T00:00:00Z") == ParseIso(date)
    ensures ParseIso(date + " 00:00") == ParseIso(date)
    ensures ParseIso(date + "t00:00") == ParseIso(date) && ParseIso(date + "_00:00") == ParseIso(date)
  {
    ZeroTime();
    assert date + "T00:00:00Z" == date + ['T'] + "00:00:00Z";
    assert date + " 00:00" == date + [' '] + "00:00";
    assert date + "t00:00" == date + ['t'] + "00:00";
    assert date + "_00:00" == date + ['_'] + "00:00";
    DateWithTime(date, 'T', "00:00:00Z");
    DateWithTime(date, ' ', "00:00");
    DateWithTime(date, 't', "00:00");
    DateWithTime(date, '_', "00:00");
  }

  /** A date followed by a separator and a time of zero seconds is that date. */
  lemma DateWithTime(date: string, sep: char, time: string)
    requires |date| == 10 && DateTimeSeparator(sep) && ParseTime(time) == Some(0)
    ensures ParseIso(date + [sep] + time) == ParseIso(date)
  {
    var s := date + [sep] + time;
    assert s[0..4] == date[0..4] && s[5..7] == date[5..7] && s[8..10] == date[8..10];
    assert s[4] == date[4] && s[7] == date[7] && s[10] == sep;
    assert s[11..] == time;
  }

  lemma ZeroTime()
    ensures ParseTime("00:00:00Z") == Some(0)
    ensures ParseTime("00:00") == Some(0)
  {
    var t := "00:00:00Z";
    assert t[0..2] == "00" && t[3..5] == "00" && t[5..] == ":00Z";
    TwoDigits("00");
    var r := ":00Z";
    assert r[1..3] == "00" && r[3..] == "Z";
    assert SecondsPart(r) == Some((0, "Z"));
    assert "00:00"[0..2] == "00" && "00:00"[3..5] == "00" && "00:00"[5..] == "";
  }

  /** A zone offset moves the instant back by that much: 02:00 at +02:00 is midnight UTC. */
  lemma ZoneShift()
    ensures ParseTime("02:00+02:00") == Some(0)
    ensures ParseTime("23:30-0030") == Some(86400)
  {
    ShiftedTwo();
    ShiftedHalfHour();
  }

  lemma ShiftedTwo()
    ensures ParseTime("02:00+02:00") == Some(0)
  {
    TwoDigits("00");
    TwoDigits("02");
    ShiftedTwoParts();
    assert Offset("+02:00") == Some(7200);
  }

  lemma ShiftedTwoParts()
    ensures "02:00+02:00"[0..2] == "02" && "02:00+02:00"[3..5] == "00" && "02:00+02:00"[5..] == "+02:00"
    ensures "+02:00"[1..3] == "02" && "+02:00"[4..6] == "00"
  {
  }

  lemma ShiftedHalfHour()
    ensures ParseTime("23:30-0030") == Some(86400)
  {
    TwoDigits("00");
    TwoDigits("23");
    TwoDigits("30");
    HalfHourParts();
    assert Offset("-0030") == Some(-1800);
  }

  lemma HalfHourParts()
    ensures "23:30-0030"[0..2] == "23" && "23:30-0030"[3..5] == "30" && "23:30-0030"[5..] == "-0030"
    ensures "-0030"[1..3] == "00" && "-0030"[3..5] == "30"
  {
  }

  /** The Unix epoch is day zero. */
  lemma Epoch()
    ensures ParseIso("1970-01-01") == Some(0)
  {
    EpochParts();
    FourDigits("1970");
    TwoDigits("01");
    assert Number("1970-01-01", 0, 4) == Some(1970);
    assert Number("1970-01-01", 5, 7) == Some(1) && Number("1970-01-01", 8, 10) == Some(1);
    assert DaysFromCivil(1970, 1, 1) == 0;
  }

  /** February 29th is a date in a leap year only. */
  lemma LeapDay()
    ensures ParseIso("2023-02-29").None?
    ensures ParseIso("2024-02-29").Some?
  {
    LeapDayParts();
    FourDigits("2023");
    FourDigits("2024");
    TwoDigits("02");
    TwoDigits("29");
    assert !ValidDate(2023, 2, 29);
    assert ValidDate(2024, 2, 29);
  }

  lemma EpochParts()
    ensures "1970-01-01"[0..4] == "1970" && "1970-01-01"[5..7] == "01" && "1970-01-01"[8..10] == "01"
  {
  }

  lemma LeapDayParts()
    ensures "2023-02-29"[0..4] == "2023" && "2023-02-29"[5..7] == "02" && "2023-02-29"[8..10] == "29"
    ensures "2024-02-29"[0..4] == "2024" && "2024-02-29"[5..7] == "02" && "2024-02-29"[8..10] == "29"
  {
  }
}
