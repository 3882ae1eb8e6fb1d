/** UTC instants as Go formats them with time.RFC3339Nano: fixed-width fields, then the fraction of the
    second without trailing zeros and without its point when it is zero. internal/memory/sqlite.go stores
    and compares these texts. */
module Timestamps {
  import opened Text

  const SECOND: nat := 1_000_000_000

  datatype Instant = Instant(
    year: nat, month: nat, day: nat, hour: nat, minute: nat, second: nat, nano: nat)

  predicate Leap(y: nat) {
    y % 4 == 0 && (y % 100 != 0 || y % 400 == 0)
  }

  function DaysIn(y: nat, m: nat): nat {
    if m == 2 then (if Leap(y) then 29 else 28)
    else if m == 4 || m == 6 || m == 9 || m == 11 then 30
    else 31
  }

  /** A date RFC 3339 can write: four digits of year. */
  predicate Valid(t: Instant) {
    && t.year <= 9999 && 1 <= t.month <= 12 && 1 <= t.day <= DaysIn(t.year, t.month)
    && t.hour < 24 && t.minute < 60 && t.second < 60 && t.nano < SECOND
  }

  // ---------- position on the time line ----------

  function DaysBeforeYear(y: nat): nat {
    if y == 0 then 0 else DaysBeforeYear(y - 1) + if Leap(y - 1) then 366 else 365
  }

  function DaysBeforeMonth(y: nat, m: nat): nat
    requires 1 <= m
  {
    if m == 1 then 0 else DaysBeforeMonth(y, m - 1) + DaysIn(y, m - 1)
  }

  function DayNumber(t: Instant): nat
    requires Valid(t)
  {
    DaysBeforeYear(t.year) + DaysBeforeMonth(t.year, t.month) + (t.day - 1)
  }

  /** Whole seconds since the start of year 0. */
  function Seconds(t: Instant): nat
    requires Valid(t)
  {
    DayNumber(t) * 86400 + t.hour * 3600 + t.minute * 60 + t.second
  }

  function Nanos(t: Instant): nat
    requires Valid(t)
  {
    Seconds(t) * SECOND + t.nano
  }

  predicate SameSecond(t: Instant, u: Instant) {
    t == u.(nano := t.nano)
  }

  /** Fields compared from the year down, the whole-second part of the time order. */
  predicate SecondBefore(t: Instant, u: Instant) {
    t.year < u.year || (t.year == u.year && (t.month < u.month || (t.month == u.month && (t.day < u.day ||
    (t.day == u.day && ClockBefore(t, u))))))
  }

  predicate ClockBefore(t: Instant, u: Instant) {
    t.hour < u.hour || (t.hour == u.hour && (t.minute < u.minute || (t.minute == u.minute && t.second < u.second)))
  }

  lemma {:induction false} YearsAccumulate(y: nat, z: nat)
    requires y <= z
    ensures DaysBeforeYear(y) <= DaysBeforeYear(z)
    ensures y < z ==> DaysBeforeYear(y) + DaysBeforeMonth(y, 13) <= DaysBeforeYear(z)
    decreases z
  {
    YearLength(y);
    if y < z { YearsAccumulate(y, z - 1); }
  }

  lemma YearLength(y: nat)
    ensures DaysBeforeMonth(y, 13) == if Leap(y) then 366 else 365
  {
    assert DaysBeforeMonth(y, 3) == 31 + DaysIn(y, 2) by { assert DaysBeforeMonth(y, 2) == 31; }
    assert DaysBeforeMonth(y, 5) == DaysBeforeMonth(y, 3) + 61 by { assert DaysBeforeMonth(y, 4) == DaysBeforeMonth(y, 3) + 31; }
    assert DaysBeforeMonth(y, 7) == DaysBeforeMonth(y, 5) + 61 by { assert DaysBeforeMonth(y, 6) == DaysBeforeMonth(y, 5) + 31; }
    assert DaysBeforeMonth(y, 9) == DaysBeforeMonth(y, 7) + 62 by { assert DaysBeforeMonth(y, 8) == DaysBeforeMonth(y, 7) + 31; }
    assert DaysBeforeMonth(y, 11) == DaysBeforeMonth(y, 9) + 61 by { assert DaysBeforeMonth(y, 10) == DaysBeforeMonth(y, 9) + 30; }
    assert DaysBeforeMonth(y, 12) == DaysBeforeMonth(y, 11) + 30;
  }

  lemma {:induction false} MonthsAccumulate(y: nat, m: nat, n: nat)
    requires 1 <= m <= n
    ensures DaysBeforeMonth(y, m) <= DaysBeforeMonth(y, n)
    ensures m < n ==> DaysBeforeMonth(y, m) + DaysIn(y, m) <= DaysBeforeMonth(y, n)
    decreases n
  {
    if m < n { MonthsAccumulate(y, m, n - 1); }
  }

  lemma EarlierSecond(t: Instant, u: Instant)
    requires Valid(t) && Valid(u) && SecondBefore(t, u)
    ensures Seconds(t) < Seconds(u)
  {
    if t.year < u.year {
      YearsAccumulate(t.year, u.year);
      MonthsAccumulate(t.year, t.month, 13);
      assert DayNumber(t) < DayNumber(u);
    } else if t.month < u.month {
      MonthsAccumulate(t.year, t.month, u.month);
      assert DayNumber(t) < DayNumber(u);
    }
  }

  /** Comparing fields is comparing positions on the time line. */
  lemma SecondBeforeIsTimeOrder(t: Instant, u: Instant)
    requires Valid(t) && Valid(u)
    ensures SecondBefore(t, u) <==> Seconds(t) < Seconds(u)
    ensures SameSecond(t, u) <==> Seconds(t) == Seconds(u)
  {
    if SecondBefore(t, u) {
      EarlierSecond(t, u);
    } else if SecondBefore(u, t) {
      EarlierSecond(u, t);
    }
  }

  // ---------- the text ----------

  function Digit(d: nat): char
    requires d < 10
  {
    '0' + d as char
  }

  function Pow10(w: nat): (p: nat)
    ensures p > 0
  {
    if w == 0 then 1 else 10 * Pow10(w - 1)
  }

  /** n in exactly w decimal digits. */
  function Digits(n: nat, w: nat): (s: string)
    ensures |s| == w
    ensures forall i :: 0 <= i < w ==> '0' <= s[i] <= '9'
  {
    if w == 0 then "" else Digits(n / 10, w - 1) + [Digit(n % 10)]
  }

  lemma {:induction false} DigitsOrder(m: nat, n: nat, w: nat)
    requires m < Pow10(w) && n < Pow10(w)
    ensures Less(Digits(m, w), Digits(n, w)) <==> m < n
    ensures Digits(m, w) == Digits(n, w) <==> m == n
  {
    if w > 0 {
      var p, q, d, e := Digits(m / 10, w - 1), Digits(n / 10, w - 1), [Digit(m % 10)], [Digit(n % 10)];
      assert m < 10 * Pow10(w - 1) && n < 10 * Pow10(w - 1);
      DigitsOrder(m / 10, n / 10, w - 1);
      LessJoin(p, q, d, e);
      assert Digits(m, w) == p + d && Digits(n, w) == q + e;
      assert Digits(m, w) == Digits(n, w) ==> p == q && d == e by {
        assert (p + d)[..w - 1] == p && (q + e)[..w - 1] == q && (p + d)[w - 1..] == d && (q + e)[w - 1..] == e;
      }
    }
  }

  /** Texts with heads of the same width compare by the heads, then by the rest. */
  lemma LessJoin(p: string, q: string, s: string, t: string)
    requires |p| == |q|
    ensures Less(p + s, q + t) <==> Less(p, q) || (p == q && Less(s, t))
    ensures p + s == q + t <==> p == q && s == t
  {
    if p == q {
      LessAppend(p, s, t);
      LessIrreflexive(p);
      assert (p + s)[|p|..] == s && (p + t)[|p|..] == t;
    } else {
      LessByHead(p, q, s, t);
      assert (p + s)[..|p|] == p && (q + t)[..|p|] == q;
    }
  }

  function TrimZeros(s: string): (r: string)
    ensures r <= s
    ensures r != "" ==> r[|r| - 1] != '0'
    ensures forall i :: |r| <= i < |s| ==> s[i] == '0'
  {
    if s != "" && s[|s| - 1] == '0' then TrimZeros(s[..|s| - 1]) else s
  }

  /** The fraction of the second, nine digits without trailing zeros. */
  function Fraction(t: Instant): string {
    TrimZeros(Digits(t.nano, 9))
  }

  /** What follows the seconds. */
  function Tail(f: string): string {
    if f == "" then "Z" else "." + f + "Z"
  }

  function Clock(t: Instant): string {
    "T" + (Digits(t.hour, 2) + (":" + (Digits(t.minute, 2) + (":" + Digits(t.second, 2)))))
  }

  function Whole(t: Instant): string {
    Digits(t.year, 4) + ("-" + (Digits(t.month, 2) + ("-" + (Digits(t.day, 2) + Clock(t)))))
  }

  /** Time.Format(time.RFC3339Nano) for a UTC time. */
  function Format(t: Instant): string {
    Whole(t) + Tail(Fraction(t))
  }

  lemma PowersOfTen()
    ensures Pow10(2) == 100 && Pow10(4) == 10000 && Pow10(9) == SECOND
  {
    assert Pow10(5) == 100000;
    assert Pow10(7) == 10000000;
  }

  lemma FieldJoin(m: nat, n: nat, sep: string, s: string, t: string)
    requires m < 100 && n < 100
    ensures Less(sep + (Digits(m, 2) + s), sep + (Digits(n, 2) + t)) <==> m < n || (m == n && Less(s, t))
    ensures sep + (Digits(m, 2) + s) == sep + (Digits(n, 2) + t) <==> m == n && s == t
  {
    PowersOfTen();
    DigitsOrder(m, n, 2);
    LessJoin(Digits(m, 2), Digits(n, 2), s, t);
    LessJoin(sep, sep, Digits(m, 2) + s, Digits(n, 2) + t);
    LessIrreflexive(sep);
  }

  lemma LastFieldJoin(m: nat, n: nat)
    requires m < 100 && n < 100
    ensures Less(":" + Digits(m, 2), ":" + Digits(n, 2)) <==> m < n
    ensures ":" + Digits(m, 2) == ":" + Digits(n, 2) <==> m == n
  {
    FieldJoin(m, n, ":", "", "");
    assert Digits(m, 2) + "" == Digits(m, 2) && Digits(n, 2) + "" == Digits(n, 2);
  }

  lemma ClockOrder(t: Instant, u: Instant)
    requires Valid(t) && Valid(u)
    ensures Less(Clock(t), Clock(u)) <==> ClockBefore(t, u)
    ensures Clock(t) == Clock(u) <==> t.hour == u.hour && t.minute == u.minute && t.second == u.second
    ensures |Clock(t)| == 9
  {
    var s2, u2 := ":" + Digits(t.second, 2), ":" + Digits(u.second, 2);
    LastFieldJoin(t.second, u.second);
    FieldJoin(t.minute, u.minute, ":", s2, u2);
    FieldJoin(t.hour, u.hour, "T", ":" + (Digits(t.minute, 2) + s2), ":" + (Digits(u.minute, 2) + u2));
  }

  /** The whole-second texts compare like the times. */
  lemma WholeOrder(t: Instant, u: Instant)
    requires Valid(t) && Valid(u)
    ensures Less(Whole(t), Whole(u)) <==> SecondBefore(t, u)
    ensures Whole(t) == Whole(u) <==> SameSecond(t, u)
    ensures |Whole(t)| == 19
  {
    PowersOfTen();
    var s2, u2 := "-" + (Digits(t.day, 2) + Clock(t)), "-" + (Digits(u.day, 2) + Clock(u));
    var s1, u1 := "-" + (Digits(t.month, 2) + s2), "-" + (Digits(u.month, 2) + u2);
    ClockOrder(t, u);
    FieldJoin(t.day, u.day, "-", Clock(t), Clock(u));
    FieldJoin(t.month, u.month, "-", s2, u2);
    DigitsOrder(t.year, u.year, 4);
    LessJoin(Digits(t.year, 4), Digits(u.year, 4), s1, u1);
  }

  predicate ProperPrefix(f: string, g: string) {
    f < g
  }

  predicate AllDigits(f: string) {
    forall i :: 0 <= i < |f| ==> '0' <= f[i] <= '9'
  }

  /** Dropping trailing zeros does not change how two nine-digit fractions compare. */
  lemma {:induction false} TrimmedOrder(f: string, g: string, p: string, q: string)
    requires |p| == |q| && f <= p && g <= q && AllDigits(p) && AllDigits(q)
    requires forall i :: |f| <= i < |p| ==> p[i] == '0'
    requires forall i :: |g| <= i < |q| ==> q[i] == '0'
    requires (f != "" ==> f[|f| - 1] != '0') && (g != "" ==> g[|g| - 1] != '0')
    ensures Less(f, g) <==> Less(p, q)
    ensures f == g <==> p == q
    decreases |p|
  {
    if f == "" && g == "" {
      assert p == q;
      LessIrreflexive(p);
    } else if f == "" {
      ZerosFirst(p, q, |g| - 1);
    } else if g == "" {
      ZerosFirst(q, p, |f| - 1);
      LessAsymmetric(q, p);
    } else if f[0] == g[0] {
      assert p[0] == f[0] && q[0] == g[0];
      TrimmedOrder(f[1..], g[1..], p[1..], q[1..]);
      assert p == [p[0]] + p[1..] && q == [q[0]] + q[1..] && f == [f[0]] + f[1..] && g == [g[0]] + g[1..];
    } else {
      assert p[0] == f[0] && q[0] == g[0];
    }
  }

  lemma {:induction false} ZerosFirst(p: string, q: string, k: nat)
    requires |p| == |q| && k < |q| && AllDigits(q) && q[k] != '0'
    requires forall i :: 0 <= i < |p| ==> p[i] == '0'
    ensures Less(p, q)
    decreases |p|
  {
    assert '0' <= q[0] && p[0] == '0';
    if q[0] == '0' { ZerosFirst(p[1..], q[1..], k - 1); }
  }

  lemma LessAsymmetric(s: string, t: string)
    requires Less(s, t)
    ensures !Less(t, s) && s != t
  {
    LessIrreflexive(s);
    if Less(t, s) { LessTransitive(s, t, s); }
  }

  /** The part after the seconds compares like the fractions, except that a proper prefix comes last. */
  lemma TailOrder(f: string, g: string)
    requires AllDigits(f) && AllDigits(g)
    ensures Less(Tail(f), Tail(g)) <==> f != g && (if f <= g then false else if g <= f then true else Less(f, g))
  {
    if f == g {
      LessIrreflexive(Tail(f));
    } else if f != "" && g != "" {
      assert Tail(f) == "." + (f + "Z") && Tail(g) == "." + (g + "Z");
      LessAppend(".", f + "Z", g + "Z");
      DigitsThenZ(f, g);
    }
  }

  lemma {:induction false} DigitsThenZ(f: string, g: string)
    requires f != g && AllDigits(f) && AllDigits(g)
    ensures Less(f + "Z", g + "Z") <==> (if f <= g then false else if g <= f then true else Less(f, g))
  {
    if f != "" && g != "" {
      assert (f + "Z")[1..] == f[1..] + "Z" && (g + "Z")[1..] == g[1..] + "Z";
      assert f == [f[0]] + f[1..] && g == [g[0]] + g[1..];
      if f[0] == g[0] {
        DigitsThenZ(f[1..], g[1..]);
        assert (f <= g <==> f[1..] <= g[1..]) && (g <= f <==> g[1..] <= f[1..]);
      }
    }
  }

  /** Same second, and one zero-trimmed fraction a proper prefix of the other. */
  predicate Clash(t: Instant, u: Instant) {
    SameSecond(t, u) && (ProperPrefix(Fraction(t), Fraction(u)) || ProperPrefix(Fraction(u), Fraction(t)))
  }

  lemma FractionOrder(t: Instant, u: Instant)
    requires Valid(t) && Valid(u)
    ensures AllDigits(Fraction(t)) && AllDigits(Fraction(u))
    ensures Less(Fraction(t), Fraction(u)) <==> t.nano < u.nano
    ensures Fraction(t) == Fraction(u) <==> t.nano == u.nano
  {
    PowersOfTen();
    DigitsOrder(t.nano, u.nano, 9);
    TrimmedOrder(Fraction(t), Fraction(u), Digits(t.nano, 9), Digits(u.nano, 9));
  }

  lemma {:induction false} PrefixLess(f: string, g: string)
    requires f < g
    ensures Less(f, g) && !Less(g, f)
  {
    if f != "" {
      assert f[0] == g[0] && f[1..] < g[1..];
      PrefixLess(f[1..], g[1..]);
    }
  }

  /** The texts of two different instants are in the order of the times unless they clash, and then they
      are in the opposite order. Section 5.1 of RFC 3339 asks for equal numbers of fraction digits. */
  lemma TextOrder(t: Instant, u: Instant)
    requires Valid(t) && Valid(u)
    ensures Less(Format(t), Format(u)) <==> if Clash(t, u) then Nanos(u) < Nanos(t) else Nanos(t) < Nanos(u)
    ensures Format(t) == Format(u) <==> t == u
  {
    WholeOrder(t, u);
    WholeOrder(u, t);
    SecondBeforeIsTimeOrder(t, u);
    LessJoin(Whole(t), Whole(u), Tail(Fraction(t)), Tail(Fraction(u)));
    if SameSecond(t, u) {
      var f, g := Fraction(t), Fraction(u);
      FractionOrder(t, u);
      TailOrder(f, g);
      LessIrreflexive(Whole(t));
      if f < g { PrefixLess(f, g); }
      if g < f { PrefixLess(g, f); }
      TailInjective(f, g);
    }
  }

  lemma TailInjective(f: string, g: string)
    ensures Tail(f) == Tail(g) <==> f == g
  {
    if f != "" && g != "" && Tail(f) == Tail(g) {
      assert f == Tail(f)[1..|Tail(f)| - 1] && g == Tail(g)[1..|Tail(g)| - 1];
    }
  }

  /** Clashing instants lie in the same second. */
  lemma ClashIsWithinASecond(t: Instant, u: Instant)
    requires Valid(t) && Valid(u) && SameSecond(t, u)
    ensures Nanos(t) < Nanos(u) + SECOND && Nanos(u) < Nanos(t) + SECOND
  {
    SecondBeforeIsTimeOrder(t, u);
  }

  // ---------- between nanoseconds and texts ----------

  const DAY: nat := 86400

  /** The year that day d falls in, counted from the start of year y, and the day within it. */
  function YearOf(d: nat, y: nat): (nat, nat) {
    var len := if Leap(y) then 366 else 365;
    if d < len then (y, d) else YearOf(d - len, y + 1)
  }

  function MonthOf(d: nat, y: nat, m: nat): (nat, nat)
    requires 1 <= m
    decreases d
  {
    if m >= 12 || d < DaysIn(y, m) then (m, d) else MonthOf(d - DaysIn(y, m), y, m + 1)
  }

  function FromNanos(n: nat): Instant {
    var s := n / SECOND;
    var (y, dayOfYear) := YearOf(s / DAY, 0);
    var (m, d) := MonthOf(dayOfYear, y, 1);
    Instant(y, m, d + 1, s % DAY / 3600, s % DAY % 3600 / 60, s % DAY % 60, n % SECOND)
  }

  /** Nanosecond counts whose year has four digits. */
  predicate InRange(n: int) {
    0 <= n && FromNanos(n).year <= 9999
  }

  lemma {:induction false} YearOfCorrect(d: nat, y: nat)
    ensures var (z, r) := YearOf(d, y);
            y <= z && DaysBeforeYear(z) + r == DaysBeforeYear(y) + d && r < DaysBeforeMonth(z, 13)
    decreases d
  {
    YearLength(y);
    var len := if Leap(y) then 366 else 365;
    if d >= len { YearOfCorrect(d - len, y + 1); }
  }

  lemma {:induction false} MonthOfCorrect(d: nat, y: nat, m: nat)
    requires 1 <= m <= 12 && DaysBeforeMonth(y, m) + d < DaysBeforeMonth(y, 13)
    ensures var (n, r) := MonthOf(d, y, m);
            m <= n <= 12 && r < DaysIn(y, n) && DaysBeforeMonth(y, n) + r == DaysBeforeMonth(y, m) + d
    decreases 12 - m
  {
    if m < 12 && d >= DaysIn(y, m) { MonthOfCorrect(d - DaysIn(y, m), y, m + 1); }
  }

  /** Every nanosecond count in range is the position of exactly the date FromNanos gives. */
  lemma FromNanosCorrect(n: nat)
    requires InRange(n)
    ensures Valid(FromNanos(n)) && Nanos(FromNanos(n)) == n
  {
    var s := n / SECOND;
    var d, t := s / DAY, FromNanos(n);
    YearOfCorrect(d, 0);
    var (y, r) := YearOf(d, 0);
    MonthOfCorrect(r, y, 1);
    var (m, q) := MonthOf(r, y, 1);
    assert t.year == y && t.month == m && t.day == q + 1;
    assert DayNumber(t) == d;
    assert s == d * DAY + s % DAY && n == s * SECOND + n % SECOND;
    assert t.hour * 3600 + t.minute * 60 + t.second == s % DAY by { ClockSplit(s % DAY); }
  }

  lemma ClockSplit(c: nat)
    requires c < DAY
    ensures c / 3600 < 24 && c % 3600 / 60 < 60 && c / 3600 * 3600 + c % 3600 / 60 * 60 + c % 60 == c
  {
    var h, r := c / 3600, c % 3600;
    assert c == h * 3600 + r && r == r / 60 * 60 + r % 60;
    assert c % 60 == r % 60 by { assert c == 60 * (h * 60 + r / 60) + r % 60; }
  }

  function Value(s: string): nat
    requires AllDigits(s)
  {
    if s == "" then 0 else 10 * Value(s[..|s| - 1]) + (s[|s| - 1] - '0') as nat
  }

  lemma {:induction false} ValueOfDigits(n: nat, w: nat)
    requires n < Pow10(w)
    ensures Value(Digits(n, w)) == n
  {
    if w > 0 {
      var s := Digits(n, w);
      assert s[..w - 1] == Digits(n / 10, w - 1) && s[w - 1] == Digit(n % 10);
      ValueOfDigits(n / 10, w - 1);
    }
  }

  function Zeros(w: nat): (s: string)
    ensures |s| == w && forall i :: 0 <= i < w ==> s[i] == '0'
  {
    seq(w, i => '0')
  }

  /** A run of digits inside a text, or zero where the text has something else. */
  function Field(s: string, from: nat, to: nat): nat {
    if from <= to <= |s| && AllDigits(s[from..to]) then Value(s[from..to]) else 0
  }

  function FractionField(s: string): nat {
    if |s| <= 20 then 0
    else
      var f := s[20..|s| - 1];
      if |f| > 9 || !AllDigits(f) then 0 else Value(f + Zeros(9 - |f|))
  }

  /** time.Parse of such a text. */
  function Parse(s: string): Instant {
    Instant(Field(s, 0, 4), Field(s, 5, 7), Field(s, 8, 10), Field(s, 11, 13), Field(s, 14, 16), Field(s, 17, 19),
            FractionField(s))
  }

  lemma FieldOf(s: string, from: nat, n: nat, w: nat)
    requires n < Pow10(w) && from + w <= |s| && s[from..from + w] == Digits(n, w)
    ensures Field(s, from, from + w) == n
  {
    ValueOfDigits(n, w);
  }

  lemma ClockLayout(t: Instant)
    ensures var c := Clock(t);
            |c| == 9 && c[1..3] == Digits(t.hour, 2) && c[4..6] == Digits(t.minute, 2) && c[7..9] == Digits(t.second, 2)
  {
    var c := Clock(t);
    assert c[3..] == ":" + (Digits(t.minute, 2) + (":" + Digits(t.second, 2)));
    assert c[6..] == ":" + Digits(t.second, 2);
  }

  lemma WholeLayout(t: Instant)
    ensures var s := Whole(t);
            && |s| == 19 && s[0..4] == Digits(t.year, 4) && s[5..7] == Digits(t.month, 2)
            && s[8..10] == Digits(t.day, 2) && s[10..] == Clock(t)
  {
    ClockLayout(t);
    var s := Whole(t);
    assert s[4..] == "-" + (Digits(t.month, 2) + ("-" + (Digits(t.day, 2) + Clock(t))));
    assert s[7..] == "-" + (Digits(t.day, 2) + Clock(t));
  }

  lemma SliceOfHead(s: string, w: string, i: nat, j: nat)
    requires w <= s && i <= j <= |w|
    ensures s[i..j] == w[i..j]
  {
  }

  lemma DateOf(t: Instant, s: string)
    requires Valid(t) && Whole(t) <= s
    ensures |s| >= 19 && Field(s, 0, 4) == t.year && Field(s, 5, 7) == t.month && Field(s, 8, 10) == t.day
  {
    PowersOfTen();
    WholeLayout(t);
    var w := Whole(t);
    SliceOfHead(s, w, 0, 4);
    SliceOfHead(s, w, 5, 7);
    SliceOfHead(s, w, 8, 10);
    FieldOf(s, 0, t.year, 4);
    FieldOf(s, 5, t.month, 2);
    FieldOf(s, 8, t.day, 2);
  }

  lemma TimeOfDayOf(t: Instant, s: string)
    requires Valid(t) && Whole(t) <= s
    ensures |s| >= 19 && Field(s, 11, 13) == t.hour && Field(s, 14, 16) == t.minute && Field(s, 17, 19) == t.second
  {
    PowersOfTen();
    WholeLayout(t);
    ClockLayout(t);
    var w, c := Whole(t), Clock(t);
    SliceOfHead(s, w, 11, 13);
    SliceOfHead(s, w, 14, 16);
    SliceOfHead(s, w, 17, 19);
    assert w[11..13] == c[1..3] && w[14..16] == c[4..6] && w[17..19] == c[7..9];
    FieldOf(s, 11, t.hour, 2);
    FieldOf(s, 14, t.minute, 2);
    FieldOf(s, 17, t.second, 2);
  }

  /** Parsing undoes formatting. */
  lemma ParseFormat(t: Instant)
    requires Valid(t)
    ensures Parse(Format(t)) == t
  {
    DateOf(t, Format(t));
    TimeOfDayOf(t, Format(t));
    FractionFieldOf(t);
  }

  lemma PaddedFraction(t: Instant)
    requires Valid(t)
    ensures var f := Fraction(t);
            |f| <= 9 && AllDigits(f) && AllDigits(f + Zeros(9 - |f|)) && Value(f + Zeros(9 - |f|)) == t.nano
    ensures Fraction(t) == "" ==> t.nano == 0
  {
    PowersOfTen();
    ValueOfDigits(t.nano, 9);
    PaddedTrim(Digits(t.nano, 9));
  }

  lemma PaddedTrim(p: string)
    requires AllDigits(p)
    ensures var f := TrimZeros(p);
            |f| <= |p| && AllDigits(f) && f + Zeros(|p| - |f|) == p && (f == "" ==> Value(p) == 0)
  {
    assert TrimZeros(p) + Zeros(|p| - |TrimZeros(p)|) == p;
    if TrimZeros(p) == "" {
      assert p == Zeros(|p|);
      ValueOfZeros(|p|);
    }
  }

  lemma MiddleOf(w: string, f: string, s: string)
    requires |w| == 19 && s == w + Tail(f)
    ensures f == "" ==> |s| == 20
    ensures f != "" ==> |s| == 21 + |f| && s[20..|s| - 1] == f
  {
  }

  lemma FractionFieldOf(t: Instant)
    requires Valid(t)
    ensures FractionField(Format(t)) == t.nano
  {
    WholeLayout(t);
    PaddedFraction(t);
    MiddleOf(Whole(t), Fraction(t), Format(t));
  }

  lemma {:induction false} ValueOfZeros(w: nat)
    ensures Value(Zeros(w)) == 0
  {
    if w > 0 {
      assert Zeros(w)[..w - 1] == Zeros(w - 1);
      ValueOfZeros(w - 1);
    }
  }

  // ---------- the calendar and the layout, spelled out ----------

  /** Gregorian years: 365 days, and one more for every fourth year but centuries that 400 does not divide. */
  lemma {:induction false} YearsInClosedForm(y: nat)
    ensures DaysBeforeYear(y) == 365 * y + (y + 3) / 4 - (y + 99) / 100 + (y + 399) / 400
  {
    if y > 0 {
      YearsInClosedForm(y - 1);
      LeapStep(y - 1);
    }
  }

  lemma LeapStep(y: nat)
    ensures ((y + 4) / 4 - (y + 100) / 100 + (y + 400) / 400) - ((y + 3) / 4 - (y + 99) / 100 + (y + 399) / 400) ==
            if Leap(y) then 1 else 0
  {
    EveryFourth(y);
    EveryHundredth(y);
    EveryFourHundredth(y);
    CenturiesAreFourths(y);
  }

  lemma CenturiesAreFourths(y: nat)
    ensures (y % 100 == 0 ==> y % 4 == 0) && (y % 400 == 0 ==> y % 100 == 0)
  {
    if y % 100 == 0 { FourTimes(25 * (y / 100)); }
    if y % 400 == 0 { HundredTimes(4 * (y / 400)); }
  }

  lemma FourTimes(r: nat)
    ensures (4 * r) % 4 == 0
  {
  }

  lemma HundredTimes(r: nat)
    ensures (100 * r) % 100 == 0
  {
  }

  lemma EveryFourth(y: nat)
    ensures (y + 4) / 4 == (y + 3) / 4 + if y % 4 == 0 then 1 else 0
  {
  }

  lemma EveryHundredth(y: nat)
    ensures (y + 100) / 100 == (y + 99) / 100 + if y % 100 == 0 then 1 else 0
  {
  }

  lemma EveryFourHundredth(y: nat)
    ensures (y + 400) / 400 == (y + 399) / 400 + if y % 400 == 0 then 1 else 0
  {
  }

  /** The days of a common year before each month. */
  const BEFORE_MONTH := [0, 31, 59, 90, 120, 151, 181, 212, 243, 273, 304, 334, 365]

  lemma {:induction false} MonthTable(y: nat, m: nat)
    requires 1 <= m <= 13
    ensures DaysBeforeMonth(y, m) == BEFORE_MONTH[m - 1] + if m > 2 && DaysBeforeYear(y + 1) == DaysBeforeYear(y) + 366 then 1 else 0
  {
    if m > 1 { MonthTable(y, m - 1); }
  }

  /** The Unix epoch, the base of Go's clock. */
  lemma Epoch(y: nat)
    requires y == 1970
    ensures var t := Instant(y, 1, 1, 0, 0, 0, 0); Valid(t) && Seconds(t) == 719528 * 86400
  {
    YearsInClosedForm(y);
  }

  /** The layout of section 5.6 of RFC 3339: the separators, the fields in their places, and a fraction without
      trailing zeros exactly when there is one. */
  lemma TextLayout(t: Instant)
    requires Valid(t)
    ensures var s := Format(t);
            && |s| >= 20 && s[4] == '-' && s[7] == '-' && s[10] == 'T' && s[13] == ':' && s[16] == ':' && s[|s| - 1] == 'Z'
            && (|s| == 20 <==> t.nano == 0) && (|s| > 20 ==> s[19] == '.' && s[|s| - 2] != '0' && |s| <= 30)
            && Field(s, 0, 4) == t.year && Field(s, 5, 7) == t.month && Field(s, 8, 10) == t.day
            && Field(s, 11, 13) == t.hour && Field(s, 14, 16) == t.minute && Field(s, 17, 19) == t.second
  {
    var s, w := Format(t), Whole(t);
    DateOf(t, s);
    TimeOfDayOf(t, s);
    Separators(t);
    assert forall k :: 0 <= k < 19 ==> s[k] == w[k];
    PaddedFraction(t);
    if t.nano == 0 { NoFraction(t); }
  }

  lemma NoFraction(t: Instant)
    requires t.nano == 0
    ensures Fraction(t) == ""
  {
    ZeroDigits(9);
    TrimAllZeros(Digits(0, 9));
  }

  lemma {:induction false} TrimAllZeros(s: string)
    requires forall k :: 0 <= k < |s| ==> s[k] == '0'
    ensures TrimZeros(s) == ""
  {
    if s != "" { TrimAllZeros(s[..|s| - 1]); }
  }

  lemma {:induction false} ZeroDigits(w: nat)
    ensures forall k :: 0 <= k < w ==> Digits(0, w)[k] == '0'
  {
    if w > 0 { ZeroDigits(w - 1); }
  }

  lemma Separators(t: Instant)
    ensures var w := Whole(t); |w| == 19 && w[4] == '-' && w[7] == '-' && w[10] == 'T' && w[13] == ':' && w[16] == ':'
  {
    WholeLayout(t);
    ClockLayout(t);
    var w, c := Whole(t), Clock(t);
    assert w[4..] == "-" + (Digits(t.month, 2) + ("-" + (Digits(t.day, 2) + c)));
    assert w[7..] == "-" + (Digits(t.day, 2) + c);
    assert c[3..] == ":" + (Digits(t.minute, 2) + (":" + Digits(t.second, 2)));
    assert c[6..] == ":" + Digits(t.second, 2);
    assert w[10] == c[0] && w[13] == c[3] && w[16] == c[6];
  }

  // ---------- texts of nanosecond counts ----------

  function TextOf(n: nat): string {
    Format(FromNanos(n))
  }

  function TimeOf(s: string): nat {
    if Valid(Parse(s)) then Nanos(Parse(s)) else 0
  }

  lemma TimeOfText(n: nat)
    requires InRange(n)
    ensures TimeOf(TextOf(n)) == n
  {
    FromNanosCorrect(n);
    ParseFormat(FromNanos(n));
  }

  /** SQL's `expires_at <= now` on the stored texts. */
  predicate TextAtMost(a: nat, b: nat) {
    !Less(TextOf(b), TextOf(a))
  }

  /** DeleteExpired's comparison is right exactly when the two instants do not clash. */
  lemma TextComparisonRightIffNoClash(expires: nat, now: nat)
    requires InRange(expires) && InRange(now)
    ensures (TextAtMost(expires, now) <==> expires <= now) <==> !Clash(FromNanos(expires), FromNanos(now))
  {
    FromNanosCorrect(expires);
    FromNanosCorrect(now);
    var e, n := FromNanos(expires), FromNanos(now);
    TextOrder(n, e);
    if Clash(e, n) { assert e != n; FractionOrder(e, n); }
  }

  /** It deletes every row expired for a second or more and none with a second or more to live. */
  lemma TextComparisonWithinASecond(expires: nat, now: nat)
    requires InRange(expires) && InRange(now)
    ensures expires + SECOND <= now ==> TextAtMost(expires, now)
    ensures now + SECOND <= expires ==> !TextAtMost(expires, now)
  {
    FromNanosCorrect(expires);
    FromNanosCorrect(now);
    TextComparisonRightIffNoClash(expires, now);
    if SameSecond(FromNanos(expires), FromNanos(now)) {
      ClashIsWithinASecond(FromNanos(expires), FromNanos(now));
    }
  }

  /** A row with 10 ms to live that is deleted: it expires at .51 and the clock shows .5. */
  lemma EarlyDeletion(t: Instant)
    requires Valid(t) && t.nano == 510_000_000
    ensures var now := t.(nano := 500_000_000);
            Nanos(now) < Nanos(t) && Less(Format(t), Format(now))
  {
    var now := t.(nano := 500_000_000);
    assert Nanos(now) < Nanos(t) by { assert Seconds(now) == Seconds(t); }
    assert Clash(t, now) by { TrimmedHundredths(); }
    TextOrder(t, now);
  }

  lemma TenTimes(n: nat, p: nat)
    ensures n * (10 * p) == 10 * (n * p)
    ensures (10 * (n * p)) / 10 == n * p && (10 * (n * p)) % 10 == 0
  {
    var q := n * p;
    assert n * (10 * p) == 10 * q;
  }

  lemma {:induction false} AppendZeros(n: nat, w: nat, k: nat)
    ensures Digits(n * Pow10(k), w + k) == Digits(n, w) + Zeros(k)
  {
    if k == 0 {
      assert Digits(n, w) + Zeros(0) == Digits(n, w);
    } else {
      TenTimes(n, Pow10(k - 1));
      AppendZeros(n, w, k - 1);
      assert Zeros(k) == Zeros(k - 1) + "0";
    }
  }

  lemma {:induction false} TrimAppendedZeros(s: string, k: nat)
    requires s != "" && s[|s| - 1] != '0'
    ensures TrimZeros(s + Zeros(k)) == s
  {
    if k == 0 {
      assert s + Zeros(0) == s;
    } else {
      assert (s + Zeros(k))[..|s| + k - 1] == s + Zeros(k - 1);
      TrimAppendedZeros(s, k - 1);
    }
  }

  /** Trailing zeros of a fraction do not survive trimming. */
  lemma TrimScaled(n: nat, w: nat, k: nat, m: nat)
    requires w > 0 && n % 10 != 0 && m == n * Pow10(k)
    ensures TrimZeros(Digits(m, w + k)) == Digits(n, w)
  {
    AppendZeros(n, w, k);
    TrimAppendedZeros(Digits(n, w), k);
  }

  lemma LargePowers()
    ensures Pow10(7) == 10_000_000 && Pow10(8) == 100_000_000
  {
    assert Pow10(4) == 10000;
  }

  lemma TrimmedHundredths()
    ensures TrimZeros(Digits(500_000_000, 9)) == "5" && TrimZeros(Digits(510_000_000, 9)) == "51"
  {
    LargePowers();
    TrimScaled(5, 1, 8, 500_000_000);
    TrimScaled(51, 2, 7, 510_000_000);
    assert Digits(5, 1) == "5";
    assert Digits(51, 2) == "51";
  }
}
