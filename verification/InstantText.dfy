/** The text of a moment as Go writes it and reads it back (`Instant.String`, `dateText`,
    `civilFields`, `clockOfText` and `instantOfText` in bindings/go/runtime/temporal.go). */
module InstantText {
  import opened Options
  import opened Text
  import opened Calendar

  datatype Instant = Instant(second: int, nano: int)

  predicate IsMoment(i: Instant) {
    FIRST_SECOND <= i.second <= LAST_SECOND && 0 <= i.nano < 1_000_000_000
  }

  // ----- writing -----

  function Zeros(n: nat): string {
    seq(n, _ => '0')
  }

  /** A number with noughts before it to a width. */
  function Wide(n: nat, width: nat): string {
    (if |Numeral(n)| < width then Zeros(width - |Numeral(n)|) else "") + Numeral(n)
  }

  function Magnitude(n: int): nat {
    if n < 0 then -n else n
  }

  /** The year padded to width four, with `+` or `-` where it is outside `0..9999`; month and day of width
      two. */
  function DateText(c: Civil): string
    requires c.month >= 0 && c.day >= 0
  {
    var sign := if c.year < 0 then "-" else if c.year > 9999 then "+" else "";
    sign + DateBody(c)
  }

  function DateBody(c: Civil): string
    requires c.month >= 0 && c.day >= 0
  {
    Wide(Magnitude(c.year), 4) + ("-" + (Wide(c.month, 2) + ("-" + Wide(c.day, 2))))
  }

  function ClockBody(ofDay: nat): string {
    Wide(ofDay / 3600, 2) + (":" + (Wide(ofDay % 3600 / 60, 2) + (":" + Wide(ofDay % 60, 2))))
  }

  /** None where it is nought, and otherwise three, six or nine digits. */
  function Fraction(nano: nat): string {
    if nano == 0 then ""
    else if nano % 1_000_000 == 0 then Wide(nano / 1_000_000, 3)
    else if nano % 1_000 == 0 then Wide(nano / 1_000, 6)
    else Wide(nano, 9)
  }

  function ClockText(ofDay: nat, nano: nat): string {
    ClockBody(ofDay) + if nano == 0 then "" else "." + Fraction(nano)
  }

  function OfDay(i: Instant): nat {
    FloorIsEuclidean(i.second, SECONDS_PER_DAY);
    FloorMod(i.second, SECONDS_PER_DAY)
  }

  function DayOf(i: Instant): Civil {
    GoCivilFromDays(FloorDiv(i.second, SECONDS_PER_DAY))
  }

  function TextOf(c: Civil, ofDay: nat, nano: nat): string
    requires c.month >= 0 && c.day >= 0
  {
    (DateText(c) + ("T" + ClockText(ofDay, nano))) + "Z"
  }

  function Written(i: Instant): string
    requires IsMoment(i)
  {
    MomentOfDay(i);
    TextOf(DayOf(i), OfDay(i), i.nano)
  }

  // ----- reading -----

  datatype Kind = TimeKind | InstantKind

  function Split(s: string, c: char): (r: seq<string>)
    ensures r != []
  {
    if s == [] then [""]
    else
      var rest := Split(s[1..], c);
      if s[0] == c then [""] + rest else [[s[0]] + rest[0]] + rest[1..]
  }

  datatype Cut = Cut(before: string, after: string)

  /** At the first `c`; all of it before where there is none. */
  function CutAt(s: string, c: char): Cut {
    if s == [] then Cut([], [])
    else if s[0] == c then Cut([], s[1..])
    else
      var rest := CutAt(s[1..], c);
      Cut([s[0]] + rest.before, rest.after)
  }

  /** What a reader of a number makes of text: what is not digits is refused, and the refusal let pass. */
  function Parsed(s: string): nat {
    if AllDigits(s) then NumberIn(s) else 0
  }

  function CivilFields(text: string): Option<Civil> {
    if text == [] then None
    else
      var sign := if text[0] == '-' then -1 else 1;
      var parts := Split(if text[0] == '-' || text[0] == '+' then text[1..] else text, '-');
      if |parts| < 3 then None else Some(Civil(sign * Parsed(parts[0]), Parsed(parts[1]), Parsed(parts[2])))
  }

  datatype Clock = Clock(hour: nat, minute: nat, second: nat, nano: nat)

  function ClockOfText(admitted: (Kind, string) -> bool, text: string): Option<Clock> {
    if !admitted(TimeKind, text) then None
    else
      var cut := CutAt(text, '.');
      var parts := Split(cut.before, ':');
      if |parts| < 2 then None
      else
        Some(Clock(Parsed(parts[0]), Parsed(parts[1]), if |parts| > 2 then Parsed(parts[2]) else 0,
                   if cut.after != "" then Parsed((cut.after + "000000000")[..9]) else 0))
  }

  function NewInstant(second: int, nano: int): Option<Instant> {
    if nano >= 1_000_000_000 || second < FIRST_SECOND || second > LAST_SECOND then None else Some(Instant(second, nano))
  }

  function InstantOfText(admitted: (Kind, string) -> bool, text: string): Option<Instant> {
    if !admitted(InstantKind, text) then None
    else
      var cut := CutAt(if text != [] && text[|text| - 1] == 'Z' then text[..|text| - 1] else text, 'T');
      match (CivilFields(cut.before), ClockOfText(admitted, cut.after))
      case (Some(c), Some(clock)) => MomentAt(c, clock)
      case _ => None
  }

  function MomentAt(c: Civil, clock: Clock): Option<Instant> {
    NewInstant(GoDaysFromCivil(c.year, c.month, c.day) * SECONDS_PER_DAY + clock.hour * 3600 + clock.minute * 60 + clock.second,
               clock.nano)
  }

  // ----- numbers -----

  lemma {:induction false} NumberAfterZeros(k: nat, s: string)
    requires AllDigits(s)
    ensures AllDigits(Zeros(k) + s) && NumberIn(Zeros(k) + s) == NumberIn(s)
    decreases |s|, k
  {
    if s == [] {
      if k > 0 {
        NumberAfterZeros(k - 1, []);
        assert (Zeros(k) + [])[..k - 1] == Zeros(k - 1) + [];
      }
    } else {
      NumberAfterZeros(k, s[..|s| - 1]);
      assert (Zeros(k) + s)[..k + |s| - 1] == Zeros(k) + s[..|s| - 1];
    }
  }

  lemma WideReads(n: nat, width: nat)
    ensures AllDigits(Wide(n, width)) && NumberIn(Wide(n, width)) == n && Wide(n, width) != []
  {
    NumberOfNumeral(n);
    if |Numeral(n)| < width { NumberAfterZeros(width - |Numeral(n)|, Numeral(n)); } else { assert "" + Numeral(n) == Numeral(n); }
  }

  lemma NumberWithZero(s: string)
    requires AllDigits(s)
    ensures AllDigits(s + "0") && NumberIn(s + "0") == 10 * NumberIn(s)
  {
    assert (s + "0")[..|s|] == s;
  }

  lemma NumberWithZeros(s: string)
    requires AllDigits(s)
    ensures AllDigits(s + "000") && NumberIn(s + "000") == 1_000 * NumberIn(s)
  {
    NumberWithZero(s);
    NumberWithZero(s + "0");
    NumberWithZero(s + "0" + "0");
    assert s + "0" + "0" + "0" == s + "000";
  }

  lemma NumeralLength(n: nat)
    ensures n < 10 ==> |Numeral(n)| == 1
    ensures n < 1_000 ==> |Numeral(n)| <= 3
    ensures n < 1_000_000 ==> |Numeral(n)| <= 6
    ensures n < 1_000_000_000 ==> |Numeral(n)| <= 9
  {
    Shorter(n, 3);
    Shorter(n, 6);
    Shorter(n, 9);
    PowersOfTen();
  }

  function Ten(k: nat): nat {
    if k == 0 then 1 else 10 * Ten(k - 1)
  }

  lemma PowersOfTen()
    ensures Ten(3) == 1_000 && Ten(6) == 1_000_000 && Ten(9) == 1_000_000_000
  {
    assert Ten(1) == 10 && Ten(2) == 100 && Ten(3) == 1_000 && Ten(4) == 10_000 && Ten(5) == 100_000;
    assert Ten(6) == 1_000_000 && Ten(7) == 10_000_000 && Ten(8) == 100_000_000;
  }

  lemma {:induction false} Shorter(n: nat, k: nat)
    requires k > 0
    ensures n < Ten(k) ==> |Numeral(n)| <= k
  {
    if n >= 10 {
      if k > 1 { Shorter(n / 10, k - 1); }
      assert Ten(1) == 10;
    }
  }

  lemma WideLength(n: nat, width: nat)
    requires |Numeral(n)| <= width
    ensures |Wide(n, width)| == width
  {
  }

  /** A fraction of any of its widths, filled with noughts to nine digits, is the nanoseconds. */
  lemma FractionReads(nano: nat)
    requires 0 < nano < 1_000_000_000
    ensures Fraction(nano) != "" && '.' !in Fraction(nano) && Parsed((Fraction(nano) + "000000000")[..9]) == nano
  {
    var f := Fraction(nano);
    if nano % 1_000_000 == 0 {
      FractionFilled(nano / 1_000_000, 3);
    } else if nano % 1_000 == 0 {
      FractionFilled(nano / 1_000, 6);
    } else {
      FractionFilled(nano, 9);
    }
  }

  lemma FractionFilled(n: nat, width: nat)
    requires width == 3 || width == 6 || width == 9
    requires n < (if width == 3 then 1_000 else if width == 6 then 1_000_000 else 1_000_000_000)
    ensures var f := Wide(n, width);
      && AllDigits(f) && f != "" && AllDigits((f + "000000000")[..9])
      && NumberIn((f + "000000000")[..9]) == n * (if width == 3 then 1_000_000 else if width == 6 then 1_000 else 1)
  {
    WideReads(n, width);
    WideDigits(n, width);
    FilledReads(Wide(n, width));
  }

  /** Digits of one length are one number's and no other's. */
  lemma {:induction false} DigitsAreTheNumbers(a: string, b: string)
    requires AllDigits(a) && AllDigits(b) && |a| == |b| && NumberIn(a) == NumberIn(b)
    ensures a == b
  {
    if a != [] {
      var last := |a| - 1;
      DigitsAreTheNumbers(a[..last], b[..last]);
      assert a == a[..last] + [a[last]] && b == b[..last] + [b[last]];
    }
  }

  /** Of the texts of three, six or nine digits that are read as the nanoseconds, what is written is the
      shortest, and the only one of its length. */
  lemma FractionIsShortest(nano: nat, text: string)
    requires 0 < nano < 1_000_000_000
    requires AllDigits(text) && |text| in {3, 6, 9} && Parsed((text + "000000000")[..9]) == nano
    ensures |Fraction(nano)| in {3, 6, 9} && |Fraction(nano)| <= |text|
    ensures |Fraction(nano)| == |text| ==> Fraction(nano) == text
  {
    hide Fraction, NumberIn, Wide;
    FilledReads(text);
    FractionLength(nano);
    FractionReads(nano);
    if |Fraction(nano)| == |text| {
      FilledReads(Fraction(nano));
      DigitsAreTheNumbers(Fraction(nano), text);
    }
  }

  lemma FractionLength(nano: nat)
    requires 0 < nano < 1_000_000_000
    ensures AllDigits(Fraction(nano))
    ensures |Fraction(nano)| == if nano % 1_000_000 == 0 then 3 else if nano % 1_000 == 0 then 6 else 9
  {
    if nano % 1_000_000 == 0 {
      WideDigits(nano / 1_000_000, 3);
    } else if nano % 1_000 == 0 {
      WideDigits(nano / 1_000, 6);
    } else {
      WideDigits(nano, 9);
    }
  }

  lemma WideDigits(n: nat, width: nat)
    requires (width == 3 && n < 1_000) || (width == 6 && n < 1_000_000) || (width == 9 && n < 1_000_000_000)
    ensures AllDigits(Wide(n, width)) && |Wide(n, width)| == width
  {
    WideReads(n, width);
    NumeralLength(n);
    WideLength(n, width);
  }

  lemma FilledReads(f: string)
    requires AllDigits(f) && |f| in {3, 6, 9}
    ensures AllDigits((f + "000000000")[..9])
    ensures NumberIn((f + "000000000")[..9]) == NumberIn(f) * (if |f| == 3 then 1_000_000 else if |f| == 6 then 1_000 else 1)
  {
    NumberWithZeros(f);
    NumberWithZeros(f + "000");
    if |f| == 3 {
      assert (f + "000000000")[..9] == f + "000" + "000";
    } else if |f| == 6 {
      assert (f + "000000000")[..9] == f + "000";
    } else {
      assert (f + "000000000")[..9] == f;
    }
  }

  /** Digits after a point, however many up to nine, are so many tenths, hundredths and on of a second. */
  lemma FractionOfAnyLength(f: string)
    requires f != [] && AllDigits(f) && |f| <= 9
    ensures Parsed((f + "000000000")[..9]) == NumberIn(f) * Ten(9 - |f|)
  {
    var zeros := Zeros(9 - |f|);
    NumberThenZeros(f, 9 - |f|);
    assert (f + "000000000")[..9] == f + zeros;
  }

  lemma {:induction false} NumberThenZeros(s: string, k: nat)
    requires AllDigits(s)
    ensures AllDigits(s + Zeros(k)) && NumberIn(s + Zeros(k)) == NumberIn(s) * Ten(k)
  {
    if k == 0 {
      assert s + Zeros(0) == s && Ten(0) == 1;
    } else {
      hide NumberIn, Ten;
      NumberThenZeros(s, k - 1);
      NumberWithZero(s + Zeros(k - 1));
      assert s + Zeros(k) == s + Zeros(k - 1) + "0";
      TenTimes(NumberIn(s), k);
    }
  }

  lemma TenTimes(n: nat, k: nat)
    requires k > 0
    ensures n * Ten(k) == 10 * (n * Ten(k - 1))
  {
  }

  /** A clock with no second is read with none, and no fraction. */
  lemma ShortClockReads(admitted: (Kind, string) -> bool, hour: nat, minute: nat)
    requires admitted(TimeKind, Wide(hour, 2) + (":" + Wide(minute, 2)))
    ensures ClockOfText(admitted, Wide(hour, 2) + (":" + Wide(minute, 2))) == Some(Clock(hour, minute, 0, 0))
  {
    var h, m := Wide(hour, 2), Wide(minute, 2);
    WideReads(hour, 2);
    WideReads(minute, 2);
    DigitsOnly(h, ':');
    DigitsOnly(m, ':');
    SplitOne(h, ':', m);
    SplitNone(m, ':');
    var text := h + (":" + m);
    assert forall i :: 0 <= i < |text| ==> IsDigit(text[i]) || text[i] == ':';
    CutNone(text, '.');
  }

  /** Four digits of year, two of month and two of day; and outside the years of four digits, a sign and as
      many digits as the year has. */
  lemma DateLength(c: Civil)
    requires 0 <= c.month < 100 && 0 <= c.day < 100
    ensures var text, digits := DateText(c), |Numeral(Magnitude(c.year))|;
      && (0 <= c.year <= 9999 ==> |text| == 10 && IsDigit(text[0]) && text[4] == '-' && text[7] == '-')
      && (c.year > 9999 ==> |text| == digits + 7 && text[0] == '+')
      && (c.year < 0 ==> |text| == 7 + (if digits < 4 then 4 else digits) && text[0] == '-')
  {
    Shorter(c.month, 2);
    Shorter(c.day, 2);
    assert Ten(1) == 10 && Ten(2) == 100 && Ten(3) == 1_000 && Ten(4) == 10_000;
    Shorter(Magnitude(c.year), 4);
    Longer(Magnitude(c.year), 4);
    WideReads(Magnitude(c.year), 4);
  }

  lemma {:induction false} Longer(n: nat, k: nat)
    ensures n >= Ten(k) ==> |Numeral(n)| > k
  {
    if k > 0 && n >= Ten(k) {
      Longer(n / 10, k - 1);
      TenAtLeast(k - 1);
    }
  }

  lemma {:induction false} TenAtLeast(k: nat)
    ensures Ten(k) >= 1
  {
    if k > 0 { TenAtLeast(k - 1); }
  }

  /** Two digits each of hour, minute and second, and a point before a fraction where there is one. */
  lemma ClockLength(ofDay: nat, nano: nat)
    requires ofDay < 86_400 && nano < 1_000_000_000
    ensures |ClockBody(ofDay)| == 8 && ClockBody(ofDay)[2] == ':' && ClockBody(ofDay)[5] == ':'
    ensures ClockText(ofDay, nano) == if nano == 0 then ClockBody(ofDay) else ClockBody(ofDay) + ("." + Fraction(nano))
  {
    assert Ten(1) == 10 && Ten(2) == 100;
    Shorter(ofDay / 3600, 2);
    Shorter(ofDay % 3600 / 60, 2);
    Shorter(ofDay % 60, 2);
  }

  // ----- splitting -----

  lemma {:induction false} SplitNone(s: string, c: char)
    requires c !in s
    ensures Split(s, c) == [s]
  {
    if s != [] {
      SplitNone(s[1..], c);
      assert s == [s[0]] + s[1..];
    }
  }

  lemma {:induction false} SplitOne(a: string, c: char, rest: string)
    requires c !in a
    ensures Split(a + ([c] + rest), c) == [a] + Split(rest, c)
    decreases |a|
  {
    var s := a + ([c] + rest);
    if a == [] {
      assert s == [c] + rest && s[1..] == rest;
    } else {
      SplitOne(a[1..], c, rest);
      assert s[1..] == a[1..] + ([c] + rest) && s[0] == a[0];
      assert a == [a[0]] + a[1..];
      assert ([a[1..]] + Split(rest, c))[1..] == Split(rest, c);
    }
  }

  lemma SplitThree(a: string, c: char, b: string, d: string)
    requires c !in a && c !in b && c !in d
    ensures Split(a + ([c] + (b + ([c] + d))), c) == [a, b, d]
  {
    SplitOne(a, c, b + ([c] + d));
    SplitOne(b, c, d);
    SplitNone(d, c);
  }

  lemma {:induction false} CutOne(a: string, c: char, rest: string)
    requires c !in a
    ensures CutAt(a + ([c] + rest), c) == Cut(a, rest)
    decreases |a|
  {
    var s := a + ([c] + rest);
    if a == [] {
      assert s == [c] + rest && s[1..] == rest;
    } else {
      CutOne(a[1..], c, rest);
      assert s[1..] == a[1..] + ([c] + rest) && s[0] == a[0];
      assert a == [a[0]] + a[1..];
    }
  }

  lemma {:induction false} CutNone(a: string, c: char)
    requires c !in a
    ensures CutAt(a, c) == Cut(a, "")
  {
    if a != [] {
      CutNone(a[1..], c);
      assert a == [a[0]] + a[1..];
    }
  }

  lemma DigitsOnly(s: string, c: char)
    requires AllDigits(s) && !IsDigit(c)
    ensures c !in s
  {
  }

  // ----- the round trip -----

  lemma DateReads(c: Civil)
    requires c.month >= 0 && c.day >= 0
    ensures CivilFields(DateText(c)) == Some(c)
  {
    var y, m, d := Wide(Magnitude(c.year), 4), Wide(c.month, 2), Wide(c.day, 2);
    WideReads(Magnitude(c.year), 4);
    WideReads(c.month, 2);
    WideReads(c.day, 2);
    DigitsOnly(y, '-');
    DigitsOnly(m, '-');
    DigitsOnly(d, '-');
    SplitThree(y, '-', m, d);
    var body, text := DateBody(c), DateText(c);
    assert body[0] == y[0];
    if c.year < 0 || c.year > 9999 {
      assert text[1..] == body;
    } else {
      assert text == body;
    }
  }

  lemma ClockReads(admitted: (Kind, string) -> bool, ofDay: nat, nano: nat)
    requires nano < 1_000_000_000 && admitted(TimeKind, ClockText(ofDay, nano))
    ensures ClockOfText(admitted, ClockText(ofDay, nano)) == Some(Clock(ofDay / 3600, ofDay % 3600 / 60, ofDay % 60, nano))
  {
    var h, m, s := Wide(ofDay / 3600, 2), Wide(ofDay % 3600 / 60, 2), Wide(ofDay % 60, 2);
    WideReads(ofDay / 3600, 2);
    WideReads(ofDay % 3600 / 60, 2);
    WideReads(ofDay % 60, 2);
    DigitsOnly(h, ':');
    DigitsOnly(m, ':');
    DigitsOnly(s, ':');
    SplitThree(h, ':', m, s);
    ClockCut(ofDay, nano);
    if nano != 0 { FractionReads(nano); }
  }

  lemma ClockHasNoPoint(ofDay: nat)
    ensures '.' !in ClockBody(ofDay)
  {
    WideReads(ofDay / 3600, 2);
    WideReads(ofDay % 3600 / 60, 2);
    WideReads(ofDay % 60, 2);
    var body := ClockBody(ofDay);
    assert forall i :: 0 <= i < |body| ==> IsDigit(body[i]) || body[i] == ':';
  }

  lemma ClockCut(ofDay: nat, nano: nat)
    ensures CutAt(ClockText(ofDay, nano), '.') == Cut(ClockBody(ofDay), Fraction(nano))
  {
    var body := ClockBody(ofDay);
    ClockHasNoPoint(ofDay);
    if nano == 0 {
      assert body + "" == body;
      CutNone(body, '.');
    } else {
      CutOne(body, '.', Fraction(nano));
    }
  }

  lemma DateHasNoT(c: Civil)
    requires c.month >= 0 && c.day >= 0
    ensures 'T' !in DateText(c)
  {
    WideReads(Magnitude(c.year), 4);
    WideReads(c.month, 2);
    WideReads(c.day, 2);
    var body := DateBody(c);
    assert forall i :: 0 <= i < |body| ==> IsDigit(body[i]) || body[i] == '-';
  }

  lemma SecondsOfClock(ofDay: nat)
    ensures ofDay / 3600 * 3600 + ofDay % 3600 / 60 * 60 + ofDay % 60 == ofDay
  {
  }

  /** The text of a day and a clock is read as the moment they are of. */
  lemma TextReads(admitted: (Kind, string) -> bool, c: Civil, ofDay: nat, second: int, nano: nat)
    requires c.month >= 0 && c.day >= 0 && IsMoment(Instant(second, nano))
    requires GoDaysFromCivil(c.year, c.month, c.day) * SECONDS_PER_DAY + ofDay == second
    requires admitted(InstantKind, TextOf(c, ofDay, nano)) && admitted(TimeKind, ClockText(ofDay, nano))
    ensures InstantOfText(admitted, TextOf(c, ofDay, nano)) == Some(Instant(second, nano))
  {
    TextParts(c, ofDay, nano);
    DateReads(c);
    ClockReads(admitted, ofDay, nano);
    ClockMoment(c, ofDay, second, nano);
  }

  lemma TextParts(c: Civil, ofDay: nat, nano: nat)
    requires c.month >= 0 && c.day >= 0
    ensures var text := TextOf(c, ofDay, nano);
      && text != [] && text[|text| - 1] == 'Z'
      && CutAt(text[..|text| - 1], 'T') == Cut(DateText(c), ClockText(ofDay, nano))
  {
    var clock, text := ClockText(ofDay, nano), TextOf(c, ofDay, nano);
    assert text[..|text| - 1] == DateText(c) + ("T" + clock);
    DateHasNoT(c);
    CutOne(DateText(c), 'T', clock);
  }

  lemma ClockMoment(c: Civil, ofDay: nat, second: int, nano: nat)
    requires IsMoment(Instant(second, nano))
    requires GoDaysFromCivil(c.year, c.month, c.day) * SECONDS_PER_DAY + ofDay == second
    ensures MomentAt(c, Clock(ofDay / 3600, ofDay % 3600 / 60, ofDay % 60, nano)) == Some(Instant(second, nano))
  {
    SecondsOfClock(ofDay);
  }

  lemma MomentOfDay(i: Instant)
    ensures var c := DayOf(i);
      IsDay(c) && GoDaysFromCivil(c.year, c.month, c.day) * SECONDS_PER_DAY + OfDay(i) == i.second
  {
    var days := FloorDiv(i.second, SECONDS_PER_DAY);
    FloorIsEuclidean(i.second, SECONDS_PER_DAY);
    GoCountsTheSame(days);
    DaysOfCivil(days);
    GoCountsBackTheSame(DayOf(i));
  }

  /** Every moment reads back as itself: for every second and nanosecond an instant holds, across
      negative years, years of five digits and more, and fractions of every width, what is written is
      read as what it was written from. */
  lemma WrittenReadsBack(admitted: (Kind, string) -> bool, i: Instant)
    requires IsMoment(i) && admitted(InstantKind, Written(i)) && admitted(TimeKind, ClockText(OfDay(i), i.nano))
    ensures InstantOfText(admitted, Written(i)) == Some(i)
  {
    MomentOfDay(i);
    TextReads(admitted, DayOf(i), OfDay(i), i.second, i.nano);
  }
}
