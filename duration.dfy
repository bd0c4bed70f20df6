/** The clock text the stopwatch shows: `str(datetime.timedelta(seconds = n))`
    for a whole, non-negative number of seconds `n`, and a strict parser that
    is its exact inverse. */
module Duration {

  datatype Option<T> = None | Some(value: T)

  // ---------------------------------------------------------------------------
  // Decimal digits: `%d` and `%02d`
  // ---------------------------------------------------------------------------

  predicate IsDigit(c: char) {
    '0' <= c <= '9'
  }

  predicate AllDigits(s: string) {
    forall i :: 0 <= i < |s| ==> IsDigit(s[i])
  }

  /** The shape `%d` prints a natural number in: digits, no leading zero. */
  predicate Canonical(s: string) {
    |s| > 0 && AllDigits(s) && (|s| > 1 ==> s[0] != '0')
  }

  function DigitChar(d: nat): (c: char)
    requires d < 10
    ensures IsDigit(c)
  {
    ('0' as int + d) as char
  }

  function DigitValue(c: char): (d: nat)
    requires IsDigit(c)
    ensures d < 10
  {
    c as int - '0' as int
  }

  /** `"%d" % n` */
  function Decimal(n: nat): (s: string)
    ensures Canonical(s)
    ensures s[0] == '0' <==> n == 0
  {
    if n < 10 then [DigitChar(n)] else Decimal(n / 10) + [DigitChar(n % 10)]
  }

  /** The number a string of decimal digits denotes. */
  function DecimalValue(s: string): nat
    requires AllDigits(s)
  {
    if s == [] then 0 else DecimalValue(s[..|s| - 1]) * 10 + DigitValue(s[|s| - 1])
  }

  /** `"%02d" % n` for the minutes and seconds fields, which are below 60. */
  function TwoDigits(n: nat): (s: string)
    requires n < 100
    ensures |s| == 2 && AllDigits(s)
  {
    [DigitChar(n / 10), DigitChar(n % 10)]
  }

  lemma {:induction false} DecimalRoundTrip(n: nat)
    ensures DecimalValue(Decimal(n)) == n
  {
    if n >= 10 {
      var s := Decimal(n);
      assert s[..|s| - 1] == Decimal(n / 10);
      DecimalRoundTrip(n / 10);
    }
  }

  lemma {:induction false} LeadingNonZero(s: string)
    requires |s| > 0 && AllDigits(s) && s[0] != '0'
    ensures DecimalValue(s) >= 1
    decreases |s|
  {
    if |s| > 1 {
      LeadingNonZero(s[..|s| - 1]);
    } else {
      assert s[..0] == [];
    }
  }

  /** Every canonical digit string is what `%d` prints for the number it denotes. */
  lemma {:induction false} DecimalOfValue(s: string)
    requires Canonical(s)
    ensures Decimal(DecimalValue(s)) == s
    decreases |s|
  {
    var init, last := s[..|s| - 1], s[|s| - 1];
    if |s| > 1 {
      assert init[0] == s[0];
      LeadingNonZero(init);
      DecimalOfValue(init);
      var n := DecimalValue(s);
      assert n / 10 == DecimalValue(init) && n % 10 == DigitValue(last);
      assert s == init + [last];
    } else {
      assert init == [];
      assert s == [last];
    }
  }

  lemma TwoDigitsRoundTrip(n: nat)
    requires n < 100
    ensures DecimalValue(TwoDigits(n)) == n
  {
    var s := TwoDigits(n);
    assert s[..1][..0] == [];
    assert DecimalValue(s[..1]) == n / 10;
  }

  lemma TwoDigitsOfValue(s: string)
    requires |s| == 2 && AllDigits(s)
    ensures DecimalValue(s) < 100 && TwoDigits(DecimalValue(s)) == s
  {
    assert s[..1][..0] == [];
    assert s[..1][0] == s[0];
    assert DecimalValue(s[..1]) == DigitValue(s[0]);
    assert DecimalValue(s) == DigitValue(s[0]) * 10 + DigitValue(s[1]);
  }

  // ---------------------------------------------------------------------------
  // `timedelta.__str__`
  // ---------------------------------------------------------------------------

  /** `"%d:%02d:%02d" % (hh, mm, ss)` for the seconds part of a timedelta,
      which is below one day; `hh`, `mm` and `ss` come from two `divmod`s by 60. */
  function Clock(secs: nat): string
    requires secs < 86400
  {
    var mins, ss := secs / 60, secs % 60;
    var hh, mm := mins / 60, mins % 60;
    Decimal(hh) + ":" + TwoDigits(mm) + ":" + TwoDigits(ss)
  }

  /** The separator after the day count: "day" is plural unless there is exactly one. */
  function DaySeparator(days: nat): string {
    if days == 1 then " day, " else " days, "
  }

  /** `str(datetime.timedelta(seconds = n))`: `timedelta` normalises `n`
      into whole days and a remainder below 86400 seconds; the day count is
      printed only when it is not zero. Every text has its last two colons at
      positions -6 and -3, and it holds a space, the one of the day prefix,
      exactly from one day on. */
  function Format(n: nat): (r: string)
    ensures |r| >= 7 && r[|r| - 6] == ':' && r[|r| - 3] == ':'
    ensures n < 86400 <==> ' ' !in r
  {
    var days, secs := n / 86400, n % 86400;
    var c := Clock(secs);
    ClockFields(secs);
    if days == 0 then c
    else
      var d, rest := Decimal(days), DaySeparator(days) + c;
      FirstSpace(d, rest);
      assert d + DaySeparator(days) + c == d + rest;
      assert (d + rest)[|d + rest| - 6] == c[|c| - 6] && (d + rest)[|d + rest| - 3] == c[|c| - 3];
      d + DaySeparator(days) + c
  }

  // ---------------------------------------------------------------------------
  // Reading the clock text back
  // ---------------------------------------------------------------------------

  /** The position of the first `x` in `s`, or `|s|` when there is none. */
  function IndexOf(s: string, x: char): (i: nat)
    ensures i <= |s|
    ensures i < |s| ==> s[i] == x
    ensures forall j :: 0 <= j < i ==> s[j] != x
  {
    if s == [] then 0 else if s[0] == x then 0 else 1 + IndexOf(s[1..], x)
  }

  /** Reads `H:MM:SS` with H written as `%d` would, MM and SS two digits below
      60, and the total below one day. */
  function ParseClock(s: string): Option<nat> {
    if |s| < 7 || s[|s| - 6] != ':' || s[|s| - 3] != ':' then None
    else
      var h, m, sec := s[..|s| - 6], s[|s| - 5..|s| - 3], s[|s| - 2..];
      if !(Canonical(h) && AllDigits(m) && AllDigits(sec)) then None
      else
        var t := DecimalValue(h) * 3600 + DecimalValue(m) * 60 + DecimalValue(sec);
        if DecimalValue(m) < 60 && DecimalValue(sec) < 60 && t < 86400 then Some(t) else None
  }

  /** Reads what `Format` writes: an optional `"<days> day(s), "` prefix with a
      non-zero day count and the matching plural, then `H:MM:SS`. */
  function Parse(s: string): Option<nat> {
    var i := IndexOf(s, ' ');
    if i == |s| then ParseClock(s) else ParseWithDays(s[..i], s[i..])
  }

  /** Reads a day count `d` and the `rest` that starts at the first space. */
  function ParseWithDays(d: string, rest: string): Option<nat> {
    if !Canonical(d) || DecimalValue(d) == 0 then None
    else
      var days := DecimalValue(d);
      var sep := DaySeparator(days);
      if |rest| < |sep| || rest[..|sep|] != sep then None
      else
        match ParseClock(rest[|sep|..])
        case None => None
        case Some(t) => Some(days * 86400 + t)
  }

  // ---------------------------------------------------------------------------
  // Properties of the clock text
  // ---------------------------------------------------------------------------

  /** The three fields of `Clock(secs)` and where its two colons stand. */
  lemma ClockFields(secs: nat)
    requires secs < 86400
    ensures var s := Clock(secs);
      |s| >= 7 && s[|s| - 6] == ':' && s[|s| - 3] == ':'
      && s[..|s| - 6] == Decimal(secs / 3600)
      && s[|s| - 5..|s| - 3] == TwoDigits(secs / 60 % 60)
      && s[|s| - 2..] == TwoDigits(secs % 60)
      && forall j :: 0 <= j < |s| ==> s[j] != ' '
  {
    var h, m, sec := Decimal(secs / 3600), TwoDigits(secs / 60 % 60), TwoDigits(secs % 60);
    assert secs / 60 / 60 == secs / 3600;
    assert Clock(secs) == h + ":" + m + ":" + sec;
    FieldsOf(h, m, sec);
  }

  /** Where the parts of `h:m:sec` stand, for digit strings `h`, `m` and `sec`. */
  lemma FieldsOf(h: string, m: string, sec: string)
    requires |h| > 0 && AllDigits(h) && |m| == 2 && AllDigits(m) && |sec| == 2 && AllDigits(sec)
    ensures var s := h + ":" + m + ":" + sec;
      |s| >= 7 && s[|s| - 6] == ':' && s[|s| - 3] == ':'
      && s[..|s| - 6] == h && s[|s| - 5..|s| - 3] == m && s[|s| - 2..] == sec
      && forall j :: 0 <= j < |s| ==> s[j] != ' '
  {
    var s := h + ":" + m + ":" + sec;
    assert s[..|s| - 6] == h;
    assert s[|s| - 5..|s| - 3] == m;
    assert s[|s| - 2..] == sec;
    forall j | 0 <= j < |s| ensures s[j] != ' ' {
      if j < |h| {
        assert s[j] == h[j];
      } else if j == |h| || j == |h| + 3 {
      } else if j < |h| + 3 {
        assert s[j] == m[j - |h| - 1];
      } else {
        assert s[j] == sec[j - |h| - 4];
      }
    }
  }

  lemma ParseClockRoundTrip(secs: nat)
    requires secs < 86400
    ensures ParseClock(Clock(secs)) == Some(secs)
  {
    var s := Clock(secs);
    ClockFields(secs);
    var h, m, sec := s[..|s| - 6], s[|s| - 5..|s| - 3], s[|s| - 2..];
    DecimalRoundTrip(secs / 3600);
    TwoDigitsRoundTrip(secs / 60 % 60);
    TwoDigitsRoundTrip(secs % 60);
    assert DecimalValue(h) == secs / 3600 && DecimalValue(m) == secs / 60 % 60
      && DecimalValue(sec) == secs % 60;
    ClockSplit(secs);
  }

  /** Hours, minutes and seconds add up to the second count again. */
  lemma ClockSplit(secs: nat)
    ensures secs / 3600 * 3600 + secs / 60 % 60 * 60 + secs % 60 == secs
  {
    var q := secs / 60;
    assert secs == q * 60 + secs % 60;
    assert q == q / 60 * 60 + q % 60;
    assert q / 60 == secs / 3600;
  }

  lemma ClockOfParse(s: string, t: nat)
    requires ParseClock(s) == Some(t)
    ensures t < 86400 && Clock(t) == s
  {
    var h, m, sec := s[..|s| - 6], s[|s| - 5..|s| - 3], s[|s| - 2..];
    DecimalOfValue(h);
    TwoDigitsOfValue(m);
    TwoDigitsOfValue(sec);
    assert t / 60 == DecimalValue(h) * 60 + DecimalValue(m);
    assert t / 60 / 60 == DecimalValue(h) && t / 60 % 60 == DecimalValue(m);
    assert t % 60 == DecimalValue(sec);
    assert s == h + ":" + m + ":" + sec;
  }

  /** For less than one day the text is `H:MM:SS`: H is `n / 3600` without
      padding, MM is `(n / 60) % 60` and SS is `n % 60`, each two digits. */
  lemma FormatBelowDay(n: nat)
    requires n < 86400
    ensures var s := Format(n);
      |s| >= 7 && s[|s| - 6] == ':' && s[|s| - 3] == ':'
      && Canonical(s[..|s| - 6]) && DecimalValue(s[..|s| - 6]) == n / 3600
      && |s[|s| - 5..|s| - 3]| == 2 && AllDigits(s[|s| - 5..|s| - 3])
      && DecimalValue(s[|s| - 5..|s| - 3]) == n / 60 % 60
      && |s[|s| - 2..]| == 2 && AllDigits(s[|s| - 2..])
      && DecimalValue(s[|s| - 2..]) == n % 60
  {
    assert Format(n) == Clock(n);
    ClockDigits(n);
  }

  /** The same for the clock part itself. */
  lemma ClockDigits(secs: nat)
    requires secs < 86400
    ensures var s := Clock(secs);
      |s| >= 7 && s[|s| - 6] == ':' && s[|s| - 3] == ':'
      && Canonical(s[..|s| - 6]) && DecimalValue(s[..|s| - 6]) == secs / 3600
      && |s[|s| - 5..|s| - 3]| == 2 && AllDigits(s[|s| - 5..|s| - 3])
      && DecimalValue(s[|s| - 5..|s| - 3]) == secs / 60 % 60
      && |s[|s| - 2..]| == 2 && AllDigits(s[|s| - 2..])
      && DecimalValue(s[|s| - 2..]) == secs % 60
  {
    ClockFields(secs);
    DecimalRoundTrip(secs / 3600);
    TwoDigitsRoundTrip(secs / 60 % 60);
    TwoDigitsRoundTrip(secs % 60);
  }

  /** From one day on, the text is the day count, "day"/"days", and the clock
      of the remainder. */
  lemma FormatFromOneDay(n: nat)
    requires n >= 86400
    ensures Format(n) == Decimal(n / 86400) + DaySeparator(n / 86400) + Format(n % 86400)
    ensures DecimalValue(Decimal(n / 86400)) == n / 86400
  {
    var secs := n % 86400;
    assert secs / 86400 == 0;
    assert Format(secs) == Clock(secs);
    DecimalRoundTrip(n / 86400);
  }

  lemma FormatZero()
    ensures Format(0) == "0:00:00"
  {
    assert Decimal(0) == "0" && TwoDigits(0) == "00";
  }

  lemma FormatFiveSeconds()
    ensures Format(5) == "0:00:05"
  {
    assert Decimal(0) == "0" && TwoDigits(0) == "00" && TwoDigits(5) == "05";
  }

  lemma FormatOneHourOneMinuteOneSecond()
    ensures Format(3661) == "1:01:01"
  {
    assert Decimal(1) == "1" && TwoDigits(1) == "01";
  }

  lemma FormatLastSecondOfDay()
    ensures Format(86399) == "23:59:59"
  {
    assert Decimal(2) == "2";
    assert Decimal(23) == "23";
    assert TwoDigits(59) == "59";
  }

  lemma FormatOneDay()
    ensures Format(86400) == "1 day, 0:00:00"
  {
    FormatWithDays(1, 0);
    ClockZero();
    assert Decimal(1) == "1";
  }

  lemma FormatTwoDays()
    ensures Format(2 * 86400 + 3661) == "2 days, 1:01:01"
  {
    FormatWithDays(2, 3661);
    ClockOneHourOneMinuteOneSecond();
    assert Decimal(2) == "2";
  }

  lemma ClockOneHourOneMinuteOneSecond()
    ensures Clock(3661) == "1:01:01"
  {
    assert Decimal(1) == "1" && TwoDigits(1) == "01";
  }

  lemma ClockZero()
    ensures Clock(0) == "0:00:00"
  {
    assert Decimal(0) == "0" && TwoDigits(0) == "00";
  }

  lemma ParseFormatBelowDay(n: nat)
    requires n < 86400
    ensures Parse(Format(n)) == Some(n)
  {
    var s := Format(n);
    assert s == Clock(n);
    ClockFields(n);
    ParseClockRoundTrip(n);
    assert IndexOf(s, ' ') == |s|;
  }

  lemma ParseWithDaysRoundTrip(days: nat, secs: nat)
    requires days > 0 && secs < 86400
    ensures ParseWithDays(Decimal(days), DaySeparator(days) + Clock(secs)) == Some(days * 86400 + secs)
  {
    var d, sep, c := Decimal(days), DaySeparator(days), Clock(secs);
    DecimalRoundTrip(days);
    assert Canonical(d) && DecimalValue(d) == days;
    var rest := sep + c;
    assert rest[..|sep|] == sep;
    assert rest[|sep|..] == c;
    ParseClockRoundTrip(secs);
  }

  /** The first space of `d + rest` is the first character of `rest` when `d` is all digits. */
  lemma FirstSpace(d: string, rest: string)
    requires AllDigits(d) && |rest| > 0 && rest[0] == ' '
    ensures IndexOf(d + rest, ' ') == |d|
  {
    var s := d + rest;
    forall j | 0 <= j < |d| ensures s[j] != ' ' {
      assert s[j] == d[j];
    }
    assert s[|d|] == ' ';
  }

  lemma ParseFormatFromOneDay(n: nat)
    requires n >= 86400
    ensures Parse(Format(n)) == Some(n)
  {
    FormatDayText(n);
    ParseDayText(n);
  }

  lemma FormatDayText(n: nat)
    requires n >= 86400
    ensures Format(n) == Decimal(n / 86400) + (DaySeparator(n / 86400) + Clock(n % 86400))
  {
    var days, secs := n / 86400, n % 86400;
    assert Decimal(days) + DaySeparator(days) + Clock(secs)
      == Decimal(days) + (DaySeparator(days) + Clock(secs));
  }

  /** The text with a day prefix parses back to the seconds it stands for. */
  lemma ParseDayText(n: nat)
    requires n >= 86400
    ensures Parse(Decimal(n / 86400) + (DaySeparator(n / 86400) + Clock(n % 86400))) == Some(n)
  {
    var days, secs := n / 86400, n % 86400;
    assert days * 86400 + secs == n;
    var d, rest := Decimal(days), DaySeparator(days) + Clock(secs);
    var s := d + rest;
    FirstSpace(d, rest);
    assert s[..|d|] == d && s[|d|..] == rest;
    ParseWithDaysRoundTrip(days, secs);
    assert Parse(s) == ParseWithDays(d, rest);
  }

  lemma ParseFormat(n: nat)
    ensures Parse(Format(n)) == Some(n)
  {
    if n < 86400 {
      ParseFormatBelowDay(n);
    } else {
      ParseFormatFromOneDay(n);
    }
  }

  lemma FormatOfParseWithDays(d: string, rest: string, n: nat)
    requires ParseWithDays(d, rest) == Some(n)
    ensures Format(n) == d + rest
  {
    var days := DecimalValue(d);
    var sep := DaySeparator(days);
    var c := rest[|sep|..];
    var t := ParseClock(c).value;
    assert Canonical(d) && days > 0 && n == days * 86400 + t;
    assert rest == sep + c;
    ClockOfParse(c, t);
    DecimalOfValue(d);
    FormatWithDays(days, t);
  }

  lemma FormatWithDays(days: nat, t: nat)
    requires days > 0 && t < 86400
    ensures Format(days * 86400 + t) == Decimal(days) + DaySeparator(days) + Clock(t)
  {
    var n := days * 86400 + t;
    DayDivMod(days, t);
    assert Format(n) == Decimal(n / 86400) + DaySeparator(n / 86400) + Clock(n % 86400);
  }

  lemma DayDivMod(days: nat, t: nat)
    requires t < 86400
    ensures (days * 86400 + t) / 86400 == days && (days * 86400 + t) % 86400 == t
  {
  }

  lemma FormatOfParse(s: string, n: nat)
    requires Parse(s) == Some(n)
    ensures Format(n) == s
  {
    if IndexOf(s, ' ') == |s| {
      ClockOfParse(s, n);
    } else {
      var i := IndexOf(s, ' ');
      FormatOfParseWithDays(s[..i], s[i..], n);
      assert s == s[..i] + s[i..];
    }
  }

  /** `Parse` reads back exactly the texts `Format` writes, and nothing else. */
  lemma ParseInverse(s: string, n: nat)
    ensures Parse(s) == Some(n) <==> s == Format(n)
  {
    if Parse(s) == Some(n) {
      FormatOfParse(s, n);
    }
    if s == Format(n) {
      ParseFormat(n);
    }
  }

  /** Different second counts are shown as different texts. */
  lemma FormatInjective(a: nat, b: nat)
    requires Format(a) == Format(b)
    ensures a == b
  {
    ParseFormat(a);
    ParseFormat(b);
  }
}
