/**
 * Timestamps as the text columns of the database hold them.
 *
 * Every time comparison in SQL compares two encoded strings character by
 * character.  The encoding prints microseconds only when there are some, so the
 * strings do not all have the same length and section 5.1 of RFC 3339 does not
 * by itself make them sortable.  This module proves that they are.
 */
module TimeText {
  import opened Wrappers

  // ---------------------------------------------------------------- calendar

  // A UTC date and time, as `datetime` holds it.
  datatype DateTime = DateTime(year: nat, month: nat, day: nat,
                               hour: nat, minute: nat, second: nat, micro: nat)

  predicate IsLeap(year: nat) {
    year % 4 == 0 && (year % 100 != 0 || year % 400 == 0)
  }

  function DaysInMonth(year: nat, month: nat): nat {
    if month == 2 then
      if IsLeap(year) then 29 else 28
    else if month in {4, 6, 9, 11} then
      30
    else
      31
  }

  predicate Valid(d: DateTime) {
    && 1 <= d.year <= 9999
    && 1 <= d.month <= 12
    && 1 <= d.day <= DaysInMonth(d.year, d.month)
    && d.hour < 24 && d.minute < 60 && d.second < 60 && d.micro < 1_000_000
  }

  function DaysBeforeMonth(year: nat, month: nat): nat {
    if month <= 1 then 0 else DaysBeforeMonth(year, month - 1) + DaysInMonth(year, month - 1)
  }

  function DaysBeforeYear(year: nat): nat {
    if year <= 1 then 0 else DaysBeforeYear(year - 1) + if IsLeap(year - 1) then 366 else 365
  }

  // The instant itself: microseconds since the first moment of year 1.
  function Micros(d: DateTime): int {
    var days := DaysBeforeYear(d.year) + DaysBeforeMonth(d.year, d.month) + d.day - 1;
    (((days * 24 + d.hour) * 60 + d.minute) * 60 + d.second) * 1_000_000 + d.micro
  }

  // Field-by-field comparison, most significant field first.
  predicate Earlier(a: DateTime, b: DateTime) {
    || a.year < b.year
    || (a.year == b.year && (
      || a.month < b.month
      || (a.month == b.month && (
        || a.day < b.day
        || (a.day == b.day && (
          || a.hour < b.hour
          || (a.hour == b.hour && (
            || a.minute < b.minute
            || (a.minute == b.minute && (
              || a.second < b.second
              || (a.second == b.second && a.micro < b.micro)))))))))))
  }

  lemma {:induction false} MonthsDoNotOverlap(year: nat, early: nat, late: nat)
    requires 1 <= early < late
    ensures DaysBeforeMonth(year, early) + DaysInMonth(year, early) <= DaysBeforeMonth(year, late)
  {
    if early + 1 < late {
      MonthsDoNotOverlap(year, early, late - 1);
    }
  }

  lemma DayFallsInItsYear(d: DateTime)
    requires Valid(d)
    ensures DaysBeforeMonth(d.year, d.month) + d.day <= if IsLeap(d.year) then 366 else 365
  {
    YearEnds(d.year);
    MonthsDoNotOverlap(d.year, d.month, 13);
  }

  lemma NextMonth(year: nat, month: nat, days: nat)
    requires 1 <= month && days == DaysInMonth(year, month)
    ensures DaysBeforeMonth(year, month + 1) == DaysBeforeMonth(year, month) + days
  {
  }

  // The twelve months, one after the other.
  lemma YearEnds(year: nat)
    ensures DaysBeforeMonth(year, 13) == if IsLeap(year) then 366 else 365
  {
    NextMonth(year, 1, 31);
    NextMonth(year, 2, DaysInMonth(year, 2));
    NextMonth(year, 3, 31);
    NextMonth(year, 4, 30);
    NextMonth(year, 5, 31);
    NextMonth(year, 6, 30);
    NextMonth(year, 7, 31);
    NextMonth(year, 8, 31);
    NextMonth(year, 9, 30);
    NextMonth(year, 10, 31);
    NextMonth(year, 11, 30);
    NextMonth(year, 12, 31);
  }

  lemma {:induction false} YearsDoNotOverlap(early: nat, late: nat)
    requires 1 <= early < late
    ensures DaysBeforeYear(early) + (if IsLeap(early) then 366 else 365) <= DaysBeforeYear(late)
  {
    if early + 1 < late {
      YearsDoNotOverlap(early, late - 1);
    }
  }

  lemma EarlierIsLess(a: DateTime, b: DateTime)
    requires Valid(a) && Valid(b) && Earlier(a, b)
    ensures Micros(a) < Micros(b)
  {
    DayFallsInItsYear(a);
    if a.year < b.year {
      YearsDoNotOverlap(a.year, b.year);
    } else if a.month < b.month {
      MonthsDoNotOverlap(a.year, a.month, b.month);
    }
  }

  // Comparing fields and comparing instants agree on every pair of valid dates.
  lemma FieldOrderIsTimeOrder(a: DateTime, b: DateTime)
    requires Valid(a) && Valid(b)
    ensures Earlier(a, b) <==> Micros(a) < Micros(b)
    ensures a == b <==> Micros(a) == Micros(b)
  {
    if Earlier(a, b) {
      EarlierIsLess(a, b);
    } else if a != b {
      assert Earlier(b, a);
      EarlierIsLess(b, a);
    }
  }

  // One more year is one more multiple of four, of a hundred, of four hundred,
  // exactly when it is divisible by that.
  lemma MultiplesGrow(year: nat)
    requires year > 0
    ensures year / 4 == (year - 1) / 4 + if year % 4 == 0 then 1 else 0
    ensures year / 100 == (year - 1) / 100 + if year % 100 == 0 then 1 else 0
    ensures year / 400 == (year - 1) / 400 + if year % 400 == 0 then 1 else 0
  {
  }

  lemma DivisibleBy(year: nat)
    ensures year % 400 == 0 ==> year % 100 == 0
    ensures year % 100 == 0 ==> year % 4 == 0
  {
    var byFourHundred, byHundred := year / 400, year / 100;
    if year % 400 == 0 {
      assert year == 100 * (4 * byFourHundred);
    }
    if year % 100 == 0 {
      assert year == 4 * (25 * byHundred);
    }
  }

  function LeapYears(years: nat): int {
    years / 4 - years / 100 + years / 400
  }

  lemma LeapYearsGrow(year: nat)
    requires year > 0
    ensures LeapYears(year) == LeapYears(year - 1) + if IsLeap(year) then 1 else 0
  {
    MultiplesGrow(year);
    DivisibleBy(year);
  }

  // The Gregorian count of days before a year, and the Unix epoch in it.
  lemma {:induction false} DaysOfYears(year: nat)
    requires year >= 1
    ensures DaysBeforeYear(year) == 365 * (year - 1) + LeapYears(year - 1)
  {
    if year > 1 {
      DaysOfYears(year - 1);
      LeapYearsGrow(year - 1);
    }
  }

  lemma EpochInMicros()
    ensures Micros(DateTime(1970, 1, 1, 0, 0, 0, 0)) == 719_162 * 86_400 * 1_000_000
  {
    DaysOfYears(1970);
    assert DaysBeforeYear(1970) == 719_162;
  }

  // -------------------------------------------------------------------- text

  // The BINARY collation: the first differing character decides, and a proper
  // prefix comes before its extensions.
  predicate TextLess(s: string, t: string) {
    t != "" && (s == "" || s[0] < t[0] || (s[0] == t[0] && TextLess(s[1..], t[1..])))
  }

  function Pow10(width: nat): nat {
    if width == 0 then 1 else 10 * Pow10(width - 1)
  }

  function Digit(n: nat): char
    requires n < 10
  {
    '0' + n as char
  }

  // `n` in decimal, zero-padded to exactly `width` digits.
  function Pad(n: nat, width: nat): (s: string)
    requires n < Pow10(width)
    ensures |s| == width
  {
    if width == 0 then "" else Pad(n / 10, width - 1) + [Digit(n % 10)]
  }

  function Tail(micro: nat): string
    requires micro < Pow10(6)
  {
    if micro == 0 then "+00:00" else "." + (Pad(micro, 6) + "+00:00")
  }

  lemma Widths()
    ensures Pow10(2) == 100 && Pow10(4) == 10_000 && Pow10(6) == 1_000_000
  {
    assert Pow10(2) == 100;
    assert Pow10(4) == 100 * Pow10(2);
    assert Pow10(6) == 100 * Pow10(4);
  }

  // encode_time: `isoformat()` of the value in UTC.
  function Encode(d: DateTime): string
    requires Valid(d)
  {
    Widths();
    Pad(d.year, 4) + ("-" + (Pad(d.month, 2) + ("-" + (Pad(d.day, 2) + ("T" +
    (Pad(d.hour, 2) + (":" + (Pad(d.minute, 2) + (":" + (Pad(d.second, 2) + Tail(d.micro)))))))))))
  }

  lemma TwoDigits(n: nat)
    requires n < 100
    ensures n < Pow10(2) && Pad(n, 2) == [Digit(n / 10), Digit(n % 10)]
  {
    Widths();
    assert Pad(n / 10, 1) == [Digit(n / 10)];
  }

  // A year is a century and a year in it, two digits each.
  lemma FourDigits(century: nat, year: nat)
    requires century < 100 && year < 100
    ensures 100 * century + year < Pow10(4) && century < Pow10(2) && year < Pow10(2)
    ensures Pad(100 * century + year, 4) == Pad(century, 2) + Pad(year, 2)
  {
    Widths();
    var n := 100 * century + year;
    assert n / 10 == 10 * century + year / 10 && n % 10 == year % 10;
    assert n / 10 / 10 == century && n / 10 % 10 == year / 10;
    assert Pad(n / 10, 3) == Pad(century, 2) + [Digit(year / 10)];
    TwoDigits(year);
  }

  function Two(n: nat): string
    requires n < 100
  {
    [Digit(n / 10), Digit(n % 10)]
  }

  // The columns of a stored time, two digits each, and nothing for a whole
  // second's fraction.
  lemma EncodingShape(d: DateTime, century: nat, year: nat)
    requires Valid(d) && d.year == 100 * century + year && year < 100
    ensures Encode(d) == Two(century) + Two(year) + "-" + Two(d.month) + "-" + Two(d.day) + "T"
                         + Two(d.hour) + ":" + Two(d.minute) + ":" + Two(d.second) + Tail(d.micro)
  {
    FourDigits(century, year);
    TwoDigits(century);
    TwoDigits(year);
    TwoDigits(d.month);
    TwoDigits(d.day);
    TwoDigits(d.hour);
    TwoDigits(d.minute);
    TwoDigits(d.second);
  }

  lemma TailShape(milli: nat, micro: nat)
    requires milli < 1000 && micro < 1000
    ensures 1000 * milli + micro < Pow10(6)
    ensures Tail(1000 * milli + micro)
            == if milli == micro == 0 then "+00:00"
               else "." + ([Digit(milli / 100)] + Two(milli % 100) + [Digit(micro / 100)] + Two(micro % 100)) + "+00:00"
  {
    Widths();
    SixDigits(milli, micro);
  }

  lemma ThreeMore(n: nat, micro: nat, width: nat)
    requires micro < 1000 && n < Pow10(width)
    ensures 1000 * n + micro < Pow10(width + 3)
    ensures Pad(1000 * n + micro, width + 3) == Pad(n, width) + ([Digit(micro / 100)] + Two(micro % 100))
  {
    assert Pow10(width + 3) == 10 * Pow10(width + 2) && Pow10(width + 2) == 10 * Pow10(width + 1);
    var all := 1000 * n + micro;
    assert all / 10 == 100 * n + micro / 10 && all % 10 == micro % 100 % 10;
    assert all / 10 / 10 == 10 * n + micro / 100 && all / 10 % 10 == micro % 100 / 10;
    assert all / 10 / 10 / 10 == n && all / 10 / 10 % 10 == micro / 100;
    assert Pad(all / 10 / 10, width + 1) == Pad(n, width) + [Digit(micro / 100)];
    assert Pad(all / 10, width + 2) == Pad(all / 10 / 10, width + 1) + [Digit(micro % 100 / 10)];
  }

  lemma SixDigits(milli: nat, micro: nat)
    requires milli < 1000 && micro < 1000
    ensures 1000 * milli + micro < Pow10(6)
    ensures Pad(1000 * milli + micro, 6)
            == [Digit(milli / 100)] + Two(milli % 100) + [Digit(micro / 100)] + Two(micro % 100)
  {
    ThreeMore(0, milli, 0);
    ThreeMore(milli, micro, 3);
  }

  lemma {:induction false} ConcatOrder(a: string, b: string, x: string, y: string)
    requires |a| == |b|
    ensures TextLess(a + x, b + y) <==> TextLess(a, b) || (a == b && TextLess(x, y))
  {
    if a == "" {
      assert a + x == x && b + y == y;
    } else {
      assert (a + x)[1..] == a[1..] + x && (b + y)[1..] == b[1..] + y;
      ConcatOrder(a[1..], b[1..], x, y);
      assert a == [a[0]] + a[1..] && b == [b[0]] + b[1..];
    }
  }

  lemma {:induction false} PadOrder(m: nat, n: nat, width: nat)
    requires m < Pow10(width) && n < Pow10(width)
    ensures TextLess(Pad(m, width), Pad(n, width)) <==> m < n
    ensures Pad(m, width) == Pad(n, width) <==> m == n
  {
    if width > 0 {
      var a, b := Pad(m / 10, width - 1), Pad(n / 10, width - 1);
      var x, y := [Digit(m % 10)], [Digit(n % 10)];
      PadOrder(m / 10, n / 10, width - 1);
      ConcatOrder(a, b, x, y);
      assert TextLess(x, y) <==> m % 10 < n % 10;
      assert (a + x == b + y) <==> (a == b && x == y) by {
        assert (a + x)[..width - 1] == a && (b + y)[..width - 1] == b;
        assert (a + x)[width - 1..] == x && (b + y)[width - 1..] == y;
      }
    }
  }

  // One fixed-width field followed by the rest of the string.
  lemma FieldOrder(m: nat, n: nat, width: nat, x: string, y: string)
    requires m < Pow10(width) && n < Pow10(width)
    ensures TextLess(Pad(m, width) + x, Pad(n, width) + y) <==> m < n || (m == n && TextLess(x, y))
  {
    PadOrder(m, n, width);
    ConcatOrder(Pad(m, width), Pad(n, width), x, y);
  }

  lemma SeparatorOrder(separator: char, x: string, y: string)
    ensures TextLess([separator] + x, [separator] + y) <==> TextLess(x, y)
  {
    ConcatOrder([separator], [separator], x, y);
    assert !TextLess([separator], [separator]);
  }

  lemma EqualIsNotLess(s: string)
    ensures !TextLess(s, s)
  {
  }

  // '+' sorts before '.', so a whole second sorts before its fractions.
  lemma TailOrder(m: nat, n: nat)
    requires m < Pow10(6) && n < Pow10(6)
    ensures TextLess(Tail(m), Tail(n)) <==> m < n
  {
    if m != 0 && n != 0 {
      SeparatorOrder('.', Pad(m, 6) + "+00:00", Pad(n, 6) + "+00:00");
      FieldOrder(m, n, 6, "+00:00", "+00:00");
      EqualIsNotLess("+00:00");
    } else if m == 0 && n == 0 {
      EqualIsNotLess("+00:00");
    }
  }

  // The main result: comparing the stored strings compares the instants, also
  // when only one of them prints a fraction.
  lemma EncodingPreservesOrder(a: DateTime, b: DateTime)
    requires Valid(a) && Valid(b)
    ensures TextLess(Encode(a), Encode(b)) <==> Micros(a) < Micros(b)
  {
    Widths();
    FieldOrderIsTimeOrder(a, b);
    var s5, t5 := Pad(a.second, 2) + Tail(a.micro), Pad(b.second, 2) + Tail(b.micro);
    var s4, t4 := Pad(a.minute, 2) + (":" + s5), Pad(b.minute, 2) + (":" + t5);
    var s3, t3 := Pad(a.hour, 2) + (":" + s4), Pad(b.hour, 2) + (":" + t4);
    var s2, t2 := Pad(a.day, 2) + ("T" + s3), Pad(b.day, 2) + ("T" + t3);
    var s1, t1 := Pad(a.month, 2) + ("-" + s2), Pad(b.month, 2) + ("-" + t2);
    TailOrder(a.micro, b.micro);
    FieldOrder(a.second, b.second, 2, Tail(a.micro), Tail(b.micro));
    SeparatorOrder(':', s5, t5);
    FieldOrder(a.minute, b.minute, 2, ":" + s5, ":" + t5);
    SeparatorOrder(':', s4, t4);
    FieldOrder(a.hour, b.hour, 2, ":" + s4, ":" + t4);
    SeparatorOrder('T', s3, t3);
    FieldOrder(a.day, b.day, 2, "T" + s3, "T" + t3);
    SeparatorOrder('-', s2, t2);
    FieldOrder(a.month, b.month, 2, "-" + s2, "-" + t2);
    SeparatorOrder('-', s1, t1);
    FieldOrder(a.year, b.year, 4, "-" + s1, "-" + t1);
  }

  // ----------------------------------------------------------------- parsing

  datatype Decoded = Absent | Malformed | At(value: DateTime)

  function ParseDigits(s: string): Option<nat> {
    if s == "" then
      Some(0)
    else
      var high :- ParseDigits(s[..|s| - 1]);
      var last := s[|s| - 1];
      if '0' <= last <= '9' then Some(10 * high + (last as int - '0' as int)) else None
  }

  // A field of `width` digits and the separator behind it.
  function TakeField(s: string, width: nat, separator: string): Option<(nat, string)> {
    if |s| < width + |separator| || s[width..width + |separator|] != separator then
      None
    else
      var n :- ParseDigits(s[..width]);
      Some((n, s[width + |separator|..]))
  }

  function TakeTail(s: string): Option<nat> {
    if s == "+00:00" then
      Some(0)
    else if s != "" && s[0] == '.' then
      var (micro, zone) :- TakeField(s[1..], 6, "");
      if zone == "+00:00" then Some(micro) else None
    else
      None
  }

  function ParseDateTime(s: string): Option<DateTime> {
    var (year, s1) :- TakeField(s, 4, "-");
    var (month, s2) :- TakeField(s1, 2, "-");
    var (day, s3) :- TakeField(s2, 2, "T");
    var (hour, s4) :- TakeField(s3, 2, ":");
    var (minute, s5) :- TakeField(s4, 2, ":");
    var (second, s6) :- TakeField(s5, 2, "");
    var micro :- TakeTail(s6);
    Some(DateTime(year, month, day, hour, minute, second, micro))
  }

  // decode_time on the strings encode_time writes; an empty column is no time.
  function Decode(s: string): Decoded {
    if s == "" then
      Absent
    else
      match ParseDateTime(s)
      case None => Malformed
      case Some(d) => if Valid(d) then At(d) else Malformed
  }

  lemma {:induction false} ParsePad(n: nat, width: nat)
    requires n < Pow10(width)
    ensures ParseDigits(Pad(n, width)) == Some(n)
  {
    if width > 0 {
      ParsePad(n / 10, width - 1);
      assert Pad(n, width)[..width - 1] == Pad(n / 10, width - 1);
    }
  }

  lemma TakePad(n: nat, width: nat, separator: string, rest: string)
    requires n < Pow10(width)
    ensures TakeField(Pad(n, width) + (separator + rest), width, separator) == Some((n, rest))
  {
    var s := Pad(n, width) + (separator + rest);
    ParsePad(n, width);
    assert s[..width] == Pad(n, width);
    assert s[width..width + |separator|] == separator;
    assert s[width + |separator|..] == rest;
  }

  lemma TakeTailOfTail(micro: nat)
    requires micro < Pow10(6)
    ensures TakeTail(Tail(micro)) == Some(micro)
  {
    if micro != 0 {
      TakePad(micro, 6, "", "+00:00");
      assert "" + "+00:00" == "+00:00";
      assert Tail(micro)[1..] == Pad(micro, 6) + "+00:00";
    }
  }

  // decode_time undoes encode_time, so distinct instants have distinct texts.
  lemma DecodeUndoesEncode(d: DateTime)
    requires Valid(d)
    ensures Decode(Encode(d)) == At(d)
  {
    Widths();
    var s5 := Pad(d.second, 2) + Tail(d.micro);
    var s4 := Pad(d.minute, 2) + (":" + s5);
    var s3 := Pad(d.hour, 2) + (":" + s4);
    var s2 := Pad(d.day, 2) + ("T" + s3);
    var s1 := Pad(d.month, 2) + ("-" + s2);
    TakePad(d.year, 4, "-", s1);
    TakePad(d.month, 2, "-", s2);
    TakePad(d.day, 2, "T", s3);
    TakePad(d.hour, 2, ":", s4);
    TakePad(d.minute, 2, ":", s5);
    TakePad(d.second, 2, "", Tail(d.micro));
    assert "" + Tail(d.micro) == Tail(d.micro);
    TakeTailOfTail(d.micro);
    assert ParseDateTime(Encode(d)) == Some(d);
  }
}
