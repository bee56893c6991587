/** The HTTP date parser of http.c.  Parsers read the text at an index, and give the value they find
    and the index behind it; a `time_t` is taken to be wide enough. */
module HttpDate {
  import opened Ascii
  import opened Calendar

  /** `buf[i]`, with the terminator behind the text. */
  function At(buf: string, i: nat): char {
    if i < |buf| then buf[i] else '\0'
  }

  // ---------------------------------------------------------------- the pieces of a date

  /** parseNDIGIT: what is not a digit is passed over. */
  function NDigit(buf: string, digits: nat, index: nat, value: nat): nat
    decreases digits
  {
    if digits == 0 then value
    else
      NDigit(buf, digits - 1, index + 1,
             if IsDigit(At(buf, index)) then value * 10 + (At(buf, index) as int - '0' as int) else value)
  }

  method ParseNDigit(buf: string, digits: nat, index: nat) returns (value: nat, next: nat)
    ensures value == NDigit(buf, digits, index, 0) && next == index + digits
  {
    value := 0;
    next := index;
    while next < index + digits
      invariant index <= next <= index + digits
      invariant NDigit(buf, index + digits - next, next, value) == NDigit(buf, digits, index, 0)
    {
      if IsDigit(At(buf, next)) {
        value := value * 10 + (At(buf, next) as int - '0' as int);
      }
      next := next + 1;
    }
  }

  /** parseMonth: the month counted from 0, or -1. */
  function MonthAt(buf: string, i: nat): (m: int)
    ensures -1 <= m < 12
  {
    match At(buf, i)
    case 'a' => if At(buf, i + 1) == 'p' then 3 else if At(buf, i + 1) == 'u' then 7 else -1
    case 'd' => 11
    case 'f' => 1
    case 'j' =>
      if At(buf, i + 1) == 'a' then 0
      else if At(buf, i + 1) == 'u' then
        (if At(buf, i + 2) == 'l' then 6 else if At(buf, i + 2) == 'n' then 5 else -1)
      else -1
    case 'm' =>
      if At(buf, i + 1) == 'a' then
        (if At(buf, i + 2) == 'r' then 2 else if At(buf, i + 2) == 'y' then 4 else -1)
      else -1
    case 'n' => 10
    case 'o' => 9
    case 's' => 8
    case _ => -1
  }

  /** parseWeekday: the weekday, or -1, and the index behind it. */
  function WeekdayAt(buf: string, i: nat): (int, nat) {
    match At(buf, i)
    case 'f' => (5, i + Inc(buf, i + 3, 'd', 7))
    case 'm' => (1, i + Inc(buf, i + 3, 'd', 7))
    case 's' =>
      if At(buf, i + 1) == 'a' then (6, i + Inc(buf, i + 3, 'u', 9))
      else if At(buf, i + 1) == 'u' then (0, i + Inc(buf, i + 3, 'd', 7))
      else (-1, i)
    case 't' =>
      if At(buf, i + 1) == 'h' then (4, i + Inc(buf, i + 3, 'r', 9))
      else if At(buf, i + 1) == 'u' then (2, i + Inc(buf, i + 3, 's', 8))
      else (-1, i)
    case 'w' => (3, i + Inc(buf, i + 3, 'n', 10))
    case _ => (-1, i)
  }

  /** getInc, with 3 for the short form. */
  function Inc(buf: string, i: nat, c: char, found: nat): nat {
    if At(buf, i) == c then found else 3
  }

  /** parseTime. */
  method ParseTime(buf: string, index: nat) returns (seconds: nat, next: nat)
    ensures seconds == Seconds(buf, index) && next == index + 8
  {
    var hour, i := ParseNDigit(buf, 2, index);
    var minute, second;
    minute, i := ParseNDigit(buf, 2, i + 1);
    second, i := ParseNDigit(buf, 2, i + 1);
    return (hour * 60 + minute) * 60 + second, i;
  }

  function Seconds(buf: string, i: nat): nat {
    (NDigit(buf, 2, i, 0) * 60 + NDigit(buf, 2, i + 3, 0)) * 60 + NDigit(buf, 2, i + 6, 0)
  }

  /** dateToTimet: seconds from the start of 1970 to a day of a month counted from 0. */
  function DateToTimet(year: int, month: int, day: int): int {
    (FixedFromGregorian(month + 1, day, year) - FixedFromGregorian(1, 1, 1970)) * 86400
  }

  /** The date after a comma, or -1. */
  function CommaDate(buf: string, i: nat): int {
    if At(buf, i) != ',' || MonthAt(buf, i + 5) < 0 then -1
    else
      var year := NDigit(buf, 4, i + 9, 0);
      if year < 1970 then 0 else DateToTimet(year, MonthAt(buf, i + 5), NDigit(buf, 2, i + 2, 0))
  }

  /** parseDate1or2. */
  method ParseDate1or2(buf: string, index: nat) returns (time: int, next: nat)
    ensures time == CommaDate(buf, index) && (time >= 0 ==> next == index + 13)
  {
    time, next := -1, index;
    if At(buf, index) == ',' {
      var i := index + 2;
      var day: int, month: int, year: int := -1, -1, -1;
      day, i := ParseNDigit(buf, 2, i);
      i := i + 1;
      month := MonthAt(buf, i);
      if month >= 0 {
        i := i + 3;
        i := i + 1;
        year, i := ParseNDigit(buf, 4, i);
      }
      if day >= 0 && month >= 0 && year >= 0 {
        time := if year < 1970 then 0 else DateToTimet(year, month, day);
        next := i;
      }
    }
  }

  /** Month, day, time and year without a comma, or -1. */
  function PlainDate(buf: string, i: nat): int {
    if MonthAt(buf, i) < 0 then -1
    else
      var day := if At(buf, i + 4) == ' ' then NDigit(buf, 1, i + 5, 0) else NDigit(buf, 2, i + 4, 0);
      DateToTimet(NDigit(buf, 4, i + 16, 0), MonthAt(buf, i), day) + Seconds(buf, i + 7)
  }

  /** parseDate3Time. */
  method ParseDate3Time(buf: string, index: nat) returns (time: int, next: nat)
    ensures time == PlainDate(buf, index)
  {
    time, next := -1, index;
    var month := MonthAt(buf, index);
    if month >= 0 {
      var i := index + 3;
      i := i + 1;
      var day, seconds, year;
      if At(buf, i) == ' ' {
        i := i + 1;
        day, i := ParseNDigit(buf, 1, i);
      } else {
        day, i := ParseNDigit(buf, 2, i);
      }
      i := i + 1;
      seconds, i := ParseTime(buf, i);
      i := i + 1;
      year, i := ParseNDigit(buf, 4, i);
      time := DateToTimet(year, month, day) + seconds;
      next := i;
    }
  }

  function LowerChar(c: char): char {
    if 'A' <= c <= 'Z' then (c as int + 32) as char else c
  }

  /** slower. */
  function Lower(s: string): (l: string)
    ensures |l| == |s| && forall i :: 0 <= i < |s| ==> l[i] == LowerChar(s[i])
  {
    if s == "" then "" else [LowerChar(s[0])] + Lower(s[1..])
  }

  /** dateParse, on a text in lower case. */
  function Parsed(cmd: string): int {
    var (weekday, i) := WeekdayAt(cmd, 0);
    if weekday < 0 then 0
    else if CommaDate(cmd, i) >= 0 then CommaDate(cmd, i) + Seconds(cmd, i + 14)
    else PlainDate(cmd, i + 1)
  }

  /** dateParse. */
  method DateParse(text: string) returns (time: int)
    ensures time == Parsed(Lower(text))
  {
    var cmd := Lower(text);
    time := 0;
    var (weekday, index) := WeekdayAt(cmd, 0);
    if weekday >= 0 {
      var date, behind := ParseDate1or2(cmd, index);
      if date >= 0 {
        var seconds;
        seconds, index := ParseTime(cmd, behind + 1);
        time := date + seconds;
      } else {
        index := index + 1;
        time, behind := ParseDate3Time(cmd, index);
      }
    }
  }

  // ---------------------------------------------------------------- the form of RFC 1123

  const DAYS := ["Sun", "Mon", "Tue", "Wed", "Thu", "Fri", "Sat"]
  const MONTHS := ["Jan", "Feb", "Mar", "Apr", "May", "Jun", "Jul", "Aug", "Sep", "Oct", "Nov", "Dec"]

  function Digit(n: nat): char {
    ('0' as int + n % 10) as char
  }

  function Two(n: nat): (s: string)
    ensures |s| == 2
  {
    [Digit(n / 10), Digit(n)]
  }

  function Four(n: nat): (s: string)
    ensures |s| == 4
  {
    [Digit(n / 1000), Digit(n / 100), Digit(n / 10), Digit(n)]
  }

  function Clock(hour: nat, minute: nat, second: nat): (s: string)
    ensures |s| == 8
  {
    Two(hour) + ":" + Two(minute) + ":" + Two(second)
  }

  /** A date as section 3.3.1 of RFC 2616 prefers it: "Sun, 06 Nov 1994 08:49:37 GMT". */
  function Rfc1123(weekday: nat, d: Date, hour: nat, minute: nat, second: nat): string
    requires weekday < 7 && 1 <= d.month <= 12
  {
    DAYS[weekday] + ", " + Two(d.day) + " " + MONTHS[d.month - 1] + " " + Four(d.year) + " "
    + Clock(hour, minute, second) + " GMT"
  }

  /** And as asctime writes it: "Sun Nov  6 08:49:37 1994". */
  function Asctime(weekday: nat, d: Date, hour: nat, minute: nat, second: nat): string
    requires weekday < 7 && 1 <= d.month <= 12
  {
    DAYS[weekday] + " " + MONTHS[d.month - 1] + " " + PaddedDay(d.day)
    + " " + Clock(hour, minute, second) + " " + Four(d.year)
  }

  function PaddedDay(day: nat): (s: string)
    ensures |s| == 2
  {
    if day < 10 then [' ', Digit(day)] else Two(day)
  }

  /** The time that is meant: whole days from the start of 1970, and the seconds of the day. */
  function Meant(d: Date, hour: nat, minute: nat, second: nat): int
    requires d.year >= 1 && 1 <= d.month <= 12
  {
    86400 * (Ordinal(d.month, d.day, d.year) - Ordinal(1, 1, 1970)) + 3600 * hour + 60 * minute + second
  }

  predicate Proper(weekday: nat, d: Date, hour: nat, minute: nat, second: nat) {
    weekday < 7 && Valid(d.month, d.day, d.year) && d.year <= 9999 && hour < 24 && minute < 60 && second <= 60
  }

  /** The piece `s` stands at `i`, in lower case. */
  predicate LowerAt(buf: string, i: nat, s: string) {
    forall k :: 0 <= k < |s| ==> At(buf, i + k) == LowerChar(s[k])
  }

  /** A text that starts with `a` and then `b` starts with `a`, and has `b` behind it. */
  lemma Piece(text: string, a: string, b: string)
    requires a + b <= text
    ensures a <= text && LowerAt(Lower(text), |a|, b)
  {
    assert forall k :: 0 <= k < |a| ==> text[k] == (a + b)[k] == a[k];
    assert forall k :: 0 <= k < |b| ==> text[|a| + k] == (a + b)[|a| + k] == b[k];
  }

  lemma ReadTwo(buf: string, i: nat, n: nat)
    requires n < 100 && LowerAt(buf, i, Two(n))
    ensures NDigit(buf, 2, i, 0) == n
  {
    assert Two(n)[0] == Digit(n / 10) && Two(n)[1] == Digit(n);
    assert NDigit(buf, 2, i, 0) == NDigit(buf, 1, i + 1, n / 10);
    assert NDigit(buf, 1, i + 1, n / 10) == NDigit(buf, 0, i + 2, n / 10 * 10 + n % 10);
  }

  lemma ReadFour(buf: string, i: nat, n: nat)
    requires n < 10000 && LowerAt(buf, i, Four(n))
    ensures NDigit(buf, 4, i, 0) == n
  {
    var f := Four(n);
    assert At(buf, i + 0) == LowerChar(f[0]) && At(buf, i + 1) == LowerChar(f[1]);
    assert At(buf, i + 2) == LowerChar(f[2]) && At(buf, i + 3) == LowerChar(f[3]);
    FourDigits(n);
    hide NDigit, Digit, Four, At, LowerAt, LowerChar;
    ReadDigit(buf, 4, i, 0, n / 1000);
    ReadDigit(buf, 3, i + 1, n / 1000, n / 100);
    ReadDigit(buf, 2, i + 2, n / 100, n / 10);
    ReadDigit(buf, 1, i + 3, n / 10, n);
    ReadNone(buf, i + 4, n);
  }

  lemma ReadNone(buf: string, i: nat, n: nat)
    ensures NDigit(buf, 0, i, n) == n
  {
  }

  lemma FourDigits(n: nat)
    requires n < 10000
    ensures n / 1000 == 0 * 10 + n / 1000 % 10 && n / 100 == n / 1000 * 10 + n / 100 % 10
    ensures n / 10 == n / 100 * 10 + n / 10 % 10 && n == n / 10 * 10 + n % 10
  {
  }

  lemma ReadDigit(buf: string, digits: nat, i: nat, before: nat, n: nat)
    requires digits > 0 && At(buf, i) == LowerChar(Digit(n)) && n == before * 10 + n % 10
    ensures NDigit(buf, digits, i, before) == NDigit(buf, digits - 1, i + 1, n)
  {
  }

  lemma ReadMonth(buf: string, i: nat, month: nat)
    requires month < 12 && LowerAt(buf, i, MONTHS[month])
    ensures MonthAt(buf, i) == month
  {
    var s := MONTHS[month];
    assert |s| == 3;
    assert At(buf, i + 0) == LowerChar(s[0]) && At(buf, i + 1) == LowerChar(s[1]) && At(buf, i + 2) == LowerChar(s[2]);
  }

  lemma ReadWeekday(buf: string, weekday: nat)
    requires weekday < 7 && LowerAt(buf, 0, DAYS[weekday]) && (At(buf, 3) == ',' || At(buf, 3) == ' ')
    ensures WeekdayAt(buf, 0) == (weekday as int, 3)
  {
    var s := DAYS[weekday];
    assert |s| == 3;
    assert At(buf, 0 + 0) == LowerChar(s[0]) && At(buf, 0 + 1) == LowerChar(s[1]);
  }

  lemma ReadClock(text: string, a: string, hour: nat, minute: nat, second: nat)
    requires a + Clock(hour, minute, second) <= text && hour < 24 && minute < 60 && second <= 60
    ensures a <= text && Seconds(Lower(text), |a|) == 3600 * hour + 60 * minute + second
  {
    var h, m, s := Two(hour), Two(minute), Two(second);
    var c1 := a + h;
    var c2 := c1 + ":";
    var c3 := c2 + m;
    var c4 := c3 + ":";
    assert a + Clock(hour, minute, second) == c4 + s;
    hide Lower, Two;
    Piece(text, c4, s);
    Piece(text, c3, ":");
    Piece(text, c2, m);
    Piece(text, c1, ":");
    Piece(text, a, h);
    var buf := Lower(text);
    ReadTwo(buf, |a|, hour);
    ReadTwo(buf, |a| + 3, minute);
    ReadTwo(buf, |a| + 6, second);
  }

  lemma MeantTime(d: Date, hour: nat, minute: nat, second: nat)
    requires Valid(d.month, d.day, d.year)
    ensures DateToTimet(d.year, d.month - 1, d.day) + (3600 * hour + 60 * minute + second)
         == Meant(d, hour, minute, second)
    ensures d.year >= 1970 ==> DateToTimet(d.year, d.month - 1, d.day) >= 0
  {
    FixedIsOrdinal(d.month, d.day, d.year);
    FixedIsOrdinal(1, 1, 1970);
    if d.year >= 1970 && d != Date(1, 1, 1970) {
      OrderKept(Date(1, 1, 1970), d);
    }
  }

  /** dateParse gives the time that a date in the form of RFC 1123 means, or of one before 1970 the seconds of
      the day. */
  lemma ParsesRfc1123(weekday: nat, d: Date, hour: nat, minute: nat, second: nat)
    requires Proper(weekday, d, hour, minute, second)
    ensures Parsed(Lower(Rfc1123(weekday, d, hour, minute, second)))
         == if d.year >= 1970 then Meant(d, hour, minute, second) else 3600 * hour + 60 * minute + second
  {
    var buf := Lower(Rfc1123(weekday, d, hour, minute, second));
    Rfc1123Pieces(weekday, d, hour, minute, second);
    hide Lower, Rfc1123, Two, Four, Seconds, NDigit, MonthAt, WeekdayAt, LowerAt, Meant, DateToTimet;
    ReadFour(buf, 12, d.year);
    ReadMonth(buf, 8, d.month - 1);
    ReadTwo(buf, 5, d.day);
    ReadWeekday(buf, weekday);
    MeantTime(d, hour, minute, second);
  }

  lemma Rfc1123Parts(weekday: nat, d: Date, hour: nat, minute: nat, second: nat)
    requires Proper(weekday, d, hour, minute, second)
    ensures 1 <= d.month <= 12
    ensures Rfc1123(weekday, d, hour, minute, second)
         == DAYS[weekday] + ", " + Two(d.day) + " " + MONTHS[d.month - 1] + " " + Four(d.year)
            + " " + Clock(hour, minute, second) + " GMT"
  {
    hide Clock, Four, Two;
  }

  lemma Rfc1123Pieces(weekday: nat, d: Date, hour: nat, minute: nat, second: nat)
    requires Proper(weekday, d, hour, minute, second)
    ensures var buf := Lower(Rfc1123(weekday, d, hour, minute, second));
            && LowerAt(buf, 0, DAYS[weekday]) && At(buf, 3) == ',' && LowerAt(buf, 5, Two(d.day))
            && LowerAt(buf, 8, MONTHS[d.month - 1]) && LowerAt(buf, 12, Four(d.year))
            && Seconds(buf, 17) == 3600 * hour + 60 * minute + second
  {
    hide Lower, Rfc1123, Two, Four, Clock, Seconds, LowerAt, Valid;
    Rfc1123Parts(weekday, d, hour, minute, second);
    var text, buf := Rfc1123(weekday, d, hour, minute, second), Lower(Rfc1123(weekday, d, hour, minute, second));
    NamesAreThree(weekday, d.month - 1);
    var p1 := DAYS[weekday];
    var p2 := p1 + ", ";
    var p3 := p2 + Two(d.day);
    var p4 := p3 + " ";
    var p5 := p4 + MONTHS[d.month - 1];
    var p6 := p5 + " ";
    var p7 := p6 + Four(d.year);
    var p8 := p7 + " ";
    var p9 := p8 + Clock(hour, minute, second);
    Piece(text, p9, " GMT");
    ReadClock(text, p8, hour, minute, second);
    Piece(text, p7, " ");
    Piece(text, p6, Four(d.year));
    Piece(text, p5, " ");
    Piece(text, p4, MONTHS[d.month - 1]);
    Piece(text, p3, " ");
    Piece(text, p2, Two(d.day));
    Piece(text, p1, ", ");
    ReadComma(buf, 3, ", ");
    StartsLow(text, p1);
  }

  lemma NamesAreThree(weekday: nat, month: nat)
    requires weekday < 7 && month < 12
    ensures |DAYS[weekday]| == 3 && |MONTHS[month]| == 3
  {
  }

  lemma StartsLow(text: string, a: string)
    requires a <= text
    ensures LowerAt(Lower(text), 0, a)
  {
    assert "" + a == a;
    Piece(text, "", a);
  }

  lemma ReadComma(buf: string, i: nat, s: string)
    requires LowerAt(buf, i, s) && s != ""
    ensures At(buf, i) == LowerChar(s[0])
  {
    assert At(buf, i + 0) == LowerChar(s[0]);
  }

  lemma AsctimeParts(weekday: nat, d: Date, hour: nat, minute: nat, second: nat)
    requires Proper(weekday, d, hour, minute, second)
    ensures 1 <= d.month <= 12 && d.day < 100
    ensures Asctime(weekday, d, hour, minute, second)
         == DAYS[weekday] + " " + MONTHS[d.month - 1] + " " + PaddedDay(d.day)
            + " " + Clock(hour, minute, second) + " " + Four(d.year)
  {
    hide Clock, Four;
  }

  /** And the time that one in the form of asctime means, negative before 1970. */
  lemma ParsesAsctime(weekday: nat, d: Date, hour: nat, minute: nat, second: nat)
    requires Proper(weekday, d, hour, minute, second)
    ensures Parsed(Lower(Asctime(weekday, d, hour, minute, second))) == Meant(d, hour, minute, second)
  {
    hide Lower, Asctime, Two, Four, Clock, Seconds, NDigit, MonthAt, WeekdayAt, LowerAt, Meant, Valid;
    hide DateToTimet, PaddedDay;
    AsctimeParts(weekday, d, hour, minute, second);
    var text, buf := Asctime(weekday, d, hour, minute, second), Lower(Asctime(weekday, d, hour, minute, second));
    NamesAreThree(weekday, d.month - 1);
    var day := PaddedDay(d.day);
    var p1 := DAYS[weekday];
    var p2 := p1 + " ";
    var p3 := p2 + MONTHS[d.month - 1];
    var p4 := p3 + " ";
    var p5 := p4 + day;
    var p6 := p5 + " ";
    var p7 := p6 + Clock(hour, minute, second);
    var p8 := p7 + " ";
    Piece(text, p8, Four(d.year));
    ReadFour(buf, 20, d.year);
    Piece(text, p7, " ");
    ReadClock(text, p6, hour, minute, second);
    Piece(text, p5, " ");
    Piece(text, p4, day);
    ReadDay(buf, 8, d.day);
    Piece(text, p3, " ");
    Piece(text, p2, MONTHS[d.month - 1]);
    ReadMonth(buf, 4, d.month - 1);
    Piece(text, p1, " ");
    ReadComma(buf, 3, " ");
    StartsLow(text, p1);
    ReadWeekday(buf, weekday);
    MeantTime(d, hour, minute, second);
  }

  lemma ReadDay(buf: string, i: nat, n: nat)
    requires n < 100 && LowerAt(buf, i, PaddedDay(n))
    ensures n == if At(buf, i) == ' ' then NDigit(buf, 1, i + 1, 0) else NDigit(buf, 2, i, 0)
  {
    var s := PaddedDay(n);
    assert At(buf, i + 0) == LowerChar(s[0]) && At(buf, i + 1) == LowerChar(s[1]);
    if n < 10 {
      assert NDigit(buf, 1, i + 1, 0) == NDigit(buf, 0, i + 2, n);
    } else {
      ReadTwo(buf, i, n);
    }
  }

  /** The result fits a 32-bit `time_t` exactly up to 03:14:07 on 19 January 2038. */
  lemma FitsThirtyTwoBits(d: Date, hour: nat, minute: nat, second: nat)
    requires Valid(d.month, d.day, d.year) && d.year >= 1970 && hour < 24 && minute < 60 && second < 60
    ensures Meant(d, hour, minute, second) < 0x8000_0000 <==>
              Before(d, Date(1, 19, 2038))
              || (d == Date(1, 19, 2038) && 3600 * hour + 60 * minute + second <= 3600 * 3 + 60 * 14 + 7)
  {
    FixedIsOrdinal(d.month, d.day, d.year);
    FixedIsOrdinal(1, 1, 1970);
    FixedIsOrdinal(1, 19, 2038);
    OrderKept(d, Date(1, 19, 2038));
    OrderKept(Date(1, 19, 2038), d);
  }

  const LONG_DAYS := ["Sunday", "Monday", "Tuesday", "Wednesday", "Thursday", "Friday", "Saturday"]

  /** The third form that section 3.3.1 of RFC 2616 asks for, "Sunday, 06-Nov-94 08:49:37 GMT", is never
      read: behind a long weekday the index stands on the space, and the comma is missed. */
  lemma Rfc850Missed(weekday: nat, rest: string)
    requires weekday < 7 && rest != "" && IsDigit(rest[0])
    ensures Parsed(Lower(LONG_DAYS[weekday] + ", " + rest)) == -1
  {
    var text := LONG_DAYS[weekday] + ", " + rest;
    var n := |LONG_DAYS[weekday]|;
    LongWeekday(weekday, rest);
    hide WeekdayAt, Parsed, LONG_DAYS;
    assert text[n + 1] == ' ' && text[n + 2] == rest[0];
    CommaMissed(Lower(text), weekday, n + 1);
  }

  lemma CommaMissed(buf: string, weekday: nat, i: nat)
    requires WeekdayAt(buf, 0) == (weekday as int, i) && At(buf, i) == ' ' && IsDigit(At(buf, i + 1))
    ensures Parsed(buf) == -1
  {
    hide WeekdayAt, At, DateToTimet, Seconds, NDigit;
  }

  lemma LongWeekday(weekday: nat, rest: string)
    requires weekday < 7
    ensures WeekdayAt(Lower(LONG_DAYS[weekday] + ", " + rest), 0)
         == (weekday as int, |LONG_DAYS[weekday]| + 1)
  {
    var s := LONG_DAYS[weekday];
    var buf := Lower(s + ", " + rest);
    hide Lower;
    assert |s| >= 6 && |buf| >= 6;
    assert forall k :: 0 <= k < 4 ==> buf[k] == LowerChar(s[k]);
  }

  /** The example of section 3.3.1 of RFC 2616, in both of its forms. */
  lemma ExampleDate()
    ensures Parsed(Lower("Sun, 06 Nov 1994 08:49:37 GMT")) == 784111777
    ensures Parsed(Lower("Sun Nov  6 08:49:37 1994")) == 784111777
  {
    hide *;
    var d := Date(11, 6, 1994);
    ExampleNumber();
    ParsesRfc1123(0, d, 8, 49, 37);
    ParsesAsctime(0, d, 8, 49, 37);
    ExamplePieces();
    FirstText();
    SecondText();
  }

  lemma ExampleNumber()
    ensures Proper(0, Date(11, 6, 1994), 8, 49, 37) && Meant(Date(11, 6, 1994), 8, 49, 37) == 784111777
  {
    ExampleDay();
    Epoch(1);
    hide Ordinal;
  }

  lemma ExampleDay()
    ensures Ordinal(11, 6, 1994) == 728238
  {
    FixedIsOrdinal(11, 6, 1994);
    hide Ordinal;
    assert !LeapYear(1994);
    assert (367 * 11 - 362) / 12 == 306 && 1993 / 4 == 498 && 1993 / 100 == 19 && 1993 / 400 == 4;
  }

  lemma ExamplePieces()
    ensures Two(6) == "06" && Four(1994) == "1994" && Clock(8, 49, 37) == "08:49:37" && PaddedDay(6) == " 6"
    ensures DAYS[0] == "Sun" && MONTHS[10] == "Nov"
  {
    assert Two(8) == "08" && Two(49) == "49" && Two(37) == "37";
    hide Two;
    assert "08" + ":" + "49" == "08:49" && "08:49" + ":" + "37" == "08:49:37";
  }

  lemma FirstText()
    requires Two(6) == "06" && Four(1994) == "1994" && Clock(8, 49, 37) == "08:49:37"
    requires DAYS[0] == "Sun" && MONTHS[10] == "Nov"
    ensures Rfc1123(0, Date(11, 6, 1994), 8, 49, 37) == "Sun, 06 Nov 1994 08:49:37 GMT"
  {
    hide Two, Four, Clock, DAYS, MONTHS;
    assert "Sun" + ", " + "06" + " " == "Sun, 06 ";
    assert "Sun, 06 " + "Nov" + " " == "Sun, 06 Nov ";
    assert "Sun, 06 Nov " + "1994" + " " == "Sun, 06 Nov 1994 ";
    assert "Sun, 06 Nov 1994 " + "08:49:37" + " GMT" == "Sun, 06 Nov 1994 08:49:37 GMT";
  }

  lemma SecondText()
    requires PaddedDay(6) == " 6" && Four(1994) == "1994" && Clock(8, 49, 37) == "08:49:37"
    requires DAYS[0] == "Sun" && MONTHS[10] == "Nov"
    ensures Asctime(0, Date(11, 6, 1994), 8, 49, 37) == "Sun Nov  6 08:49:37 1994"
  {
    hide PaddedDay, Four, Clock, DAYS, MONTHS;
    assert "Sun" + " " + "Nov" + " " == "Sun Nov ";
    assert "Sun Nov " + " 6" + " " == "Sun Nov  6 ";
    assert "Sun Nov  6 " + "08:49:37" + " " + "1994" == "Sun Nov  6 08:49:37 1994";
  }
}
