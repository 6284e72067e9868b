/** The `__DATE__` / `__TIME__` stamp of a build: a civil date from a Unix timestamp. */
module BuildStamp {
  import opened Decimals
  import opened Words

  // ----- the calendar, by its rules

  predicate Leap(y: int) {
    y % 4 == 0 && (y % 100 != 0 || y % 400 == 0)
  }

  function DaysInMonth(y: int, m: int): int
    requires 1 <= m <= 12
  {
    if m == 2 then (if Leap(y) then 29 else 28)
    else if m == 4 || m == 6 || m == 9 || m == 11 then 30 else 31
  }

  function DaysInYear(y: int): int { if Leap(y) then 366 else 365 }

  datatype Date = Date(year: int, month: int, day: int)

  predicate ValidDate(d: Date) {
    d.year >= 1970 && 1 <= d.month <= 12 && 1 <= d.day <= DaysInMonth(d.year, d.month)
  }

  /** Days in the years from 1970 up to and excluding `y`. */
  function YearsBefore(y: int): int
    requires y >= 1970
    decreases y
  {
    if y == 1970 then 0 else YearsBefore(y - 1) + DaysInYear(y - 1)
  }

  /** Days in the months of `y` before month `m`. */
  function MonthsBefore(y: int, m: int): int
    requires 1 <= m <= 13
    decreases m
  {
    if m == 1 then 0 else MonthsBefore(y, m - 1) + DaysInMonth(y, m - 1)
  }

  /** Days from 1970-01-01 to `d`, counted year by year and month by month. */
  function DayNumber(d: Date): int
    requires ValidDate(d)
  {
    YearsBefore(d.year) + MonthsBefore(d.year, d.month) + d.day - 1
  }

  /** The day after, by the calendar's own rule. */
  function Tomorrow(d: Date): Date
    requires ValidDate(d)
  {
    if d.day < DaysInMonth(d.year, d.month) then d.(day := d.day + 1)
    else if d.month < 12 then Date(d.year, d.month + 1, 1)
    else Date(d.year + 1, 1, 1)
  }

  // ----- the computation

  function YearOfEra(doe: int): int {
    (doe - doe / 1460 + doe / 36524 - doe / 146096) / 365
  }

  /** Day `doy` of the year that starts in March of `y`. */
  function FromMarch(y: int, doy: int): Date {
    var mp := (5 * doy + 2) / 153;
    var day := doy - (153 * mp + 2) / 5 + 1;
    var month := if mp < 10 then mp + 3 else mp - 9;
    Date(y + (if month <= 2 then 1 else 0), month, day)
  }

  /** Days before the `y`-th March year of an era. */
  function EraDays(y: int): int { 365 * y + y / 4 - y / 100 }

  /** Day `doe` of a 400-year era of March years. */
  function EraDate(era: int, doe: int): Date {
    var yoe := YearOfEra(doe);
    FromMarch(yoe + 400 * era, doe - EraDays(yoe))
  }

  /** The date of day `days` since 1970-01-01. */
  function CivilFromDays(days: int): Date {
    EraDate((days + 719468) / 146097, (days + 719468) % 146097)
  }

  // ----- counting in March years

  lemma Quotient(n: int, d: int, k: int)
    requires d > 0 && k * d <= n < k * d + d
    ensures n / d == k
  {
    var q := n / d;
    assert n == q * d + n % d;
    assert q < k ==> (q + 1) * d <= k * d;
    assert q > k ==> (k + 1) * d <= q * d;
  }

  /** Century, quadrennium, year within it, and day of the March year. */
  datatype Split = Split(c: int, q: int, p: int, t: int)

  predicate ValidSplit(x: Split) {
    && 0 <= x.c <= 3 && 0 <= x.q <= 24 && 0 <= x.p <= 3
    && (0 <= x.t <= 364 || (x.t == 365 && x.p == 3 && (x.q < 24 || x.c == 3)))
  }

  function Joined(x: Split): int { 36524 * x.c + 1461 * x.q + 365 * x.p + x.t }

  function YearOf(x: Split): int { 100 * x.c + 4 * x.q + x.p }

  lemma SplitEra(doe: int) returns (x: Split)
    requires 0 <= doe < 146097
    ensures ValidSplit(x) && Joined(x) == doe
  {
    var c := if doe == 146096 then 3 else doe / 36524;
    var r := doe - 36524 * c;
    var q := r / 1461;
    var u := r - 1461 * q;
    var p := if u == 1460 then 3 else u / 365;
    x := Split(c, q, p, u - 365 * p);
  }

  lemma EraDaysSplit(x: Split)
    requires ValidSplit(x)
    ensures EraDays(YearOf(x)) == Joined(x) - x.t
  {
    Quotient(YearOf(x), 4, 25 * x.c + x.q);
    Quotient(YearOf(x), 100, x.c);
  }

  lemma YearOfEraSplit(x: Split)
    requires ValidSplit(x)
    ensures YearOfEra(Joined(x)) == YearOf(x)
  {
    var doe := Joined(x);
    var last := doe == 146096;
    var extra := 24 * x.c + x.q + 365 * x.p + x.t >= 1460;
    Quotient(doe, 1460, 25 * x.c + x.q + if extra then 1 else 0);
    Quotient(doe, 36524, x.c + if last then 1 else 0);
    Quotient(doe, 146096, if last then 1 else 0);
    Quotient(doe - doe / 1460 + doe / 36524 - doe / 146096, 365, YearOf(x));
  }

  // ----- counting in civil years

  /** Leap days before 1 January of `y`. */
  function LeapDays(y: int): int { (y - 1) / 4 - (y - 1) / 100 + (y - 1) / 400 }

  /** A quotient grows by one exactly at the multiples. */
  lemma NextQuotient(y: int, d: int)
    requires d > 1
    ensures y / d == (y - 1) / d + if y % d == 0 then 1 else 0
  {
    var q, r := (y - 1) / d, (y - 1) % d;
    assert y - 1 == q * d + r;
    if r == d - 1 {
      assert (q + 1) * d == q * d + d;
      Quotient(y, d, q + 1);
    } else {
      Quotient(y, d, q);
    }
  }

  lemma MultipleOf(y: int, d: int, k: int)
    requires d > 0 && k > 0 && y % (k * d) == 0
    ensures y % d == 0
  {
    var q := y / (k * d);
    assert y == q * (k * d) == (q * k) * d;
    Quotient(y, d, q * k);
  }

  lemma LeapDaysStep(y: int)
    requires y >= 1
    ensures LeapDays(y + 1) == LeapDays(y) + if Leap(y) then 1 else 0
  {
    NextQuotient(y, 4);
    NextQuotient(y, 100);
    NextQuotient(y, 400);
    if y % 400 == 0 { MultipleOf(y, 100, 4); }
    if y % 100 == 0 { MultipleOf(y, 4, 25); }
  }

  lemma {:induction false} YearsBeforeValue(y: int)
    requires y >= 1970
    ensures YearsBefore(y) == 365 * (y - 1970) + LeapDays(y) - 477
    decreases y
  {
    if y > 1970 {
      YearsBeforeValue(y - 1);
      LeapDaysStep(y - 1);
    }
  }

  /** Days before month `mp` of a March year. */
  function MarchOffset(mp: int): int { (153 * mp + 2) / 5 }

  function MarchDays(y: int, mp: int): int
    requires 0 <= mp <= 11
  {
    DaysInMonth(y, if mp < 10 then mp + 3 else mp - 9)
  }

  /** The month and day picked for day `doy` of a March year whose February belongs to `y`. */
  lemma MonthFits(doy: int, y: int)
    requires 0 <= doy <= 364 || (doy == 365 && Leap(y))
    ensures var mp := (5 * doy + 2) / 153;
            && 0 <= mp <= 11
            && 1 <= doy - MarchOffset(mp) + 1 <= MarchDays(y, mp)
  {
    var mp := (5 * doy + 2) / 153;
    assert 0 <= mp <= 11;
    assert MarchOffset(0) == 0 && MarchOffset(1) == 31 && MarchOffset(2) == 61 && MarchOffset(3) == 92;
    assert MarchOffset(4) == 122 && MarchOffset(5) == 153 && MarchOffset(6) == 184 && MarchOffset(7) == 214;
    assert MarchOffset(8) == 245 && MarchOffset(9) == 275 && MarchOffset(10) == 306 && MarchOffset(11) == 337;
  }

  lemma MonthsBeforeValue(y: int, mp: int)
    requires 0 <= mp <= 11
    ensures mp < 10 ==> MonthsBefore(y, mp + 3) == MarchOffset(mp) + 59 + if Leap(y) then 1 else 0
    ensures mp >= 10 ==> MonthsBefore(y, mp - 9) == MarchOffset(mp) - 306
  {
    assert MonthsBefore(y, 2) == 31;
    assert MonthsBefore(y, 3) == 59 + if Leap(y) then 1 else 0;
    assert MonthsBefore(y, 4) == MonthsBefore(y, 3) + 31;
    assert MonthsBefore(y, 5) == MonthsBefore(y, 3) + 61;
    assert MonthsBefore(y, 6) == MonthsBefore(y, 3) + 92;
    assert MonthsBefore(y, 7) == MonthsBefore(y, 3) + 122;
    assert MonthsBefore(y, 8) == MonthsBefore(y, 3) + 153;
    assert MonthsBefore(y, 9) == MonthsBefore(y, 3) + 184;
    assert MonthsBefore(y, 10) == MonthsBefore(y, 3) + 214;
    assert MonthsBefore(y, 11) == MonthsBefore(y, 3) + 245;
    assert MonthsBefore(y, 12) == MonthsBefore(y, 3) + 275;
  }

  lemma Shift(n: int, d: int, k: int)
    requires d > 0
    ensures (n + k * d) / d == n / d + k && (n + k * d) % d == n % d
  {
    assert (n / d + k) * d == (n / d) * d + k * d;
    Quotient(n + k * d, d, n / d + k);
  }

  lemma LeapDaysOfEra(yoe: int, era: int)
    requires 0 <= yoe < 400
    ensures LeapDays(yoe + 400 * era + 1) == yoe / 4 - yoe / 100 + 97 * era
  {
    Shift(yoe, 4, 100 * era);
    Shift(yoe, 100, 4 * era);
    Shift(yoe, 400, era);
  }

  lemma LeapOfEra(y: int, era: int)
    ensures Leap(y + 400 * era) == Leap(y)
  {
    Shift(y, 4, 100 * era);
    Shift(y, 100, 4 * era);
    Shift(y, 400, era);
  }

  /** A 366th day means that the year ends in a leap year's February. */
  lemma LeapSplit(x: Split)
    requires ValidSplit(x) && x.t == 365
    ensures Leap(YearOf(x) + 1)
  {
    var y := YearOf(x) + 1;
    assert y == 4 * (25 * x.c + x.q + 1);
    if x.q < 24 {
      Shift(4 * x.q + 4, 100, x.c);
    }
  }

  /** Where day `doe` of an era falls: its March year, and the day of that year. */
  lemma YearOfEraFits(doe: int)
    requires 0 <= doe < 146097
    ensures var y := YearOfEra(doe);
            && 0 <= y <= 399 && EraDays(y) <= doe
            && (doe - EraDays(y) <= 364 || (doe - EraDays(y) == 365 && Leap(y + 1)))
  {
    var x := SplitEra(doe);
    EraDaysSplit(x);
    YearOfEraSplit(x);
    if x.t == 365 {
      LeapSplit(x);
    }
  }

  /** Days are counted from 1970, and so are the years. */
  lemma NotBefore1970(era: int, doe: int, yoe: int)
    requires 146097 * era + doe >= 719468 && 0 <= doe < 146097 && 0 <= yoe <= 399
    requires EraDays(yoe) <= doe <= EraDays(yoe) + 365
    ensures yoe + 400 * era >= 1970 || (yoe + 400 * era == 1969 && doe - EraDays(yoe) >= 306)
  {
    if era == 4 {
      assert doe >= 135080;
      assert yoe >= 369;
      assert EraDays(369) == 134774;
    }
  }

  lemma FromMarchValid(y: int, doy: int)
    requires 0 <= doy <= 364 || (doy == 365 && Leap(y + 1))
    requires y >= 1970 || (y == 1969 && doy >= 306)
    ensures ValidDate(FromMarch(y, doy))
  {
    MonthFits(doy, y + 1);
  }

  lemma SpringCounts(y: int, mp: int, day: int)
    requires 0 <= mp < 10 && ValidDate(Date(y, mp + 3, day))
    ensures DayNumber(Date(y, mp + 3, day)) == 365 * y + LeapDays(y + 1) + MarchOffset(mp) + day - 1 - 719468
  {
    YearsBeforeValue(y);
    MonthsBeforeValue(y, mp);
    LeapDaysStep(y);
  }

  lemma WinterCounts(y: int, mp: int, day: int)
    requires 10 <= mp <= 11 && ValidDate(Date(y + 1, mp - 9, day))
    ensures DayNumber(Date(y + 1, mp - 9, day)) == 365 * y + LeapDays(y + 1) + MarchOffset(mp) + day - 1 - 719468
  {
    YearsBeforeValue(y + 1);
    MonthsBeforeValue(y + 1, mp);
  }

  lemma FromMarchCounts(y: int, doy: int)
    requires 0 <= doy <= 364 || (doy == 365 && Leap(y + 1))
    requires y >= 1970 || (y == 1969 && doy >= 306)
    ensures ValidDate(FromMarch(y, doy))
    ensures DayNumber(FromMarch(y, doy)) == 365 * y + LeapDays(y + 1) + doy - 719468
  {
    FromMarchValid(y, doy);
    var mp := (5 * doy + 2) / 153;
    assert 0 <= mp <= 11 by { MonthFits(doy, y + 1); }
    if mp < 10 {
      SpringCounts(y, mp, doy - MarchOffset(mp) + 1);
    } else {
      WinterCounts(y, mp, doy - MarchOffset(mp) + 1);
    }
  }

  lemma EraCounts(era: int, doe: int)
    requires 0 <= doe < 146097 && 146097 * era + doe >= 719468
    ensures ValidDate(EraDate(era, doe)) && DayNumber(EraDate(era, doe)) == 146097 * era + doe - 719468
  {
    var yoe := YearOfEra(doe);
    YearOfEraFits(doe);
    NotBefore1970(era, doe, yoe);
    LeapOfEra(yoe + 1, era);
    FromMarchCounts(yoe + 400 * era, doe - EraDays(yoe));
    LeapDaysOfEra(yoe, era);
  }

  /** The date is valid, and it is the right one by the independent count. */
  lemma CivilIsRight(days: int)
    requires days >= 0
    ensures ValidDate(CivilFromDays(days)) && DayNumber(CivilFromDays(days)) == days
  {
    var era, doe := (days + 719468) / 146097, (days + 719468) % 146097;
    assert 146097 * era + doe == days + 719468;
    EraCounts(era, doe);
    assert CivilFromDays(days) == EraDate(era, doe);
  }

  // ----- consecutive days are consecutive dates

  lemma TomorrowCounts(d: Date)
    requires ValidDate(d)
    ensures ValidDate(Tomorrow(d)) && DayNumber(Tomorrow(d)) == DayNumber(d) + 1
  {
    if d.month == 12 && d.day == 31 {
      YearLength(d.year);
    }
  }

  lemma YearLength(y: int)
    ensures MonthsBefore(y, 13) == DaysInYear(y)
  {
    MonthsBeforeValue(y, 9);
  }

  lemma {:induction false} MonthsGrow(y: int, m: int, n: int)
    requires 1 <= m < n <= 13
    ensures MonthsBefore(y, m) + DaysInMonth(y, m) <= MonthsBefore(y, n)
    decreases n
  {
    if n > m + 1 {
      MonthsGrow(y, m, n - 1);
    }
  }

  lemma {:induction false} YearsGrow(y: int, y': int)
    requires 1970 <= y < y'
    ensures YearsBefore(y) + DaysInYear(y) <= YearsBefore(y')
    decreases y'
  {
    if y' > y + 1 {
      YearsGrow(y, y' - 1);
    }
  }

  predicate Earlier(d: Date, e: Date) {
    d.year < e.year || (d.year == e.year && (d.month < e.month || (d.month == e.month && d.day < e.day)))
  }

  lemma EarlierCounts(d: Date, e: Date)
    requires ValidDate(d) && ValidDate(e) && Earlier(d, e)
    ensures DayNumber(d) < DayNumber(e)
  {
    if d.year < e.year {
      YearsGrow(d.year, e.year);
      YearLength(d.year);
      MonthsGrow(d.year, d.month, 13);
      MonthsNatural(e.year, e.month);
    } else if d.month < e.month {
      MonthsGrow(d.year, d.month, e.month);
    }
  }

  lemma {:induction false} MonthsNatural(y: int, m: int)
    requires 1 <= m <= 13
    ensures MonthsBefore(y, m) >= 0
    decreases m
  {
    if m > 1 { MonthsNatural(y, m - 1); }
  }

  /** The count determines the date. */
  lemma SameCount(d: Date, e: Date)
    requires ValidDate(d) && ValidDate(e) && DayNumber(d) == DayNumber(e)
    ensures d == e
  {
    if Earlier(d, e) { EarlierCounts(d, e); }
    if Earlier(e, d) { EarlierCounts(e, d); }
  }

  lemma ConsecutiveDays(days: int)
    requires days >= 0
    ensures ValidDate(CivilFromDays(days)) && CivilFromDays(days + 1) == Tomorrow(CivilFromDays(days))
  {
    CivilIsRight(days);
    CivilIsRight(days + 1);
    TomorrowCounts(CivilFromDays(days));
    SameCount(CivilFromDays(days + 1), Tomorrow(CivilFromDays(days)));
  }

  /** Every valid date is reached, by its own count. */
  lemma CivilInverts(d: Date)
    requires ValidDate(d)
    ensures DayNumber(d) >= 0 && CivilFromDays(DayNumber(d)) == d
  {
    MonthsNatural(d.year, d.month);
    if d.year > 1970 { YearsGrow(1970, d.year); }
    CivilIsRight(DayNumber(d));
    SameCount(CivilFromDays(DayNumber(d)), d);
  }

  // ----- the two strings

  const MONTHS := ["Jan", "Feb", "Mar", "Apr", "May", "Jun", "Jul", "Aug", "Sep", "Oct", "Nov", "Dec"]

  /** `{:02}` and `{:>2}` for a number below 100. */
  function Two(n: int, pad: char): string
    requires 0 <= n <= 99
  {
    [if n < 10 then pad else Digit(n / 10), Digit(n % 10)]
  }

  /** `i64::try_from(x).unwrap_or(0)`. */
  function ToI64(x: int): int { if 0 <= x <= I64_MAX then x else 0 }

  /** `usize::try_from(x).unwrap_or(0)`. */
  function ToUsize(x: int): int { if x >= 0 then x else 0 }

  function DateText(d: Date): string
    requires ValidDate(d)
  {
    MONTHS[ToUsize(d.month - 1)] + " " + Two(d.day, ' ') + " " + Decimal(d.year)
  }

  function TimeText(rem: int): string
    requires 0 <= rem < 86400
  {
    Two(rem / 3600, '0') + ":" + Two((rem % 3600) / 60, '0') + ":" + Two(rem % 60, '0')
  }

  function Stamp(secs: int): (string, string)
    requires 0 <= secs <= U64_MAX
  {
    var days := ToI64(secs / 86400);
    CivilIsRight(days);
    (DateText(CivilFromDays(days)), TimeText(secs % 86400))
  }

  /** Neither fallback is ever taken, and every intermediate value fits a signed 64-bit integer. */
  lemma NoFallback(secs: int)
    requires 0 <= secs <= U64_MAX
    ensures ToI64(secs / 86400) == secs / 86400
    ensures ToUsize(CivilFromDays(secs / 86400).month - 1) == CivilFromDays(secs / 86400).month - 1
    ensures secs / 86400 + 719468 <= I64_MAX && CivilFromDays(secs / 86400).year <= I64_MAX
  {
    CivilIsRight(secs / 86400);
    YearsBeforeValue(CivilFromDays(secs / 86400).year);
    MonthsNatural(CivilFromDays(secs / 86400).year, CivilFromDays(secs / 86400).month);
  }

  // ----- reading the strings back

  /** A blank in front counts as zero. */
  function TwoValue(s: string): int
    requires |s| == 2
  {
    10 * (if s[0] == ' ' then 0 else DigitValue(s[0])) + DigitValue(s[1])
  }

  function MonthNumber(name: string): int {
    if name == "Jan" then 1 else if name == "Feb" then 2 else if name == "Mar" then 3
    else if name == "Apr" then 4 else if name == "May" then 5 else if name == "Jun" then 6
    else if name == "Jul" then 7 else if name == "Aug" then 8 else if name == "Sep" then 9
    else if name == "Oct" then 10 else if name == "Nov" then 11
    else if name == "Dec" then 12 else 0
  }

  function ParseDate(s: string): Date
    requires |s| >= 7
  {
    Date(Value(s[7..]), MonthNumber(s[..3]), TwoValue(s[4..6]))
  }

  function ParseTime(s: string): int
    requires |s| == 8
  {
    3600 * TwoValue(s[..2]) + 60 * TwoValue(s[3..5]) + TwoValue(s[6..])
  }

  lemma MonthNames(m: int)
    requires 1 <= m <= 12
    ensures |MONTHS[m - 1]| == 3 && MonthNumber(MONTHS[m - 1]) == m
  {
    assert MONTHS[0][0] == 'J' && MONTHS[0][1] == 'a';
  }

  lemma DateFields(m: string, d: string, y: string)
    requires |m| == 3 && |d| == 2
    ensures var t := m + " " + d + " " + y;
            && |t| == 7 + |y| && t[..3] == m && t[3] == ' ' && t[4..6] == d && t[6] == ' ' && t[7..] == y
            && t[4..5] == d[..1] && t[5..6] == d[1..]
  {
  }

  lemma DayReadsBack(n: int)
    requires 1 <= n <= 99
    ensures var d := Two(n, ' ');
            TwoValue(d) == n && d[0] != '0' && (d[0] == ' ' || Digits(d[..1])) && Digits(d[1..])
  {
  }

  lemma DateReadsBack(d: Date)
    requires ValidDate(d)
    ensures |DateText(d)| >= 8 && ParseDate(DateText(d)) == d
    ensures DateText(d)[3] == ' ' && DateText(d)[4] != '0' && DateText(d)[6] == ' ' && DateText(d)[7] != '0'
    ensures (DateText(d)[4] == ' ' || Digits(DateText(d)[4..5])) && Digits(DateText(d)[5..6]) && Digits(DateText(d)[7..])
  {
    MonthNames(d.month);
    DayReadsBack(d.day);
    ValueOfDecimal(d.year);
    var m, n, y := MONTHS[d.month - 1], Two(d.day, ' '), Decimal(d.year);
    DateFields(m, n, y);
    assert DateText(d) == m + " " + n + " " + y;
    assert DateText(d)[4] == DateText(d)[4..6][0] && DateText(d)[7] == DateText(d)[7..][0];
  }

  lemma TwoReadsBack(n: int)
    requires 0 <= n <= 99
    ensures TwoValue(Two(n, '0')) == n && Digits(Two(n, '0'))
  {
  }

  lemma HoursMinutesSeconds(rem: int)
    ensures rem == 3600 * (rem / 3600) + 60 * ((rem % 3600) / 60) + rem % 60
  {
    Shift(rem % 3600, 60, 60 * (rem / 3600));
    assert rem == rem % 3600 + 60 * (rem / 3600) * 60;
  }

  lemma TimeReadsBack(rem: int)
    requires 0 <= rem < 86400
    ensures |TimeText(rem)| == 8 && ParseTime(TimeText(rem)) == rem
    ensures TimeText(rem)[2] == ':' && TimeText(rem)[5] == ':'
    ensures Digits(TimeText(rem)[..2]) && Digits(TimeText(rem)[3..5]) && Digits(TimeText(rem)[6..])
    ensures TwoValue(TimeText(rem)[..2]) < 24 && TwoValue(TimeText(rem)[3..5]) < 60 && TwoValue(TimeText(rem)[6..]) < 60
  {
    var h, m, s := rem / 3600, (rem % 3600) / 60, rem % 60;
    HoursMinutesSeconds(rem);
    TwoReadsBack(h);
    TwoReadsBack(m);
    TwoReadsBack(s);
    Clock(Two(h, '0'), Two(m, '0'), Two(s, '0'));
  }

  lemma Clock(h: string, m: string, s: string)
    requires |h| == |m| == |s| == 2
    ensures var t := h + ":" + m + ":" + s;
            && |t| == 8 && t[..2] == h && t[2] == ':' && t[3..5] == m && t[5] == ':' && t[6..] == s
            && ParseTime(t) == 3600 * TwoValue(h) + 60 * TwoValue(m) + TwoValue(s)
  {
    var t := h + ":" + m + ":" + s;
    assert t[..2] == h && t[3..5] == m && t[6..] == s;
  }

  /**
    For every 64-bit timestamp the stamp reads back as the one valid date whose
    count is the day of the timestamp, and as the seconds of that day. The day is
    padded with a blank, the clock fields with zeros, the year not at all.
   */
  lemma StampIsRight(secs: int)
    requires 0 <= secs <= U64_MAX
    ensures var d := Stamp(secs).0;
            && |d| >= 8 && ValidDate(ParseDate(d)) && DayNumber(ParseDate(d)) == secs / 86400
            && d[3] == ' ' && d[4] != '0' && d[6] == ' ' && d[7] != '0'
            && (d[4] == ' ' || Digits(d[4..5])) && Digits(d[5..6]) && Digits(d[7..])
    ensures var t := Stamp(secs).1;
            && |t| == 8 && ParseTime(t) == secs % 86400
            && t[2] == ':' && t[5] == ':' && Digits(t[..2]) && Digits(t[3..5]) && Digits(t[6..])
            && TwoValue(t[..2]) < 24 && TwoValue(t[3..5]) < 60 && TwoValue(t[6..]) < 60
  {
    NoFallback(secs);
    CivilIsRight(secs / 86400);
    DateReadsBack(CivilFromDays(secs / 86400));
    TimeReadsBack(secs % 86400);
  }
}
