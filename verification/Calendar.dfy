/** `rfc3339`: the closed-form civil date against counting days on the calendar. */
module Calendar {
  import opened Decimal

  datatype Date = Date(year: int, month: int, day: int)

  // ------------------------------------------------------------- the Gregorian calendar

  predicate Leap(y: int) { y % 4 == 0 && (y % 100 != 0 || y % 400 == 0) }

  function MonthLength(y: int, m: int): int
    requires 1 <= m <= 12
  {
    if m == 2 then (if Leap(y) then 29 else 28)
    else if m == 4 || m == 6 || m == 9 || m == 11 then 30
    else 31
  }

  predicate ValidDate(d: Date) {
    1 <= d.month <= 12 && 1 <= d.day <= MonthLength(d.year, d.month)
  }

  function NextDay(d: Date): (n: Date)
    requires ValidDate(d)
    ensures ValidDate(n)
  {
    if d.day < MonthLength(d.year, d.month) then d.(day := d.day + 1)
    else if d.month < 12 then Date(d.year, d.month + 1, 1)
    else Date(d.year + 1, 1, 1)
  }

  /** Counting days one at a time from the epoch. */
  function CountDays(n: nat): (d: Date)
    ensures ValidDate(d)
  {
    if n == 0 then Date(1970, 1, 1) else NextDay(CountDays(n - 1))
  }

  predicate Before(a: Date, b: Date) {
    || a.year < b.year
    || (a.year == b.year && (a.month < b.month || (a.month == b.month && a.day < b.day)))
  }

  // ------------------------------------------------------------------- the closed form

  function YearOfEra(doe: int): int {
    (doe - doe / 1460 + doe / 36524 - doe / 146096) / 365
  }

  function MonthIndex(doy: int): int { (5 * doy + 2) / 153 }

  function FromMarch(year: int, doy: int): Date {
    var mp := MonthIndex(doy);
    var day := doy - (153 * mp + 2) / 5 + 1;
    var month := if mp < 10 then mp + 3 else mp - 9;
    Date(if month <= 2 then year + 1 else year, month, day)
  }

  /** The date arithmetic of `rfc3339`. */
  function CivilFromDays(days: int): Date {
    var z := days + 719468;
    var era := z / 146097;
    var doe := z % 146097;
    var yoe := YearOfEra(doe);
    var doy := doe - (365 * yoe + yoe / 4 - yoe / 100);
    FromMarch(yoe + era * 400, doy)
  }

  // ------------------------------------- an era as a clock of centuries, cycles and years

  /** A March-to-February year is long when the February that ends it has 29 days. */
  predicate LongYear(c: int, q: int, y: int) { y == 3 && (q < 24 || c == 3) }

  function YearLength(c: int, q: int, y: int): int { if LongYear(c, q, y) then 366 else 365 }

  predicate InEra(c: int, q: int, y: int, d: int) {
    0 <= c <= 3 && 0 <= q <= 24 && 0 <= y <= 3 && 0 <= d < YearLength(c, q, y)
  }

  function DayOfEra(c: int, q: int, y: int, d: int): int { 36524 * c + 1461 * q + 365 * y + d }

  lemma By1460(n: int, k: int) requires 1460 * k <= n < 1460 * k + 1460 ensures n / 1460 == k {}

  lemma By36524(n: int, k: int) requires 36524 * k <= n < 36524 * k + 36524 ensures n / 36524 == k {}

  lemma By365(n: int, k: int) requires 365 * k <= n < 365 * k + 365 ensures n / 365 == k {}

  lemma By4(n: int, k: int) requires 4 * k <= n < 4 * k + 4 ensures n / 4 == k {}

  lemma By100(n: int, k: int) requires 100 * k <= n < 100 * k + 100 ensures n / 100 == k {}

  /** The corrections for leap days, centuries and the 400-year day cancel to a plain
      365-day year number, give or take the one day `e` that division discards. */
  lemma LeapDaysCancel(c: int, q: int, y: int, d: int) returns (e: int)
    requires InEra(c, q, y, d)
    ensures 0 <= d - e < 365
    ensures var doe := DayOfEra(c, q, y, d);
      0 <= doe < 146097 && doe - doe / 1460 + doe / 36524 - doe / 146096 == 365 * (100 * c + 4 * q + y) + (d - e)
  {
    var doe := DayOfEra(c, q, y, d);
    e := if 24 * c + q + 365 * y + d >= 1460 then 1 else 0;
    By1460(doe, 25 * c + q + e);
    if doe < 146096 {
      By36524(doe, c);
      assert doe / 146096 == 0;
    } else {
      assert doe == 146096;
      By36524(doe, 4);
      assert doe / 146096 == 1;
    }
  }

  /** The closed-form year and day of year read that clock. */
  lemma EraArithmetic(c: int, q: int, y: int, d: int)
    requires InEra(c, q, y, d)
    ensures var doe, yoe := DayOfEra(c, q, y, d), 100 * c + 4 * q + y;
      0 <= doe < 146097 && YearOfEra(doe) == yoe && doe - (365 * yoe + yoe / 4 - yoe / 100) == d
  {
    var yoe := 100 * c + 4 * q + y;
    var e := LeapDaysCancel(c, q, y, d);
    By365(365 * yoe + (d - e), yoe);
    By4(yoe, 25 * c + q);
    By100(yoe, c);
  }

  lemma EraPosition(doe: int) returns (c: int, q: int, y: int, d: int)
    requires 0 <= doe < 146097
    ensures InEra(c, q, y, d) && DayOfEra(c, q, y, d) == doe
  {
    c := if doe == 146096 then 3 else doe / 36524;
    var r := doe - 36524 * c;
    q := r / 1461;
    var s := r - 1461 * q;
    y := if s == 1460 then 3 else s / 365;
    d := s - 365 * y;
  }

  /** What the closed form makes of the day at a given position of that clock. */
  lemma CivilAt(days: int, era: int, c: int, q: int, y: int, d: int)
    requires InEra(c, q, y, d) && days == 146097 * era + DayOfEra(c, q, y, d) - 719468
    ensures CivilFromDays(days) == FromMarch(400 * era + 100 * c + 4 * q + y, d)
  {
    var doe, yoe := DayOfEra(c, q, y, d), 100 * c + 4 * q + y;
    EraArithmetic(c, q, y, d);
    By146097(days + 719468, era, doe);
    CivilInEra(days, era, doe, yoe, d);
  }

  lemma By146097(z: int, era: int, doe: int)
    requires z == 146097 * era + doe && 0 <= doe < 146097
    ensures z / 146097 == era && z % 146097 == doe
  {
  }

  lemma CivilInEra(days: int, era: int, doe: int, yoe: int, doy: int)
    requires (days + 719468) / 146097 == era && (days + 719468) % 146097 == doe
    requires YearOfEra(doe) == yoe && doe - (365 * yoe + yoe / 4 - yoe / 100) == doy
    ensures CivilFromDays(days) == FromMarch(yoe + era * 400, doy)
  {
  }

  lemma LongYearIsLeap(era: int, c: int, q: int, y: int)
    requires 0 <= c <= 3 && 0 <= q <= 24 && 0 <= y <= 3
    ensures Leap(400 * era + 100 * c + 4 * q + y + 1) <==> LongYear(c, q, y)
  {
    var n := 400 * era + 100 * c + 4 * q + y + 1;
    var wraps := q == 24 && y == 3;
    var last := wraps && c == 3;
    Modulo4(100 * era + 25 * c + q + (if y == 3 then 1 else 0), if y == 3 then 0 else y + 1, n);
    Modulo100(4 * era + c + (if wraps then 1 else 0), if wraps then 0 else 4 * q + y + 1, n);
    Modulo400(era + (if last then 1 else 0), if last then 0 else 100 * c + 4 * q + y + 1, n);
  }

  lemma Modulo4(k: int, r: int, n: int)
    requires 0 <= r < 4 && n == 4 * k + r
    ensures n % 4 == r
  {
  }

  lemma Modulo100(k: int, r: int, n: int)
    requires 0 <= r < 100 && n == 100 * k + r
    ensures n % 100 == r
  {
  }

  lemma Modulo400(k: int, r: int, n: int)
    requires 0 <= r < 400 && n == 400 * k + r
    ensures n % 400 == r
  {
  }

  // ----------------------------------------------------------- months counted from March

  function MarchYearLength(long: bool): int { if long then 366 else 365 }

  function MonthStart(mp: int): int { (153 * mp + 2) / 5 }

  lemma MonthBracket(doy: int)
    requires 0 <= doy <= 365
    ensures 0 <= MonthIndex(doy) <= 11
    ensures MonthStart(MonthIndex(doy)) <= doy < MonthStart(MonthIndex(doy) + 1)
  {
  }

  lemma MonthStarts()
    ensures MonthStart(0) == 0 && MonthStart(1) == 31 && MonthStart(2) == 61 && MonthStart(3) == 92
    ensures MonthStart(4) == 122 && MonthStart(5) == 153 && MonthStart(6) == 184 && MonthStart(7) == 214
    ensures MonthStart(8) == 245 && MonthStart(9) == 275 && MonthStart(10) == 306 && MonthStart(11) == 337
    ensures MonthStart(12) == 367
  {
  }

  /** A date read off the month table. */
  function MonthDay(year: int, mp: int, day: int): Date {
    Date(if mp < 10 then year else year + 1, if mp < 10 then mp + 3 else mp - 9, day)
  }

  lemma FromMarchIsMonthDay(year: int, doy: int) returns (mp: int, day: int)
    requires 0 <= doy <= 365
    ensures 0 <= mp <= 11 && day >= 1 && MonthStart(mp) + day == doy + 1 <= MonthStart(mp + 1)
    ensures FromMarch(year, doy) == MonthDay(year, mp, day)
  {
    MonthBracket(doy);
    mp := MonthIndex(doy);
    day := doy - MonthStart(mp) + 1;
  }

  lemma MonthStartsIncrease(a: int, b: int)
    requires 0 <= a <= 12 && 0 <= b <= 12 && a < b
    ensures MonthStart(a + 1) <= MonthStart(b)
  {
    MonthStarts();
  }

  lemma MonthDayNext(year: int, mp: int, day: int, long: bool)
    requires 0 <= mp <= 11 && 1 <= day && MonthStart(mp) + day <= MonthStart(mp + 1)
    requires long == Leap(year + 1) && MonthStart(mp) + day <= MarchYearLength(long)
    ensures ValidDate(MonthDay(year, mp, day))
    ensures MonthStart(mp) + day < MarchYearLength(long) ==>
      NextDay(MonthDay(year, mp, day)) ==
      if MonthStart(mp) + day < MonthStart(mp + 1) then MonthDay(year, mp, day + 1) else MonthDay(year, mp + 1, 1)
  {
    MonthStarts();
  }

  lemma MarchSuccessor(year: int, doy: int, long: bool)
    requires long == Leap(year + 1) && 0 <= doy < MarchYearLength(long)
    ensures ValidDate(FromMarch(year, doy))
    ensures doy + 1 < MarchYearLength(long) ==> FromMarch(year, doy + 1) == NextDay(FromMarch(year, doy))
  {
    var mp, day := FromMarchIsMonthDay(year, doy);
    MonthDayNext(year, mp, day, long);
    if doy + 1 < MarchYearLength(long) {
      var mp', day' := FromMarchIsMonthDay(year, doy + 1);
      if mp' < mp { MonthStartsIncrease(mp', mp); }
      if mp < mp' { MonthStartsIncrease(mp, mp'); }
      if mp + 1 < mp' { MonthStartsIncrease(mp + 1, mp'); }
    }
  }

  lemma LastDayOfFebruary(year: int, long: bool)
    ensures FromMarch(year, MarchYearLength(long) - 1) == Date(year + 1, 2, if long then 29 else 28)
  {
    assert MonthIndex(MarchYearLength(long) - 1) == 11;
  }

  lemma FirstDayOfMarch(year: int)
    ensures FromMarch(year, 0) == Date(year, 3, 1)
  {
  }

  lemma FebruaryEnds(year: int)
    ensures var end := Date(year, 2, if Leap(year) then 29 else 28);
      ValidDate(end) && NextDay(end) == Date(year, 3, 1)
  {
  }

  // ------------------------------------------------------------------------ the theorems

  /** One day later on the era clock, with its carries. */
  function NextPosition(p: (int, int, int, int, int)): (int, int, int, int, int) {
    var (era, c, q, y, d) := p;
    if d + 1 < YearLength(c, q, y) then (era, c, q, y, d + 1)
    else if y < 3 then (era, c, q, y + 1, 0)
    else if q < 24 then (era, c, q + 1, 0, 0)
    else if c < 3 then (era, c + 1, 0, 0, 0)
    else (era + 1, 0, 0, 0, 0)
  }

  lemma NextPositionInEra(era: int, c: int, q: int, y: int, d: int)
    requires InEra(c, q, y, d)
    ensures var (_, c', q', y', d') := NextPosition((era, c, q, y, d)); InEra(c', q', y', d')
  {
  }

  lemma NextPositionIsNextDay(era: int, c: int, q: int, y: int, d: int)
    requires InEra(c, q, y, d)
    ensures var (era', c', q', y', d') := NextPosition((era, c, q, y, d));
      146097 * era' + DayOfEra(c', q', y', d') == 146097 * era + DayOfEra(c, q, y, d) + 1
  {
    if d + 1 < YearLength(c, q, y) {
      assert NextPosition((era, c, q, y, d)) == (era, c, q, y, d + 1);
    } else if y < 3 {
      assert d == 364 && NextPosition((era, c, q, y, d)) == (era, c, q, y + 1, 0);
    } else if q < 24 {
      assert d == 365 && NextPosition((era, c, q, y, d)) == (era, c, q + 1, 0, 0);
    } else if c < 3 {
      assert d == 364 && NextPosition((era, c, q, y, d)) == (era, c + 1, 0, 0, 0);
    } else {
      assert d == 365 && NextPosition((era, c, q, y, d)) == (era + 1, 0, 0, 0, 0);
    }
  }

  lemma NextPositionYear(era: int, c: int, q: int, y: int, d: int)
    requires InEra(c, q, y, d)
    ensures var (era', c', q', y', d') := NextPosition((era, c, q, y, d));
      var year, year' := 400 * era + 100 * c + 4 * q + y, 400 * era' + 100 * c' + 4 * q' + y';
      if d + 1 < YearLength(c, q, y) then year' == year && d' == d + 1 else year' == year + 1 && d' == 0
  {
  }

  lemma MarchYearTicks(year: int, d: int, long: bool)
    requires Leap(year + 1) == long && 0 <= d < MarchYearLength(long)
    ensures ValidDate(FromMarch(year, d))
    ensures NextDay(FromMarch(year, d)) ==
      if d + 1 < MarchYearLength(long) then FromMarch(year, d + 1) else FromMarch(year + 1, 0)
  {
    MarchSuccessor(year, d, long);
    if d + 1 == MarchYearLength(long) {
      FebruaryEnds(year + 1);
      LastDayOfFebruary(year, long);
      FirstDayOfMarch(year + 1);
    }
  }

  lemma EraOf(z: int) returns (era: int, doe: int)
    ensures 0 <= doe < 146097 && z == 146097 * era + doe
  {
    era, doe := z / 146097, z % 146097;
  }

  lemma TwoDays(days: int) returns (era: int, c: int, q: int, y: int, d: int, year: int,
                                    era': int, c': int, q': int, y': int, d': int, year': int)
    ensures InEra(c, q, y, d) && days == 146097 * era + DayOfEra(c, q, y, d) - 719468
    ensures InEra(c', q', y', d') && days + 1 == 146097 * era' + DayOfEra(c', q', y', d') - 719468
    ensures year == 400 * era + 100 * c + 4 * q + y && year' == 400 * era' + 100 * c' + 4 * q' + y'
    ensures if d + 1 < YearLength(c, q, y) then year' == year && d' == d + 1 else year' == year + 1 && d' == 0
  {
    var doe;
    era, doe := EraOf(days + 719468);
    c, q, y, d := EraPosition(doe);
    var p := NextPosition((era, c, q, y, d));
    era', c', q', y', d' := p.0, p.1, p.2, p.3, p.4;
    NextPositionInEra(era, c, q, y, d);
    NextPositionIsNextDay(era, c, q, y, d);
    NextPositionYear(era, c, q, y, d);
    year, year' := 400 * era + 100 * c + 4 * q + y, 400 * era' + 100 * c' + 4 * q' + y';
  }

  lemma TickTo(era: int, c: int, q: int, y: int, d: int, year: int, year': int, d': int)
    requires InEra(c, q, y, d) && year == 400 * era + 100 * c + 4 * q + y
    requires if d + 1 < YearLength(c, q, y) then year' == year && d' == d + 1 else year' == year + 1 && d' == 0
    ensures ValidDate(FromMarch(year, d)) && NextDay(FromMarch(year, d)) == FromMarch(year', d')
  {
    TickAt(era, c, q, y, d, year);
  }

  lemma TickAt(era: int, c: int, q: int, y: int, d: int, year: int)
    requires InEra(c, q, y, d) && year == 400 * era + 100 * c + 4 * q + y
    ensures ValidDate(FromMarch(year, d))
    ensures NextDay(FromMarch(year, d)) ==
      if d + 1 < YearLength(c, q, y) then FromMarch(year, d + 1) else FromMarch(year + 1, 0)
  {
    LongYearIsLeap(era, c, q, y);
    MarchYearTicks(year, d, LongYear(c, q, y));
  }

  lemma CivilIn(days: int, era: int, c: int, q: int, y: int, d: int, year: int)
    requires InEra(c, q, y, d) && days == 146097 * era + DayOfEra(c, q, y, d) - 719468
    requires year == 400 * era + 100 * c + 4 * q + y
    ensures CivilFromDays(days) == FromMarch(year, d)
  {
    CivilAt(days, era, c, q, y, d);
  }

  /** The day after day n is its calendar successor, leap rules included; for every n. */
  lemma NextDayIsSuccessor(days: int)
    ensures ValidDate(CivilFromDays(days))
    ensures CivilFromDays(days + 1) == NextDay(CivilFromDays(days))
  {
    var era, c, q, y, d, year, era', c', q', y', d', year' := TwoDays(days);
    TickTo(era, c, q, y, d, year, year', d');
    CivilIn(days, era, c, q, y, d, year);
    CivilIn(days + 1, era', c', q', y', d', year');
  }

  lemma Epoch()
    ensures CivilFromDays(0) == Date(1970, 1, 1)
  {
    CivilAt(0, 4, 3, 17, 1, 306);
    assert MonthIndex(306) == 10;
  }

  ghost predicate StepsByOneDay(f: nat -> Date) {
    forall n: nat :: ValidDate(f(n)) && f(n + 1) == NextDay(f(n))
  }

  function Civil(): nat -> Date { (n: nat) => CivilFromDays(n) }

  lemma CivilSteps()
    ensures StepsByOneDay(Civil())
  {
    forall n: nat ensures ValidDate(Civil()(n)) && Civil()(n + 1) == NextDay(Civil()(n)) {
      NextDayIsSuccessor(n);
    }
  }

  lemma {:induction false} StepsAreCounting(f: nat -> Date, n: nat)
    requires StepsByOneDay(f) && f(0) == Date(1970, 1, 1)
    ensures f(n) == CountDays(n)
  {
    if n > 0 {
      StepsAreCounting(f, n - 1);
      assert f(n - 1 + 1) == NextDay(f(n - 1));
    }
  }

  /** Closed form and day-by-day counting agree on every day since the epoch. */
  lemma CivilIsCounting(n: nat)
    ensures CivilFromDays(n) == CountDays(n)
  {
    CivilSteps();
    Epoch();
    StepsAreCounting(Civil(), n);
  }

  lemma {:induction false} CountingIncreases(m: nat, n: nat)
    requires m < n
    ensures Before(CountDays(m), CountDays(n))
    decreases n
  {
    if m < n - 1 {
      CountingIncreases(m, n - 1);
    }
  }

  lemma DatesIncrease(m: nat, n: nat)
    requires m < n
    ensures Before(CivilFromDays(m), CivilFromDays(n))
  {
    CivilIsCounting(m);
    CivilIsCounting(n);
    CountingIncreases(m, n);
  }

  // ------------------------------------------------------------------------- the text

  // 10000-01-01T00:00:00Z
  const FIVE_DIGIT_YEARS: nat := 253402300800

  function Zeros(n: nat): string { seq(n, _ => '0') }

  /** `{:0width}` on a non-negative number. */
  function Pad(n: nat, width: nat): string {
    (if |Text(n)| < width then Zeros(width - |Text(n)|) else "") + Text(n)
  }

  datatype Moment = Moment(date: Date, hour: int, minute: int, second: int)

  /** A date and time of day whose year prints without padding. */
  predicate Printable(t: Moment) {
    && t.date.year >= 1970 && 1 <= t.date.month <= 12 && 1 <= t.date.day <= 31
    && 0 <= t.hour < 24 && 0 <= t.minute < 60 && 0 <= t.second < 60
  }

  function MomentOf(unix: nat): Moment {
    Moment(CivilFromDays(unix / 86400), unix % 86400 / 3600, unix % 86400 % 3600 / 60, unix % 86400 % 60)
  }

  function Format(t: Moment): string
    requires Printable(t)
  {
    Pad(t.date.year, 4) + "-" + Pad(t.date.month, 2) + "-" + Pad(t.date.day, 2) + "T"
    + Pad(t.hour, 2) + ":" + Pad(t.minute, 2) + ":" + Pad(t.second, 2) + "Z"
  }

  /** `rfc3339` */
  function Rfc3339(unix: nat): string {
    MomentIsPrintable(unix);
    Format(MomentOf(unix))
  }

  lemma PadTwo(n: nat)
    requires n < 100
    ensures Pad(n, 2) == [Char(n / 10), Char(n % 10)]
  {
    if n < 10 {
      assert Digits(n) == [n];
      assert Pad(n, 2) == Zeros(1) + Text(n);
    } else {
      assert Digits(n) == Digits(n / 10) + [n % 10] && Digits(n / 10) == [n / 10];
    }
  }

  lemma YearDigits(n: nat)
    requires n >= 1970
    ensures Pad(n, 4) == Text(n) && |Text(n)| >= 4
    ensures |Text(n)| == 4 <==> n <= 9999
  {
    assert Digits(n) == Digits(n / 10) + [n % 10];
    assert Digits(n / 10) == Digits(n / 100) + [n / 10 % 10];
    assert Digits(n / 100) == Digits(n / 1000) + [n / 100 % 10];
    if n <= 9999 {
      assert Digits(n / 1000) == [n / 1000];
    } else {
      assert Digits(n / 1000) == Digits(n / 10000) + [n / 1000 % 10];
    }
  }

  lemma DateRanges(n: nat)
    ensures var d := CivilFromDays(n);
      ValidDate(d) && d.year >= 1970
  {
    CivilIsCounting(n);
    if n > 0 {
      CountingIncreases(0, n);
    }
  }

  lemma TimeOfDay(r: nat)
    requires r < 86400
    ensures 0 <= r / 3600 < 24 && 0 <= r % 3600 / 60 < 60 && 0 <= r % 60 < 60
    ensures r == r / 3600 * 3600 + r % 3600 / 60 * 60 + r % 60
  {
    assert r % 60 == r % 3600 % 60;
  }

  /** Every second has a valid Gregorian date and a valid time of day, which give it back. */
  lemma MomentIsPrintable(unix: nat)
    ensures var t := MomentOf(unix);
      && Printable(t) && ValidDate(t.date)
      && unix == unix / 86400 * 86400 + t.hour * 3600 + t.minute * 60 + t.second
  {
    DateRanges(unix / 86400);
    TimeOfDay(unix % 86400);
  }

  lemma Sixteen(a: string, b: string, c: string, d: string, e: string, y: string)
    requires |a| == |b| == |c| == |d| == |e| == 2
    ensures var t := y + "-" + a + "-" + b + "T" + c + ":" + d + ":" + e + "Z";
      && |t| == |y| + 16 && t[..|t| - 16] == y
      && t[|t| - 15..|t| - 13] == a && t[|t| - 12..|t| - 10] == b && t[|t| - 9..|t| - 7] == c
      && t[|t| - 6..|t| - 4] == d && t[|t| - 3..|t| - 1] == e
  {
  }

  /** The parts of the text, at fixed distances from its end. */
  lemma TextLayout(t: Moment)
    requires Printable(t)
    ensures var s := Format(t);
      && |s| == |Text(t.date.year)| + 16 && s[..|s| - 16] == Text(t.date.year)
      && s[|s| - 15..|s| - 13] == Pad(t.date.month, 2) && s[|s| - 12..|s| - 10] == Pad(t.date.day, 2)
      && s[|s| - 9..|s| - 7] == Pad(t.hour, 2) && s[|s| - 6..|s| - 4] == Pad(t.minute, 2)
      && s[|s| - 3..|s| - 1] == Pad(t.second, 2)
  {
    YearDigits(t.date.year);
    PadTwo(t.date.month); PadTwo(t.date.day); PadTwo(t.hour); PadTwo(t.minute); PadTwo(t.second);
    Sixteen(Pad(t.date.month, 2), Pad(t.date.day, 2), Pad(t.hour, 2), Pad(t.minute, 2), Pad(t.second, 2),
            Text(t.date.year));
  }

  lemma PadTwoInjective(a: nat, b: nat)
    requires a < 100 && b < 100 && Pad(a, 2) == Pad(b, 2)
    ensures a == b
  {
    PadTwo(a);
    PadTwo(b);
    var p, q := Pad(a, 2), Pad(b, 2);
    assert p[0] == q[0] && p[1] == q[1];
  }

  lemma FormatInjective(a: Moment, b: Moment)
    requires Printable(a) && Printable(b) && Format(a) == Format(b)
    ensures a == b
  {
    TextLayout(a);
    TextLayout(b);
    TextInjective(a.date.year, b.date.year);
    PadTwoInjective(a.date.month, b.date.month);
    PadTwoInjective(a.date.day, b.date.day);
    PadTwoInjective(a.hour, b.hour);
    PadTwoInjective(a.minute, b.minute);
    PadTwoInjective(a.second, b.second);
  }

  /** Two different seconds never share a spelling. */
  lemma TextDeterminesSecond(a: nat, b: nat)
    requires Rfc3339(a) == Rfc3339(b)
    ensures a == b
  {
    MomentIsPrintable(a);
    MomentIsPrintable(b);
    FormatInjective(MomentOf(a), MomentOf(b));
    if a / 86400 < b / 86400 { DatesIncrease(a / 86400, b / 86400); }
    if b / 86400 < a / 86400 { DatesIncrease(b / 86400, a / 86400); }
  }

  lemma LastFourDigitDay()
    ensures CivilFromDays(2932896) == Date(9999, 12, 31)
  {
    CivilAt(2932896, 24, 3, 24, 3, 305);
    assert MonthIndex(305) == 9;
  }

  /** The text has the 20 characters that section 5.6 of RFC 3339 allows, with its
      four-digit year, exactly for the seconds before the year 10000. */
  lemma FourDigitYears(unix: nat)
    ensures |Rfc3339(unix)| == 20 <==> unix < FIVE_DIGIT_YEARS
  {
    MomentIsPrintable(unix);
    TextLayout(MomentOf(unix));
    YearDigits(MomentOf(unix).date.year);
    YearsBefore10000(unix / 86400);
  }

  lemma YearsBefore10000(n: nat)
    ensures CivilFromDays(n).year <= 9999 <==> n < 2932897
  {
    LastFourDigitDay();
    NextDayIsSuccessor(2932896);
    if n < 2932896 { DatesIncrease(n, 2932896); }
    if n > 2932897 { DatesIncrease(2932897, n); }
  }
}
