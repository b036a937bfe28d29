/** The relative time shown beside comments and posts (`timeAgo` in
    `resources/js/utils/date.js`). Instants are milliseconds since the epoch;
    the clock is a parameter. */
module RelativeTime {
  import opened Common
  import Decimal

  const Year := 31536000
  const Month := 2592000
  const Day := 86400
  const Hour := 3600
  const Minute := 60

  /** The phrase chosen, before it is written out. */
  datatype Ago =
    | Blank
    | YearsAgo(years: nat)
    | MonthsAgo(months: nat)
    | DaysAgo(days: nat)
    | HoursAgo(hours: nat)
    | MinutesAgo(minutes: nat)
    | JustNow
    | SecondsAgo(seconds: nat)

  /** `Math.floor((now - date) / 1000)`: whole seconds, rounded down, negative
      for a date in the future. */
  function Elapsed(date: int, now: int): (s: int)
    ensures s * 1000 <= now - date < (s + 1) * 1000
  {
    (now - date) / 1000
  }

  /** `timeAgo(date)`: a falsy date gives nothing; otherwise the first of
      years, months, days, hours and minutes whose floored count exceeds 1,
      then "just now" below 10 seconds, then the seconds. */
  function TimeAgo(date: Option<int>, now: int): (a: Ago)
    ensures date.None? <==> a.Blank?
    ensures date.Some? ==> var s := Elapsed(date.value, now);
      (a.YearsAgo? <==> s >= 2 * Year) &&
      (a.MonthsAgo? <==> 2 * Month <= s < 2 * Year) &&
      (a.DaysAgo? <==> 2 * Day <= s < 2 * Month) &&
      (a.HoursAgo? <==> 2 * Hour <= s < 2 * Day) &&
      (a.MinutesAgo? <==> 2 * Minute <= s < 2 * Hour) &&
      (a.SecondsAgo? <==> 10 <= s < 2 * Minute) &&
      (a.JustNow? <==> s < 10)
  {
    match date
    case None => Blank
    case Some(d) =>
      var s := Elapsed(d, now);
      if s / Year > 1 then YearsAgo(s / Year)
      else if s / Month > 1 then MonthsAgo(s / Month)
      else if s / Day > 1 then DaysAgo(s / Day)
      else if s / Hour > 1 then HoursAgo(s / Hour)
      else if s / Minute > 1 then MinutesAgo(s / Minute)
      else if s < 10 then JustNow
      else SecondsAgo(s)
  }

  /** The count shown is the elapsed time in whole units, rounded down. */
  lemma TimeAgoCounts(d: int, now: int)
    ensures var s := Elapsed(d, now);
      match TimeAgo(Some(d), now)
      case YearsAgo(n) => n * Year <= s < (n + 1) * Year
      case MonthsAgo(n) => n * Month <= s < (n + 1) * Month
      case DaysAgo(n) => n * Day <= s < (n + 1) * Day
      case HoursAgo(n) => n * Hour <= s < (n + 1) * Hour
      case MinutesAgo(n) => n * Minute <= s < (n + 1) * Minute
      case SecondsAgo(n) => n == s
      case _ => true
  {
  }

  /** Ninety minutes read as minutes; exactly one year reads as twelve
      months; a date in the future reads as just now. */
  lemma TimeAgoExamples(now: int)
    ensures TimeAgo(Some(now - 90 * 60 * 1000), now) == MinutesAgo(90)
    ensures TimeAgo(Some(now - Year * 1000), now) == MonthsAgo(12)
    ensures TimeAgo(Some(now + 5000), now) == JustNow
  {
    assert Elapsed(now - 90 * 60 * 1000, now) == 5400;
    assert Elapsed(now - Year * 1000, now) == Year;
    assert Elapsed(now + 5000, now) == -5;
  }

  /** The phrase as the page shows it. */
  function Render(a: Ago): (text: string)
    ensures text == [] <==> a.Blank?
  {
    match a
    case Blank => ""
    case YearsAgo(n) => Decimal.Show(n) + " 年前"
    case MonthsAgo(n) => Decimal.Show(n) + " 个月前"
    case DaysAgo(n) => Decimal.Show(n) + " 天前"
    case HoursAgo(n) => Decimal.Show(n) + " 小时前"
    case MinutesAgo(n) => Decimal.Show(n) + " 分钟前"
    case JustNow => "刚刚"
    case SecondsAgo(n) => Decimal.Show(n) + " 秒前"
  }
}
