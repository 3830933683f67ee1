/**
 * The WslDistro record and its two derived labels: how long ago the virtual
 * disk was last accessed, and how much space the distribution occupies.
 */
module Distro {
  import opened Dotnet

  /** One listed distribution. TotalBytes and LastAccess are recomputed on every listing. */
  datatype WslDistro = WslDistro(
    id: int,
    wslId: Guid,
    distroName: string,
    packageFamilyName: string,
    totalBytes: nat,
    lastAccess: Ticks,
    isDefault: bool,
    basePath: string)
  {
    /** The LastAccessStr property, with DateTime.Now passed in: "never" exactly for DateTime.MinValue. */
    function LastAccessStr(now: Ticks): (r: string)
      ensures r == "never" <==> lastAccess == MinValue
    {
      AccessText(AccessLabelOf(lastAccess, now))
    }

    /** The TotalSpace property: a number followed by the name of the unit chosen for TotalBytes. */
    function TotalSpace(): (r: string)
      ensures EndsWithUnit(r, UnitOf(totalBytes))
    {
      SpaceText(totalBytes)
    }
  }

  /** default(WslDistro): every field zero, empty or false. */
  const DefaultWslDistro: WslDistro := WslDistro(0, EmptyGuid, "", "", 0, MinValue, false, "")

  // ---------------------------------------------------------------- last access

  /** The label LastAccessStr picks, with the number it shows. */
  datatype AccessLabel =
    | Never
    | JustNow
    | MinutesAgo(minutes: nat)
    | HoursAgo(hours: nat)
    | OneDayAgo
    | DaysAgo(days: nat)
    | MonthsAgo(months: nat)
    | YearsAgo(years: nat)

  /** e / unit rounded to the nearest whole number, halves upward ("F0" on a positive double). */
  function RoundedUnits(e: nat, unit: nat): nat
    requires unit > 0
  {
    (2 * e + unit) / (2 * unit)
  }

  /** The bucket for an elapsed time that is not measured from DateTime.MinValue. */
  function ElapsedLabel(elapsed: int): (r: AccessLabel)
    ensures r != Never
    ensures r.JustNow? <==> elapsed < 60 * TicksPerSecond
  {
    if elapsed < 60 * TicksPerSecond then JustNow
    else if elapsed < 60 * TicksPerMinute then MinutesAgo(RoundedUnits(elapsed, TicksPerMinute))
    else if elapsed < 24 * TicksPerHour then HoursAgo(RoundedUnits(elapsed, TicksPerHour))
    else if elapsed < 2 * TicksPerDay then OneDayAgo
    else if elapsed < 30 * TicksPerDay then DaysAgo(elapsed / TicksPerDay)
    else if elapsed < 365 * TicksPerDay then MonthsAgo(elapsed / TicksPerDay / 30)
    // Math.Floor(Days / 365.25) == Days * 4 / 1461 on whole days
    else YearsAgo(elapsed / TicksPerDay * 4 / 1461)
  }

  /** The label for a timestamp: Never exactly for DateTime.MinValue, otherwise the elapsed-time bucket. */
  function AccessLabelOf(lastAccess: Ticks, now: Ticks): (r: AccessLabel)
    ensures r == Never <==> lastAccess == MinValue
  {
    if lastAccess == MinValue then Never else ElapsedLabel(now - lastAccess)
  }

  /** The text of a label; only Never reads "never". */
  function AccessText(l: AccessLabel): (r: string)
    ensures r == "never" <==> l == Never
  {
    match l
    case Never => "never"
    case JustNow => "just now"
    case MinutesAgo(n) => DecimalString(n) + " minutes ago"
    case HoursAgo(n) => DecimalString(n) + " hours ago"
    case OneDayAgo => "1 day ago"
    case DaysAgo(n) => DecimalString(n) + " days ago"
    case MonthsAgo(n) => DecimalString(n) + " months ago"
    case YearsAgo(n) => DecimalString(n) + ".0 years ago"
  }

  /** Buckets in order of increasing elapsed time. */
  function BucketRank(l: AccessLabel): nat {
    match l
    case Never => 0
    case JustNow => 0
    case MinutesAgo(_) => 1
    case HoursAgo(_) => 2
    case OneDayAgo => 3
    case DaysAgo(_) => 4
    case MonthsAgo(_) => 5
    case YearsAgo(_) => 6
  }

  /** A timestamp equal to DateTime.MinValue reads "never", whatever the clock says, and only it does. */
  lemma NeverOnlyForMinValue(d: WslDistro, now: Ticks)
    ensures AccessLabelOf(d.lastAccess, now) == Never <==> d.lastAccess == MinValue
    ensures d.LastAccessStr(now) == "never" <==> d.lastAccess == MinValue
  {
  }

  /** Each bucket covers exactly one half-open interval of elapsed time, and shows a count in a fixed range. */
  lemma ElapsedBuckets(e: int)
    ensures ElapsedLabel(e).JustNow? <==> e < 60 * TicksPerSecond
    ensures ElapsedLabel(e).MinutesAgo? <==> 60 * TicksPerSecond <= e < 60 * TicksPerMinute
    ensures ElapsedLabel(e).HoursAgo? <==> 60 * TicksPerMinute <= e < 24 * TicksPerHour
    ensures ElapsedLabel(e).OneDayAgo? <==> 24 * TicksPerHour <= e < 2 * TicksPerDay
    ensures ElapsedLabel(e).DaysAgo? <==> 2 * TicksPerDay <= e < 30 * TicksPerDay
    ensures ElapsedLabel(e).MonthsAgo? <==> 30 * TicksPerDay <= e < 365 * TicksPerDay
    ensures ElapsedLabel(e).YearsAgo? <==> 365 * TicksPerDay <= e
    ensures ElapsedLabel(e).MinutesAgo? ==> 1 <= ElapsedLabel(e).minutes <= 60
    ensures ElapsedLabel(e).HoursAgo? ==> 1 <= ElapsedLabel(e).hours <= 24
    ensures ElapsedLabel(e).DaysAgo? ==> 2 <= ElapsedLabel(e).days <= 29
    ensures ElapsedLabel(e).MonthsAgo? ==> 1 <= ElapsedLabel(e).months <= 12
  {
  }

  /** The minute and hour counts are elapsed time rounded to the nearest unit. */
  lemma RoundedCounts(e: int)
    ensures ElapsedLabel(e).MinutesAgo? ==>
      var n := ElapsedLabel(e).minutes;
      2 * n * TicksPerMinute <= 2 * e + TicksPerMinute < 2 * (n + 1) * TicksPerMinute
    ensures ElapsedLabel(e).HoursAgo? ==>
      var n := ElapsedLabel(e).hours;
      2 * n * TicksPerHour <= 2 * e + TicksPerHour < 2 * (n + 1) * TicksPerHour
  {
  }

  /** The year count is floor(Days / 365.25) for the whole days elapsed. */
  lemma YearsAreFlooredQuarterDays(e: int)
    requires e >= 365 * TicksPerDay
    ensures var n := ElapsedLabel(e).years; var days := e / TicksPerDay;
      1461 * n <= 4 * days < 1461 * (n + 1)
  {
  }

  /** Between 365 and 366 whole days the label reads "0.0 years ago". */
  lemma ZeroYearsAfterOneYear(e: int)
    requires 365 * TicksPerDay <= e < 366 * TicksPerDay
    ensures ElapsedLabel(e) == YearsAgo(0)
    ensures AccessText(ElapsedLabel(e)) == "0.0 years ago"
  {
    assert DecimalString(0) == "0";
  }

  /** A longer elapsed time never falls in an earlier bucket. */
  lemma BucketMonotone(e1: int, e2: int)
    requires e1 <= e2
    ensures BucketRank(ElapsedLabel(e1)) <= BucketRank(ElapsedLabel(e2))
  {
  }

  /** 59 seconds is "just now"; 61 seconds is "1 minutes ago". */
  lemma MinuteBoundaryExample()
    ensures AccessText(ElapsedLabel(59 * TicksPerSecond)) == "just now"
    ensures AccessText(ElapsedLabel(61 * TicksPerSecond)) == "1 minutes ago"
  {
    assert RoundedUnits(61 * TicksPerSecond, TicksPerMinute) == 1;
    assert DecimalString(1) == "1";
  }

  // ---------------------------------------------------------------- total space

  datatype SizeUnit = Bytes | KiB | MiB | GiB | TiB

  /** The divisor TotalSpace applies for each unit. */
  function Scale(u: SizeUnit): nat {
    match u
    case Bytes => 1
    case KiB => 1024
    case MiB => 1024 * 1024
    case GiB => 1024 * 1024 * 1024
    case TiB => 1024 * 1024 * 1024 * 1024
  }

  function UnitName(u: SizeUnit): string {
    match u
    case Bytes => "bytes"
    case KiB => "KiB"
    case MiB => "MiB"
    case GiB => "GiB"
    case TiB => "TiB"
  }

  function UnitRank(u: SizeUnit): nat {
    match u
    case Bytes => 0
    case KiB => 1
    case MiB => 2
    case GiB => 3
    case TiB => 4
  }

  /** The unit TotalSpace picks, by the thresholds 1024, 1024^2, 1024^3 and 1024^4. */
  function UnitOf(bytes: nat): SizeUnit {
    if bytes < 1024 then Bytes
    else if bytes < 1024 * 1024 then KiB
    else if bytes < 1024 * 1024 * 1024 then MiB
    else if bytes < 1024 * 1024 * 1024 * 1024 then GiB
    else TiB
  }

  /** bytes / scale rounded to two decimals ("F2"), as a count of hundredths. */
  function Hundredths(bytes: nat, scale: nat): nat
    requires scale > 0
  {
    (200 * bytes + scale) / (2 * scale)
  }

  /** A count of hundredths rendered with exactly two decimals. */
  function FixedTwo(h: nat): string {
    DecimalString(h / 100) + "." + [Digit(h / 10 % 10), Digit(h % 10)]
  }

  /** s is a non-empty number text, a space, and the name of unit u. */
  predicate EndsWithUnit(s: string, u: SizeUnit) {
    var tail := " " + UnitName(u);
    |tail| < |s| && s[|s| - |tail|..] == tail
  }

  /** TotalSpace for a byte count: the rounded value followed by the unit UnitOf picks. */
  function SpaceText(bytes: nat): (r: string)
    ensures EndsWithUnit(r, UnitOf(bytes))
  {
    var u := UnitOf(bytes);
    var number := if u == Bytes then DecimalString(bytes) else FixedTwo(Hundredths(bytes, Scale(u)));
    assert (number + " " + UnitName(u))[|number|..] == " " + UnitName(u);
    if u == Bytes then DecimalString(bytes) + " bytes"
    else FixedTwo(Hundredths(bytes, Scale(u))) + " " + UnitName(u)
  }

  /**
   * The unit is bytes exactly below 1024; for KiB, MiB and GiB the unrounded
   * value bytes / Scale lies in [1, 1024), and for TiB it is at least 1.
   */
  lemma UnitBounds(bytes: nat)
    ensures UnitOf(bytes) == Bytes <==> bytes < 1024
    ensures UnitOf(bytes) != Bytes ==> Scale(UnitOf(bytes)) <= bytes
    ensures UnitOf(bytes) != TiB ==> bytes < 1024 * Scale(UnitOf(bytes))
  {
  }

  /** More bytes never give a smaller unit. */
  lemma UnitMonotone(b1: nat, b2: nat)
    requires b1 <= b2
    ensures UnitRank(UnitOf(b1)) <= UnitRank(UnitOf(b2))
  {
  }

  /** The shown hundredths are bytes / scale rounded to the nearest hundredth. */
  lemma HundredthsRound(bytes: nat, scale: nat)
    requires scale > 0
    ensures var h := Hundredths(bytes, scale);
      2 * scale * h <= 200 * bytes + scale < 2 * scale * (h + 1)
  {
  }

  /** 2024 bytes render as "1.98 KiB", 500 bytes as "500 bytes". */
  lemma SpaceTextExamples()
    ensures SpaceText(2024) == "1.98 KiB"
    ensures SpaceText(500) == "500 bytes"
  {
    assert UnitOf(2024) == KiB && UnitOf(500) == Bytes;
    assert Hundredths(2024, 1024) == 198;
    assert DecimalString(1) == "1";
    assert FixedTwo(198) == "1.98";
    assert DecimalString(5) == "5";
    assert DecimalString(50) == "50";
    assert DecimalString(500) == "500";
  }

  /** Just below 1 MiB the rounding shows "1024.00 KiB": the unit is chosen before rounding. */
  lemma RoundsUpToUnitBoundary()
    ensures SpaceText(1024 * 1024 - 1) == "1024.00 KiB"
  {
    assert UnitOf(1024 * 1024 - 1) == KiB;
    assert Hundredths(1024 * 1024 - 1, 1024) == 102400;
    assert DecimalString(1) == "1";
    assert DecimalString(10) == "10";
    assert DecimalString(102) == "102";
    assert DecimalString(1024) == "1024";
    assert FixedTwo(102400) == "1024.00";
  }
}
