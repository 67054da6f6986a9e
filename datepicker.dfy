/**
 * The calendar grid of src/internal/forms/DatePicker.ts: six weeks of
 * seven day cells numbered from 1 in row-major order, starting after the
 * weekday index of the month's first day, and the Gregorian month length
 * that bounds the numbering.
 */
module DatePicker {
  import opened Wrappers

  /** The properties a day cell gets: enabled, enabled with the weekend class, or disabled. */
  datatype CellStyle = Weekday | Weekend | Disabled

  /** A day cell: its day number (`None`: null) and its properties. */
  datatype Cell = Cell(number: Option<int>, style: CellStyle)

  /** A date constraint; only the accept-all default is part of this model. */
  datatype DateConstraint = AnyDate | Given(handle: nat)

  /** A numbered cell: the weekend class for the last two days of the week. */
  function Numbered(n: int, day: int): Cell {
    Cell(Some(n), if day > 5 then Weekend else Weekday)
  }

  /** A cell without a number, with the disabled properties. */
  const Blank: Cell := Cell(None, Disabled)

  /** How many of the days before `day` in the first week are numbered: those after `theday`. */
  function BeforeInFirstWeek(theday: int, hasConstraint: bool, day: int): int {
    if !hasConstraint then 0
    else if theday < 0 then day - 1
    else if theday >= day - 1 then 0
    else day - 1 - theday
  }

  /** How many cells of the first week are numbered. */
  function FirstWeekCount(theday: int, hasConstraint: bool): int {
    BeforeInFirstWeek(theday, hasConstraint, 8)
  }

  /** The running day number before the k-th cell after the first week; it stops one past the month's length. */
  function Running(theday: int, days: int, hasConstraint: bool, k: int): int {
    var start := 1 + FirstWeekCount(theday, hasConstraint);
    if !hasConstraint || start > days then start
    else if start + k < days + 1 then start + k
    else days + 1
  }

  /** The running day number when the loops reach week `week`, day `day` (day 8: after the week). */
  function DayNo(theday: int, days: int, hasConstraint: bool, week: int, day: int): int {
    if week == 1 then 1 + BeforeInFirstWeek(theday, hasConstraint, day)
    else Running(theday, days, hasConstraint, (week - 2) * 7 + day - 1)
  }

  /** Whether the cell of week `week`, day `day` gets a number. */
  predicate IsNumbered(theday: int, days: int, hasConstraint: bool, week: int, day: int) {
    if week == 1 then hasConstraint && theday < day
    else hasConstraint && DayNo(theday, days, hasConstraint, week, day) <= days
  }

  /** The cell `populateDates` leaves at week `week`, day `day` (both from 1). */
  function CellAt(theday: int, days: int, hasConstraint: bool, week: int, day: int): Cell {
    if IsNumbered(theday, days, hasConstraint, week, day)
    then Numbered(DayNo(theday, days, hasConstraint, week, day), day)
    else Blank
  }

  /** Whether `year` is a leap year of the proleptic Gregorian calendar. */
  predicate IsLeapYear(year: int) {
    year % 4 == 0 && (year % 100 != 0 || year % 400 == 0)
  }

  /** The length of month `month` (0 = January .. 11) of `year`. */
  function MonthLength(year: int, month: int): (r: int)
    requires 0 <= month < 12
    ensures 28 <= r <= 31
    ensures month == 1 ==> (r == 29 <==> IsLeapYear(year))
  {
    if month == 1 then (if IsLeapYear(year) then 29 else 28)
    else if month == 3 || month == 5 || month == 8 || month == 10 then 30
    else 31
  }

  /** The year JavaScript's Date constructor takes: 0..99 mean 1900..1999. */
  function FullYear(year: int): int {
    if 0 <= year <= 99 then 1900 + year else year
  }

  /**
   * `getDaysInMonth(year, month)`: day 0 of the following month, that is
   * the length of month `month` after the Date constructor's year mapping
   * and month overflow into the year.
   */
  function DaysInMonth(year: int, month: int): (r: int)
    ensures 28 <= r <= 31
  {
    var y := FullYear(year) + month / 12;
    MonthLength(y, month % 12)
  }

  /**
   * The day count of the first day of a month since an epoch (the
   * days-from-civil formula, with months 1..12), independent of the table
   * of month lengths.
   */
  function DaysFromCivil(year: int, month: int): int
    requires 1 <= month <= 12
  {
    var y := if month <= 2 then year - 1 else year;
    var era := y / 400;
    var yoe := y - era * 400;
    var mp := if month > 2 then month - 3 else month + 9;
    var doy := (153 * mp + 2) / 5;
    var doe := yoe * 365 + yoe / 4 - yoe / 100 + doy;
    era * 146097 + doe
  }

  class Calendar {
    const grid: array2<Cell>
    var constraint: Option<DateConstraint>

    constructor ()
      ensures fresh(grid) && grid.Length0 == 6 && grid.Length1 == 7
      ensures constraint == None
    {
      grid := new Cell[6, 7]((_, _) => Blank);
      constraint := None;
    }

    /** The constraint part of `initialize`: the given constraint, or one that accepts every date. */
    method Initialize(param: Option<DateConstraint>)
      modifies this`constraint
      ensures constraint == Some(param.GetOr(AnyDate))
    {
      constraint := Some(param.GetOr(AnyDate));
    }

    /**
     * `populateDates` for the month of `year` and `month`, whose first day
     * has index `theday` among the week's day names (-1 when not found).
     * Only the cells' numbers and properties are modelled.
     */
    method PopulateDates(year: int, month: int, theday: int)
      requires grid.Length0 == 6 && grid.Length1 == 7
      modifies grid
      ensures forall w, d :: 0 <= w < 6 && 0 <= d < 7 ==>
                grid[w, d] == CellAt(theday, DaysInMonth(year, month), constraint.Some?, w + 1, d + 1)
    {
      var days := DaysInMonth(year, month);
      var hasConstraint := constraint.Some?;
      var dayno := 1;
      for week := 1 to 7
        invariant forall w, d :: 0 <= w < week - 1 && 0 <= d < 7 ==> grid[w, d] == CellAt(theday, days, hasConstraint, w + 1, d + 1)
        invariant dayno == DayNo(theday, days, hasConstraint, week, 1)
      {
        for day := 1 to 8
          invariant forall w, d :: 0 <= w < 6 && 0 <= d < 7 && (w < week - 1 || (w == week - 1 && d < day - 1)) ==>
                      grid[w, d] == CellAt(theday, days, hasConstraint, w + 1, d + 1)
          invariant dayno == DayNo(theday, days, hasConstraint, week, day)
        {
          if week == 1 {
            if theday < day && hasConstraint {
              grid[week - 1, day - 1] := Numbered(dayno, day);
              dayno := dayno + 1;
            } else {
              grid[week - 1, day - 1] := Blank;
            }
          } else if dayno <= days && hasConstraint {
            grid[week - 1, day - 1] := Numbered(dayno, day);
            dayno := dayno + 1;
          } else {
            grid[week - 1, day - 1] := Blank;
          }
        }
      }
    }
  }

  /** The numbered cells of the first week are a suffix of the week. */
  lemma FirstWeekSuffix(theday: int, days: int, hasConstraint: bool, day: int, later: int)
    requires 1 <= day < later <= 7
    requires IsNumbered(theday, days, hasConstraint, 1, day)
    ensures IsNumbered(theday, days, hasConstraint, 1, later)
  {
  }

  /**
   * When the first week does not outrun the month, the numbered cells are
   * the consecutive row-major positions from the first day's position on,
   * numbered 1, 2, ... up to the month's length or the end of the grid.
   */
  lemma NumberingIsConsecutive(theday: int, days: int, hasConstraint: bool, week: int, day: int)
    requires FirstWeekCount(theday, hasConstraint) <= days
    requires 1 <= week <= 6 && 1 <= day <= 7
    ensures var index := (week - 1) * 7 + (day - 1);
      var lead := 7 - FirstWeekCount(theday, hasConstraint);
      (IsNumbered(theday, days, hasConstraint, week, day) <==> hasConstraint && lead <= index < lead + days) &&
      (IsNumbered(theday, days, hasConstraint, week, day) ==>
        CellAt(theday, days, hasConstraint, week, day).number == Some(index - lead + 1))
  {
  }

  /**
   * With a constraint and the first day at weekday index 0..6, the month's
   * last day is numbered with the month's length, and no cell exceeds it.
   */
  lemma LastDayIsMonthLength(year: int, month: int, theday: int)
    requires 0 <= theday <= 6
    ensures var days := DaysInMonth(year, month);
      var index := theday + days - 1;
      var week := index / 7 + 1;
      var day := index % 7 + 1;
      1 <= week <= 6 && 1 <= day <= 7 &&
      CellAt(theday, days, true, week, day).number == Some(days)
    ensures var days := DaysInMonth(year, month);
      forall w, d :: 1 <= w <= 6 && 1 <= d <= 7 && IsNumbered(theday, days, true, w, d) ==>
        CellAt(theday, days, true, w, d).number.value <= days
  {
    var days := DaysInMonth(year, month);
    var index := theday + days - 1;
    NumberingIsConsecutive(theday, days, true, index / 7 + 1, index % 7 + 1);
    forall w, d | 1 <= w <= 6 && 1 <= d <= 7 && IsNumbered(theday, days, true, w, d)
      ensures CellAt(theday, days, true, w, d).number.value <= days
    {
      NumberingIsConsecutive(theday, days, true, w, d);
    }
  }

  /** The cells without a number are exactly the disabled ones, and numbered weekend days have the weekend class. */
  lemma CellStyles(theday: int, days: int, hasConstraint: bool, week: int, day: int)
    ensures var c := CellAt(theday, days, hasConstraint, week, day);
      (c.number.None? <==> c.style == Disabled) &&
      (c.number.Some? ==> (c.style == Weekend <==> day > 5))
  {
  }

  /** Without a constraint no cell is numbered; the default constraint numbers the whole first week after `theday`. */
  lemma ConstraintEnablesNumbering(theday: int, days: int, week: int, day: int)
    ensures !IsNumbered(theday, days, false, week, day)
    ensures week == 1 && theday < day ==> IsNumbered(theday, days, true, week, day)
  {
  }

  /**
   * The month length equals the distance between the first days of the
   * month and the next one by the days-from-civil count.
   */
  lemma MonthLengthMatchesCivil(year: int, month: int)
    requires 0 <= month < 12
    ensures MonthLength(year, month) ==
      (if month == 11 then DaysFromCivil(year + 1, 1) else DaysFromCivil(year, month + 2)) - DaysFromCivil(year, month + 1)
  {
    if month == 1 {
      FebruaryMatchesCivil(year);
    }
  }

  /** February's length by the days-from-civil count, split at the 400-year era boundary. */
  lemma FebruaryMatchesCivil(year: int)
    ensures MonthLength(year, 1) == DaysFromCivil(year, 3) - DaysFromCivil(year, 2)
  {
    var y := year - 1;
    var era := y / 400;
    var yoe := y - era * 400;
    assert DaysFromCivil(year, 2) == era * 146097 + yoe * 365 + yoe / 4 - yoe / 100 + 337;
    var era' := year / 400;
    var yoe' := year - era' * 400;
    assert DaysFromCivil(year, 3) == era' * 146097 + yoe' * 365 + yoe' / 4 - yoe' / 100;
    if yoe == 399 {
      EraBoundary(year, era);
    } else {
      SameEra(year, era, yoe);
    }
  }

  /** The year after the last year of an era opens the next era and is divisible by 400. */
  lemma EraBoundary(year: int, era: int)
    requires year - 1 == era * 400 + 399
    ensures year / 400 == era + 1 && year % 400 == 0
  {
  }

  /** Inside an era, the year after `yoe` is a leap year by its remainders. */
  lemma SameEra(year: int, era: int, yoe: int)
    requires 0 <= yoe < 399 && year - 1 == era * 400 + yoe
    ensures year / 400 == era && year - era * 400 == yoe + 1
    ensures (yoe + 1) / 4 - yoe / 4 == (if year % 4 == 0 then 1 else 0)
    ensures (yoe + 1) / 100 - yoe / 100 == (if year % 100 == 0 then 1 else 0)
    ensures year % 400 != 0
  {
    var y := yoe + 1;
    YearInEra(year, era, y);
    RemainderBy4(year, era * 100, y);
    RemainderBy100(year, era * 4, y);
  }

  /** A year `y` (1..399) into an era lies in that era. */
  lemma YearInEra(year: int, era: int, y: int)
    requires 0 < y < 400 && year == era * 400 + y
    ensures year / 400 == era && year % 400 == y
  {
  }

  /** Adding whole multiples of 4 keeps the remainder by 4. */
  lemma RemainderBy4(year: int, k: int, y: int)
    requires 0 < y < 400 && year == k * 4 + y
    ensures year % 4 == y % 4
    ensures y / 4 - (y - 1) / 4 == (if y % 4 == 0 then 1 else 0)
  {
  }

  /** Adding whole multiples of 100 keeps the remainder by 100. */
  lemma RemainderBy100(year: int, k: int, y: int)
    requires 0 < y < 400 && year == k * 100 + y
    ensures year % 100 == y % 100
    ensures y / 100 - (y - 1) / 100 == (if y % 100 == 0 then 1 else 0)
  {
  }

  /** A month index past December is the same month of a later year. */
  lemma MonthOverflow(year: int, month: int)
    requires !(0 <= year <= 99) && !(0 <= year + 1 <= 99)
    ensures DaysInMonth(year, month + 12) == DaysInMonth(year + 1, month)
  {
    assert (month + 12) / 12 == month / 12 + 1;
    assert (month + 12) % 12 == month % 12;
  }

  /** Years 0..99 are taken as 1900..1999: year 0 is 1900, not a leap year. */
  lemma TwoDigitYears()
    ensures DaysInMonth(0, 1) == 28
    ensures DaysInMonth(2000, 1) == 29
    ensures DaysInMonth(1900, 1) == 28
    ensures DaysInMonth(2024, 1) == 29
  {
  }
}
