/**
 * The Hijri calendar page (src/components/pages/calendar.tsx): the fixed
 * table of the twelve months and their events, the page state (month, year
 * and selected day) with its month navigation, the day grid and the events
 * of the selected day.
 */
module Calendar {
  import opened Optional
  import opened JsArray

  datatype EventType = Major | Minor

  datatype IslamicEvent = IslamicEvent(date: int, title: string, description: string, eventType: EventType)

  datatype IslamicMonth = IslamicMonth(name: string, arabicName: string, days: int, events: seq<IslamicEvent>)

  /** The month table, Muharram first. */
  const IslamicMonths: seq<IslamicMonth> := [
    IslamicMonth("Muharram", "مُحَرَّم", 30, [
      IslamicEvent(1, "Islamic New Year", "Beginning of the Islamic calendar year", Major),
      IslamicEvent(10, "Day of Ashura", "Day of fasting and remembrance", Major)]),
    IslamicMonth("Safar", "صَفَر", 29, []),
    IslamicMonth("Rabi' Al-Awwal", "رَبِيع الْأَوَّل", 30, [
      IslamicEvent(12, "Mawlid an-Nabi", "Birth of Prophet Muhammad (PBUH)", Major)]),
    IslamicMonth("Rabi' Al-Thani", "رَبِيع الثَّانِي", 29, []),
    IslamicMonth("Jumada Al-Awwal", "جُمَادَىٰ الْأُولَىٰ", 30, []),
    IslamicMonth("Jumada Al-Thani", "جُمَادَىٰ الثَّانِيَة", 29, []),
    IslamicMonth("Rajab", "رَجَب", 30, [
      IslamicEvent(27, "Isra and Mi'raj", "Night Journey of Prophet Muhammad (PBUH)", Major)]),
    IslamicMonth("Sha'ban", "شَعْبَان", 29, [
      IslamicEvent(15, "Laylat al-Bara'at", "Night of Forgiveness", Minor)]),
    IslamicMonth("Ramadan", "رَمَضَان", 30, [
      IslamicEvent(1, "First Day of Ramadan", "Beginning of the holy month of fasting", Major),
      IslamicEvent(27, "Laylat al-Qadr", "Night of Power", Major)]),
    IslamicMonth("Shawwal", "شَوَّال", 29, [
      IslamicEvent(1, "Eid al-Fitr", "Festival of Breaking the Fast", Major)]),
    IslamicMonth("Dhu al-Qi'dah", "ذُو الْقِعْدَة", 30, []),
    IslamicMonth("Dhu al-Hijjah", "ذُو الْحِجَّة", 29, [
      IslamicEvent(9, "Day of Arafah", "Day of standing at Arafah during Hajj", Major),
      IslamicEvent(10, "Eid al-Adha", "Festival of Sacrifice", Major)])
  ]

  /** The mock current day of the month. */
  const Today: int := 15

  /** Total number of days of a list of months. */
  function TotalDays(months: seq<IslamicMonth>): int {
    if months == [] then 0 else months[0].days + TotalDays(months[1..])
  }

  /** Twelve months alternating 30 and 29 days from Muharram. */
  lemma MonthTableDays()
    ensures |IslamicMonths| == 12
    ensures forall i :: 0 <= i < |IslamicMonths| ==> IslamicMonths[i].days == if i % 2 == 0 then 30 else 29
  {
  }

  /** Every event falls on a day its month has. */
  lemma MonthTableEventDates()
    ensures forall i, j :: 0 <= i < |IslamicMonths| && 0 <= j < |IslamicMonths[i].events| ==>
      1 <= IslamicMonths[i].events[j].date <= IslamicMonths[i].days
  {
  }

  /** Months alternating 30 and 29 days, starting with 30, in pairs of 59 days. */
  lemma {:induction false} AlternatingTotal(months: seq<IslamicMonth>)
    requires |months| % 2 == 0
    requires forall i :: 0 <= i < |months| ==> months[i].days == if i % 2 == 0 then 30 else 29
    ensures TotalDays(months) == 59 * (|months| / 2)
  {
    if months != [] {
      assert months[1..][1..] == months[2..];
      assert months[1].days == 29;
      AlternatingTotal(months[2..]);
    }
  }

  /** The year of the table has 354 days. */
  lemma MonthTableTotal()
    ensures TotalDays(IslamicMonths) == 354
  {
    MonthTableDays();
    AlternatingTotal(IslamicMonths);
  }

  datatype Direction = Prev | Next

  /** How far a press moves on the continuous month count. */
  function Step(direction: Direction): int {
    if direction == Next then 1 else -1
  }

  /** The position of a month on a continuous month count: year * 12 + month. */
  function MonthIndex(month: int, year: int): int {
    year * 12 + month
  }

  /**
   * The (month, year) that `navigateMonth` moves to: one month further on
   * the continuous count for "next", one month back for "prev", with the
   * month staying in 0..11.
   */
  function Navigate(month: int, year: int, direction: Direction): (r: (int, int))
    ensures MonthIndex(r.0, r.1) == MonthIndex(month, year) + Step(direction)
    ensures 0 <= month < 12 ==> 0 <= r.0 < 12
  {
    if direction == Prev then
      if month == 0 then (11, year - 1) else (month - 1, year)
    else
      if month == 11 then (0, year + 1) else (month + 1, year)
  }

  /** "next" then "prev" comes back to the same month, and so does "prev" then "next". */
  lemma NavigateRoundTrip(month: int, year: int)
    requires 0 <= month < 12
    ensures var (m, y) := Navigate(month, year, Next); Navigate(m, y, Prev) == (month, year)
    ensures var (m, y) := Navigate(month, year, Prev); Navigate(m, y, Next) == (month, year)
  {
    MonthIndexInjective(Navigate(Navigate(month, year, Next).0, Navigate(month, year, Next).1, Prev), (month, year));
    MonthIndexInjective(Navigate(Navigate(month, year, Prev).0, Navigate(month, year, Prev).1, Next), (month, year));
  }

  /** With months in 0..11, the continuous count identifies the (month, year) pair. */
  lemma MonthIndexInjective(a: (int, int), b: (int, int))
    requires 0 <= a.0 < 12 && 0 <= b.0 < 12
    requires MonthIndex(a.0, a.1) == MonthIndex(b.0, b.1)
    ensures a == b
  {
  }

  /** The (month, year) after pressing the buttons in `directions` one after another. */
  function NavigateAll(month: int, year: int, directions: seq<Direction>): (int, int)
    decreases |directions|
  {
    if directions == [] then (month, year)
    else
      var (m, y) := Navigate(month, year, directions[0]);
      NavigateAll(m, y, directions[1..])
  }

  /** Number of "next" presses minus number of "prev" presses. */
  function NetPresses(directions: seq<Direction>): int {
    if directions == [] then 0
    else Step(directions[0]) + NetPresses(directions[1..])
  }

  /**
   * Any run of presses keeps the month in 0..11 and moves the continuous
   * month count by exactly the net number of "next" presses.
   */
  lemma {:induction false} NavigateAllIndex(month: int, year: int, directions: seq<Direction>)
    requires 0 <= month < 12
    ensures var (m, y) := NavigateAll(month, year, directions);
      0 <= m < 12 && MonthIndex(m, y) == MonthIndex(month, year) + NetPresses(directions)
    decreases |directions|
  {
    if directions != [] {
      var (m, y) := Navigate(month, year, directions[0]);
      NavigateAllIndex(m, y, directions[1..]);
    }
  }

  /** `events.some(event => event.date === day)`. */
  function HasEvent(events: seq<IslamicEvent>, day: int): (b: bool)
    ensures b <==> exists i :: 0 <= i < |events| && events[i].date == day
  {
    if events == [] then false
    else events[0].date == day || HasEvent(events[1..], day)
  }

  /** The flags of one day button of the grid. */
  datatype DayCell = DayCell(day: int, hasEvent: bool, isToday: bool, isSelected: bool)

  /**
   * `selectedDateEvents`: with a day selected, the month's events on that
   * day in table order; with none, nothing. The source tests the selection
   * for truthiness, so a selected day 0 also gives nothing.
   */
  function SelectedDateEvents(events: seq<IslamicEvent>, selectedDate: Option<int>): (r: seq<IslamicEvent>)
    ensures IsSubsequence(r, events)
    ensures selectedDate.None? || selectedDate == Some(0) ==> r == []
    ensures selectedDate.Some? && selectedDate.value != 0 ==>
      forall e :: e in r <==> e in events && e.date == selectedDate.value
    ensures selectedDate.Some? && selectedDate.value != 0 ==>
      forall e: IslamicEvent :: e.date == selectedDate.value ==> multiset(r)[e] == multiset(events)[e]
  {
    if selectedDate.Some? && selectedDate.value != 0 then
      Filter(events, (e: IslamicEvent) => e.date == selectedDate.value)
    else []
  }

  /** The page state: the month shown, its year and the selected day. */
  class IslamicCalendar {
    var currentMonth: int
    var currentYear: int
    var selectedDate: Option<int>

    /** The month shown is a valid index into the month table. */
    predicate Valid()
      reads this
    {
      0 <= currentMonth < |IslamicMonths|
    }

    /** The initial state: Jumada Al-Awwal (index 4) of 1446, no day selected. */
    constructor ()
      ensures Valid()
      ensures currentMonth == 4 && currentYear == 1446 && selectedDate == None
    {
      currentMonth := 4;
      currentYear := 1446;
      selectedDate := None;
    }

    /** `currentMonthData`. */
    function CurrentMonthData(): IslamicMonth
      reads this
      requires Valid()
    {
      IslamicMonths[currentMonth]
    }

    /** `navigateMonth(direction)`: moves one month and clears the selection. */
    method NavigateMonth(direction: Direction)
      requires Valid()
      modifies this
      ensures Valid()
      ensures (currentMonth, currentYear) == Navigate(old(currentMonth), old(currentYear), direction)
      ensures MonthIndex(currentMonth, currentYear) == MonthIndex(old(currentMonth), old(currentYear)) + Step(direction)
      ensures selectedDate == None
    {
      if direction == Prev {
        if currentMonth == 0 {
          currentMonth := 11;
          currentYear := currentYear - 1;
        } else {
          currentMonth := currentMonth - 1;
        }
      } else {
        if currentMonth == 11 {
          currentMonth := 0;
          currentYear := currentYear + 1;
        } else {
          currentMonth := currentMonth + 1;
        }
      }
      selectedDate := None;
    }

    /** A click on a day button or on an event of the month selects that day. */
    method SelectDate(day: int)
      requires Valid()
      modifies this
      ensures Valid()
      ensures selectedDate == Some(day)
      ensures currentMonth == old(currentMonth) && currentYear == old(currentYear)
    {
      selectedDate := Some(day);
    }

    /**
     * `renderCalendarDays`: one cell per day of the month, days 1..days in
     * order, flagged for events, for the mock today and for the selection;
     * at most one cell is selected.
     */
    method RenderCalendarDays() returns (cells: seq<DayCell>)
      requires Valid()
      ensures |cells| == if CurrentMonthData().days < 0 then 0 else CurrentMonthData().days
      ensures forall i :: 0 <= i < |cells| ==> cells[i].day == i + 1
      ensures forall i :: 0 <= i < |cells| ==>
        (cells[i].hasEvent <==> exists j :: 0 <= j < |CurrentMonthData().events| && CurrentMonthData().events[j].date == i + 1)
      ensures forall i :: 0 <= i < |cells| ==> (cells[i].isToday <==> i + 1 == Today)
      ensures forall i :: 0 <= i < |cells| ==> (cells[i].isSelected <==> selectedDate == Some(i + 1))
      ensures forall i, j :: 0 <= i < j < |cells| ==> !(cells[i].isSelected && cells[j].isSelected)
    {
      var monthData := IslamicMonths[currentMonth];
      var daysInMonth := monthData.days;
      cells := [];
      var day := 1;
      while day <= daysInMonth
        invariant 1 <= day
        invariant |cells| == day - 1
        invariant daysInMonth >= 0 ==> day <= daysInMonth + 1
        invariant forall i :: 0 <= i < |cells| ==>
          cells[i] == DayCell(i + 1, HasEvent(monthData.events, i + 1), i + 1 == Today, selectedDate == Some(i + 1))
      {
        var hasEvent := HasEvent(monthData.events, day);
        var isToday := day == Today;
        var isSelected := selectedDate == Some(day);
        cells := cells + [DayCell(day, hasEvent, isToday, isSelected)];
        day := day + 1;
      }
    }
  }
}
