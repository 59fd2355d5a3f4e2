/**
  The calendar view: a month grid with Monday-first weeks, the orders whose
  30-day span covers each day, the per-cell truncation rule, and the view's
  mutable state (the month cursor and the single expanded day).
 */
module Calendar {
  import opened Options
  import opened GregorianDates

  datatype VideoFormat = Scripte | Interview | MicroTrottoir | Personnalise

  /** An order; it is active from its start date through start + 29 days. */
  datatype Order = Order(
    id: string,
    name: string,
    client: string,
    videoCount: int,
    format: VideoFormat,
    startDate: Date,
    color: string)

  /** Days after the start date on which an order is still active ("30 jours total"). */
  const LastActiveOffset: nat := 29

  /** Orders shown in a collapsed cell. */
  const CollapsedLimit: nat := 2

  predicate AllValid(orders: seq<Order>) {
    forall o <- orders :: ValidDate(o.startDate)
  }

  /** The fixed order list of the calendar page (JavaScript months count from 0). */
  const MockOrders: seq<Order> := [
    Order("1", "Campagne Produit A", "TechCorp", 5, Scripte, Date(2024, 7, 5), "bg-red-500"),
    Order("2", "Interview CEO", "StartupXYZ", 3, Interview, Date(2024, 7, 15), "bg-blue-500"),
    Order("3", "Enquête Client", "RetailPlus", 8, MicroTrottoir, Date(2024, 7, 25), "bg-yellow-500"),
    Order("4", "Formation Interne", "EducaGroup", 4, Scripte, Date(2024, 8, 10), "bg-red-500"),
    Order("5", "Projet Spécial", "CreativeAgency", 2, Personnalise, Date(2024, 8, 1), "bg-green-500")
  ]

  // ---------------------------------------------------------------------------
  // Month grid builder
  // ---------------------------------------------------------------------------

  /**
    Offset of the first of the month in a Monday-first week: Monday is 0 and
    Sunday, which `getDay` numbers 0, is 6.
   */
  function FirstDayOfMonth(date: Date): (offset: int)
    requires 0 <= date.month < 12
    ensures 0 <= offset <= 6
    ensures WeekDay(Date(date.year, date.month, 1)) == 0 ==> offset == 6
    ensures WeekDay(Date(date.year, date.month, 1)) != 0 ==> offset == WeekDay(Date(date.year, date.month, 1)) - 1
  {
    var firstDay := WeekDay(Date(date.year, date.month, 1));
    if firstDay == 0 then 6 else firstDay - 1
  }

  /**
    Day `day` of the month sits in grid position `FirstDayOfMonth + day - 1`, and
    the column of that position (the grid has 7 columns headed Lun..Dim) is the
    Monday-first weekday of that date.
   */
  lemma GridColumnIsWeekDay(date: Date, day: int)
    requires 0 <= date.month < 12 && 1 <= day <= DaysInMonth(date.year, date.month)
    ensures (FirstDayOfMonth(date) + day - 1) % 7 == (WeekDay(Date(date.year, date.month, day)) + 6) % 7
  {
    var first := DayIndex(Date(date.year, date.month, 1));
    var w := WeekDay(Date(date.year, date.month, 1));
    assert w == (first + 6) % 7;
    assert FirstDayOfMonth(date) == if w == 0 then 6 else w - 1;
    assert WeekDay(Date(date.year, date.month, day)) == (first + (day - 1) + 6) % 7;
    ColumnArithmetic(first, day - 1);
  }

  lemma ColumnArithmetic(first: int, k: int)
    ensures var w := (first + 6) % 7;
      ((if w == 0 then 6 else w - 1) + k) % 7 == ((first + k + 6) % 7 + 6) % 7
  {
    var w := (first + 6) % 7;
    assert (if w == 0 then 6 else w - 1) == (w + 6) % 7;
    ModSevenAdd(w + 6, k);
    ModSevenAdd(first + 6, 6 + k);
    ModSevenAdd(first + k + 6, 6);
  }

  lemma ModSevenAdd(x: int, y: int)
    ensures (x % 7 + y) % 7 == (x + y) % 7
  {
    var q := x / 7;
    assert x == 7 * q + x % 7;
  }

  // ---------------------------------------------------------------------------
  // Order-span resolver
  // ---------------------------------------------------------------------------

  /** The last day on which an order is active. */
  function EndDate(order: Order): (end: Date)
    requires ValidDate(order.startDate)
    ensures ValidDate(end)
    ensures DayIndex(end) == DayIndex(order.startDate) + LastActiveOffset
  {
    AddDaysIndex(order.startDate, LastActiveOffset);
    AddDays(order.startDate, LastActiveOffset)
  }

  /** `checkDate >= order.startDate && checkDate <= endDate`, on time values. */
  predicate IsOrderActiveOnDay(order: Order, day: int, month: int, year: int)
    requires ValidDate(order.startDate) && 0 <= month < 12
  {
    var checkDate := Date(year, month, day);
    DayIndex(order.startDate) <= DayIndex(checkDate) <= DayIndex(EndDate(order))
  }

  /** The span test compares full dates, so spans carry across month and year ends. */
  lemma ActiveIffBetweenDates(order: Order, day: int, month: int, year: int)
    requires ValidDate(order.startDate) && ValidDate(Date(year, month, day))
    ensures IsOrderActiveOnDay(order, day, month, year) <==>
      !Before(Date(year, month, day), order.startDate) && !Before(EndDate(order), Date(year, month, day))
  {
    DateOrder(order.startDate, Date(year, month, day));
    DateOrder(Date(year, month, day), EndDate(order));
  }

  /** An order is active on exactly the 30 consecutive dates start, start + 1, ..., start + 29. */
  lemma ActiveIffWithinThirtyDays(order: Order, day: int, month: int, year: int)
    requires ValidDate(order.startDate) && ValidDate(Date(year, month, day))
    ensures IsOrderActiveOnDay(order, day, month, year) <==>
      exists k: nat :: k <= LastActiveOffset && AddDays(order.startDate, k) == Date(year, month, day)
  {
    var date := Date(year, month, day);
    if IsOrderActiveOnDay(order, day, month, year) {
      var k: nat := DayIndex(date) - DayIndex(order.startDate);
      AddDaysIndex(order.startDate, k);
      DateOrder(AddDays(order.startDate, k), date);
    }
    if exists k: nat :: k <= LastActiveOffset && AddDays(order.startDate, k) == date {
      var k: nat :| k <= LastActiveOffset && AddDays(order.startDate, k) == date;
      AddDaysIndex(order.startDate, k);
    }
  }

  /** The 30 dates of a span are pairwise distinct. */
  lemma SpanDatesDistinct(start: Date, j: nat, k: nat)
    requires ValidDate(start) && j != k
    ensures AddDays(start, j) != AddDays(start, k)
  {
    AddDaysIndex(start, j);
    AddDaysIndex(start, k);
  }

  /** `orders.filter(order => isOrderActiveOnDay(order, day, month, year))`. */
  function OrdersForDay(orders: seq<Order>, day: int, month: int, year: int): (r: seq<Order>)
    requires AllValid(orders) && 0 <= month < 12
    ensures |r| <= |orders|
    ensures forall o <- r :: o in orders && IsOrderActiveOnDay(o, day, month, year)
    ensures forall o <- orders :: IsOrderActiveOnDay(o, day, month, year) ==> o in r
  {
    if orders == [] then []
    else
      var rest := OrdersForDay(orders[1..], day, month, year);
      if IsOrderActiveOnDay(orders[0], day, month, year) then [orders[0]] + rest else rest
  }

  /** `r` is `s` with some elements removed, the others kept in their order. */
  ghost predicate IsSubsequence(r: seq<Order>, s: seq<Order>)
    decreases |s|
  {
    if r == [] then true
    else if s == [] then false
    else (r[0] == s[0] && IsSubsequence(r[1..], s[1..])) || IsSubsequence(r, s[1..])
  }

  /** The orders of a day keep the order of the order list: the filter does not sort. */
  lemma {:induction false} OrdersForDayIsSubsequence(orders: seq<Order>, day: int, month: int, year: int)
    requires AllValid(orders) && 0 <= month < 12
    ensures IsSubsequence(OrdersForDay(orders, day, month, year), orders)
  {
    if orders != [] {
      var rest := OrdersForDay(orders[1..], day, month, year);
      OrdersForDayIsSubsequence(orders[1..], day, month, year);
      SubsequenceOfTail(rest, orders[1..], orders[0]);
      assert orders == [orders[0]] + orders[1..];
    }
  }

  /**
    Each order occurs among the orders of a day exactly as often as in the list
    when it is active on that date, and not at all otherwise.
   */
  lemma {:induction false} OrdersForDayCounts(orders: seq<Order>, day: int, month: int, year: int, o: Order)
    requires AllValid(orders) && 0 <= month < 12
    ensures multiset(OrdersForDay(orders, day, month, year))[o] ==
      (if ValidDate(o.startDate) && IsOrderActiveOnDay(o, day, month, year) then multiset(orders)[o] else 0)
  {
    if orders != [] {
      var head, tail := orders[0], orders[1..];
      var rest := OrdersForDay(tail, day, month, year);
      OrdersForDayCounts(tail, day, month, year, o);
      assert orders == [head] + tail;
      assert multiset(orders) == multiset{head} + multiset(tail);
      if IsOrderActiveOnDay(head, day, month, year) {
        assert multiset(OrdersForDay(orders, day, month, year)) == multiset{head} + multiset(rest);
      }
    }
  }

  lemma {:induction false} SubsequenceOfTail(r: seq<Order>, s: seq<Order>, x: Order)
    requires IsSubsequence(r, s)
    ensures IsSubsequence(r, [x] + s)
    ensures IsSubsequence([x] + r, [x] + s)
  {
    assert ([x] + s)[1..] == s;
    assert ([x] + r)[1..] == r;
  }

  // ---------------------------------------------------------------------------
  // Day cells
  // ---------------------------------------------------------------------------

  /**
    A grid cell: a leading blank, or a numbered day with the orders it shows,
    the count on its "+N autres" control (when shown) and whether its "Réduire"
    control is shown.
   */
  datatype Cell =
    | Blank
    | DayCell(day: int, displayed: seq<Order>, hiddenCount: Option<int>, collapsible: bool)

  function Min(a: int, b: int): int {
    if a <= b then a else b
  }

  /** The rendering of one day of the month from the orders active on it. */
  function DayCellFor(day: int, ordersForDay: seq<Order>, expandedDay: Option<int>): (c: Cell)
    ensures c.DayCell? && c.day == day
    ensures c.collapsible <==> expandedDay == Some(day)
    ensures c.displayed <= ordersForDay
    ensures expandedDay == Some(day) ==> c.displayed == ordersForDay
    ensures expandedDay != Some(day) ==> |c.displayed| == Min(CollapsedLimit, |ordersForDay|)
    ensures c.hiddenCount.Some? <==> |ordersForDay| > CollapsedLimit && expandedDay != Some(day)
    ensures c.hiddenCount.Some? ==> |c.displayed| + c.hiddenCount.value == |ordersForDay|
  {
    var isExpanded := expandedDay == Some(day);
    var displayed := if isExpanded then ordersForDay else ordersForDay[..Min(CollapsedLimit, |ordersForDay|)];
    var hidden := if |ordersForDay| > CollapsedLimit && !isExpanded then Some(|ordersForDay| - CollapsedLimit) else None;
    DayCell(day, displayed, hidden, isExpanded)
  }

  /** The cells of days 1..`n` of a month, in order. */
  function DayCells(n: nat, month: int, year: int, orders: seq<Order>, expandedDay: Option<int>): (cells: seq<Cell>)
    requires 0 <= month < 12 && AllValid(orders)
    ensures |cells| == n
    ensures forall k :: 0 <= k < n ==> cells[k] == DayCellFor(k + 1, OrdersForDay(orders, k + 1, month, year), expandedDay)
  {
    seq(n, k requires 0 <= k => DayCellFor(k + 1, OrdersForDay(orders, k + 1, month, year), expandedDay))
  }

  function Blanks(n: nat): (cells: seq<Cell>)
    ensures |cells| == n && forall i :: 0 <= i < n ==> cells[i] == Blank
  {
    seq(n, _ => Blank)
  }

  /**
    The month grid: `FirstDayOfMonth` blanks, then the days 1..DaysInMonth in
    order, each with its cell.
   */
  function MonthGrid(date: Date, orders: seq<Order>, expandedDay: Option<int>): (cells: seq<Cell>)
    requires 0 <= date.month < 12 && AllValid(orders)
    ensures var offset := FirstDayOfMonth(date);
      |cells| == offset + DaysInMonth(date.year, date.month) <= 37 &&
      (forall i :: 0 <= i < offset ==> cells[i] == Blank) &&
      (forall i :: offset <= i < |cells| ==>
        cells[i] == DayCellFor(i - offset + 1, OrdersForDay(orders, i - offset + 1, date.month, date.year), expandedDay))
  {
    var offset := FirstDayOfMonth(date);
    var days := DayCells(DaysInMonth(date.year, date.month), date.month, date.year, orders, expandedDay);
    Blanks(offset) + days
  }

  /**
    At most one cell of a grid shows "Réduire": the cell of the expanded day,
    when that day belongs to the month.
   */
  lemma CollapsibleCellIsExpandedDay(date: Date, orders: seq<Order>, expandedDay: Option<int>)
    requires 0 <= date.month < 12 && AllValid(orders)
    ensures var cells := MonthGrid(date, orders, expandedDay);
      var offset := FirstDayOfMonth(date);
      forall i :: 0 <= i < |cells| ==>
        (cells[i].DayCell? && cells[i].collapsible <==>
         expandedDay.Some? && i == offset + expandedDay.value - 1 && offset <= i)
  {
    var cells := MonthGrid(date, orders, expandedDay);
    var offset := FirstDayOfMonth(date);
    forall i | 0 <= i < |cells|
      ensures cells[i].DayCell? && cells[i].collapsible <==>
        expandedDay.Some? && i == offset + expandedDay.value - 1 && offset <= i
    {
      if i >= offset {
        var c := DayCellFor(i - offset + 1, OrdersForDay(orders, i - offset + 1, date.month, date.year), expandedDay);
        assert cells[i] == c;
        assert c.collapsible <==> expandedDay == Some(i - offset + 1);
      }
    }
  }

  /** The cell of an expanded day of the month shows "Réduire". */
  lemma ExpandedCellShown(date: Date, orders: seq<Order>, day: int)
    requires 0 <= date.month < 12 && AllValid(orders) && 1 <= day <= DaysInMonth(date.year, date.month)
    ensures var cells := MonthGrid(date, orders, Some(day));
      FirstDayOfMonth(date) + day - 1 < |cells| && cells[FirstDayOfMonth(date) + day - 1].collapsible
  {
    CollapsibleCellIsExpandedDay(date, orders, Some(day));
  }

  // ---------------------------------------------------------------------------
  // Month navigation
  // ---------------------------------------------------------------------------

  datatype Direction = Prev | Next

  /** `newDate.setMonth(prev.getMonth() -/+ 1)`. */
  function ShiftMonth(date: Date, direction: Direction): (r: Date)
    requires 0 <= date.month < 12
    ensures r.day == date.day
    ensures 12 * r.year + r.month == 12 * date.year + date.month + (if direction == Prev then -1 else 1)
  {
    SetMonth(date, if direction == Prev then date.month - 1 else date.month + 1)
  }

  /** Next then previous, or previous then next, returns to the same month. */
  lemma NavigateRoundTrip(date: Date)
    requires 0 <= date.month < 12
    ensures ShiftMonth(ShiftMonth(date, Next), Prev) == date
    ensures ShiftMonth(ShiftMonth(date, Prev), Next) == date
  {
    var n := ShiftMonth(date, Next);
    var p := ShiftMonth(date, Prev);
    MonthCountInjective(ShiftMonth(n, Prev), date);
    MonthCountInjective(ShiftMonth(p, Next), date);
  }

  lemma MonthCountInjective(a: Date, b: Date)
    requires 0 <= a.month < 12 && 0 <= b.month < 12
    requires 12 * a.year + a.month == 12 * b.year + b.month
    ensures a.year == b.year && a.month == b.month
  {
  }

  /** Navigation wraps at year ends: December 2024 → January 2025 → December 2024. */
  lemma NavigateAcrossYearEnd()
    ensures ShiftMonth(Date(2024, 11, 1), Next) == Date(2025, 0, 1)
    ensures ShiftMonth(Date(2025, 0, 1), Prev) == Date(2024, 11, 1)
  {
  }

  // ---------------------------------------------------------------------------
  // The view state
  // ---------------------------------------------------------------------------

  /**
    The calendar component: the displayed month (always held on its first day)
    and the single expanded day, if any.
   */
  class CalendarView {
    var currentDate: Date
    var expandedDay: Option<int>
    const orders: seq<Order>

    ghost predicate Valid()
      reads this
    {
      ValidDate(currentDate) && currentDate.day == 1 && AllValid(orders)
    }

    /** The view opens on August 2024 with no day expanded. */
    constructor ()
      ensures Valid()
      ensures currentDate == Date(2024, 7, 1) && expandedDay == None && orders == MockOrders
    {
      currentDate := Date(2024, 7, 1);
      expandedDay := None;
      orders := MockOrders;
    }

    /** Moves the cursor one month; the expanded day is kept as it was. */
    method NavigateMonth(direction: Direction)
      requires Valid()
      modifies this
      ensures Valid()
      ensures currentDate == ShiftMonth(old(currentDate), direction)
      ensures expandedDay == old(expandedDay)
    {
      var newDate := SetMonth(currentDate, if direction == Prev then currentDate.month - 1 else currentDate.month + 1);
      currentDate := newDate;
    }

    /** "+N autres": the chosen day becomes the only expanded one. */
    method ExpandDay(day: int)
      requires Valid()
      modifies this
      ensures Valid()
      ensures expandedDay == Some(day) && currentDate == old(currentDate)
    {
      expandedDay := Some(day);
    }

    /** "Réduire": no day is expanded any more. */
    method CollapseDay()
      requires Valid()
      modifies this
      ensures Valid()
      ensures expandedDay == None && currentDate == old(currentDate)
    {
      expandedDay := None;
    }

    /** The orders active on `day` of the displayed month. */
    function OrdersOfDay(day: int): (r: seq<Order>)
      reads this
      requires Valid()
      ensures forall o <- orders :: o in r <==> IsOrderActiveOnDay(o, day, currentDate.month, currentDate.year)
      ensures forall o <- r :: o in orders
    {
      OrdersForDay(orders, day, currentDate.month, currentDate.year)
    }

    /** The rendered grid of the displayed month. */
    function Cells(): (cells: seq<Cell>)
      reads this
      requires Valid()
      ensures |cells| == FirstDayOfMonth(currentDate) + DaysInMonth(currentDate.year, currentDate.month)
      ensures forall i :: 0 <= i < |cells| ==>
        (cells[i].DayCell? && cells[i].collapsible <==>
         expandedDay.Some? && i == FirstDayOfMonth(currentDate) + expandedDay.value - 1 && FirstDayOfMonth(currentDate) <= i)
    {
      CollapsibleCellIsExpandedDay(currentDate, orders, expandedDay);
      MonthGrid(currentDate, orders, expandedDay)
    }
  }

  /** Expanding day 15 and then day 20 leaves only day 20 expanded. */
  method ExpandingReplacesExpandedDay()
  {
    var view := new CalendarView();
    view.ExpandDay(15);
    view.ExpandDay(20);
    var cells := view.Cells();
    CollapsibleCellIsExpandedDay(view.currentDate, view.orders, view.expandedDay);
    var offset := FirstDayOfMonth(view.currentDate);
    assert |cells| == offset + 31;
    assert cells[offset + 19].collapsible && !cells[offset + 14].collapsible;
  }

  /** The expanded day number survives navigation: day 15 of the next month shows expanded. */
  method ExpansionCarriesAcrossNavigation()
  {
    var view := new CalendarView();
    view.ExpandDay(15);
    view.NavigateMonth(Next);
    var cells := view.Cells();
    var offset := FirstDayOfMonth(view.currentDate);
    ExpandedCellShown(view.currentDate, view.orders, 15);
    assert cells[offset + 14].collapsible;
  }

  // ---------------------------------------------------------------------------
  // The page's own orders
  // ---------------------------------------------------------------------------

  /** The span test is a comparison of day counts: start ≤ date ≤ start + 29. */
  lemma ActiveByDayCount(order: Order, day: int, month: int, year: int)
    requires ValidDate(order.startDate) && 0 <= month < 12
    ensures IsOrderActiveOnDay(order, day, month, year) <==>
      DayIndex(order.startDate) <= DayIndex(Date(year, month, day)) <= DayIndex(order.startDate) + LastActiveOffset
  {
  }

  lemma DayCounts2024()
    ensures DaysBeforeYear(2024) == 739251
    ensures DaysBeforeMonth(2024, 7) == 213 && DaysBeforeMonth(2024, 8) == 244
  {
  }

  /** An order starting on 5 August 2024, like order 1, is last active on 3 September 2024. */
  lemma SpanFromFifthOfAugust(order: Order)
    requires order.startDate == Date(2024, 7, 5)
    ensures EndDate(order) == Date(2024, 8, 3)
    ensures IsOrderActiveOnDay(order, 5, 7, 2024)
    ensures IsOrderActiveOnDay(order, 20, 7, 2024)
    ensures IsOrderActiveOnDay(order, 3, 8, 2024)
    ensures !IsOrderActiveOnDay(order, 4, 7, 2024)
    ensures !IsOrderActiveOnDay(order, 4, 8, 2024)
  {
    DayCounts2024();
    ActiveByDayCount(order, 5, 7, 2024);
    ActiveByDayCount(order, 20, 7, 2024);
    ActiveByDayCount(order, 3, 8, 2024);
    ActiveByDayCount(order, 4, 7, 2024);
    ActiveByDayCount(order, 4, 8, 2024);
    DateOrder(EndDate(order), Date(2024, 8, 3));
  }

  /**
    Orders starting on 5, 15 and 25 August and on 10 and 1 September 2024, as
    in the page's list: on 10 September the last four are active, in list order.
   */
  lemma OrdersOnSeptemberTenth(orders: seq<Order>)
    requires |orders| == 5
    requires orders[0].startDate == Date(2024, 7, 5) && orders[1].startDate == Date(2024, 7, 15)
    requires orders[2].startDate == Date(2024, 7, 25) && orders[3].startDate == Date(2024, 8, 10)
    requires orders[4].startDate == Date(2024, 8, 1)
    ensures AllValid(orders)
    ensures OrdersForDay(orders, 10, 8, 2024) == orders[1..]
  {
    SeptemberStartsValid(orders);
    SeptemberTenthActivity(orders);
    FirstDroppedRestKept(orders, 10, 8, 2024);
  }

  lemma SeptemberStartsValid(orders: seq<Order>)
    requires |orders| == 5
    requires orders[0].startDate == Date(2024, 7, 5) && orders[1].startDate == Date(2024, 7, 15)
    requires orders[2].startDate == Date(2024, 7, 25) && orders[3].startDate == Date(2024, 8, 10)
    requires orders[4].startDate == Date(2024, 8, 1)
    ensures AllValid(orders)
  {
  }

  /** Of those five orders, only the first has ended by 10 September 2024. */
  lemma SeptemberTenthActivity(orders: seq<Order>)
    requires |orders| == 5 && AllValid(orders)
    requires orders[0].startDate == Date(2024, 7, 5) && orders[1].startDate == Date(2024, 7, 15)
    requires orders[2].startDate == Date(2024, 7, 25) && orders[3].startDate == Date(2024, 8, 10)
    requires orders[4].startDate == Date(2024, 8, 1)
    ensures !IsOrderActiveOnDay(orders[0], 10, 8, 2024)
    ensures forall i :: 1 <= i < |orders| ==> IsOrderActiveOnDay(orders[i], 10, 8, 2024)
  {
    DayCounts2024();
    ActiveByDayCount(orders[0], 10, 8, 2024);
    ActiveByDayCount(orders[1], 10, 8, 2024);
    ActiveByDayCount(orders[2], 10, 8, 2024);
    ActiveByDayCount(orders[3], 10, 8, 2024);
    ActiveByDayCount(orders[4], 10, 8, 2024);
    forall i | 1 <= i < |orders|
      ensures IsOrderActiveOnDay(orders[i], 10, 8, 2024)
    {
      if i == 1 {
      } else if i == 2 {
      } else if i == 3 {
      } else {
        assert i == 4;
      }
    }
  }

  /** A list whose first order is inactive on a date and whose others are all active filters to its tail. */
  lemma FirstDroppedRestKept(orders: seq<Order>, day: int, month: int, year: int)
    requires AllValid(orders) && 0 <= month < 12 && orders != []
    requires !IsOrderActiveOnDay(orders[0], day, month, year)
    requires forall i :: 1 <= i < |orders| ==> IsOrderActiveOnDay(orders[i], day, month, year)
    ensures OrdersForDay(orders, day, month, year) == orders[1..]
  {
    var tail := orders[1..];
    assert forall i :: 0 <= i < |tail| ==> tail[i] == orders[i + 1];
    AllActiveKept(tail, day, month, year);
  }

  lemma {:induction false} AllActiveKept(orders: seq<Order>, day: int, month: int, year: int)
    requires AllValid(orders) && 0 <= month < 12
    requires forall i :: 0 <= i < |orders| ==> IsOrderActiveOnDay(orders[i], day, month, year)
    ensures OrdersForDay(orders, day, month, year) == orders
  {
    if orders != [] {
      AllActiveKept(orders[1..], day, month, year);
    }
  }

  /** The page's own list: order 1 ends on 3 September 2024. */
  lemma MockFirstOrderSpan()
    ensures ValidDate(MockOrders[0].startDate)
    ensures EndDate(MockOrders[0]) == Date(2024, 8, 3)
  {
    SpanFromFifthOfAugust(MockOrders[0]);
  }

  /** The page's own list: 10 September 2024 shows orders 2 to 5, in list order. */
  lemma MockOrdersOnSeptemberTenth()
    ensures AllValid(MockOrders)
    ensures OrdersForDay(MockOrders, 10, 8, 2024) == MockOrders[1..]
  {
    OrdersOnSeptemberTenth(MockOrders);
  }
}
