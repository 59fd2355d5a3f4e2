# Calendar grid and plan selector, modelled in Dafny

This project models the two pieces of logic in a small marketing site built with React.

**The calendar view** (`src/components/CalendarView.tsx`) shows one month as a grid of Monday-first weeks. Each day cell lists the orders whose 30-day span covers that date. The span runs from the start date through start + 29 days, compared as full dates, so a span carries into the next month and year. A cell shows at most two orders. A "+N autres" control expands the cell, and only one day of the grid can be expanded at a time. "Précédent" and "Suivant" move the month cursor one month, wrapping at year ends.

**The plan selector** (`src/components/PricingContent.tsx`) holds at most one selected plan and a map from plan id to the video format chosen on that plan's card. Selecting the selected plan clears the selection. Selecting another plan replaces it, carrying the format its card shows. Changing a card's format updates the selection when it is that plan. The selection panel cycles the format micro-trottoir → scripte → interview and can deselect.

Files:

- `options.dfy`: `Option`, the model of JavaScript's `null`.
- `gregorian_dates.dfy` (module `GregorianDates`): the integer Gregorian calendar that stands in for the JavaScript `Date` calls the view makes. It covers month lengths, the next day with carry, adding days, `setMonth` normalisation and `getDay`. It also defines a linear day count, `DayIndex`, which plays the part of a time value. Months count from 0, as in `getMonth()`.
- `calendar.dfy` (module `Calendar`): orders and the page's mock data, the span test, the per-day filter, the cell and grid rules, month navigation, and the class `CalendarView` with the mutable cursor and expanded day.
- `pricing.dfy` (module `Pricing`): each handler's effect as a function on `PricingState`, lemmas about sequences of user actions, and the class `PricingContent` whose methods update `selectedProduct` and `productFormats` in place. Each method is specified by the matching function.

Two behaviours worth knowing:

- Month navigation keeps `expandedDay`. The same day number therefore shows expanded in the new month. `CalendarView.NavigateMonth` pins this, and the client method `ExpansionCarriesAcrossNavigation` shows it.
- The page holds one selection, and "Prix" shows that plan's price, not a sum over plans. `SecondSelectionReplacesFirst` shows that selecting the 900€ plan and then the 2300€ plan displays 2300€.

## Model

| member | source | states |
|---|---|---|
| GregorianDates.DaysInMonth | src/components/CalendarView.tsx:64-66 | A month has 28 to 31 days. February has 29 exactly in Gregorian leap years (divisible by 4, and not by 100 unless by 400), otherwise 28. Every other month has at least 30 days. |
| GregorianDates.LastDayPrecedesNextMonth | src/components/CalendarView.tsx:64-66 | The month's last day is a valid date, and the day after it is the first of the next month. The month length equals the day count between the two firsts, which is what "day 0 of the next month" computes. |
| GregorianDates.NextDay | src/components/CalendarView.tsx:84-85 | The day after a valid date is a valid date and strictly later in (year, month, day) order. |
| GregorianDates.AddDays | src/components/CalendarView.tsx:84-85 | Adding n days to a valid date gives a valid date, which is strictly later when n > 0. |
| GregorianDates.DayIndexNext | src/components/CalendarView.tsx:84-85 | The next day is exactly one step later on the linear day count, including across month and year ends. |
| GregorianDates.AddDaysIndex | src/components/CalendarView.tsx:84-85 | Adding n days moves the linear day count by exactly n. |
| GregorianDates.DateOrder | src/components/CalendarView.tsx:87 | For valid dates, comparing day counts (as the code compares time values) is the same as comparing (year, month, day) lexicographically. Equal counts mean equal dates. |
| GregorianDates.DayZeroIsPreviousMonthEnd | src/components/CalendarView.tsx:64-66 | Day 0 of a month has the day count of the last day of the month before, and day 0 of January that of 31 December of the year before. |
| GregorianDates.SetMonth | src/components/CalendarView.tsx:71-81 | `setMonth` with an out-of-range month carries into the year. The result's month is in 0..11, its day is kept, and its absolute month count 12·year + month equals the requested one. |
| GregorianDates.WeekDay | src/components/CalendarView.tsx:68 | `getDay` lies in 0..6. |
| GregorianDates.WeekDayNext | src/components/CalendarView.tsx:68 | The weekday advances by one, modulo 7, from each date to the next. |
| GregorianDates.WeekDayAnchors | src/components/CalendarView.tsx:61-68 | 1 January 2000 is a Saturday (6) and 1 August 2024, the opening month, is a Thursday (4). |
| Calendar.FirstDayOfMonth | src/components/CalendarView.tsx:67-70 | The Monday-first offset of the 1st is in 0..6. It is 6 when the 1st is a Sunday and getDay − 1 otherwise. |
| Calendar.GridColumnIsWeekDay | src/components/CalendarView.tsx:115-131 | Day d sits at position offset + d − 1. That position's column in the 7-column grid headed Lun..Dim is the date's Monday-first weekday. |
| Calendar.EndDate | src/components/CalendarView.tsx:84-85 | An order's end date is a valid date exactly 29 days after its start on the day count. |
| Calendar.IsOrderActiveOnDay | src/components/CalendarView.tsx:82-88 | The span test: the checked date's day count lies between the start's and the end date's. Its meaning is stated by ActiveByDayCount, ActiveIffBetweenDates and ActiveIffWithinThirtyDays. |
| Calendar.ActiveByDayCount | src/components/CalendarView.tsx:82-88 | An order is active on a date iff the date's day count lies between the start's and the start's + 29. |
| Calendar.ActiveIffBetweenDates | src/components/CalendarView.tsx:82-88 | An order is active on a valid date iff start ≤ date ≤ end in full (year, month, day) order, with month and year carry. |
| Calendar.ActiveIffWithinThirtyDays | src/components/CalendarView.tsx:82-88 | An order is active on a valid date iff the date is start + k days for some k in 0..29. |
| Calendar.SpanDatesDistinct | src/components/CalendarView.tsx:84-85 | The dates start + j and start + k differ when j ≠ k, so a span has exactly 30 distinct active dates. |
| Calendar.OrdersForDay | src/components/CalendarView.tsx:89-91 | The orders of a day are no more than the list. Every returned order is an order of the list active on that date, and every order of the list active on that date is returned. |
| Calendar.OrdersForDayIsSubsequence | src/components/CalendarView.tsx:89-91 | The orders of a day are a subsequence of the list, in the list's own order, with no sorting. |
| Calendar.OrdersForDayCounts | src/components/CalendarView.tsx:89-91 | Each order occurs among the orders of a day exactly as often as in the list when it is active on that date, and not at all otherwise. |
| Calendar.AllActiveKept | src/components/CalendarView.tsx:89-91 | When every order of the list is active on a date, the filter returns the whole list unchanged. |
| Calendar.FirstDroppedRestKept | src/components/CalendarView.tsx:89-91 | When only the first order of the list is inactive on a date, the filter returns the rest of the list in order. |
| Calendar.DayCellFor | src/components/CalendarView.tsx:132-159 | An expanded cell shows all of its orders. Otherwise it shows a prefix of min(2, n) orders. "+N autres" appears iff n > 2 and the cell is not expanded, with N = n − 2, so shown plus hidden is n. "Réduire" appears iff the cell is expanded. |
| Calendar.DayCells | src/components/CalendarView.tsx:127-131 | The day cells are one per day 1..n, in order, cell k rendered from the orders of day k + 1. |
| Calendar.MonthGrid | src/components/CalendarView.tsx:121-131 | The grid is offset blanks followed by days 1..daysInMonth in order, each rendered by the cell rule, so it has at most 37 cells. |
| Calendar.CollapsibleCellIsExpandedDay | src/components/CalendarView.tsx:132-159 | A grid cell shows "Réduire" iff it is the cell of the expanded day, so at most one cell of the grid does. |
| Calendar.ExpandedCellShown | src/components/CalendarView.tsx:132-159 | When the expanded day is a day of the displayed month, its cell is in the grid and shows "Réduire". |
| Calendar.ShiftMonth | src/components/CalendarView.tsx:71-81 | Navigation keeps the day and moves the absolute month count by exactly −1 (prev) or +1 (next). |
| Calendar.NavigateRoundTrip | src/components/CalendarView.tsx:71-81 | Next then prev, or prev then next, returns to the same date. |
| Calendar.NavigateAcrossYearEnd | src/components/CalendarView.tsx:71-81 | December 2024 → January 2025 → December 2024. |
| Calendar.CalendarView.constructor | src/components/CalendarView.tsx:61-62 | The view opens on 1 August 2024 with no expanded day, over the mock orders. |
| Calendar.CalendarView.NavigateMonth | src/components/CalendarView.tsx:71-81 | The cursor moves one month and stays on day 1. The expanded day is left as it was. |
| Calendar.CalendarView.OrdersOfDay | src/components/CalendarView.tsx:89-91 | For the displayed month, an order of the list is among the day's orders iff it is active on that day, and nothing else is. |
| Calendar.CalendarView.Cells | src/components/CalendarView.tsx:121-163 | The rendered grid of the displayed month has offset + daysInMonth cells, and a cell shows "Réduire" iff it is the cell of the expanded day. |
| Calendar.CalendarView.ExpandDay | src/components/CalendarView.tsx:145-151 | The chosen day becomes the only expanded day, replacing any other. The cursor is unchanged. |
| Calendar.CalendarView.CollapseDay | src/components/CalendarView.tsx:153-159 | No day is expanded afterwards. The cursor is unchanged. |
| Calendar.SpanFromFifthOfAugust | src/components/CalendarView.tsx:82-88 | An order starting 5 August 2024 ends on 3 September 2024. It is active on 5 and 20 August and on 3 September, and not on 4 August or 4 September. |
| Calendar.SeptemberTenthActivity | src/components/CalendarView.tsx:82-88 | Of orders starting on 5, 15 and 25 August and on 10 and 1 September 2024, only the first is inactive on 10 September 2024. |
| Calendar.OrdersOnSeptemberTenth | src/components/CalendarView.tsx:89-91 | For a list of orders starting on those five dates, the orders of 10 September 2024 are the last four, in list order. |
| Calendar.MockFirstOrderSpan | src/components/CalendarView.tsx:14-22 | Order 1 of the page's list, which starts 5 August 2024, ends on 3 September 2024. |
| Calendar.MockOrdersOnSeptemberTenth | src/components/CalendarView.tsx:14-59 | On 10 September 2024 the page's list shows orders 2, 3, 4 and 5, in list order. |
| Pricing.CardFormat | src/components/PricingContent.tsx:153 | The format a plan's card shows: its entry in the format map, or micro-trottoir. Its behaviour is stated by CardFormatAfterSet. |
| Pricing.CardFormatAfterSet | src/components/PricingContent.tsx:140-153 | Every card shows micro-trottoir on an empty map. Setting one card's format makes that card show it and leaves every other card's format as it was. |
| Pricing.NextFormat | src/components/PricingContent.tsx:220-224 | The format cycle never leaves a format unchanged. |
| Pricing.NextFormatCycle | src/components/PricingContent.tsx:220-224 | Three steps of the cycle are the identity, and one round visits all three formats. |
| Pricing.AfterSelect | src/components/PricingContent.tsx:152-169 | Selecting clears the selection iff that plan was selected. Otherwise the plan becomes the only selection, with its id, title, price and card format. The format map is untouched. The invariants are kept. |
| Pricing.AfterFormatChange | src/components/PricingContent.tsx:140-150 | The plan's card takes the new format and every other card keeps its format. The selection keeps its id, title and price, and its format follows only if it is that plan. Consistency is kept. |
| Pricing.AfterUpdateProductFormat | src/components/PricingContent.tsx:171-179 | With no selection nothing changes. Otherwise the selection and its own card both take the new format, and every other card keeps its format. Consistency is kept. |
| Pricing.AfterFormatCycle | src/components/PricingContent.tsx:218-226 | The selection moves to the next format of the cycle, which differs from the current one, and keeps its id, title and price. The selected plan's card takes that format and no other card changes. Consistency is kept. |
| Pricing.AfterDeselect | src/components/PricingContent.tsx:236-242 | The selection is cleared and the format map is untouched. |
| Pricing.DisplayedPrice | src/components/PricingContent.tsx:247-250 | A price is shown iff a plan is selected. For an offered plan it is 900, 1700 or 2300. |
| Pricing.RunPreservesConsistency | src/components/PricingContent.tsx:140-179 | From a consistent state, any sequence of user actions keeps the selection showing its card's format (or the micro-trottoir default) and keeps it one of the offered plans. |
| Pricing.SelectTwiceClears | src/components/PricingContent.tsx:152-169 | Selecting a plan that is not selected twice in a row ends with no selection and the same format map. |
| Pricing.SecondSelectionReplacesFirst | src/components/PricingContent.tsx:152-169 | Selecting the 900€ plan and then the 2300€ plan leaves only the 2300€ plan selected, and the price shown is 2300. |
| Pricing.PricingContent.constructor | src/components/PricingContent.tsx:21-24 | The page opens with no selection and an empty format map. |
| Pricing.PricingContent.HandleProductSelect | src/components/PricingContent.tsx:152-169 | The new state is `AfterSelect` of the old one. The format map is unchanged and consistency is kept. |
| Pricing.PricingContent.HandleFormatChange | src/components/PricingContent.tsx:140-150 | The new state is `AfterFormatChange` of the old one, with exactly one key of the format map set. |
| Pricing.PricingContent.UpdateProductFormat | src/components/PricingContent.tsx:171-179 | The new state is `AfterUpdateProductFormat` of the old one. It is a no-op without a selection. |
| Pricing.PricingContent.CycleFormat | src/components/PricingContent.tsx:218-226 | The new state is `AfterFormatCycle` of the old one. |
| Pricing.PricingContent.Deselect | src/components/PricingContent.tsx:236-242 | The selection is cleared and the format map is unchanged. |

## Left out

- JavaScript `Date` internals are not modelled: millisecond time values, time zones, daylight saving, and the range limit of about ±275,760 years. Dates are (year, month, day) triples on the proleptic Gregorian calendar, and `DayIndex` stands in for the time value at local midnight.
- The `Date` constructor maps years 0 to 99 to 1900 to 1999. The model treats every year as itself. The cursor would have to be moved back about 1,925 years to reach such a year.
- GregorianDates.SetMonth: keeps the day of month. JavaScript rolls a day that overflows the target month into the following month. That cannot happen here, because the cursor is always on day 1.
- Calendar.IsOrderActiveOnDay: the lemmas that give its meaning in full-date order assume a valid date, the only kind the grid passes (days 1..daysInMonth). The predicate itself accepts any day number. `DayIndex` is linear in the day, so an out-of-range day is counted the way JavaScript normalises it (`GregorianDates.DayZeroIsPreviousMonthEnd`).
- Pricing formats are an enumeration of the three select values. In the code they are strings, and `|| 'micro-trottoir'` would also replace an empty string. No handler can store an empty string or a value outside the three, so the cycle's "any other value" branch is only reached by interview.
- Pricing.PricingContent.HandleProductSelect: requires an offered plan. The code accepts `plan: any`, but its only caller passes the entries of the plan list.
- Pricing.PricingContent.CycleFormat: requires a selection, because the edit button is only rendered inside the selection panel.
- React's asynchronous state updates are not modelled. Each handler runs to completion before the next, and the reads of `selectedProduct` in `handleFormatChange` and `updateProductFormat` see the state the handler started from.
- Rendering is not modelled: CSS classes, icons, French month names and labels, the format legend and the plan feature lists. `src/components/PricingCard.tsx`, `src/components/OrderBlock.tsx`, `src/components/PricingModal.tsx` and the pages under `src/pages/` are not part of this model. `OrderBlock`'s end-date computation is the same add-29-days rule as `Calendar.EndDate`.
