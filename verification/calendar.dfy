/** Month arithmetic of the monthly calendar and of the membership checkout:
    stepping to the previous and next month, clamping a requested month to the
    bookable window (the current month through the month of today + 60 days),
    and the first day of the following month. The day arithmetic that yields
    the window's end is an input. */
module Calendar {
  import opened Domain
  import opened Text

  /** The years a Python `date` can hold. */
  const MIN_YEAR := 1
  const MAX_YEAR := 9999

  datatype YearMonth = YearMonth(year: int, month: int)

  predicate ValidMonth(ym: YearMonth) {
    1 <= ym.month <= 12
  }

  /** Moving a date to the first day of a month succeeds exactly on these. */
  predicate Representable(ym: YearMonth) {
    ValidMonth(ym) && MIN_YEAR <= ym.year <= MAX_YEAR
  }

  /** Months counted from January of year 0. */
  function MonthIndex(ym: YearMonth): int {
    ym.year * 12 + ym.month - 1
  }

  function MonthOf(d: Date): YearMonth {
    YearMonth(d.year, d.month)
  }

  function FirstOf(ym: YearMonth): Date {
    Date(ym.year, ym.month, 1)
  }

  lemma IndexDeterminesMonth(a: YearMonth, b: YearMonth)
    requires ValidMonth(a) && ValidMonth(b)
    ensures MonthIndex(a) == MonthIndex(b) <==> a == b
    ensures MonthIndex(a) < MonthIndex(b) <==> a.year < b.year || (a.year == b.year && a.month < b.month)
  {
    if a.year < b.year {
      assert a.year * 12 + 12 <= b.year * 12;
    } else if a.year > b.year {
      assert b.year * 12 + 12 <= a.year * 12;
    }
  }

  /** Comparing the first days of two months is comparing the months. */
  lemma FirstOfOrder(a: YearMonth, b: YearMonth)
    requires ValidMonth(a) && ValidMonth(b)
    ensures Before(FirstOf(a), FirstOf(b)) <==> MonthIndex(a) < MonthIndex(b)
  {
    IndexDeterminesMonth(a, b);
  }

  /** The previous month: January steps back to December of the year before. */
  function PrevMonth(ym: YearMonth): (r: YearMonth)
    ensures ValidMonth(ym) ==> ValidMonth(r) && MonthIndex(r) == MonthIndex(ym) - 1
  {
    if ym.month - 1 < 1 then YearMonth(ym.year - 1, 12) else YearMonth(ym.year, ym.month - 1)
  }

  /** The next month: December steps on to January of the year after. */
  function NextMonth(ym: YearMonth): (r: YearMonth)
    ensures ValidMonth(ym) ==> ValidMonth(r) && MonthIndex(r) == MonthIndex(ym) + 1
  {
    if ym.month + 1 > 12 then YearMonth(ym.year + 1, 1) else YearMonth(ym.year, ym.month + 1)
  }

  lemma PrevNextInverse(ym: YearMonth)
    requires ValidMonth(ym)
    ensures NextMonth(PrevMonth(ym)) == ym
    ensures PrevMonth(NextMonth(ym)) == ym
  {
    IndexDeterminesMonth(NextMonth(PrevMonth(ym)), ym);
    IndexDeterminesMonth(PrevMonth(NextMonth(ym)), ym);
  }

  /** The membership checkout's billing anchor: the first day of the month after `today`. */
  function FirstOfNextMonth(today: Date): (r: Date)
    requires ValidMonth(MonthOf(today))
    ensures r.day == 1 && ValidMonth(MonthOf(r))
    ensures MonthIndex(MonthOf(r)) == MonthIndex(MonthOf(today)) + 1
  {
    if today.month < 12 then today.(month := today.month + 1, day := 1)
    else today.(year := today.year + 1, month := 1, day := 1)
  }

  /** The checkout anchor and the calendar's forward step name the same month. */
  lemma AnchorIsNextMonth(today: Date)
    requires ValidMonth(MonthOf(today))
    ensures FirstOfNextMonth(today) == FirstOf(NextMonth(MonthOf(today)))
  {
    IndexDeterminesMonth(MonthOf(FirstOfNextMonth(today)), NextMonth(MonthOf(today)));
  }

  /** The month asked for: both query values present and both readable as integers, or
      else the current month. */
  function RequestedMonth(today: Date, year: Option<string>, month: Option<string>): (r: YearMonth)
    ensures (Present(year) && Present(month)
             && ParseInt(year.value).Some? && ParseInt(month.value).Some?) ==>
      r == YearMonth(ParseInt(year.value).value, ParseInt(month.value).value)
    ensures (!(Present(year) && Present(month)
               && ParseInt(year.value).Some? && ParseInt(month.value).Some?)) ==> r == MonthOf(today)
  {
    if Present(year) && Present(month) then
      match (ParseInt(year.value), ParseInt(month.value))
      case (Some(y), Some(m)) => YearMonth(y, m)
      case _ => MonthOf(today)
    else MonthOf(today)
  }

  datatype CalendarOutcome =
    | Show(shown: YearMonth, prev: YearMonth, next: YearMonth, canPrev: bool, canNext: bool)
    | RedirectToCurrent
    | RedirectToMonth(target: YearMonth)
    | ServerError    // a `date.replace` raised outside any handler

  /** The monthly calendar. `horizon` is today + 60 days. */
  function MonthlyCalendar(today: Date, horizon: Date, year: Option<string>, month: Option<string>)
    : (r: CalendarOutcome)
    requires Representable(MonthOf(today)) && Representable(MonthOf(horizon))
    requires MonthIndex(MonthOf(today)) <= MonthIndex(MonthOf(horizon))
    // An impossible month or year is an error; an early month goes back to the current one,
    // a late one to the window's last month.
    ensures !Representable(RequestedMonth(today, year, month)) ==> r.ServerError?
    ensures r.RedirectToCurrent? <==>
      Representable(RequestedMonth(today, year, month))
      && MonthIndex(RequestedMonth(today, year, month)) < MonthIndex(MonthOf(today))
    ensures r.RedirectToMonth? <==>
      Representable(RequestedMonth(today, year, month))
      && MonthIndex(RequestedMonth(today, year, month)) > MonthIndex(MonthOf(horizon))
    ensures r.RedirectToMonth? ==> r.target == MonthOf(horizon)
    // Whatever is shown is the requested month and lies in the window.
    ensures r.Show? ==>
      && r.shown == RequestedMonth(today, year, month)
      && MonthIndex(MonthOf(today)) <= MonthIndex(r.shown) <= MonthIndex(MonthOf(horizon))
      && MonthIndex(r.prev) == MonthIndex(r.shown) - 1 && ValidMonth(r.prev)
      && MonthIndex(r.next) == MonthIndex(r.shown) + 1 && ValidMonth(r.next)
      && (r.canPrev <==> MonthIndex(MonthOf(today)) < MonthIndex(r.shown))
      && (r.canNext <==> MonthIndex(r.shown) < MonthIndex(MonthOf(horizon)))
    // Inside the window the page is shown unless a neighbour leaves the years a date can hold.
    ensures (Representable(RequestedMonth(today, year, month))
             && MonthIndex(MonthOf(today)) <= MonthIndex(RequestedMonth(today, year, month))
             && MonthIndex(RequestedMonth(today, year, month)) <= MonthIndex(MonthOf(horizon))) ==>
      (r.Show? <==> Representable(PrevMonth(RequestedMonth(today, year, month)))
                    && Representable(NextMonth(RequestedMonth(today, year, month))))
  {
    var ym := RequestedMonth(today, year, month);
    var current := MonthOf(today);
    var last := MonthOf(horizon);
    if !Representable(ym) then ServerError
    else
      FirstOfOrder(ym, current);
      FirstOfOrder(last, ym);
      if Before(FirstOf(ym), FirstOf(current)) then RedirectToCurrent
      else if Before(FirstOf(last), FirstOf(ym)) then RedirectToMonth(last)
      else
        var prev := PrevMonth(ym);
        var next := NextMonth(ym);
        if !Representable(prev) || !Representable(next) then ServerError
        else
          FirstOfOrder(prev, current);
          FirstOfOrder(next, last);
          Show(ym, prev, next, !Before(FirstOf(prev), FirstOf(current)), !Before(FirstOf(last), FirstOf(next)))
  }

  /** Asking by query string for a month inside the window whose neighbours are representable
      shows that month. */
  lemma WindowMonthShown(today: Date, horizon: Date, ym: YearMonth)
    requires Representable(MonthOf(today)) && Representable(MonthOf(horizon))
    requires MonthIndex(MonthOf(today)) <= MonthIndex(MonthOf(horizon))
    requires Representable(ym) && Representable(PrevMonth(ym)) && Representable(NextMonth(ym))
    requires MonthIndex(MonthOf(today)) <= MonthIndex(ym) <= MonthIndex(MonthOf(horizon))
    ensures MonthlyCalendar(today, horizon, Some(IntText(ym.year)), Some(IntText(ym.month))) ==
      Show(ym, PrevMonth(ym), NextMonth(ym), MonthIndex(MonthOf(today)) < MonthIndex(ym),
           MonthIndex(ym) < MonthIndex(MonthOf(horizon)))
  {
    ParseIntOfText(ym.year);
    ParseIntOfText(ym.month);
    assert RequestedMonth(today, Some(IntText(ym.year)), Some(IntText(ym.month))) == ym;
  }

  /** Following an enabled "next" link shows that month. */
  lemma NextLinkShown(today: Date, horizon: Date, year: Option<string>, month: Option<string>)
    requires Representable(MonthOf(today)) && Representable(MonthOf(horizon))
    requires MonthIndex(MonthOf(today)) <= MonthIndex(MonthOf(horizon))
    requires MonthOf(horizon).year < MAX_YEAR
    requires MonthlyCalendar(today, horizon, year, month).Show?
    requires MonthlyCalendar(today, horizon, year, month).canNext
    ensures var n := MonthlyCalendar(today, horizon, year, month).next;
      MonthlyCalendar(today, horizon, Some(IntText(n.year)), Some(IntText(n.month))).Show?
  {
    var r := MonthlyCalendar(today, horizon, year, month);
    var n := r.next;
    PrevNextInverse(r.shown);
    IndexDeterminesMonth(n, MonthOf(horizon));
    IndexDeterminesMonth(NextMonth(n), MonthOf(horizon));
    WindowMonthShown(today, horizon, n);
  }

  /** Following an enabled "previous" link shows that month. */
  lemma PrevLinkShown(today: Date, horizon: Date, year: Option<string>, month: Option<string>)
    requires Representable(MonthOf(today)) && Representable(MonthOf(horizon))
    requires MonthIndex(MonthOf(today)) <= MonthIndex(MonthOf(horizon))
    requires MonthOf(today).year > MIN_YEAR
    requires MonthlyCalendar(today, horizon, year, month).Show?
    requires MonthlyCalendar(today, horizon, year, month).canPrev
    ensures var p := MonthlyCalendar(today, horizon, year, month).prev;
      MonthlyCalendar(today, horizon, Some(IntText(p.year)), Some(IntText(p.month))).Show?
  {
    var r := MonthlyCalendar(today, horizon, year, month);
    var p := r.prev;
    PrevNextInverse(r.shown);
    IndexDeterminesMonth(p, MonthOf(today));
    IndexDeterminesMonth(PrevMonth(p), MonthOf(today));
    WindowMonthShown(today, horizon, p);
  }

  /** The late-month redirect lands on a page that is shown, unless the window's last month
      is the last a date can hold. */
  lemma RedirectTargetShown(today: Date, horizon: Date, year: Option<string>, month: Option<string>)
    requires Representable(MonthOf(today)) && Representable(MonthOf(horizon))
    requires MonthIndex(MonthOf(today)) <= MonthIndex(MonthOf(horizon))
    requires MonthOf(today).year > MIN_YEAR && MonthOf(horizon).year < MAX_YEAR
    requires MonthlyCalendar(today, horizon, year, month).RedirectToMonth?
    ensures var t := MonthlyCalendar(today, horizon, year, month).target;
      MonthlyCalendar(today, horizon, Some(IntText(t.year)), Some(IntText(t.month))).Show?
  {
    var t := MonthOf(horizon);
    IndexDeterminesMonth(PrevMonth(t), MonthOf(today));
    WindowMonthShown(today, horizon, t);
  }
}
