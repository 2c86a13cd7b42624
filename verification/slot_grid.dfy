/** The daily scheduler's hour grid. Booked or paid sessions mark their hour
    reserved; live session requests mark every hour they span; an hour with
    neither is available. Sessions take precedence over requests, and among
    rows of one kind the one iterated last wins. The rows are given in the
    order the database returns them. */
module SlotGrid {
  import opened Domain

  /** "available", "reserved", "pending" (approved, awaiting payment) and "requested". */
  datatype SlotStatus = Available | Reserved | AwaitingPayment | Requested

  /** Who the grid names for an hour: a session's account (possibly none), a caption, or nobody. */
  datatype Label = Holder(user: Option<UserId>) | Caption(text: string) | NoLabel

  datatype Mark = Mark(status: SlotStatus, tag: Label)

  datatype Cell = Cell(hour: int, status: SlotStatus, tag: Label)

  /** Session `s` holds hour `h` of `date`: it is booked or paid and starts at `h`. */
  predicate Holds(s: BookedSession, date: Date, h: int) {
    s.date == date && (s.status == Booked || s.status == SessionPaid) && s.startHour == h
  }

  /** Request `r` covers hour `h` of `date`: it is pending, approved or paid and `h` lies in
      `[start, start + hours)`. */
  predicate Covers(r: PendingRequest, date: Date, h: int) {
    && r.date == date
    && (r.status == Pending || r.status == Approved || r.status == Paid)
    && r.startHour <= h < r.startHour + r.hours
  }

  function SessionMark(s: BookedSession): Mark {
    Mark(Reserved, Holder(s.bookedBy))
  }

  function RequestMark(r: PendingRequest): Mark {
    match r.status
    case Approved => Mark(AwaitingPayment, Caption("Pending"))
    case Paid => Mark(Reserved, Caption("Paid"))
    case _ => Mark(Requested, Caption("Requested"))
  }

  // The reference: search from the end for the last row that claims the hour.

  function LastHolder(sessions: seq<BookedSession>, date: Date, h: int): (r: Option<nat>)
    ensures r.Some? ==> r.value < |sessions| && Holds(sessions[r.value], date, h)
    ensures r.Some? ==> forall j | r.value < j < |sessions| :: !Holds(sessions[j], date, h)
    ensures r.None? ==> forall j | 0 <= j < |sessions| :: !Holds(sessions[j], date, h)
  {
    if |sessions| == 0 then None
    else if Holds(sessions[|sessions| - 1], date, h) then Some(|sessions| - 1)
    else LastHolder(sessions[..|sessions| - 1], date, h)
  }

  function LastCovering(requests: seq<PendingRequest>, date: Date, h: int): (r: Option<nat>)
    ensures r.Some? ==> r.value < |requests| && Covers(requests[r.value], date, h)
    ensures r.Some? ==> forall j | r.value < j < |requests| :: !Covers(requests[j], date, h)
    ensures r.None? ==> forall j | 0 <= j < |requests| :: !Covers(requests[j], date, h)
  {
    if |requests| == 0 then None
    else if Covers(requests[|requests| - 1], date, h) then Some(|requests| - 1)
    else LastCovering(requests[..|requests| - 1], date, h)
  }

  /** The cell the grid should show for hour `h`. */
  function ExpectedCell(sessions: seq<BookedSession>, requests: seq<PendingRequest>, date: Date, h: int): Cell {
    match LastHolder(sessions, date, h)
    case Some(i) => Cell(h, Reserved, Holder(sessions[i].bookedBy))
    case None =>
      match LastCovering(requests, date, h)
      case Some(i) => Cell(h, RequestMark(requests[i]).status, RequestMark(requests[i]).tag)
      case None => Cell(h, Available, NoLabel)
  }

  /** The first hour shown: the current hour when the date is today, otherwise 8. */
  function StartHour(date: Date, today: Date, nowHour: Hour): (h: Hour)
    ensures date == today ==> h == nowHour
    ensures date != today ==> h == 8
  {
    if date == today then nowHour else 8
  }

  // The view's three loops.

  /** The map of booked hours, built in iteration order. */
  method BookedMap(sessions: seq<BookedSession>, date: Date) returns (m: map<int, Mark>)
    ensures forall h :: h in m <==> LastHolder(sessions, date, h).Some?
    ensures forall h | h in m :: m[h] == SessionMark(sessions[LastHolder(sessions, date, h).value])
  {
    m := map[];
    var i := 0;
    while i < |sessions|
      invariant 0 <= i <= |sessions|
      invariant forall h :: h in m <==> LastHolder(sessions[..i], date, h).Some?
      invariant forall h | h in m :: m[h] == SessionMark(sessions[LastHolder(sessions[..i], date, h).value])
    {
      var s := sessions[i];
      assert sessions[..i + 1][..i] == sessions[..i];
      if s.date == date && (s.status == Booked || s.status == SessionPaid) {
        m := m[s.startHour as int := SessionMark(s)];
      }
      i := i + 1;
    }
    assert sessions[..i] == sessions;
  }

  /** One request's inner loop: writes `mark` on every hour of `[start, end)`. */
  method WriteSpan(m: map<int, Mark>, start: int, end: int, mark: Mark) returns (m': map<int, Mark>)
    requires start <= end
    ensures forall x :: x in m' <==> x in m || start <= x < end
    ensures forall x | x in m' :: m'[x] == if start <= x < end then mark else m[x]
  {
    m' := m;
    var h := start;
    while h < end
      invariant start <= h <= end
      invariant forall x :: x in m' <==> x in m || start <= x < h
      invariant forall x | x in m' :: m'[x] == if start <= x < h then mark else m[x]
    {
      m' := m'[h := mark];
      h := h + 1;
    }
  }

  lemma LastCoveringStep(requests: seq<PendingRequest>, i: nat, date: Date, x: int)
    requires i < |requests|
    ensures LastCovering(requests[..i + 1], date, x) ==
      if Covers(requests[i], date, x) then Some(i) else LastCovering(requests[..i], date, x)
  {
    assert requests[..i + 1][..i] == requests[..i];
  }

  /** The map of requested hours: each live request writes every hour it spans, in order. */
  method PendingMap(requests: seq<PendingRequest>, date: Date) returns (m: map<int, Mark>)
    ensures forall h :: h in m <==> LastCovering(requests, date, h).Some?
    ensures forall h | h in m :: m[h] == RequestMark(requests[LastCovering(requests, date, h).value])
  {
    m := map[];
    var i := 0;
    while i < |requests|
      invariant 0 <= i <= |requests|
      invariant forall h :: h in m <==> LastCovering(requests[..i], date, h).Some?
      invariant forall h | h in m :: m[h] == RequestMark(requests[LastCovering(requests[..i], date, h).value])
    {
      var r := requests[i];
      var m0 := m;
      if r.date == date && (r.status == Pending || r.status == Approved || r.status == Paid) {
        m := WriteSpan(m, r.startHour, r.startHour + r.hours, RequestMark(r));
      }
      forall x
        ensures x in m <==> LastCovering(requests[..i + 1], date, x).Some?
        ensures x in m ==> m[x] == RequestMark(requests[LastCovering(requests[..i + 1], date, x).value])
      {
        LastCoveringStep(requests, i, date, x);
      }
      i := i + 1;
    }
    assert requests[..i] == requests;
  }

  /** The grid: one cell per hour from `startHour` through 23. */
  method DailyGrid(sessions: seq<BookedSession>, requests: seq<PendingRequest>, date: Date, startHour: Hour)
    returns (cells: seq<Cell>)
    ensures |cells| == 24 - startHour
    ensures forall k | 0 <= k < |cells| :: cells[k] == ExpectedCell(sessions, requests, date, startHour + k)
  {
    var booked := BookedMap(sessions, date);
    var pending := PendingMap(requests, date);
    cells := [];
    var hour: int := startHour;
    while hour < 24
      invariant startHour <= hour <= 24
      invariant |cells| == hour - startHour
      invariant forall k | 0 <= k < |cells| :: cells[k] == ExpectedCell(sessions, requests, date, startHour + k)
    {
      var cell;
      if hour in booked {
        cell := Cell(hour, booked[hour].status, booked[hour].tag);
      } else if hour in pending {
        cell := Cell(hour, pending[hour].status, pending[hour].tag);
      } else {
        cell := Cell(hour, Available, NoLabel);
      }
      cells := cells + [cell];
      hour := hour + 1;
    }
  }

  /** The scheduler page for `date`, seen on day `today` at local hour `nowHour`: one cell
      for each hour from the first shown through 23, in order, each as the reference says.
      Today's grid starts at the current hour (so it always has a cell); any other day's
      shows the sixteen hours from 8. */
  method Scheduler(sessions: seq<BookedSession>, requests: seq<PendingRequest>, date: Date, today: Date,
                   nowHour: Hour) returns (cells: seq<Cell>)
    ensures |cells| == 24 - StartHour(date, today, nowHour)
    ensures forall k | 0 <= k < |cells| :: cells[k].hour == StartHour(date, today, nowHour) + k
    ensures forall k | 0 <= k < |cells| ::
      cells[k] == ExpectedCell(sessions, requests, date, StartHour(date, today, nowHour) + k)
    ensures date == today ==> |cells| == 24 - nowHour && cells[0].hour == nowHour
    ensures date != today ==> |cells| == 16 && cells[0].hour == 8 && cells[15].hour == 23
  {
    var start := StartHour(date, today, nowHour);
    cells := DailyGrid(sessions, requests, date, start);
  }

  // Properties of the reference grid.

  /** A booked or paid session's hour shows reserved whatever the requests say. */
  lemma SessionsTakePrecedence(sessions: seq<BookedSession>, requests: seq<PendingRequest>, date: Date,
                               h: int, i: nat)
    requires i < |sessions| && Holds(sessions[i], date, h)
    ensures ExpectedCell(sessions, requests, date, h).status == Reserved
    ensures ExpectedCell(sessions, requests, date, h).tag.Holder?
  {
  }

  /** An hour is available exactly when no session holds it and no request covers it. */
  lemma AvailableIffUnclaimed(sessions: seq<BookedSession>, requests: seq<PendingRequest>, date: Date, h: int)
    ensures ExpectedCell(sessions, requests, date, h).status == Available <==>
      (forall j | 0 <= j < |sessions| :: !Holds(sessions[j], date, h))
      && (forall j | 0 <= j < |requests| :: !Covers(requests[j], date, h))
  {
    match LastHolder(sessions, date, h)
    case Some(i) =>
    case None =>
      match LastCovering(requests, date, h)
      case Some(i) =>
        assert RequestMark(requests[i]).status != Available;
      case None =>
  }

  /** A declined request changes no cell. */
  lemma DeclinedInvisible(sessions: seq<BookedSession>, requests: seq<PendingRequest>, date: Date, h: int,
                          r: PendingRequest)
    requires r.status == Declined
    ensures ExpectedCell(sessions, requests + [r], date, h) == ExpectedCell(sessions, requests, date, h)
  {
    assert (requests + [r])[..|requests|] == requests;
  }

  /** On an hour no session holds, the request seen last overrides every earlier one. */
  lemma LaterRequestWins(sessions: seq<BookedSession>, requests: seq<PendingRequest>, date: Date, h: int,
                         r: PendingRequest)
    requires Covers(r, date, h) && LastHolder(sessions, date, h).None?
    ensures ExpectedCell(sessions, requests + [r], date, h) == Cell(h, RequestMark(r).status, RequestMark(r).tag)
  {
  }
}
