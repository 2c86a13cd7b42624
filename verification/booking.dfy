/** Instant multi-hour booking against membership credits, from the daily
    scheduler. The selected hours arrive as comma-separated text; each parsed
    hour becomes a one-hour booked session on the selected date and the
    membership pays one credit per hour. */
module Booking {
  import opened Domain
  import opened Text
  import opened Reservations

  /** The values of the digit-only tokens, in order, duplicates kept; other tokens are dropped. */
  function KeepDigits(tokens: seq<string>): (hours: seq<nat>)
    ensures |hours| <= |tokens|
    ensures (forall i | 0 <= i < |tokens| :: IsDigits(tokens[i])) ==>
      |hours| == |tokens| && forall i | 0 <= i < |tokens| :: hours[i] == DecimalValue(tokens[i])
    ensures (forall i | 0 <= i < |tokens| :: !IsDigits(tokens[i])) ==> hours == []
  {
    if |tokens| == 0 then []
    else (if IsDigits(tokens[0]) then [DecimalValue(tokens[0])] else []) + KeepDigits(tokens[1..])
  }

  /** The hours a `selected_hours` form value names. */
  function ParseHours(selected: string): seq<nat> {
    KeepDigits(Split(selected, ','))
  }

  /** The form value a client sends for `hours`: their decimal texts joined by commas. */
  function HoursText(hours: seq<nat>): string {
    if |hours| == 0 then "" else Join(DecimalTexts(hours), ',')
  }

  function DecimalTexts(hours: seq<nat>): (texts: seq<string>)
    ensures |texts| == |hours|
    ensures forall i | 0 <= i < |hours| :: texts[i] == DecimalText(hours[i])
  {
    if |hours| == 0 then [] else [DecimalText(hours[0])] + DecimalTexts(hours[1..])
  }

  lemma {:induction false} KeepDigitsAppend(a: seq<string>, b: seq<string>)
    ensures KeepDigits(a + b) == KeepDigits(a) + KeepDigits(b)
  {
    if |a| > 0 {
      var head := if IsDigits(a[0]) then [DecimalValue(a[0])] else [];
      assert (a + b)[0] == a[0];
      assert (a + b)[1..] == a[1..] + b;
      assert KeepDigits(a + b) == head + KeepDigits(a[1..] + b);
      KeepDigitsAppend(a[1..], b);
      assert KeepDigits(a) == head + KeepDigits(a[1..]);
    } else {
      assert a + b == b;
    }
  }

  /** Tokens that are not all digits are dropped without trace. */
  lemma NonDigitTokenDropped(a: seq<string>, t: string, b: seq<string>)
    requires !IsDigits(t)
    ensures KeepDigits(a + [t] + b) == KeepDigits(a + b)
  {
    KeepDigitsAppend(a + [t], b);
    KeepDigitsAppend(a, [t]);
    KeepDigitsAppend(a, b);
  }

  lemma {:induction false} KeepDecimalTexts(hours: seq<nat>)
    ensures KeepDigits(DecimalTexts(hours)) == hours
  {
    if |hours| > 0 {
      DecimalRoundTrip(hours[0]);
      assert DecimalTexts(hours)[1..] == DecimalTexts(hours[1..]);
      KeepDecimalTexts(hours[1..]);
    }
  }

  /** Parsing what the client sends gives back exactly the hours it selected, in order and
      with repetitions. */
  lemma ParseHoursRoundTrip(hours: seq<nat>)
    ensures ParseHours(HoursText(hours)) == hours
  {
    if |hours| > 0 {
      var texts := DecimalTexts(hours);
      forall i | 0 <= i < |texts|
        ensures ',' !in texts[i]
      {
        assert IsDigits(texts[i]);
      }
      SplitJoin(texts, ',');
      KeepDecimalTexts(hours);
    }
  }

  /** The session one selected hour becomes. */
  function OneHour(user: UserId, date: Date, hour: Hour): BookedSession {
    BookedSession(Some(user), date, hour, 1, Booked, None)
  }

  /** The rows `t` gained from `t0`: `n` sessions under consecutive ids, one per leading hour. */
  ghost predicate AddedInOrder(t0: Sessions, t: Sessions, user: UserId, date: Date, hours: seq<nat>, n: nat) {
    && n <= |hours|
    && t.nextId == t0.nextId + n
    && (forall id | id in t.rows :: id in t0.rows || t0.nextId <= id < t0.nextId + n)
    && (forall id | id in t0.rows :: id in t.rows && t.rows[id] == t0.rows[id])
    && (forall i | 0 <= i < n ::
          hours[i] < 24 && t0.nextId + i in t.rows && t.rows[t0.nextId + i] == OneHour(user, date, hours[i]))
  }

  /** The loop of the view as written: a session is created for each hour in turn, and the
      first hour that is not a clock hour makes the time conversion raise, ending the loop
      with the sessions already created kept. Returns how many were created. */
  function AddSessions(t: Sessions, user: UserId, date: Date, hours: seq<nat>): (r: (Sessions, nat))
    requires t.Valid()
    ensures r.0.Valid()
    ensures AddedInOrder(t, r.0, user, date, hours, r.1)
    ensures r.1 < |hours| ==> hours[r.1] >= 24
    decreases |hours|
  {
    if |hours| == 0 || hours[0] >= 24 then (t, 0)
    else
      var t1 := t.Insert(OneHour(user, date, hours[0]));
      var (t2, n) := AddSessions(t1, user, date, hours[1..]);
      assert AddedInOrder(t1, t2, user, date, hours[1..], n);
      forall i | 0 <= i < n + 1
        ensures hours[i] < 24 && t.nextId + i in t2.rows && t2.rows[t.nextId + i] == OneHour(user, date, hours[i])
      {
        if i > 0 {
          assert hours[1..][i - 1] == hours[i];
        }
      }
      assert forall id | id in t.rows :: id in t2.rows && t2.rows[id] == t.rows[id];
      assert AddedInOrder(t, t2, user, date, hours, n + 1);
      (t2, n + 1)
  }

  datatype Ledgers = Ledgers(memberships: Memberships, sessions: Sessions)

  datatype BookingOutcome =
    | PastDate            // the date lies before today: the view redirects before reading the form
    | NotMember           // the account lacks the member role
    | NoHoursSelected     // the form value is empty
    | Refused             // no membership, no access, or fewer credits than hours
    | InvalidHour         // an hour outside 0..23 (corrected booking only)
    | Crashed             // the view raised while creating sessions (as written only)
    | BookedHours(count: nat)

  /** The guard both versions share: the steps before any session is created. */
  function Guard(l: Ledgers, user: UserId, isMember: bool, hasAccess: bool, date: Date, today: Date,
                 selected: string): (r: Option<BookingOutcome>)
    ensures r.None? <==> (!Before(date, today) && isMember && selected != "" && user in l.memberships
                          && hasAccess && l.memberships[user].credits >= |ParseHours(selected)|)
  {
    if Before(date, today) then Some(PastDate)
    else if !isMember then Some(NotMember)
    else if selected == "" then Some(NoHoursSelected)
    else if user in l.memberships && hasAccess && l.memberships[user].credits >= |ParseHours(selected)| then None
    else Some(Refused)
  }

  /** The view crashed partway: one session for each hour before the first hour past 23,
      and no credit taken. */
  ghost predicate CrashedPartway(l0: Ledgers, l: Ledgers, user: UserId, date: Date, hours: seq<nat>) {
    var k := l.sessions.nextId - l0.sessions.nextId;
    && 0 <= k < |hours| && hours[k] >= 24 && (forall i | 0 <= i < k :: hours[i] < 24)
    && l.memberships == l0.memberships
    && AddedInOrder(l0.sessions, l.sessions, user, date, hours, k)
  }

  /** Every hour was booked, in order, and paid for with one credit each. */
  ghost predicate BookedAll(l0: Ledgers, l: Ledgers, user: UserId, date: Date, hours: seq<nat>)
    requires user in l0.memberships && l0.memberships[user].credits >= |hours|
  {
    && AddedInOrder(l0.sessions, l.sessions, user, date, hours, |hours|)
    && l.memberships == l0.memberships[user := l0.memberships[user].(credits := l0.memberships[user].credits - |hours|)]
  }

  /** The view past its guard: the session loop, then the debit when the loop ran to the end.
      The first hour past 23 ends the loop with a crash, before the debit. */
  function CreateThenDebit(l: Ledgers, user: UserId, date: Date, hours: seq<nat>): (r: (Ledgers, BookingOutcome))
    requires l.sessions.Valid()
    requires user in l.memberships && l.memberships[user].credits >= |hours|
    ensures r.0.sessions.Valid() && r.0.sessions.nextId >= l.sessions.nextId
    ensures r.1.BookedHours? <==> ClockHours(hours)
    ensures r.1.Crashed? <==> !ClockHours(hours)
    ensures r.1.Crashed? ==> CrashedPartway(l, r.0, user, date, hours)
    ensures r.1.BookedHours? ==> r.1.count == |hours| && BookedAll(l, r.0, user, date, hours)
  {
    var (sessions, n) := AddSessions(l.sessions, user, date, hours);
    assert n < |hours| ==> !ClockHours(hours);
    assert n == |hours| ==> ClockHours(hours);
    if n < |hours| then (Ledgers(l.memberships, sessions), Crashed)
    else
      var m := l.memberships[user];
      (Ledgers(l.memberships[user := m.(credits := m.credits - |hours|)], sessions), BookedHours(|hours|))
  }

  /** The view as written: creates the sessions, then debits the credits. An hour past 23
      raises inside the loop, after the earlier sessions were saved and before the debit. */
  function InstantBookAsWritten(l: Ledgers, user: UserId, isMember: bool, hasAccess: bool, date: Date,
                                today: Date, selected: string): (r: (Ledgers, BookingOutcome))
    requires l.sessions.Valid()
    ensures r.0.sessions.Valid()
    ensures Guard(l, user, isMember, hasAccess, date, today, selected).Some? ==>
      r == (l, Guard(l, user, isMember, hasAccess, date, today, selected).value)
    ensures r.0.sessions.nextId >= l.sessions.nextId
    // Past the guard, the view books when every hour is a clock hour and crashes otherwise.
    ensures Guard(l, user, isMember, hasAccess, date, today, selected).None? ==>
      && (r.1.BookedHours? <==> ClockHours(ParseHours(selected)))
      && (r.1.Crashed? <==> !ClockHours(ParseHours(selected)))
    // The crash comes at the first hour past 23, after one session per earlier hour.
    ensures r.1.Crashed? ==> CrashedPartway(l, r.0, user, date, ParseHours(selected))
    ensures r.1.BookedHours? ==>
      && user in l.memberships && l.memberships[user].credits >= |ParseHours(selected)|
      && ClockHours(ParseHours(selected))
      && r.1.count == |ParseHours(selected)|
      && BookedAll(l, r.0, user, date, ParseHours(selected))
  {
    match Guard(l, user, isMember, hasAccess, date, today, selected)
    case Some(refusal) => (l, refusal)
    case None =>
      var hours := ParseHours(selected);
      assert user in l.memberships && l.memberships[user].credits >= |hours|;
      var r := CreateThenDebit(l, user, date, hours);
      assert r.1.BookedHours? || r.1.Crashed?;
      r
  }

  /** Selecting 9 and 24 with two credits books hour 9 and charges nothing. */
  lemma OutOfRangeHourBooksForFree(l: Ledgers, user: UserId, date: Date, today: Date)
    requires l.sessions.Valid()
    requires !Before(date, today) && user in l.memberships && l.memberships[user].credits >= 2
    ensures var r := InstantBookAsWritten(l, user, true, true, date, today, HoursText([9, 24]));
      && r.1 == Crashed
      && r.0.sessions.nextId == l.sessions.nextId + 1
      && r.0.sessions.rows[l.sessions.nextId] == OneHour(user, date, 9)
      && r.0.memberships[user].credits == l.memberships[user].credits
  {
    ParseHoursRoundTrip([9, 24]);
    assert HoursText([9, 24]) != "" by {
      assert |HoursText([9, 24])| >= |DecimalText(9)|;
    }
  }

  /** All hours are clock hours. */
  predicate ClockHours(hours: seq<nat>) {
    forall i | 0 <= i < |hours| :: hours[i] < 24
  }

  /** The booking that refuses an hour outside the day before creating anything: it is
      all-or-nothing, and every created session is paid for by exactly one credit. */
  function InstantBook(l: Ledgers, user: UserId, isMember: bool, hasAccess: bool, date: Date,
                       today: Date, selected: string): (r: (Ledgers, BookingOutcome))
    requires l.sessions.Valid()
    ensures r.0.sessions.Valid()
    ensures Guard(l, user, isMember, hasAccess, date, today, selected).Some? ==>
      r == (l, Guard(l, user, isMember, hasAccess, date, today, selected).value)
    ensures !r.1.BookedHours? ==> r.0 == l
    ensures r.1.BookedHours? <==>
      Guard(l, user, isMember, hasAccess, date, today, selected).None? && ClockHours(ParseHours(selected))
    ensures r.1.BookedHours? ==>
      var hours := ParseHours(selected);
      && r.1.count == |hours|
      && AddedInOrder(l.sessions, r.0.sessions, user, date, hours, |hours|)
      && r.0.memberships == l.memberships[user := l.memberships[user].(credits := l.memberships[user].credits - |hours|)]
    // Credits spent equal sessions created.
    ensures user in l.memberships ==>
      user in r.0.memberships && r.0.memberships[user].credits + (r.0.sessions.nextId - l.sessions.nextId) == l.memberships[user].credits
  {
    match Guard(l, user, isMember, hasAccess, date, today, selected)
    case Some(refusal) => (l, refusal)
    case None =>
      var hours := ParseHours(selected);
      if !ClockHours(hours) then (l, InvalidHour)
      else
        var (sessions, n) := AddSessions(l.sessions, user, date, hours);
        var m := l.memberships[user];
        (Ledgers(l.memberships[user := m.(credits := m.credits - |hours|)], sessions), BookedHours(|hours|))
  }

  /** On every input where the as-written view does not crash it agrees with the corrected one. */
  lemma CorrectionOnlyChangesCrashes(l: Ledgers, user: UserId, isMember: bool, hasAccess: bool, date: Date,
                                     today: Date, selected: string)
    requires l.sessions.Valid()
    ensures !InstantBookAsWritten(l, user, isMember, hasAccess, date, today, selected).1.Crashed? ==>
      InstantBookAsWritten(l, user, isMember, hasAccess, date, today, selected)
      == InstantBook(l, user, isMember, hasAccess, date, today, selected)
    ensures InstantBookAsWritten(l, user, isMember, hasAccess, date, today, selected).1.Crashed?
      <==> InstantBook(l, user, isMember, hasAccess, date, today, selected).1.InvalidHour?
  {
    if Guard(l, user, isMember, hasAccess, date, today, selected).None? {
      var hours := ParseHours(selected);
      var (sessions, n) := AddSessions(l.sessions, user, date, hours);
      if !ClockHours(hours) {
        assert n < |hours|;
      }
    }
  }

  /** The view, booking one clock hour with a credit to spare, succeeds: it adds that one
      session under the next id, takes one credit from the booker, and leaves the other
      memberships and the older sessions as they were. The corrected booking does the same. */
  lemma OneHourBooks(l: Ledgers, u: UserId, date: Date, today: Date, hour: Hour)
    requires l.sessions.Valid()
    requires u in l.memberships && l.memberships[u].credits >= 1 && !Before(date, today)
    ensures InstantBookAsWritten(l, u, true, true, date, today, HoursText([hour]))
      == InstantBook(l, u, true, true, date, today, HoursText([hour]))
    ensures var r := InstantBookAsWritten(l, u, true, true, date, today, HoursText([hour]));
      && r.1 == BookedHours(1)
      && r.0.sessions.Valid()
      && r.0.sessions.nextId == l.sessions.nextId + 1
      && r.0.sessions.rows == l.sessions.rows[l.sessions.nextId := OneHour(u, date, hour)]
      && r.0.memberships == l.memberships[u := l.memberships[u].(credits := l.memberships[u].credits - 1)]
  {
    var text := HoursText([hour]);
    ParseHoursRoundTrip([hour]);
    assert text != "" by {
      assert |text| >= |DecimalText(hour)|;
    }
    var r := InstantBook(l, u, true, true, date, today, text);
    assert AddedInOrder(l.sessions, r.0.sessions, u, date, [hour], 1);
    CorrectionOnlyChangesCrashes(l, u, true, true, date, today, text);
  }

  /** Nothing in the view stops two members from booking the same hour: both bookings
      succeed and the slot ends up held by two booked sessions. */
  lemma DoubleBookingPossible(l: Ledgers, u1: UserId, u2: UserId, date: Date, today: Date, hour: Hour)
    requires l.sessions.Valid()
    requires u1 != u2 && u1 in l.memberships && u2 in l.memberships
    requires l.memberships[u1].credits >= 1 && l.memberships[u2].credits >= 1
    requires !Before(date, today)
    ensures var first := InstantBookAsWritten(l, u1, true, true, date, today, HoursText([hour]));
      var second := InstantBookAsWritten(first.0, u2, true, true, date, today, HoursText([hour]));
      && first.1 == BookedHours(1) && second.1 == BookedHours(1)
      && var a := second.0.sessions.rows[l.sessions.nextId];
         var b := second.0.sessions.rows[l.sessions.nextId + 1];
         a.date == b.date == date && a.startHour == b.startHour == hour
         && a.status == b.status == Booked && a.bookedBy != b.bookedBy
  {
    OneHourBooks(l, u1, date, today, hour);
    var first := InstantBookAsWritten(l, u1, true, true, date, today, HoursText([hour]));
    OneHourBooks(first.0, u2, date, today, hour);
  }
}
