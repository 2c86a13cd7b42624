/** The reservation lifecycle as the views and the payment webhook drive it:
    submission of a pending request, the operator's accept/reject, the
    payment-confirmed rewrite to `paid`, and a member cancelling their own
    booked session. Every transition rewrites one status field; none of them
    looks at the prior status. */
module Reservations {
  import opened Domain
  import opened Text

  type Requests = Table<PendingRequest>
  type Sessions = Table<BookedSession>

  const ACCEPT := "accept"
  const REJECT := "reject"
  const RESERVATION_KEY := "reservation_id"

  /** Exactly row `id` of `t` became `t.rows[id]` with status `s`; the ids are unchanged. */
  ghost predicate RequestRewritten(t: Requests, t': Requests, id: nat, s: RequestStatus) {
    && id in t.rows
    && t'.nextId == t.nextId
    && t'.rows == t.rows[id := t.rows[id].(status := s)]
  }

  /** The non-empty addresses among the operators' e-mails, in order. */
  function OperatorAddresses(emails: seq<string>): (r: seq<string>)
    ensures |r| <= |emails|
    ensures forall e :: e in r <==> e in emails && e != ""
  {
    if |emails| == 0 then []
    else (if emails[0] != "" then [emails[0]] else []) + OperatorAddresses(emails[1..])
  }

  /** A guest's request for `hours` hours starting at `startHour` on `date`, stored as `pending`.
      `operatorEmails` are the e-mails of the accounts in the Operator group; the operators
      that have an address are told of the new request, and nobody is when none has one. */
  function Submit(t: Requests, name: string, email: string, phone: string, date: Date,
                  startHour: Hour, hours: nat, notes: Option<string>, operatorEmails: seq<string>): (r: Step<Requests>)
    requires t.Valid()
    ensures r.state.Valid()
    ensures t.nextId !in t.rows && r.state.rows.Keys == t.rows.Keys + {t.nextId}
    ensures r.state.nextId == t.nextId + 1
    ensures forall id | id in t.rows :: r.state.rows[id] == t.rows[id]
    ensures r.state.rows[t.nextId] == PendingRequest(name, email, phone, date, startHour, hours, notes, Pending)
    ensures r.notice.Some? <==> exists i | 0 <= i < |operatorEmails| :: operatorEmails[i] != ""
    ensures r.notice.Some? ==> r.notice.value.RequestSubmitted? && r.notice.value.request == t.nextId
    ensures r.notice.Some? ==> forall e :: e in r.notice.value.recipients <==> e in operatorEmails && e != ""
  {
    var recipients := OperatorAddresses(operatorEmails);
    assert recipients != [] ==> recipients[0] in operatorEmails;
    assert forall i | 0 <= i < |operatorEmails| :: operatorEmails[i] != "" ==> operatorEmails[i] in recipients;
    var notice := if recipients != [] then Some(RequestSubmitted(t.nextId, recipients)) else None;
    Step(t.Insert(PendingRequest(name, email, phone, date, startHour, hours, notes, Pending)), notice)
  }

  /** The operator console: both the id and the action must be non-empty text, the id must
      name a request, and only `accept` and `reject` act. Accept writes `approved` and asks
      for a payment link; reject writes `declined` and sends the suggested times with surrounding whitespace
      stripped. The status
      is saved before the mail is attempted, so a failed mail leaves it written. */
  function Decide(t: Requests, requestId: Option<string>, action: Option<string>,
                  suggestedTimes: string): (r: Step<Requests>)
    ensures r.state.rows.Keys == t.rows.Keys && r.state.nextId == t.nextId
    ensures !Present(requestId) || !Present(action) ==> r == Step(t, None)
    ensures Present(requestId) && Present(action) ==>
      var id := ParseId(requestId.value);
      && ((id.None? || id.value !in t.rows || (action.value != ACCEPT && action.value != REJECT))
           ==> r == Step(t, None))
      && (id.Some? && id.value in t.rows && action.value == ACCEPT ==>
           RequestRewritten(t, r.state, id.value, Approved) && r.notice == Some(PaymentLink(id.value)))
      && (id.Some? && id.value in t.rows && action.value == REJECT ==>
           RequestRewritten(t, r.state, id.value, Declined)
           && r.notice == Some(Rejection(id.value, Strip(suggestedTimes))))
  {
    if !Present(requestId) || !Present(action) then Step(t, None)
    else
      match ParseId(requestId.value)
      case None => Step(t, None)
      case Some(id) =>
        if id !in t.rows then Step(t, None)
        else if action.value == ACCEPT then
          Step(Table(t.rows[id := t.rows[id].(status := Approved)], t.nextId), Some(PaymentLink(id)))
        else if action.value == REJECT then
          Step(Table(t.rows[id := t.rows[id].(status := Declined)], t.nextId), Some(Rejection(id, Strip(suggestedTimes))))
        else Step(t, None)
  }

  /** The payment-confirmed path of the webhook: the metadata's `reservation_id` names a
      request, which becomes `paid` whatever its prior status. */
  function MarkPaid(t: Requests, metadata: map<string, string>): (r: Step<Requests>)
    ensures r.state.rows.Keys == t.rows.Keys && r.state.nextId == t.nextId
    ensures (RESERVATION_KEY !in metadata || ParseId(metadata[RESERVATION_KEY]).None?
             || ParseId(metadata[RESERVATION_KEY]).value !in t.rows) ==> r == Step(t, None)
    ensures (RESERVATION_KEY in metadata && ParseId(metadata[RESERVATION_KEY]).Some?
             && ParseId(metadata[RESERVATION_KEY]).value in t.rows) ==>
      var id := ParseId(metadata[RESERVATION_KEY]).value;
      RequestRewritten(t, r.state, id, Paid) && r.notice == Some(ReservationPaid(id))
  {
    if RESERVATION_KEY !in metadata then Step(t, None)
    else
      match ParseId(metadata[RESERVATION_KEY])
      case None => Step(t, None)
      case Some(id) =>
        if id !in t.rows then Step(t, None)
        else Step(Table(t.rows[id := t.rows[id].(status := Paid)], t.nextId), Some(ReservationPaid(id)))
  }

  /** The session manager: a member cancels a session by id, provided that session is
      booked by them. Neither the session's status nor its start time is checked. */
  function CancelSession(t: Sessions, user: UserId, sessionId: Option<string>): (r: Sessions)
    ensures r.rows.Keys == t.rows.Keys && r.nextId == t.nextId
    ensures !Present(sessionId) ==> r == t
    ensures Present(sessionId) ==>
      var id := ParseId(sessionId.value);
      && (id.None? || id.value !in t.rows || t.rows[id.value].bookedBy != Some(user) ==> r == t)
      && (id.Some? && id.value in t.rows && t.rows[id.value].bookedBy == Some(user) ==>
           r.nextId == t.nextId && r.rows == t.rows[id.value := t.rows[id.value].(status := Canceled)])
  {
    if !Present(sessionId) then t
    else
      match ParseId(sessionId.value)
      case None => t
      case Some(id) =>
        if id in t.rows && t.rows[id].bookedBy == Some(user) then
          Table(t.rows[id := t.rows[id].(status := Canceled)], t.nextId)
        else t
  }

  // Properties relating the transitions to one another.

  /** A redelivered payment confirmation rewrites nothing further. */
  lemma MarkPaidIdempotent(t: Requests, metadata: map<string, string>)
    ensures MarkPaid(MarkPaid(t, metadata).state, metadata).state == MarkPaid(t, metadata).state
  {
  }

  /** The code does not make `declined` terminal: a payment confirmation for a declined
      request still marks it paid, and so does one for a request never approved. */
  lemma PaidOverridesAnyStatus(t: Requests, id: nat)
    requires id in t.rows
    ensures MarkPaid(t, map[RESERVATION_KEY := DecimalText(id)]).state.rows[id].status == Paid
  {
    ParseIdOfText(id);
  }

  /** Nothing stops the console from rejecting a request that has already been paid:
      the reject overwrites `paid` with `declined`. */
  lemma RejectAfterPaid(t: Requests, id: nat, suggested: string)
    requires id in t.rows
    ensures var paid := MarkPaid(t, map[RESERVATION_KEY := DecimalText(id)]).state;
      Decide(paid, Some(DecimalText(id)), Some(REJECT), suggested).state.rows[id].status == Declined
  {
    ParseIdOfText(id);
  }

  /** The rejection mail carries the suggested times without the padding the form added. */
  lemma RejectionDropsPadding(t: Requests, id: nat, pad: string, times: string, trail: string)
    requires id in t.rows
    requires forall i | 0 <= i < |pad| :: IsSpace(pad[i])
    requires forall i | 0 <= i < |trail| :: IsSpace(trail[i])
    requires times == [] || (!IsSpace(times[0]) && !IsSpace(times[|times| - 1]))
    ensures Decide(t, Some(DecimalText(id)), Some(REJECT), pad + times + trail).notice == Some(Rejection(id, times))
  {
    ParseIdOfText(id);
    StripPadded(pad, times, trail);
  }

  /** Accepting the same request twice writes the same ledger, though each accept asks for
      another payment link. */
  lemma AcceptTwiceSameLedger(t: Requests, id: nat)
    requires id in t.rows
    ensures var once := Decide(t, Some(DecimalText(id)), Some(ACCEPT), "");
      var twice := Decide(once.state, Some(DecimalText(id)), Some(ACCEPT), "");
      twice.state == once.state && once.notice == twice.notice == Some(PaymentLink(id))
  {
    ParseIdOfText(id);
  }

  /** Cancelling is owner-only: a session booked by someone else (or by nobody) is never cancelled. */
  lemma CancelOnlyOwn(t: Sessions, user: UserId, sessionId: Option<string>, id: nat)
    requires id in t.rows && t.rows[id].bookedBy != Some(user)
    ensures id in CancelSession(t, user, sessionId).rows
    ensures CancelSession(t, user, sessionId).rows[id] == t.rows[id]
  {
  }
}
