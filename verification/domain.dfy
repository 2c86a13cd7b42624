/** Records of the studio-booking application: memberships, session requests,
    booked sessions and the id-allocating tables that hold them. Field
    domains, defaults and status enumerations follow the schema migration that
    introduced BookedSession, PendingSessionRequest and UserMembership.credits. */
module Domain {

  datatype Option<+T> = None | Some(value: T)

  type UserId = nat
  type PlanId = nat
  type SubscriptionId = string

  /** Python truthiness of an optional text value: present and non-empty. */
  predicate Present(s: Option<string>) {
    s.Some? && s.value != ""
  }

  /** Hour of a clock time (a TimeField's `.hour`). */
  type Hour = h: nat | h < 24

  /** A calendar date; dates compare lexicographically as Python's `date` does. */
  datatype Date = Date(year: int, month: int, day: int)

  predicate Before(a: Date, b: Date) {
    a.year < b.year
    || (a.year == b.year && a.month < b.month)
    || (a.year == b.year && a.month == b.month && a.day < b.day)
  }

  predicate AtOrAfter(a: Date, b: Date) {
    !Before(a, b)
  }

  /** Credits granted by a first activation and by every billing cycle. */
  const PLAN_CREDITS: nat := 100

  /** UserMembership. `credits` is a PositiveIntegerField (non-negative). */
  datatype Membership = Membership(
    active: bool,
    credits: nat,
    plan: Option<PlanId>,
    subscriptionId: Option<SubscriptionId>,
    nextBillingDate: Option<Date>,
    validUntil: Option<Date>)

  /** The record `get_or_create` makes: credits default to 0; the other defaults are taken as unset/false. */
  const FreshMembership: Membership := Membership(false, 0, None, None, None, None)

  /** The membership ledger: at most one membership per account. */
  type Memberships = map<UserId, Membership>

  /** PendingSessionRequest.status. The schema declares pending/approved/declined
      (default pending); the payment webhook also writes `paid`. */
  datatype RequestStatus = Pending | Approved | Declined | Paid

  datatype PendingRequest = PendingRequest(
    requesterName: string,
    requesterEmail: string,
    requesterPhone: string,
    date: Date,
    startHour: Hour,
    hours: nat,
    notes: Option<string>,
    status: RequestStatus)

  /** BookedSession.status: booked/paid/canceled, default booked. */
  datatype SessionStatus = Booked | SessionPaid | Canceled

  /** BookedSession. `bookedBy` is nullable (set to null when the account is deleted);
      `durationHours` is a PositiveIntegerField with default 1. */
  datatype BookedSession = BookedSession(
    bookedBy: Option<UserId>,
    date: Date,
    startHour: Hour,
    durationHours: nat,
    status: SessionStatus,
    notes: Option<string>)

  /** A database table whose primary keys are allocated by an auto-increment counter starting at 1. */
  datatype Table<T> = Table(rows: map<nat, T>, nextId: nat) {

    predicate Valid() {
      nextId >= 1 && forall id | id in rows :: 1 <= id < nextId
    }

    /** Creates a row under the next id. */
    function Insert(t: T): (r: Table<T>)
      requires Valid()
      ensures r.Valid()
      ensures nextId !in rows && r.rows == rows[nextId := t]
      ensures r.nextId == nextId + 1
    {
      Table(rows[nextId := t], nextId + 1)
    }
  }

  /** Best-effort notifications the core asks the mailer to send. They are recorded,
      never awaited: a failed send does not undo the state change that preceded it. */
  datatype Notice =
    | RequestSubmitted(request: nat, recipients: seq<string>)
    | MembershipConfirmed(user: UserId, reactivation: bool)
    | RecurringConfirmed(user: UserId, credits: nat, nextBilling: Date)
    | PaymentFailed(user: UserId)
    | MembershipCanceled(user: UserId)
    | CancellationScheduled(user: UserId, validUntil: Date)
    | ReservationPaid(request: nat)
    | PaymentLink(request: nat)
    | Rejection(request: nat, suggestedTimes: string)
    | InviteSent(email: string, role: string)

  /** A new state of some ledger together with the notification the step asked for. */
  datatype Step<S> = Step(state: S, notice: Option<Notice>)
}
