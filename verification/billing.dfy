/** The membership billing state machine driven by payment-gateway events:
    activation after checkout, recurring renewal, failed payment, subscription
    deletion and scheduled cancellation. Each handler is total: every lookup
    that fails, every missing key and every gateway error leaves the ledger as
    the handler found it (the source logs and swallows those exceptions). */
module Billing {
  import opened Domain
  import opened Text

  /** What the gateway answers when asked to retrieve a subscription. */
  datatype SubscriptionInfo = SubscriptionInfo(status: string, currentPeriodEnd: Date)

  /** The fields of an event's `data.object` (checkout session, invoice or
      subscription) that the handlers read. An absent `metadata` is an empty map. */
  datatype Payload = Payload(
    id: Option<string>,
    subscription: Option<SubscriptionId>,
    metadata: map<string, string>,
    cancelAtPeriodEnd: bool,
    currentPeriodEnd: Date)

  const ACTIVE_STATUS := "active"

  /** Accounts whose membership stores subscription id `sid`. */
  function Holders(ms: Memberships, sid: SubscriptionId): set<UserId> {
    set u | u in ms && ms[u].subscriptionId == Some(sid)
  }

  lemma SingletonMember<T>(s: set<T>, x: T, y: T)
    requires |s| == 1 && x in s && y in s
    ensures x == y
  {
    var t := s - {x};
    assert |t| == 0;
    assert t == {};
  }

  /** The lookup of a membership by its stored subscription id: succeeds only when
      exactly one membership holds `sid`; no match and several matches both raise,
      and every caller swallows the exception. */
  function LookupBySubscription(ms: Memberships, sid: SubscriptionId): (r: Option<UserId>)
    ensures r.Some? <==> |Holders(ms, sid)| == 1
    ensures r.Some? ==> r.value in ms && ms[r.value].subscriptionId == Some(sid)
    ensures r.Some? ==> forall v | v in ms && ms[v].subscriptionId == Some(sid) :: v == r.value
  {
    var h := Holders(ms, sid);
    if |h| == 1 then
      var u :| u in h;
      assert forall v | v in h :: v == u by {
        forall v | v in h ensures v == u {
          SingletonMember(h, u, v);
        }
      }
      assert forall v | v in ms && ms[v].subscriptionId == Some(sid) :: v in h;
      Some(u)
    else None
  }

  /** No account lost its membership and no membership lost credits. */
  ghost predicate CreditsKept(ms: Memberships, ms': Memberships) {
    forall u | u in ms :: u in ms' && ms'[u].credits >= ms[u].credits
  }

  /** Every membership other than `u`'s is untouched and no membership appeared besides `u`'s. */
  ghost predicate OthersUnchanged(ms: Memberships, ms': Memberships, u: UserId) {
    && ms'.Keys <= ms.Keys + {u}
    && forall v | v in ms && v != u :: v in ms' && ms'[v] == ms[v]
  }

  /** The account and plan a checkout session's metadata names, when both keys are
      present and both rows exist. */
  function CheckoutTarget(users: set<UserId>, plans: set<PlanId>, metadata: map<string, string>): (r: Option<(UserId, PlanId)>)
    ensures r.Some? ==> r.value.0 in users && r.value.1 in plans
    ensures r.Some? ==> "user_id" in metadata && "plan_id" in metadata
    ensures r.Some? ==> ParseId(metadata["user_id"]) == Some(r.value.0)
    ensures r.Some? ==> ParseId(metadata["plan_id"]) == Some(r.value.1)
    ensures r.None? ==> forall u, p | u in users && p in plans ::
      !("user_id" in metadata && "plan_id" in metadata
        && ParseId(metadata["user_id"]) == Some(u) && ParseId(metadata["plan_id"]) == Some(p))
  {
    if "user_id" !in metadata || "plan_id" !in metadata then None
    else
      var u := ParseId(metadata["user_id"]);
      var p := ParseId(metadata["plan_id"]);
      if u.Some? && u.value in users && p.Some? && p.value in plans then Some((u.value, p.value))
      else None
  }

  /** Membership activation after a completed subscription checkout. The record is
      fetched or created (and a created record is stored at once); the subscription is
      then retrieved from the gateway, and only on success are the new fields saved.
      Credits are granted only to a created record or one holding none. */
  function Activate(ms: Memberships, users: set<UserId>, plans: set<PlanId>, session: Payload,
                    answer: Option<SubscriptionInfo>): (r: Step<Memberships>)
    ensures CheckoutTarget(users, plans, session.metadata).None? ==> r == Step(ms, None)
    ensures CheckoutTarget(users, plans, session.metadata).Some? ==>
      var (u, p) := CheckoutTarget(users, plans, session.metadata).value;
      var prior := if u in ms then ms[u] else FreshMembership;
      && u in r.state
      && OthersUnchanged(ms, r.state, u)
      && (answer.None? || !Present(session.subscription) ==> r == Step(ms[u := prior], None))
      && (answer.Some? && Present(session.subscription) ==>
           var m := r.state[u];
           && m.active
           && m.plan == Some(p)
           && m.subscriptionId == session.subscription
           && m.nextBillingDate == Some(answer.value.currentPeriodEnd)
           && m.validUntil == Some(answer.value.currentPeriodEnd)
           && m.credits == (if u !in ms || ms[u].credits == 0 then PLAN_CREDITS else ms[u].credits)
           && r.notice == Some(MembershipConfirmed(u, u in ms && !ms[u].active)))
    ensures CreditsKept(ms, r.state)
  {
    match CheckoutTarget(users, plans, session.metadata)
    case None => Step(ms, None)
    case Some((u, p)) =>
      var created := u !in ms;
      var prior := if created then FreshMembership else ms[u];
      var stored := ms[u := prior];
      if answer.None? || !Present(session.subscription) then Step(stored, None)
      else
        var end := answer.value.currentPeriodEnd;
        var credits := if created || prior.credits == 0 then PLAN_CREDITS else prior.credits;
        var m := Membership(true, credits, Some(p), session.subscription, Some(end), Some(end));
        Step(ms[u := m], Some(MembershipConfirmed(u, !created && !prior.active)))
  }

  /** Recurring renewal for a paid invoice: only when exactly one membership holds the
      subscription and the gateway reports it `active`. Adds one cycle of credits. */
  function Renew(ms: Memberships, sid: SubscriptionId, answer: Option<SubscriptionInfo>): (r: Step<Memberships>)
    ensures LookupBySubscription(ms, sid).None? || answer.None? || answer.value.status != ACTIVE_STATUS
      ==> r == Step(ms, None)
    ensures LookupBySubscription(ms, sid).Some? && answer.Some? && answer.value.status == ACTIVE_STATUS ==>
      var u := LookupBySubscription(ms, sid).value;
      var end := answer.value.currentPeriodEnd;
      && r.state == ms[u := ms[u].(active := true, credits := ms[u].credits + PLAN_CREDITS,
                                   nextBillingDate := Some(end), validUntil := Some(end))]
      && r.notice == Some(if ms[u].active then RecurringConfirmed(u, ms[u].credits + PLAN_CREDITS, end)
                          else MembershipConfirmed(u, false))
    ensures CreditsKept(ms, r.state) && r.state.Keys == ms.Keys
  {
    match LookupBySubscription(ms, sid)
    case None => Step(ms, None)
    case Some(u) =>
      if answer.None? || answer.value.status != ACTIVE_STATUS then Step(ms, None)
      else
        var end := answer.value.currentPeriodEnd;
        var m := ms[u];
        var m' := m.(nextBillingDate := Some(end), validUntil := Some(end), active := true,
                     credits := m.credits + PLAN_CREDITS);
        var notice := if m.active then RecurringConfirmed(u, m'.credits, end) else MembershipConfirmed(u, false);
        Step(ms[u := m'], Some(notice))
  }

  /** A failed invoice deactivates the one membership holding the subscription; nothing else changes. */
  function FailPayment(ms: Memberships, sid: SubscriptionId): (r: Step<Memberships>)
    ensures LookupBySubscription(ms, sid).None? ==> r == Step(ms, None)
    ensures LookupBySubscription(ms, sid).Some? ==>
      var u := LookupBySubscription(ms, sid).value;
      r.state == ms[u := ms[u].(active := false)] && r.notice == Some(PaymentFailed(u))
    ensures CreditsKept(ms, r.state) && r.state.Keys == ms.Keys
  {
    match LookupBySubscription(ms, sid)
    case None => Step(ms, None)
    case Some(u) => Step(ms[u := ms[u].(active := false)], Some(PaymentFailed(u)))
  }

  /** A deleted subscription deactivates its membership and clears `valid_until`;
      the stored subscription id is kept. */
  function DeleteSubscription(ms: Memberships, subscription: Payload): (r: Step<Memberships>)
    ensures subscription.id.None? || LookupBySubscription(ms, subscription.id.value).None?
      ==> r == Step(ms, None)
    ensures subscription.id.Some? && LookupBySubscription(ms, subscription.id.value).Some? ==>
      var u := LookupBySubscription(ms, subscription.id.value).value;
      && r.state == ms[u := ms[u].(active := false, validUntil := None)]
      && r.state[u].subscriptionId == Some(subscription.id.value)
      && r.notice == Some(MembershipCanceled(u))
    ensures CreditsKept(ms, r.state) && r.state.Keys == ms.Keys
  {
    if subscription.id.None? then Step(ms, None)
    else
      match LookupBySubscription(ms, subscription.id.value)
      case None => Step(ms, None)
      case Some(u) => Step(ms[u := ms[u].(active := false, validUntil := None)], Some(MembershipCanceled(u)))
  }

  /** A subscription update flagged cancel-at-period-end deactivates the membership but
      keeps it valid until the period end; any other update changes nothing. */
  function UpdateSubscription(ms: Memberships, subscription: Payload): (r: Step<Memberships>)
    ensures (subscription.id.None? || LookupBySubscription(ms, subscription.id.value).None?
             || !subscription.cancelAtPeriodEnd) ==> r == Step(ms, None)
    ensures (subscription.id.Some? && LookupBySubscription(ms, subscription.id.value).Some?
             && subscription.cancelAtPeriodEnd) ==>
      var u := LookupBySubscription(ms, subscription.id.value).value;
      && r.state == ms[u := ms[u].(active := false, validUntil := Some(subscription.currentPeriodEnd))]
      && r.notice == Some(CancellationScheduled(u, subscription.currentPeriodEnd))
    ensures CreditsKept(ms, r.state) && r.state.Keys == ms.Keys
  {
    if subscription.id.None? then Step(ms, None)
    else
      match LookupBySubscription(ms, subscription.id.value)
      case None => Step(ms, None)
      case Some(u) =>
        if subscription.cancelAtPeriodEnd then
          var end := subscription.currentPeriodEnd;
          Step(ms[u := ms[u].(active := false, validUntil := Some(end))], Some(CancellationScheduled(u, end)))
        else Step(ms, None)
  }

  // Properties relating the handlers to one another.

  /** A redelivered checkout completion leaves the ledger exactly as the first delivery
      left it: no second credit grant, and it is never reported as a reactivation. */
  lemma ActivateIdempotent(ms: Memberships, users: set<UserId>, plans: set<PlanId>, session: Payload,
                           answer: Option<SubscriptionInfo>)
    ensures var once := Activate(ms, users, plans, session, answer);
      var twice := Activate(once.state, users, plans, session, answer);
      && twice.state == once.state
      && (twice.notice.Some? ==> twice.notice.value.MembershipConfirmed? && !twice.notice.value.reactivation)
  {
    var once := Activate(ms, users, plans, session, answer);
    match CheckoutTarget(users, plans, session.metadata)
    case None =>
    case Some((u, p)) =>
      if answer.Some? && Present(session.subscription) {
        assert once.state[u].credits != 0;
        assert once.state[u].active;
      }
  }

  /** Renewal is not idempotent: every delivery of the same paid invoice adds another cycle of credits. */
  lemma RenewTwiceGrantsTwice(ms: Memberships, sid: SubscriptionId, answer: Option<SubscriptionInfo>)
    requires LookupBySubscription(ms, sid).Some?
    requires answer.Some? && answer.value.status == ACTIVE_STATUS
    ensures var u := LookupBySubscription(ms, sid).value;
      Renew(Renew(ms, sid, answer).state, sid, answer).state[u].credits == ms[u].credits + 2 * PLAN_CREDITS
  {
    var u := LookupBySubscription(ms, sid).value;
    var once := Renew(ms, sid, answer).state;
    HoldersAfterRewrite(ms, u, once[u], sid);
  }

  /** Rewriting the holder of `sid` without touching its subscription id keeps it the only holder. */
  lemma HoldersAfterRewrite(ms: Memberships, u: UserId, m: Membership, sid: SubscriptionId)
    requires u in ms && ms[u].subscriptionId == Some(sid) && m.subscriptionId == Some(sid)
    ensures Holders(ms[u := m], sid) == Holders(ms, sid)
  {
  }

  /** A failed invoice and a subscription deletion for the same subscription reach the
      same ledger in either order. */
  lemma FailAndDeleteCommute(ms: Memberships, sid: SubscriptionId, subscription: Payload)
    requires subscription.id == Some(sid)
    ensures DeleteSubscription(FailPayment(ms, sid).state, subscription).state
         == FailPayment(DeleteSubscription(ms, subscription).state, sid).state
  {
    match LookupBySubscription(ms, sid)
    case None =>
    case Some(u) =>
      HoldersAfterRewrite(ms, u, ms[u].(active := false), sid);
      HoldersAfterRewrite(ms, u, ms[u].(active := false, validUntil := None), sid);
  }

  /** A deletion and a scheduled cancellation do not commute: delivered in causal order the
      membership ends with no `valid_until`; delivered the other way round it keeps the
      grace period until the period end. */
  lemma DeleteAndScheduleDoNotCommute(ms: Memberships, sid: SubscriptionId, subscription: Payload)
    requires subscription.id == Some(sid) && subscription.cancelAtPeriodEnd
    requires LookupBySubscription(ms, sid).Some?
    ensures var u := LookupBySubscription(ms, sid).value;
      && DeleteSubscription(UpdateSubscription(ms, subscription).state, subscription).state[u].validUntil == None
      && UpdateSubscription(DeleteSubscription(ms, subscription).state, subscription).state[u].validUntil
         == Some(subscription.currentPeriodEnd)
  {
    var u := LookupBySubscription(ms, sid).value;
    HoldersAfterRewrite(ms, u, ms[u].(active := false, validUntil := Some(subscription.currentPeriodEnd)), sid);
    HoldersAfterRewrite(ms, u, ms[u].(active := false, validUntil := None), sid);
  }
}
