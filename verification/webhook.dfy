/** The payment-gateway webhook endpoint: verifies the delivery, dispatches on the
    event type to the billing handlers or to the reservation-paid path, and
    acknowledges every verified event, whatever its handler made of it. */
module Webhook {
  import opened Domain
  import opened Billing
  import Reservations

  const CHECKOUT_COMPLETED := "checkout.session.completed"
  const INVOICE_PAID := "invoice.payment_succeeded"
  const INVOICE_FAILED := "invoice.payment_failed"
  const SUBSCRIPTION_DELETED := "customer.subscription.deleted"
  const SUBSCRIPTION_UPDATED := "customer.subscription.updated"

  const HTTP_OK: nat := 200
  const HTTP_BAD_REQUEST: nat := 400

  const USER_KEY := "user_id"

  datatype Event = Event(kind: string, data: Payload)

  /** The outcome of checking the payload and its signature against the endpoint secret. */
  datatype Delivery = Verified(event: Event) | InvalidPayload | InvalidSignature

  /** The two ledgers the webhook writes. */
  datatype Store = Store(memberships: Memberships, requests: Reservations.Requests)

  datatype Reply = Reply(status: nat, store: Store, notice: Option<Notice>)

  function WithMemberships(store: Store, s: Step<Memberships>): (r: Step<Store>)
    ensures r.state.requests == store.requests && r.state.memberships == s.state && r.notice == s.notice
  {
    Step(store.(memberships := s.state), s.notice)
  }

  function WithRequests(store: Store, s: Step<Reservations.Requests>): (r: Step<Store>)
    ensures r.state.memberships == store.memberships && r.state.requests == s.state && r.notice == s.notice
  {
    Step(store.(requests := s.state), s.notice)
  }

  /** A paid invoice is treated as a renewal only when it names a subscription and its
      metadata carries no `user_id` (an invoice with one is left to the checkout path). */
  predicate RecurringInvoice(invoice: Payload) {
    Present(invoice.subscription) && USER_KEY !in invoice.metadata
  }

  /** Routing of one verified event. `answer` is what the gateway returns when the
      handler retrieves the event's subscription. */
  function Dispatch(store: Store, users: set<UserId>, plans: set<PlanId>, e: Event,
                    answer: Option<SubscriptionInfo>): (r: Step<Store>)
    ensures e.kind == CHECKOUT_COMPLETED && Present(e.data.subscription) ==>
      r == WithMemberships(store, Activate(store.memberships, users, plans, e.data, answer))
    ensures e.kind == CHECKOUT_COMPLETED && !Present(e.data.subscription) ==>
      r == WithRequests(store, Reservations.MarkPaid(store.requests, e.data.metadata))
    ensures e.kind == INVOICE_PAID ==>
      r == (if RecurringInvoice(e.data)
            then WithMemberships(store, Renew(store.memberships, e.data.subscription.value, answer))
            else Step(store, None))
    ensures e.kind == INVOICE_FAILED ==>
      r == (if Present(e.data.subscription)
            then WithMemberships(store, FailPayment(store.memberships, e.data.subscription.value))
            else Step(store, None))
    ensures e.kind == SUBSCRIPTION_DELETED ==>
      r == WithMemberships(store, DeleteSubscription(store.memberships, e.data))
    ensures e.kind == SUBSCRIPTION_UPDATED ==>
      r == WithMemberships(store, UpdateSubscription(store.memberships, e.data))
    ensures e.kind !in {CHECKOUT_COMPLETED, INVOICE_PAID, INVOICE_FAILED, SUBSCRIPTION_DELETED, SUBSCRIPTION_UPDATED}
      ==> r == Step(store, None)
    // Only a checkout without a subscription touches reservations; nothing else does.
    ensures r.state.requests != store.requests ==> e.kind == CHECKOUT_COMPLETED && !Present(e.data.subscription)
    // Webhooks never take credits away and never drop a membership.
    ensures CreditsKept(store.memberships, r.state.memberships)
  {
    var o := e.data;
    if e.kind == CHECKOUT_COMPLETED then
      if Present(o.subscription) then WithMemberships(store, Activate(store.memberships, users, plans, o, answer))
      else if Reservations.RESERVATION_KEY in o.metadata then
        WithRequests(store, Reservations.MarkPaid(store.requests, o.metadata))
      else Step(store, None)
    else if e.kind == INVOICE_PAID then
      if RecurringInvoice(o) then WithMemberships(store, Renew(store.memberships, o.subscription.value, answer))
      else Step(store, None)
    else if e.kind == INVOICE_FAILED then
      if Present(o.subscription) then WithMemberships(store, FailPayment(store.memberships, o.subscription.value))
      else Step(store, None)
    else if e.kind == SUBSCRIPTION_DELETED then
      WithMemberships(store, DeleteSubscription(store.memberships, o))
    else if e.kind == SUBSCRIPTION_UPDATED then
      WithMemberships(store, UpdateSubscription(store.memberships, o))
    else Step(store, None)
  }

  /** The endpoint: an unreadable payload or a bad signature is refused with 400 and changes
      nothing; every verified event is acknowledged with 200. */
  function HandleWebhook(store: Store, users: set<UserId>, plans: set<PlanId>, d: Delivery,
                         answer: Option<SubscriptionInfo>): (r: Reply)
    ensures r.status == HTTP_BAD_REQUEST <==> !d.Verified?
    ensures r.status == HTTP_OK <==> d.Verified?
    ensures !d.Verified? ==> r.store == store && r.notice.None?
    ensures d.Verified? ==> (r.store, r.notice) == (Dispatch(store, users, plans, d.event, answer).state,
                                                    Dispatch(store, users, plans, d.event, answer).notice)
    ensures CreditsKept(store.memberships, r.store.memberships)
    ensures store.requests.Valid() ==> r.store.requests.Valid() && r.store.requests.rows.Keys == store.requests.rows.Keys
  {
    match d
    case Verified(e) =>
      var s := Dispatch(store, users, plans, e, answer);
      Reply(HTTP_OK, s.state, s.notice)
    case _ => Reply(HTTP_BAD_REQUEST, store, None)
  }

  // Delivery-order and redelivery properties of the dispatcher.

  /** A duplicate delivery of a subscription checkout changes nothing more. */
  lemma CheckoutRedeliveryIdempotent(store: Store, users: set<UserId>, plans: set<PlanId>, e: Event,
                                     answer: Option<SubscriptionInfo>)
    requires e.kind == CHECKOUT_COMPLETED
    ensures var once := Dispatch(store, users, plans, e, answer).state;
      Dispatch(once, users, plans, e, answer).state == once
  {
    if Present(e.data.subscription) {
      ActivateIdempotent(store.memberships, users, plans, e.data, answer);
    } else {
      Reservations.MarkPaidIdempotent(store.requests, e.data.metadata);
    }
  }

  /** The first invoice of a new subscription and the checkout that created it race: if the
      checkout is handled first the member ends with two cycles of credits, if the invoice is
      handled first (and finds no membership yet) with one. */
  lemma FirstInvoiceOrderMatters(store: Store, users: set<UserId>, plans: set<PlanId>, u: UserId, p: PlanId,
                                 sid: SubscriptionId, checkout: Event, invoice: Event, end: Date)
    requires checkout.kind == CHECKOUT_COMPLETED && checkout.data.subscription == Some(sid) && sid != ""
    requires CheckoutTarget(users, plans, checkout.data.metadata) == Some((u, p))
    requires invoice.kind == INVOICE_PAID && invoice.data.subscription == Some(sid)
    requires USER_KEY !in invoice.data.metadata
    requires u !in store.memberships && Holders(store.memberships, sid) == {}
    ensures var answer := Some(SubscriptionInfo(ACTIVE_STATUS, end));
      var checkoutFirst := Dispatch(Dispatch(store, users, plans, checkout, answer).state, users, plans, invoice, answer);
      var invoiceFirst := Dispatch(Dispatch(store, users, plans, invoice, answer).state, users, plans, checkout, answer);
      && checkoutFirst.state.memberships[u].credits == 2 * PLAN_CREDITS
      && invoiceFirst.state.memberships[u].credits == PLAN_CREDITS
  {
    var answer := Some(SubscriptionInfo(ACTIVE_STATUS, end));
    var ms := store.memberships;
    var activated := Activate(ms, users, plans, checkout.data, answer).state;
    forall v | v in activated && v != u
      ensures activated[v].subscriptionId != Some(sid)
    {
      assert v in ms && activated[v] == ms[v];
      assert v !in Holders(ms, sid);
    }
    assert Holders(activated, sid) == {u};
    assert LookupBySubscription(activated, sid) == Some(u);
    assert LookupBySubscription(ms, sid).None?;
  }
}
