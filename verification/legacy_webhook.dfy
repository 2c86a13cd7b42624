/** The earlier webhook endpoint, no longer routed: every completed checkout is
    taken as a membership activation, and a failed invoice deactivates the
    membership. It never grants credits, never sets a plan or billing dates,
    and never touches reservations. */
module LegacyWebhook {
  import opened Domain
  import opened Text
  import opened Billing
  import opened Webhook

  /** The older activation: the metadata must name an existing account; its membership is
      fetched or created, marked active and given the session's subscription id, or none
      when the session carries none. */
  function LegacyActivate(ms: Memberships, users: set<UserId>, session: Payload): (r: Step<Memberships>)
    ensures (USER_KEY !in session.metadata || ParseId(session.metadata[USER_KEY]).None?
             || ParseId(session.metadata[USER_KEY]).value !in users) ==> r == Step(ms, None)
    ensures (USER_KEY in session.metadata && ParseId(session.metadata[USER_KEY]).Some?
             && ParseId(session.metadata[USER_KEY]).value in users) ==>
      var u := ParseId(session.metadata[USER_KEY]).value;
      var prior := if u in ms then ms[u] else FreshMembership;
      && OthersUnchanged(ms, r.state, u)
      && u in r.state
      && r.state[u] == prior.(active := true, subscriptionId := session.subscription)
      && r.notice == Some(MembershipConfirmed(u, false))
    ensures CreditsKept(ms, r.state)
  {
    if USER_KEY !in session.metadata then Step(ms, None)
    else
      match ParseId(session.metadata[USER_KEY])
      case None => Step(ms, None)
      case Some(u) =>
        if u !in users then Step(ms, None)
        else
          var prior := if u in ms then ms[u] else FreshMembership;
          Step(ms[u := prior.(active := true, subscriptionId := session.subscription)],
               Some(MembershipConfirmed(u, false)))
  }

  /** The older endpoint over the membership ledger alone. */
  function LegacyHandleWebhook(ms: Memberships, users: set<UserId>, d: Delivery): (r: (nat, Step<Memberships>))
    ensures r.0 == HTTP_BAD_REQUEST <==> !d.Verified?
    ensures r.0 == HTTP_OK <==> d.Verified?
    ensures !d.Verified? ==> r.1 == Step(ms, None)
    ensures d.Verified? && d.event.kind == CHECKOUT_COMPLETED ==> r.1 == LegacyActivate(ms, users, d.event.data)
    ensures d.Verified? && d.event.kind == INVOICE_FAILED ==>
      r.1 == (if Present(d.event.data.subscription) then FailPayment(ms, d.event.data.subscription.value)
              else Step(ms, None))
    ensures d.Verified? && d.event.kind != CHECKOUT_COMPLETED && d.event.kind != INVOICE_FAILED ==>
      r.1 == Step(ms, None)
    ensures CreditsKept(ms, r.1.state)
    ensures forall u | u in r.1.state :: r.1.state[u].credits == (if u in ms then ms[u].credits else 0)
  {
    match d
    case Verified(e) =>
      if e.kind == CHECKOUT_COMPLETED then (HTTP_OK, LegacyActivate(ms, users, e.data))
      else if e.kind == INVOICE_FAILED && Present(e.data.subscription) then
        (HTTP_OK, FailPayment(ms, e.data.subscription.value))
      else (HTTP_OK, Step(ms, None))
    case _ => (HTTP_BAD_REQUEST, Step(ms, None))
  }

  /** The older activation only ever writes `active` and the subscription id: credits, plan
      and both billing dates of an existing membership are exactly as they were. */
  lemma LegacyActivateKeepsBilling(ms: Memberships, users: set<UserId>, session: Payload, u: UserId)
    requires u in ms
    ensures var m := LegacyActivate(ms, users, session).state[u];
      && m.credits == ms[u].credits && m.plan == ms[u].plan
      && m.nextBillingDate == ms[u].nextBillingDate && m.validUntil == ms[u].validUntil
  {
  }

  /** On a subscription checkout naming an existing account and plan, with the gateway
      answering, both endpoints agree on `active` and the stored subscription id. */
  lemma EndpointsAgreeOnActivation(ms: Memberships, users: set<UserId>, plans: set<PlanId>, session: Payload,
                                   info: SubscriptionInfo, u: UserId, p: PlanId)
    requires CheckoutTarget(users, plans, session.metadata) == Some((u, p))
    requires Present(session.subscription)
    ensures var newer := Activate(ms, users, plans, session, Some(info)).state;
      var older := LegacyActivate(ms, users, session).state;
      && newer.Keys == older.Keys
      && newer[u].active == older[u].active == true
      && newer[u].subscriptionId == older[u].subscriptionId
  {
    assert u in Activate(ms, users, plans, session, Some(info)).state;
  }

  /** A reservation checkout (metadata without `user_id`) is acknowledged by the older
      endpoint without any effect. */
  lemma LegacyIgnoresReservationCheckout(ms: Memberships, users: set<UserId>, e: Event)
    requires e.kind == CHECKOUT_COMPLETED && USER_KEY !in e.data.metadata
    ensures LegacyHandleWebhook(ms, users, Verified(e)) == (HTTP_OK, Step(ms, None))
  {
  }
}
