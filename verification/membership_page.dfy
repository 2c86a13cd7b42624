/** The member's membership page: what it reports about the member's own
    membership record, or about its absence. */
module MembershipPage {
  import opened Domain
  import opened Billing

  datatype PlanShown = PlanOf(plan: PlanId) | NoPlanText | NoneShown

  datatype Page = Page(isActive: bool, plan: PlanShown, credits: nat, nextBilling: Option<Date>,
                       validUntil: Option<Date>)

  /** The page for membership `m` on day `today`. */
  function MembershipPageOf(m: Option<Membership>, today: Date): (p: Page)
    ensures p.isActive <==> m.Some? && m.value.active
    ensures p.credits == (if m.Some? then m.value.credits else 0)
    // The next billing date is shown only while active, "valid until" only while inactive
    // and not yet past.
    ensures p.nextBilling.Some? ==> p.isActive && p.nextBilling == m.value.nextBillingDate
    ensures p.isActive ==> p.nextBilling == m.value.nextBillingDate
    ensures p.validUntil.Some? <==>
      m.Some? && !m.value.active && m.value.validUntil.Some? && AtOrAfter(m.value.validUntil.value, today)
    ensures p.validUntil.Some? ==> p.validUntil == m.value.validUntil
    // The plan line: the record's plan, a "no plan" text for a record without one, or
    // nothing when there is no record.
    ensures p.plan.NoneShown? <==> m.None?
    ensures m.Some? && m.value.plan.Some? ==> p.plan == PlanOf(m.value.plan.value)
    ensures p.plan.NoPlanText? <==> m.Some? && m.value.plan.None?
  {
    match m
    case None => Page(false, NoneShown, 0, None, None)
    case Some(ms) =>
      var plan := if ms.plan.Some? then PlanOf(ms.plan.value) else NoPlanText;
      if ms.active then Page(true, plan, ms.credits, ms.nextBillingDate, None)
      else
        var shown := if ms.validUntil.Some? && AtOrAfter(ms.validUntil.value, today) then ms.validUntil else None;
        Page(false, plan, ms.credits, None, shown)
  }

  /** After a cancellation is scheduled for the end of a period that has not ended, the page
      says inactive and valid until that end, with the credits unchanged. */
  lemma ScheduledCancellationShowsValidUntil(ms: Memberships, subscription: Payload, today: Date)
    requires subscription.id.Some? && LookupBySubscription(ms, subscription.id.value).Some?
    requires subscription.cancelAtPeriodEnd && AtOrAfter(subscription.currentPeriodEnd, today)
    ensures var u := LookupBySubscription(ms, subscription.id.value).value;
      var p := MembershipPageOf(Some(UpdateSubscription(ms, subscription).state[u]), today);
      && !p.isActive && p.validUntil == Some(subscription.currentPeriodEnd)
      && p.nextBilling.None? && p.credits == ms[u].credits
  {
  }

  /** After the subscription is deleted the page says inactive with no "valid until". */
  lemma DeletionShowsNothingValid(ms: Memberships, subscription: Payload, today: Date)
    requires subscription.id.Some? && LookupBySubscription(ms, subscription.id.value).Some?
    ensures var u := LookupBySubscription(ms, subscription.id.value).value;
      var p := MembershipPageOf(Some(DeleteSubscription(ms, subscription).state[u]), today);
      && !p.isActive && p.validUntil.None? && p.nextBilling.None?
  {
  }

  /** After a successful renewal the page says active with the new billing date and the
      grown balance. */
  lemma RenewalShowsActive(ms: Memberships, sid: SubscriptionId, info: SubscriptionInfo, today: Date)
    requires LookupBySubscription(ms, sid).Some? && info.status == ACTIVE_STATUS
    ensures var u := LookupBySubscription(ms, sid).value;
      var p := MembershipPageOf(Some(Renew(ms, sid, Some(info)).state[u]), today);
      && p.isActive && p.nextBilling == Some(info.currentPeriodEnd) && p.validUntil.None?
      && p.credits == ms[u].credits + PLAN_CREDITS
  {
  }
}
