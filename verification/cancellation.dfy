/** Member-initiated cancellation: the service that deletes the gateway
    subscription and the view that guards it. */
module Cancellation {
  import opened Domain

  /** `cancel_stripe_subscription`: deletes the subscription at the gateway, and only after
      the gateway confirmed does it deactivate the membership and forget the subscription id.
      `gatewayOk` is the gateway's answer to the delete call. Returns the new ledger and
      whether the cancellation happened. */
  function CancelSubscription(ms: Memberships, u: UserId, gatewayOk: bool): (r: (Memberships, bool))
    ensures r.1 <==> u in ms && Present(ms[u].subscriptionId) && gatewayOk
    ensures !r.1 ==> r.0 == ms
    ensures r.1 ==> r.0 == ms[u := ms[u].(active := false, subscriptionId := None)]
    ensures r.0.Keys == ms.Keys
    ensures forall v | v in ms :: r.0[v].credits == ms[v].credits
  {
    if u !in ms then (ms, false)
    else if !Present(ms[u].subscriptionId) then (ms, false)
    else if !gatewayOk then (ms, false)
    else (ms[u := ms[u].(active := false, subscriptionId := None)], true)
  }

  /** What the cancel-membership view reports to the member. */
  datatype CancelMessage = Cancelled | GatewayTrouble | NothingToCancel | NoMembership

  /** The cancel-membership view: only an active membership that holds a subscription id
      reaches the service; a success is confirmed by mail. */
  function CancelMembership(ms: Memberships, u: UserId, gatewayOk: bool): (r: (Step<Memberships>, CancelMessage))
    ensures u !in ms ==> r == (Step(ms, None), NoMembership)
    ensures u in ms && !(ms[u].active && Present(ms[u].subscriptionId)) ==> r == (Step(ms, None), NothingToCancel)
    ensures u in ms && ms[u].active && Present(ms[u].subscriptionId) ==>
      if gatewayOk
      then r == (Step(ms[u := ms[u].(active := false, subscriptionId := None)], Some(MembershipCanceled(u))), Cancelled)
      else r == (Step(ms, None), GatewayTrouble)
  {
    if u !in ms then (Step(ms, None), NoMembership)
    else
      var m := ms[u];
      if m.active && Present(m.subscriptionId) then
        var (ms', ok) := CancelSubscription(ms, u, gatewayOk);
        if ok then
          // The view repeats the service's two assignments on its own copy of the record.
          var again := ms'[u := ms'[u].(active := false, subscriptionId := None)];
          assert again == ms';
          (Step(again, Some(MembershipCanceled(u))), Cancelled)
        else (Step(ms, None), GatewayTrouble)
      else (Step(ms, None), NothingToCancel)
  }

  /** Once cancelled, a membership cannot be cancelled again: the second call finds no
      subscription id and reports failure without touching the ledger. */
  lemma CancelOnce(ms: Memberships, u: UserId, ok1: bool, ok2: bool)
    requires CancelSubscription(ms, u, ok1).1
    ensures var after := CancelSubscription(ms, u, ok1).0;
      CancelSubscription(after, u, ok2) == (after, false)
  {
  }

  /** The view guards on `active`, so a member whose last payment failed (active false, the
      subscription still held) cannot cancel through it, though the service alone would. */
  lemma InactiveMemberCannotCancel(ms: Memberships, u: UserId)
    requires u in ms && !ms[u].active && Present(ms[u].subscriptionId)
    ensures CancelMembership(ms, u, true) == (Step(ms, None), NothingToCancel)
    ensures CancelSubscription(ms, u, true).1
  {
  }
}
