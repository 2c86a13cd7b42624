/** Staff invitations: an admin invites an e-mail address to register with a
    role. An expired invite for the address is reissued in place; a live one
    blocks a new invite; an unknown address gets a fresh invite and an e-mail.
    Times are seconds on one clock; the random token is an input. */
module Invites {
  import opened Domain

  /** The roles a profile may take. */
  const PROFILE_ROLES: set<string> := {"member", "operator", "admin", "public"}

  /** The only role allowed to invite. */
  const ADMIN_ROLE := "admin"

  /** A reissued invite lives seven days. */
  const INVITE_LIFETIME: int := 7 * 86400

  /** The role is stored as posted; the view does not check it against `PROFILE_ROLES`. */
  datatype Invite = Invite(email: string, role: string, token: string, expiresAt: int, isUsed: bool)

  /** Invites by address: the view only ever creates one for an address that has none. */
  type Invites = map<string, Invite>

  /** Each invite sits under its own address. */
  predicate KeyedByAddress(invites: Invites) {
    forall e | e in invites :: invites[e].email == e
  }

  datatype InviteOutcome = Forbidden | Reissued | AlreadyActive | Created

  predicate Expired(inv: Invite, now: int) {
    inv.expiresAt < now
  }

  /** The invite form's POST. `defaultExpiry` is the expiry the model's defaults give a new
      invite. */
  function CreateInvite(invites: Invites, requesterRole: string, email: string, role: string, token: string,
                        now: int, defaultExpiry: int): (r: (Step<Invites>, InviteOutcome))
    ensures requesterRole != ADMIN_ROLE <==> r.1 == Forbidden
    ensures r.1 == Forbidden || r.1 == AlreadyActive ==> r.0 == Step(invites, None)
    ensures r.1 == Reissued <==> requesterRole == ADMIN_ROLE && email in invites && Expired(invites[email], now)
    ensures r.1 == AlreadyActive <==> requesterRole == ADMIN_ROLE && email in invites && !Expired(invites[email], now)
    ensures r.1 == Created <==> requesterRole == ADMIN_ROLE && email !in invites
    // A reissue rewrites the whole record but sends nothing.
    ensures r.1 == Reissued ==>
      && r.0.notice.None? && email in r.0.state
      && r.0.state[email] == Invite(invites[email].email, role, token, now + INVITE_LIFETIME, false)
    // Only a brand-new invite is mailed.
    ensures r.1 == Created ==>
      r.0 == Step(invites[email := Invite(email, role, token, defaultExpiry, false)], Some(InviteSent(email, role)))
    // No other address's invite is touched.
    ensures forall e | e in invites && e != email :: e in r.0.state && r.0.state[e] == invites[e]
    ensures r.0.state.Keys <= invites.Keys + {email}
    ensures KeyedByAddress(invites) ==> KeyedByAddress(r.0.state)
  {
    if requesterRole != ADMIN_ROLE then (Step(invites, None), Forbidden)
    else if email in invites then
      var existing := invites[email];
      if Expired(existing, now) then
        var renewed := existing.(token := token, role := role, expiresAt := now + INVITE_LIFETIME, isUsed := false);
        (Step(invites[email := renewed], None), Reissued)
      else (Step(invites, None), AlreadyActive)
    else
      (Step(invites[email := Invite(email, role, token, defaultExpiry, false)], Some(InviteSent(email, role))),
       Created)
  }

  /** After any admin request, the address holds an invite that is live now (for a new
      invite, provided its default expiry is not in the past). */
  lemma AdminLeavesLiveInvite(invites: Invites, email: string, role: string, token: string,
                              now: int, defaultExpiry: int)
    requires now <= defaultExpiry
    ensures var s := CreateInvite(invites, ADMIN_ROLE, email, role, token, now, defaultExpiry).0.state;
      email in s && !Expired(s[email], now)
  {
  }

  /** A reissued invite blocks every further request for the address for seven days, and
      the blocked request changes nothing. */
  lemma ReissueBlocksForLifetime(invites: Invites, email: string, role: string, token: string, now: int,
                                 defaultExpiry: int, role2: string, token2: string, later: int, d2: int)
    requires email in invites && Expired(invites[email], now)
    requires now <= later <= now + INVITE_LIFETIME
    ensures var s := CreateInvite(invites, ADMIN_ROLE, email, role, token, now, defaultExpiry).0.state;
      CreateInvite(s, ADMIN_ROLE, email, role2, token2, later, d2) == (Step(s, None), AlreadyActive)
  {
  }

  /** An invite that was already used but has not expired still counts as active: the
      address cannot be invited again until the expiry passes. */
  lemma UsedInviteStillBlocks(invites: Invites, email: string, role: string, token: string, now: int,
                              defaultExpiry: int)
    requires email in invites && invites[email].isUsed && now <= invites[email].expiresAt
    ensures CreateInvite(invites, ADMIN_ROLE, email, role, token, now, defaultExpiry).1 == AlreadyActive
  {
  }

  /** The posted role is not checked against the profile roles: an admin can invite an
      unknown address with a role no profile may hold, and the invite is stored and mailed. */
  lemma UnlistedRoleInvited(invites: Invites, email: string, role: string, token: string, now: int,
                            defaultExpiry: int)
    requires email !in invites && role !in PROFILE_ROLES
    ensures var r := CreateInvite(invites, ADMIN_ROLE, email, role, token, now, defaultExpiry);
      && r.1 == Created && r.0.state[email].role == role && r.0.state[email].role !in PROFILE_ROLES
      && r.0.notice == Some(InviteSent(email, role))
  {
  }

  /** Only the literal role "admin" may invite; any other profile role is refused with no change. */
  lemma OnlyAdminInvites(invites: Invites, requesterRole: string, email: string, role: string, token: string,
                         now: int, defaultExpiry: int)
    requires requesterRole in PROFILE_ROLES - {ADMIN_ROLE}
    ensures CreateInvite(invites, requesterRole, email, role, token, now, defaultExpiry) ==
      (Step(invites, None), Forbidden)
  {
  }
}
