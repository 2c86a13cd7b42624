# Studio booking and membership core, in Dafny

A model of the state-changing core of a Django studio-booking application. Guests
request studio hours. Operators accept or reject those requests. Members hold a
monthly subscription that grants booking credits and spend the credits on hours
straight from the daily scheduler. A payment gateway reports payments and
subscription changes through a webhook. Admins invite new users.

Each operation is a pure function or method over immutable ledgers:

- **memberships**: a map from account id to a `Membership` record;
- **session requests** and **booked sessions**: tables keyed by auto-increment ids.

Every answer from the payment gateway is a parameter: the retrieved subscription's
status and period end, and whether a delete call succeeded. So are the signature
check, the clock and random tokens. E-mails become abstract `Notice` values that
come back next to the new state.

Modules, one per concern of the source:

| module | models |
|---|---|
| `Domain` | the records and status enums of migration 0007, membership defaults, id tables, notices |
| `Text` | `str.split`, `str.isdigit`, `int()` and the coercion of a text id to a primary key |
| `Billing` | the subscription handlers of the current webhook |
| `Webhook` | the current webhook's verification and event dispatch |
| `LegacyWebhook` | the older, unrouted webhook |
| `Cancellation` | the subscription-cancel service and the cancel-membership view |
| `Reservations` | request submission, the operator console, the payment-confirmed path, session cancellation |
| `Booking` | instant multi-hour booking against credits |
| `SlotGrid` | the daily scheduler's hour grid |
| `Calendar` | month navigation and clamping, and the checkout's first-of-next-month anchor |
| `Invites` | the admin invite form |
| `MembershipPage` | what the membership page reports |

Some guarantees one might expect are not enforced by the code, and the model
keeps the code's behaviour:

- No operation checks slot exclusivity. Two members can book the same hour
  (`Booking.DoubleBookingPossible`).
- `declined` and `paid` are not terminal. A payment confirmation marks any request
  paid (`Reservations.PaidOverridesAnyStatus`), and a reject after payment writes
  `declined` (`Reservations.RejectAfterPaid`).
- Cancelling a session checks only ownership. It checks neither the start time nor
  the status.
- Instant booking is not atomic. The as-written model keeps that defect (see
  Findings).

## Model

| member | source | states |
|---|---|---|
| Text.ParseIdOfText | main/views.py:696 | the id rendered by `str` is read back as the same id |
| Text.ParseIdIgnoresLeadingZeros | main/views.py:696 | zeros in front of an id's decimal text do not change the row it names |
| Text.ParseIntOfText | main/views.py:488 | an integer written into a redirect's query string reads back as the same integer |
| Text.Strip | main/views.py:692 | the stripped text has no whitespace at either end, and is empty exactly when the text was all whitespace |
| Text.StripPadded | main/views.py:692 | stripping removes exactly the whitespace padding around a text that has none at its ends |
| Text.Split | main/views.py:553 | splitting yields at least one piece and no piece contains the separator |
| Text.SplitJoin | main/views.py:553 | joining separator-free pieces and splitting again gives back exactly those pieces |
| Text.JoinSplit | main/views.py:553 | joining the pieces of a split gives back the original text |
| Booking.KeepDigits | main/views.py:553 | all-digit tokens each become their decimal value, in order; when no token is all digits there are no hours; never more hours than tokens |
| Booking.NonDigitTokenDropped | main/views.py:553 | a token that is not all digits contributes no hour, wherever it stands |
| Booking.ParseHoursRoundTrip | main/views.py:553 | a comma-joined list of hours parses back to the same list, in order, duplicates kept |
| Booking.AddSessions | main/views.py:564-576 | creates one booked one-hour session per leading clock hour under consecutive new ids, keeps every old row, and stops only at an hour past 23 |
| Booking.Guard | main/views.py:545-562 | booking proceeds exactly when the date is not past, the account has the member role, hours were selected, a membership exists, access holds and credits cover the parsed hours |
| Booking.CreateThenDebit | main/views.py:564-589 | past the guard, every hour a clock hour books them all in order and debits one credit each; otherwise the loop crashes at the first hour past 23 with one session per earlier hour and no debit |
| Booking.InstantBookAsWritten | main/views.py:549-589 | a refusal changes nothing; past the guard the view books exactly when every hour is a clock hour and crashes otherwise; the crash comes at the first hour past 23 and keeps the sessions for the hours before it without any debit; a full run creates one session per hour and debits one credit per hour |
| Booking.OutOfRangeHourBooksForFree | main/views.py:564-578 | selecting hours 9 and 24 books hour 9 and charges no credit |
| Booking.InstantBook | main/views.py:549-589 | all-or-nothing booking: it succeeds exactly when the guard passes and every hour is a clock hour; on success it adds one session per hour in order and debits exactly that many credits; otherwise it changes nothing; credits spent always equal sessions created |
| Booking.CorrectionOnlyChangesCrashes | main/views.py:562-579 | the corrected booking agrees with the view wherever the view does not crash, and refuses exactly where the view crashes |
| Booking.OneHourBooks | main/views.py:562-579 | in the view as written, and identically in the corrected booking, one clock hour with a credit to spare adds exactly that session under the next id and takes exactly one credit from the booker alone |
| Booking.DoubleBookingPossible | main/views.py:564-576 | in the view as written, two members can both book the same hour of the same date |
| Reservations.OperatorAddresses | main/views.py:440-441 | the recipients are exactly the operators' non-empty e-mail addresses |
| Reservations.Submit | main/views.py:427-454 | a submitted request is stored as pending under a fresh id, the next id moves on by one, and every other request is kept; the operators are told of it exactly when one of them has an address, and then all that have one are |
| Reservations.Decide | main/views.py:689-711 | accept writes approved and asks for a payment link; reject writes declined and sends the suggested times with the surrounding whitespace stripped; whatever the prior status; a missing value, a bad or unknown id, or any other action changes nothing |
| Reservations.RejectionDropsPadding | main/views.py:692-705 | whitespace around the suggested times never reaches the rejection mail |
| Reservations.MarkPaid | main/payments_subscription.py:203-224 | the named request becomes paid whatever its prior status; a missing key or unknown id changes nothing; no request is added or removed |
| Reservations.CancelSession | main/views.py:247-260 | only the caller's own session is cancelled, by id, with no status or time check; anything else changes nothing |
| Reservations.MarkPaidIdempotent | main/payments_subscription.py:211-213 | a redelivered payment confirmation changes nothing further |
| Reservations.PaidOverridesAnyStatus | main/payments_subscription.py:211-213 | a payment confirmation marks even a declined or never-approved request paid |
| Reservations.RejectAfterPaid | main/views.py:702-704 | the operator can reject a request that has already been paid |
| Reservations.AcceptTwiceSameLedger | main/views.py:697-700 | a second accept rewrites nothing but asks for another payment link |
| Reservations.CancelOnlyOwn | main/views.py:251 | a session booked by someone else is never touched |
| Billing.LookupBySubscription | main/payments_subscription.py:143 | finds a membership exactly when one membership holds the subscription id; none or several both mean no change |
| Billing.CheckoutTarget | main/payments_subscription.py:89-92 | activation needs the metadata to name an existing account and an existing plan |
| Billing.Activate | main/payments_subscription.py:95-118 | the record is fetched or created; with a gateway answer it becomes active with the plan, the subscription id and both dates at the period end; credits become 100 only for a new or zero-credit record; the reactivation flag is "existed and was inactive"; no credits are ever taken |
| Billing.ActivateIdempotent | main/payments_subscription.py:95-118 | a second identical activation leaves the ledger as the first did and is never a reactivation |
| Billing.Renew | main/payments_subscription.py:141-185 | with an active subscription reported, exactly 100 credits are added, the membership becomes active and both dates move to the period end; otherwise nothing changes |
| Billing.RenewTwiceGrantsTwice | main/payments_subscription.py:169 | renewal is not idempotent: two deliveries grant 200 credits |
| Billing.FailPayment | main/payments_subscription.py:188-201 | a failed payment clears only `active` |
| Billing.DeleteSubscription | main/payments_subscription.py:227-245 | deletion clears `active` and `valid_until` but keeps the subscription id |
| Billing.UpdateSubscription | main/payments_subscription.py:248-273 | a scheduled cancellation clears `active` and sets `valid_until` to the period end; any other update changes nothing |
| Billing.FailAndDeleteCommute | main/payments_subscription.py:188-245 | a failed payment and a deletion give the same ledger in either order |
| Billing.DeleteAndScheduleDoNotCommute | main/payments_subscription.py:227-273 | a deletion and a scheduled cancellation leave different `valid_until` depending on order |
| Webhook.Dispatch | main/payments_subscription.py:38-77 | the routing per event type: subscription checkout to activation, other checkout to the paid path, invoices to renewal only without `user_id`; only a checkout without a subscription touches requests; credits never shrink |
| Webhook.HandleWebhook | main/payments_subscription.py:27-80 | a delivery that fails verification gets 400 and changes nothing; every verified event gets 200 |
| Webhook.CheckoutRedeliveryIdempotent | main/payments_subscription.py:39-49 | a redelivered checkout event changes nothing further |
| Webhook.FirstInvoiceOrderMatters | main/payments_subscription.py:54-64 | the first invoice and its checkout race: handled in one order the member gets 200 credits, in the other 100 |
| LegacyWebhook.LegacyActivate | main/payments.py:46-67 | the older activation needs `user_id` naming an existing account, then sets `active` and the session's subscription id, or none when the session has none |
| LegacyWebhook.LegacyHandleWebhook | main/payments.py:23-43 | routes only checkouts and failed invoices; every verified event gets 200; credits never change |
| LegacyWebhook.LegacyActivateKeepsBilling | main/payments.py:54-57 | the older activation leaves credits, plan and both dates as they were |
| LegacyWebhook.EndpointsAgreeOnActivation | main/payments.py:54-57 | on a subscription checkout both endpoints agree on `active` and the subscription id |
| LegacyWebhook.LegacyIgnoresReservationCheckout | main/payments.py:35-37 | a reservation checkout has no effect on the older endpoint |
| Cancellation.CancelSubscription | main/services.py:12-29 | reports success exactly when a membership exists, holds a subscription id and the gateway deletes it; only then is it deactivated and the id cleared; otherwise nothing changes |
| Cancellation.CancelMembership | main/views.py:356-376 | only an active membership holding a subscription id reaches the service; success deactivates it, clears the id and confirms by mail; the other outcomes change nothing |
| Cancellation.CancelOnce | main/services.py:14-23 | a cancelled membership cannot be cancelled again |
| Cancellation.InactiveMemberCannotCancel | main/views.py:359 | a member whose payment failed cannot cancel through the view, though the service alone would |
| SlotGrid.LastHolder | main/views.py:596-603 | the reference for booked hours: the last booked or paid session of the date starting at the hour |
| SlotGrid.LastCovering | main/views.py:610-620 | the reference for requested hours: the last live request of the date whose span covers the hour |
| SlotGrid.BookedMap | main/views.py:591-603 | an hour is in the booked map exactly when some session holds it, showing the last such session |
| SlotGrid.WriteSpan | main/views.py:614-620 | writes the request's mark on exactly its hours and keeps every other entry |
| SlotGrid.PendingMap | main/views.py:605-620 | an hour is in the request map exactly when a live request covers it, showing the last such request |
| SlotGrid.DailyGrid | main/views.py:623-644 | one cell per hour from the given start hour through 23, each equal to the reference cell |
| SlotGrid.Scheduler | main/views.py:622-644 | today's grid runs from the current hour and any other day's from 8 through 23, one cell per hour in order, each equal to the reference cell |
| SlotGrid.SessionsTakePrecedence | main/views.py:625-631 | a held hour shows reserved with its holder, whatever the requests say |
| SlotGrid.AvailableIffUnclaimed | main/views.py:639-644 | an hour is available exactly when no session holds it and no live request covers it |
| SlotGrid.DeclinedInvisible | main/views.py:606-609 | a declined request changes no cell |
| SlotGrid.LaterRequestWins | main/views.py:611-620 | on an unheld hour the last covering request decides the cell |
| Calendar.FirstOfOrder | main/views.py:485-487 | comparing first-of-month dates is comparing month indices |
| Calendar.PrevMonth | main/views.py:505-508 | the previous month is one month index earlier and valid; January wraps to December |
| Calendar.NextMonth | main/views.py:509-512 | the next month is one month index later and valid; December wraps to January |
| Calendar.PrevNextInverse | main/views.py:505-512 | previous and next undo each other |
| Calendar.FirstOfNextMonth | main/views.py:316-319 | the checkout anchor is the first day of the following month |
| Calendar.AnchorIsNextMonth | main/views.py:316-319 | the checkout anchor is the first day of the calendar's next month |
| Calendar.MonthlyCalendar | main/views.py:466-515 | an impossible month is a server error; an early month redirects to the current one and a late month to the window's last; a shown month lies in the window; the links are enabled exactly when the neighbouring month is in the window |
| Calendar.WindowMonthShown | main/views.py:482-515 | asking for any in-window month by query string shows it |
| Calendar.NextLinkShown | main/views.py:509-515 | following an enabled "next" link shows that month |
| Calendar.PrevLinkShown | main/views.py:505-514 | following an enabled "previous" link shows that month |
| Calendar.RedirectTargetShown | main/views.py:487-488 | the late-month redirect lands on a page that is shown |
| Invites.CreateInvite | main/views.py:737-765 | only the role "admin" acts; an expired invite is reissued in place with a new token and role, a seven-day expiry and not used, and no mail; a live one changes nothing; a new address gets an invite and a mail; other addresses are untouched |
| Invites.AdminLeavesLiveInvite | main/views.py:744-759 | after any admin request the address holds an invite that is live |
| Invites.ReissueBlocksForLifetime | main/views.py:746-754 | for seven days after a reissue, further requests for the address change nothing |
| Invites.UsedInviteStillBlocks | main/views.py:746-754 | a used but unexpired invite still blocks a new one |
| Invites.OnlyAdminInvites | main/views.py:737-738 | a member, operator or public profile is refused and nothing changes |
| Invites.UnlistedRoleInvited | main/views.py:742-762 | a role outside the profile roles is stored on the invite and mailed |
| MembershipPage.MembershipPageOf | main/views.py:197-227 | active exactly for an active membership; next billing date only while active; valid-until only while inactive and not yet past; credits 0 and no plan without a record; the record's plan when it has one, and the "no plan" text exactly when it has none |
| MembershipPage.ScheduledCancellationShowsValidUntil | main/views.py:205-210 | after a scheduled cancellation the page says inactive and valid until the period end |
| MembershipPage.DeletionShowsNothingValid | main/views.py:205-211 | after a deletion the page says inactive with no valid-until |
| MembershipPage.RenewalShowsActive | main/views.py:201-204 | after a renewal the page says active with the new billing date and 100 more credits |

## Left out

- Gateway calls (signature verification, subscription retrieve and delete, checkout and portal sessions, price lists) are foreign code. Their answers are parameters.
- Unix-timestamp conversion and time zones: period ends, `today`, the current hour and `today + 60 days` are input dates.
- E-mail composition and sending: a notice records which mail would go out. A failing mail is not modelled, because every status is saved before the mail is attempted.
- `has_membership_access`, `has_minimum_role` and `Invite.is_valid` are not part of this model. Their results are boolean inputs.
- Rendering, redirect URLs, flash messages, login, registration and the customer portal.
- The calendar's day grid (`itermonthdates`, `in_current_month`, `is_in_range`): it is presentation that needs weekday arithmetic.
- Concurrency: every operation runs alone. The races that interleaving permits are shown as orderings of whole operations.
- Text.ParseInt: surrounding whitespace, underscores and non-ASCII digits, which Python's `int()` also accepts, are not modelled.
- Text.ParseId: only a plain ASCII digit string names a row. The database lookup coerces the id with Python's `int()`, which also accepts surrounding whitespace, a leading `+`, underscores between digits and non-ASCII decimal digits. For such an id (say " 5" or "+5") the source finds the row, while the model treats the id as unknown, so `Reservations.Decide`, `Reservations.MarkPaid`, `Reservations.CancelSession` and `Billing.CheckoutTarget` change nothing where the source acts.
- Booking.KeepDigits: only ASCII digit tokens are kept. Python's `str.isdigit()` also accepts other Unicode digits. A decimal digit such as "٣" is kept by the source as the hour 3. A digit such as "²" passes `isdigit()` but makes `int()` raise before any session is created, so the source answers with a server error and changes nothing. The model drops both kinds of token.
- Reservations.Decide: the operator console's login and operator-role requirement is not modelled. The caller is taken to be an operator.
- Billing.Activate: the default of `active` on a freshly created membership is not part of this model and is taken to be false.
- Reservations.Submit: the parsing of the date and time text (lines 420-425) and the integer field's coercion of the raw `hours` text when the row is created (lines 412 and 428-437) are not modelled. The start hour and hour count are inputs, and so are the e-mails of the accounts in the Operator group.
- Reservations.Submit: the stored request keeps only the hour of the requested time, not its minutes. Only the hour grid, which reads the hour alone, and the e-mails use that time.
- SlotGrid.BookedMap: a session's label is its account id rather than the account's full name or username.
- MembershipPage.MembershipPageOf: the plan is shown by id rather than by name.
- SlotGrid.DailyGrid: the database returns rows in an order the query does not fix. The grid takes the rows in whatever order they arrive.
- Calendar.FirstOfNextMonth: the overflow past year 9999 is not modelled.
- Invites.CreateInvite: absent form fields and the default expiry of a new invite are not modelled. The default expiry is an input.
- Booking.InstantBook: the count of hours is not bounded by 24, because the view does not deduplicate.

## Findings

| source | as written | input that shows it | evidently intended | confidence | as-written member | corrected member |
|---|---|---|---|---|---|---|
| main/views.py:564-579 | each selected hour is turned into a time with `strptime(f"{hour}:00")` inside the booking loop, outside any handler; an hour past 23 raises after the earlier sessions were saved and before the credit debit, and requests are not atomic | `selected_hours = "9,24"` from a member with at least 2 credits: hour 9 is booked and no credit is spent | refuse the whole booking when any hour is outside 0..23, so that sessions created always equal credits spent | not executed | Booking.InstantBookAsWritten | Booking.InstantBook |
