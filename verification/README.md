# Agenda: a verified model of the appointment ledger and invitation workflow

This project models the two contracts of the `agenda` repository:

- `Agenda`, a ledger of appointments. Each appointment has an owner, a start (`from`), an end (`to`) and a `recurring` flag. Appointments are stored under ids issued from 1 upwards. Each owner has a listing of the ids they scheduled.
- `Invite`, the invitation manager that `Agenda` reuses. Invitations are addressed by (appointment id, invitation id). Each one names an invitee and has a status: Pending, Approved or Denied.

The contracts' Solidity source is not part of this model. Their behaviour is taken from the Hardhat test suites `test/agenda.test.ts`, `test/invite.test.ts` and `test/index.ts`.

Modelling conventions:

- Every transaction is a pure function from the ledger, the sender and, where the contract reads it, the block time, to a `Result`.
- `msg.sender` and `block.timestamp` are explicit parameters.
- A successful transaction returns the new ledger and the events it emits, in emission order.
- A revert is an `Err` with one reason: `NotFound`, `NotYours`, `NotInvitee`, `BadRange` or `PastEdit`. The revert strings appear as comments beside the error cases.
- An `Err` carries no ledger, so a revert cannot leave a partial write behind.
- `transactions.dfy` runs sequences of transactions. A reverted transaction is skipped.

Files:

| file | module | contents |
|---|---|---|
| `types.dfy` | `Types` | identities, timestamps, errors, events, `Result` |
| `seqs.dfy` | `Seqs` | list facts the per-owner listing needs: no repeats, deleting an id |
| `invites.dfy` | `Invites` | the standalone invitation manager and its properties |
| `agenda.dfy` | `Agenda` | the ledger, its well-formedness invariant, its guards and transactions |
| `agenda_props.dfy` | `AgendaProperties` | invariant preservation, round trips, listing and temporal-guard lemmas |
| `transactions.dfy` | `Transactions` | transaction sequences, and the invariant over every reachable ledger |

Choices where the tests leave the behaviour open:

- **Temporal guard.** An appointment is editable only while `now < from`, a strict comparison, so the guard is keyed on `from`, not `to`. test/agenda.test.ts:85-96 refuses an edit with the clock at the start, a day before `to`. test/index.ts:70-76 refuses an invitation to an appointment that starts now. `Agenda.Editable` states this. `move`, `inviteMembers` and `uninviteMembers` are guarded. `unschedule`, `approveInvite` and `denyInvite` take no time parameter.
- **Guard order.** The order is: existence, then ownership, then the time guard, then the range check (for `move`).
- **Ranges.** `schedule` and `move` need `from < to`, so `from == to` is rejected.
- **Invitation ids** are issued per appointment, starting at 1, and never reissued.
- **Duplicates.** `inviteMembers(id, who)` issues one invitation per entry of `who`, duplicates included.
- **Invitees at creation.** `schedule` with a non-empty invitee list issues their invitations in the same transaction. AppointmentCreated comes first, then one MemberInvited per invitee. No time guard applies at creation.
- **Withdrawal.** `uninviteMembers(id, invitation, who)` withdraws invitation `(id, invitation)` if it exists and its invitee is in `who`. It emits one MemberUninvited event. Otherwise it changes nothing, emits nothing, and does not revert.
- **Answering again.** `approve`/`deny` may be repeated on an invitation that has already been answered: the last answer wins.
- **Unscheduling** deletes the appointment, its listing entry and all its invitations. Its id and its invitation ids stay used.
- **Older API.** test/index.ts uses an older API: `invite(id, addrs)`, a two-argument MemberInvited event, and the message "Dates must be bigger than now". Where it conflicts with test/agenda.test.ts, the model follows test/agenda.test.ts.

## Model

| member | source | states |
|---|---|---|
| `Agenda.Schedule` | test/agenda.test.ts:34-54 | Succeeds iff `from < to`, otherwise reverts with BadRange. The new appointment gets id `lastId + 1`. Fetching that id afterwards returns (caller, from, to, recurring). No other fetch result changes. The caller's listing gains the id at its end; other listings are unchanged. The first event is AppointmentCreated(id, caller, from, to), followed by one event per invitee. The invitation book and those events are exactly what the manager's `invite` of the invitees under the new id gives, so no other invitation is issued. |
| `Agenda.Unschedule` | test/agenda.test.ts:56-75 | An unknown id reverts NotFound. A non-owner reverts NotYours. Otherwise it succeeds with AppointmentUnscheduled(id, owner). Afterwards the id fetches NotFound. The owner's listing is the old one with the id deleted and the order of the rest kept. Exactly this appointment's invitations are gone; every other invitation, the issued invitation ids, other appointments, other listings and the id counter are unchanged. |
| `Agenda.Move` | test/agenda.test.ts:148-190 | Succeeds iff the appointment exists, the caller owns it, it has not started, and `newFrom < newTo`. The errors are NotFound, NotYours, PastEdit and BadRange, in that order. On success only this appointment's times change, and it emits AppointmentMoved(id, newFrom, newTo). |
| `Agenda.InviteMembers` | test/agenda.test.ts:77-102 | Succeeds iff the appointment exists, the caller owns it and it has not started. Otherwise it reverts NotFound, NotYours or PastEdit, in that order. On success it does exactly what the manager's `invite` does, and appointments and listings are untouched. |
| `Agenda.UninviteMembers` | test/agenda.test.ts:104-146 | Has the same guards and the same error order as InviteMembers. On success it does exactly what the manager's withdrawal does. |
| `Agenda.ApproveInvite` | test/agenda.test.ts:192-215 | An unknown appointment reverts NotFound, checked before the invitee check. Otherwise the result is the manager's `approve`, with its error or with its new book and events. |
| `Agenda.DenyInvite` | test/agenda.test.ts:217-240 | The mirror image of ApproveInvite, with the manager's `deny`. |
| `Agenda.Fetch` | test/agenda.test.ts:242-262 | Succeeds iff the id is stored, and then returns exactly the appointment stored under it. Otherwise it reverts with NotFound. |
| `Agenda.AppointmentsOf` | test/index.ts:43-46 | `appointments(owner)` is never longer than the owner's listing. When every listed id is stored, it returns the stored appointment of each listed id, in listing order. `AppointmentsOfExact` and `ScheduleAppends` state what this means in a well-formed ledger. |
| `Agenda.Owned` | test/agenda.test.ts:64-75 | Passes iff the appointment exists and the caller owns it. It fails NotFound for an unknown id and NotYours for another caller, with existence checked first. |
| `Agenda.Editing` | test/agenda.test.ts:85-96 | Passes iff Owned passes and `now < from`. If Owned fails, its error is kept. If only the time guard fails, the error is PastEdit. |
| `Agenda.Resolve` | test/index.ts:43-46 | Looks up a list of ids. When every id is stored, the result has the same length and lists the stored appointments in the same order. |
| `AgendaProperties.AppointmentsOfExact` | test/index.ts:43-46 | In a well-formed ledger, `appointments(owner)` has one entry per listed id, in listing order. Every entry is owned by `owner`. Every stored appointment of `owner` appears in it. |
| `AgendaProperties.FirstScheduleIsOne` | test/agenda.test.ts:34-46 | On a fresh ledger, `schedule` with `from < to` succeeds with AppointmentCreated(1, caller, from, to), also with invitees. The caller's listing is then exactly the new appointment. |
| `AgendaProperties.ScheduleAppends` | test/index.ts:39-46 | In a well-formed ledger, `schedule` appends exactly the new (caller, from, to, recurring) to the caller's `appointments(owner)`. |
| `AgendaProperties.NextIdUnused` | test/agenda.test.ts:41-45 | In a well-formed ledger the next id is not stored and not listed, and no invitation id has been issued under it. |
| `AgendaProperties.ScheduleInvites` | test/agenda.test.ts:41-45 | The i-th invitee given to `schedule` gets invitation `1 + i` of the new appointment, Pending. The event after AppointmentCreated at that position is MemberInvited(id, 1 + i, invitee). |
| `AgendaProperties.ScheduleThenUnschedule` | test/agenda.test.ts:56-63 | Unscheduling a just-scheduled appointment as its owner succeeds with AppointmentUnscheduled(id, owner). It restores every stored appointment and every owner's listing. |
| `AgendaProperties.ScheduleThenUnscheduleInvites` | test/agenda.test.ts:56-63 | The same round trip restores the invitation records: the invitations issued with the appointment are removed with it. |
| `AgendaProperties.UnscheduleListing` | test/agenda.test.ts:56-63 | Unscheduling removes exactly the one id from the owner's listing and keeps the order of the rest. |
| `AgendaProperties.NoAppointmentZero` | test/agenda.test.ts:211-215 | Id 0 is never stored. Fetching, approving, denying or unscheduling appointment 0 reverts NotFound. |
| `AgendaProperties.MoveBack` | test/agenda.test.ts:149-172 | Moving an appointment and then moving it back, before the new start, restores the ledger exactly. |
| `AgendaProperties.StartedIsFrozen` | test/agenda.test.ts:85-96 | Once `now >= from`, the owner's `move`, `inviteMembers` and `uninviteMembers` revert PastEdit. `unschedule` still succeeds. |
| `AgendaProperties.FirstInvitationThroughLedger` | test/agenda.test.ts:105-115 | Take an appointment just scheduled without invitees. Before its start, the owner's first invitation gets id 1, emits MemberInvited(id, 1, x) and stores one Pending invitation for x. |
| `AgendaProperties.InviteeAnswersThroughLedger` | test/agenda.test.ts:193-209 | For a freshly issued invitation of a stored appointment, the invitee's `approveInvite` sets status Approved with InvitationApproved(id, n, x). The invitee's `denyInvite` sets Denied with InvitationDenied(id, n, x). Any other caller reverts NotInvitee. |
| `AgendaProperties.UninviteThroughLedger` | test/agenda.test.ts:105-120 | Before the start, the owner's `uninviteMembers(id, n, [x])` on x's fresh invitation n emits MemberUninvited(id, n, x) and restores the invitation records. |
| `AgendaProperties.ScheduleKeepsValid` | test/index.ts:39-46 | `schedule` keeps the ledger well formed. Each stored appointment is listed exactly once, under its owner, and has an ordered range. Every invitation belongs to a stored appointment. |
| `AgendaProperties.UnscheduleKeepsValid` | test/agenda.test.ts:56-63 | `unschedule` keeps the ledger well formed. |
| `AgendaProperties.MoveKeepsValid` | test/agenda.test.ts:149-172 | `move` keeps the ledger well formed. In particular the stored range stays ordered. |
| `AgendaProperties.InviteMembersKeepsValid` | test/agenda.test.ts:113-115 | `inviteMembers` keeps the ledger well formed. |
| `AgendaProperties.UninviteMembersKeepsValid` | test/agenda.test.ts:117-119 | `uninviteMembers` keeps the ledger well formed. |
| `AgendaProperties.ApproveInviteKeepsValid` | test/agenda.test.ts:206-208 | `approveInvite` keeps the ledger well formed. |
| `AgendaProperties.DenyInviteKeepsValid` | test/agenda.test.ts:231-233 | `denyInvite` keeps the ledger well formed. |
| `Invites.Invite` | test/invite.test.ts:25-31 | `invite(a, who)` uses exactly `|who|` new ids of appointment `a` and no ids of other appointments. It emits one event per identity, MemberInvited(a, n + 1 + i, who[i]), in list order. It does not require appointment `a` to exist. |
| `Invites.InviteIssues` | test/invite.test.ts:25-31 | After `invite(a, who)`, new id `n + 1 + i` of `a` holds a Pending invitation for `who[i]`. |
| `Invites.InviteKeeps` | test/invite.test.ts:25-31 | Inviting keeps every earlier record that is not on a newly issued id. |
| `Invites.InviteAddsOnlyNew` | test/invite.test.ts:25-31 | Inviting adds records only on the newly issued ids. |
| `Invites.InviteKeepsValid` | test/invite.test.ts:25-31 | Inviting keeps the book well formed: every record sits on an issued id, so a new id never overwrites a record. |
| `Invites.FirstInvitationIsOne` | test/invite.test.ts:25-31 | On a fresh manager, inviting x to any appointment id `a` stores exactly one Pending invitation, (a, 1) for x, and emits MemberInvited(a, 1, x). |
| `Invites.InviteOne` | test/invite.test.ts:37-39 | Inviting one identity stores exactly one new Pending record, on the appointment's next id, and emits one event for it. |
| `Invites.Approve` | test/invite.test.ts:35-44 | Succeeds iff the invitation exists and names the caller. Otherwise it reverts NotInvitee. On success it emits InvitationApproved(a, id, caller) and sets only that invitation's status to Approved. The invitee, other records and issued ids are unchanged. |
| `Invites.Deny` | test/invite.test.ts:57-66 | The same as Approve, with status Denied and event InvitationDenied(a, id, caller). |
| `Invites.OnlyInviteeAnswers` | test/invite.test.ts:45-54 | On a freshly issued invitation, the invitee's approve and deny succeed. Any other caller's approve and deny revert NotInvitee, so the status stays Pending. |
| `Invites.MissingInvitationIsNotYours` | test/invite.test.ts:67-76 | A pair that holds no invitation is refused with NotInvitee, whoever calls. |
| `Invites.SwappedArgumentsRefused` | test/invite.test.ts:67-76 | After `invite(a, [x])` on a fresh manager with `a != 1`, `approve(1, a)` and `deny(1, a)` revert NotInvitee. |
| `Invites.AnswerIdempotent` | test/invite.test.ts:35-44 | Approving an invitation a second time succeeds and changes nothing. |
| `Invites.AnswerKeepsValid` | test/invite.test.ts:35-44 | Answering keeps the book well formed. |
| `Invites.Uninvite` | test/agenda.test.ts:117-119 | Invitation (a, id) is gone afterwards iff it existed and its invitee is in `who`. Then exactly one MemberUninvited(a, id, invitee) is emitted; otherwise nothing is emitted. No other record changes and issued ids stay used. |
| `Invites.UninviteUndoesInvite` | test/agenda.test.ts:113-119 | Inviting x and then withdrawing that invitation with `[x]` restores the records and emits MemberUninvited(a, id, x). |
| `Invites.Drop` | test/agenda.test.ts:56-63 | Removes exactly the invitations of one appointment and keeps every other record. |
| `Invites.DropUndoesInvite` | test/agenda.test.ts:56-63 | Inviting to an appointment that had no invitations, and then dropping that appointment's invitations, restores the records. |
| `Seqs.Without` | test/agenda.test.ts:56-63 | Deleting an id from a listing removes every occurrence and keeps all other ids. It keeps a repeat-free list repeat-free and shortens it by exactly one when the id was in it. |
| `Seqs.WithoutAppended` | test/agenda.test.ts:56-63 | Deleting an id that was just appended to a list not holding it gives the list back. |
| `Transactions.Step` | test/agenda.test.ts:105-120 | Each transaction dispatches to one contract function. The last issued id never decreases, and only `schedule` advances it. |
| `Transactions.Run` | test/agenda.test.ts:105-120 | Running transactions in order never decreases the last issued id. |
| `Transactions.RunKeepsValid` | test/agenda.test.ts:26-32 | Any sequence of transactions keeps a well-formed ledger well formed. |
| `Transactions.Reachable` | test/agenda.test.ts:26-32 | Every ledger reachable from deployment is well formed. |
| `Transactions.IdsNeverReused` | test/agenda.test.ts:41-45 | Once an id has been used, whatever transactions follow, even an unschedule, the next `schedule` issues a different id. |

## Left out

- Deployment and Hardhat/ethers plumbing are left out: `getSigners`, `evm_setNextBlockTimestamp`, and waiting for receipts. Signers are plain identities and the clock is a parameter.
- The date arithmetic in the tests is left out (`setDate`, the `/100` and `/1000` scaling). Timestamps are integers compared only with `<`.
- The Greeter test (test/index.ts:108-119) and the empty placeholder tests (test/index.ts:83-107) state nothing about the core and are not modelled. This includes "all the next appointments from address".
- EVM concerns are left out: gas, 256-bit overflow of ids and timestamps, reentrancy, event log encoding. Ids are unbounded naturals.
- The older `invite(id, addrs)` API of test/index.ts is not modelled separately: its two-argument event and "Dates must be bigger than now" message. Its behaviour is covered by `InviteMembers`.
- The `recurring` flag is stored and returned, but it has no behaviour in the tests, so none is modelled.
- Agenda.InviteMembers: its contract states the guards and then delegates to `Invites.Invite`. The invitation facts are proved once, about the manager.
- Agenda.UninviteMembers: its contract states the guards and then delegates to `Invites.Uninvite`. What the test pins down for a fresh invitation is in `UninviteThroughLedger`.
