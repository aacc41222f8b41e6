/**
 The appointment ledger (`Agenda`). Appointments are stored under ids issued
 from 1 upwards and never reused; each owner has an ordered index of the ids
 they scheduled. Invitations are kept in the invitation manager's book, and
 the ledger adds the guards the standalone manager lacks: the appointment
 must exist, the caller must own it, and it must not have started yet.

 Every transaction is a pure function of the ledger, the caller
 (`msg.sender`) and, where the contract reads it, the block time. A revert is
 an `Err` and carries no ledger, so it cannot change anything.
 */
module Agenda {
  import opened Types
  import opened Seqs
  import Invites

  datatype Appointment = Appointment(owner: Identity, from: Time, to: Time, recurring: bool)

  /** The contract's storage: appointments by id, the last id issued, each
      owner's ids in scheduling order, and the invitation book. */
  datatype Ledger = Ledger(
    appointments: map<nat, Appointment>,
    lastId: nat,
    byOwner: map<Identity, seq<nat>>,
    invites: Invites.Book)

  /** A freshly deployed ledger: nothing scheduled, the first id will be 1. */
  const Deployed: Ledger := Ledger(map[], 0, map[], Invites.Fresh)

  /** The ids `owner` has scheduled and not unscheduled, oldest first. */
  function Listing(l: Ledger, owner: Identity): seq<nat> {
    if owner in l.byOwner then l.byOwner[owner] else []
  }

  /** The temporal guard: an appointment may be edited only before it starts. */
  predicate Editable(a: Appointment, now: Time) {
    now < a.from
  }

  // ---------------------------------------------------------------------------
  // Well-formedness: what every ledger reachable from `Deployed` satisfies

  /** Stored ids are issued ids (1..lastId) and stored ranges are ordered. */
  ghost predicate IdsIssued(l: Ledger) {
    && (forall id :: id in l.appointments ==> 0 < id <= l.lastId)
    && (forall id :: id in l.appointments ==> l.appointments[id].from < l.appointments[id].to)
  }

  /** The per-owner index lists exactly the stored appointments, each once,
      under its own owner. */
  ghost predicate Indexed(l: Ledger) {
    Listed(l) && ListingsDistinct(l) && ListingsStored(l)
  }

  /** Every stored appointment is in its owner's listing. */
  ghost predicate Listed(l: Ledger) {
    forall id :: id in l.appointments ==> id in Listing(l, l.appointments[id].owner)
  }

  /** No listing holds an id twice. */
  ghost predicate ListingsDistinct(l: Ledger) {
    forall o :: o in l.byOwner ==> Distinct(l.byOwner[o])
  }

  /** A listing holds only stored appointments of that owner. */
  ghost predicate ListingsStored(l: Ledger) {
    forall o, id :: o in l.byOwner && id in l.byOwner[o] ==>
      id in l.appointments && l.appointments[id].owner == o
  }

  /** Invitations belong to stored appointments, and invitation ids were only
      ever issued for appointment ids already issued. */
  ghost predicate InvitesAttached(l: Ledger) {
    && Invites.Valid(l.invites)
    && (forall k :: k in l.invites.records ==> k.appointment in l.appointments)
    && (forall a :: l.lastId < a ==> Invites.Issued(l.invites, a) == 0)
  }

  ghost predicate Valid(l: Ledger) {
    IdsIssued(l) && Indexed(l) && InvitesAttached(l)
  }

  // ---------------------------------------------------------------------------
  // Reads

  /** `appointment(id)`. */
  function Fetch(l: Ledger, id: nat): (r: Result<Appointment>)
    ensures r.Ok? <==> id in l.appointments
    ensures r.Err? ==> r.error == NotFound
    ensures r.Ok? ==> r.value == l.appointments[id]
  {
    if id in l.appointments then Ok(l.appointments[id]) else Err(NotFound)
  }

  /** `appointments(owner)`: the owner's appointments in scheduling order; an
      owner with none gets the empty list, not a revert. */
  function AppointmentsOf(l: Ledger, owner: Identity): (r: seq<Appointment>)
    ensures |r| <= |Listing(l, owner)|
    ensures (forall id :: id in Listing(l, owner) ==> id in l.appointments) ==>
              |r| == |Listing(l, owner)| &&
              forall i :: 0 <= i < |r| ==> r[i] == l.appointments[Listing(l, owner)[i]]
  {
    Resolve(l, Listing(l, owner))
  }

  /** Looks up each id, skipping any that is not stored. */
  function Resolve(l: Ledger, ids: seq<nat>): (r: seq<Appointment>)
    ensures |r| <= |ids|
    ensures (forall id :: id in ids ==> id in l.appointments) ==>
              |r| == |ids| && forall i :: 0 <= i < |ids| ==> r[i] == l.appointments[ids[i]]
  {
    if ids == [] then []
    else
      var rest := Resolve(l, ids[1..]);
      if ids[0] in l.appointments then
        assert forall id :: id in ids[1..] ==> id in ids;
        [l.appointments[ids[0]]] + rest
      else rest
  }

  // ---------------------------------------------------------------------------
  // Guards shared by the mutating transactions

  /** The appointment exists ("Appointment does not exist") and the caller owns
      it ("Appointment is not yours"), checked in that order. */
  function Owned(l: Ledger, caller: Identity, id: nat): (c: Check)
    ensures c == Pass <==> id in l.appointments && l.appointments[id].owner == caller
    ensures id !in l.appointments ==> c == Fail(NotFound)
    ensures id in l.appointments && l.appointments[id].owner != caller ==> c == Fail(NotYours)
  {
    if id !in l.appointments then Fail(NotFound)
    else if l.appointments[id].owner != caller then Fail(NotYours)
    else Pass
  }

  /** `Owned`, then the temporal guard ("Edit past appointments is not allowed"). */
  function Editing(l: Ledger, caller: Identity, now: Time, id: nat): (c: Check)
    ensures c == Pass <==> Owned(l, caller, id) == Pass && Editable(l.appointments[id], now)
    ensures Owned(l, caller, id).Fail? ==> c == Owned(l, caller, id)
    ensures Owned(l, caller, id) == Pass && !Editable(l.appointments[id], now) ==> c == Fail(PastEdit)
  {
    var owned := Owned(l, caller, id);
    if owned.Fail? then owned
    else if !Editable(l.appointments[id], now) then Fail(PastEdit)
    else Pass
  }

  // ---------------------------------------------------------------------------
  // Transactions

  /** `schedule(from, to, invitees, recurring)`. The range must be ordered
      ("Date From must be bigger than To"); the appointment gets the next id,
      goes to the end of the caller's index, and each listed invitee gets a
      Pending invitation. AppointmentCreated comes first, then one
      MemberInvited per invitee. */
  function Schedule(l: Ledger, caller: Identity, from: Time, to: Time, invitees: seq<Identity>, recurring: bool)
    : (r: Result<(Ledger, seq<Event>)>)
    ensures r.Ok? <==> from < to
    ensures r.Err? ==> r.error == BadRange
    ensures r.Ok? ==> r.value.0.lastId == l.lastId + 1
    ensures r.Ok? ==> Fetch(r.value.0, l.lastId + 1) == Ok(Appointment(caller, from, to, recurring))
    ensures r.Ok? ==> forall id :: id != l.lastId + 1 ==> Fetch(r.value.0, id) == Fetch(l, id)
    ensures r.Ok? ==> Listing(r.value.0, caller) == Listing(l, caller) + [l.lastId + 1]
    ensures r.Ok? ==> forall o :: o != caller ==> Listing(r.value.0, o) == Listing(l, o)
    ensures r.Ok? ==> |r.value.1| == 1 + |invitees|
    ensures r.Ok? ==> r.value.1[0] == AppointmentCreated(l.lastId + 1, caller, from, to)
    ensures r.Ok? ==> r.value.0.invites == Invites.Invite(l.invites, l.lastId + 1, invitees).0
    ensures r.Ok? ==> r.value.1 == [AppointmentCreated(l.lastId + 1, caller, from, to)]
                                   + Invites.Invite(l.invites, l.lastId + 1, invitees).1
  {
    if !(from < to) then Err(BadRange)
    else
      var id := l.lastId + 1;
      var (book, invited) := Invites.Invite(l.invites, id, invitees);
      var l' := Ledger(
        l.appointments[id := Appointment(caller, from, to, recurring)],
        id,
        l.byOwner[caller := Listing(l, caller) + [id]],
        book);
      Ok((l', [AppointmentCreated(id, caller, from, to)] + invited))
  }

  /** `unschedule(id)`, owner only. The appointment, its index entry and all
      its invitations go; the id is not issued again. No time guard. */
  function Unschedule(l: Ledger, caller: Identity, id: nat): (r: Result<(Ledger, seq<Event>)>)
    ensures r.Ok? <==> Owned(l, caller, id) == Pass
    ensures r.Err? ==> Owned(l, caller, id) == Fail(r.error)
    ensures r.Ok? ==> r.value.1 == [AppointmentUnscheduled(id, caller)]
    ensures r.Ok? ==> Fetch(r.value.0, id) == Err(NotFound)
    ensures r.Ok? ==> forall other :: other != id ==> Fetch(r.value.0, other) == Fetch(l, other)
    ensures r.Ok? ==> id !in Listing(r.value.0, caller)
    ensures r.Ok? ==> Listing(r.value.0, caller) == Without(Listing(l, caller), id)
    ensures r.Ok? ==> forall o :: o != caller ==> Listing(r.value.0, o) == Listing(l, o)
    ensures r.Ok? ==> forall k :: k in r.value.0.invites.records <==> k in l.invites.records && k.appointment != id
    ensures r.Ok? ==> forall k :: k in r.value.0.invites.records ==> r.value.0.invites.records[k] == l.invites.records[k]
    ensures r.Ok? ==> r.value.0.invites.issued == l.invites.issued
    ensures r.Ok? ==> r.value.0.lastId == l.lastId
  {
    var a :- Fetch(l, id);
    if a.owner != caller then Err(NotYours)
    else
      var l' := l.(
        appointments := l.appointments - {id},
        byOwner := l.byOwner[caller := Without(Listing(l, caller), id)],
        invites := Invites.Drop(l.invites, id));
      Ok((l', [AppointmentUnscheduled(id, caller)]))
  }

  /** `move(id, newFrom, newTo)`, owner only, before the start, with an ordered
      new range ("Date To must be bigger than From"). Only the two times change. */
  function Move(l: Ledger, caller: Identity, now: Time, id: nat, newFrom: Time, newTo: Time)
    : (r: Result<(Ledger, seq<Event>)>)
    ensures r.Ok? <==> Editing(l, caller, now, id) == Pass && newFrom < newTo
    ensures Editing(l, caller, now, id).Fail? ==> r == Err(Editing(l, caller, now, id).error)
    ensures Editing(l, caller, now, id) == Pass && !(newFrom < newTo) ==> r == Err(BadRange)
    ensures r.Ok? ==> r.value.1 == [AppointmentMoved(id, newFrom, newTo)]
    ensures r.Ok? ==> Fetch(r.value.0, id) == Ok(l.appointments[id].(from := newFrom, to := newTo))
    ensures r.Ok? ==> forall other :: other != id ==> Fetch(r.value.0, other) == Fetch(l, other)
    ensures r.Ok? ==> r.value.0.byOwner == l.byOwner && r.value.0.invites == l.invites && r.value.0.lastId == l.lastId
  {
    var guard := Editing(l, caller, now, id);
    if guard.Fail? then Err(guard.error)
    else if !(newFrom < newTo) then Err(BadRange)
    else
      var moved := l.appointments[id].(from := newFrom, to := newTo);
      Ok((l.(appointments := l.appointments[id := moved]), [AppointmentMoved(id, newFrom, newTo)]))
  }

  /** `inviteMembers(id, who)`: owner only, before the start; then exactly the
      manager's `invite`. Appointments and the index are untouched. */
  function InviteMembers(l: Ledger, caller: Identity, now: Time, id: nat, who: seq<Identity>)
    : (r: Result<(Ledger, seq<Event>)>)
    ensures r.Ok? <==> Editing(l, caller, now, id) == Pass
    ensures r.Err? ==> r.error == Editing(l, caller, now, id).error
    ensures r.Ok? ==> r.value == (l.(invites := Invites.Invite(l.invites, id, who).0), Invites.Invite(l.invites, id, who).1)
  {
    var guard := Editing(l, caller, now, id);
    if guard.Fail? then Err(guard.error)
    else
      var (book, events) := Invites.Invite(l.invites, id, who);
      Ok((l.(invites := book), events))
  }

  /** `uninviteMembers(id, invitation, who)`: owner only, before the start;
      then exactly the manager's withdrawal. */
  function UninviteMembers(l: Ledger, caller: Identity, now: Time, id: nat, invitation: nat, who: seq<Identity>)
    : (r: Result<(Ledger, seq<Event>)>)
    ensures r.Ok? <==> Editing(l, caller, now, id) == Pass
    ensures r.Err? ==> r.error == Editing(l, caller, now, id).error
    ensures r.Ok? ==> var (book, events) := Invites.Uninvite(l.invites, id, invitation, who);
                      r.value == (l.(invites := book), events)
  {
    var guard := Editing(l, caller, now, id);
    if guard.Fail? then Err(guard.error)
    else
      var (book, events) := Invites.Uninvite(l.invites, id, invitation, who);
      Ok((l.(invites := book), events))
  }

  /** `approveInvite(id, invitation)`: the appointment must exist (checked
      first), then only the invitee may approve. No owner or time guard. */
  function ApproveInvite(l: Ledger, caller: Identity, id: nat, invitation: nat): (r: Result<(Ledger, seq<Event>)>)
    ensures id !in l.appointments ==> r == Err(NotFound)
    ensures id in l.appointments ==>
              match Invites.Approve(l.invites, caller, id, invitation)
              case Ok((book, events)) => r == Ok((l.(invites := book), events))
              case Err(e) => r == Err(e)
  {
    var _ :- Fetch(l, id);
    var (book, events) :- Invites.Approve(l.invites, caller, id, invitation);
    Ok((l.(invites := book), events))
  }

  /** `denyInvite(id, invitation)`: the mirror image of `ApproveInvite`. */
  function DenyInvite(l: Ledger, caller: Identity, id: nat, invitation: nat): (r: Result<(Ledger, seq<Event>)>)
    ensures id !in l.appointments ==> r == Err(NotFound)
    ensures id in l.appointments ==>
              match Invites.Deny(l.invites, caller, id, invitation)
              case Ok((book, events)) => r == Ok((l.(invites := book), events))
              case Err(e) => r == Err(e)
  {
    var _ :- Fetch(l, id);
    var (book, events) :- Invites.Deny(l.invites, caller, id, invitation);
    Ok((l.(invites := book), events))
  }
}
