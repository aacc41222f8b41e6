/**
 Properties of the appointment ledger that relate several calls or hold of
 every well-formed ledger: every transaction keeps the ledger well formed,
 scheduling and fetching round-trip, the per-owner listing follows
 scheduling and unscheduling, and an appointment that has started is frozen
 against edits while staying removable and answerable.
 */
module AgendaProperties {
  import opened Types
  import opened Seqs
  import Invites
  import opened Agenda

  // ---------------------------------------------------------------------------
  // Every transaction keeps the ledger well formed

  lemma DeployedValid()
    ensures Valid(Deployed)
  {
  }

  lemma ScheduleKeepsValid(l: Ledger, caller: Identity, from: Time, to: Time, invitees: seq<Identity>, recurring: bool)
    requires Valid(l)
    requires Schedule(l, caller, from, to, invitees, recurring).Ok?
    ensures Valid(Schedule(l, caller, from, to, invitees, recurring).value.0)
  {
    NextIdUnused(l, caller);
    assert Indexed(l);
    ScheduleKeepsListed(l, caller, from, to, invitees, recurring);
    ScheduleKeepsDistinct(l, caller, from, to, invitees, recurring);
    ScheduleKeepsStored(l, caller, from, to, invitees, recurring);
    ScheduleKeepsInvites(l, caller, from, to, invitees, recurring);
  }

  lemma ScheduleKeepsListed(l: Ledger, caller: Identity, from: Time, to: Time, invitees: seq<Identity>, recurring: bool)
    requires Listed(l)
    requires Schedule(l, caller, from, to, invitees, recurring).Ok?
    ensures Listed(Schedule(l, caller, from, to, invitees, recurring).value.0)
  {
    var l' := Schedule(l, caller, from, to, invitees, recurring).value.0;
    var id := l.lastId + 1;
    assert l'.appointments == l.appointments[id := Appointment(caller, from, to, recurring)];
    assert l'.byOwner == l.byOwner[caller := Listing(l, caller) + [id]];
    forall x | x in l'.appointments
      ensures x in Listing(l', l'.appointments[x].owner)
    {
      if x != id {
        assert x in Listing(l, l.appointments[x].owner);
      }
    }
  }

  lemma ScheduleKeepsDistinct(l: Ledger, caller: Identity, from: Time, to: Time, invitees: seq<Identity>, recurring: bool)
    requires ListingsDistinct(l) && l.lastId + 1 !in Listing(l, caller)
    requires Schedule(l, caller, from, to, invitees, recurring).Ok?
    ensures ListingsDistinct(Schedule(l, caller, from, to, invitees, recurring).value.0)
  {
    var l' := Schedule(l, caller, from, to, invitees, recurring).value.0;
    var id := l.lastId + 1;
    assert l'.byOwner == l.byOwner[caller := Listing(l, caller) + [id]];
    assert Distinct(Listing(l, caller));
    AppendFresh(Listing(l, caller), id);
    forall o | o in l'.byOwner
      ensures Distinct(l'.byOwner[o])
    {
      if o != caller {
        assert l'.byOwner[o] == l.byOwner[o];
      }
    }
  }

  lemma ScheduleKeepsStored(l: Ledger, caller: Identity, from: Time, to: Time, invitees: seq<Identity>, recurring: bool)
    requires ListingsStored(l) && l.lastId + 1 !in l.appointments
    requires Schedule(l, caller, from, to, invitees, recurring).Ok?
    ensures ListingsStored(Schedule(l, caller, from, to, invitees, recurring).value.0)
  {
    var l' := Schedule(l, caller, from, to, invitees, recurring).value.0;
    var id := l.lastId + 1;
    assert l'.appointments == l.appointments[id := Appointment(caller, from, to, recurring)];
    assert l'.byOwner == l.byOwner[caller := Listing(l, caller) + [id]];
    forall o, x | o in l'.byOwner && x in l'.byOwner[o]
      ensures x in l'.appointments && l'.appointments[x].owner == o
    {
      if o != caller {
        assert l'.byOwner[o] == l.byOwner[o];
      } else if x != id {
        assert x in Listing(l, caller);
      }
    }
  }

  lemma ScheduleKeepsInvites(l: Ledger, caller: Identity, from: Time, to: Time, invitees: seq<Identity>, recurring: bool)
    requires InvitesAttached(l)
    requires Schedule(l, caller, from, to, invitees, recurring).Ok?
    ensures InvitesAttached(Schedule(l, caller, from, to, invitees, recurring).value.0)
  {
    var l' := Schedule(l, caller, from, to, invitees, recurring).value.0;
    var id := l.lastId + 1;
    assert l'.appointments == l.appointments[id := Appointment(caller, from, to, recurring)];
    assert l'.invites == Invites.Invite(l.invites, id, invitees).0;
    Invites.InviteKeepsValid(l.invites, id, invitees);
    forall k | k in l'.invites.records
      ensures k.appointment in l'.appointments
    {
      Invites.InviteAddsOnlyNew(l.invites, id, invitees, k);
    }
  }

  lemma UnscheduleKeepsValid(l: Ledger, caller: Identity, id: nat)
    requires Valid(l)
    requires Unschedule(l, caller, id).Ok?
    ensures Valid(Unschedule(l, caller, id).value.0)
  {
    UnscheduleKeepsIds(l, caller, id);
    UnscheduleKeepsIndexed(l, caller, id);
    UnscheduleKeepsInvites(l, caller, id);
  }

  lemma UnscheduleKeepsIds(l: Ledger, caller: Identity, id: nat)
    requires IdsIssued(l)
    requires Unschedule(l, caller, id).Ok?
    ensures IdsIssued(Unschedule(l, caller, id).value.0)
  {
    var l' := Unschedule(l, caller, id).value.0;
    assert l'.appointments == l.appointments - {id};
  }

  lemma UnscheduleKeepsInvites(l: Ledger, caller: Identity, id: nat)
    requires InvitesAttached(l)
    requires Unschedule(l, caller, id).Ok?
    ensures InvitesAttached(Unschedule(l, caller, id).value.0)
  {
    var l' := Unschedule(l, caller, id).value.0;
    assert l'.appointments == l.appointments - {id};
    assert l'.invites == Invites.Drop(l.invites, id);
    assert l'.lastId == l.lastId;
    forall a | l'.lastId < a
      ensures Invites.Issued(l'.invites, a) == 0
    {
      assert Invites.Issued(l.invites, a) == 0;
    }
  }

  lemma UnscheduleKeepsIndexed(l: Ledger, caller: Identity, id: nat)
    requires Indexed(l)
    requires Unschedule(l, caller, id).Ok?
    ensures Indexed(Unschedule(l, caller, id).value.0)
  {
    UnscheduleKeepsListed(l, caller, id);
    UnscheduleKeepsDistinct(l, caller, id);
    UnscheduleKeepsStored(l, caller, id);
  }

  lemma UnscheduleKeepsStored(l: Ledger, caller: Identity, id: nat)
    requires ListingsStored(l)
    requires Unschedule(l, caller, id).Ok?
    ensures ListingsStored(Unschedule(l, caller, id).value.0)
  {
    var l' := Unschedule(l, caller, id).value.0;
    forall o, x | o in l'.byOwner && x in l'.byOwner[o]
      ensures x in l'.appointments && l'.appointments[x].owner == o
    {
      UnscheduleIndexEntry(l, caller, id, o, x);
    }
  }

  lemma UnscheduleKeepsListed(l: Ledger, caller: Identity, id: nat)
    requires Listed(l)
    requires Unschedule(l, caller, id).Ok?
    ensures Listed(Unschedule(l, caller, id).value.0)
  {
    var l' := Unschedule(l, caller, id).value.0;
    assert l'.appointments == l.appointments - {id};
    assert l'.byOwner == l.byOwner[caller := Without(Listing(l, caller), id)];
    forall x | x in l'.appointments
      ensures x in Listing(l', l'.appointments[x].owner)
    {
      assert x in Listing(l, l.appointments[x].owner);
    }
  }

  lemma UnscheduleKeepsDistinct(l: Ledger, caller: Identity, id: nat)
    requires ListingsDistinct(l)
    requires Unschedule(l, caller, id).Ok?
    ensures ListingsDistinct(Unschedule(l, caller, id).value.0)
  {
    var l' := Unschedule(l, caller, id).value.0;
    var mine := Without(Listing(l, caller), id);
    assert l'.byOwner == l.byOwner[caller := mine];
    assert Distinct(Listing(l, caller));
    forall o | o in l'.byOwner
      ensures Distinct(l'.byOwner[o])
    {
      if o != caller {
        assert l'.byOwner[o] == l.byOwner[o];
      }
    }
  }

  lemma UnscheduleIndexEntry(l: Ledger, caller: Identity, id: nat, o: Identity, x: nat)
    requires ListingsStored(l)
    requires Unschedule(l, caller, id).Ok?
    requires o in Unschedule(l, caller, id).value.0.byOwner
    requires x in Unschedule(l, caller, id).value.0.byOwner[o]
    ensures x in Unschedule(l, caller, id).value.0.appointments
    ensures Unschedule(l, caller, id).value.0.appointments[x].owner == o
  {
    var l' := Unschedule(l, caller, id).value.0;
    assert l'.appointments == l.appointments - {id};
    if o != caller {
      assert l'.byOwner[o] == l.byOwner[o];
      assert l.appointments[x].owner == o;
    } else {
      assert l'.byOwner[o] == Without(Listing(l, caller), id);
      assert x in Listing(l, caller);
    }
  }

  /** A transaction that changes only invitation records, never adds a record
      key and never issues ids keeps the ledger well formed. */
  lemma RecordsOnlyChangeKeepsValid(l: Ledger, b: Invites.Book)
    requires Valid(l)
    requires b.issued == l.invites.issued && b.records.Keys <= l.invites.records.Keys
    ensures Valid(l.(invites := b))
  {
    SameStorageKeepsIndexed(l, l.(invites := b));
    RecordsOnlyChangeKeepsAttached(l, b);
  }

  lemma SameStorageKeepsIndexed(l: Ledger, l': Ledger)
    requires IdsIssued(l) && Indexed(l)
    requires l'.appointments == l.appointments && l'.lastId == l.lastId && l'.byOwner == l.byOwner
    ensures IdsIssued(l') && Indexed(l')
  {
    assert forall o :: Listing(l', o) == Listing(l, o);
  }

  lemma RecordsOnlyChangeKeepsAttached(l: Ledger, b: Invites.Book)
    requires InvitesAttached(l)
    requires b.issued == l.invites.issued && b.records.Keys <= l.invites.records.Keys
    ensures InvitesAttached(l.(invites := b))
  {
    forall a | l.lastId < a
      ensures Invites.Issued(b, a) == 0
    {
      assert Invites.Issued(l.invites, a) == 0;
    }
    forall k | k in b.records
      ensures 1 <= k.id <= Invites.Issued(b, k.appointment)
    {
      assert k in l.invites.records;
    }
  }

  lemma MoveKeepsValid(l: Ledger, caller: Identity, now: Time, id: nat, newFrom: Time, newTo: Time)
    requires Valid(l)
    requires Move(l, caller, now, id, newFrom, newTo).Ok?
    ensures Valid(Move(l, caller, now, id, newFrom, newTo).value.0)
  {
    var l' := Move(l, caller, now, id, newFrom, newTo).value.0;
    assert l'.appointments.Keys == l.appointments.Keys;
    assert forall x :: x in l.appointments ==> l'.appointments[x].owner == l.appointments[x].owner;
  }

  lemma InviteMembersKeepsValid(l: Ledger, caller: Identity, now: Time, id: nat, who: seq<Identity>)
    requires Valid(l)
    requires InviteMembers(l, caller, now, id, who).Ok?
    ensures Valid(InviteMembers(l, caller, now, id, who).value.0)
  {
    var l' := InviteMembers(l, caller, now, id, who).value.0;
    Invites.InviteKeepsValid(l.invites, id, who);
    forall k | k in l'.invites.records
      ensures k.appointment in l'.appointments
    {
      Invites.InviteAddsOnlyNew(l.invites, id, who, k);
    }
    forall a | l'.lastId < a
      ensures Invites.Issued(l'.invites, a) == 0
    {
      assert a != id;
    }
  }

  lemma UninviteMembersKeepsValid(l: Ledger, caller: Identity, now: Time, id: nat, invitation: nat, who: seq<Identity>)
    requires Valid(l)
    requires UninviteMembers(l, caller, now, id, invitation, who).Ok?
    ensures Valid(UninviteMembers(l, caller, now, id, invitation, who).value.0)
  {
    var l' := UninviteMembers(l, caller, now, id, invitation, who).value.0;
    assert l' == l.(invites := l'.invites);
    RecordsOnlyChangeKeepsValid(l, l'.invites);
  }

  lemma ApproveInviteKeepsValid(l: Ledger, caller: Identity, id: nat, invitation: nat)
    requires Valid(l)
    requires ApproveInvite(l, caller, id, invitation).Ok?
    ensures Valid(ApproveInvite(l, caller, id, invitation).value.0)
  {
    var l' := ApproveInvite(l, caller, id, invitation).value.0;
    assert l' == l.(invites := l'.invites);
    RecordsOnlyChangeKeepsValid(l, l'.invites);
  }

  lemma DenyInviteKeepsValid(l: Ledger, caller: Identity, id: nat, invitation: nat)
    requires Valid(l)
    requires DenyInvite(l, caller, id, invitation).Ok?
    ensures Valid(DenyInvite(l, caller, id, invitation).value.0)
  {
    var l' := DenyInvite(l, caller, id, invitation).value.0;
    assert l' == l.(invites := l'.invites);
    RecordsOnlyChangeKeepsValid(l, l'.invites);
  }

  // ---------------------------------------------------------------------------
  // The per-owner listing

  /** In a well-formed ledger, `appointments(owner)` lists exactly the owner's
      stored appointments, one per index entry, in index order. */
  lemma AppointmentsOfExact(l: Ledger, owner: Identity)
    requires Listed(l) && ListingsStored(l)
    ensures |AppointmentsOf(l, owner)| == |Listing(l, owner)|
    ensures forall i :: 0 <= i < |Listing(l, owner)| ==>
              AppointmentsOf(l, owner)[i] == l.appointments[Listing(l, owner)[i]]
    ensures forall a :: a in AppointmentsOf(l, owner) ==> a.owner == owner
    ensures forall id :: id in l.appointments && l.appointments[id].owner == owner ==>
              l.appointments[id] in AppointmentsOf(l, owner)
  {
    var ids := Listing(l, owner);
    var r := AppointmentsOf(l, owner);
    assert forall id :: id in ids ==> id in l.appointments && l.appointments[id].owner == owner;
    forall id | id in l.appointments && l.appointments[id].owner == owner
      ensures l.appointments[id] in r
    {
      var i :| 0 <= i < |ids| && ids[i] == id;
      assert r[i] == l.appointments[id];
    }
  }

  // ---------------------------------------------------------------------------
  // Scheduling

  /** The first appointment on a freshly deployed ledger gets id 1, and it is
      the caller's only listed appointment. */
  lemma FirstScheduleIsOne(caller: Identity, from: Time, to: Time, invitees: seq<Identity>, recurring: bool)
    requires from < to
    ensures Schedule(Deployed, caller, from, to, invitees, recurring).Ok?
    ensures Schedule(Deployed, caller, from, to, invitees, recurring).value.1[0] == AppointmentCreated(1, caller, from, to)
    ensures AppointmentsOf(Schedule(Deployed, caller, from, to, invitees, recurring).value.0, caller)
            == [Appointment(caller, from, to, recurring)]
  {
    var l' := Schedule(Deployed, caller, from, to, invitees, recurring).value.0;
    assert Listing(l', caller) == [1];
  }

  /** In a well-formed ledger the next id is unused: no appointment, no index
      entry and no invitation id was ever issued under it. */
  lemma NextIdUnused(l: Ledger, owner: Identity)
    requires Valid(l)
    ensures Fetch(l, l.lastId + 1) == Err(NotFound)
    ensures l.lastId + 1 !in Listing(l, owner)
    ensures Invites.Issued(l.invites, l.lastId + 1) == 0
  {
  }

  /** `schedule` appends the new appointment to the caller's listing. Holds
      whenever the listings hold stored ids and the new id is unused, as
      `NextIdUnused` shows of every well-formed ledger. */
  lemma ScheduleAppends(l: Ledger, caller: Identity, from: Time, to: Time, invitees: seq<Identity>, recurring: bool)
    requires ListingsStored(l) && l.lastId + 1 !in l.appointments && from < to
    ensures AppointmentsOf(Schedule(l, caller, from, to, invitees, recurring).value.0, caller)
            == AppointmentsOf(l, caller) + [Appointment(caller, from, to, recurring)]
  {
    var id := l.lastId + 1;
    var l' := Schedule(l, caller, from, to, invitees, recurring).value.0;
    var ids := Listing(l, caller);
    assert forall x :: x in ids ==> x in l.appointments;
    assert l'.appointments == l.appointments[id := Appointment(caller, from, to, recurring)];
    assert Listing(l', caller) == ids + [id];
    assert forall x :: x in ids + [id] ==> x in l'.appointments;
    var before := Resolve(l, ids);
    var after := Resolve(l', ids + [id]);
    assert |after| == |before| + 1;
    forall i | 0 <= i < |before|
      ensures after[i] == before[i]
    {
      assert (ids + [id])[i] == ids[i];
    }
    assert after[|before|] == Appointment(caller, from, to, recurring);
  }

  /** The invitees listed in `schedule` receive invitations 1, 2, ... of the
      new appointment, Pending, announced in list order after
      AppointmentCreated. Holds whenever the new id has no invitations yet,
      which `NextIdUnused` shows of every well-formed ledger. */
  lemma ScheduleInvites(l: Ledger, caller: Identity, from: Time, to: Time, invitees: seq<Identity>, recurring: bool, i: nat)
    requires Invites.Issued(l.invites, l.lastId + 1) == 0
    requires from < to && i < |invitees|
    ensures Schedule(l, caller, from, to, invitees, recurring).value.1[1 + i] == MemberInvited(l.lastId + 1, 1 + i, invitees[i])
    ensures Invites.Key(l.lastId + 1, 1 + i) in Schedule(l, caller, from, to, invitees, recurring).value.0.invites.records
    ensures Schedule(l, caller, from, to, invitees, recurring).value.0.invites.records[Invites.Key(l.lastId + 1, 1 + i)]
            == Invites.Invitation(invitees[i], Invites.Pending)
  {
    var id := l.lastId + 1;
    var r := Schedule(l, caller, from, to, invitees, recurring).value;
    var inv := Invites.Invite(l.invites, id, invitees);
    assert r == (r.0.(invites := inv.0), [AppointmentCreated(id, caller, from, to)] + inv.1);
    assert r.1[1 + i] == inv.1[i];
    Invites.InviteIssues(l.invites, id, invitees, 1 + i);
  }

  /** Scheduling and then unscheduling the same appointment gives back every
      stored appointment and every listing; only the used id stays used.
      Holds whenever the new id is unused, as `NextIdUnused` shows of every
      well-formed ledger. */
  lemma ScheduleThenUnschedule(l: Ledger, caller: Identity, from: Time, to: Time, invitees: seq<Identity>, recurring: bool)
    requires l.lastId + 1 !in l.appointments && l.lastId + 1 !in Listing(l, caller)
    requires from < to
    ensures var l1 := Schedule(l, caller, from, to, invitees, recurring).value.0;
            var r := Unschedule(l1, caller, l.lastId + 1);
            && r.Ok? && r.value.1 == [AppointmentUnscheduled(l.lastId + 1, caller)]
            && r.value.0.appointments == l.appointments
            && (forall o :: Listing(r.value.0, o) == Listing(l, o))
  {
    var id := l.lastId + 1;
    var l1 := Schedule(l, caller, from, to, invitees, recurring).value.0;
    WithoutAppended(Listing(l, caller), id);
    assert l1.appointments == l.appointments[id := Appointment(caller, from, to, recurring)];
    assert l1.byOwner == l.byOwner[caller := Listing(l, caller) + [id]];
    var l2 := Unschedule(l1, caller, id).value.0;
    assert l2.appointments == l1.appointments - {id};
    assert l2.byOwner == l1.byOwner[caller := Without(Listing(l1, caller), id)];
  }

  /** ... and every invitation: those issued with the appointment go with it. */
  lemma ScheduleThenUnscheduleInvites(l: Ledger, caller: Identity, from: Time, to: Time, invitees: seq<Identity>, recurring: bool)
    requires Invites.Valid(l.invites) && Invites.Issued(l.invites, l.lastId + 1) == 0
    requires from < to
    ensures var l1 := Schedule(l, caller, from, to, invitees, recurring).value.0;
            Unschedule(l1, caller, l.lastId + 1).value.0.invites.records == l.invites.records
  {
    var id := l.lastId + 1;
    var l1 := Schedule(l, caller, from, to, invitees, recurring).value.0;
    var b1 := Invites.Invite(l.invites, id, invitees).0;
    assert l1.invites == b1 && id in l1.appointments && l1.appointments[id].owner == caller;
    assert Unschedule(l1, caller, id).value.0.invites == Invites.Drop(b1, id);
    Invites.DropUndoesInvite(l.invites, id, invitees);
  }

  // ---------------------------------------------------------------------------
  // Unscheduling

  /** Unscheduling removes exactly one entry from the owner's listing and
      keeps the order of the rest. */
  lemma UnscheduleListing(l: Ledger, caller: Identity, id: nat)
    requires Valid(l) && Unschedule(l, caller, id).Ok?
    ensures Listing(Unschedule(l, caller, id).value.0, caller) == Without(Listing(l, caller), id)
    ensures |Listing(Unschedule(l, caller, id).value.0, caller)| == |Listing(l, caller)| - 1
  {
    assert id in Listing(l, l.appointments[id].owner);
  }

  /** Appointment ids start at 1, so id 0 never exists: fetching, answering
      or removing appointment 0 reverts with "Appointment does not exist". */
  lemma NoAppointmentZero(l: Ledger, caller: Identity, invitation: nat)
    requires Valid(l)
    ensures Fetch(l, 0) == Err(NotFound)
    ensures ApproveInvite(l, caller, 0, invitation) == Err(NotFound)
    ensures DenyInvite(l, caller, 0, invitation) == Err(NotFound)
    ensures Unschedule(l, caller, 0) == Err(NotFound)
  {
  }

  // ---------------------------------------------------------------------------
  // Moving

  /** Moving an appointment and moving it back (while it has still not
      started) restores the ledger exactly. */
  lemma MoveBack(l: Ledger, caller: Identity, now: Time, id: nat, newFrom: Time, newTo: Time)
    requires Valid(l)
    requires Move(l, caller, now, id, newFrom, newTo).Ok?
    requires now < newFrom
    ensures var a := l.appointments[id];
            Move(Move(l, caller, now, id, newFrom, newTo).value.0, caller, now, id, a.from, a.to)
            == Ok((l, [AppointmentMoved(id, a.from, a.to)]))
  {
    var a := l.appointments[id];
    var l1 := Move(l, caller, now, id, newFrom, newTo).value.0;
    assert l1.appointments[id] == a.(from := newFrom, to := newTo);
    assert l1.appointments[id := a] == l.appointments;
  }

  // ---------------------------------------------------------------------------
  // The temporal guard

  /** Once the clock reaches an appointment's start, its owner can no longer
      move it or change its invitations ("Edit past appointments is not
      allowed"), but can still unschedule it; the invitee's answer does not
      depend on the clock at all. */
  lemma StartedIsFrozen(l: Ledger, caller: Identity, now: Time, id: nat,
                        newFrom: Time, newTo: Time, who: seq<Identity>, invitation: nat)
    requires id in l.appointments && l.appointments[id].owner == caller
    requires l.appointments[id].from <= now
    ensures Move(l, caller, now, id, newFrom, newTo) == Err(PastEdit)
    ensures InviteMembers(l, caller, now, id, who) == Err(PastEdit)
    ensures UninviteMembers(l, caller, now, id, invitation, who) == Err(PastEdit)
    ensures Unschedule(l, caller, id).Ok?
  {
  }

  // ---------------------------------------------------------------------------
  // Invitations through the ledger

  /** On an appointment just scheduled without invitees, the owner's first
      invitation before the start gets id 1 and is stored Pending. */
  lemma FirstInvitationThroughLedger(l: Ledger, caller: Identity, from: Time, to: Time, recurring: bool,
                                     now: Time, x: Identity)
    requires Valid(l) && from < to && now < from
    ensures var id := l.lastId + 1;
            var l1 := Schedule(l, caller, from, to, [], recurring).value.0;
            var r := InviteMembers(l1, caller, now, id, [x]);
            && r.Ok? && r.value.1 == [MemberInvited(id, 1, x)]
            && r.value.0.invites.records == l1.invites.records[Invites.Key(id, 1) := Invites.Invitation(x, Invites.Pending)]
  {
    var id := l.lastId + 1;
    var l1 := Schedule(l, caller, from, to, [], recurring).value.0;
    NextIdUnused(l, caller);
    assert Invites.Issued(l1.invites, id) == 0;
    assert l1.appointments[id] == Appointment(caller, from, to, recurring);
    Invites.InviteOne(l1.invites, id, x);
  }

  /** Through the ledger, the invitee of a freshly issued invitation, and only
      the invitee, can approve or deny it; any other caller reverts NotInvitee. */
  lemma InviteeAnswersThroughLedger(l: Ledger, id: nat, x: Identity, y: Identity)
    requires id in l.appointments && y != x
    ensures var b := Invites.Invite(l.invites, id, [x]).0;
            var n := Invites.Issued(l.invites, id) + 1;
            var l1 := l.(invites := b);
            && ApproveInvite(l1, x, id, n) == Ok((l1.(invites := b.(records := b.records[Invites.Key(id, n) := Invites.Invitation(x, Invites.Approved)])), [InvitationApproved(id, n, x)]))
            && DenyInvite(l1, x, id, n) == Ok((l1.(invites := b.(records := b.records[Invites.Key(id, n) := Invites.Invitation(x, Invites.Denied)])), [InvitationDenied(id, n, x)]))
            && ApproveInvite(l1, y, id, n) == Err(NotInvitee)
            && DenyInvite(l1, y, id, n) == Err(NotInvitee)
  {
    Invites.OnlyInviteeAnswers(l.invites, id, x, y);
  }

  /** Through the ledger, withdrawing a just-issued invitation with its
      invitee's identity emits MemberUninvited and restores the records. */
  lemma UninviteThroughLedger(l: Ledger, caller: Identity, now: Time, id: nat, x: Identity)
    requires InvitesAttached(l) && id in l.appointments
    requires l.appointments[id].owner == caller && now < l.appointments[id].from
    ensures var l1 := l.(invites := Invites.Invite(l.invites, id, [x]).0);
            var n := Invites.Issued(l.invites, id) + 1;
            var r := UninviteMembers(l1, caller, now, id, n, [x]);
            && r.Ok? && r.value.1 == [MemberUninvited(id, n, x)]
            && r.value.0.invites.records == l.invites.records
  {
    Invites.UninviteUndoesInvite(l.invites, id, x);
  }
}
