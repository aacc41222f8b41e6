/**
 The ledger as a sequence of transactions. Each transaction names its
 sender, the block time it runs at and the call it makes; the chain runs
 them one after another, and a reverted transaction leaves the ledger as it
 was and emits nothing.
 */
module Transactions {
  import opened Types
  import opened Agenda
  import opened AgendaProperties

  /** The contract's external functions that change state. */
  datatype Call =
    | ScheduleCall(from: Time, to: Time, invitees: seq<Identity>, recurring: bool)
    | UnscheduleCall(id: nat)
    | MoveCall(id: nat, newFrom: Time, newTo: Time)
    | InviteMembersCall(id: nat, who: seq<Identity>)
    | UninviteMembersCall(id: nat, invitation: nat, who: seq<Identity>)
    | ApproveInviteCall(id: nat, invitation: nat)
    | DenyInviteCall(id: nat, invitation: nat)

  datatype Tx = Tx(sender: Identity, timestamp: Time, call: Call)

  /** One transaction. Ids are never handed out twice: the last issued id
      never goes down. */
  function Step(l: Ledger, tx: Tx): (r: Result<(Ledger, seq<Event>)>)
    ensures r.Ok? ==> r.value.0.lastId >= l.lastId
    ensures r.Ok? && !tx.call.ScheduleCall? ==> r.value.0.lastId == l.lastId
  {
    var caller := tx.sender;
    var now := tx.timestamp;
    match tx.call
    case ScheduleCall(from, to, invitees, recurring) => Schedule(l, caller, from, to, invitees, recurring)
    case UnscheduleCall(id) => Unschedule(l, caller, id)
    case MoveCall(id, newFrom, newTo) => Move(l, caller, now, id, newFrom, newTo)
    case InviteMembersCall(id, who) => InviteMembers(l, caller, now, id, who)
    case UninviteMembersCall(id, invitation, who) => UninviteMembers(l, caller, now, id, invitation, who)
    case ApproveInviteCall(id, invitation) => ApproveInvite(l, caller, id, invitation)
    case DenyInviteCall(id, invitation) => DenyInvite(l, caller, id, invitation)
  }

  /** Runs the transactions in order and collects the events of those that
      went through. */
  function Run(l: Ledger, txs: seq<Tx>): (r: (Ledger, seq<Event>))
    ensures r.0.lastId >= l.lastId
    decreases |txs|
  {
    if txs == [] then (l, [])
    else
      match Step(l, txs[0])
      case Ok((l1, events)) =>
        var (l2, more) := Run(l1, txs[1..]);
        (l2, events + more)
      case Err(_) => Run(l, txs[1..])
  }

  lemma StepKeepsValid(l: Ledger, tx: Tx)
    requires Valid(l) && Step(l, tx).Ok?
    ensures Valid(Step(l, tx).value.0)
  {
    var caller := tx.sender;
    var now := tx.timestamp;
    match tx.call
    case ScheduleCall(from, to, invitees, recurring) => ScheduleKeepsValid(l, caller, from, to, invitees, recurring);
    case UnscheduleCall(id) => UnscheduleKeepsValid(l, caller, id);
    case MoveCall(id, newFrom, newTo) => MoveKeepsValid(l, caller, now, id, newFrom, newTo);
    case InviteMembersCall(id, who) => InviteMembersKeepsValid(l, caller, now, id, who);
    case UninviteMembersCall(id, invitation, who) => UninviteMembersKeepsValid(l, caller, now, id, invitation, who);
    case ApproveInviteCall(id, invitation) => ApproveInviteKeepsValid(l, caller, id, invitation);
    case DenyInviteCall(id, invitation) => DenyInviteKeepsValid(l, caller, id, invitation);
  }

  /** Any sequence of transactions keeps a well-formed ledger well formed. */
  lemma {:induction false} RunKeepsValid(l: Ledger, txs: seq<Tx>)
    requires Valid(l)
    ensures Valid(Run(l, txs).0)
    decreases |txs|
  {
    if txs != [] {
      match Step(l, txs[0])
      case Ok((l1, _)) =>
        StepKeepsValid(l, txs[0]);
        RunKeepsValid(l1, txs[1..]);
      case Err(_) =>
        RunKeepsValid(l, txs[1..]);
    }
  }

  /** Every ledger the contract can reach from deployment is well formed:
      each stored appointment is listed once under its owner, has an ordered
      range, and every invitation belongs to a stored appointment. */
  lemma Reachable(txs: seq<Tx>)
    ensures Valid(Run(Deployed, txs).0)
  {
    DeployedValid();
    RunKeepsValid(Deployed, txs);
  }

  /** An appointment id, once used, is never issued again, even after the
      appointment is unscheduled: whatever runs in between, the next
      `schedule` picks a different id. */
  lemma IdsNeverReused(l: Ledger, id: nat, txs: seq<Tx>, caller: Identity, from: Time, to: Time,
                       invitees: seq<Identity>, recurring: bool)
    requires Valid(l) && id in l.appointments && from < to
    ensures var l' := Run(l, txs).0;
            Schedule(l', caller, from, to, invitees, recurring).value.1[0].id != id
  {
  }
}
