/**
 Vocabulary shared by the appointment ledger and the invitation workflow:
 identities, timestamps, the revert reasons, the emitted events and the
 failure-compatible result type every operation returns.
 */
module Types {

  /** An account address. Signers are plain values; `msg.sender` becomes a parameter. */
  type Identity = nat

  /** A block timestamp. Only ever compared with `<`. */
  type Time = int

  /** Why a transaction reverts. The contracts' revert strings are kept beside each case. */
  datatype Error =
    | NotFound    // "Appointment does not exist"
    | NotYours    // "Appointment is not yours"
    | NotInvitee  // "This is not your invitation"
    | BadRange    // "Date From must be bigger than To" / "Date To must be bigger than From"
    | PastEdit    // "Edit past appointments is not allowed"

  /** The events a successful transaction emits, with the contracts' argument order. */
  datatype Event =
    | AppointmentCreated(id: nat, owner: Identity, from: Time, to: Time)
    | AppointmentUnscheduled(id: nat, owner: Identity)
    | AppointmentMoved(id: nat, from: Time, to: Time)
    | MemberInvited(appointment: nat, invitation: nat, member: Identity)
    | MemberUninvited(appointment: nat, invitation: nat, member: Identity)
    | InvitationApproved(appointment: nat, invitation: nat, member: Identity)
    | InvitationDenied(appointment: nat, invitation: nat, member: Identity)

  /** Either the value a call produces or the reason it reverted. A revert carries
      no state, so a failed transaction cannot leave a partial write behind. */
  datatype Result<+T> = Ok(value: T) | Err(error: Error) {

    predicate IsFailure() {
      Err?
    }

    function PropagateFailure<U>(): Result<U>
      requires Err?
    {
      Err(error)
    }

    function Extract(): T
      requires Ok?
    {
      value
    }
  }

  /** The outcome of a guard: go on, or revert with the given reason. */
  datatype Check = Pass | Fail(error: Error)
}
