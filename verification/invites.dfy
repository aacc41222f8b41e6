/**
 The invitation manager (`Invite`). Invitations are addressed by an
 appointment id and an invitation id; ids are issued per appointment,
 starting at 1, and never reissued. The standalone manager does not know
 about appointments at all: it will invite to any appointment id, and it
 lets only the named invitee answer an invitation.
 */
module Invites {
  import opened Types

  datatype Status = Pending | Approved | Denied

  /** One invited identity and its answer so far. */
  datatype Invitation = Invitation(invitee: Identity, status: Status)

  /** Where an invitation lives: its appointment and its id within that appointment. */
  datatype Key = Key(appointment: nat, id: nat)

  /** The manager's storage: the invitations, and for each appointment the last
      invitation id issued for it (absent means none yet). */
  datatype Book = Book(records: map<Key, Invitation>, issued: map<nat, nat>)

  /** A freshly deployed manager. */
  const Fresh: Book := Book(map[], map[])

  /** How many invitation ids the appointment has used up; the next one is this plus 1. */
  function Issued(b: Book, a: nat): nat {
    if a in b.issued then b.issued[a] else 0
  }

  /** Every stored invitation carries an id that was issued for its appointment,
      so a newly issued id never lands on an existing record. */
  ghost predicate Valid(b: Book) {
    forall k :: k in b.records ==> 1 <= k.id <= Issued(b, k.appointment)
  }

  /** `invite(a, who)`: one Pending invitation per listed identity (duplicates
      included), with consecutive fresh ids, and one MemberInvited event each,
      in list order. What it does to the stored records is `InviteRecords`. */
  function Invite(b: Book, a: nat, who: seq<Identity>): (r: (Book, seq<Event>))
    ensures Issued(r.0, a) == Issued(b, a) + |who|
    ensures forall a' :: a' != a ==> Issued(r.0, a') == Issued(b, a')
    ensures |r.1| == |who|
    ensures forall i :: 0 <= i < |who| ==> r.1[i] == MemberInvited(a, Issued(b, a) + 1 + i, who[i])
    decreases |who|
  {
    if who == [] then (b, [])
    else
      var r' := Invite(IssueOne(b, a, who[0]), a, who[1..]);
      (r'.0, [MemberInvited(a, Issued(b, a) + 1, who[0])] + r'.1)
  }

  /** After `invite(a, who)`, the i-th newly issued id of `a` holds a Pending
      invitation for `who[i]`. */
  lemma {:induction false} InviteIssues(b: Book, a: nat, who: seq<Identity>, j: nat)
    requires Issued(b, a) < j <= Issued(b, a) + |who|
    ensures Key(a, j) in Invite(b, a, who).0.records
    ensures Invite(b, a, who).0.records[Key(a, j)] == Invitation(who[j - Issued(b, a) - 1], Pending)
    decreases |who|
  {
    var n := Issued(b, a);
    var b1 := IssueOne(b, a, who[0]);
    assert Invite(b, a, who).0 == Invite(b1, a, who[1..]).0;
    if j > n + 1 {
      InviteIssues(b1, a, who[1..], j);
      assert who[1..][j - (n + 1) - 1] == who[j - n - 1];
    } else {
      InviteKeeps(b1, a, who[1..], Key(a, j));
    }
  }

  /** Inviting keeps every record that does not sit on an id it newly issues. */
  lemma {:induction false} InviteKeeps(b: Book, a: nat, who: seq<Identity>, k: Key)
    requires k in b.records && (k.appointment != a || k.id <= Issued(b, a))
    ensures k in Invite(b, a, who).0.records && Invite(b, a, who).0.records[k] == b.records[k]
    decreases |who|
  {
    if who != [] {
      var b1 := IssueOne(b, a, who[0]);
      assert Invite(b, a, who).0 == Invite(b1, a, who[1..]).0;
      InviteKeeps(b1, a, who[1..], k);
    }
  }

  /** Inviting adds records only on the ids it newly issues. */
  lemma {:induction false} InviteAddsOnlyNew(b: Book, a: nat, who: seq<Identity>, k: Key)
    requires k in Invite(b, a, who).0.records
    ensures k in b.records || (k.appointment == a && Issued(b, a) < k.id <= Issued(b, a) + |who|)
    decreases |who|
  {
    if who != [] {
      var b1 := IssueOne(b, a, who[0]);
      assert Invite(b, a, who).0 == Invite(b1, a, who[1..]).0;
      InviteAddsOnlyNew(b1, a, who[1..], k);
    }
  }

  /** Inviting keeps the book well formed: new records sit on newly issued ids. */
  lemma InviteKeepsValid(b: Book, a: nat, who: seq<Identity>)
    requires Valid(b)
    ensures Valid(Invite(b, a, who).0)
  {
    var r := Invite(b, a, who).0;
    forall k | k in r.records
      ensures 1 <= k.id <= Issued(r, k.appointment)
    {
      InviteAddsOnlyNew(b, a, who, k);
    }
  }

  /** Issues the next id of appointment `a` to `x`. */
  function IssueOne(b: Book, a: nat, x: Identity): (r: Book)
    ensures Issued(r, a) == Issued(b, a) + 1
    ensures forall a' :: a' != a ==> Issued(r, a') == Issued(b, a')
    ensures r.records == b.records[Key(a, Issued(b, a) + 1) := Invitation(x, Pending)]
    ensures Valid(b) ==> Valid(r)
  {
    Book(b.records[Key(a, Issued(b, a) + 1) := Invitation(x, Pending)], b.issued[a := Issued(b, a) + 1])
  }

  /** `uninviteMembers(a, id, who)`: the invitation `(a, id)` is withdrawn when it
      exists and its invitee is one of `who`, with one MemberUninvited event;
      otherwise nothing changes and nothing is emitted. Issued ids stay used. */
  function Uninvite(b: Book, a: nat, id: nat, who: seq<Identity>): (r: (Book, seq<Event>))
    ensures r.0.issued == b.issued
    ensures Key(a, id) in r.0.records <==> Key(a, id) in b.records && b.records[Key(a, id)].invitee !in who
    ensures forall k :: k != Key(a, id) ==> (k in r.0.records <==> k in b.records)
    ensures forall k :: k in r.0.records ==> r.0.records[k] == b.records[k]
    ensures r.1 != [] <==> Key(a, id) in b.records && Key(a, id) !in r.0.records
    ensures r.1 != [] ==> r.1 == [MemberUninvited(a, id, b.records[Key(a, id)].invitee)]
    ensures Valid(b) ==> Valid(r.0)
  {
    var k := Key(a, id);
    if k in b.records && b.records[k].invitee in who then
      (b.(records := b.records - {k}), [MemberUninvited(a, id, b.records[k].invitee)])
    else
      (b, [])
  }

  /** Shared body of `approve` and `deny`: only the identity the invitation names
      may answer it, and an invitation that does not exist is "not yours" too. */
  function Answer(b: Book, caller: Identity, a: nat, id: nat, accept: bool): Result<(Book, seq<Event>)> {
    var k := Key(a, id);
    if k !in b.records || b.records[k].invitee != caller then Err(NotInvitee)
    else
      var status := if accept then Approved else Denied;
      var event := if accept then InvitationApproved(a, id, caller) else InvitationDenied(a, id, caller);
      Ok((b.(records := b.records[k := Invitation(caller, status)]), [event]))
  }

  /** `approve(a, id)` by `caller`. An answered invitation may be answered again. */
  function Approve(b: Book, caller: Identity, a: nat, id: nat): (r: Result<(Book, seq<Event>)>)
    ensures r.Ok? <==> Key(a, id) in b.records && b.records[Key(a, id)].invitee == caller
    ensures r.Err? ==> r.error == NotInvitee
    ensures r.Ok? ==> r.value.1 == [InvitationApproved(a, id, caller)]
    ensures r.Ok? ==> Answered(b, r.value.0, Key(a, id), Approved)
  {
    Answer(b, caller, a, id, true)
  }

  /** `deny(a, id)` by `caller`: the mirror image of `approve`. */
  function Deny(b: Book, caller: Identity, a: nat, id: nat): (r: Result<(Book, seq<Event>)>)
    ensures r.Ok? <==> Key(a, id) in b.records && b.records[Key(a, id)].invitee == caller
    ensures r.Err? ==> r.error == NotInvitee
    ensures r.Ok? ==> r.value.1 == [InvitationDenied(a, id, caller)]
    ensures r.Ok? ==> Answered(b, r.value.0, Key(a, id), Denied)
  {
    Answer(b, caller, a, id, false)
  }

  /** `after` is `before` with only the status of invitation `k` set to `s`:
      same keys, same invitee, same issued ids, every other record untouched. */
  ghost predicate Answered(before: Book, after: Book, k: Key, s: Status) {
    && k in before.records
    && after.issued == before.issued
    && after.records.Keys == before.records.Keys
    && after.records[k] == Invitation(before.records[k].invitee, s)
    && forall k' :: k' in before.records && k' != k ==> after.records[k'] == before.records[k']
  }

  /** Deletes every invitation of appointment `a`; used when it is unscheduled. */
  function Drop(b: Book, a: nat): (r: Book)
    ensures r.issued == b.issued
    ensures forall k :: k in r.records <==> k in b.records && k.appointment != a
    ensures forall k :: k in r.records ==> r.records[k] == b.records[k]
    ensures Valid(b) ==> Valid(r)
  {
    b.(records := map k | k in b.records && k.appointment != a :: b.records[k])
  }

  // ---------------------------------------------------------------------------
  // Properties of the workflow

  /** Answering keeps the book well formed. */
  lemma AnswerKeepsValid(b: Book, caller: Identity, a: nat, id: nat, accept: bool)
    requires Valid(b)
    ensures Answer(b, caller, a, id, accept).Ok? ==> Valid(Answer(b, caller, a, id, accept).value.0)
  {
  }

  /** Inviting a single identity stores exactly one new Pending record, on the
      next id of the appointment, and emits one MemberInvited event for it. */
  lemma InviteOne(b: Book, a: nat, x: Identity)
    ensures Invite(b, a, [x]).0.records == b.records[Key(a, Issued(b, a) + 1) := Invitation(x, Pending)]
    ensures Invite(b, a, [x]).1 == [MemberInvited(a, Issued(b, a) + 1, x)]
  {
    assert Invite(b, a, [x]).0 == Invite(IssueOne(b, a, x), a, []).0;
  }

  /** On a freshly deployed manager, inviting one identity to ANY appointment id
      issues invitation 1: the manager does not ask whether the appointment exists. */
  lemma FirstInvitationIsOne(a: nat, x: Identity)
    ensures Invite(Fresh, a, [x]).1 == [MemberInvited(a, 1, x)]
    ensures Invite(Fresh, a, [x]).0.records == map[Key(a, 1) := Invitation(x, Pending)]
  {
    InviteOne(Fresh, a, x);
  }

  /** The invitee of a fresh invitation can approve or deny it, and nobody else
      can: any other caller is refused with NotInvitee. */
  lemma OnlyInviteeAnswers(b: Book, a: nat, x: Identity, y: Identity)
    ensures var b1 := Invite(b, a, [x]).0;
            var id := Issued(b, a) + 1;
            && Approve(b1, x, a, id) == Ok((b1.(records := b1.records[Key(a, id) := Invitation(x, Approved)]), [InvitationApproved(a, id, x)]))
            && Deny(b1, x, a, id) == Ok((b1.(records := b1.records[Key(a, id) := Invitation(x, Denied)]), [InvitationDenied(a, id, x)]))
            && (y != x ==> Approve(b1, y, a, id) == Err(NotInvitee) && Deny(b1, y, a, id) == Err(NotInvitee))
  {
    InviteOne(b, a, x);
  }

  /** Calling with an (appointment, invitation) pair that holds no invitation is
      refused as "not your invitation", whoever calls, e.g. the arguments swapped. */
  lemma MissingInvitationIsNotYours(b: Book, caller: Identity, a: nat, id: nat)
    requires Key(a, id) !in b.records
    ensures Approve(b, caller, a, id) == Err(NotInvitee)
    ensures Deny(b, caller, a, id) == Err(NotInvitee)
  {
  }

  /** The arguments swapped: after inviting to appointment `a` on a fresh
      manager, `approve(1, a)` names a pair that holds no invitation and is
      refused as "not your invitation", even for the invitee. */
  lemma SwappedArgumentsRefused(a: nat, x: Identity, caller: Identity)
    requires a != 1
    ensures Approve(Invite(Fresh, a, [x]).0, caller, 1, a) == Err(NotInvitee)
    ensures Deny(Invite(Fresh, a, [x]).0, caller, 1, a) == Err(NotInvitee)
  {
    InviteOne(Fresh, a, x);
  }

  /** Answering the same way twice changes nothing the second time. */
  lemma AnswerIdempotent(b: Book, caller: Identity, a: nat, id: nat)
    requires Approve(b, caller, a, id).Ok?
    ensures var b1 := Approve(b, caller, a, id).value.0;
            Approve(b1, caller, a, id).Ok? && Approve(b1, caller, a, id).value.0 == b1
  {
  }

  /** Withdrawing a just-issued invitation restores the invitation records
      exactly (the used id stays used). */
  lemma UninviteUndoesInvite(b: Book, a: nat, x: Identity)
    requires Valid(b)
    ensures Uninvite(Invite(b, a, [x]).0, a, Issued(b, a) + 1, [x]).0.records == b.records
    ensures Uninvite(Invite(b, a, [x]).0, a, Issued(b, a) + 1, [x]).1 == [MemberUninvited(a, Issued(b, a) + 1, x)]
  {
    InviteOne(b, a, x);
    var k := Key(a, Issued(b, a) + 1);
    assert k !in b.records;
    var b1 := Invite(b, a, [x]).0;
    assert b1.records[k].invitee in [x];
    assert Uninvite(b1, a, k.id, [x]).0.records == b1.records - {k};
    RemoveAfterAdd(b.records, k, Invitation(x, Pending));
  }

  /** Inviting to an appointment that had no invitations and then dropping
      that appointment's invitations restores the records exactly. */
  lemma DropUndoesInvite(b: Book, a: nat, who: seq<Identity>)
    requires Valid(b) && Issued(b, a) == 0
    ensures Drop(Invite(b, a, who).0, a).records == b.records
  {
    var r := Drop(Invite(b, a, who).0, a);
    forall k | k in r.records
      ensures k in b.records
    {
      InviteAddsOnlyNew(b, a, who, k);
    }
    forall k | k in b.records
      ensures k in r.records && r.records[k] == b.records[k]
    {
      InviteKeeps(b, a, who, k);
    }
  }

  lemma RemoveAfterAdd<K, V>(m: map<K, V>, k: K, v: V)
    requires k !in m
    ensures m[k := v] - {k} == m
  {
  }
}
