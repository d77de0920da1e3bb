/** One row of the pending transaction list
    (components/PendingTransactionRow.tsx): the approvals counted toward the
    threshold, whether the threshold is met, and the row's label and badges. */
module PendingTransactionRow {
  import opened Base

  /** The parts of a pending multisig transaction the row reads. `payload`
      is `None` for a transaction stored only by its hash. */
  datatype PendingTransaction = PendingTransaction(approvals: seq<string>, payload: Option<string>)

  /** `owners.some(owner => from(owner).equals(from(approval)))`; an owner
      list that has not loaded yet matches nothing. */
  function IsOwnerVote(owners: Option<seq<string>>, lib: AddressLib): string -> bool {
    (approval: string) => owners.Some? && exists i :: 0 <= i < |owners.value| && lib.from(owners.value[i]) == lib.from(approval)
  }

  /** `votesByOwners`: the approvals cast by current owners, in order, each
      approval as often as it occurs. */
  function VotesByOwners(approvals: seq<string>, owners: Option<seq<string>>, lib: AddressLib): (r: seq<string>)
    ensures owners.None? ==> r == []
    ensures forall a :: a in r <==>
      a in approvals && owners.Some? && exists i :: 0 <= i < |owners.value| && lib.from(owners.value[i]) == lib.from(a)
    ensures forall a :: a in approvals ==> multiset(r)[a] == if IsOwnerVote(owners, lib)(a) then multiset(approvals)[a] else 0
  {
    if owners.None? then [] else Filter(approvals, IsOwnerVote(owners, lib))
  }

  /** The owners are compared as account addresses: two owner lists naming
      the same accounts, in any order or spelling, count the same votes. */
  lemma SameOwnersSameVotes(approvals: seq<string>, o1: seq<string>, o2: seq<string>, lib: AddressLib)
    requires forall x :: x in o1 ==> exists y :: y in o2 && lib.from(y) == lib.from(x)
    requires forall y :: y in o2 ==> exists x :: x in o1 && lib.from(x) == lib.from(y)
    ensures VotesByOwners(approvals, Some(o1), lib) == VotesByOwners(approvals, Some(o2), lib)
  {
    var p1 := IsOwnerVote(Some(o1), lib);
    var p2 := IsOwnerVote(Some(o2), lib);
    forall a
      ensures p1(a) == p2(a)
    {
      if p1(a) {
        OwnerVoteTransfers(a, o1, o2, lib);
      }
      if p2(a) {
        OwnerVoteTransfers(a, o2, o1, lib);
      }
    }
    FilterSamePredicate(approvals, p1, p2);
  }

  lemma OwnerVoteTransfers(a: string, o1: seq<string>, o2: seq<string>, lib: AddressLib)
    requires forall x :: x in o1 ==> exists y :: y in o2 && lib.from(y) == lib.from(x)
    requires IsOwnerVote(Some(o1), lib)(a)
    ensures IsOwnerVote(Some(o2), lib)(a)
  {
    var i :| 0 <= i < |o1| && lib.from(o1[i]) == lib.from(a);
    assert o1[i] in o1;
    var y :| y in o2 && lib.from(y) == lib.from(o1[i]);
    var j :| 0 <= j < |o2| && o2[j] == y;
  }

  /** When every approver is an owner, every approval counts. */
  lemma AllOwnersAllCount(approvals: seq<string>, owners: seq<string>, lib: AddressLib)
    requires forall a :: a in approvals ==> a in owners
    ensures VotesByOwners(approvals, Some(owners), lib) == approvals
  {
    forall a | a in approvals
      ensures IsOwnerVote(Some(owners), lib)(a)
    {
      var i :| 0 <= i < |owners| && owners[i] == a;
    }
    FilterAll(approvals, IsOwnerVote(Some(owners), lib));
  }

  /** `votesByOwners.length >= Number(signaturesRequired)`: with the
      threshold not loaded the comparison is with NaN and fails. */
  function HasEnoughApprovals(votes: nat, signaturesRequired: Option<int>): (r: bool)
    ensures r <==> signaturesRequired.Some? && votes >= signaturesRequired.value
  {
    match signaturesRequired
    case None => false
    case Some(n) => votes >= n
  }

  /** More owner votes never lose a met threshold. */
  lemma MoreVotesStillEnough(v1: nat, v2: nat, signaturesRequired: Option<int>)
    requires v1 <= v2 && HasEnoughApprovals(v1, signaturesRequired)
    ensures HasEnoughApprovals(v2, signaturesRequired)
  {
  }

  const HashedLabel := "Hashed Transaction"
  const UnsupportedLabel := "Unsupported Transaction"

  /** The row's title. `decode` is the payload deserializer, answering the
      entry function's identifier or `None` when it cannot decode;
      `displayName` is `getEntryFunctionDisplayName`. */
  function Label(payload: Option<string>, decode: string -> Option<string>, displayName: string -> string): (r: string)
    ensures payload.None? ==> r == HashedLabel
    ensures payload.Some? && payload.value != "" && decode(payload.value).Some? ==> r == displayName(decode(payload.value).value)
    ensures payload == Some("") ==> r == UnsupportedLabel
    ensures payload.Some? && decode(payload.value).None? ==> r == UnsupportedLabel
  {
    if payload.None? then HashedLabel
    else
      var decoded := if payload.value == "" then None else decode(payload.value);
      match decoded
      case Some(entryFunction) => displayName(entryFunction)
      case None => UnsupportedLabel
  }

  /** The `signaturesRequired && <Badge …>` slot. A threshold of zero is
      falsy, so React renders the number itself instead of the badge. */
  datatype ApprovalsBadge = NoBadge | ZeroText | Badge(success: bool, votes: nat, required: int)

  function ApprovalsBadgeFor(votes: nat, signaturesRequired: Option<int>): (r: ApprovalsBadge)
    ensures signaturesRequired.None? <==> r.NoBadge?
    ensures signaturesRequired == Some(0) <==> r.ZeroText?
    ensures r.Badge? ==> r.votes == votes && Some(r.required) == signaturesRequired
    ensures r.Badge? ==> (r.success <==> votes >= r.required)
  {
    match signaturesRequired
    case None => NoBadge
    case Some(n) => if n == 0 then ZeroText else Badge(HasEnoughApprovals(votes, signaturesRequired), votes, n)
  }

  /** What the row shows. */
  datatype RowView = RowView(title: string, next: bool, sequenceNumber: Option<int>, approvals: ApprovalsBadge)

  function Render(t: PendingTransaction, sequenceNumber: int, isNext: bool, showSequenceNumber: bool,
                  owners: Option<seq<string>>, signaturesRequired: Option<int>, lib: AddressLib,
                  decode: string -> Option<string>, displayName: string -> string): (r: RowView)
    ensures r.title == Label(t.payload, decode, displayName)
    ensures r.next == isNext
    ensures r.sequenceNumber.Some? <==> showSequenceNumber
    ensures r.sequenceNumber.Some? ==> r.sequenceNumber.value == sequenceNumber
    ensures r.approvals == ApprovalsBadgeFor(|VotesByOwners(t.approvals, owners, lib)|, signaturesRequired)
    ensures r.approvals.Badge? ==> r.approvals.votes <= |t.approvals|
    ensures r.approvals.Badge? ==> r.approvals.votes == |VotesByOwners(t.approvals, owners, lib)|
  {
    var votes := VotesByOwners(t.approvals, owners, lib);
    RowView(Label(t.payload, decode, displayName), isNext,
            if showSequenceNumber then Some(sequenceNumber) else None,
            ApprovalsBadgeFor(|votes|, signaturesRequired))
  }
}
