/** The transfers page: pending transfer offers the user approves or
    rejects, and a list of recent transfers shown as they are. Either
    decision only removes the offer from the pending list. */
module Transfers {
  import opened Wrappers
  import opened Seqs

  datatype TransferStatus = Pending | Approved | Rejected

  datatype Transfer = Transfer(
    id: string,
    fromUser: string,
    toUser: string,
    player: string,
    position: string,
    points: int,
    timestamp: string,
    status: TransferStatus)

  datatype TransferPage = TransferPage(pending: seq<Transfer>, recent: seq<Transfer>)

  /** The two buttons; they differ only in the toast they show. */
  datatype Decision = Approve | Reject

  function OtherId(id: string): Transfer -> bool {
    (t: Transfer) => t.id != id
  }

  /** `handleApproveTransfer` / `handleRejectTransfer`: every pending
      transfer with the id leaves the list, the rest keep their order, and
      the recent list is not touched. */
  function Decide(page: TransferPage, d: Decision, transferId: string): (r: TransferPage)
    ensures r.recent == page.recent
    ensures forall i :: 0 <= i < |r.pending| ==> r.pending[i].id != transferId && r.pending[i] in page.pending
    ensures forall i :: 0 <= i < |page.pending| && page.pending[i].id != transferId ==> page.pending[i] in r.pending
    ensures IsSubsequence(r.pending, page.pending)
  {
    FilterSubsequence(page.pending, OtherId(transferId));
    match d
    case Approve => TransferPage(Filter(page.pending, OtherId(transferId)), page.recent)
    case Reject => TransferPage(Filter(page.pending, OtherId(transferId)), page.recent)
  }

  /** Approving and rejecting leave the same page behind. */
  lemma ApproveSameAsReject(page: TransferPage, transferId: string)
    ensures Decide(page, Approve, transferId) == Decide(page, Reject, transferId)
  {
  }

  /** An id with no pending transfer leaves the page unchanged. */
  lemma UnknownIdUnchanged(page: TransferPage, d: Decision, transferId: string)
    requires forall i :: 0 <= i < |page.pending| ==> page.pending[i].id != transferId
    ensures Decide(page, d, transferId) == page
  {
    FilterKeepsAll(page.pending, OtherId(transferId));
  }

  /** Deciding twice on the same id is deciding once, whichever buttons. */
  lemma DecideIdempotent(page: TransferPage, d1: Decision, d2: Decision, transferId: string)
    ensures Decide(Decide(page, d1, transferId), d2, transferId) == Decide(page, d1, transferId)
  {
    FilterIdempotent(page.pending, OtherId(transferId));
  }

  /** The list shrinks by exactly the number of pending transfers with the id. */
  lemma DecideRemovesExactly(page: TransferPage, d: Decision, transferId: string)
    ensures |Decide(page, d, transferId).pending| + Count(page.pending, Not(OtherId(transferId))) == |page.pending|
  {
    FilterSplit(page.pending, OtherId(transferId));
  }

  /** Decisions on two transfers can be taken in either order. */
  lemma DecisionsCommute(page: TransferPage, d1: Decision, id1: string, d2: Decision, id2: string)
    ensures Decide(Decide(page, d1, id1), d2, id2) == Decide(Decide(page, d2, id2), d1, id1)
  {
    FilterCommute(page.pending, OtherId(id1), OtherId(id2));
  }
}
