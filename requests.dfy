/** The request record of the IT service-request workflow, the form a
    requester submits, and the predicates the store operations are stated in. */
module Requests {

  datatype Option<+T> = None | Some(value: T)

  /** The three statuses a request passes through. The store writes them as
      the strings StatusText gives. */
  datatype Status = PendingManagerApproval | ApprovedPendingIT | Disapproved

  function StatusText(s: Status): string {
    match s
    case PendingManagerApproval => "Pending Manager Approval"
    case ApprovedPendingIT => "Approved, Pending IT"
    case Disapproved => "Disapproved"
  }

  /** The stored strings tell the statuses apart, so comparing a record's
      status string with 'Pending Manager Approval', as both handlers do, is
      the same as asking whether it is pending. */
  lemma StatusTextDistinguishes(a: Status, b: Status, r: Request)
    ensures StatusText(a) == StatusText(b) <==> a == b
    ensures IsPending(r) <==> StatusText(r.status) == "Pending Manager Approval"
  {
  }

  /** The fields of the submission form; the last three may be absent. */
  datatype Form = Form(
    name: string,
    phone: string,
    department: string,
    position: string,
    serviceType: string,
    details: string,
    assetID: Option<string>,
    softwareName: Option<string>,
    otherTopic: Option<string>)

  /** One stored request. `sortOrder` is optional because the ordering code
      reads a missing value as 0. */
  datatype Request = Request(
    id: int,
    sortOrder: Option<int>,
    submittedAt: string,
    requesterName: string,
    requesterPhone: string,
    department: string,
    position: string,
    serviceType: string,
    details: string,
    assetID: string,
    softwareName: string,
    otherTopic: string,
    status: Status,
    approvalToken: string)

  /** The value a record is ordered by: its sort order, 0 when missing. */
  function Rank(r: Request): int {
    match r.sortOrder
    case None => 0
    case Some(v) => v
  }

  /** The record with its sort order erased: every other field. */
  function Unranked(r: Request): Request {
    r.(sortOrder := None)
  }

  /** Every record of the list with its sort order erased. */
  function Unrankeds(s: seq<Request>): (r: seq<Request>)
    ensures |r| == |s| && forall k :: 0 <= k < |s| ==> r[k] == Unranked(s[k])
  {
    seq(|s|, k requires 0 <= k < |s| => Unranked(s[k]))
  }

  predicate IsPending(r: Request) {
    r.status == PendingManagerApproval
  }

  /** The index of the first record satisfying `p`, or None. */
  function FindIndex(rs: seq<Request>, p: Request -> bool): (r: Option<nat>)
    ensures r.Some? ==> r.value < |rs| && p(rs[r.value])
    ensures r.Some? ==> forall j :: 0 <= j < r.value ==> !p(rs[j])
    ensures r.None? ==> forall j :: 0 <= j < |rs| ==> !p(rs[j])
  {
    if rs == [] then None
    else if p(rs[0]) then Some(0)
    else match FindIndex(rs[1..], p)
      case None => None
      case Some(i) => Some(i + 1)
  }

  /** With unique tokens no record occurs twice. */
  lemma {:induction false} TokensUniqueNoRepeats(a: seq<Request>)
    requires TokensUnique(a)
    ensures forall x :: multiset(a)[x] <= 1
  {
    if a != [] {
      var t := a[1..];
      assert TokensUnique(t) by {
        forall i, j | 0 <= i < j < |t| ensures t[i].approvalToken != t[j].approvalToken {
          assert t[i] == a[i + 1] && t[j] == a[j + 1];
        }
      }
      TokensUniqueNoRepeats(t);
      assert a[0] !in t by {
        forall k | 0 <= k < |t| ensures t[k] != a[0] {
          assert t[k] == a[k + 1];
        }
      }
      assert a == [a[0]] + t;
    }
  }

  /** In a list where no record occurs twice, two positions hold two
      different records. */
  lemma NoRepeatsDistinct(b: seq<Request>, i: nat, j: nat)
    requires forall x :: multiset(b)[x] <= 1
    requires i < j < |b|
    ensures b[i] != b[j]
  {
    assert b == b[..j] + [b[j]] + b[j + 1..];
    assert b[i] == b[..j][i];
    assert multiset(b)[b[i]] >= multiset(b[..j])[b[i]] + multiset{b[j]}[b[i]];
  }

  /** Token uniqueness depends only on which records are stored, not on
      their order. */
  lemma PermutationKeepsTokensUnique(a: seq<Request>, b: seq<Request>)
    requires multiset(a) == multiset(b)
    requires TokensUnique(a)
    ensures TokensUnique(b)
  {
    TokensUniqueNoRepeats(a);
    forall i, j | 0 <= i < j < |b| ensures b[i].approvalToken != b[j].approvalToken {
      NoRepeatsDistinct(b, i, j);
      assert b[i] in multiset(a) && b[j] in multiset(a);
      var p :| 0 <= p < |a| && a[p] == b[i];
      var q :| 0 <= q < |a| && a[q] == b[j];
      if p < q {
        assert a[p].approvalToken != a[q].approvalToken;
      } else if q < p {
        assert a[q].approvalToken != a[p].approvalToken;
      }
    }
  }

  predicate IdsUnique(rs: seq<Request>) {
    forall i, j :: 0 <= i < j < |rs| ==> rs[i].id != rs[j].id
  }

  predicate TokensUnique(rs: seq<Request>) {
    forall i, j :: 0 <= i < j < |rs| ==> rs[i].approvalToken != rs[j].approvalToken
  }

  /** The renumbering invariant: the record at position k has sort order k+1. */
  predicate RanksDense(rs: seq<Request>) {
    forall k :: 0 <= k < |rs| ==> rs[k].sortOrder == Some(k + 1)
  }
}
