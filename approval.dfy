/** The token-gated approval state machine. A request leaves
    PendingManagerApproval once, to ApprovedPendingIT or to Disapproved, and
    neither of those is ever left again. */
module Approval {
  import opened Requests

  /** What the approve and disapprove handlers report: the id of the request
      they moved, or the single "not found or already actioned" outcome that
      does not tell an unknown token from a spent one. */
  datatype Outcome = Done(id: int) | NotFoundOrActioned

  /** What both handlers look for: the token, on a record still pending. */
  predicate Matches(r: Request, token: string) {
    r.approvalToken == token && IsPending(r)
  }

  /** The first pending record carrying `token`. */
  function FindPending(rs: seq<Request>, token: string): (r: Option<nat>)
    ensures r.Some? ==> r.value < |rs| && Matches(rs[r.value], token)
    ensures r.Some? ==> forall j :: 0 <= j < r.value ==> !Matches(rs[j], token)
    ensures r.None? ==> forall j :: 0 <= j < |rs| ==> !Matches(rs[j], token)
  {
    FindIndex(rs, (x: Request) => Matches(x, token))
  }

  /** The store after an approve (`target == ApprovedPendingIT`) or a
      disapprove (`target == Disapproved`) with `token`: the first pending
      record with that token gets the target status and nothing else changes;
      without such a record the store is as it was. */
  function Act(rs: seq<Request>, token: string, target: Status): (r: seq<Request>)
    ensures |r| == |rs|
    ensures FindPending(rs, token).None? ==> r == rs
    ensures FindPending(rs, token).Some? ==>
      var i := FindPending(rs, token).value;
      r[i] == rs[i].(status := target) && forall j :: 0 <= j < |rs| && j != i ==> r[j] == rs[j]
  {
    match FindPending(rs, token)
    case None => rs
    case Some(i) => rs[i := rs[i].(status := target)]
  }

  /** The handlers' report: the id of the record acted on, or not-found when
      no pending record carries the token. The id is that of the first
      pending record with the token, the one `Act` changes. */
  function ActOutcome(rs: seq<Request>, token: string): (o: Outcome)
    ensures o.Done? <==> exists j :: 0 <= j < |rs| && Matches(rs[j], token)
    ensures o.Done? <==> FindPending(rs, token).Some?
    ensures o.Done? ==> o.id == rs[FindPending(rs, token).value].id
  {
    match FindPending(rs, token)
    case None => NotFoundOrActioned
    case Some(i) => Done(rs[i].id)
  }

  /** A record can only move from pending to the target status; a record
      that is not pending is never changed. */
  lemma ActMovesOnlyPending(rs: seq<Request>, token: string, target: Status, j: nat)
    requires j < |rs|
    ensures Act(rs, token, target)[j] == rs[j]
         || (IsPending(rs[j]) && rs[j].approvalToken == token
             && Act(rs, token, target)[j] == rs[j].(status := target))
    ensures !IsPending(rs[j]) ==> Act(rs, token, target)[j] == rs[j]
  {
  }

  /** At most one transition per request: once a request is acted on, no
      later approve or disapprove, with any token, changes it again. */
  lemma {:induction false} ActedRecordIsFinal(rs: seq<Request>, token: string, target: Status,
                                           token2: string, target2: Status)
    requires target != PendingManagerApproval
    requires FindPending(rs, token).Some?
    ensures var i := FindPending(rs, token).value;
            var r := Act(rs, token, target);
            r[i].status == target &&
            Act(r, token2, target2)[i] == r[i]
  {
    var i := FindPending(rs, token).value;
    ActMovesOnlyPending(Act(rs, token, target), token2, target2, i);
  }

  /** With unique tokens, a second approve or disapprove with a token already
      used reports not-found and leaves the store as the first one left it. */
  lemma SecondActionFails(rs: seq<Request>, token: string, target: Status, target2: Status)
    requires TokensUnique(rs)
    requires target != PendingManagerApproval
    requires FindPending(rs, token).Some?
    ensures ActOutcome(Act(rs, token, target), token) == NotFoundOrActioned
    ensures Act(Act(rs, token, target), token, target2) == Act(rs, token, target)
  {
    var i := FindPending(rs, token).value;
    var r := Act(rs, token, target);
    forall j | 0 <= j < |r| ensures !Matches(r[j], token) {
      if j != i {
        if j < i {
          assert rs[j].approvalToken != rs[i].approvalToken;
        } else {
          assert rs[i].approvalToken != rs[j].approvalToken;
        }
      }
    }
  }

  /** Acting changes only a status, so ids, ranks and tokens keep their
      invariants. */
  lemma ActPreservesInvariants(rs: seq<Request>, token: string, target: Status)
    ensures IdsUnique(rs) ==> IdsUnique(Act(rs, token, target))
    ensures RanksDense(rs) ==> RanksDense(Act(rs, token, target))
    ensures TokensUnique(rs) ==> TokensUnique(Act(rs, token, target))
  {
    var r := Act(rs, token, target);
    assert forall j :: 0 <= j < |rs| ==>
      r[j].id == rs[j].id && r[j].sortOrder == rs[j].sortOrder && r[j].approvalToken == rs[j].approvalToken;
  }
}
