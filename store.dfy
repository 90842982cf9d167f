/** The request list the route handlers read and rewrite, as an object whose
    methods are the handlers' effects on it. */
module Store {
  import opened Requests
  import opened Ranking
  import opened Submission
  import opened Approval
  import opened Deletion
  import opened Recipients

  class RequestStore {
    var requests: seq<Request>

    /** What every handler keeps: unique ids and sort orders 1..N in list
        order. */
    ghost predicate Valid()
      reads this
    {
      IdsUnique(requests) && RanksDense(requests)
    }

    /** The store the handlers see before anything has been written. */
    constructor ()
      ensures requests == [] && Valid()
    {
      requests := [];
    }

    /** Appends the submitted request and returns it with the manager to be
        mailed its approve and disapprove links. */
    method Submit(form: Form, submittedAt: string, token: string, env: Env)
      returns (created: Request, recipient: string)
      modifies this
      ensures requests == Submitted(old(requests), form, submittedAt, token)
      ensures created == requests[|requests| - 1]
      ensures recipient == ManagerRecipient(env, form.department)
      ensures form.department != "FN_dep" ==> recipient == ManagerRecipientAsWritten(env, form.department)
      ensures old(Valid()) ==> Valid()
      ensures old(TokensUnique(requests)) && (forall k :: 0 <= k < |old(requests)| ==> old(requests)[k].approvalToken != token)
              ==> TokensUnique(requests)
    {
      SwitchIsTableExceptFN(env, form.department);
      if TokensUnique(requests) && forall k :: 0 <= k < |requests| ==> requests[k].approvalToken != token {
        SubmitPreservesTokensUnique(requests, form, submittedAt, token);
      }
      ghost var wasValid := Valid();
      if wasValid {
        SubmitPreservesInvariant(requests, form, submittedAt, token);
      }
      created := NewRequest(requests, form, submittedAt, token);
      requests := requests + [created];
      recipient := ManagerRecipient(env, form.department);
    }

    /** The status page's listing: the records ordered by rank, ties in
        stored order; on a valid store, the store itself. */
    method Status() returns (listing: seq<Request>)
      ensures listing == SortByRank(requests)
      ensures SortedByRank(listing) && multiset(listing) == multiset(requests)
      ensures forall v :: WithRank(listing, v) == WithRank(requests, v)
      ensures Valid() ==> listing == requests
    {
      listing := SortByRank(requests);
      SortByRankSorted(requests);
      forall v ensures WithRank(listing, v) == WithRank(requests, v) {
        SortByRankStable(requests, v);
      }
      if RanksDense(requests) {
        DenseIsSorted(requests);
        SortedIsFixed(requests);
      }
    }

    /** The approve link: moves the first pending request with the token to
        ApprovedPendingIT and then mails IT; otherwise nothing changes and the
        outcome is not-found. */
    method Approve(token: string, env: Env) returns (outcome: Outcome, notified: Option<string>)
      modifies this
      ensures requests == Act(old(requests), token, ApprovedPendingIT)
      ensures outcome == ActOutcome(old(requests), token)
      ensures notified == (if outcome.Done? then Some(ITRecipient(env)) else None)
      ensures old(Valid()) ==> Valid()
      ensures old(TokensUnique(requests)) ==> TokensUnique(requests)
    {
      ActPreservesInvariants(requests, token, ApprovedPendingIT);
      var found := FindPending(requests, token);
      if found.None? {
        outcome, notified := NotFoundOrActioned, None;
        return;
      }
      var i := found.value;
      requests := requests[i := requests[i].(status := ApprovedPendingIT)];
      outcome := Done(requests[i].id);
      notified := Some(ITRecipient(env));
    }

    /** The disapprove link: moves the first pending request with the token
        to Disapproved; otherwise nothing changes and the outcome is
        not-found. Nobody is mailed. */
    method Disapprove(token: string) returns (outcome: Outcome)
      modifies this
      ensures requests == Act(old(requests), token, Disapproved)
      ensures outcome == ActOutcome(old(requests), token)
      ensures old(Valid()) ==> Valid()
      ensures old(TokensUnique(requests)) ==> TokensUnique(requests)
    {
      ActPreservesInvariants(requests, token, Disapproved);
      var found := FindPending(requests, token);
      if found.None? {
        outcome := NotFoundOrActioned;
        return;
      }
      var i := found.value;
      requests := requests[i := requests[i].(status := Disapproved)];
      outcome := Done(requests[i].id);
    }

    /** The admin delete: removes the first record with the id, sorts the
        rest by rank and rewrites each sort order to its position plus one. */
    method Delete(id: int)
      modifies this
      ensures requests == Deleted(old(requests), id)
      ensures old(Valid()) ==> Valid()
      ensures old(TokensUnique(requests)) ==> TokensUnique(requests)
    {
      ghost var before := requests;
      if TokensUnique(before) {
        DeleteKeepsTokensUnique(before, id);
      }
      ghost var wasValid := Valid();
      if wasValid {
        DeleteOnValidStore(before, id);
      }
      var found := FindById(requests, id);
      if found.None? {
        assert Deleted(before, id) == before;
        return;
      }
      ghost var i := found.value;
      assert Deleted(before, id) == Renumbered(SortByRank(RemoveAt(before, i)));
      requests := RemoveAt(requests, found.value);
      requests := SortByRank(requests);
      Renumber();
    }

    /** The renumbering pass after a delete: each record's sort order becomes
        its position plus one. */
    method Renumber()
      modifies this
      ensures requests == Renumbered(old(requests))
    {
      var k := 0;
      while k < |requests|
        invariant 0 <= k <= |requests| == |old(requests)|
        invariant forall j :: 0 <= j < k ==> requests[j] == old(requests)[j].(sortOrder := Some(j + 1))
        invariant forall j :: k <= j < |requests| ==> requests[j] == old(requests)[j]
      {
        requests := requests[k := requests[k].(sortOrder := Some(k + 1))];
        k := k + 1;
      }
    }

    /** The admin clear: an empty store. */
    method ClearAll()
      modifies this
      ensures requests == [] && Valid()
    {
      requests := [];
    }
  }
}
