/** Short end-to-end runs of the handlers, stated on the store functions. */
module Scenarios {
  import opened Requests
  import opened Ranking
  import opened Submission
  import opened Approval
  import opened Deletion

  /** After clear-all the listing is empty and the next submission gets id 1
      and sort order 1. */
  lemma ClearThenSubmit(form: Form, submittedAt: string, token: string)
    ensures SortByRank([]) == []
    ensures var r := Submitted([], form, submittedAt, token);
            |r| == 1 && r[0].id == 1 && r[0].sortOrder == Some(1) && IsPending(r[0])
  {
  }

  /** Submit one request, approve it, approve it again: the first approval
      moves it to ApprovedPendingIT, the second reports not-found and changes
      nothing. */
  lemma ApproveTwice(form: Form, submittedAt: string, token: string)
    ensures var s1 := Submitted([], form, submittedAt, token);
            var s2 := Act(s1, token, ApprovedPendingIT);
            ActOutcome(s1, token) == Done(1) &&
            s2[0].status == ApprovedPendingIT &&
            ActOutcome(s2, token) == NotFoundOrActioned &&
            Act(s2, token, ApprovedPendingIT) == s2 &&
            Act(s2, token, Disapproved) == s2
  {
    var s1 := Submitted([], form, submittedAt, token);
    assert FindPending(s1, token) == Some(0);
    SecondActionFails(s1, token, ApprovedPendingIT, ApprovedPendingIT);
    SecondActionFails(s1, token, ApprovedPendingIT, Disapproved);
  }

  /** Submit A then B, delete A: only B is left, now with sort order 1. */
  lemma DeleteFirstOfTwo(a: Form, b: Form, submittedAt: string, tokenA: string, tokenB: string)
    ensures var s1 := Submitted([], a, submittedAt, tokenA);
            var s2 := Submitted(s1, b, submittedAt, tokenB);
            var s3 := Deleted(s2, 1);
            |s3| == 1 && s3[0].sortOrder == Some(1) && Unranked(s3[0]) == Unranked(s2[1])
  {
    var s1 := Submitted([], a, submittedAt, tokenA);
    var s2 := Submitted(s1, b, submittedAt, tokenB);
    assert s2[0] == s1[0];
    assert FindById(s2, 1) == Some(0);
    assert RemoveAt(s2, 0) == [s2[1]];
    assert SortByRank([s2[1]]) == [s2[1]];
  }
}
