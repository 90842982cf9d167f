/** The record the submit handler appends: its id and sort order computed from
    the current maxima, the form's fields, a pending status and the caller's
    token. */
module Submission {
  import opened Requests
  import opened Ranking

  function Ids(rs: seq<Request>): (r: seq<int>)
    ensures |r| == |rs| && forall k :: 0 <= k < |rs| ==> r[k] == rs[k].id
  {
    seq(|rs|, k requires 0 <= k < |rs| => rs[k].id)
  }

  /** The id of a newly submitted request: one more than the largest id
      currently stored, and 1 in an empty store. It differs from every stored
      id, but only from the ids stored now. */
  function NextId(rs: seq<Request>): (n: int)
    ensures |rs| == 0 ==> n == 1
    ensures forall k :: 0 <= k < |rs| ==> rs[k].id < n
    ensures |rs| > 0 ==> exists k :: 0 <= k < |rs| && n == rs[k].id + 1
  {
    if |rs| > 0 then Max(Ids(rs)) + 1 else 1
  }

  /** `field || ''` */
  function OrEmpty(v: Option<string>): string {
    match v
    case Some(s) => s
    case None => ""
  }

  function NewRequest(rs: seq<Request>, form: Form, submittedAt: string, token: string): Request {
    Request(
      NextId(rs), Some(NextSortOrder(rs)), submittedAt,
      form.name, form.phone, form.department, form.position, form.serviceType, form.details,
      OrEmpty(form.assetID), OrEmpty(form.softwareName), OrEmpty(form.otherTopic),
      PendingManagerApproval, token)
  }

  /** The store after a submission: the old records, untouched, followed by
      one new pending record that carries the form, the timestamp and the
      token, an id fresh among the stored ones and a rank above all of them. */
  function Submitted(rs: seq<Request>, form: Form, submittedAt: string, token: string): (r: seq<Request>)
    ensures |r| == |rs| + 1 && r[..|rs|] == rs
    ensures r[|rs|].status == PendingManagerApproval && r[|rs|].approvalToken == token
    ensures r[|rs|].submittedAt == submittedAt
    ensures r[|rs|].requesterName == form.name && r[|rs|].requesterPhone == form.phone
    ensures r[|rs|].department == form.department && r[|rs|].position == form.position
    ensures r[|rs|].serviceType == form.serviceType && r[|rs|].details == form.details
    ensures r[|rs|].assetID == (if form.assetID.Some? then form.assetID.value else "")
    ensures r[|rs|].softwareName == (if form.softwareName.Some? then form.softwareName.value else "")
    ensures r[|rs|].otherTopic == (if form.otherTopic.Some? then form.otherTopic.value else "")
    ensures r[|rs|].id == NextId(rs) && forall k :: 0 <= k < |rs| ==> rs[k].id != r[|rs|].id
    ensures r[|rs|].sortOrder == Some(NextSortOrder(rs))
    ensures forall k :: 0 <= k < |rs| ==> Rank(rs[k]) < Rank(r[|rs|])
  {
    rs + [NewRequest(rs, form, submittedAt, token)]
  }

  /** In a store numbered 1..N the new request gets sort order N+1. */
  lemma NextSortOrderOfDense(rs: seq<Request>)
    requires RanksDense(rs)
    ensures NextSortOrder(rs) == |rs| + 1
  {
    if |rs| > 0 {
      assert Rank(rs[|rs| - 1]) == |rs|;
    }
  }

  /** Submission keeps ids unique and the store numbered 1..N. */
  lemma SubmitPreservesInvariant(rs: seq<Request>, form: Form, submittedAt: string, token: string)
    requires IdsUnique(rs) && RanksDense(rs)
    ensures IdsUnique(Submitted(rs, form, submittedAt, token))
    ensures RanksDense(Submitted(rs, form, submittedAt, token))
  {
    NextSortOrderOfDense(rs);
    var r := Submitted(rs, form, submittedAt, token);
    forall k | 0 <= k < |r| ensures r[k].sortOrder == Some(k + 1) {
      if k < |rs| {
        assert r[k] == r[..|rs|][k];
      }
    }
  }

  /** A token new to the store keeps tokens unique. */
  lemma SubmitPreservesTokensUnique(rs: seq<Request>, form: Form, submittedAt: string, token: string)
    requires TokensUnique(rs)
    requires forall k :: 0 <= k < |rs| ==> rs[k].approvalToken != token
    ensures TokensUnique(Submitted(rs, form, submittedAt, token))
  {
    var r := Submitted(rs, form, submittedAt, token);
    forall k | 0 <= k < |rs| ensures r[k] == rs[k] {
      assert r[k] == r[..|rs|][k];
    }
  }
}
