/** The administrative delete: remove the first record with the id, re-sort the
    rest by rank and renumber them 1..N. */
module Deletion {
  import opened Requests
  import opened Ranking
  import opened Submission
  import opened Approval

  /** The index of the first record with `id`. */
  function FindById(rs: seq<Request>, id: int): (r: Option<nat>)
    ensures r.Some? ==> r.value < |rs| && rs[r.value].id == id
    ensures r.Some? ==> forall j :: 0 <= j < r.value ==> rs[j].id != id
    ensures r.None? ==> forall j :: 0 <= j < |rs| ==> rs[j].id != id
  {
    FindIndex(rs, (x: Request) => x.id == id)
  }

  /** The list without its element at `i` (`splice(i, 1)`). */
  function RemoveAt(rs: seq<Request>, i: nat): (r: seq<Request>)
    requires i < |rs|
    ensures |r| == |rs| - 1
    ensures forall k :: 0 <= k < i ==> r[k] == rs[k]
    ensures forall k :: i <= k < |r| ==> r[k] == rs[k + 1]
    ensures multiset(r) == multiset(rs) - multiset{rs[i]}
  {
    assert rs == rs[..i] + [rs[i]] + rs[i + 1..];
    rs[..i] + rs[i + 1..]
  }

  /** The store after deleting `id`: unchanged when no record has that id;
      otherwise one record fewer, numbered 1..N. */
  function Deleted(rs: seq<Request>, id: int): (r: seq<Request>)
    ensures FindById(rs, id).None? ==> r == rs
    ensures FindById(rs, id).Some? ==> |r| == |rs| - 1 && RanksDense(r)
  {
    match FindById(rs, id)
    case None => rs
    case Some(i) => Renumbered(SortByRank(RemoveAt(rs, i)))
  }

  /** The remaining records are numbered 1..N in their previous rank order:
      the result is the renumbering of a list that holds exactly the records
      left after the removal, sorted by rank, with records of equal rank in
      their stored order. */
  lemma DeleteIsStableRenumbering(rs: seq<Request>, id: int)
    requires FindById(rs, id).Some?
    ensures var rest := RemoveAt(rs, FindById(rs, id).value);
      exists s :: Deleted(rs, id) == Renumbered(s) && SortedByRank(s) && multiset(s) == multiset(rest)
                  && forall v :: WithRank(s, v) == WithRank(rest, v)
  {
    var rest := RemoveAt(rs, FindById(rs, id).value);
    var s := SortByRank(rest);
    SortByRankSorted(rest);
    forall v ensures WithRank(s, v) == WithRank(rest, v) {
      SortByRankStable(rest, v);
    }
  }

  /** Exactly one record goes: apart from their sort orders, the records
      left are those of the store less the deleted one, each as often as
      before. */
  lemma DeleteRemovesExactlyOne(rs: seq<Request>, id: int, i: nat)
    requires FindById(rs, id) == Some(i)
    ensures multiset(Unrankeds(Deleted(rs, id))) == multiset(Unrankeds(RemoveAt(rs, i)))
    ensures multiset(Unrankeds(Deleted(rs, id))) == multiset(Unrankeds(rs)) - multiset{Unranked(rs[i])}
  {
    var rest := RemoveAt(rs, i);
    var s := SortByRank(rest);
    SortByRankKeepsUnranked(rest);
    assert Unrankeds(Renumbered(s)) == Unrankeds(s);
    var u := Unrankeds(rest);
    assert Unrankeds(rs) == u[..i] + [Unranked(rs[i])] + u[i..];
    assert u == u[..i] + u[i..];
  }

  /** Deleting one request does not change whether any other token can still
      act: a token the deleted record does not carry finds a pending record
      after the delete exactly when it found one before. */
  lemma DeletePreservesOtherTokens(rs: seq<Request>, id: int, token: string)
    requires FindById(rs, id).Some?
    requires rs[FindById(rs, id).value].approvalToken != token
    ensures (exists k :: 0 <= k < |Deleted(rs, id)| && Matches(Deleted(rs, id)[k], token))
        <==> (exists j :: 0 <= j < |rs| && Matches(rs[j], token))
  {
    var i := FindById(rs, id).value;
    var r := Deleted(rs, id);
    DeleteRemovesExactlyOne(rs, id, i);
    if j :| 0 <= j < |rs| && Matches(rs[j], token) {
      var x := Unranked(rs[j]);
      assert Unrankeds(rs)[j] == x;
      assert x.approvalToken != Unranked(rs[i]).approvalToken;
      assert x in multiset(Unrankeds(rs));
      assert (multiset(Unrankeds(rs)) - multiset{Unranked(rs[i])})[x] == multiset(Unrankeds(rs))[x];
      assert x in multiset(Unrankeds(r));
      var k :| 0 <= k < |r| && Unrankeds(r)[k] == Unranked(rs[j]);
      assert Matches(r[k], token);
    }
    if k :| 0 <= k < |r| && Matches(r[k], token) {
      assert Unrankeds(r)[k] == Unranked(r[k]);
      assert Unranked(r[k]) in multiset(Unrankeds(r));
      assert Unranked(r[k]) in multiset(Unrankeds(rs));
      var j :| 0 <= j < |rs| && Unrankeds(rs)[j] == Unranked(r[k]);
      assert Matches(rs[j], token);
    }
  }

  /** A delete keeps tokens unique, on any store: the removal only drops a
      record, the sort only reorders, and the renumbering touches no token. */
  lemma DeleteKeepsTokensUnique(rs: seq<Request>, id: int)
    requires TokensUnique(rs)
    ensures TokensUnique(Deleted(rs, id))
  {
    if FindById(rs, id).Some? {
      var i := FindById(rs, id).value;
      var rest := RemoveAt(rs, i);
      assert TokensUnique(rest) by {
        forall a, b | 0 <= a < b < |rest| ensures rest[a].approvalToken != rest[b].approvalToken {
          var a' := if a < i then a else a + 1;
          var b' := if b < i then b else b + 1;
          assert rest[a] == rs[a'] && rest[b] == rs[b'];
        }
      }
      var s := SortByRank(rest);
      SortByRankPermutes(rest);
      PermutationKeepsTokensUnique(rest, s);
      var r := Renumbered(s);
      forall a, b | 0 <= a < b < |r| ensures r[a].approvalToken != r[b].approvalToken {
        assert Unranked(r[a]) == Unranked(s[a]) && Unranked(r[b]) == Unranked(s[b]);
      }
    }
  }

  /** With unique ids, no record with the deleted id remains. */
  lemma DeleteRemovesId(rs: seq<Request>, id: int)
    requires IdsUnique(rs)
    ensures forall k :: 0 <= k < |Deleted(rs, id)| ==> Deleted(rs, id)[k].id != id
  {
    if FindById(rs, id).Some? {
      var i := FindById(rs, id).value;
      var r := Deleted(rs, id);
      var rest := RemoveAt(rs, i);
      DeleteRemovesExactlyOne(rs, id, i);
      forall k | 0 <= k < |r| ensures r[k].id != id {
        assert Unrankeds(r)[k] == Unranked(r[k]);
        assert Unranked(r[k]) in multiset(Unrankeds(rest));
        var j' :| 0 <= j' < |rest| && Unrankeds(rest)[j'] == Unranked(r[k]);
        var j := if j' < i then j' else j' + 1;
        assert r[k].id == rs[j].id;
        if j < i {
          assert rs[j].id != rs[i].id;
        } else {
          assert rs[i].id != rs[j].id;
        }
      }
    }
  }

  /** On a store numbered 1..N with unique ids the delete keeps the remaining
      records in place, renumbers them, and keeps both invariants. */
  lemma DeleteOnValidStore(rs: seq<Request>, id: int)
    requires IdsUnique(rs) && RanksDense(rs)
    ensures FindById(rs, id).Some? ==>
      Deleted(rs, id) == Renumbered(RemoveAt(rs, FindById(rs, id).value))
    ensures IdsUnique(Deleted(rs, id)) && RanksDense(Deleted(rs, id))
  {
    if FindById(rs, id).Some? {
      var i := FindById(rs, id).value;
      var rest := RemoveAt(rs, i);
      assert SortedByRank(rest) by {
        forall a, b | 0 <= a < b < |rest| ensures Rank(rest[a]) <= Rank(rest[b]) {
          var a' := if a < i then a else a + 1;
          var b' := if b < i then b else b + 1;
          assert rest[a] == rs[a'] && rest[b] == rs[b'];
        }
      }
      SortedIsFixed(rest);
      var r := Renumbered(rest);
      forall a, b | 0 <= a < b < |r| ensures r[a].id != r[b].id {
        var a' := if a < i then a else a + 1;
        var b' := if b < i then b else b + 1;
        assert Unranked(r[a]) == Unranked(rs[a']) && Unranked(r[b]) == Unranked(rs[b']);
      }
    }
  }

  /** Every id of `a` is an id of `b` when both hold the same records up to
      sort order. */
  lemma IdsCovered(a: seq<Request>, b: seq<Request>, k: nat)
    requires multiset(Unrankeds(a)) == multiset(Unrankeds(b))
    requires k < |a|
    ensures exists j :: 0 <= j < |b| && b[j].id == a[k].id
  {
    assert Unrankeds(a)[k] in multiset(Unrankeds(a));
    var j :| 0 <= j < |b| && Unrankeds(b)[j] == Unrankeds(a)[k];
    assert b[j].id == a[k].id;
  }

  lemma NextIdAtMost(a: seq<Request>, b: seq<Request>)
    requires multiset(Unrankeds(a)) == multiset(Unrankeds(b))
    ensures NextId(a) <= NextId(b)
  {
    assert |a| == |multiset(Unrankeds(a))| == |multiset(Unrankeds(b))| == |b|;
    if |a| > 0 {
      var k :| 0 <= k < |a| && NextId(a) == a[k].id + 1;
      IdsCovered(a, b, k);
    }
  }

  /** The next id depends only on which records are stored, not on their
      order or sort orders. */
  lemma NextIdOfSameRecords(a: seq<Request>, b: seq<Request>)
    requires multiset(Unrankeds(a)) == multiset(Unrankeds(b))
    ensures NextId(a) == NextId(b)
  {
    NextIdAtMost(a, b);
    NextIdAtMost(b, a);
  }

  /** Ids are recomputed from the current records, so deleting the newest
      request lets the next submission take its id again. */
  lemma DeletingNewestLetsItsIdBeReused(rs: seq<Request>, form: Form, submittedAt: string, token: string)
    ensures var n := NextId(rs);
            NextId(Deleted(Submitted(rs, form, submittedAt, token), n)) == n
  {
    var n := NextId(rs);
    var s1 := Submitted(rs, form, submittedAt, token);
    forall j | 0 <= j < |rs| ensures s1[j] == rs[j] {
      assert s1[j] == s1[..|rs|][j];
    }
    assert FindById(s1, n) == Some(|rs|);
    DeleteRemovesExactlyOne(s1, n, |rs|);
    assert RemoveAt(s1, |rs|) == rs;
    NextIdOfSameRecords(Deleted(s1, n), rs);
  }
}
