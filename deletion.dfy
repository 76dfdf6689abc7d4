/** Deleting every activity of the IBKR accounts: the listing of the accounts'
    activities and the delete loop that requests one deletion per activity. */
module Deletion {
  import opened Types
  import opened Records
  import opened Accounts
  import opened DiffEngine

  /** The listed activities of the dictionary's accounts, account by account in
      dictionary order. `listing(j)` is the reply to the listing made for account `j`. */
  function MultiActs(m: seq<(AccountId, string)>, listing: nat -> ListReply): (r: seq<StoredAct>)
    ensures forall s :: s in r <==>
              exists j :: 0 <= j < |m| && s in AllActs(listing(j)) && s.body.accountId == m[j].0
  {
    if m == [] then []
    else
      var n := |m| - 1;
      var prev := MultiActs(m[..n], listing);
      assert forall j :: 0 <= j < n ==> m[..n][j] == m[j];
      prev + ActsForAccount(AllActs(listing(n)), m[n].0)
  }

  /** The activities a deletion removes: those of every dictionary account, or those of
      the single account. */
  function ActsToDelete(res: Resolution, listing: nat -> ListReply): seq<StoredAct> {
    match res
    case Multi(m) => MultiActs(m, listing)
    case Single(id) => ActsForAccount(AllActs(listing(0)), id)
  }

  /** Only activities of the resolved accounts are ever deleted. */
  lemma ActsToDeleteBelongToAccounts(res: Resolution, listing: nat -> ListReply, s: StoredAct)
    requires s in ActsToDelete(res, listing)
    ensures res.Single? ==> s.body.accountId == res.id
    ensures res.Multi? ==> exists j :: 0 <= j < |res.accounts| && s.body.accountId == res.accounts[j].0
  {
  }

  /** The accumulation loop of the dictionary branch: one listing per account, whose
      records of that account extend the list. */
  method ListActs(m: seq<(AccountId, string)>, listing: nat -> ListReply) returns (acts: seq<StoredAct>)
    ensures acts == MultiActs(m, listing)
  {
    acts := [];
    for j := 0 to |m|
      invariant acts == MultiActs(m[..j], listing)
    {
      assert m[..j + 1][..j] == m[..j];
      acts := acts + ActsForAccount(AllActs(listing(j)), m[j].0);
    }
    assert m[..|m|] == m;
  }

  /** The ids of the records, in order. */
  function Ids(acts: seq<StoredAct>): (r: seq<string>)
    ensures |r| == |acts| && forall i :: 0 <= i < |acts| ==> r[i] == acts[i].id
  {
    if acts == [] then [] else [acts[0].id] + Ids(acts[1..])
  }

  /** The delete loop. `reply(i)` answers the deletion of the i-th record; a deletion
      succeeds only on status 200, and a failure does not stop the loop. `requested`
      records the ids whose deletion was requested. */
  method DeleteActs(acts: seq<StoredAct>, reply: nat -> Reply) returns (complete: bool, ghost requested: seq<string>)
    ensures complete <==> forall i :: 0 <= i < |acts| ==> reply(i) == Status(200)
    ensures requested == Ids(acts)
  {
    if |acts| == 0 {
      return true, [];
    }
    complete := true;
    requested := [];
    for i := 0 to |acts|
      invariant requested == Ids(acts)[..i]
      invariant complete <==> forall k :: 0 <= k < i ==> reply(k) == Status(200)
    {
      assert Ids(acts)[..i + 1] == requested + [acts[i].id];
      requested := requested + [acts[i].id];
      var actComplete := reply(i) == Status(200);
      complete := complete && actComplete;
    }
    assert Ids(acts)[..|acts|] == Ids(acts);
  }

  /** What one call of the deletion ends with: an exception when no dictionary of IBKR
      accounts exists (account creation fails), otherwise the completion flag. */
  datatype DeleteOutcome = DeleteRaised | Deleted(complete: bool)

  /** The whole deletion, given the account list, the listing replies and the replies
      to the individual deletions. */
  method DeleteAllActs(accounts: seq<AccountRecord>, listing: nat -> ListReply, reply: nat -> Reply)
    returns (outcome: DeleteOutcome, ghost requested: seq<string>)
    ensures Resolve(accounts) == NeedCreate ==> outcome == DeleteRaised && requested == []
    ensures Resolve(accounts).Resolved? ==>
              var acts := ActsToDelete(Resolve(accounts).resolution, listing);
              && requested == Ids(acts)
              && (outcome == Deleted(true) <==> forall i :: 0 <= i < |acts| ==> reply(i) == Status(200))
              && outcome != DeleteRaised
  {
    var decision := Resolve(accounts);
    if decision.NeedCreate? {
      return DeleteRaised, [];
    }
    var res := decision.resolution;
    // A resolved account list is always a dictionary: the source's branch for a single
    // integer id cannot be reached from here.
    assert res.Multi?;
    var acts := ListActs(res.accounts, listing);
    var complete;
    complete, requested := DeleteActs(acts, reply);
    return Deleted(complete), requested;
  }
}
