/** The diff engine: the structural-equality filter between the activities already in
    the ledger and the new ones, and the filters that scope it to one account. */
module DiffEngine {
  import opened Records

  /** The elements of `candidates`, in order, that do not occur in `existing`. */
  function Diff(existing: seq<Activity>, candidates: seq<Activity>): (r: seq<Activity>)
    ensures forall x :: x in r <==> x in candidates && x !in existing
    ensures |r| <= |candidates|
  {
    if candidates == [] then []
    else (if candidates[0] in existing then [] else [candidates[0]]) + Diff(existing, candidates[1..])
  }

  lemma DiffEmptyIff(existing: seq<Activity>, candidates: seq<Activity>)
    ensures Diff(existing, candidates) == [] <==> forall x :: x in candidates ==> x in existing
  {
    var r := Diff(existing, candidates);
    if r != [] {
      assert r[0] in r;
    }
  }

  lemma DiffOfSelf(xs: seq<Activity>)
    ensures Diff(xs, xs) == []
  {
    DiffEmptyIff(xs, xs);
  }

  lemma {:induction false} DiffDisjoint(existing: seq<Activity>, candidates: seq<Activity>)
    requires forall x :: x in candidates ==> x !in existing
    ensures Diff(existing, candidates) == candidates
  {
    if candidates != [] {
      DiffDisjoint(existing, candidates[1..]);
      assert candidates == [candidates[0]] + candidates[1..];
    }
  }

  lemma DiffFromNothing(candidates: seq<Activity>)
    ensures Diff([], candidates) == candidates
  {
    DiffDisjoint([], candidates);
  }

  lemma {:induction false} DiffAppend(existing: seq<Activity>, a: seq<Activity>, b: seq<Activity>)
    ensures Diff(existing, a + b) == Diff(existing, a) + Diff(existing, b)
  {
    if a == [] {
      assert a + b == b;
    } else {
      assert (a + b)[0] == a[0] && (a + b)[1..] == a[1..] + b;
      DiffAppend(existing, a[1..], b);
    }
  }

  /** Taking the diff a second time against the same ledger changes nothing. */
  lemma DiffIdempotent(existing: seq<Activity>, candidates: seq<Activity>)
    ensures Diff(existing, Diff(existing, candidates)) == Diff(existing, candidates)
  {
    DiffDisjoint(existing, Diff(existing, candidates));
  }

  /** Once the ledger holds what it held before and everything the diff added, the same
      candidates give an empty diff. */
  lemma DiffAfterImport(before: seq<Activity>, after: seq<Activity>, candidates: seq<Activity>)
    requires forall x :: x in before ==> x in after
    requires forall x :: x in Diff(before, candidates) ==> x in after
    ensures Diff(after, candidates) == []
  {
    DiffEmptyIff(after, candidates);
  }

  /** The listed activities that belong to one account. */
  function ActsForAccount(all: seq<StoredAct>, id: AccountId): (r: seq<StoredAct>)
    ensures forall s :: s in r <==> s in all && s.body.accountId == id
    ensures |r| <= |all|
  {
    if all == [] then []
    else (if all[0].body.accountId == id then [all[0]] else []) + ActsForAccount(all[1..], id)
  }

  /** The filter keeps the listing's order and multiplicity. */
  lemma {:induction false} ActsForAccountAppend(a: seq<StoredAct>, b: seq<StoredAct>, id: AccountId)
    ensures ActsForAccount(a + b, id) == ActsForAccount(a, id) + ActsForAccount(b, id)
  {
    if a == [] {
      assert a + b == b;
    } else {
      assert (a + b)[0] == a[0] && (a + b)[1..] == a[1..] + b;
      ActsForAccountAppend(a[1..], b, id);
    }
  }

  /** The activity fields of the listed records. */
  function Bodies(s: seq<StoredAct>): (r: seq<Activity>)
    ensures |r| == |s| && forall i :: 0 <= i < |s| ==> r[i] == s[i].body
  {
    if s == [] then [] else [s[0].body] + Bodies(s[1..])
  }

  lemma BodiesMembership(s: seq<StoredAct>, x: Activity)
    ensures x in Bodies(s) <==> exists t :: t in s && t.body == x
  {
    if exists t :: t in s && t.body == x {
      var t :| t in s && t.body == x;
      var i :| 0 <= i < |s| && s[i] == t;
      assert Bodies(s)[i] == x;
    }
  }

  /** The new activities of one currency bucket. */
  function CurrencyActs(acts: seq<Activity>, currency: string): (r: seq<Activity>)
    ensures forall a :: a in r <==> a in acts && a.currency == currency
    ensures |r| <= |acts|
  {
    if acts == [] then []
    else (if acts[0].currency == currency then [acts[0]] else []) + CurrencyActs(acts[1..], currency)
  }

  /** The bucket keeps the activities' order and multiplicity, which decide the import chunks. */
  lemma {:induction false} CurrencyActsAppend(a: seq<Activity>, b: seq<Activity>, currency: string)
    ensures CurrencyActs(a + b, currency) == CurrencyActs(a, currency) + CurrencyActs(b, currency)
  {
    if a == [] {
      assert a + b == b;
    } else {
      assert (a + b)[0] == a[0] && (a + b)[1..] == a[1..] + b;
      CurrencyActsAppend(a[1..], b, currency);
    }
  }

  /** The platform's reply to the listing of all activities. */
  datatype ListReply = ListStatus(code: int, activities: seq<StoredAct>) | ListTransportError

  /** A failed listing, by status or transport, reads as an empty ledger. */
  function AllActs(reply: ListReply): (r: seq<StoredAct>)
    ensures (reply.ListStatus? && reply.code == 200) ==> r == reply.activities
    ensures !(reply.ListStatus? && reply.code == 200) ==> r == []
  {
    if reply.ListStatus? && reply.code == 200 then reply.activities else []
  }

  /** The diff of one account with the comparison evidently intended: the activity
      fields of its own listed records against the new activities of its currency. */
  function AccountDiff(entry: (AccountId, string), acts: seq<Activity>, reply: ListReply): seq<Activity> {
    Diff(Bodies(ActsForAccount(AllActs(reply), entry.0)), CurrencyActs(acts, entry.1))
  }

  /** An account's diff holds exactly the new activities of its currency that no listed
      record of that same account already holds. */
  lemma AccountDiffMembers(entry: (AccountId, string), acts: seq<Activity>, reply: ListReply)
    ensures forall x :: x in AccountDiff(entry, acts, reply) <==>
              x in acts && x.currency == entry.1
              && !(exists s :: s in AllActs(reply) && s.body == x && s.body.accountId == entry.0)
  {
    var existing := ActsForAccount(AllActs(reply), entry.0);
    forall x ensures x in Bodies(existing) <==> exists s :: s in AllActs(reply) && s.body == x && s.body.accountId == entry.0 {
      BodiesMembership(existing, x);
    }
  }

  /** When the listing fails, the whole bucket is offered again. */
  lemma FailedListingDiffsEverything(entry: (AccountId, string), acts: seq<Activity>, reply: ListReply)
    requires !(reply.ListStatus? && reply.code == 200)
    ensures AccountDiff(entry, acts, reply) == CurrencyActs(acts, entry.1)
  {
    assert Bodies(ActsForAccount(AllActs(reply), entry.0)) == [];
    DiffFromNothing(CurrencyActs(acts, entry.1));
  }

  /** Records of other accounts never influence an account's diff. */
  lemma AccountDiffIgnoresOtherAccounts(entry: (AccountId, string), acts: seq<Activity>, r1: ListReply, r2: ListReply)
    requires forall s :: s in AllActs(r1) && s.body.accountId == entry.0 <==> s in AllActs(r2) && s.body.accountId == entry.0
    ensures AccountDiff(entry, acts, r1) == AccountDiff(entry, acts, r2)
  {
    var l1, l2 := ActsForAccount(AllActs(r1), entry.0), ActsForAccount(AllActs(r2), entry.0);
    forall x ensures x in Bodies(l1) <==> x in Bodies(l2) {
      BodiesMembership(l1, x);
      BodiesMembership(l2, x);
    }
    DiffSameMembers(Bodies(l1), Bodies(l2), CurrencyActs(acts, entry.1));
  }

  lemma {:induction false} DiffSameMembers(e1: seq<Activity>, e2: seq<Activity>, candidates: seq<Activity>)
    requires forall x :: x in e1 <==> x in e2
    ensures Diff(e1, candidates) == Diff(e2, candidates)
  {
    if candidates != [] {
      DiffSameMembers(e1, e2, candidates[1..]);
    }
  }

  /** The keys of a new activity's dictionary. */
  const ActivityKeys: set<string> :=
    {"accountId", "comment", "currency", "dataSource", "date", "fee", "quantity", "symbol", "type", "unitPrice"}

  /** A listed ledger record carries, besides the activity's fields, the id that a
      deletion addresses it by. */
  const RecordKeys: set<string> := ActivityKeys + {"id"}

  /** Python's `==` between a listed record and a new activity's dictionary: the same
      keys, and equal values under every key. */
  predicate DictEqual(s: StoredAct, a: Activity) {
    RecordKeys == ActivityKeys && s.body == a
  }

  /** A listed record never equals a new activity's dictionary: the record has an "id"
      key that the activity does not. */
  lemma RecordNeverEqualsActivity(s: StoredAct, a: Activity)
    ensures !DictEqual(s, a)
  {
    assert "id" in RecordKeys && "id" !in ActivityKeys;
  }

  /** The filter as the per-account loop applies it: the new activities that equal no
      listed record of the account, where listed records are whole records. */
  function DiffAsWritten(listed: seq<StoredAct>, candidates: seq<Activity>): (r: seq<Activity>)
    ensures forall x :: x in r <==> x in candidates && !(exists s :: s in listed && DictEqual(s, x))
  {
    if candidates == [] then []
    else
      (if exists s :: s in listed && DictEqual(s, candidates[0]) then [] else [candidates[0]])
      + DiffAsWritten(listed, candidates[1..])
  }

  /** A record with an id never equals an activity without one, so the filter as written
      lets every candidate through, whatever the ledger holds. */
  lemma {:induction false} DiffAsWrittenKeepsAll(listed: seq<StoredAct>, candidates: seq<Activity>)
    ensures DiffAsWritten(listed, candidates) == candidates
  {
    assert "id" in RecordKeys && "id" !in ActivityKeys;
    if candidates != [] {
      DiffAsWrittenKeepsAll(listed, candidates[1..]);
      assert candidates == [candidates[0]] + candidates[1..];
    }
  }

  /** An account whose ledger already holds an activity gets it offered again by the
      filter as written, and not by the comparison of activity fields. */
  lemma ReimportAsWritten(a: Activity, id: string)
    ensures DiffAsWritten([StoredAct(id, a)], [a]) == [a]
    ensures Diff(Bodies([StoredAct(id, a)]), [a]) == []
  {
    DiffAsWrittenKeepsAll([StoredAct(id, a)], [a]);
    DiffOfSelf([a]);
  }
}
