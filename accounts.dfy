/** Account resolution: the id-to-currency dictionary of the accounts named "IBKR",
    the decision what to do with it, and the lookup of the account for a currency. */
module Accounts {
  import opened Types
  import opened Records

  /** The two shapes the resolver's value can take: one account id, or the ordered
      id-to-currency dictionary (as a list of pairs in dictionary order). */
  datatype Resolution = Single(id: AccountId) | Multi(accounts: seq<(AccountId, string)>)

  /** The resolver's outcome: a resolution, or the call into account creation. */
  datatype Decision = Resolved(resolution: Resolution) | NeedCreate

  predicate IsIbkr(a: AccountRecord) {
    a.name == IbkrName
  }

  predicate DistinctKeys(d: seq<(AccountId, string)>) {
    forall i, j :: 0 <= i < j < |d| ==> d[i].0 != d[j].0
  }

  predicate HasKey(d: seq<(AccountId, string)>, k: AccountId) {
    exists p :: p in d && p.0 == k
  }

  /** Dictionary assignment `d[k] = v`: an existing key keeps its position and takes
      the new value; a new key is appended. */
  function Upsert(d: seq<(AccountId, string)>, k: AccountId, v: string): (r: seq<(AccountId, string)>)
    requires DistinctKeys(d)
    ensures DistinctKeys(r)
    ensures (k, v) in r
    ensures forall p :: p in r ==> p == (k, v) || (p in d && p.0 != k)
    ensures forall p :: p in d && p.0 != k ==> p in r
    ensures !HasKey(d, k) ==> r == d + [(k, v)]
    ensures HasKey(d, k) ==> |r| == |d| && forall i :: 0 <= i < |d| ==> r[i] == if d[i].0 == k then (k, v) else d[i]
  {
    if HasKey(d, k) then
      var r := seq(|d|, i requires 0 <= i < |d| => if d[i].0 == k then (k, v) else d[i]);
      assert (k, v) in r by {
        var p :| p in d && p.0 == k;
        var i :| 0 <= i < |d| && d[i] == p;
        assert r[i] == (k, v);
      }
      assert forall p :: p in d && p.0 != k ==> p in r by {
        forall p | p in d && p.0 != k ensures p in r {
          var i :| 0 <= i < |d| && d[i] == p;
          assert r[i] == p;
        }
      }
      r
    else
      d + [(k, v)]
  }

  /** The account `j` is the last one named "IBKR" with the id `p.0`, and has the currency `p.1`. */
  predicate LastIbkrWith(accounts: seq<AccountRecord>, j: int, p: (AccountId, string)) {
    && 0 <= j < |accounts|
    && IsIbkr(accounts[j]) && accounts[j].id == p.0 && accounts[j].currency == p.1
    && forall l :: j < l < |accounts| && IsIbkr(accounts[l]) ==> accounts[l].id != p.0
  }

  /** The dictionary comprehension over the listed accounts: one entry per distinct id
      of an account named "IBKR", holding the currency of the last such account. */
  function IbkrAccounts(accounts: seq<AccountRecord>): (r: seq<(AccountId, string)>)
    ensures DistinctKeys(r)
    ensures forall p :: p in r ==> exists j :: LastIbkrWith(accounts, j, p)
    ensures forall j :: 0 <= j < |accounts| && IsIbkr(accounts[j]) ==> HasKey(r, accounts[j].id)
  {
    if accounts == [] then []
    else
      var n := |accounts| - 1;
      var d := IbkrAccounts(accounts[..n]);
      var a := accounts[n];
      var r := if IsIbkr(a) then Upsert(d, a.id, a.currency) else d;
      StepKeepsLast(accounts, accounts[..n], d, r);
      StepKeepsCover(accounts, d, r);
      r
  }

  /** One step of the comprehension keeps every entry the last of its id. */
  lemma StepKeepsLast(accounts: seq<AccountRecord>, prefix: seq<AccountRecord>,
                      d: seq<(AccountId, string)>, r: seq<(AccountId, string)>)
    requires |accounts| > 0 && prefix == accounts[..|accounts| - 1] && DistinctKeys(d)
    requires forall p :: p in d ==> exists j :: LastIbkrWith(prefix, j, p)
    requires var a := accounts[|accounts| - 1];
             r == if IsIbkr(a) then Upsert(d, a.id, a.currency) else d
    ensures forall p :: p in r ==> exists j :: LastIbkrWith(accounts, j, p)
  {
    var n := |accounts| - 1;
    var a := accounts[n];
    assert forall j :: 0 <= j < n ==> prefix[j] == accounts[j];
    forall p | p in r ensures exists j :: LastIbkrWith(accounts, j, p) {
      if IsIbkr(a) && p == (a.id, a.currency) {
        assert LastIbkrWith(accounts, n, p);
      } else {
        assert p in d && (IsIbkr(a) ==> p.0 != a.id);
        var j :| LastIbkrWith(prefix, j, p);
        assert LastIbkrWith(accounts, j, p);
      }
    }
  }

  /** One step of the comprehension keeps an entry for every "IBKR" id seen so far. */
  lemma StepKeepsCover(accounts: seq<AccountRecord>, d: seq<(AccountId, string)>, r: seq<(AccountId, string)>)
    requires |accounts| > 0 && DistinctKeys(d)
    requires var prefix := accounts[..|accounts| - 1];
             forall j :: 0 <= j < |prefix| && IsIbkr(prefix[j]) ==> HasKey(d, prefix[j].id)
    requires var a := accounts[|accounts| - 1];
             r == if IsIbkr(a) then Upsert(d, a.id, a.currency) else d
    ensures forall j :: 0 <= j < |accounts| && IsIbkr(accounts[j]) ==> HasKey(r, accounts[j].id)
  {
    var n := |accounts| - 1;
    var prefix := accounts[..n];
    var a := accounts[n];
    forall j | 0 <= j < |accounts| && IsIbkr(accounts[j]) ensures HasKey(r, accounts[j].id) {
      if j == n {
        assert (a.id, a.currency) in r;
      } else {
        assert prefix[j] == accounts[j];
        var p :| p in d && p.0 == prefix[j].id;
        if IsIbkr(a) && p.0 == a.id {
          assert (a.id, a.currency) in r;
        } else {
          assert p in r;
        }
      }
    }
  }

  /** The pairs of the accounts named "IBKR", in listing order. */
  function IbkrPairs(accounts: seq<AccountRecord>): seq<(AccountId, string)> {
    if accounts == [] then []
    else
      var a := accounts[|accounts| - 1];
      IbkrPairs(accounts[..|accounts| - 1]) + (if IsIbkr(a) then [(a.id, a.currency)] else [])
  }

  /** With distinct ids the dictionary is just the "IBKR" accounts' pairs in listing order. */
  lemma {:induction false} IbkrAccountsInOrder(accounts: seq<AccountRecord>)
    requires forall i, j :: 0 <= i < j < |accounts| && IsIbkr(accounts[i]) && IsIbkr(accounts[j])
               ==> accounts[i].id != accounts[j].id
    ensures IbkrAccounts(accounts) == IbkrPairs(accounts)
  {
    if accounts != [] {
      var prefix := accounts[..|accounts| - 1];
      assert forall j :: 0 <= j < |prefix| ==> prefix[j] == accounts[j];
      IbkrAccountsInOrder(prefix);
      InOrderStep(accounts);
    }
  }

  lemma InOrderStep(accounts: seq<AccountRecord>)
    requires |accounts| > 0
    requires forall i, j :: 0 <= i < j < |accounts| && IsIbkr(accounts[i]) && IsIbkr(accounts[j])
               ==> accounts[i].id != accounts[j].id
    requires IbkrAccounts(accounts[..|accounts| - 1]) == IbkrPairs(accounts[..|accounts| - 1])
    ensures IbkrAccounts(accounts) == IbkrPairs(accounts)
  {
    var n := |accounts| - 1;
    var a := accounts[n];
    var d := IbkrAccounts(accounts[..n]);
    if IsIbkr(a) {
      FreshLastId(accounts);
      calc {
        IbkrAccounts(accounts);
        Upsert(d, a.id, a.currency);
        d + [(a.id, a.currency)];
        IbkrPairs(accounts);
      }
    } else {
      assert IbkrAccounts(accounts) == d;
      assert IbkrPairs(accounts) == IbkrPairs(accounts[..n]);
    }
  }

  /** With distinct ids, the last "IBKR" account's id is not yet a key of the dictionary
      built from the accounts before it. */
  lemma FreshLastId(accounts: seq<AccountRecord>)
    requires |accounts| > 0 && IsIbkr(accounts[|accounts| - 1])
    requires forall i, j :: 0 <= i < j < |accounts| && IsIbkr(accounts[i]) && IsIbkr(accounts[j])
               ==> accounts[i].id != accounts[j].id
    ensures !HasKey(IbkrAccounts(accounts[..|accounts| - 1]), accounts[|accounts| - 1].id)
  {
    var n := |accounts| - 1;
    var prefix := accounts[..n];
    forall p | p in IbkrAccounts(prefix) ensures p.0 != accounts[n].id {
      var j :| LastIbkrWith(prefix, j, p);
      assert prefix[j] == accounts[j];
    }
  }

  /** More than one distinct "IBKR" id gives the dictionary; anything else (no account,
      or exactly one) goes to account creation. */
  function Resolve(accounts: seq<AccountRecord>): (r: Decision)
    ensures r.Resolved? ==> r.resolution == Multi(IbkrAccounts(accounts))
    ensures r.Resolved? <==>
              exists i, j :: 0 <= i < |accounts| && 0 <= j < |accounts|
                && IsIbkr(accounts[i]) && IsIbkr(accounts[j]) && accounts[i].id != accounts[j].id
  {
    var m := IbkrAccounts(accounts);
    if |m| > 1 then
      assert m[0] in m && m[1] in m;
      var i :| LastIbkrWith(accounts, i, m[0]);
      var j :| LastIbkrWith(accounts, j, m[1]);
      Resolved(Multi(m))
    else
      assert forall i, j :: (0 <= i < |accounts| && 0 <= j < |accounts|
                && IsIbkr(accounts[i]) && IsIbkr(accounts[j])) ==> accounts[i].id == accounts[j].id by {
        forall i, j | 0 <= i < |accounts| && 0 <= j < |accounts| && IsIbkr(accounts[i]) && IsIbkr(accounts[j])
          ensures accounts[i].id == accounts[j].id
        {
          assert HasKey(m, accounts[i].id) && HasKey(m, accounts[j].id);
          var p :| p in m && p.0 == accounts[i].id;
          var q :| q in m && q.0 == accounts[j].id;
        }
      }
      NeedCreate
  }

  /** A single "IBKR" account (listed once, or several times under one id) never
      resolves: the resolver goes to account creation even though the account exists. */
  lemma SingleAccountNeedsCreate(accounts: seq<AccountRecord>, id: AccountId)
    requires exists i :: 0 <= i < |accounts| && IsIbkr(accounts[i])
    requires forall i :: 0 <= i < |accounts| && IsIbkr(accounts[i]) ==> accounts[i].id == id
    ensures Resolve(accounts) == NeedCreate
  {
  }

  /** The index of the first dictionary entry whose currency equals `cur`. */
  function CurrencyIndex(m: seq<(AccountId, string)>, cur: Option<string>): (r: Option<nat>)
    ensures r.Some? ==> r.value < |m| && Some(m[r.value].1) == cur
    ensures r.Some? ==> forall j :: 0 <= j < r.value ==> Some(m[j].1) != cur
    ensures r.None? ==> forall j :: 0 <= j < |m| ==> Some(m[j].1) != cur
  {
    if m == [] then None
    else if Some(m[0].1) == cur then Some(0)
    else match CurrencyIndex(m[1..], cur)
      case None => None
      case Some(i) => Some(i + 1)
  }

  /** The account a trade of currency `cur` goes to: the first dictionary entry with
      that currency, or the single account whatever the currency. */
  function AccountIdForCurrency(res: Resolution, cur: Option<string>): (r: Option<AccountId>)
    ensures res.Single? ==> r == Some(res.id)
    ensures res.Multi? && r.Some? ==>
              exists i :: 0 <= i < |res.accounts| && res.accounts[i].0 == r.value
                && Some(res.accounts[i].1) == cur
                && forall j :: 0 <= j < i ==> Some(res.accounts[j].1) != cur
    ensures res.Multi? && r.None? ==> forall j :: 0 <= j < |res.accounts| ==> Some(res.accounts[j].1) != cur
  {
    match res
    case Single(id) => Some(id)
    case Multi(m) =>
      match CurrencyIndex(m, cur)
      case None => None
      case Some(i) => Some(m[i].0)
  }
}
