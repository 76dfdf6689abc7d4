/** One synchronisation run: account resolution, the cash pushes, the trade loop and the
    per-account diff and import. */
module Sync {
  import opened Types
  import opened Records
  import opened Accounts
  import opened Cash
  import opened Transformer
  import opened DiffEngine
  import opened Importer

  /** The cash loop over the dictionary: one bucket sum per account, and an update
      request whenever that sum is not zero. `reply(j)` answers the j-th account's
      update; its outcome is not used. */
  method PushCash(m: seq<(AccountId, string)>, entries: seq<CashEntry>, platformId: string, reply: nat -> Reply)
    returns (updates: seq<AccountUpdate>)
    ensures updates == MultiCashUpdates(m, entries, platformId)
  {
    updates := [];
    for j := 0 to |m|
      invariant updates + MultiCashUpdates(m[j..], entries, platformId) == MultiCashUpdates(m, entries, platformId)
    {
      assert m[j..][1..] == m[j + 1..];
      var (accountId, currency) := m[j];
      var cashAmount := GetCashAmount(entries, currency);
      var (update, _) := SetCashToAccount(accountId, cashAmount, currency, platformId, reply(j));
      if update.Some? {
        updates := updates + [update.value];
      }
    }
  }

  /** The import payloads for one account's diff: none when the diff is empty. */
  function ImportsFor(diff: seq<Activity>, reply: nat -> Reply): seq<seq<Activity>> {
    if |diff| == 0 then [] else ImportLog(diff, reply)
  }

  /** An account imports something exactly when its diff is not empty. */
  lemma ImportsForEmptyIff(diff: seq<Activity>, reply: nat -> Reply)
    ensures ImportsFor(diff, reply) == [] <==> |diff| == 0
  {
    if |diff| != 0 {
      ChunkCount(diff);
      ImportLogShape(diff, reply);
    }
  }

  /** One account of the per-account loop: the account's own listed records against
      the new activities of its currency, and an import of whatever the filter lets
      through. `listing` answers the account's listing, `post` the imports made for it.
      The filter compares whole listed records, so the diff is the account's whole
      currency bucket, whatever the ledger lists. */
  method SyncAccount(entry: (AccountId, string), activities: seq<Activity>, listing: ListReply,
                     post: nat -> Reply)
    returns (diff: seq<Activity>, ghost payloads: seq<seq<Activity>>)
    ensures diff == CurrencyActs(activities, entry.1)
    ensures payloads == ImportsFor(diff, post)
  {
    var (accountId, currency) := entry;
    var currencyActivities := CurrencyActs(activities, currency);
    var oldActs := ActsForAccount(AllActs(listing), accountId);
    diff := DiffAsWritten(oldActs, currencyActivities);
    DiffAsWrittenKeepsAll(oldActs, currencyActivities);
    payloads := [];
    if |diff| != 0 {
      var ok;
      ok, payloads := ImportAct(diff, post);
    }
  }

  /** The values of `f` at 0 to `n - 1`, in order. */
  function Tabulate<T>(n: nat, f: nat -> T): (r: seq<T>)
    ensures |r| == n && forall j :: 0 <= j < n ==> r[j] == f(j)
  {
    if n == 0 then [] else Tabulate(n - 1, f) + [f(n - 1)]
  }

  /** Account `j`'s diff: its currency bucket. */
  function DiffOf(m: seq<(AccountId, string)>, activities: seq<Activity>): nat -> seq<Activity> {
    j => if 0 <= j < |m| then CurrencyActs(activities, m[j].1) else []
  }

  /** The payloads imported for account `j`; `post(j)` answers the imports made for it. */
  function ImportsOf(m: seq<(AccountId, string)>, activities: seq<Activity>, post: nat -> nat -> Reply)
    : nat -> seq<seq<Activity>>
  {
    j => if 0 <= j < |m| then ImportsFor(CurrencyActs(activities, m[j].1), post(j)) else []
  }

  /** One diff per account of the dictionary: the account's currency bucket. */
  function AccountDiffs(m: seq<(AccountId, string)>, activities: seq<Activity>): (r: seq<seq<Activity>>)
    ensures |r| == |m| && forall j :: 0 <= j < |m| ==> r[j] == CurrencyActs(activities, m[j].1)
  {
    Tabulate(|m|, DiffOf(m, activities))
  }

  /** The import payloads of every account of the dictionary, each from its own diff. */
  function SyncLog(m: seq<(AccountId, string)>, activities: seq<Activity>, post: nat -> nat -> Reply)
    : (r: seq<seq<seq<Activity>>>)
    ensures |r| == |m| && forall j :: 0 <= j < |m| ==>
              r[j] == ImportsFor(CurrencyActs(activities, m[j].1), post(j))
  {
    Tabulate(|m|, ImportsOf(m, activities, post))
  }

  /** The per-account loop, in dictionary order. `listing(j)` answers the j-th account's
      listing; as written, no listing changes what is imported. */
  method SyncAccounts(m: seq<(AccountId, string)>, activities: seq<Activity>, listing: nat -> ListReply,
                      post: nat -> nat -> Reply)
    returns (diffs: seq<seq<Activity>>, ghost sent: seq<seq<seq<Activity>>>)
    ensures diffs == AccountDiffs(m, activities)
    ensures sent == SyncLog(m, activities, post)
  {
    diffs, sent := [], [];
    for j := 0 to |m|
      invariant diffs == Tabulate(j, DiffOf(m, activities))
      invariant sent == Tabulate(j, ImportsOf(m, activities, post))
    {
      var diff, payloads := SyncAccount(m[j], activities, listing(j), post(j));
      diffs, sent := diffs + [diff], sent + [payloads];
    }
  }

  /** How a run ends: with the exception raised by the failed account creation, or
      having sent its cash updates and computed its activities and diffs. */
  datatype RunOutcome =
    | Raised
    | Synced(cashUpdates: seq<AccountUpdate>, activities: seq<Activity>, diffs: seq<seq<Activity>>)

  /** One run over a parsed report and the platform's account list. A dictionary of at
      least two IBKR accounts is needed; otherwise the creation of an account raises
      before anything is sent. */
  method SyncIbkr(report: Report, accounts: seq<AccountRecord>, platformId: string, cashReply: nat -> Reply,
                  listing: nat -> ListReply, post: nat -> nat -> Reply)
    returns (outcome: RunOutcome, ghost sent: seq<seq<seq<Activity>>>)
    ensures Resolve(accounts) == NeedCreate <==> outcome == Raised
    ensures outcome == Raised ==> sent == []
    ensures Resolve(accounts).Resolved? ==>
              var m := IbkrAccounts(accounts);
              && outcome.Synced?
              && outcome.cashUpdates == MultiCashUpdates(m, report.cashReport, platformId)
              && outcome.activities == Emitted(report.trades, Multi(m))
              && outcome.diffs == AccountDiffs(m, outcome.activities)
              && sent == SyncLog(m, outcome.activities, post)
  {
    var decision := Resolve(accounts);
    if decision.NeedCreate? {
      return Raised, [];
    }
    assert decision.resolution.Multi?;
    var m := decision.resolution.accounts;
    var cashUpdates := PushCash(m, report.cashReport, platformId, cashReply);
    var activities := CollectActivities(report.trades, decision.resolution);
    var diffs;
    diffs, sent := SyncAccounts(m, activities, listing, post);
    outcome := Synced(cashUpdates, activities, diffs);
  }

  /** No two accounts of the dictionary share a currency. */
  predicate DistinctCurrencies(m: seq<(AccountId, string)>) {
    forall i, j :: 0 <= i < j < |m| ==> m[i].1 != m[j].1
  }

  /** Idempotence of the evidently intended comparison: when the second run's listing of
      each account still holds what the first run's listing held and every activity of the
      first run's field-comparison diff (that is, the first run's imports all went
      through), the second run's field-comparison diffs are all empty, so it would import
      nothing. */
  lemma SecondRunImportsNothing(trades: seq<Trade>, m: seq<(AccountId, string)>,
                                first: nat -> ListReply, second: nat -> ListReply)
    requires DistinctCurrencies(m)
    requires forall j, s :: 0 <= j < |m| && s in AllActs(first(j)) ==> s in AllActs(second(j))
    requires forall j, x :: 0 <= j < |m| && x in AccountDiff(m[j], Emitted(trades, Multi(m)), first(j)) ==>
               exists s :: s in AllActs(second(j)) && s.body == x
    ensures forall j :: 0 <= j < |m| ==> AccountDiff(m[j], Emitted(trades, Multi(m)), second(j)) == []
  {
    var acts := Emitted(trades, Multi(m));
    forall j | 0 <= j < |m| ensures AccountDiff(m[j], acts, second(j)) == [] {
      var existing := ActsForAccount(AllActs(second(j)), m[j].0);
      forall x | x in CurrencyActs(acts, m[j].1) ensures x in Bodies(existing) {
        EmittedAccount(trades, m, x);
        assert CurrencyIndex(m, Some(x.currency)) == Some(j);
        AccountDiffMembers(m[j], acts, first(j));
        var s: StoredAct;
        if x in AccountDiff(m[j], acts, first(j)) {
          s :| s in AllActs(second(j)) && s.body == x;
        } else {
          s :| s in AllActs(first(j)) && s.body == x && s.body.accountId == m[j].0;
        }
        assert s in existing;
        BodiesMembership(existing, x);
      }
      DiffEmptyIff(Bodies(existing), CurrencyActs(acts, m[j].1));
    }
  }

  /** Two accounts in the same currency: the later one never receives the currency's
      activities, which carry the id of the first account of that currency, so even the
      field comparison offers them to it on every run, however the ledger changes. */
  lemma SharedCurrencyReimports(trades: seq<Trade>, m: seq<(AccountId, string)>, listing: ListReply,
                                i: nat, j: nat, x: Activity)
    requires DistinctKeys(m) && i < j < |m| && m[i].1 == m[j].1
    requires x in Emitted(trades, Multi(m)) && x.currency == m[j].1
    ensures x in AccountDiff(m[j], Emitted(trades, Multi(m)), listing)
  {
    EmittedAccount(trades, m, x);
    var k := CurrencyIndex(m, Some(x.currency)).value;
    assert k <= i;
    AccountDiffMembers(m[j], Emitted(trades, Multi(m)), listing);
  }

  /** Every activity a run imports carries the id of one of the IBKR accounts listed
      before the run, in that account's currency. */
  lemma ImportedActivitiesReferenceAccounts(report: Report, accounts: seq<AccountRecord>,
                                            post: nat -> nat -> Reply, j: nat, k: nat, x: Activity)
    requires Resolve(accounts).Resolved?
    requires var m := IbkrAccounts(accounts);
             var log := SyncLog(m, Emitted(report.trades, Multi(m)), post);
             j < |m| && k < |log[j]| && x in log[j][k]
    ensures exists i :: 0 <= i < |accounts| && IsIbkr(accounts[i]) && accounts[i].id == x.accountId
                        && accounts[i].currency == x.currency
  {
    var m := IbkrAccounts(accounts);
    var acts := Emitted(report.trades, Multi(m));
    var bucket := CurrencyActs(acts, m[j].1);
    assert |bucket| != 0;
    PayloadMember(bucket, post(j), k, x);
    EmittedAccount(report.trades, m, x);
    var c := CurrencyIndex(m, Some(x.currency)).value;
    assert m[c] in m;
    var i :| LastIbkrWith(accounts, i, m[c]);
  }
}
