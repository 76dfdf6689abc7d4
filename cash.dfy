/** The cash reconciler: the ending cash of one currency bucket, the zero guard and
    payload of the balance update, and the cash step of a run. */
module Cash {
  import opened Types
  import opened Records
  import Accounts

  predicate InBucket(e: CashEntry, currency: string) {
    e.currency == Some(currency)
  }

  /** The sum of `endingCash` over the entries whose currency is `currency`; entries
      without a currency never match. */
  function CashAmount(entries: seq<CashEntry>, currency: string): real {
    if entries == [] then 0.0
    else
      var last := entries[|entries| - 1];
      CashAmount(entries[..|entries| - 1], currency) + (if InBucket(last, currency) then last.endingCash else 0.0)
  }

  /** The entries of one bucket, in report order. */
  function Bucket(entries: seq<CashEntry>, currency: string): (r: seq<CashEntry>)
    ensures forall e :: e in r <==> e in entries && InBucket(e, currency)
  {
    if entries == [] then []
    else
      var last := entries[|entries| - 1];
      Bucket(entries[..|entries| - 1], currency) + (if InBucket(last, currency) then [last] else [])
  }

  /** The amount of a bucket depends on the entries of that bucket alone. */
  lemma {:induction false} CashAmountOfBucket(entries: seq<CashEntry>, currency: string)
    ensures CashAmount(entries, currency) == CashAmount(Bucket(entries, currency), currency)
  {
    if entries != [] {
      var n := |entries| - 1;
      CashAmountOfBucket(entries[..n], currency);
      var b := Bucket(entries[..n], currency);
      var e := entries[n];
      if InBucket(e, currency) {
        assert Bucket(entries, currency) == b + [e];
        CashAmountAppend(b, [e], currency);
        assert [e][..0] == [];
      } else {
        assert Bucket(entries, currency) == b;
      }
    }
  }

  lemma BucketOnly(e1: seq<CashEntry>, e2: seq<CashEntry>, currency: string)
    requires Bucket(e1, currency) == Bucket(e2, currency)
    ensures CashAmount(e1, currency) == CashAmount(e2, currency)
  {
    CashAmountOfBucket(e1, currency);
    CashAmountOfBucket(e2, currency);
  }

  /** No matching entry means nothing to update. */
  lemma {:induction false} NoEntriesNoCash(entries: seq<CashEntry>, currency: string)
    requires forall i :: 0 <= i < |entries| ==> !InBucket(entries[i], currency)
    ensures CashAmount(entries, currency) == 0.0
  {
    if entries != [] {
      NoEntriesNoCash(entries[..|entries| - 1], currency);
    }
  }

  lemma {:induction false} CashAmountAppend(a: seq<CashEntry>, b: seq<CashEntry>, currency: string)
    ensures CashAmount(a + b, currency) == CashAmount(a, currency) + CashAmount(b, currency)
    decreases |b|
  {
    if b == [] {
      assert a + b == a;
    } else {
      var n := |b| - 1;
      assert (a + b)[..|a + b| - 1] == a + b[..n];
      CashAmountAppend(a, b[..n], currency);
    }
  }

  lemma CashExample()
    ensures var entries := [CashEntry(Some("EUR"), 100.0), CashEntry(Some("USD"), 50.0),
                            CashEntry(Some("EUR"), 25.0), CashEntry(None, 7.0)];
            CashAmount(entries, "EUR") == 125.0 && CashAmount(entries, "GBP") == 0.0
  {
    var entries := [CashEntry(Some("EUR"), 100.0), CashEntry(Some("USD"), 50.0),
                    CashEntry(Some("EUR"), 25.0), CashEntry(None, 7.0)];
    assert entries[..3][..2] == entries[..2] && entries[..2][..1] == entries[..1];
    assert entries[..1][..0] == [] && entries[..4] == entries && entries[..4][..3] == entries[..3];
    assert CashAmount(entries[..1], "EUR") == 100.0;
    assert CashAmount(entries[..2], "EUR") == 100.0;
    assert CashAmount(entries[..3], "EUR") == 125.0;
    NoEntriesNoCash(entries, "GBP");
  }

  /** The accumulation loop of the report's cash entries. */
  method GetCashAmount(entries: seq<CashEntry>, currency: string) returns (cash: real)
    ensures cash == CashAmount(entries, currency)
  {
    cash := 0.0;
    for i := 0 to |entries|
      invariant cash == CashAmount(entries[..i], currency)
    {
      assert entries[..i + 1][..i] == entries[..i];
      if entries[i].currency == Some(currency) {
        cash := cash + entries[i].endingCash;
      }
    }
    assert entries[..|entries|] == entries;
  }

  /** The zero guard and full-replace body of the balance update: nothing when the cash
      is zero; otherwise the cash, the id, the currency, not excluded, the "IBKR" name and
      the configured platform id. */
  function UpdateBody(id: AccountId, cash: real, currency: string, platformId: string): Option<AccountUpdate> {
    if cash == 0.0 then None else Some(AccountUpdate(cash, id, currency, false, IbkrName, platformId))
  }

  /** The update requests an optional body stands for. */
  function Requests(u: Option<AccountUpdate>): seq<AccountUpdate> {
    match u
    case None => []
    case Some(v) => [v]
  }

  /** The balance update for one account: the body it sends, if any, and its return
      value given the platform's reply. */
  function SetCashToAccount(id: AccountId, cash: real, currency: string, platformId: string, reply: Reply)
    : (r: (Option<AccountUpdate>, bool))
    ensures cash == 0.0 ==> r == (None, false)
    ensures cash != 0.0 ==> r.0 == Some(AccountUpdate(cash, id, currency, false, IbkrName, platformId))
    ensures r.1 <==> cash != 0.0 && reply == Status(200)
  {
    (UpdateBody(id, cash, currency, platformId), cash != 0.0 && reply == Status(200))
  }

  /** The update requests one run sends, in dictionary order: one per account whose
      bucket has non-zero cash. A single account is credited with the cash of the
      configured currency but labelled with the default "USD". */
  function CashUpdates(res: Accounts.Resolution, entries: seq<CashEntry>, ghostCurrency: string,
                       platformId: string): seq<AccountUpdate>
  {
    match res
    case Single(id) => Requests(UpdateBody(id, CashAmount(entries, ghostCurrency), "USD", platformId))
    case Multi(m) => MultiCashUpdates(m, entries, platformId)
  }

  function MultiCashUpdates(m: seq<(AccountId, string)>, entries: seq<CashEntry>, platformId: string)
    : seq<AccountUpdate>
  {
    if m == [] then []
    else
      var (id, cur) := m[0];
      Requests(UpdateBody(id, CashAmount(entries, cur), cur, platformId)) + MultiCashUpdates(m[1..], entries, platformId)
  }

  /** Every balance pushed for an account of the dictionary is the non-zero sum of that
      account's currency bucket, labelled with that currency; every account whose
      bucket is non-zero gets one. */
  lemma {:induction false} MultiCashUpdatesSound(m: seq<(AccountId, string)>, entries: seq<CashEntry>, platformId: string)
    ensures forall u :: u in MultiCashUpdates(m, entries, platformId) ==>
              u.balance != 0.0 && u.balance == CashAmount(entries, u.currency)
              && (u.id, u.currency) in m && !u.isExcluded && u.name == IbkrName && u.platformId == platformId
    ensures forall i :: 0 <= i < |m| && CashAmount(entries, m[i].1) != 0.0 ==>
              AccountUpdate(CashAmount(entries, m[i].1), m[i].0, m[i].1, false, IbkrName, platformId)
                in MultiCashUpdates(m, entries, platformId)
  {
    if m != [] {
      MultiCashUpdatesSound(m[1..], entries, platformId);
      assert forall i :: 0 < i < |m| ==> m[i] == m[1..][i - 1];
      assert forall p :: p in m[1..] ==> p in m;
      var head := Requests(UpdateBody(m[0].0, CashAmount(entries, m[0].1), m[0].1, platformId));
      assert MultiCashUpdates(m, entries, platformId) == head + MultiCashUpdates(m[1..], entries, platformId);
    }
  }

  /** Single-account mode: the balance comes from the configured currency's bucket and
      the update always says "USD". */
  lemma SingleCashIsUsd(id: AccountId, entries: seq<CashEntry>, ghostCurrency: string, platformId: string)
    ensures var us := CashUpdates(Accounts.Single(id), entries, ghostCurrency, platformId);
            && |us| <= 1
            && (|us| == 1 <==> CashAmount(entries, ghostCurrency) != 0.0)
            && forall u :: u in us ==> u.currency == "USD" && u.balance == CashAmount(entries, ghostCurrency) != 0.0
  {
  }

  /** The dictionary's updates follow the dictionary's order: the updates of joined
      account lists are the updates of each list, joined. */
  lemma {:induction false} MultiCashUpdatesAppend(a: seq<(AccountId, string)>, b: seq<(AccountId, string)>,
                                                  entries: seq<CashEntry>, platformId: string)
    ensures MultiCashUpdates(a + b, entries, platformId)
              == MultiCashUpdates(a, entries, platformId) + MultiCashUpdates(b, entries, platformId)
  {
    if a == [] {
      assert a + b == b;
    } else {
      assert (a + b)[0] == a[0] && (a + b)[1..] == a[1..] + b;
      MultiCashUpdatesAppend(a[1..], b, entries, platformId);
    }
  }
}
