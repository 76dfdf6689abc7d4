/** The trade transformer: the body of the trade loop of a run, as a function from
    one trade to an activity or a skip, and the loop that collects the activities. */
module Transformer {
  import opened Types
  import opened Records
  import opened Accounts
  import opened Symbols
  import opened Dates

  /** Why a trade produced no activity, in the order the checks run. */
  datatype SkipReason = NotTradeEvent | NoAccount | NoCurrency | NotBuySell

  datatype Outcome = Emit(activity: Activity) | Skip(reason: SkipReason)

  function Abs(x: real): real {
    if x < 0.0 then -x else x
  }

  /** Python's `not account_id` for the looked-up id: missing or the empty string. */
  predicate Falsy(id: Option<AccountId>) {
    id == None || id == Some("")
  }

  predicate NoCurrencyGiven(c: Option<string>) {
    c == None || c == Some("")
  }

  /** One trade. The indicator test of the source reads the CLOSE member off the trade's
      indicator, a value that is always truthy, so every trade with an indicator passes
      it whatever the indicator says. */
  function Transform(t: Trade, res: Resolution): Outcome {
    if t.openCloseIndicator.None? || t.assetCategory == "CASH" then Skip(NotTradeEvent)
    else
      var id := AccountIdForCurrency(res, t.currency);
      if Falsy(id) then Skip(NoAccount)
      else if NoCurrencyGiven(t.currency) then Skip(NoCurrency)
      else if t.buySell == OtherSide then Skip(NotBuySell)
      else
        Emit(Activity(
          accountId := id.value,
          comment := None,
          currency := t.currency.value,
          dataSource := "YAHOO",
          date := IsoMidnight(t.tradeDate),
          fee := 0.0,
          quantity := Abs(t.quantity),
          symbol := FinalSymbol(t.symbol),
          activityType := if t.buySell == Buy then "BUY" else "SELL",
          unitPrice := t.tradePrice))
  }

  /** A trade yields nothing exactly when it has no indicator, is a cash record, finds
      no account for its currency, has no currency, or is neither a buy nor a sell. */
  lemma TransformSkips(t: Trade, res: Resolution)
    ensures Transform(t, res).Skip? <==>
              t.openCloseIndicator.None? || t.assetCategory == "CASH"
              || Falsy(AccountIdForCurrency(res, t.currency))
              || NoCurrencyGiven(t.currency) || t.buySell == OtherSide
  {
  }

  /** The fields of an emitted activity. */
  lemma EmittedFields(t: Trade, res: Resolution)
    requires Transform(t, res).Emit?
    ensures var a := Transform(t, res).activity;
            && t.currency == Some(a.currency) && a.currency != ""
            && a.quantity >= 0.0 && (a.quantity == t.quantity || a.quantity == -t.quantity)
            && a.fee == 0.0
            && a.unitPrice == t.tradePrice
            && (a.activityType == "BUY" <==> t.buySell == Buy)
            && (a.activityType == "SELL" <==> t.buySell == Sell)
            && a.date == DateText(t.tradeDate) + "T00:00:00"
            && a.symbol == Hyphenated(Remapped(t.symbol)) && ' ' !in a.symbol
            && Some(a.accountId) == AccountIdForCurrency(res, t.currency) && a.accountId != ""
            && a.dataSource == "YAHOO" && a.comment == None
  {
  }

  /** The account lookup runs before the currency check: in single-account mode a trade
      without a currency is rejected for its currency, in dictionary mode for its account. */
  lemma LookupBeforeCurrencyCheck(t: Trade, id: AccountId, m: seq<(AccountId, string)>)
    requires t.openCloseIndicator.Some? && t.assetCategory != "CASH" && t.currency == None && id != ""
    ensures Transform(t, Single(id)) == Skip(NoCurrency)
    ensures Transform(t, Multi(m)) == Skip(NoAccount)
  {
  }

  /** A trade that opens a position is emitted like a closing one. */
  lemma OpeningTradeEmitted(t: Trade, res: Resolution)
    requires t.openCloseIndicator == Some(Open)
    ensures Transform(t, res).Emit? <==>
              t.assetCategory != "CASH" && !Falsy(AccountIdForCurrency(res, t.currency))
              && !NoCurrencyGiven(t.currency) && t.buySell != OtherSide
  {
  }

  /** The activities a per-trade step `f` yields over a list of trades, in trade order. */
  function Collect(trades: seq<Trade>, f: Trade -> Outcome): seq<Activity> {
    if trades == [] then []
    else
      var n := |trades| - 1;
      Collect(trades[..n], f) + Contribution(f(trades[n]))
  }

  function Contribution(o: Outcome): seq<Activity> {
    match o
    case Emit(a) => [a]
    case Skip(_) => []
  }

  lemma {:induction false} CollectExactly(trades: seq<Trade>, f: Trade -> Outcome)
    ensures forall a :: a in Collect(trades, f) <==> exists i :: 0 <= i < |trades| && f(trades[i]) == Emit(a)
    ensures |Collect(trades, f)| <= |trades|
  {
    if trades != [] {
      var n := |trades| - 1;
      var prefix := trades[..n];
      CollectExactly(prefix, f);
      assert forall i :: 0 <= i < n ==> prefix[i] == trades[i];
      forall a ensures a in Collect(trades, f) <==> exists i :: 0 <= i < |trades| && f(trades[i]) == Emit(a) {
        if exists i :: 0 <= i < |trades| && f(trades[i]) == Emit(a) {
          var i :| 0 <= i < |trades| && f(trades[i]) == Emit(a);
          if i < n {
            assert f(prefix[i]) == Emit(a);
          }
        }
      }
    }
  }

  /** The activities of a run's trades. */
  function Emitted(trades: seq<Trade>, res: Resolution): seq<Activity> {
    Collect(trades, t => Transform(t, res))
  }

  /** Every collected activity is the transformation of one of the trades, and every
      trade that transforms contributes its activity. */
  lemma EmittedExactly(trades: seq<Trade>, res: Resolution)
    ensures forall a :: a in Emitted(trades, res) <==>
              exists i :: 0 <= i < |trades| && Transform(trades[i], res) == Emit(a)
    ensures |Emitted(trades, res)| <= |trades|
  {
    CollectExactly(trades, t => Transform(t, res));
  }

  /** The activities of joined trade lists are the activities of each list, joined: the
      trade loop keeps trade order, and each trade contributes its own activity once. */
  lemma {:induction false} CollectAppend(a: seq<Trade>, b: seq<Trade>, f: Trade -> Outcome)
    ensures Collect(a + b, f) == Collect(a, f) + Collect(b, f)
    decreases |b|
  {
    if b == [] {
      assert a + b == a;
    } else {
      var n := |b| - 1;
      assert (a + b)[..|a + b| - 1] == a + b[..n];
      assert (a + b)[|a + b| - 1] == b[n];
      CollectAppend(a, b[..n], f);
    }
  }

  /** The activities of a run's trades, trade by trade: a trade that transforms contributes
      its one activity at its place in the list, and a skipped trade contributes nothing. */
  lemma EmittedAppend(a: seq<Trade>, b: seq<Trade>, res: Resolution)
    ensures Emitted(a + b, res) == Emitted(a, res) + Emitted(b, res)
  {
    CollectAppend(a, b, t => Transform(t, res));
  }

  /** One trade contributes exactly its own transformation. */
  lemma EmittedSingle(t: Trade, res: Resolution)
    ensures Transform(t, res).Emit? ==> Emitted([t], res) == [Transform(t, res).activity]
    ensures Transform(t, res).Skip? ==> Emitted([t], res) == []
  {
    var f := u => Transform(u, res);
    assert [t][..0] == [] && [t][0] == t;
    assert Collect([t], f) == Collect([], f) + Contribution(f(t));
  }

  /** In dictionary mode every activity carries the id of the first account of its currency. */
  lemma EmittedAccount(trades: seq<Trade>, m: seq<(AccountId, string)>, a: Activity)
    requires a in Emitted(trades, Multi(m))
    ensures CurrencyIndex(m, Some(a.currency)).Some?
    ensures a.accountId == m[CurrencyIndex(m, Some(a.currency)).value].0
  {
    EmittedExactly(trades, Multi(m));
    var i :| 0 <= i < |trades| && Transform(trades[i], Multi(m)) == Emit(a);
    EmittedFields(trades[i], Multi(m));
  }

  /** The trade loop: trades are processed in order, skips `continue`, and each surviving
      trade appends its activity. */
  method CollectActivities(trades: seq<Trade>, res: Resolution) returns (activities: seq<Activity>)
    ensures activities == Emitted(trades, res)
  {
    activities := [];
    for i := 0 to |trades|
      invariant activities == Emitted(trades[..i], res)
    {
      assert trades[..i + 1][..i] == trades[..i];
      assert Emitted(trades[..i + 1], res) == Emitted(trades[..i], res) + Contribution(Transform(trades[i], res));
      var trade := trades[i];
      if trade.openCloseIndicator.None? || trade.assetCategory == "CASH" {
        continue;
      }
      var isoFormat := IsoMidnight(trade.tradeDate);
      var accountId := AccountIdForCurrency(res, trade.currency);
      if accountId == None || accountId == Some("") {
        continue;
      }
      if trade.currency == None || trade.currency == Some("") {
        continue;
      }
      var currency := trade.currency.value;
      var symbol := RemapSymbol(trade.symbol);
      var buysell: string;
      if trade.buySell == Buy {
        buysell := "BUY";
      } else if trade.buySell == Sell {
        buysell := "SELL";
      } else {
        continue;
      }
      activities := activities + [Activity(accountId.value, None, currency, "YAHOO", isoFormat, 0.0,
                                           Abs(trade.quantity), Hyphenated(symbol), buysell, trade.tradePrice)];
    }
    assert trades[..|trades|] == trades;
  }

  /** A closing EUR buy of ENGI, quantity -10 at 50 on 2024-01-15, with an EUR and a USD
      account, becomes a buy of 10 ENGI.PA at 50 for the EUR account. */
  lemma EngiExample(t: Trade, m: seq<(AccountId, string)>)
    requires t == Trade("ENGI", Some("EUR"), -10.0, 50.0, RawDate(2024, 1, 15), Buy, Some(Close), "STK")
    requires m == [("acc-eur", "EUR"), ("acc-usd", "USD")]
    ensures Transform(t, Multi(m)).Emit?
    ensures var a := Transform(t, Multi(m)).activity;
            a.accountId == "acc-eur" && a.currency == "EUR" && a.symbol == "ENGI.PA" && a.activityType == "BUY"
            && a.quantity == 10.0 && a.unitPrice == 50.0 && a.fee == 0.0 && a.date == "2024-01-15T00:00:00"
  {
    assert AccountIdForCurrency(Multi(m), t.currency) == Some("acc-eur");
    assert !NoCurrencyGiven(t.currency) && t.assetCategory != "CASH" by {
      assert t.currency == Some("EUR") && |t.assetCategory| == 3;
    }
    TransformSkips(t, Multi(m));
    EmittedFields(t, Multi(m));
    var a := Transform(t, Multi(m)).activity;
    assert a.activityType == "BUY" by {
      assert t.buySell == Buy;
    }
    RemapEngi();
    HyphenatedEngiPa();
    IsoMidnightExample();
  }
}
