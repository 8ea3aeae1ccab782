/** The EUR rate table of the gold layer and the conversion of expenses.

    For every distinct expense currency, EUR is given the rate 1.0 without a
    request; any other currency is looked up at the exchange-rate provider and
    recorded only when the reply has status 200 and a truthy EUR rate. A
    failed lookup records nothing and the loop goes on. Expenses are then
    left-merged with the table on `currency`, and `amount_eur =
    amount_local * fx_to_eur`, missing where the currency has no rate.

    The provider is a parameter: `provider(c)` is the outcome of the request
    for currency `c`. */
module FxRates {
  import opened Wrappers
  import opened Seqs
  import opened SilverLayer

  type Currency = string

  const Eur: Currency := "EUR"

  /** What `response.json()["conversion_rates"]` gives: the mapping's EUR
      entry, if any, or a body that cannot be read that way (a raise, caught
      by the loop's `except`). */
  datatype Body = ConversionRates(eur: Option<real>) | Unreadable

  /** A reply with its HTTP status, or a request that raised. */
  datatype Response = Reply(status: int, body: Body) | Raised

  datatype FxRate = FxRate(currency: Currency, fxToEur: real)

  /** The EUR rate the loop records for one currency, if any: 1.0 for EUR, and
      for any other currency the rate of a 200 reply when that rate is truthy
      (present and non-zero). */
  function Resolve(c: Currency, provider: Currency -> Response): (r: Option<real>)
    ensures c == Eur ==> r == Some(1.0)
    ensures r.Some? ==> r.value != 0.0
    ensures c != Eur && r.Some? ==>
      provider(c).Reply? && provider(c).status == 200 && provider(c).body == ConversionRates(r)
  {
    if c == Eur then Some(1.0)
    else
      match provider(c)
      case Raised => None
      case Reply(status, body) =>
        if status != 200 then None
        else
          match body
          case Unreadable => None
          case ConversionRates(rate) => if rate.Some? && rate.value != 0.0 then rate else None
  }

  /** The rate table built from `currencies`: one entry per resolved currency,
      in input order. */
  function RateTable(currencies: seq<Currency>, provider: Currency -> Response): seq<FxRate>
    decreases |currencies|
  {
    if currencies == [] then []
    else
      var c := currencies[|currencies| - 1];
      RateTable(currencies[..|currencies| - 1], provider)
        + (match Resolve(c, provider) case Some(r) => [FxRate(c, r)] case None => [])
  }

  /** The currencies a request is issued for, in order: all but EUR. */
  function Requests(currencies: seq<Currency>): seq<Currency>
    decreases |currencies|
  {
    if currencies == [] then []
    else
      var c := currencies[|currencies| - 1];
      Requests(currencies[..|currencies| - 1]) + (if c == Eur then [] else [c])
  }

  function RateCurrencies(fx: seq<FxRate>): (cs: seq<Currency>)
    ensures |cs| == |fx| && forall k :: 0 <= k < |fx| ==> cs[k] == fx[k].currency
  {
    seq(|fx|, k requires 0 <= k < |fx| => fx[k].currency)
  }

  /** The rate loop: `fx_rates` is appended inside a `for` loop over the
      currencies; EUR is appended and skipped with `continue`; for any other
      currency a request is issued (`requested` logs them) and the reply is
      classified; a non-200 status, an unreadable body or a raised request
      appends nothing and the loop moves on. */
  method FetchRates(currencies: seq<Currency>, provider: Currency -> Response)
    returns (fxRates: seq<FxRate>, requested: seq<Currency>)
    ensures fxRates == RateTable(currencies, provider)
    ensures requested == Requests(currencies)
  {
    fxRates := [];
    requested := [];
    for i := 0 to |currencies|
      invariant fxRates == RateTable(currencies[..i], provider)
      invariant requested == Requests(currencies[..i])
    {
      var currency := currencies[i];
      assert currencies[..i + 1][..i] == currencies[..i];
      if currency == Eur {
        fxRates := fxRates + [FxRate(Eur, 1.0)];
        continue;
      }
      requested := requested + [currency];
      var response := provider(currency);
      match response {
        case Raised =>
        case Reply(status, body) =>
          if status == 200 {
            match body {
              case Unreadable =>
              case ConversionRates(rate) =>
                if rate.Some? && rate.value != 0.0 {
                  fxRates := fxRates + [FxRate(currency, rate.value)];
                }
            }
          }
      }
    }
    assert currencies[..|currencies|] == currencies;
  }

  // ----- properties of the rate table -----

  /** Each currency is handled on its own: the table for a concatenation is
      the concatenation of the tables, so a failure for one currency neither
      stops the loop nor changes what the other currencies record. */
  lemma {:induction false} RateTableAppend(a: seq<Currency>, b: seq<Currency>, provider: Currency -> Response)
    ensures RateTable(a + b, provider) == RateTable(a, provider) + RateTable(b, provider)
    ensures Requests(a + b) == Requests(a) + Requests(b)
    decreases |b|
  {
    if b == [] {
      assert a + b == a;
    } else {
      var b' := b[..|b| - 1];
      assert (a + b)[..|a + b| - 1] == a + b';
      RateTableAppend(a, b', provider);
    }
  }

  /** An entry is recorded for a currency exactly when the currency is in the
      input and resolves, and it carries the resolved rate. */
  lemma {:induction false} RateTableEntries(currencies: seq<Currency>, provider: Currency -> Response)
    ensures forall c, r :: FxRate(c, r) in RateTable(currencies, provider) <==>
      c in currencies && Resolve(c, provider) == Some(r)
    decreases |currencies|
  {
    if currencies != [] {
      var init := currencies[..|currencies| - 1];
      RateTableEntries(init, provider);
      assert currencies == init + [currencies[|currencies| - 1]];
    }
  }

  /** EUR is never requested, every other input currency is, and nothing
      else is. */
  lemma {:induction false} RequestsSpec(currencies: seq<Currency>)
    ensures Eur !in Requests(currencies)
    ensures forall c :: c in Requests(currencies) <==> c in currencies && c != Eur
    ensures |Requests(currencies)| <= |currencies|
    decreases |currencies|
  {
    if currencies != [] {
      var init := currencies[..|currencies| - 1];
      RequestsSpec(init);
      assert currencies == init + [currencies[|currencies| - 1]];
    }
  }

  /** Every currency other than EUR is requested once per occurrence in the
      input. */
  lemma {:induction false} RequestsCount(currencies: seq<Currency>)
    ensures forall c :: multiset(Requests(currencies))[c] == if c == Eur then 0 else multiset(currencies)[c]
    decreases |currencies|
  {
    if currencies != [] {
      var init := currencies[..|currencies| - 1];
      var last := currencies[|currencies| - 1];
      RequestsCount(init);
      assert currencies == init + [last];
      assert multiset(currencies) == multiset(init) + multiset{last};
      assert multiset(Requests(currencies)) == multiset(Requests(init)) + multiset(if last == Eur then [] else [last]);
    }
  }

  /** Requesting keeps distinct currencies distinct. */
  lemma {:induction false} RequestsDistinct(currencies: seq<Currency>)
    requires Distinct(currencies)
    ensures Distinct(Requests(currencies))
    decreases |currencies|
  {
    if currencies != [] {
      var n := |currencies| - 1;
      var init := currencies[..n];
      RequestsDistinct(init);
      RequestsSpec(init);
      assert currencies[n] !in init;
    }
  }

  /** EUR, whatever the provider would say, is recorded with rate 1.0 and
      never requested. */
  lemma EurIsIdentity(currencies: seq<Currency>, provider: Currency -> Response)
    requires Eur in currencies
    ensures FxRate(Eur, 1.0) in RateTable(currencies, provider)
    ensures forall r :: FxRate(Eur, r) in RateTable(currencies, provider) ==> r == 1.0
    ensures Eur !in Requests(currencies)
  {
    RateTableEntries(currencies, provider);
    RequestsSpec(currencies);
  }

  /** A currency other than EUR is recorded exactly when its reply has status
      200 and a truthy EUR rate, and then with that rate; a missing rate or a
      rate of 0 records nothing. */
  lemma RecordedExactlyOnTruthyRate(
    currencies: seq<Currency>, provider: Currency -> Response, c: Currency)
    requires c in currencies && c != Eur
    ensures (exists r :: FxRate(c, r) in RateTable(currencies, provider)) <==>
      (provider(c).Reply? && provider(c).status == 200 && provider(c).body.ConversionRates?
       && provider(c).body.eur.Some? && provider(c).body.eur.value != 0.0)
    ensures forall r :: FxRate(c, r) in RateTable(currencies, provider) ==> Some(r) == provider(c).body.eur
  {
    RateTableEntries(currencies, provider);
    var p := provider(c);
    if p.Reply? && p.status == 200 && p.body.ConversionRates? && p.body.eur.Some? && p.body.eur.value != 0.0 {
      assert FxRate(c, p.body.eur.value) in RateTable(currencies, provider);
    }
  }

  /** A non-200 status, an unreadable body or a raised request leaves the
      currency out of the table. */
  lemma FailedLookupRecordsNothing(
    currencies: seq<Currency>, provider: Currency -> Response, c: Currency)
    requires c != Eur
    requires provider(c).Raised? || provider(c).status != 200 || provider(c).body.Unreadable?
    ensures forall r :: FxRate(c, r) !in RateTable(currencies, provider)
  {
    RateTableEntries(currencies, provider);
  }

  /** The input's currencies that resolve, in input order. */
  function ResolvedCurrencies(currencies: seq<Currency>, provider: Currency -> Response): (r: seq<Currency>)
    ensures forall c :: c in r ==> c in currencies && Resolve(c, provider).Some?
    decreases |currencies|
  {
    if currencies == [] then []
    else
      var c := currencies[|currencies| - 1];
      ResolvedCurrencies(currencies[..|currencies| - 1], provider)
        + (if Resolve(c, provider).Some? then [c] else [])
  }

  /** The table lists exactly the resolved currencies, in input order. */
  lemma {:induction false} RateTableCurrencies(currencies: seq<Currency>, provider: Currency -> Response)
    ensures RateCurrencies(RateTable(currencies, provider)) == ResolvedCurrencies(currencies, provider)
    decreases |currencies|
  {
    if currencies != [] {
      RateTableCurrencies(currencies[..|currencies| - 1], provider);
    }
  }

  /** Filtering keeps distinct currencies distinct. */
  lemma {:induction false} ResolvedDistinct(currencies: seq<Currency>, provider: Currency -> Response)
    requires Distinct(currencies)
    ensures Distinct(ResolvedCurrencies(currencies, provider))
    decreases |currencies|
  {
    if currencies != [] {
      var n := |currencies| - 1;
      var init := currencies[..n];
      ResolvedDistinct(init, provider);
      assert currencies[n] !in init;
    }
  }

  /** Filtering keeps an order: if the input's currencies come in increasing
      order of first appearance in `column`, so do the resolved ones. */
  lemma {:induction false} ResolvedKeepsOrder(
    currencies: seq<Currency>, provider: Currency -> Response, column: seq<Currency>)
    requires forall c :: c in currencies ==> c in column
    requires forall i, j :: 0 <= i < j < |currencies| ==>
      FirstIndex(column, currencies[i]) < FirstIndex(column, currencies[j])
    ensures forall i, j :: 0 <= i < j < |ResolvedCurrencies(currencies, provider)| ==>
      FirstIndex(column, ResolvedCurrencies(currencies, provider)[i])
        < FirstIndex(column, ResolvedCurrencies(currencies, provider)[j])
    decreases |currencies|
  {
    if currencies != [] {
      var n := |currencies| - 1;
      var init := currencies[..n];
      assert forall i :: 0 <= i < n ==> init[i] == currencies[i];
      ResolvedKeepsOrder(init, provider, column);
      var r0 := ResolvedCurrencies(init, provider);
      forall x | x in r0 ensures FirstIndex(column, x) < FirstIndex(column, currencies[n]) {
        var p :| 0 <= p < n && init[p] == x;
      }
    }
  }

  // ----- merge and conversion -----

  /** An expense row after the left merge: the rate is missing when the
      table has no entry for the row's currency. */
  datatype MergedExpense = MergedExpense(expense: SilverExpense, fxToEur: Option<real>)

  /** An expense row after `amount_eur` is computed. */
  datatype EurExpense = EurExpense(expense: SilverExpense, fxToEur: Option<real>, amountEur: Option<real>)

  /** `pd.DataFrame([])` has no `currency` column, so merging on it raises. */
  datatype MergeError = NoCurrencyColumn

  /** The `currency` column of the silver expenses. */
  function ExpenseCurrencies(expenses: seq<SilverExpense>): (cs: seq<Currency>)
    ensures |cs| == |expenses| && forall k :: 0 <= k < |expenses| ==> cs[k] == expenses[k].currency
  {
    seq(|expenses|, k requires 0 <= k < |expenses| => expenses[k].currency)
  }

  /** The rates the table holds for currency `c`, in table order. */
  function RatesFor(c: Currency, fx: seq<FxRate>): (rates: seq<real>)
    ensures forall r :: r in rates <==> FxRate(c, r) in fx
    ensures forall i :: 0 <= i < |rates| ==> FxRate(c, rates[i]) in fx
    decreases |fx|
  {
    if fx == [] then []
    else
      var last := fx[|fx| - 1];
      RatesFor(c, fx[..|fx| - 1]) + (if last.currency == c then [last.fxToEur] else [])
  }

  /** What a left merge makes of one expense row: one row per matching table
      entry, or the row with a missing rate when nothing matches. */
  function MergeRow(e: SilverExpense, fx: seq<FxRate>): (rows: seq<MergedExpense>)
    ensures |rows| >= 1
    ensures forall i :: 0 <= i < |rows| ==>
      && rows[i].expense == e
      && (rows[i].fxToEur.Some? ==> FxRate(e.currency, rows[i].fxToEur.value) in fx)
      && (rows[i].fxToEur.None? <==> forall r :: FxRate(e.currency, r) !in fx)
  {
    var rates := RatesFor(e.currency, fx);
    if rates == [] then [MergedExpense(e, None)]
    else seq(|rates|, j requires 0 <= j < |rates| => MergedExpense(e, Some(rates[j])))
  }

  /** `silver_expenses.merge(fx_df, on="currency", how="left")`. */
  function LeftMergeFx(expenses: seq<SilverExpense>, fx: seq<FxRate>): (r: Result<seq<MergedExpense>, MergeError>)
    ensures r.Failure? <==> fx == []
    ensures r.Success? ==> |r.value| >= |expenses|
    ensures r.Success? ==> forall e :: e in expenses ==> exists m :: m in r.value && m.expense == e
    ensures r.Success? ==> forall m :: m in r.value ==>
      && m.expense in expenses
      && (m.fxToEur.Some? ==> FxRate(m.expense.currency, m.fxToEur.value) in fx)
      && (m.fxToEur.None? <==> forall x :: FxRate(m.expense.currency, x) !in fx)
  {
    if fx == [] then Failure(NoCurrencyColumn)
    else
      var pieces: seq<seq<MergedExpense>> := MergePieces(expenses, fx);
      MergePiecesRows(expenses, fx);
      Success(Flatten(pieces))
  }

  /** The rows the left merge makes, one group per expense row. */
  function MergePieces(expenses: seq<SilverExpense>, fx: seq<FxRate>): seq<seq<MergedExpense>> {
    seq(|expenses|, k requires 0 <= k < |expenses| => MergeRow(expenses[k], fx))
  }

  lemma {:induction false} MergePiecesLength(expenses: seq<SilverExpense>, fx: seq<FxRate>)
    ensures TotalLength(MergePieces(expenses, fx)) >= |expenses|
    decreases |expenses|
  {
    if expenses != [] {
      var n := |expenses| - 1;
      MergePiecesLength(expenses[..n], fx);
      assert MergePieces(expenses, fx)[..n] == MergePieces(expenses[..n], fx);
    }
  }

  lemma MergePiecesRows(expenses: seq<SilverExpense>, fx: seq<FxRate>)
    ensures |Flatten(MergePieces(expenses, fx))| >= |expenses|
    ensures forall e :: e in expenses ==> exists m :: m in Flatten(MergePieces(expenses, fx)) && m.expense == e
    ensures forall m :: m in Flatten(MergePieces(expenses, fx)) ==>
      && m.expense in expenses
      && (m.fxToEur.Some? ==> FxRate(m.expense.currency, m.fxToEur.value) in fx)
      && (m.fxToEur.None? <==> forall x :: FxRate(m.expense.currency, x) !in fx)
  {
    var pieces: seq<seq<MergedExpense>> := MergePieces(expenses, fx);
    MergePiecesLength(expenses, fx);
    FlattenLength(pieces);
    forall e | e in expenses ensures exists m :: m in Flatten(pieces) && m.expense == e {
      var k :| 0 <= k < |expenses| && expenses[k] == e;
      var m := pieces[k][0];
      assert m in pieces[k];
      FlattenContains(pieces, k, m);
    }
    forall m: MergedExpense | m in Flatten(pieces)
      ensures m.expense in expenses
      ensures m.fxToEur.Some? ==> FxRate(m.expense.currency, m.fxToEur.value) in fx
      ensures m.fxToEur.None? <==> forall x :: FxRate(m.expense.currency, x) !in fx
    {
      FlattenMember(pieces, m);
      var k :| 0 <= k < |pieces| && m in pieces[k];
      var i :| 0 <= i < |pieces[k]| && pieces[k][i] == m;
    }
  }

  /** `amount_eur = amount_local * fx_to_eur`: a missing rate gives a missing
      amount. */
  function WithAmountEur(m: MergedExpense): (r: EurExpense)
    ensures r.expense == m.expense && r.fxToEur == m.fxToEur
    ensures r.amountEur.Some? <==> m.fxToEur.Some?
  {
    EurExpense(m.expense, m.fxToEur, Times(m.expense.amountLocal, m.fxToEur))
  }

  /** A product with a possibly missing factor (NaN propagates). */
  function Times(amount: real, rate: Option<real>): (r: Option<real>)
    ensures r.Some? <==> rate.Some?
  {
    match rate
    case Some(x) => Some(amount * x)
    case None => None
  }

  /** The amount in EUR a row should get: its local amount times its
      currency's resolved rate, missing when the currency did not resolve. */
  function ConvertedAmount(e: SilverExpense, provider: Currency -> Response): Option<real>
  {
    Times(e.amountLocal, Resolve(e.currency, provider))
  }

  function ConvertExpenses(expenses: seq<SilverExpense>, fx: seq<FxRate>): Result<seq<EurExpense>, MergeError>
  {
    var merged :- LeftMergeFx(expenses, fx);
    Success(seq(|merged|, k requires 0 <= k < |merged| => WithAmountEur(merged[k])))
  }

  /** With at most one entry per currency, the rates held for a currency are
      its entry's rate, or none. */
  lemma {:induction false} RatesForDistinct(c: Currency, fx: seq<FxRate>)
    requires Distinct(RateCurrencies(fx))
    ensures |RatesFor(c, fx)| <= 1
    ensures forall r :: RatesFor(c, fx) == [r] <==> FxRate(c, r) in fx
    ensures RatesFor(c, fx) == [] <==> forall r :: FxRate(c, r) !in fx
    decreases |fx|
  {
    if fx != [] {
      var n := |fx| - 1;
      var init := fx[..n];
      var last := fx[n];
      assert RateCurrencies(init) == RateCurrencies(fx)[..n];
      RatesForDistinct(c, init);
      assert fx == init + [last];
      assert forall r :: FxRate(c, r) in fx <==> FxRate(c, r) in init || FxRate(c, r) == last;
      if last.currency == c {
        assert forall k :: 0 <= k < n ==> RateCurrencies(fx)[k] != RateCurrencies(fx)[n];
        assert forall k :: 0 <= k < n ==> init[k].currency != c;
        assert forall r :: FxRate(c, r) !in init;
        assert RatesFor(c, fx) == [last.fxToEur];
      } else {
        assert RatesFor(c, fx) == RatesFor(c, init);
      }
    }
  }

  /** The left merge keeps every expense row exactly once, in order, when the
      table has at most one entry per currency; a row's rate is its currency's
      entry, missing when there is none. */
  lemma LeftMergeKeepsRows(expenses: seq<SilverExpense>, fx: seq<FxRate>)
    requires fx != [] && Distinct(RateCurrencies(fx))
    ensures LeftMergeFx(expenses, fx).Success?
    ensures var m := LeftMergeFx(expenses, fx).value;
      && |m| == |expenses|
      && forall k :: 0 <= k < |m| ==>
           && m[k].expense == expenses[k]
           && (forall r :: m[k].fxToEur == Some(r) <==> FxRate(expenses[k].currency, r) in fx)
  {
    var pieces: seq<seq<MergedExpense>> := MergePieces(expenses, fx);
    forall k | 0 <= k < |expenses|
      ensures |pieces[k]| == 1 && pieces[k][0].expense == expenses[k]
      ensures forall r :: pieces[k][0].fxToEur == Some(r) <==> FxRate(expenses[k].currency, r) in fx
    {
      RatesForDistinct(expenses[k].currency, fx);
    }
    FlattenSingletons(pieces);
  }

  /** The table built from `unique()` of the currency column is empty
      exactly when no expense currency resolves. */
  lemma RateTableEmpty(expenses: seq<SilverExpense>, provider: Currency -> Response)
    ensures RateTable(Unique(ExpenseCurrencies(expenses)), provider) == [] <==>
      forall k :: 0 <= k < |expenses| ==> Resolve(expenses[k].currency, provider).None?
  {
    var column := ExpenseCurrencies(expenses);
    var cs := Unique(column);
    var fx := RateTable(cs, provider);
    UniqueElements(column);
    RateTableEntries(cs, provider);
    if fx == [] {
      forall k | 0 <= k < |expenses| ensures Resolve(expenses[k].currency, provider).None? {
        assert column[k] in cs;
        assert forall r :: FxRate(column[k], r) !in fx;
      }
    } else {
      var e := fx[0];
      assert e in fx;
      assert e.currency in column;
      var j :| 0 <= j < |column| && column[j] == e.currency;
      assert Resolve(expenses[j].currency, provider).Some?;
    }
  }

  /** On the table built from `unique()` of the currency column, when it is
      not empty, the left merge keeps every expense row once and in order,
      with its currency's resolved rate. */
  lemma MergedRates(expenses: seq<SilverExpense>, provider: Currency -> Response)
    requires RateTable(Unique(ExpenseCurrencies(expenses)), provider) != []
    ensures var fx := RateTable(Unique(ExpenseCurrencies(expenses)), provider);
      && LeftMergeFx(expenses, fx).Success?
      && |LeftMergeFx(expenses, fx).value| == |expenses|
      && forall k :: 0 <= k < |expenses| ==>
           && LeftMergeFx(expenses, fx).value[k].expense == expenses[k]
           && LeftMergeFx(expenses, fx).value[k].fxToEur == Resolve(expenses[k].currency, provider)
  {
    var column := ExpenseCurrencies(expenses);
    var cs := Unique(column);
    var fx := RateTable(cs, provider);
    UniqueElements(column);
    RateTableCurrencies(cs, provider);
    ResolvedDistinct(cs, provider);
    LeftMergeKeepsRows(expenses, fx);
    RateTableEntries(cs, provider);
    var m := LeftMergeFx(expenses, fx).value;
    forall k | 0 <= k < |expenses|
      ensures m[k].fxToEur == Resolve(expenses[k].currency, provider)
    {
      assert column[k] in cs;
      var got := m[k].fxToEur;
      if got.Some? {
        assert FxRate(expenses[k].currency, got.value) in fx;
      } else {
        assert forall r :: FxRate(expenses[k].currency, r) !in fx;
      }
    }
  }

  /** The conversion on the table the loop builds from `unique()`: the merge
      raises only when no currency resolved; otherwise every expense row is
      kept once and in order, and its `amount_eur` is `amount_local` times its
      currency's rate when the currency resolved, missing otherwise. */
  lemma ConversionSpec(expenses: seq<SilverExpense>, provider: Currency -> Response)
    ensures var fx := RateTable(Unique(ExpenseCurrencies(expenses)), provider);
      ConvertExpenses(expenses, fx).Failure? <==>
        forall k :: 0 <= k < |expenses| ==> Resolve(expenses[k].currency, provider).None?
    ensures var fx := RateTable(Unique(ExpenseCurrencies(expenses)), provider);
      ConvertExpenses(expenses, fx).Success? ==>
        var out := ConvertExpenses(expenses, fx).value;
        && |out| == |expenses|
        && forall k :: 0 <= k < |out| ==>
             && out[k].expense == expenses[k]
             && out[k].amountEur == ConvertedAmount(expenses[k], provider)
  {
    var fx := RateTable(Unique(ExpenseCurrencies(expenses)), provider);
    RateTableEmpty(expenses, provider);
    if fx != [] {
      MergedRates(expenses, provider);
      var m := LeftMergeFx(expenses, fx).value;
      var out := ConvertExpenses(expenses, fx).value;
      forall k | 0 <= k < |expenses|
        ensures out[k].expense == expenses[k]
        ensures out[k].amountEur == ConvertedAmount(expenses[k], provider)
      {
        assert out[k] == WithAmountEur(m[k]);
        assert m[k].fxToEur == Resolve(expenses[k].currency, provider);
      }
    }
  }
}
