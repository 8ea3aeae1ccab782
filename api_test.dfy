/** The stand-alone rate script: the same rate loop as the gold layer, run
    over the distinct currencies of the silver expenses, whose table is only
    displayed. */
module ApiTest {
  import opened Seqs
  import opened SilverLayer
  import opened FxRates

  /** The script: `unique()` of the currency column, then the rate loop. */
  method RunApiTest(expenses: seq<SilverExpense>, provider: Currency -> Response)
    returns (fxRates: seq<FxRate>, requested: seq<Currency>)
    ensures fxRates == RateTable(Unique(ExpenseCurrencies(expenses)), provider)
    ensures requested == Requests(Unique(ExpenseCurrencies(expenses)))
  {
    var uniqueCurrencies := Unique(ExpenseCurrencies(expenses));
    fxRates, requested := FetchRates(uniqueCurrencies, provider);
  }

  /** The table holds at most one entry per distinct expense currency, only
      currencies that occur in the expenses, in order of first appearance in
      the currency column; and each currency is requested at most once. */
  lemma ApiTestTable(expenses: seq<SilverExpense>, provider: Currency -> Response)
    ensures var fx := RateTable(Unique(ExpenseCurrencies(expenses)), provider);
      && Distinct(RateCurrencies(fx))
      && (forall c :: c in RateCurrencies(fx) ==> c in ExpenseCurrencies(expenses))
      && forall i, j :: 0 <= i < j < |fx| ==>
           FirstIndex(ExpenseCurrencies(expenses), fx[i].currency)
             < FirstIndex(ExpenseCurrencies(expenses), fx[j].currency)
    ensures Distinct(Requests(Unique(ExpenseCurrencies(expenses))))
  {
    var column := ExpenseCurrencies(expenses);
    var cs := Unique(column);
    var fx := RateTable(cs, provider);
    UniqueElements(column);
    UniqueFirstAppearanceOrder(column);
    RateTableCurrencies(cs, provider);
    ResolvedDistinct(cs, provider);
    ResolvedKeepsOrder(cs, provider, column);
    assert forall i :: 0 <= i < |fx| ==> fx[i].currency == RateCurrencies(fx)[i];
    RequestsDistinct(cs);
  }
}
