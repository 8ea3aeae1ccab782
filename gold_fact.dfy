/** The gold fact table and the project dimension.

    Budgets and converted expenses are projected to the key (date,
    project_code, department, category) plus one measure and outer-joined on
    that key; both measures are then filled with 0 where missing. The
    project dimension is the de-duplicated (project_code, country, name)
    table of bronze projects, left-joined onto the fact by project_code. */
module GoldFact {
  import opened Wrappers
  import opened Seqs
  import opened Calendar
  import opened BronzeLayer
  import opened SilverLayer
  import opened FxRates
  import opened DimDate

  datatype FactKey = FactKey(date: Date, projectCode: string, department: string, category: string)

  /** A row of `fact_budget`. */
  datatype BudgetFact = BudgetFact(key: FactKey, budgetEur: real)

  /** A row of `fact_expense`; the amount is missing when the currency had no
      rate. */
  datatype ExpenseFact = ExpenseFact(key: FactKey, amountEur: Option<real>)

  /** A row of the outer join, before the fill: a measure is missing when its
      side had no row for the key (or, for the amount, no rate). */
  datatype JoinedFact = JoinedFact(key: FactKey, budgetEur: Option<real>, amountEur: Option<real>)

  /** A row of `gold_fact` after the fill. */
  datatype FactRow = FactRow(key: FactKey, budgetEur: real, amountEur: real)

  /** A row of `gold_fact` after the project join. */
  datatype GoldRow = GoldRow(fact: FactRow, country: Option<string>, name: Option<string>)

  // ----- projections -----

  function BudgetKey(b: SilverBudget): FactKey {
    FactKey(b.date, b.projectCode, b.department, b.category)
  }

  function ExpenseKey(e: SilverExpense): FactKey {
    FactKey(e.date, e.projectCode, e.department, e.category)
  }

  function BudgetFacts(budgets: seq<SilverBudget>): seq<BudgetFact> {
    seq(|budgets|, i requires 0 <= i < |budgets| => BudgetFact(BudgetKey(budgets[i]), budgets[i].budgetEur))
  }

  function ExpenseFacts(converted: seq<EurExpense>): seq<ExpenseFact> {
    seq(|converted|, i requires 0 <= i < |converted| =>
      ExpenseFact(ExpenseKey(converted[i].expense), converted[i].amountEur))
  }

  function BudgetKeys(bs: seq<BudgetFact>): (ks: seq<FactKey>)
    ensures |ks| == |bs| && forall i :: 0 <= i < |bs| ==> ks[i] == bs[i].key
  {
    seq(|bs|, i requires 0 <= i < |bs| => bs[i].key)
  }

  function ExpenseKeys(es: seq<ExpenseFact>): (ks: seq<FactKey>)
    ensures |ks| == |es| && forall i :: 0 <= i < |es| ==> ks[i] == es[i].key
  {
    seq(|es|, i requires 0 <= i < |es| => es[i].key)
  }

  function JoinedKeys(js: seq<JoinedFact>): (ks: seq<FactKey>)
    ensures |ks| == |js| && forall i :: 0 <= i < |js| ==> ks[i] == js[i].key
  {
    seq(|js|, i requires 0 <= i < |js| => js[i].key)
  }

  /** How many rows of a table have key `k`. */
  function Occurrences(ks: seq<FactKey>, k: FactKey): nat {
    multiset(ks)[k]
  }

  // ----- the outer join -----

  /** The expense rows with key `k`, in order. */
  function ExpensesWithKey(k: FactKey, es: seq<ExpenseFact>): seq<ExpenseFact>
    decreases |es|
  {
    if es == [] then []
    else
      var e := es[|es| - 1];
      ExpensesWithKey(k, es[..|es| - 1]) + (if e.key == k then [e] else [])
  }

  /** What the outer join makes of one budget row: one row per expense row
      with the same key, or the budget row alone when there is none. */
  function BudgetRowMatches(b: BudgetFact, es: seq<ExpenseFact>): seq<JoinedFact> {
    var ms := ExpensesWithKey(b.key, es);
    if ms == [] then [JoinedFact(b.key, Some(b.budgetEur), None)]
    else WithBudget(b, ms)
  }

  /** Budget row `b` paired with each of the expense rows `ms`. */
  function WithBudget(b: BudgetFact, ms: seq<ExpenseFact>): seq<JoinedFact> {
    seq(|ms|, j requires 0 <= j < |ms| => JoinedFact(b.key, Some(b.budgetEur), ms[j].amountEur))
  }

  function BudgetSide(bs: seq<BudgetFact>, es: seq<ExpenseFact>): seq<JoinedFact>
    decreases |bs|
  {
    if bs == [] then []
    else BudgetSide(bs[..|bs| - 1], es) + BudgetRowMatches(bs[|bs| - 1], es)
  }

  /** The expense rows whose key no budget row has, with a missing budget. */
  function ExpenseOnly(es: seq<ExpenseFact>, budgetKeys: seq<FactKey>): seq<JoinedFact>
    decreases |es|
  {
    if es == [] then []
    else
      var e := es[|es| - 1];
      ExpenseOnly(es[..|es| - 1], budgetKeys)
        + (if e.key in budgetKeys then [] else [JoinedFact(e.key, None, e.amountEur)])
  }

  /** `pd.merge(fact_budget, fact_expense, on=key, how="outer")`. Row order is
      not modelled (pandas sorts the keys); the rows are. */
  function OuterJoin(bs: seq<BudgetFact>, es: seq<ExpenseFact>): seq<JoinedFact> {
    BudgetSide(bs, es) + ExpenseOnly(es, BudgetKeys(bs))
  }

  /** `fillna(0)` on both measures. */
  function Fill(js: seq<JoinedFact>): (r: seq<FactRow>)
    ensures |r| == |js|
    ensures forall i :: 0 <= i < |r| ==> r[i].key == js[i].key
    ensures forall i :: 0 <= i < |r| ==>
      && (js[i].budgetEur.Some? ==> r[i].budgetEur == js[i].budgetEur.value)
      && (js[i].budgetEur.None? ==> r[i].budgetEur == 0.0)
      && (js[i].amountEur.Some? ==> r[i].amountEur == js[i].amountEur.value)
      && (js[i].amountEur.None? ==> r[i].amountEur == 0.0)
  {
    seq(|js|, i requires 0 <= i < |js| =>
      FactRow(js[i].key, js[i].budgetEur.GetOr(0.0), js[i].amountEur.GetOr(0.0)))
  }

  // ----- counting rows per key -----

  function AtLeastOne(n: nat): nat {
    if n == 0 then 1 else n
  }

  /** `m` copies of `a`, added up. */
  function Copies(m: nat, a: nat): nat
    decreases m
  {
    if m == 0 then 0 else Copies(m - 1, a) + a
  }

  lemma {:induction false} CopiesIsProduct(m: nat, a: nat)
    ensures Copies(m, a) == m * a
    decreases m
  {
    if m > 0 {
      CopiesIsProduct(m - 1, a);
      assert m * a == (m - 1) * a + a;
    }
  }

  lemma MulPositive(m: nat, n: nat)
    requires m > 0 && n > 0
    ensures m * n > 0
  {
  }

  lemma JoinedKeysAppend(a: seq<JoinedFact>, b: seq<JoinedFact>)
    ensures JoinedKeys(a + b) == JoinedKeys(a) + JoinedKeys(b)
  {
  }

  /** The expense rows with key `k` are the rows of `es` with that key, as
      many as `es` has. */
  lemma {:induction false} ExpensesWithKeySpec(k: FactKey, es: seq<ExpenseFact>)
    ensures |ExpensesWithKey(k, es)| == Occurrences(ExpenseKeys(es), k)
    ensures forall e :: e in ExpensesWithKey(k, es) <==> e in es && e.key == k
    decreases |es|
  {
    if es != [] {
      var init := es[..|es| - 1];
      ExpensesWithKeySpec(k, init);
      assert es == init + [es[|es| - 1]];
      assert ExpenseKeys(es) == ExpenseKeys(init) + [es[|es| - 1].key];
    }
  }

  lemma {:induction false} SameKeyCount(js: seq<JoinedFact>, x: FactKey, k: FactKey)
    requires forall i :: 0 <= i < |js| ==> js[i].key == x
    ensures Occurrences(JoinedKeys(js), k) == if k == x then |js| else 0
    decreases |js|
  {
    if js != [] {
      var init := js[..|js| - 1];
      SameKeyCount(init, x, k);
      assert JoinedKeys(js) == JoinedKeys(init) + [x];
    }
  }

  /** A budget row yields `max(1, n)` rows with its key, where `n` counts the
      expense rows with that key, and no other row. */
  lemma BudgetRowMatchesCount(b: BudgetFact, es: seq<ExpenseFact>, k: FactKey)
    ensures Occurrences(JoinedKeys(BudgetRowMatches(b, es)), k) ==
      if k == b.key then AtLeastOne(Occurrences(ExpenseKeys(es), k)) else 0
  {
    ExpensesWithKeySpec(b.key, es);
    SameKeyCount(BudgetRowMatches(b, es), b.key, k);
  }

  lemma OccurrencesAppend(a: seq<FactKey>, b: seq<FactKey>, k: FactKey)
    ensures Occurrences(a + b, k) == Occurrences(a, k) + Occurrences(b, k)
  {
    assert multiset(a + b) == multiset(a) + multiset(b);
  }

  lemma {:induction false} BudgetSideCount(bs: seq<BudgetFact>, es: seq<ExpenseFact>, k: FactKey)
    ensures Occurrences(JoinedKeys(BudgetSide(bs, es)), k) ==
      Copies(Occurrences(BudgetKeys(bs), k), AtLeastOne(Occurrences(ExpenseKeys(es), k)))
    decreases |bs|
  {
    if bs != [] {
      var init := bs[..|bs| - 1];
      var b := bs[|bs| - 1];
      var a := AtLeastOne(Occurrences(ExpenseKeys(es), k));
      var m := Occurrences(BudgetKeys(init), k);
      BudgetSideCount(init, es, k);
      BudgetSideSplit(bs, es, k);
      BudgetRowMatchesCount(b, es, k);
      CopiesStep(m, a, b.key == k);
    }
  }

  lemma CopiesStep(m: nat, a: nat, more: bool)
    ensures Copies(m + (if more then 1 else 0), a) == Copies(m, a) + (if more then a else 0)
  {
  }

  /** The counts of a key in the budget side and in the budget keys, split
      into the rows before the last budget row and that row's own. */
  lemma BudgetSideSplit(bs: seq<BudgetFact>, es: seq<ExpenseFact>, k: FactKey)
    requires bs != []
    ensures var init := bs[..|bs| - 1];
      var b := bs[|bs| - 1];
      && Occurrences(JoinedKeys(BudgetSide(bs, es)), k) ==
           Occurrences(JoinedKeys(BudgetSide(init, es)), k) + Occurrences(JoinedKeys(BudgetRowMatches(b, es)), k)
      && Occurrences(BudgetKeys(bs), k) == Occurrences(BudgetKeys(init), k) + (if b.key == k then 1 else 0)
  {
    var init := bs[..|bs| - 1];
    var b := bs[|bs| - 1];
    var left := BudgetSide(init, es);
    var piece := BudgetRowMatches(b, es);
    assert BudgetSide(bs, es) == left + piece;
    JoinedKeysAppend(left, piece);
    OccurrencesAppend(JoinedKeys(left), JoinedKeys(piece), k);
    assert BudgetKeys(bs) == BudgetKeys(init) + [b.key];
    OccurrencesAppend(BudgetKeys(init), [b.key], k);
  }

  lemma {:induction false} ExpenseOnlyCount(es: seq<ExpenseFact>, budgetKeys: seq<FactKey>, k: FactKey)
    ensures Occurrences(JoinedKeys(ExpenseOnly(es, budgetKeys)), k) ==
      if k in budgetKeys then 0 else Occurrences(ExpenseKeys(es), k)
    decreases |es|
  {
    if es != [] {
      var init := es[..|es| - 1];
      var e := es[|es| - 1];
      ExpenseOnlyCount(init, budgetKeys, k);
      JoinedKeysAppend(ExpenseOnly(init, budgetKeys),
        if e.key in budgetKeys then [] else [JoinedFact(e.key, None, e.amountEur)]);
      assert ExpenseKeys(es) == ExpenseKeys(init) + [e.key];
    }
  }

  /** pandas' multiset semantics of the outer join: a key with `m` budget rows
      and `n` expense rows gives `m * n` rows when both are positive, and
      otherwise `m` or `n` rows, one per row of the side that has it. */
  lemma OuterJoinCounts(bs: seq<BudgetFact>, es: seq<ExpenseFact>, k: FactKey)
    ensures var m := Occurrences(BudgetKeys(bs), k);
      var n := Occurrences(ExpenseKeys(es), k);
      Occurrences(JoinedKeys(OuterJoin(bs, es)), k) == if m > 0 && n > 0 then m * n else m + n
  {
    var m := Occurrences(BudgetKeys(bs), k);
    var n := Occurrences(ExpenseKeys(es), k);
    var left := BudgetSide(bs, es);
    var right := ExpenseOnly(es, BudgetKeys(bs));
    BudgetSideCount(bs, es, k);
    ExpenseOnlyCount(es, BudgetKeys(bs), k);
    JoinedKeysAppend(left, right);
    OccurrencesAppend(JoinedKeys(left), JoinedKeys(right), k);
    assert k in BudgetKeys(bs) <==> m > 0;
    if m > 0 && n > 0 {
      CopiesIsProduct(m, n);
    } else if m > 0 {
      CopiesIsProduct(m, 1);
    }
  }

  /** Every key present in budgets or expenses appears in the joined table,
      and no other key does. */
  lemma OuterJoinKeys(bs: seq<BudgetFact>, es: seq<ExpenseFact>)
    ensures forall k :: k in JoinedKeys(OuterJoin(bs, es)) <==> k in BudgetKeys(bs) || k in ExpenseKeys(es)
  {
    forall k ensures k in JoinedKeys(OuterJoin(bs, es)) <==> k in BudgetKeys(bs) || k in ExpenseKeys(es) {
      OuterJoinCounts(bs, es, k);
      var m := Occurrences(BudgetKeys(bs), k);
      var n := Occurrences(ExpenseKeys(es), k);
      assert k in BudgetKeys(bs) <==> m > 0;
      assert k in ExpenseKeys(es) <==> n > 0;
      assert k in JoinedKeys(OuterJoin(bs, es)) <==> Occurrences(JoinedKeys(OuterJoin(bs, es)), k) > 0;
      if m > 0 && n > 0 {
        MulPositive(m, n);
      }
    }
  }

  // ----- which rows pair up -----

  /** The number of expense rows whose key is that of budget row `b` and
      whose pairing with `b` is the joined row `x`. */
  function PairsWith(b: BudgetFact, es: seq<ExpenseFact>, x: JoinedFact): nat
    decreases |es|
  {
    if es == [] then 0
    else
      var e := es[|es| - 1];
      PairsWith(b, es[..|es| - 1], x)
        + (if e.key == b.key && x == JoinedFact(b.key, Some(b.budgetEur), e.amountEur) then 1 else 0)
  }

  /** The number of (budget row, expense row) pairs with equal keys that pair
      into `x`. */
  function MatchedPairs(bs: seq<BudgetFact>, es: seq<ExpenseFact>, x: JoinedFact): nat
    decreases |bs|
  {
    if bs == [] then 0 else MatchedPairs(bs[..|bs| - 1], es, x) + PairsWith(bs[|bs| - 1], es, x)
  }

  /** The number of budget rows whose key no expense row has and which, with
      a missing amount, are `x`. */
  function UnmatchedBudgets(bs: seq<BudgetFact>, es: seq<ExpenseFact>, x: JoinedFact): nat
    decreases |bs|
  {
    if bs == [] then 0
    else
      var b := bs[|bs| - 1];
      UnmatchedBudgets(bs[..|bs| - 1], es, x)
        + (if b.key !in ExpenseKeys(es) && x == JoinedFact(b.key, Some(b.budgetEur), None) then 1 else 0)
  }

  /** The number of expense rows whose key no budget row has and which, with
      a missing budget, are `x`. */
  function UnmatchedExpenses(es: seq<ExpenseFact>, bs: seq<BudgetFact>, x: JoinedFact): nat
    decreases |es|
  {
    if es == [] then 0
    else
      var e := es[|es| - 1];
      UnmatchedExpenses(es[..|es| - 1], bs, x)
        + (if e.key !in BudgetKeys(bs) && x == JoinedFact(e.key, None, e.amountEur) then 1 else 0)
  }

  lemma WithBudgetAppend(b: BudgetFact, ms: seq<ExpenseFact>, ns: seq<ExpenseFact>)
    ensures WithBudget(b, ms + ns) == WithBudget(b, ms) + WithBudget(b, ns)
  {
  }

  /** Pairing a budget row with the expense rows of its key gives each pair
      once. */
  lemma {:induction false} WithBudgetCount(b: BudgetFact, es: seq<ExpenseFact>, x: JoinedFact)
    ensures multiset(WithBudget(b, ExpensesWithKey(b.key, es)))[x] == PairsWith(b, es, x)
    decreases |es|
  {
    if es != [] {
      var init := es[..|es| - 1];
      var e := es[|es| - 1];
      var tail := if e.key == b.key then [e] else [];
      var left := WithBudget(b, ExpensesWithKey(b.key, init));
      WithBudgetCount(b, init, x);
      WithBudgetAppend(b, ExpensesWithKey(b.key, init), tail);
      assert multiset(left + WithBudget(b, tail)) == multiset(left) + multiset(WithBudget(b, tail));
      if e.key == b.key {
        assert WithBudget(b, tail) == [JoinedFact(b.key, Some(b.budgetEur), e.amountEur)];
      } else {
        assert WithBudget(b, tail) == [];
      }
    }
  }

  /** One budget row becomes one row per expense row of its key, or itself
      with a missing amount when there is none. */
  lemma BudgetRowMatchesContents(b: BudgetFact, es: seq<ExpenseFact>, x: JoinedFact)
    ensures multiset(BudgetRowMatches(b, es))[x] == PairsWith(b, es, x)
      + (if b.key !in ExpenseKeys(es) && x == JoinedFact(b.key, Some(b.budgetEur), None) then 1 else 0)
  {
    ExpensesWithKeySpec(b.key, es);
    WithBudgetCount(b, es, x);
    assert b.key in ExpenseKeys(es) <==> Occurrences(ExpenseKeys(es), b.key) > 0;
    if ExpensesWithKey(b.key, es) == [] {
      assert WithBudget(b, []) == [];
    }
  }

  lemma {:induction false} BudgetSideContents(bs: seq<BudgetFact>, es: seq<ExpenseFact>, x: JoinedFact)
    ensures multiset(BudgetSide(bs, es))[x] == MatchedPairs(bs, es, x) + UnmatchedBudgets(bs, es, x)
    decreases |bs|
  {
    if bs != [] {
      var init := bs[..|bs| - 1];
      var b := bs[|bs| - 1];
      BudgetSideContents(init, es, x);
      BudgetRowMatchesContents(b, es, x);
      assert multiset(BudgetSide(bs, es)) == multiset(BudgetSide(init, es)) + multiset(BudgetRowMatches(b, es));
    }
  }

  lemma {:induction false} ExpenseOnlyContents(es: seq<ExpenseFact>, bs: seq<BudgetFact>, x: JoinedFact)
    ensures multiset(ExpenseOnly(es, BudgetKeys(bs)))[x] == UnmatchedExpenses(es, bs, x)
    decreases |es|
  {
    if es != [] {
      var init := es[..|es| - 1];
      var e := es[|es| - 1];
      var tail := if e.key in BudgetKeys(bs) then [] else [JoinedFact(e.key, None, e.amountEur)];
      ExpenseOnlyContents(init, bs, x);
      assert multiset(ExpenseOnly(es, BudgetKeys(bs))) == multiset(ExpenseOnly(init, BudgetKeys(bs))) + multiset(tail);
    }
  }

  /** pandas' outer merge as a multiset: a joined row occurs once for every
      (budget row, expense row) pair with equal keys that yields it, once for
      every budget row whose key no expense row has, and once for every
      expense row whose key no budget row has; nothing else is in the
      result. */
  lemma OuterJoinContents(bs: seq<BudgetFact>, es: seq<ExpenseFact>, x: JoinedFact)
    ensures multiset(OuterJoin(bs, es))[x] ==
      MatchedPairs(bs, es, x) + UnmatchedBudgets(bs, es, x) + UnmatchedExpenses(es, bs, x)
  {
    BudgetSideContents(bs, es, x);
    ExpenseOnlyContents(es, bs, x);
    assert multiset(OuterJoin(bs, es)) == multiset(BudgetSide(bs, es)) + multiset(ExpenseOnly(es, BudgetKeys(bs)));
  }

  /** Two budget rows and two expense rows of one key join into the four
      pairs, each once. */
  lemma OuterJoinPairsExample(k: FactKey)
    ensures var bs := [BudgetFact(k, 10.0), BudgetFact(k, 20.0)];
      var es := [ExpenseFact(k, Some(1.0)), ExpenseFact(k, Some(2.0))];
      multiset(OuterJoin(bs, es)) == multiset{
        JoinedFact(k, Some(10.0), Some(1.0)), JoinedFact(k, Some(10.0), Some(2.0)),
        JoinedFact(k, Some(20.0), Some(1.0)), JoinedFact(k, Some(20.0), Some(2.0))}
  {
    var b1, b2 := BudgetFact(k, 10.0), BudgetFact(k, 20.0);
    var e1, e2 := ExpenseFact(k, Some(1.0)), ExpenseFact(k, Some(2.0));
    var bs, es := [b1, b2], [e1, e2];
    assert bs[..|bs| - 1] == [b1] && [b1][..0] == [];
    assert es[..|es| - 1] == [e1] && [e1][..0] == [];
    assert ExpensesWithKey(k, [e1]) == [e1];
    assert ExpensesWithKey(k, es) == es;
    assert BudgetKeys(bs) == [k, k];
    assert ExpenseOnly([e1], BudgetKeys(bs)) == [];
    assert ExpenseOnly(es, BudgetKeys(bs)) == [];
    assert BudgetSide([b1], es) == BudgetRowMatches(b1, es);
    assert BudgetSide(bs, es) == BudgetRowMatches(b1, es) + BudgetRowMatches(b2, es);
    var x11, x12 := JoinedFact(k, Some(10.0), Some(1.0)), JoinedFact(k, Some(10.0), Some(2.0));
    var x21, x22 := JoinedFact(k, Some(20.0), Some(1.0)), JoinedFact(k, Some(20.0), Some(2.0));
    assert WithBudget(b1, es) == [x11, x12];
    assert WithBudget(b2, es) == [x21, x22];
    assert OuterJoin(bs, es) == [x11, x12, x21, x22];
  }

  // ----- where the measures come from -----

  lemma {:induction false} BudgetSideRows(bs: seq<BudgetFact>, es: seq<ExpenseFact>)
    ensures forall j :: j in BudgetSide(bs, es) ==>
      && j.budgetEur.Some? && BudgetFact(j.key, j.budgetEur.value) in bs
      && (j.amountEur.Some? ==> ExpenseFact(j.key, j.amountEur) in es)
    decreases |bs|
  {
    if bs != [] {
      var init := bs[..|bs| - 1];
      var b := bs[|bs| - 1];
      BudgetSideRows(init, es);
      ExpensesWithKeySpec(b.key, es);
      var ms := ExpensesWithKey(b.key, es);
      forall j | j in BudgetRowMatches(b, es)
        ensures j.budgetEur.Some? && BudgetFact(j.key, j.budgetEur.value) in bs
        ensures j.amountEur.Some? ==> ExpenseFact(j.key, j.amountEur) in es
      {
        if ms != [] {
          var i :| 0 <= i < |ms| && BudgetRowMatches(b, es)[i] == j;
          assert ms[i] in ms;
        }
      }
    }
  }

  lemma {:induction false} ExpenseOnlyRows(es: seq<ExpenseFact>, budgetKeys: seq<FactKey>)
    ensures forall j :: j in ExpenseOnly(es, budgetKeys) ==>
      j.budgetEur.None? && j.key !in budgetKeys && ExpenseFact(j.key, j.amountEur) in es
    decreases |es|
  {
    if es != [] {
      ExpenseOnlyRows(es[..|es| - 1], budgetKeys);
      assert es == es[..|es| - 1] + [es[|es| - 1]];
    }
  }

  /** Each joined row carries the budget of a budget row with its key exactly
      when budgets have the key, and otherwise a missing budget; an amount
      that is present is the amount of an expense row with its key. */
  lemma OuterJoinMeasures(bs: seq<BudgetFact>, es: seq<ExpenseFact>)
    ensures forall j :: j in OuterJoin(bs, es) ==>
      && (j.budgetEur.Some? <==> j.key in BudgetKeys(bs))
      && (j.budgetEur.Some? ==> BudgetFact(j.key, j.budgetEur.value) in bs)
      && (j.amountEur.Some? ==> ExpenseFact(j.key, j.amountEur) in es)
  {
    BudgetSideRows(bs, es);
    ExpenseOnlyRows(es, BudgetKeys(bs));
    forall j | j in BudgetSide(bs, es) ensures j.key in BudgetKeys(bs) {
      var i :| 0 <= i < |bs| && bs[i] == BudgetFact(j.key, j.budgetEur.value);
      assert BudgetKeys(bs)[i] == j.key;
    }
  }

  /** After the fill no measure is missing: a key without budget rows gets
      budget 0; a present budget is that of a budget row with the key; an
      amount is 0 unless an expense row with the key has that (resolved)
      amount, so a key whose expenses all lack a rate, or that has no
      expenses, gets amount 0. */
  lemma FilledMeasures(bs: seq<BudgetFact>, es: seq<ExpenseFact>)
    ensures var f := Fill(OuterJoin(bs, es));
      forall i :: 0 <= i < |f| ==>
        && (f[i].key !in BudgetKeys(bs) ==> f[i].budgetEur == 0.0)
        && (f[i].key in BudgetKeys(bs) ==> BudgetFact(f[i].key, f[i].budgetEur) in bs)
        && (f[i].amountEur != 0.0 ==> ExpenseFact(f[i].key, Some(f[i].amountEur)) in es)
        && ((forall e :: e in es && e.key == f[i].key ==> e.amountEur.None?) ==> f[i].amountEur == 0.0)
  {
    var js := OuterJoin(bs, es);
    var f := Fill(js);
    OuterJoinMeasures(bs, es);
    forall i | 0 <= i < |f|
      ensures f[i].key !in BudgetKeys(bs) ==> f[i].budgetEur == 0.0
      ensures f[i].key in BudgetKeys(bs) ==> BudgetFact(f[i].key, f[i].budgetEur) in bs
      ensures f[i].amountEur != 0.0 ==> ExpenseFact(f[i].key, Some(f[i].amountEur)) in es
      ensures (forall e :: e in es && e.key == f[i].key ==> e.amountEur.None?) ==> f[i].amountEur == 0.0
    {
      assert js[i] in js;
    }
  }

  // ----- the project dimension -----

  /** `dim_project`: `drop_duplicates()` of the bronze project rows. It holds
      each (project_code, country, name) triple of the bronze projects once,
      in order of first appearance. */
  function DimProject(projects: seq<ProjectRow>): (dim: seq<ProjectRow>)
    ensures Distinct(dim)
    ensures forall p :: p in dim <==> p in projects
    ensures |dim| <= |projects|
    ensures forall i, j :: 0 <= i < j < |dim| ==> FirstIndex(projects, dim[i]) < FirstIndex(projects, dim[j])
  {
    UniqueElements(projects);
    UniqueFirstAppearanceOrder(projects);
    Unique(projects)
  }

  function ProjectCodes(dim: seq<ProjectRow>): (cs: seq<string>)
    ensures |cs| == |dim| && forall i :: 0 <= i < |dim| ==> cs[i] == dim[i].projectCode
  {
    seq(|dim|, i requires 0 <= i < |dim| => dim[i].projectCode)
  }

  /** The dimension rows for one project code, in order. */
  function MetadataFor(code: string, dim: seq<ProjectRow>): seq<ProjectRow>
    decreases |dim|
  {
    if dim == [] then []
    else
      var p := dim[|dim| - 1];
      MetadataFor(code, dim[..|dim| - 1]) + (if p.projectCode == code then [p] else [])
  }

  /** What the left join makes of one fact row: one row per dimension row
      with its project code, or the row with missing country and name. */
  function JoinProject(f: FactRow, dim: seq<ProjectRow>): seq<GoldRow> {
    var ms := MetadataFor(f.key.projectCode, dim);
    if ms == [] then [GoldRow(f, None, None)] else WithMetadata(f, ms)
  }

  /** Fact row `f` once per dimension row of `ms`, with that row's country
      and name. */
  function WithMetadata(f: FactRow, ms: seq<ProjectRow>): seq<GoldRow> {
    seq(|ms|, j requires 0 <= j < |ms| => GoldRow(f, Some(ms[j].country), Some(ms[j].name)))
  }

  /** The rows the project join makes, one group per fact row. */
  function JoinPieces(facts: seq<FactRow>, dim: seq<ProjectRow>): seq<seq<GoldRow>> {
    seq(|facts|, i requires 0 <= i < |facts| => JoinProject(facts[i], dim))
  }

  /** How many rows the project join should make: each fact row once per
      dimension row with its project code, or once when there is none. */
  function JoinedRowCount(facts: seq<FactRow>, dim: seq<ProjectRow>): nat
    decreases |facts|
  {
    if facts == [] then 0
    else
      JoinedRowCount(facts[..|facts| - 1], dim)
        + AtLeastOne(|MetadataFor(facts[|facts| - 1].key.projectCode, dim)|)
  }

  lemma {:induction false} JoinPiecesLength(facts: seq<FactRow>, dim: seq<ProjectRow>)
    ensures TotalLength(JoinPieces(facts, dim)) == JoinedRowCount(facts, dim)
    decreases |facts|
  {
    if facts != [] {
      var n := |facts| - 1;
      JoinPiecesLength(facts[..n], dim);
      assert JoinPieces(facts, dim)[..n] == JoinPieces(facts[..n], dim);
    }
  }

  /** `gold_fact.merge(dim_project, on="project_code", how="left")`: a fact
      row whose project code has k > 1 dimension rows is repeated k times. */
  function LeftJoinProjects(facts: seq<FactRow>, dim: seq<ProjectRow>): (r: seq<GoldRow>)
    ensures |r| == JoinedRowCount(facts, dim)
  {
    JoinPiecesLength(facts, dim);
    FlattenLength(JoinPieces(facts, dim));
    Flatten(JoinPieces(facts, dim))
  }

  lemma {:induction false} MetadataForSpec(code: string, dim: seq<ProjectRow>)
    ensures forall p :: p in MetadataFor(code, dim) <==> p in dim && p.projectCode == code
    ensures MetadataFor(code, dim) == [] <==> forall p :: p in dim ==> p.projectCode != code
    ensures Distinct(ProjectCodes(dim)) ==> |MetadataFor(code, dim)| <= 1
    decreases |dim|
  {
    if dim != [] {
      var n := |dim| - 1;
      var init := dim[..n];
      MetadataForSpec(code, init);
      assert dim == init + [dim[n]];
      if Distinct(ProjectCodes(dim)) {
        assert ProjectCodes(init) == ProjectCodes(dim)[..n];
        if dim[n].projectCode == code {
          assert forall i :: 0 <= i < n ==> ProjectCodes(dim)[i] != ProjectCodes(dim)[n];
          assert forall p :: p in init ==> p.projectCode != code;
        }
      }
    }
  }

  /** A project code has as many metadata rows as the dimension has rows with
      that code. */
  lemma {:induction false} MetadataForCount(code: string, dim: seq<ProjectRow>)
    ensures |MetadataFor(code, dim)| == multiset(ProjectCodes(dim))[code]
    decreases |dim|
  {
    if dim != [] {
      var n := |dim| - 1;
      var init := dim[..n];
      MetadataForCount(code, init);
      assert ProjectCodes(dim) == ProjectCodes(init) + [dim[n].projectCode];
      assert multiset(ProjectCodes(dim)) == multiset(ProjectCodes(init)) + multiset{dim[n].projectCode};
    }
  }

  /** The rows one fact row becomes all carry it; there is at least one; the
      country and name are missing exactly when no dimension row has the
      project code, and otherwise come from such a row. */
  lemma JoinProjectSpec(f: FactRow, dim: seq<ProjectRow>)
    ensures |JoinProject(f, dim)| >= 1
    ensures forall g :: g in JoinProject(f, dim) ==>
      && g.fact == f
      && (g.country.None? <==> g.name.None?)
      && (g.country.None? <==> forall p :: p in dim ==> p.projectCode != f.key.projectCode)
      && (g.country.Some? ==> ProjectRow(f.key.projectCode, g.country.value, g.name.value) in dim)
  {
    MetadataForSpec(f.key.projectCode, dim);
    var ms := MetadataFor(f.key.projectCode, dim);
    if ms != [] {
      forall g | g in JoinProject(f, dim)
        ensures g.country.Some? && ProjectRow(f.key.projectCode, g.country.value, g.name.value) in dim
      {
        var j :| 0 <= j < |ms| && JoinProject(f, dim)[j] == g;
        assert ms[j] in ms;
      }
      assert ms[0] in ms;
    }
  }

  /** The left join keeps every fact row, and every output row carries an
      input fact row; each output row's country and name come from a
      dimension row with its project code, and are missing exactly when the
      code has no metadata. */
  lemma LeftJoinKeepsRows(facts: seq<FactRow>, dim: seq<ProjectRow>)
    ensures forall f :: f in facts ==> exists g :: g in LeftJoinProjects(facts, dim) && g.fact == f
    ensures forall g :: g in LeftJoinProjects(facts, dim) ==>
      && g.fact in facts
      && (g.country.None? <==> g.name.None?)
      && (g.country.None? <==> forall p :: p in dim ==> p.projectCode != g.fact.key.projectCode)
      && (g.country.Some? ==> ProjectRow(g.fact.key.projectCode, g.country.value, g.name.value) in dim)
  {
    var pieces: seq<seq<GoldRow>> := JoinPieces(facts, dim);
    var out := Flatten(pieces);
    forall f | f in facts ensures exists g :: g in out && g.fact == f {
      var i :| 0 <= i < |facts| && facts[i] == f;
      JoinProjectSpec(f, dim);
      var g := pieces[i][0];
      assert g in pieces[i];
      FlattenContains(pieces, i, g);
    }
    forall g | g in out
      ensures g.fact in facts
      ensures g.country.None? <==> g.name.None?
      ensures g.country.None? <==> forall p :: p in dim ==> p.projectCode != g.fact.key.projectCode
      ensures g.country.Some? ==> ProjectRow(g.fact.key.projectCode, g.country.value, g.name.value) in dim
    {
      FlattenMember(pieces, g);
      var i :| 0 <= i < |pieces| && g in pieces[i];
      JoinProjectSpec(facts[i], dim);
    }
  }

  /** How many times the project join should give `g` for each occurrence of
      its fact row: once per dimension row with the fact's project code and
      `g`'s country and name, or once with both missing when no dimension row
      has that code. */
  function MetadataMatches(g: GoldRow, dim: seq<ProjectRow>): nat {
    if g.country.Some? && g.name.Some? then
      multiset(dim)[ProjectRow(g.fact.key.projectCode, g.country.value, g.name.value)]
    else if g.country.None? && g.name.None? && forall p :: p in dim ==> p.projectCode != g.fact.key.projectCode then 1
    else 0
  }

  lemma WithMetadataAppend(f: FactRow, a: seq<ProjectRow>, b: seq<ProjectRow>)
    ensures WithMetadata(f, a + b) == WithMetadata(f, a) + WithMetadata(f, b)
  {
  }

  lemma {:induction false} WithMetadataCount(f: FactRow, dim: seq<ProjectRow>, g: GoldRow)
    requires g.fact == f && g.country.Some? && g.name.Some?
    ensures multiset(WithMetadata(f, MetadataFor(f.key.projectCode, dim)))[g]
      == multiset(dim)[ProjectRow(f.key.projectCode, g.country.value, g.name.value)]
    decreases |dim|
  {
    if dim != [] {
      var code := f.key.projectCode;
      var init := dim[..|dim| - 1];
      var p := dim[|dim| - 1];
      var last: seq<ProjectRow> := if p.projectCode == code then [p] else [];
      WithMetadataCount(f, init, g);
      WithMetadataAppend(f, MetadataFor(code, init), last);
      assert dim == init + [p];
      assert multiset(dim) == multiset(init) + multiset{p};
      if p.projectCode == code {
        assert WithMetadata(f, last) == [GoldRow(f, Some(p.country), Some(p.name))];
      } else {
        assert WithMetadata(f, last) == [];
      }
    }
  }

  /** What one fact row contributes to the project join, counted row by row. */
  lemma JoinProjectContents(f: FactRow, dim: seq<ProjectRow>, g: GoldRow)
    ensures multiset(JoinProject(f, dim))[g] == if g.fact == f then MetadataMatches(g, dim) else 0
  {
    var code := f.key.projectCode;
    var ms := MetadataFor(code, dim);
    MetadataForSpec(code, dim);
    if ms == [] {
      assert forall c, n :: ProjectRow(code, c, n) !in dim;
    } else {
      assert ms[0] in ms;
      assert forall x :: x in WithMetadata(f, ms) ==> x.fact == f && x.country.Some? && x.name.Some?;
      if g.fact == f && g.country.Some? && g.name.Some? {
        WithMetadataCount(f, dim, g);
      }
    }
  }

  /** Counting in a flattened table whose k-th group holds `y` `a` times
      when the k-th source row is `x`, and never otherwise. */
  lemma {:induction false} FlattenCount<T, U>(xs: seq<T>, ss: seq<seq<U>>, x: T, y: U, a: nat)
    requires |ss| == |xs|
    requires forall k :: 0 <= k < |xs| ==> multiset(ss[k])[y] == if xs[k] == x then a else 0
    ensures multiset(Flatten(ss))[y] == Copies(multiset(xs)[x], a)
    decreases |xs|
  {
    if xs == [] {
      assert ss == [];
    } else {
      var n := |xs| - 1;
      FlattenCount(xs[..n], ss[..n], x, y, a);
      assert ss == ss[..n] + [ss[n]];
      FlattenAppend(ss[..n], [ss[n]]);
      assert Flatten([ss[n]]) == ss[n] by {
        assert [ss[n]][..0] == [];
      }
      assert xs == xs[..n] + [xs[n]];
      CopiesStep(multiset(xs[..n])[x], a, xs[n] == x);
    }
  }

  lemma JoinPiecesContents(facts: seq<FactRow>, dim: seq<ProjectRow>, g: GoldRow)
    ensures multiset(Flatten(JoinPieces(facts, dim)))[g] == Copies(multiset(facts)[g.fact], MetadataMatches(g, dim))
  {
    var pieces: seq<seq<GoldRow>> := JoinPieces(facts, dim);
    forall k | 0 <= k < |facts|
      ensures multiset(pieces[k])[g] == if facts[k] == g.fact then MetadataMatches(g, dim) else 0
    {
      JoinProjectContents(facts[k], dim, g);
    }
    FlattenCount(facts, pieces, g.fact, g, MetadataMatches(g, dim));
  }

  /** The contents of the project join: a row appears once for each
      occurrence of its fact row times each dimension row with the fact's
      project code and the row's country and name; a row with missing
      country and name appears once per occurrence of its fact row exactly
      when no dimension row has that code; no other row appears. */
  lemma LeftJoinContents(facts: seq<FactRow>, dim: seq<ProjectRow>, g: GoldRow)
    ensures multiset(LeftJoinProjects(facts, dim))[g] == multiset(facts)[g.fact] * MetadataMatches(g, dim)
  {
    JoinPiecesContents(facts, dim, g);
    CopiesIsProduct(multiset(facts)[g.fact], MetadataMatches(g, dim));
  }

  /** One fact row whose project code has two dimension rows, with different
      countries, becomes two rows, one per country. */
  lemma LeftJoinExample(f: FactRow, c1: string, c2: string, n: string)
    requires c1 != c2
    ensures var dim := [ProjectRow(f.key.projectCode, c1, n), ProjectRow(f.key.projectCode, c2, n)];
      multiset(LeftJoinProjects([f], dim)) == multiset{GoldRow(f, Some(c1), Some(n)), GoldRow(f, Some(c2), Some(n))}
  {
    var dim := [ProjectRow(f.key.projectCode, c1, n), ProjectRow(f.key.projectCode, c2, n)];
    var expected := multiset{GoldRow(f, Some(c1), Some(n)), GoldRow(f, Some(c2), Some(n))};
    forall g ensures multiset(LeftJoinProjects([f], dim))[g] == expected[g] {
      LeftJoinContents([f], dim, g);
    }
  }

  /** When the dimension has at most one row per project code, the left join
      keeps every fact row exactly once and in order. */
  lemma LeftJoinOneToOne(facts: seq<FactRow>, dim: seq<ProjectRow>)
    requires Distinct(ProjectCodes(dim))
    ensures |LeftJoinProjects(facts, dim)| == |facts|
    ensures forall i :: 0 <= i < |facts| ==> LeftJoinProjects(facts, dim)[i].fact == facts[i]
  {
    var pieces: seq<seq<GoldRow>> := JoinPieces(facts, dim);
    forall i | 0 <= i < |facts| ensures |pieces[i]| == 1 && pieces[i][0].fact == facts[i] {
      MetadataForSpec(facts[i].key.projectCode, dim);
      JoinProjectSpec(facts[i], dim);
      assert pieces[i][0] in pieces[i];
    }
    FlattenSingletons(pieces);
  }

  // ----- the gold run -----

  datatype GoldTables = GoldTables(fact: seq<GoldRow>, dimDate: seq<DateRow>, dimProject: seq<ProjectRow>)

  /** The gold tables built from the silver tables, the bronze projects and
      the rate provider. */
  function Gold(expenses: seq<SilverExpense>, budgets: seq<SilverBudget>, projects: seq<ProjectRow>,
                provider: Currency -> Response): Result<GoldTables, MergeError>
  {
    var fx := RateTable(Unique(ExpenseCurrencies(expenses)), provider);
    var converted :- ConvertExpenses(expenses, fx);
    var fact := Fill(OuterJoin(BudgetFacts(budgets), ExpenseFacts(converted)));
    var dim := DimProject(projects);
    Success(GoldTables(LeftJoinProjects(fact, dim), DimDateTable(), dim))
  }

  /** The gold script: the rate loop over the distinct expense currencies,
      then the conversion, the fact table, the project dimension and the
      calendar. */
  method RunGold(expenses: seq<SilverExpense>, budgets: seq<SilverBudget>, projects: seq<ProjectRow>,
                 provider: Currency -> Response)
    returns (r: Result<GoldTables, MergeError>, requested: seq<Currency>)
    ensures r == Gold(expenses, budgets, projects, provider)
    ensures requested == Requests(Unique(ExpenseCurrencies(expenses)))
  {
    var uniqueCurrencies := Unique(ExpenseCurrencies(expenses));
    var fxRates;
    fxRates, requested := FetchRates(uniqueCurrencies, provider);
    var converted := ConvertExpenses(expenses, fxRates);
    if converted.Failure? {
      return Failure(converted.error), requested;
    }
    var fact := Fill(OuterJoin(BudgetFacts(budgets), ExpenseFacts(converted.value)));
    var dimProject := DimProject(projects);
    r := Success(GoldTables(LeftJoinProjects(fact, dimProject), DimDateTable(), dimProject));
  }

  /** The run aborts exactly when no expense currency gets a rate (the rate
      frame then has no `currency` column); otherwise the project dimension
      and the calendar are the ones specified above. */
  lemma GoldOutcome(expenses: seq<SilverExpense>, budgets: seq<SilverBudget>, projects: seq<ProjectRow>,
                    provider: Currency -> Response)
    ensures Gold(expenses, budgets, projects, provider).Failure? <==>
      forall k :: 0 <= k < |expenses| ==> Resolve(expenses[k].currency, provider).None?
    ensures Gold(expenses, budgets, projects, provider).Success? ==>
      && Gold(expenses, budgets, projects, provider).value.dimProject == DimProject(projects)
      && Gold(expenses, budgets, projects, provider).value.dimDate == DimDateTable()
  {
    ConversionSpec(expenses, provider);
  }

  /** A non-zero budget in the fact table is the budget of a silver budget
      row with the same key. */
  lemma BudgetSource(budgets: seq<SilverBudget>, es: seq<ExpenseFact>, f: FactRow)
    requires f in Fill(OuterJoin(BudgetFacts(budgets), es)) && f.budgetEur != 0.0
    ensures exists b :: b in budgets && BudgetKey(b) == f.key && b.budgetEur == f.budgetEur
  {
    var bs := BudgetFacts(budgets);
    FilledMeasures(bs, es);
    var i :| 0 <= i < |Fill(OuterJoin(bs, es))| && Fill(OuterJoin(bs, es))[i] == f;
    assert BudgetFact(f.key, f.budgetEur) in bs;
    var j :| 0 <= j < |bs| && bs[j] == BudgetFact(f.key, f.budgetEur);
    assert budgets[j] in budgets;
  }

  /** A non-zero amount in the fact table is the EUR amount of a silver
      expense row with the same key whose currency resolved. */
  lemma AmountSource(expenses: seq<SilverExpense>, bs: seq<BudgetFact>, provider: Currency -> Response, f: FactRow)
    requires ConvertExpenses(expenses, RateTable(Unique(ExpenseCurrencies(expenses)), provider)).Success?
    requires f in Fill(OuterJoin(bs, ExpenseFacts(
      ConvertExpenses(expenses, RateTable(Unique(ExpenseCurrencies(expenses)), provider)).value)))
    requires f.amountEur != 0.0
    ensures exists e :: e in expenses && ExpenseKey(e) == f.key && ConvertedAmount(e, provider) == Some(f.amountEur)
  {
    var converted := ConvertExpenses(expenses, RateTable(Unique(ExpenseCurrencies(expenses)), provider)).value;
    var es := ExpenseFacts(converted);
    ConversionSpec(expenses, provider);
    FilledMeasures(bs, es);
    var i :| 0 <= i < |Fill(OuterJoin(bs, es))| && Fill(OuterJoin(bs, es))[i] == f;
    assert ExpenseFact(f.key, Some(f.amountEur)) in es;
    var j :| 0 <= j < |es| && es[j] == ExpenseFact(f.key, Some(f.amountEur));
    assert converted[j].expense == expenses[j];
    assert expenses[j] in expenses;
  }

  /** Every measure of a gold fact row is traced back to the silver tables:
      a non-zero budget is that of a budget row with the row's key, and a
      non-zero amount is `amount_local * fx_to_eur` of an expense row with
      the row's key whose currency resolved. */
  lemma GoldFactSources(expenses: seq<SilverExpense>, budgets: seq<SilverBudget>, projects: seq<ProjectRow>,
                        provider: Currency -> Response)
    requires Gold(expenses, budgets, projects, provider).Success?
    ensures forall g :: g in Gold(expenses, budgets, projects, provider).value.fact ==>
      && (g.fact.budgetEur != 0.0 ==>
            exists b :: b in budgets && BudgetKey(b) == g.fact.key && b.budgetEur == g.fact.budgetEur)
      && (g.fact.amountEur != 0.0 ==>
            exists e :: e in expenses && ExpenseKey(e) == g.fact.key && ConvertedAmount(e, provider) == Some(g.fact.amountEur))
  {
    var converted := ConvertExpenses(expenses, RateTable(Unique(ExpenseCurrencies(expenses)), provider)).value;
    var fact := Fill(OuterJoin(BudgetFacts(budgets), ExpenseFacts(converted)));
    var dim := DimProject(projects);
    LeftJoinKeepsRows(fact, dim);
    forall g | g in LeftJoinProjects(fact, dim)
      ensures g.fact.budgetEur != 0.0 ==>
        exists b :: b in budgets && BudgetKey(b) == g.fact.key && b.budgetEur == g.fact.budgetEur
      ensures g.fact.amountEur != 0.0 ==>
        exists e :: e in expenses && ExpenseKey(e) == g.fact.key && ConvertedAmount(e, provider) == Some(g.fact.amountEur)
    {
      if g.fact.budgetEur != 0.0 {
        BudgetSource(budgets, ExpenseFacts(converted), g.fact);
      }
      if g.fact.amountEur != 0.0 {
        AmountSource(expenses, BudgetFacts(budgets), provider, g.fact);
      }
    }
  }
}
