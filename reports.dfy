/**
 * `CompileBanks.make_df`: the transactions are split into income
 * (amount > 0) and expenses (amount < 0), amounts of zero are dropped,
 * each side is sorted by date, and a side is written only when it has
 * at least one row.
 */
module Reports {
  import opened PyValues
  import opened Foreign
  import opened Manifests
  import opened Engine
  import opened Transactions

  /** One output line: Date, Item, Cost, Category, Bank. */
  datatype ReportRow = ReportRow(date: int, item: string, cost: real, category: Value, bank: string)

  function Abs(x: real): real {
    if x < 0.0 then -x else x
  }

  /** The record `make_df` builds for a transaction. The older program
      title-cases the item here; the newer one did so at row time. */
  function RowOf(v: Version, t: Txn, env: Env): (r: ReportRow)
    ensures r.cost >= 0.0 && (r.cost == 0.0 <==> t.amount == 0.0)
    ensures r.date == t.date && r.bank == t.bankName && r.category == t.category
  {
    ReportRow(t.date, if v == Current then t.description else env.title(t.description),
              Abs(t.amount), t.category, t.bankName)
  }

  /** The three classes `make_df` sorts a transaction into by its amount. */
  datatype Sign = Positive | Negative | Zero

  predicate HasSign(t: Txn, s: Sign) {
    match s
    case Positive => t.amount > 0.0
    case Negative => t.amount < 0.0
    case Zero => t.amount == 0.0
  }

  /** The transactions of one sign, in order. The zero class is what
      neither side reports. */
  function WithSign(ts: seq<Txn>, s: Sign): (r: seq<Txn>)
    ensures forall t :: t in r ==> t in ts && HasSign(t, s)
  {
    if ts == [] then []
    else
      var last := ts[|ts| - 1];
      WithSign(ts[..|ts| - 1], s) + (if HasSign(last, s) then [last] else [])
  }

  /** `WithSign` holds exactly the transactions of its sign, each as many
      times as it occurs in the input. */
  lemma {:induction false} WithSignExactly(ts: seq<Txn>, s: Sign)
    ensures forall t :: HasSign(t, s) ==> multiset(WithSign(ts, s))[t] == multiset(ts)[t]
    ensures forall t :: !HasSign(t, s) ==> multiset(WithSign(ts, s))[t] == 0
  {
    if ts != [] {
      var front, last := ts[..|ts| - 1], ts[|ts| - 1];
      assert ts == front + [last];
      WithSignExactly(front, s);
    }
  }

  /** `RowOf` of each transaction, in order. */
  function Rows(v: Version, ts: seq<Txn>, env: Env): (r: seq<ReportRow>)
    ensures |r| == |ts|
  {
    if ts == [] then [] else Rows(v, ts[..|ts| - 1], env) + [RowOf(v, ts[|ts| - 1], env)]
  }

  lemma RowsSnoc(v: Version, ts: seq<Txn>, t: Txn, env: Env)
    ensures Rows(v, ts + [t], env) == Rows(v, ts, env) + [RowOf(v, t, env)]
  {
    assert (ts + [t])[..|ts|] == ts;
  }

  /** The income rows, in transaction order. */
  function Income(v: Version, ts: seq<Txn>, env: Env): (r: seq<ReportRow>)
    ensures forall x :: x in r <==> exists t :: t in ts && t.amount > 0.0 && x == RowOf(v, t, env)
    ensures forall x :: x in r ==> x.cost > 0.0
    ensures forall t :: t in ts && t.amount == 0.0 ==> RowOf(v, t, env) !in r
  {
    if ts == [] then []
    else
      var last := ts[|ts| - 1];
      var rest := Income(v, ts[..|ts| - 1], env);
      assert forall t :: t in ts <==> t in ts[..|ts| - 1] || t == last;
      if last.amount > 0.0 then rest + [RowOf(v, last, env)] else rest
  }

  /** The expense rows, in transaction order. */
  function Expenses(v: Version, ts: seq<Txn>, env: Env): (r: seq<ReportRow>)
    ensures forall x :: x in r <==> exists t :: t in ts && t.amount < 0.0 && x == RowOf(v, t, env)
    ensures forall x :: x in r ==> x.cost > 0.0
    ensures forall t :: t in ts && t.amount == 0.0 ==> RowOf(v, t, env) !in r
  {
    if ts == [] then []
    else
      var last := ts[|ts| - 1];
      var rest := Expenses(v, ts[..|ts| - 1], env);
      assert forall t :: t in ts <==> t in ts[..|ts| - 1] || t == last;
      if last.amount < 0.0 then rest + [RowOf(v, last, env)] else rest
  }

  /** Each side is the rows of the transactions of its sign, in order. */
  lemma SidesAreRows(v: Version, ts: seq<Txn>, env: Env)
    ensures Income(v, ts, env) == Rows(v, WithSign(ts, Positive), env)
    ensures Expenses(v, ts, env) == Rows(v, WithSign(ts, Negative), env)
  {
    IncomeIsRows(v, ts, env);
    ExpensesIsRows(v, ts, env);
  }

  lemma {:induction false} IncomeIsRows(v: Version, ts: seq<Txn>, env: Env)
    ensures Income(v, ts, env) == Rows(v, WithSign(ts, Positive), env)
  {
    if ts != [] {
      var front, last := ts[..|ts| - 1], ts[|ts| - 1];
      IncomeIsRows(v, front, env);
      if last.amount > 0.0 {
        calc {
          Income(v, ts, env);
          Income(v, front, env) + [RowOf(v, last, env)];
          Rows(v, WithSign(front, Positive), env) + [RowOf(v, last, env)];
          { RowsSnoc(v, WithSign(front, Positive), last, env); }
          Rows(v, WithSign(front, Positive) + [last], env);
          { assert HasSign(last, Positive) && WithSign(ts, Positive) == WithSign(front, Positive) + [last]; }
          Rows(v, WithSign(ts, Positive), env);
        }
      } else {
        calc {
          Income(v, ts, env);
          Income(v, front, env);
          Rows(v, WithSign(front, Positive), env);
          { assert WithSign(ts, Positive) == WithSign(front, Positive) + [] == WithSign(front, Positive); }
          Rows(v, WithSign(ts, Positive), env);
        }
      }
    }
  }

  lemma {:induction false} ExpensesIsRows(v: Version, ts: seq<Txn>, env: Env)
    ensures Expenses(v, ts, env) == Rows(v, WithSign(ts, Negative), env)
  {
    if ts != [] {
      var front, last := ts[..|ts| - 1], ts[|ts| - 1];
      ExpensesIsRows(v, front, env);
      if last.amount < 0.0 {
        calc {
          Expenses(v, ts, env);
          Expenses(v, front, env) + [RowOf(v, last, env)];
          Rows(v, WithSign(front, Negative), env) + [RowOf(v, last, env)];
          { RowsSnoc(v, WithSign(front, Negative), last, env); }
          Rows(v, WithSign(front, Negative) + [last], env);
          { assert HasSign(last, Negative) && WithSign(ts, Negative) == WithSign(front, Negative) + [last]; }
          Rows(v, WithSign(ts, Negative), env);
        }
      } else {
        calc {
          Expenses(v, ts, env);
          Expenses(v, front, env);
          Rows(v, WithSign(front, Negative), env);
          { assert WithSign(ts, Negative) == WithSign(front, Negative) + [] == WithSign(front, Negative); }
          Rows(v, WithSign(ts, Negative), env);
        }
      }
    }
  }

  /** One more transaction joins the class of its sign and no other. */
  lemma WithSignSnoc(ts: seq<Txn>, s: Sign)
    requires ts != []
    ensures WithSign(ts, s) ==
      if HasSign(ts[|ts| - 1], s) then WithSign(ts[..|ts| - 1], s) + [ts[|ts| - 1]] else WithSign(ts[..|ts| - 1], s)
  {
    assert WithSign(ts[..|ts| - 1], s) + [] == WithSign(ts[..|ts| - 1], s);
  }

  /** Every transaction lands in exactly one of income, expenses and the
      dropped zero amounts, as often as it occurs: a partition of the
      transactions, and of their rows. */
  lemma PartitionIsExact(v: Version, ts: seq<Txn>, env: Env)
    ensures |Income(v, ts, env)| + |Expenses(v, ts, env)| + |WithSign(ts, Zero)| == |ts|
    ensures multiset(WithSign(ts, Positive)) + multiset(WithSign(ts, Negative)) + multiset(WithSign(ts, Zero))
         == multiset(ts)
    ensures multiset(Income(v, ts, env)) + multiset(Expenses(v, ts, env)) + multiset(Rows(v, WithSign(ts, Zero), env))
         == multiset(Rows(v, ts, env))
  {
    SignsPartition(ts);
    RowsPartition(v, ts, env);
    SidesAreRows(v, ts, env);
    assert |Income(v, ts, env)| == |WithSign(ts, Positive)|;
    assert |Expenses(v, ts, env)| == |WithSign(ts, Negative)|;
    assert |multiset(ts)| == |ts|;
  }

  lemma {:induction false} SignsPartition(ts: seq<Txn>)
    ensures multiset(WithSign(ts, Positive)) + multiset(WithSign(ts, Negative)) + multiset(WithSign(ts, Zero))
         == multiset(ts)
  {
    if ts != [] {
      var front, last := ts[..|ts| - 1], ts[|ts| - 1];
      assert ts == front + [last];
      SignsPartition(front);
      WithSignSnoc(ts, Positive);
      WithSignSnoc(ts, Negative);
      WithSignSnoc(ts, Zero);
    }
  }

  lemma {:induction false} RowsPartition(v: Version, ts: seq<Txn>, env: Env)
    ensures multiset(Rows(v, WithSign(ts, Positive), env)) + multiset(Rows(v, WithSign(ts, Negative), env))
          + multiset(Rows(v, WithSign(ts, Zero), env)) == multiset(Rows(v, ts, env))
  {
    if ts != [] {
      var front, last := ts[..|ts| - 1], ts[|ts| - 1];
      RowsPartition(v, front, env);
      SignedRowsStep(v, ts, Positive, env);
      SignedRowsStep(v, ts, Negative, env);
      SignedRowsStep(v, ts, Zero, env);
      var p, n, z := multiset(Rows(v, WithSign(front, Positive), env)), multiset(Rows(v, WithSign(front, Negative), env)),
                     multiset(Rows(v, WithSign(front, Zero), env));
      var x := multiset{RowOf(v, last, env)};
      assert multiset(Rows(v, ts, env)) == p + n + z + x;
      MultisetShuffle(p, n, z, x);
      var p', n', z' := multiset(Rows(v, WithSign(ts, Positive), env)), multiset(Rows(v, WithSign(ts, Negative), env)),
                        multiset(Rows(v, WithSign(ts, Zero), env));
      if last.amount > 0.0 {
        assert p' == p + x && n' == n && z' == z;
      } else if last.amount < 0.0 {
        assert p' == p && n' == n + x && z' == z;
      } else {
        assert p' == p && n' == n && z' == z + x;
      }
    }
  }

  lemma MultisetShuffle<T>(p: multiset<T>, n: multiset<T>, z: multiset<T>, x: multiset<T>)
    ensures (p + x) + n + z == p + n + z + x
    ensures p + (n + x) + z == p + n + z + x
    ensures p + n + (z + x) == p + n + z + x
  {
  }

  /** The rows of one sign class gain the last transaction's row exactly
      when it has that sign. */
  lemma SignedRowsStep(v: Version, ts: seq<Txn>, s: Sign, env: Env)
    requires ts != []
    ensures multiset(Rows(v, WithSign(ts, s), env)) ==
      multiset(Rows(v, WithSign(ts[..|ts| - 1], s), env))
        + (if HasSign(ts[|ts| - 1], s) then multiset{RowOf(v, ts[|ts| - 1], env)} else multiset{})
  {
    WithSignSnoc(ts, s);
    if HasSign(ts[|ts| - 1], s) {
      RowsSnoc(v, WithSign(ts[..|ts| - 1], s), ts[|ts| - 1], env);
    }
  }

  predicate SortedByDate(rows: seq<ReportRow>) {
    forall i, j :: 0 <= i < j < |rows| ==> rows[i].date <= rows[j].date
  }

  /** Places a row into a date-sorted list. */
  function Insert(x: ReportRow, s: seq<ReportRow>): (r: seq<ReportRow>)
    requires SortedByDate(s)
    ensures SortedByDate(r)
    ensures multiset(r) == multiset(s) + multiset{x}
  {
    if s == [] || x.date <= s[0].date then [x] + s
    else
      var rest := Insert(x, s[1..]);
      ConsSorted(s, x, rest);
      [s[0]] + rest
  }

  /** The step of `Insert` past the head: the head still comes first. */
  lemma ConsSorted(s: seq<ReportRow>, x: ReportRow, rest: seq<ReportRow>)
    requires s != [] && SortedByDate(s) && s[0].date < x.date
    requires SortedByDate(rest) && multiset(rest) == multiset(s[1..]) + multiset{x}
    ensures SortedByDate([s[0]] + rest)
    ensures multiset([s[0]] + rest) == multiset(s) + multiset{x}
  {
    assert s == [s[0]] + s[1..];
    forall y | y in rest
      ensures s[0].date <= y.date
    {
      assert y in multiset(rest);
    }
  }

  /** `sort_values(by=["Date"], ascending=True)`: sorted by date and a
      permutation of its input. The order of equal dates is left open. */
  function SortByDate(rows: seq<ReportRow>): (r: seq<ReportRow>)
    ensures SortedByDate(r)
    ensures multiset(r) == multiset(rows)
  {
    if rows == [] then []
    else
      assert rows == [rows[0]] + rows[1..];
      Insert(rows[0], SortByDate(rows[1..]))
  }

  /** One side of the report as written: nothing when the side is empty,
      otherwise its rows sorted by date. */
  function Report(rows: seq<ReportRow>): (r: Option<seq<ReportRow>>)
    ensures r.None? <==> rows == []
    ensures r.Some? ==> SortedByDate(r.value) && multiset(r.value) == multiset(rows)
  {
    if rows == [] then None else Some(SortByDate(rows))
  }

  /** One more transaction extends the side its amount selects by its row. */
  lemma SidesGrow(v: Version, ts: seq<Txn>, i: nat, env: Env)
    requires i < |ts|
    ensures Income(v, ts[..i + 1], env) ==
      Income(v, ts[..i], env) + (if ts[i].amount > 0.0 then [RowOf(v, ts[i], env)] else [])
    ensures Expenses(v, ts[..i + 1], env) ==
      Expenses(v, ts[..i], env) + (if ts[i].amount < 0.0 then [RowOf(v, ts[i], env)] else [])
  {
    assert ts[..i + 1][..i] == ts[..i];
  }

  /** `make_df` after `process_docs`: the income and expense files, each
      present only when it has rows. */
  method MakeReports(v: Version, transactions: seq<Transaction>, env: Env)
    returns (income: Option<seq<ReportRow>>, expenses: Option<seq<ReportRow>>)
    ensures income == Report(Income(v, Snapshots(transactions), env))
    ensures expenses == Report(Expenses(v, Snapshots(transactions), env))
  {
    var incomeData: seq<ReportRow> := [];
    var expensesData: seq<ReportRow> := [];
    for i := 0 to |transactions|
      invariant incomeData == Income(v, Snapshots(transactions)[..i], env)
      invariant expensesData == Expenses(v, Snapshots(transactions)[..i], env)
    {
      SidesGrow(v, Snapshots(transactions), i, env);
      var t := transactions[i];
      var data := RowOf(v, t.Snapshot(), env);
      if t.amount > 0.0 {
        incomeData := incomeData + [data];
      } else if t.amount < 0.0 {
        expensesData := expensesData + [data];
      }
    }
    assert Snapshots(transactions)[..|transactions|] == Snapshots(transactions);
    income := if incomeData == [] then None else Some(SortByDate(incomeData));
    expenses := if expensesData == [] then None else Some(SortByDate(expensesData));
  }
}
