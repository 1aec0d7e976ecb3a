/**
 * Column resolution (`assign_index_from_col_name`): every locator given as
 * a column name is overwritten, in place, by that name's position in the
 * file's header. A missing name raises ValueError, which the source
 * catches and prints, leaving the locators converted so far converted and
 * the rest as names.
 */
module Resolution {
  import opened PyValues
  import opened Manifests

  /** date, description, category, transaction_type, amount, in this order. */
  const LocatorCount: nat := 5

  function Locator(m: Manifest, k: nat): Value
    requires k < LocatorCount
  {
    match k
    case 0 => m.date
    case 1 => m.description
    case 2 => m.category
    case 3 => m.transactionType
    case _ => m.amount
  }

  function WithLocator(m: Manifest, k: nat, loc: Value): (r: Manifest)
    requires k < LocatorCount
    ensures Locator(r, k) == loc
    ensures forall j :: 0 <= j < LocatorCount && j != k ==> Locator(r, j) == Locator(m, j)
    ensures SameSettings(m, r) && r.debitCredit == m.debitCredit
  {
    match k
    case 0 => m.(date := loc)
    case 1 => m.(description := loc)
    case 2 => m.(category := loc)
    case 3 => m.(transactionType := loc)
    case _ => m.(amount := loc)
  }

  /** How a resolution ends: normally, with the ValueError of a missing
      column swallowed, or with an exception that escapes (an IndexError
      from a `debit_credit` list shorter than two). */
  datatype Outcome = Resolved | ColumnMissing(error: Exc) | Crashed(error: Exc)

  /** One locator: a name becomes the position of its first occurrence. */
  function ResolveLocator(loc: Value, cols: seq<string>): (r: Result<Value>)
    ensures !loc.VStr? ==> r == Ok(loc)
    ensures loc.VStr? ==> (r.Ok? <==> loc.s in cols)
    ensures loc.VStr? && r.Ok? ==> r.value == VInt(IndexOf(cols, loc.s).value)
    ensures r.Err? ==> r.exc == NotInList(loc.s)
  {
    if loc.VStr? then
      match IndexOf(cols, loc.s)
      case Ok(i) => Ok(VInt(i))
      case Err(e) => Err(e)
    else Ok(loc)
  }

  /** What a locator becomes when its resolution succeeds. */
  function ResolvedValue(loc: Value, cols: seq<string>): Value {
    if loc.VStr? && loc.s in cols then VInt(IndexOf(cols, loc.s).value) else loc
  }

  /** `loc'` is `loc`, or the header position of the name `loc`. */
  predicate Converted(loc: Value, loc': Value, cols: seq<string>) {
    loc' == loc ||
    (loc.VStr? && loc'.VInt? && 0 <= loc'.i < |cols| && cols[loc'.i] == loc.s && loc.s !in cols[..loc'.i])
  }

  /** The newer program converts a list or a tuple, the older one only a tuple. */
  predicate ConvertsDebitCredit(v: Version, dc: Value) {
    dc.VTuple? || (v == Current && dc.VList?)
  }

  /** The newer program stores the converted pair as a list, the older one as a tuple. */
  function StoredPair(v: Version, debit: Value, credit: Value): Value {
    if v == Current then VList([debit, credit]) else VTuple([debit, credit])
  }

  /** A converted pair of two or more items with a column name among its first two. */
  predicate NamesInPair(v: Version, dc: Value) {
    ConvertsDebitCredit(v, dc) && |dc.items| >= 2 && (dc.items[0].VStr? || dc.items[1].VStr?)
  }

  /** The `debit_credit` part of resolution: a converted pair with a name in
      it is stored back as the two resolved items; a missing name is a
      swallowed ValueError and a pair shorter than two an IndexError that
      escapes, both leaving the manifest as it was. */
  function ResolveDebitCredit(v: Version, m: Manifest, cols: seq<string>): (r: (Manifest, Outcome))
    ensures !ConvertsDebitCredit(v, m.debitCredit) ==> r == (m, Resolved)
    ensures r.1.Crashed? <==>
      && ConvertsDebitCredit(v, m.debitCredit)
      && |m.debitCredit.items| < 2
      && (|m.debitCredit.items| == 0 || ResolveLocator(m.debitCredit.items[0], cols).Ok?)
    ensures r.1.Crashed? ==> r.1.error == IndexError
    ensures r.1 == Resolved <==>
      || !ConvertsDebitCredit(v, m.debitCredit)
      || (&& |m.debitCredit.items| >= 2
          && ResolveLocator(m.debitCredit.items[0], cols).Ok?
          && ResolveLocator(m.debitCredit.items[1], cols).Ok?)
    ensures r.1.ColumnMissing? ==>
      exists i :: 0 <= i < |m.debitCredit.items| && i < 2 && m.debitCredit.items[i].VStr? &&
        m.debitCredit.items[i].s !in cols && r.1.error == NotInList(m.debitCredit.items[i].s)
    ensures r.1 != Resolved ==> r.0 == m
    ensures r.1 == Resolved && NamesInPair(v, m.debitCredit) ==>
      r.0 == m.(debitCredit := StoredPair(v, ResolvedValue(m.debitCredit.items[0], cols),
                                             ResolvedValue(m.debitCredit.items[1], cols)))
    ensures r.1 == Resolved && !NamesInPair(v, m.debitCredit) ==> r.0 == m
  {
    if !ConvertsDebitCredit(v, m.debitCredit) then (m, Resolved)
    else
      var items := m.debitCredit.items;
      if |items| == 0 then (m, Crashed(IndexError))
      else
        match ResolveLocator(items[0], cols)
        case Err(e) => (m, ColumnMissing(e))
        case Ok(debit) =>
          if |items| < 2 then (m, Crashed(IndexError))
          else
            match ResolveLocator(items[1], cols)
            case Err(e) => (m, ColumnMissing(e))
            case Ok(credit) =>
              if items[0].VStr? || items[1].VStr? then (m.(debitCredit := StoredPair(v, debit, credit)), Resolved)
              else (m, Resolved)
  }

  /** Resolution from the k-th single-column locator on. */
  function ResolveFrom(v: Version, m: Manifest, cols: seq<string>, k: nat): (r: (Manifest, Outcome))
    requires k <= LocatorCount
    ensures SameSettings(m, r.0)
    ensures forall j :: 0 <= j < k ==> Locator(r.0, j) == Locator(m, j)
    ensures forall j :: k <= j < LocatorCount ==> Converted(Locator(m, j), Locator(r.0, j), cols)
    ensures r.1.ColumnMissing? ==> r.1.error.ValueError?
    decreases LocatorCount - k
  {
    if k == LocatorCount then ResolveDebitCredit(v, m, cols)
    else
      match ResolveLocator(Locator(m, k), cols)
      case Err(e) => (m, ColumnMissing(e))
      case Ok(loc) => ResolveFrom(v, WithLocator(m, k, loc), cols, k + 1)
  }

  /** `assign_index_from_col_name(bank, cols)` on the manifest's state. */
  function Resolve(v: Version, m: Manifest, cols: seq<string>): (Manifest, Outcome) {
    ResolveFrom(v, m, cols, 0)
  }

  predicate DebitCreditResolved(v: Version, dc: Value) {
    ConvertsDebitCredit(v, dc) ==> |dc.items| >= 2 && !dc.items[0].VStr? && !dc.items[1].VStr?
  }

  /** No locator is left as a column name. */
  predicate FullyResolved(v: Version, m: Manifest) {
    && (forall k :: 0 <= k < LocatorCount ==> !Locator(m, k).VStr?)
    && DebitCreditResolved(v, m.debitCredit)
  }

  lemma {:induction false} ResolveFromLeavesNoName(v: Version, m: Manifest, cols: seq<string>, k: nat)
    requires k <= LocatorCount
    requires ResolveFrom(v, m, cols, k).1 == Resolved
    ensures forall j :: k <= j < LocatorCount ==> !Locator(ResolveFrom(v, m, cols, k).0, j).VStr?
    ensures DebitCreditResolved(v, ResolveFrom(v, m, cols, k).0.debitCredit)
    decreases LocatorCount - k
  {
    if k < LocatorCount {
      var loc := ResolveLocator(Locator(m, k), cols).value;
      ResolveFromLeavesNoName(v, WithLocator(m, k, loc), cols, k + 1);
    }
  }

  lemma {:induction false} ResolveFromIdentity(v: Version, m: Manifest, cols: seq<string>, k: nat)
    requires k <= LocatorCount
    requires forall j :: k <= j < LocatorCount ==> !Locator(m, j).VStr?
    requires DebitCreditResolved(v, m.debitCredit)
    ensures ResolveFrom(v, m, cols, k) == (m, Resolved)
    decreases LocatorCount - k
  {
    if k < LocatorCount {
      assert WithLocator(m, k, Locator(m, k)) == m;
      ResolveFromIdentity(v, m, cols, k + 1);
    }
  }

  /** A successful resolution leaves no column name behind. */
  lemma ResolvedIsFull(v: Version, m: Manifest, cols: seq<string>)
    requires Resolve(v, m, cols).1 == Resolved
    ensures FullyResolved(v, Resolve(v, m, cols).0)
  {
    ResolveFromLeavesNoName(v, m, cols, 0);
  }

  /** Resolving again against the same header changes nothing, whatever the
      first pass ended with: a swallowed ValueError or an escaping IndexError
      recurs at the same place with the same state. */
  lemma {:induction false} ResolveFromAgain(v: Version, m: Manifest, cols: seq<string>, k: nat)
    requires k <= LocatorCount
    ensures ResolveFrom(v, ResolveFrom(v, m, cols, k).0, cols, k) == ResolveFrom(v, m, cols, k)
    decreases LocatorCount - k
  {
    if k == LocatorCount {
      var r := ResolveDebitCredit(v, m, cols);
      if r.0 != m {
        var items := m.debitCredit.items;
        var d := ResolvedValue(items[0], cols);
        var c := ResolvedValue(items[1], cols);
        assert ResolveLocator(d, cols) == Ok(d) && ResolveLocator(c, cols) == Ok(c);
        assert r.0.debitCredit.items == [d, c];
      }
    } else {
      var r := ResolveLocator(Locator(m, k), cols);
      if r.Ok? {
        var m1 := WithLocator(m, k, r.value);
        ResolveFromAgain(v, m1, cols, k + 1);
        var m' := ResolveFrom(v, m1, cols, k + 1).0;
        assert Locator(m', k) == r.value;
        assert ResolveLocator(r.value, cols) == Ok(r.value);
        assert WithLocator(m', k, r.value) == m';
      }
    }
  }

  /** Resolution is idempotent against the same header for every outcome;
      and a manifest resolved without a missing column is never changed
      again: a second file of the same bank, whatever its header, keeps the
      indices of the first. */
  lemma ResolveIdempotent(v: Version, m: Manifest, cols: seq<string>, cols2: seq<string>)
    ensures Resolve(v, Resolve(v, m, cols).0, cols) == Resolve(v, m, cols)
    ensures Resolve(v, m, cols).1 == Resolved ==>
      Resolve(v, Resolve(v, m, cols).0, cols2) == (Resolve(v, m, cols).0, Resolved)
  {
    ResolveFromAgain(v, m, cols, 0);
    if Resolve(v, m, cols).1 == Resolved {
      ResolvedIsFull(v, m, cols);
      ResolveFromIdentity(v, Resolve(v, m, cols).0, cols2, 0);
    }
  }

  lemma {:induction false} ResolveFromPartial(v: Version, m: Manifest, cols: seq<string>, k: nat)
    returns (stop: nat)
    requires k <= LocatorCount
    requires ResolveFrom(v, m, cols, k).1.ColumnMissing?
    ensures k <= stop <= LocatorCount
    ensures forall j :: k <= j < stop ==> Locator(ResolveFrom(v, m, cols, k).0, j) == ResolvedValue(Locator(m, j), cols)
    ensures forall j :: k <= j < stop ==> !Locator(ResolveFrom(v, m, cols, k).0, j).VStr?
    ensures forall j :: stop <= j < LocatorCount ==> Locator(ResolveFrom(v, m, cols, k).0, j) == Locator(m, j)
    ensures ResolveFrom(v, m, cols, k).0.debitCredit == m.debitCredit
    ensures stop < LocatorCount ==>
      Locator(m, stop).VStr? && Locator(m, stop).s !in cols &&
      ResolveFrom(v, m, cols, k).1.error == NotInList(Locator(m, stop).s)
    ensures stop == LocatorCount ==>
      && ConvertsDebitCredit(v, m.debitCredit)
      && exists i :: 0 <= i < |m.debitCredit.items| && m.debitCredit.items[i].VStr? &&
           m.debitCredit.items[i].s !in cols && ResolveFrom(v, m, cols, k).1.error == NotInList(m.debitCredit.items[i].s)
    decreases LocatorCount - k
  {
    if k == LocatorCount {
      stop := k;
      var items := m.debitCredit.items;
      if ResolveLocator(items[0], cols).Err? {
        assert items[0].VStr? && items[0].s !in cols;
      } else {
        assert ResolveLocator(items[1], cols).Err?;
        assert items[1].VStr? && items[1].s !in cols;
      }
    } else {
      var r := ResolveLocator(Locator(m, k), cols);
      if r.Err? {
        stop := k;
      } else {
        var m1 := WithLocator(m, k, r.value);
        stop := ResolveFromPartial(v, m1, cols, k + 1);
        assert Locator(ResolveFrom(v, m, cols, k).0, k) == Locator(m1, k);
      }
    }
  }

  /** A missing column name: the locators before the failing one keep their
      new indices, the failing one and all later ones (and the debit/credit
      pair) keep their old values; the error names the missing column. */
  lemma ResolvePartialFailure(v: Version, m: Manifest, cols: seq<string>) returns (stop: nat)
    requires Resolve(v, m, cols).1.ColumnMissing?
    ensures stop <= LocatorCount
    ensures forall j :: 0 <= j < stop ==> Locator(Resolve(v, m, cols).0, j) == ResolvedValue(Locator(m, j), cols)
    ensures forall j :: 0 <= j < stop ==> !Locator(Resolve(v, m, cols).0, j).VStr?
    ensures forall j :: stop <= j < LocatorCount ==> Locator(Resolve(v, m, cols).0, j) == Locator(m, j)
    ensures Resolve(v, m, cols).0.debitCredit == m.debitCredit
    ensures stop < LocatorCount ==>
      Locator(m, stop).VStr? && Locator(m, stop).s !in cols &&
      Resolve(v, m, cols).1.error == NotInList(Locator(m, stop).s)
    ensures stop == LocatorCount ==>
      && ConvertsDebitCredit(v, m.debitCredit)
      && exists i :: 0 <= i < |m.debitCredit.items| && m.debitCredit.items[i].VStr? &&
           m.debitCredit.items[i].s !in cols && Resolve(v, m, cols).1.error == NotInList(m.debitCredit.items[i].s)
  {
    stop := ResolveFromPartial(v, m, cols, 0);
  }

  /** The newer program prints an extra hint when the missing name is the
      empty string; the hint is shown exactly when the locator was "". */
  predicate EmptyNameHint(e: Exc) {
    e == ValueError("'' is not in list")
  }

  lemma EmptyNameHintExactly(name: string)
    ensures EmptyNameHint(NotInList(name)) <==> name == ""
  {
    if EmptyNameHint(NotInList(name)) {
      var msg := "'" + name + "' is not in list";
      assert msg == "'' is not in list";
      assert |name| == 0;
    }
  }

  /** A column name found in the header's first column resolves to index 0,
      which every later truthiness test reads as "not configured". */
  lemma FirstColumnReadsAsUnset(v: Version, m: Manifest, cols: seq<string>, k: nat)
    requires k < LocatorCount
    requires Locator(m, k).VStr? && |cols| > 0 && cols[0] == Locator(m, k).s
    requires Resolve(v, m, cols).1 == Resolved
    ensures Locator(Resolve(v, m, cols).0, k) == VInt(0)
    ensures !Truthy(Locator(Resolve(v, m, cols).0, k))
  {
    ResolvedIsFull(v, m, cols);
    var loc' := Locator(Resolve(v, m, cols).0, k);
    assert Converted(Locator(m, k), loc', cols);
    assert loc'.VInt?;
  }

  /** `assign_index_from_col_name(bank, cols)`: rewrites the manifest object
      in place, locator by locator, then the debit/credit pair. */
  method AssignIndexFromColName(v: Version, bank: BankColumnManifest, cols: seq<string>)
    returns (outcome: Outcome)
    modifies bank
    ensures (bank.View(), outcome) == Resolve(v, old(bank.View()), cols)
  {
    for k := 0 to LocatorCount
      invariant Resolve(v, old(bank.View()), cols) == ResolveFrom(v, bank.View(), cols, k)
    {
      var loc := Locator(bank.View(), k);
      if loc.VStr? {
        var i := IndexOf(cols, loc.s);
        if i.Err? {
          return ColumnMissing(i.exc);
        }
        SetLocator(bank, k, VInt(i.value));
      }
    }
    outcome := AssignDebitCreditIndex(v, bank, cols);
  }

  method SetLocator(bank: BankColumnManifest, k: nat, loc: Value)
    requires k < LocatorCount
    modifies bank
    ensures bank.View() == WithLocator(old(bank.View()), k, loc)
  {
    match k
    case 0 => bank.date := loc;
    case 1 => bank.description := loc;
    case 2 => bank.category := loc;
    case 3 => bank.transactionType := loc;
    case _ => bank.amount := loc;
  }

  /** The `debit_credit` part of `assign_index_from_col_name`. */
  method AssignDebitCreditIndex(v: Version, bank: BankColumnManifest, cols: seq<string>)
    returns (outcome: Outcome)
    modifies bank
    ensures (bank.View(), outcome) == ResolveDebitCredit(v, old(bank.View()), cols)
  {
    if bank.debitCredit.VTuple? || (v == Current && bank.debitCredit.VList?) {
      var items := bank.debitCredit.items;
      var converted: seq<Value> := [];
      if |items| == 0 {
        return Crashed(IndexError);
      }
      if items[0].VStr? {
        var i := IndexOf(cols, items[0].s);
        if i.Err? {
          return ColumnMissing(i.exc);
        }
        if |items| < 2 {
          return Crashed(IndexError);
        }
        converted := [VInt(i.value), items[1]];
      }
      if |items| < 2 {
        return Crashed(IndexError);
      }
      if items[1].VStr? {
        var i := IndexOf(cols, items[1].s);
        if i.Err? {
          return ColumnMissing(i.exc);
        }
        converted := if converted == [] then [items[0], VInt(i.value)] else [converted[0], VInt(i.value)];
      }
      if converted != [] {
        bank.debitCredit := StoredPair(v, converted[0], converted[1]);
      }
    }
    return Resolved;
  }
}
