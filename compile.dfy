/**
 * `CompileBanks.process_docs` as the programs run it: the manifest objects
 * are rewritten in place by column resolution (and stay rewritten for the
 * next file of the same bank), every row becomes a new `Transaction`
 * object that `add_category` and `update_category_with_amount` then
 * mutate, and the objects are appended to one list. Each method is proved
 * to compute what the functions of `Engine` describe.
 */
module Compile {
  import opened PyValues
  import opened Foreign
  import opened Manifests
  import opened Resolution
  import opened Rules
  import opened Engine
  import opened Transactions

  /** The body of the row loop for a row whose first cell is not None:
      a new transaction object, nothing when a skip filter matches, or the
      exception that ends the run. */
  method BuildTransaction(v: Version, bank: BankColumnManifest, globals: seq<CategoryRule>, env: Env,
                          row: seq<Value>) returns (r: Result<Option<Transaction>>)
    ensures var spec := ProcessRow(v, bank.View(), globals, env, row);
      && (r.Err? ==> spec == Err(r.exc))
      && (r.Ok? ==> spec.Ok? && (r.value.None? <==> spec.value.None?))
      && (r.Ok? && r.value.Some? ==> fresh(r.value.value) && r.value.value.Snapshot() == spec.value.value)
      && (spec.Err? ==> r.Err?)
  {
    var m := bank.View();
    var raw :- RawDescription(v, m, row);
    var patterns :- Iterate(m.regexFilters);
    var skip :- Filtered(patterns, Str(raw, env), env);
    if skip {
      return Ok(None);
    }
    if v == Current && !raw.VStr? {
      return Err(AttributeError);
    }
    var date :- DateFromRow(m, row, env);
    var category :- InitialCategory(m, row);
    if !raw.VStr? {
      return Err(TypeError);
    }
    var t := new Transaction(m.name, date, if v == Current then env.title(raw.s) else raw.s, category);
    AddCategory(t, globals, env);
    var amount :- AmountFromRow(v, m, row, env);
    t.amount := if v == Current then ApplyMultiple(m, amount) else amount;
    var overrides :- Iterate(m.amountCategoryManifest);
    var err := UpdateCategoryWithAmount(v, t, overrides, env);
    if err.Some? {
      return Err(err.value);
    }
    return Ok(Some(t));
  }

  /** The row loop of one file: appends to `acc` the transactions of the
      rows up to the first row whose first cell is None. */
  method ProcessRows(v: Version, bank: BankColumnManifest, globals: seq<CategoryRule>, env: Env,
                     rows: seq<seq<Value>>, acc: seq<Transaction>) returns (r: Result<seq<Transaction>>)
    ensures var spec := RowsFrom(v, bank.View(), globals, env, rows, 0, Snapshots(acc));
      && (r.Err? <==> spec.Err?)
      && (r.Err? ==> spec == Err(r.exc))
      && (r.Ok? ==> Snapshots(r.value) == spec.value)
    ensures r.Ok? ==> |acc| <= |r.value| && r.value[..|acc|] == acc
    ensures r.Ok? ==> forall k :: |acc| <= k < |r.value| ==> fresh(r.value[k])
  {
    var list := acc;
    var i := 0;
    while i < |rows|
      invariant i <= |rows|
      invariant |acc| <= |list| && list[..|acc|] == acc
      invariant forall k :: |acc| <= k < |list| ==> fresh(list[k])
      invariant RowsFrom(v, bank.View(), globals, env, rows, 0, Snapshots(acc))
             == RowsFrom(v, bank.View(), globals, env, rows, i, Snapshots(list))
      decreases |rows| - i
    {
      if |rows[i]| == 0 || rows[i][0] == VNone {
        RowsFromStops(v, bank.View(), globals, env, rows, i, Snapshots(list));
        if |rows[i]| == 0 {
          return Err(IndexError);
        }
        break;
      }
      var next := ProcessRowInto(v, bank, globals, env, rows, i, list);
      if next.Err? {
        return Err(next.exc);
      }
      forall k | |acc| <= k < |next.value|
        ensures fresh(next.value[k])
      {
        if k < |list| {
          assert next.value[k] == next.value[..|list|][k];
        }
      }
      list := next.value;
      i := i + 1;
    }
    if i == |rows| {
      RowsFromStops(v, bank.View(), globals, env, rows, i, Snapshots(list));
    }
    return Ok(list);
  }

  /** The body of the row loop: `list` with the row's new transaction
      object appended, unchanged for a filtered row, or the exception that
      ends the run. */
  method ProcessRowInto(v: Version, bank: BankColumnManifest, globals: seq<CategoryRule>, env: Env,
                        rows: seq<seq<Value>>, i: nat, list: seq<Transaction>) returns (r: Result<seq<Transaction>>)
    requires i < |rows| && |rows[i]| > 0 && rows[i][0] != VNone
    ensures var spec := ProcessRow(v, bank.View(), globals, env, rows[i]);
      && (r.Err? <==> spec.Err?)
      && (r.Err? ==> spec == Err(r.exc))
      && (r.Ok? ==> Snapshots(r.value) == Snapshots(list) + (if spec.value.Some? then [spec.value.value] else []))
    ensures r.Ok? ==> |list| <= |r.value| && r.value[..|list|] == list
    ensures r.Ok? ==> forall k :: |list| <= k < |r.value| ==> fresh(r.value[k])
    ensures r.Err? ==> RowsFrom(v, bank.View(), globals, env, rows, i, Snapshots(list)) == Err(r.exc)
    ensures r.Ok? ==> (RowsFrom(v, bank.View(), globals, env, rows, i, Snapshots(list))
                    == RowsFrom(v, bank.View(), globals, env, rows, i + 1, Snapshots(r.value)))
  {
    RowsFromNext(v, bank.View(), globals, env, rows, i, Snapshots(list));
    var t := BuildTransaction(v, bank, globals, env, rows[i]);
    if t.Err? {
      return Err(t.exc);
    }
    if t.value.Some? {
      assert Snapshots(list + [t.value.value]) == Snapshots(list) + [t.value.value.Snapshot()];
      return Ok(list + [t.value.value]);
    }
    return Ok(list);
  }

  /** `process_docs` over the files already read: the bank of each file
      is looked up by name, its manifest object is resolved in place
      against the file's header, and its rows are transformed. */
  method ProcessDocs(v: Version, banks: seq<BankColumnManifest>, globals: seq<CategoryRule>, env: Env,
                     docs: seq<Doc>) returns (r: Result<seq<Transaction>>)
    requires forall j, k :: 0 <= j < k < |banks| ==> banks[j] != banks[k]
    modifies banks
    ensures var spec := DocsFrom(v, old(Views(banks)), globals, env, docs, 0, []);
      && Views(banks) == spec.1
      && (r.Err? <==> spec.0.Err?)
      && (r.Err? ==> spec.0 == Err(r.exc))
      && (r.Ok? ==> Snapshots(r.value) == spec.0.value)
    ensures r.Ok? ==> forall k :: 0 <= k < |r.value| ==> fresh(r.value[k])
  {
    var list: seq<Transaction> := [];
    for i := 0 to |docs|
      invariant forall k :: 0 <= k < |list| ==> fresh(list[k])
      invariant DocsFrom(v, old(Views(banks)), globals, env, docs, 0, [])
             == DocsFrom(v, Views(banks), globals, env, docs, i, Snapshots(list))
    {
      var step := ProcessDoc(v, banks, globals, env, docs, i, list);
      if step.Err? {
        return step;
      }
      forall k | 0 <= k < |step.value|
        ensures fresh(step.value[k])
      {
        if k < |list| {
          assert step.value[k] == step.value[..|list|][k];
        }
      }
      list := step.value;
    }
    return Ok(list);
  }

  /** One iteration of the file loop: the transactions collected so far
      with those of file `i` appended, or the exception that ends the run. */
  method ProcessDoc(v: Version, banks: seq<BankColumnManifest>, globals: seq<CategoryRule>, env: Env,
                    docs: seq<Doc>, i: nat, list: seq<Transaction>) returns (r: Result<seq<Transaction>>)
    requires i < |docs|
    requires forall j, k :: 0 <= j < k < |banks| ==> banks[j] != banks[k]
    modifies banks
    ensures DocsFrom(v, old(Views(banks)), globals, env, docs, i, old(Snapshots(list)))
         == if r.Err? then (Err(r.exc), Views(banks))
            else DocsFrom(v, Views(banks), globals, env, docs, i + 1, Snapshots(r.value))
    ensures r.Ok? ==> |list| <= |r.value| && r.value[..|list|] == list
    ensures r.Ok? ==> forall k :: |list| <= k < |r.value| ==> fresh(r.value[k])
  {
    var found := FindBank(Names(Views(banks)), docs[i].path);
    if found.None? {
      UnmatchedFile(v, Views(banks), globals, env, docs, i, Snapshots(list));
      if v == Legacy {
        return Err(AttributeError);
      }
      return Ok(list);
    }
    r := ProcessMatchedDoc(v, banks, globals, env, docs, i, list, found.value);
  }

  /** A file whose bank `k` is found: the bank's object is resolved in
      place against the file's header, then its rows are processed. */
  method ProcessMatchedDoc(v: Version, banks: seq<BankColumnManifest>, globals: seq<CategoryRule>, env: Env,
                           docs: seq<Doc>, i: nat, list: seq<Transaction>, k: nat) returns (r: Result<seq<Transaction>>)
    requires i < |docs| && FindBank(Names(Views(banks)), docs[i].path) == Some(k)
    requires forall j, k :: 0 <= j < k < |banks| ==> banks[j] != banks[k]
    modifies banks
    ensures DocsFrom(v, old(Views(banks)), globals, env, docs, i, old(Snapshots(list)))
         == if r.Err? then (Err(r.exc), Views(banks))
            else DocsFrom(v, Views(banks), globals, env, docs, i + 1, Snapshots(r.value))
    ensures r.Ok? ==> |list| <= |r.value| && r.value[..|list|] == list
    ensures r.Ok? ==> forall k :: |list| <= k < |r.value| ==> fresh(r.value[k])
  {
    var bank := banks[k];
    ghost var before := Views(banks);
    var outcome := AssignIndexFromColName(v, bank, docs[i].header);
    ViewsAfterUpdate(banks, before, k);
    DocsFromMatched(v, before, globals, env, docs, i, Snapshots(list), k);
    if outcome.Crashed? {
      return Err(outcome.error);
    }
    ghost var views := Views(banks);
    r := ProcessRows(v, bank, globals, env, docs[i].rows, list);
    assert Views(banks) == views;
    ghost var rows := if r.Err? then Err(r.exc) else Ok(Snapshots(r.value));
    MatchedDocStep(v, before, globals, env, docs, i, Snapshots(list), k, bank.View(), rows);
  }

  /** The matched-file step of `DocsFrom`, given what resolution and the
      row loop produced. */
  lemma MatchedDocStep(v: Version, before: seq<Manifest>, globals: seq<CategoryRule>, env: Env,
                       docs: seq<Doc>, i: nat, acc: seq<Txn>, k: nat, resolved: Manifest, rows: Result<seq<Txn>>)
    requires i < |docs| && FindBank(Names(before), docs[i].path) == Some(k)
    requires Resolve(v, before[k], docs[i].header).0 == resolved
    requires !Resolve(v, before[k], docs[i].header).1.Crashed?
    requires RowsFrom(v, resolved, globals, env, docs[i].rows, 0, acc) == rows
    ensures DocsFrom(v, before, globals, env, docs, i, acc)
         == if rows.Err? then (Err(rows.exc), before[k := resolved])
            else DocsFrom(v, before[k := resolved], globals, env, docs, i + 1, rows.value)
  {
    DocsFromMatched(v, before, globals, env, docs, i, acc, k);
  }

  /** Only the resolved manifest object changed. */
  lemma ViewsAfterUpdate(banks: seq<BankColumnManifest>, before: seq<Manifest>, k: nat)
    requires k < |banks| == |before|
    requires forall j :: 0 <= j < |banks| && j != k ==> banks[j].View() == before[j]
    ensures Views(banks) == before[k := banks[k].View()]
  {
  }
}
