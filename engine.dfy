/**
 * What `process_docs` computes, as functions: the transformation of one
 * CSV row into a transaction (or into nothing), of one file's rows, and of
 * a list of files, in either program version. An exception anywhere ends
 * the whole run, so every level returns a `Result`.
 */
module Engine {
  import opened PyValues
  import opened Foreign
  import opened Manifests
  import opened Resolution
  import opened Rules

  /** A transaction as `process_docs` appends it. */
  datatype Txn = Txn(bankName: string, date: int, description: string, amount: real, category: Value)

  /** One input file after pandas has read it: its path, its column names
      and its data rows (NaN already replaced by None). */
  datatype Doc = Doc(path: string, header: seq<string>, rows: seq<seq<Value>>)

  /** The row's raw description reaches the skip filters and none of them matches. */
  predicate PassesFilters(v: Version, m: Manifest, row: seq<Value>, env: Env) {
    && RawDescription(v, m, row).Ok?
    && Iterate(m.regexFilters).Ok?
    && Filtered(Iterate(m.regexFilters).value, Str(RawDescription(v, m, row).value, env), env) == Ok(false)
  }

  /** The row's raw description matches one of the skip filters. */
  predicate MatchesFilter(v: Version, m: Manifest, row: seq<Value>, env: Env) {
    && RawDescription(v, m, row).Ok?
    && Iterate(m.regexFilters).Ok?
    && Filtered(Iterate(m.regexFilters).value, Str(RawDescription(v, m, row).value, env), env) == Ok(true)
  }

  /** The body of the row loop of `process_docs` for one row whose first
      cell is not None: `Ok(None)` when a skip filter drops the row. */
  function ProcessRow(v: Version, m: Manifest, globals: seq<CategoryRule>, env: Env, row: seq<Value>)
    : (r: Result<Option<Txn>>)
    ensures MatchesFilter(v, m, row, env) ==> r == Ok(None)
    ensures r.Ok? && r.value.Some? ==> PassesFilters(v, m, row, env)
    ensures r.Ok? && r.value.Some? ==>
      && RawDescription(v, m, row).value.VStr?
      && r.value.value.description ==
           (if v == Current then env.title(RawDescription(v, m, row).value.s) else RawDescription(v, m, row).value.s)
      && r.value.value.bankName == m.name
  {
    var raw :- RawDescription(v, m, row);
    var patterns :- Iterate(m.regexFilters);
    var skip :- Filtered(patterns, Str(raw, env), env);
    if skip then Ok(None)
    else if v == Current && !raw.VStr? then Err(AttributeError)
    else
      var date :- DateFromRow(m, row, env);
      var category :- InitialCategory(m, row);
      // The older program's TypeError comes from `re.search` over its
      // global rules, which are always the non-empty constant table.
      if !raw.VStr? then Err(TypeError)
      else
        var description := if v == Current then env.title(raw.s) else raw.s;
        var category' := CategoryAfterRules(globals, description, category, env);
        var amount :- AmountFromRow(v, m, row, env);
        var amount' := if v == Current then ApplyMultiple(m, amount) else amount;
        var overrides :- Iterate(m.amountCategoryManifest);
        var charge :- AmountOverrides(v, overrides, description, Charge(amount', category'), env);
        Ok(Some(Txn(m.name, date, description, charge.amount, charge.category)))
  }

  /** The newer program: with a truthy numeric `amount_multiple`, the sign of
      every non-zero amount it keeps is the multiplier's sign. */
  lemma MultipleDecidesSign(m: Manifest, globals: seq<CategoryRule>, env: Env, row: seq<Value>)
    requires Truthy(m.amountMultiple) && IsNumber(m.amountMultiple)
    requires ProcessRow(Current, m, globals, env, row).Ok? && ProcessRow(Current, m, globals, env, row).value.Some?
    ensures ProcessRow(Current, m, globals, env, row).value.value.amount > 0.0 ==> AsReal(m.amountMultiple) > 0.0
    ensures ProcessRow(Current, m, globals, env, row).value.value.amount < 0.0 ==> AsReal(m.amountMultiple) < 0.0
  {
    var raw := RawDescription(Current, m, row).value;
    var description := env.title(raw.s);
    var category := CategoryAfterRules(globals, description, InitialCategory(m, row).value, env);
    var amount := AmountFromRow(Current, m, row, env).value;
    var overrides := Iterate(m.amountCategoryManifest).value;
    var charge := AmountOverrides(Current, overrides, description, Charge(ApplyMultiple(m, amount), category), env).value;
    assert charge.amount == ProcessRow(Current, m, globals, env, row).value.value.amount;
  }

  /** The row loop of `process_docs` for one file, from row `i` on, after the
      transactions `acc` already collected: it stops at the first row whose
      first cell is None. */
  function RowsFrom(v: Version, m: Manifest, globals: seq<CategoryRule>, env: Env,
                    rows: seq<seq<Value>>, i: nat, acc: seq<Txn>): (r: Result<seq<Txn>>)
    requires i <= |rows|
    ensures r.Ok? ==> |acc| <= |r.value| && r.value[..|acc|] == acc
    decreases |rows| - i
  {
    if i == |rows| then Ok(acc)
    else if |rows[i]| == 0 then Err(IndexError)
    else if rows[i][0] == VNone then Ok(acc)
    else
      var t :- ProcessRow(v, m, globals, env, rows[i]);
      var acc' := if t.Some? then acc + [t.value] else acc;
      var r := RowsFrom(v, m, globals, env, rows, i + 1, acc');
      if r.Ok? then
        assert r.value[..|acc|] == acc'[..|acc|];
        r
      else r
  }

  /** The row loop at a row whose first cell is not None: the row's
      exception ends the file, otherwise its transaction (if any) is
      appended and the loop goes on. */
  lemma RowsFromNext(v: Version, m: Manifest, globals: seq<CategoryRule>, env: Env,
                     rows: seq<seq<Value>>, i: nat, acc: seq<Txn>)
    requires i < |rows| && |rows[i]| > 0 && rows[i][0] != VNone
    ensures var x := ProcessRow(v, m, globals, env, rows[i]);
      RowsFrom(v, m, globals, env, rows, i, acc) ==
        if x.Err? then Err(x.exc)
        else RowsFrom(v, m, globals, env, rows, i + 1, acc + (if x.value.Some? then [x.value.value] else []))
  {
    var x := ProcessRow(v, m, globals, env, rows[i]);
    if x.Ok? && x.value.None? {
      assert acc + [] == acc;
    }
  }

  /** The row loop ends at the last row and at a row whose first cell is
      None, keeping what it has; an empty row is an IndexError. */
  lemma RowsFromStops(v: Version, m: Manifest, globals: seq<CategoryRule>, env: Env,
                      rows: seq<seq<Value>>, i: nat, acc: seq<Txn>)
    requires i <= |rows|
    ensures i == |rows| ==> RowsFrom(v, m, globals, env, rows, i, acc) == Ok(acc)
    ensures i < |rows| && |rows[i]| == 0 ==> RowsFrom(v, m, globals, env, rows, i, acc) == Err(IndexError)
    ensures i < |rows| && |rows[i]| > 0 && rows[i][0] == VNone ==> RowsFrom(v, m, globals, env, rows, i, acc) == Ok(acc)
  {
  }

  /** Every transaction the row loop adds is the transformation of one of its rows. */
  lemma {:induction false} RowsFromProvenance(v: Version, m: Manifest, globals: seq<CategoryRule>, env: Env,
                                              rows: seq<seq<Value>>, i: nat, acc: seq<Txn>, t: Txn)
    requires i <= |rows|
    requires RowsFrom(v, m, globals, env, rows, i, acc).Ok?
    requires t in RowsFrom(v, m, globals, env, rows, i, acc).value && t !in acc
    ensures exists j :: i <= j < |rows| && ProcessRow(v, m, globals, env, rows[j]) == Ok(Some(t))
    decreases |rows| - i
  {
    if !(i == |rows| || |rows[i]| == 0 || rows[i][0] == VNone) {
      var x := ProcessRow(v, m, globals, env, rows[i]).value;
      var acc' := if x.Some? then acc + [x.value] else acc;
      if x.Some? && t == x.value {
      } else {
        assert t !in acc';
        RowsFromProvenance(v, m, globals, env, rows, i + 1, acc', t);
      }
    }
  }

  /** Skip filters win: every transaction of a file is the transformation
      of one of its rows, and that row passed the bank's skip filters. */
  lemma FilteredRowsNeverAppear(v: Version, m: Manifest, globals: seq<CategoryRule>, env: Env,
                                rows: seq<seq<Value>>, t: Txn)
    requires RowsFrom(v, m, globals, env, rows, 0, []).Ok?
    requires t in RowsFrom(v, m, globals, env, rows, 0, []).value
    ensures exists j :: (0 <= j < |rows| && ProcessRow(v, m, globals, env, rows[j]) == Ok(Some(t)) &&
      PassesFilters(v, m, rows[j], env) && !MatchesFilter(v, m, rows[j], env))
  {
    RowsFromProvenance(v, m, globals, env, rows, 0, [], t);
    var j :| 0 <= j < |rows| && ProcessRow(v, m, globals, env, rows[j]) == Ok(Some(t));
    assert PassesFilters(v, m, rows[j], env);
  }

  /** The row loop misses nothing: a row reached before any row whose first
      cell is None contributes its transaction to the result. */
  lemma {:induction false} RowsFromComplete(v: Version, m: Manifest, globals: seq<CategoryRule>, env: Env,
                                            rows: seq<seq<Value>>, i: nat, acc: seq<Txn>, j: nat, t: Txn)
    requires i <= j < |rows|
    requires forall l :: i <= l <= j ==> |rows[l]| > 0 && rows[l][0] != VNone
    requires ProcessRow(v, m, globals, env, rows[j]) == Ok(Some(t))
    requires RowsFrom(v, m, globals, env, rows, i, acc).Ok?
    ensures t in RowsFrom(v, m, globals, env, rows, i, acc).value
    decreases j - i
  {
    var x := ProcessRow(v, m, globals, env, rows[i]).value;
    var acc' := if x.Some? then acc + [x.value] else acc;
    assert RowsFrom(v, m, globals, env, rows, i, acc) == RowsFrom(v, m, globals, env, rows, i + 1, acc');
    if i == j {
      var r := RowsFrom(v, m, globals, env, rows, i + 1, acc').value;
      assert r[..|acc'|] == acc' && acc'[|acc|] == t;
      assert r[|acc|] == t;
    } else {
      RowsFromComplete(v, m, globals, env, rows, i + 1, acc', j, t);
    }
  }

  /** A row whose first cell is None ends the file: nothing after it is read. */
  lemma {:induction false} StopsAtEmptyFirstCell(v: Version, m: Manifest, globals: seq<CategoryRule>, env: Env,
                                                 rows: seq<seq<Value>>, stop: nat, i: nat, acc: seq<Txn>)
    requires i <= stop < |rows|
    requires |rows[stop]| > 0 && rows[stop][0] == VNone
    ensures RowsFrom(v, m, globals, env, rows, i, acc) == RowsFrom(v, m, globals, env, rows[..stop], i, acc)
    decreases stop - i
  {
    if i < stop {
      assert rows[..stop][i] == rows[i];
      if |rows[i]| > 0 && rows[i][0] != VNone && ProcessRow(v, m, globals, env, rows[i]).Ok? {
        var t := ProcessRow(v, m, globals, env, rows[i]).value;
        StopsAtEmptyFirstCell(v, m, globals, env, rows, stop, i + 1, if t.Some? then acc + [t.value] else acc);
      }
    }
  }

  /** The file loop of `process_docs`, from file `i` on, with the manifests'
      current states: it yields the transactions (or the exception that
      ends the run) and the manifests' states afterwards. An unmatched file
      is skipped by the newer program and raises AttributeError in the
      older one, which reads `bank.name` before testing for None. */
  function DocsFrom(v: Version, views: seq<Manifest>, globals: seq<CategoryRule>, env: Env,
                    docs: seq<Doc>, i: nat, acc: seq<Txn>): (r: (Result<seq<Txn>>, seq<Manifest>))
    requires i <= |docs|
    ensures Names(r.1) == Names(views)
    ensures r.0.Ok? ==> |acc| <= |r.0.value| && r.0.value[..|acc|] == acc
    decreases |docs| - i
  {
    if i == |docs| then (Ok(acc), views)
    else
      match FindBank(Names(views), docs[i].path)
      case None =>
        if v == Current then DocsFrom(v, views, globals, env, docs, i + 1, acc) else (Err(AttributeError), views)
      case Some(k) =>
        var resolved := Resolve(v, views[k], docs[i].header);
        var views' := views[k := resolved.0];
        assert Names(views') == Names(views);
        if resolved.1.Crashed? then (Err(resolved.1.error), views')
        else
          match RowsFrom(v, resolved.0, globals, env, docs[i].rows, 0, acc)
          case Err(e) => (Err(e), views')
          case Ok(acc') =>
            var r := DocsFrom(v, views', globals, env, docs, i + 1, acc');
            if r.0.Ok? then
              assert r.0.value[..|acc|] == acc'[..|acc|];
              r
            else r
  }

  /** A file that no bank matches: the newer program skips it; the older one
      reads `bank.name` on None first, which ends the run. */
  lemma UnmatchedFile(v: Version, views: seq<Manifest>, globals: seq<CategoryRule>, env: Env,
                      docs: seq<Doc>, i: nat, acc: seq<Txn>)
    requires i < |docs| && FindBank(Names(views), docs[i].path).None?
    ensures v == Current ==>
      DocsFrom(v, views, globals, env, docs, i, acc) == DocsFrom(v, views, globals, env, docs, i + 1, acc)
    ensures v == Legacy ==> DocsFrom(v, views, globals, env, docs, i, acc) == (Err(AttributeError), views)
  {
  }

  /** One step of the file loop for a file whose bank `k` is found: the
      bank's manifest is resolved against the file's header and replaced by
      the result; an escaping exception ends the run, otherwise the file's
      rows are processed under the resolved manifest and the loop goes on. */
  lemma DocsFromMatched(v: Version, views: seq<Manifest>, globals: seq<CategoryRule>, env: Env,
                        docs: seq<Doc>, i: nat, acc: seq<Txn>, k: nat)
    requires i < |docs| && FindBank(Names(views), docs[i].path) == Some(k)
    ensures var res := Resolve(v, views[k], docs[i].header);
      DocsFrom(v, views, globals, env, docs, i, acc) ==
        if res.1.Crashed? then (Err(res.1.error), views[k := res.0])
        else match RowsFrom(v, res.0, globals, env, docs[i].rows, 0, acc)
          case Err(e) => (Err(e), views[k := res.0])
          case Ok(acc') => DocsFrom(v, views[k := res.0], globals, env, docs, i + 1, acc')
  {
  }

  /** What a matched file contributes to a run that succeeds: with the
      manifests in the states the earlier files leave, the file's bank is
      resolved against its header without an escaping exception, and the
      transactions its rows produce under that manifest follow those of the
      earlier files in the run's result. */
  lemma DocsFromContribution(v: Version, views: seq<Manifest>, globals: seq<CategoryRule>, env: Env,
                             docs: seq<Doc>, j: nat, k: nat)
    requires j < |docs| && FindBank(Names(views), docs[j].path) == Some(k)
    requires DocsFrom(v, views, globals, env, docs, 0, []).0.Ok?
    ensures var before := DocsFrom(v, views, globals, env, docs[..j], 0, []);
      && before.0.Ok?
      && k < |before.1|
      && !Resolve(v, before.1[k], docs[j].header).1.Crashed?
      && RowsFrom(v, Resolve(v, before.1[k], docs[j].header).0, globals, env, docs[j].rows, 0, before.0.value).Ok?
      && RowsFrom(v, Resolve(v, before.1[k], docs[j].header).0, globals, env, docs[j].rows, 0, before.0.value).value
           <= DocsFrom(v, views, globals, env, docs, 0, []).0.value
  {
    ContributionFrom(v, views, globals, env, docs, 0, j, k, []);
  }

  /** `DocsFromContribution` for the loop from file `i` on. */
  predicate Contributes(v: Version, views: seq<Manifest>, globals: seq<CategoryRule>, env: Env,
                        docs: seq<Doc>, i: nat, j: nat, k: nat, acc: seq<Txn>)
    requires i <= j < |docs|
  {
    var before := DocsFrom(v, views, globals, env, docs[..j], i, acc);
    && DocsFrom(v, views, globals, env, docs, i, acc).0.Ok?
    && before.0.Ok?
    && k < |before.1|
    && !Resolve(v, before.1[k], docs[j].header).1.Crashed?
    && RowsFrom(v, Resolve(v, before.1[k], docs[j].header).0, globals, env, docs[j].rows, 0, before.0.value).Ok?
    && RowsFrom(v, Resolve(v, before.1[k], docs[j].header).0, globals, env, docs[j].rows, 0, before.0.value).value
         <= DocsFrom(v, views, globals, env, docs, i, acc).0.value
  }

  lemma {:induction false} ContributionFrom(v: Version, views: seq<Manifest>, globals: seq<CategoryRule>, env: Env,
                                            docs: seq<Doc>, i: nat, j: nat, k: nat, acc: seq<Txn>)
    requires i <= j < |docs| && FindBank(Names(views), docs[j].path) == Some(k)
    requires DocsFrom(v, views, globals, env, docs, i, acc).0.Ok?
    ensures Contributes(v, views, globals, env, docs, i, j, k, acc)
    decreases j - i
  {
    if i == j {
      ContributionHere(v, views, globals, env, docs, j, k, acc);
    } else {
      var views', acc' := ContributionStep(v, views, globals, env, docs, i, j, k, acc);
      ContributionFrom(v, views', globals, env, docs, i + 1, j, k, acc');
    }
  }

  /** `ContributionFrom` when file `j` is the next one. */
  lemma ContributionHere(v: Version, views: seq<Manifest>, globals: seq<CategoryRule>, env: Env,
                         docs: seq<Doc>, j: nat, k: nat, acc: seq<Txn>)
    requires j < |docs| && FindBank(Names(views), docs[j].path) == Some(k)
    requires DocsFrom(v, views, globals, env, docs, j, acc).0.Ok?
    ensures Contributes(v, views, globals, env, docs, j, j, k, acc)
  {
    DocsFromMatched(v, views, globals, env, docs, j, acc, k);
    var res := Resolve(v, views[k], docs[j].header);
    var acc' := RowsFrom(v, res.0, globals, env, docs[j].rows, 0, acc).value;
    var r := DocsFrom(v, views[k := res.0], globals, env, docs, j + 1, acc').0.value;
    assert r[..|acc'|] == acc';
  }

  /** One earlier file of `ContributionFrom`: the run goes on past file `i`
      with the manifests and transactions it leaves, in `docs` and in its
      first `j` files alike. */
  lemma ContributionStep(v: Version, views: seq<Manifest>, globals: seq<CategoryRule>, env: Env,
                         docs: seq<Doc>, i: nat, j: nat, k: nat, acc: seq<Txn>)
    returns (views': seq<Manifest>, acc': seq<Txn>)
    requires i < j < |docs| && FindBank(Names(views), docs[j].path) == Some(k)
    requires DocsFrom(v, views, globals, env, docs, i, acc).0.Ok?
    ensures FindBank(Names(views'), docs[j].path) == Some(k)
    ensures DocsFrom(v, views', globals, env, docs, i + 1, acc') == DocsFrom(v, views, globals, env, docs, i, acc)
    ensures DocsFrom(v, views', globals, env, docs[..j], i + 1, acc') == DocsFrom(v, views, globals, env, docs[..j], i, acc)
  {
    assert docs[..j][i] == docs[i];
    var found := FindBank(Names(views), docs[i].path);
    if found.None? {
      UnmatchedFile(v, views, globals, env, docs, i, acc);
      UnmatchedFile(v, views, globals, env, docs[..j], i, acc);
      views', acc' := views, acc;
    } else {
      var b := found.value;
      DocsFromMatched(v, views, globals, env, docs, i, acc, b);
      DocsFromMatched(v, views, globals, env, docs[..j], i, acc, b);
      var res := Resolve(v, views[b], docs[i].header);
      views' := views[b := res.0];
      acc' := RowsFrom(v, res.0, globals, env, docs[i].rows, 0, acc).value;
      assert Names(views') == Names(views);
    }
  }

  /** The file loop misses nothing: in a run that succeeds, every transaction
      a matched file's row produces, under its bank's manifest as resolved
      for that file, is in the result. */
  lemma DocsFromComplete(v: Version, views: seq<Manifest>, globals: seq<CategoryRule>, env: Env,
                         docs: seq<Doc>, j: nat, k: nat, l: nat, t: Txn)
    requires j < |docs| && FindBank(Names(views), docs[j].path) == Some(k)
    requires DocsFrom(v, views, globals, env, docs, 0, []).0.Ok?
    requires l < |docs[j].rows| && forall l' :: 0 <= l' <= l ==> |docs[j].rows[l']| > 0 && docs[j].rows[l'][0] != VNone
    requires var before := DocsFrom(v, views, globals, env, docs[..j], 0, []);
      k < |before.1| && ProcessRow(v, Resolve(v, before.1[k], docs[j].header).0, globals, env, docs[j].rows[l]) == Ok(Some(t))
    ensures t in DocsFrom(v, views, globals, env, docs, 0, []).0.value
  {
    DocsFromContribution(v, views, globals, env, docs, j, k);
    var before := DocsFrom(v, views, globals, env, docs[..j], 0, []);
    var m := Resolve(v, before.1[k], docs[j].header).0;
    RowsFromComplete(v, m, globals, env, docs[j].rows, 0, before.0.value, l, t);
    var r := RowsFrom(v, m, globals, env, docs[j].rows, 0, before.0.value).value;
    var i :| 0 <= i < |r| && r[i] == t;
    assert DocsFrom(v, views, globals, env, docs, 0, []).0.value[i] == t;
  }

  /** `t` is what manifest `m` makes of one of the rows, and that row passed
      `m`'s skip filters. */
  predicate ProducedBy(v: Version, m: Manifest, globals: seq<CategoryRule>, env: Env, rows: seq<seq<Value>>, t: Txn) {
    exists l :: 0 <= l < |rows| && PassesFilters(v, m, rows[l], env) && ProcessRow(v, m, globals, env, rows[l]) == Ok(Some(t))
  }

  /** `t` comes from a row of a file from `i` on, under a manifest with the
      configured settings of the bank in `views` that the file's path
      selects. */
  ghost predicate FromSomeFile(v: Version, views: seq<Manifest>, globals: seq<CategoryRule>, env: Env,
                         docs: seq<Doc>, i: nat, t: Txn) {
    exists j, m :: (i <= j < |docs| && ProducedBy(v, m, globals, env, docs[j].rows, t) &&
      FindBank(Names(views), docs[j].path).Some? && SameSettings(views[FindBank(Names(views), docs[j].path).value], m))
  }

  /** Resolving one bank keeps the settings of every bank, so where a
      transaction comes from reads the same before and after. */
  lemma FromSomeFileAfterResolve(v: Version, views: seq<Manifest>, k: nat, resolved: Manifest,
                                 globals: seq<CategoryRule>, env: Env, docs: seq<Doc>, i: nat, t: Txn)
    requires k < |views| && SameSettings(views[k], resolved)
    requires FromSomeFile(v, views[k := resolved], globals, env, docs, i, t)
    ensures FromSomeFile(v, views, globals, env, docs, i, t)
  {
    var views' := views[k := resolved];
    assert Names(views') == Names(views);
    var j, m :| (i <= j < |docs| && ProducedBy(v, m, globals, env, docs[j].rows, t) &&
      FindBank(Names(views'), docs[j].path).Some? && SameSettings(views'[FindBank(Names(views'), docs[j].path).value], m));
    assert SameSettings(views[FindBank(Names(views), docs[j].path).value], m);
  }

  /** Every transaction of a run comes from a row of some file, that row
      passed the skip filters, and it was transformed under a manifest with
      the configured settings (name, filters, overrides, multiplier) of the
      bank the file's path names. */
  lemma {:induction false} DocsFromProvenance(v: Version, views: seq<Manifest>, globals: seq<CategoryRule>, env: Env,
                                              docs: seq<Doc>, i: nat, acc: seq<Txn>, t: Txn)
    requires i <= |docs|
    requires DocsFrom(v, views, globals, env, docs, i, acc).0.Ok?
    requires t in DocsFrom(v, views, globals, env, docs, i, acc).0.value && t !in acc
    ensures FromSomeFile(v, views, globals, env, docs, i, t)
    decreases |docs| - i
  {
    if i < |docs| {
      match FindBank(Names(views), docs[i].path)
      case None =>
        DocsFromProvenance(v, views, globals, env, docs, i + 1, acc, t);
      case Some(k) =>
        var resolved := Resolve(v, views[k], docs[i].header);
        var views' := views[k := resolved.0];
        var acc' := RowsFrom(v, resolved.0, globals, env, docs[i].rows, 0, acc).value;
        if t in acc' {
          RowsFromProvenance(v, resolved.0, globals, env, docs[i].rows, 0, acc, t);
          assert ProducedBy(v, resolved.0, globals, env, docs[i].rows, t);
        } else {
          DocsFromProvenance(v, views', globals, env, docs, i + 1, acc', t);
          FromSomeFileAfterResolve(v, views, k, resolved.0, globals, env, docs, i + 1, t);
        }
    }
  }
}
