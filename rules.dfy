/**
 * The stateless rules of the engine, in both program versions: choosing a
 * bank for a file, choosing input files, patching a header line, skip
 * filters, reading the date, the description and the category, computing
 * the amount, and the first-match-wins category tables.
 */
module Rules {
  import opened PyValues
  import opened Foreign
  import opened Manifests

  /** `get_bank_manifest_from_path`: the first bank whose name occurs in the
      lower-cased path, as an index into the manifest list. */
  function FindBank(names: seq<string>, path: string): (r: Option<nat>)
    ensures r.Some? ==> r.value < |names| && IsSubstring(names[r.value], Lower(path))
    ensures r.Some? ==> forall j :: 0 <= j < r.value ==> !IsSubstring(names[j], Lower(path))
    ensures r.None? <==> forall j :: 0 <= j < |names| ==> !IsSubstring(names[j], Lower(path))
  {
    FindBankFrom(names, Lower(path), 0)
  }

  function FindBankFrom(names: seq<string>, lowered: string, i: nat): (r: Option<nat>)
    requires i <= |names|
    ensures r.Some? ==> i <= r.value < |names| && IsSubstring(names[r.value], lowered)
    ensures r.Some? ==> forall j :: i <= j < r.value ==> !IsSubstring(names[j], lowered)
    ensures r.None? <==> forall j :: i <= j < |names| ==> !IsSubstring(names[j], lowered)
    decreases |names| - i
  {
    if i == |names| then None
    else if IsSubstring(names[i], lowered) then Some(i)
    else FindBankFrom(names, lowered, i + 1)
  }

  /** The filename test of `get_docs`: a `.csv`/`.CSV` name that does not
      occur anywhere inside either output path. */
  predicate IsStatementFile(filename: string, expensesPath: string, incomePath: string) {
    && (EndsWith(filename, ".csv") || EndsWith(filename, ".CSV"))
    && !IsSubstring(filename, expensesPath)
    && !IsSubstring(filename, incomePath)
  }

  const ExpensesName: string := "Compiled expenses.csv"
  const IncomeName: string := "Compiled Income.csv"

  /** `os.path.join(dir, name)`. */
  function OutputPath(dir: string, name: string): string {
    dir + "/" + name
  }

  /** An output file is never read back as a statement; neither is any other
      file whose name is a tail of an output file's name (`expenses.csv`,
      `Income.csv`, `s.csv`, ...), on either side of the test. */
  lemma OutputTailsAreNotStatements(dir: string, name: string, tail: string, other: string)
    requires EndsWith(name, tail)
    ensures !IsStatementFile(tail, OutputPath(dir, name), other)
    ensures !IsStatementFile(tail, other, OutputPath(dir, name))
  {
    var head := name[..|name| - |tail|];
    assert name == head + tail;
    assert OutputPath(dir, name) == (dir + "/" + head) + tail;
    SubstringOfSuffix(dir + "/" + head, tail);
  }

  /** The whitespace `str.rstrip()` removes, on ASCII. */
  predicate IsSpace(c: char) {
    c == ' ' || (9 <= c as int <= 13) || (28 <= c as int <= 31)
  }

  /** `s.rstrip()`. */
  function RStrip(s: string): (r: string)
    ensures |r| <= |s| && r == s[..|r|]
    ensures r == [] || !IsSpace(r[|r| - 1])
    ensures forall i :: |r| <= i < |s| ==> IsSpace(s[i])
  {
    if s == [] || !IsSpace(s[|s| - 1]) then s else RStrip(s[..|s| - 1])
  }

  /** The line transform of `add_comma_to_csv_header`: the header line loses
      its trailing whitespace and gains a comma and a newline; an empty file
      is an IndexError. */
  function AddHeaderComma(lines: seq<string>): (r: Result<seq<string>>)
    ensures lines == [] <==> r.Err?
    ensures r.Err? ==> r.exc == IndexError
    ensures r.Ok? ==> |r.value| == |lines| && r.value[1..] == lines[1..]
    ensures r.Ok? ==> EndsWith(r.value[0], ",\n") && StartsWith(r.value[0], RStrip(lines[0]))
    ensures r.Ok? ==> |r.value[0]| == |RStrip(lines[0])| + 2
  {
    if lines == [] then Err(IndexError)
    else Ok([RStrip(lines[0]) + ",\n"] + lines[1..])
  }

  /** The patterns before position `k` are strings that do not match the text. */
  predicate PassedOver(patterns: seq<Value>, k: nat, text: string, env: Env)
    requires k <= |patterns|
  {
    forall j :: 0 <= j < k ==> patterns[j].VStr? && !env.searchMultiline(patterns[j].s, text)
  }

  /** `filter_transatction`: true on the first pattern that matches the text;
      a non-string pattern raises TypeError when it is reached. */
  function Filtered(patterns: seq<Value>, text: string, env: Env): (r: Result<bool>)
    ensures r == Ok(false) <==> PassedOver(patterns, |patterns|, text, env)
    ensures r.Err? ==> r.exc == TypeError
  {
    if patterns == [] then Ok(false)
    else if !patterns[0].VStr? then Err(TypeError)
    else if env.searchMultiline(patterns[0].s, text) then Ok(true)
    else
      var rest := Filtered(patterns[1..], text, env);
      assert PassedOver(patterns, |patterns|, text, env) <==> PassedOver(patterns[1..], |patterns| - 1, text, env);
      rest
  }

  /** The outcome of `filter_transatction` for every list of patterns: true
      exactly when a string pattern matches and every pattern before it is
      a string that does not; TypeError exactly when a non-string pattern
      comes first. */
  lemma {:induction false} FilteredExactly(patterns: seq<Value>, text: string, env: Env)
    ensures Filtered(patterns, text, env) == Ok(true) <==>
      exists k :: 0 <= k < |patterns| && PassedOver(patterns, k, text, env) &&
        patterns[k].VStr? && env.searchMultiline(patterns[k].s, text)
    ensures Filtered(patterns, text, env).Err? <==>
      exists k :: 0 <= k < |patterns| && PassedOver(patterns, k, text, env) && !patterns[k].VStr?
  {
    if patterns != [] {
      assert PassedOver(patterns, 0, text, env);
      if patterns[0].VStr? && !env.searchMultiline(patterns[0].s, text) {
        FilteredExactly(patterns[1..], text, env);
        assert forall k :: 1 <= k < |patterns| ==> patterns[k] == patterns[1..][k - 1];
        assert forall k :: 0 <= k < |patterns| - 1 ==>
          (PassedOver(patterns[1..], k, text, env) <==> PassedOver(patterns, k + 1, text, env));
      }
    }
  }

  /** `get_date_from_row`: only an int locator is read; anything else
      (a column name left unresolved, None) is a TypeError. */
  function DateFromRow(m: Manifest, row: seq<Value>, env: Env): (r: Result<int>)
    ensures !IsInt(m.date) ==> r == Err(TypeError)
    ensures r.Ok? ==> exists c :: c in row && env.parseDate(Str(c, env)) == Some(r.value)
  {
    if !IsInt(m.date) then Err(TypeError)
    else
      match Subscript(row, m.date)
      case Err(e) => Err(e)
      case Ok(cell) =>
        match env.parseDate(Str(cell, env))
        case Some(d) => Ok(d)
        case None => Err(ValueError("String does not contain a date"))
  }

  /** The raw description cell. The newer program reads "" when the locator
      is falsy (index 0 included) and turns any failure to read the cell
      into the AttributeError of the unset attribute; the older one reads
      `row[description]` as it is. */
  function RawDescription(v: Version, m: Manifest, row: seq<Value>): (r: Result<Value>)
    ensures v == Current && !Truthy(m.description) ==> r == Ok(VStr(""))
    ensures v == Current && Truthy(m.description) ==>
      r == (if Subscript(row, m.description).Ok? then Subscript(row, m.description) else Err(AttributeError))
    ensures v == Legacy ==> r == Subscript(row, m.description)
  {
    if v == Current then
      if !Truthy(m.description) || m.description == VStr("") then Ok(VStr(""))
      else
        match Subscript(row, m.description)
        case Ok(cell) => Ok(cell)
        case Err(_) => Err(AttributeError)
    else Subscript(row, m.description)
  }

  /** The category before any rule: the category cell when the locator is
      truthy, None otherwise. */
  function InitialCategory(m: Manifest, row: seq<Value>): (r: Result<Value>)
    ensures !Truthy(m.category) ==> r == Ok(VNone)
    ensures Truthy(m.category) ==> r == Subscript(row, m.category)
  {
    if Truthy(m.category) then Subscript(row, m.category) else Ok(VNone)
  }

  /** A global category rule: a pattern searched case-insensitively and the
      category it assigns. */
  datatype CategoryRule = CategoryRule(pattern: string, category: string)

  /** `add_category`: the category of the first matching rule, if any. */
  function GlobalCategory(rules: seq<CategoryRule>, description: string, env: Env): (r: Option<string>)
    ensures r.Some? ==> exists k :: (0 <= k < |rules| && rules[k].category == r.value &&
      env.searchIgnoreCase(rules[k].pattern, description) &&
      forall j :: 0 <= j < k ==> !env.searchIgnoreCase(rules[j].pattern, description))
    ensures r.None? <==> forall k :: 0 <= k < |rules| ==> !env.searchIgnoreCase(rules[k].pattern, description)
  {
    if rules == [] then None
    else if env.searchIgnoreCase(rules[0].pattern, description) then Some(rules[0].category)
    else
      var rest := GlobalCategory(rules[1..], description, env);
      assert forall k :: 1 <= k < |rules| ==> rules[k] == rules[1..][k - 1];
      if rest.Some? then
        var k :| 0 <= k < |rules| - 1 && rules[1..][k].category == rest.value &&
          env.searchIgnoreCase(rules[1..][k].pattern, description) &&
          forall j :: 0 <= j < k ==> !env.searchIgnoreCase(rules[1..][j].pattern, description);
        assert forall j :: 1 <= j < k + 1 ==> rules[j] == rules[1..][j - 1];
        rest
      else rest
  }

  /** The category after `add_category`: unchanged when no rule matches. */
  function CategoryAfterRules(rules: seq<CategoryRule>, description: string, category: Value, env: Env): Value {
    match GlobalCategory(rules, description, env)
    case Some(c) => VStr(c)
    case None => category
  }

  /** First match wins: when rule `i` matches, the category chosen is that
      of a matching rule at or before `i`, so no later rule can decide. */
  lemma EarlierRuleWins(rules: seq<CategoryRule>, description: string, env: Env, i: nat) returns (k: nat)
    requires i < |rules| && env.searchIgnoreCase(rules[i].pattern, description)
    ensures k <= i && env.searchIgnoreCase(rules[k].pattern, description)
    ensures GlobalCategory(rules, description, env) == Some(rules[k].category)
  {
    var r := GlobalCategory(rules, description, env);
    k :| 0 <= k < |rules| && rules[k].category == r.value &&
      env.searchIgnoreCase(rules[k].pattern, description) &&
      forall j :: 0 <= j < k ==> !env.searchIgnoreCase(rules[j].pattern, description);
  }

  /** `row[amount][n:]` of a cell whose text starts with a prefix: only a
      string can be sliced and parsed. */
  function ParseAfterPrefix(cell: Value, n: nat, env: Env): (r: Result<real>)
    ensures cell.VStr? && n <= |cell.s| ==> r == ParseFloat(cell.s[n..], env)
    ensures !cell.VStr? ==> r == Err(TypeError)
  {
    if !cell.VStr? then Err(TypeError)
    else if n <= |cell.s| then ParseFloat(cell.s[n..], env)
    else ParseFloat([], env)
  }

  /** The single-column amount: `--N` is read as N, `$N` as N (newer
      program only), anything else with `float`. */
  function SingleColumnAmount(v: Version, cell: Value, env: Env): (r: Result<real>)
    ensures StartsWith(Str(cell, env), "--") ==> r == ParseAfterPrefix(cell, 2, env)
    ensures !StartsWith(Str(cell, env), "--") && v == Current && StartsWith(Str(cell, env), "$") ==>
      r == ParseAfterPrefix(cell, 1, env)
    ensures !StartsWith(Str(cell, env), "--") && (v == Legacy || !StartsWith(Str(cell, env), "$")) ==>
      r == ToFloat(cell, env)
  {
    var text := Str(cell, env);
    if StartsWith(text, "--") then ParseAfterPrefix(cell, 2, env)
    else if v == Current && StartsWith(text, "$") then ParseAfterPrefix(cell, 1, env)
    else ToFloat(cell, env)
  }

  /** `deb * -1` and `abs(cred)` on numeric cells; a text cell is not modelled
      as an amount and counts as a TypeError. */
  function Negated(cell: Value): Result<real> {
    if IsNumber(cell) then Ok(-AsReal(cell)) else Err(TypeError)
  }

  function Magnitude(cell: Value): Result<real> {
    if IsNumber(cell) then Ok(if AsReal(cell) < 0.0 then -AsReal(cell) else AsReal(cell)) else Err(TypeError)
  }

  const BothDebitAndCredit: Exc := ValueError("Cannot be credit and debit at the same time")
  const NoAmountManifest: Exc := ValueError("Cannot find amount maifest for ")

  /** The debit/credit amount: both set is an error, a debit is negated, a
      credit is made non-negative, neither is 0. */
  function DebitCreditAmount(debit: Value, credit: Value): (r: Result<real>)
    ensures Truthy(debit) && Truthy(credit) ==> r == Err(BothDebitAndCredit)
    ensures Truthy(debit) && !Truthy(credit) && IsNumber(debit) ==> r == Ok(-AsReal(debit))
    ensures !Truthy(debit) && Truthy(credit) && IsNumber(credit) ==>
      (r.Ok? && r.value >= 0.0 && (r.value == AsReal(credit) || r.value == -AsReal(credit)))
    ensures !Truthy(debit) && !Truthy(credit) ==> r == Ok(0.0)
    ensures r.Ok? && r.value != 0.0 ==> Truthy(debit) != Truthy(credit)
  {
    if Truthy(debit) && Truthy(credit) then Err(BothDebitAndCredit)
    else if Truthy(debit) then Negated(debit)
    else if Truthy(credit) then Magnitude(credit)
    else Ok(0.0)
  }

  /** `get_amount_from_row`. */
  function AmountFromRow(v: Version, m: Manifest, row: seq<Value>, env: Env): (r: Result<real>)
    ensures !Truthy(m.amount) && !Truthy(m.debitCredit) ==> r == Err(NoAmountManifest)
    ensures Truthy(m.amount) && Subscript(row, m.amount).Ok? ==>
      r == SingleColumnAmount(v, Subscript(row, m.amount).value, env)
    ensures (&& !Truthy(m.amount) && Truthy(m.debitCredit) && (m.debitCredit.VList? || m.debitCredit.VTuple?)
             && |m.debitCredit.items| >= 2
             && Subscript(row, m.debitCredit.items[0]).Ok? && Subscript(row, m.debitCredit.items[1]).Ok?) ==>
      r == DebitCreditAmount(Subscript(row, m.debitCredit.items[0]).value,
                             Subscript(row, m.debitCredit.items[1]).value)
    ensures (&& !Truthy(m.amount) && Truthy(m.debitCredit) && (m.debitCredit.VList? || m.debitCredit.VTuple?)
             && Subscript(row, m.debitCredit.items[0]).Err?) ==>
      r == Err(Subscript(row, m.debitCredit.items[0]).exc)
    ensures (&& !Truthy(m.amount) && Truthy(m.debitCredit) && (m.debitCredit.VList? || m.debitCredit.VTuple?)
             && |m.debitCredit.items| == 1 && Subscript(row, m.debitCredit.items[0]).Ok?) ==>
      r == Err(IndexError)
  {
    if Truthy(m.amount) then
      var cell :- Subscript(row, m.amount);
      SingleColumnAmount(v, cell, env)
    else if Truthy(m.debitCredit) then
      if !(m.debitCredit.VList? || m.debitCredit.VTuple?) then Err(TypeError)
      else
        var debit :- Subscript(row, m.debitCredit.items[0]);
        if |m.debitCredit.items| < 2 then Err(IndexError)
        else
          var credit :- Subscript(row, m.debitCredit.items[1]);
          DebitCreditAmount(debit, credit)
    else Err(NoAmountManifest)
  }

  /** The newer program's `amount_multiple`: a truthy number replaces the
      amount by its magnitude times the multiplier. */
  function ApplyMultiple(m: Manifest, amount: real): (r: real)
    ensures !(Truthy(m.amountMultiple) && IsNumber(m.amountMultiple)) ==> r == amount
    ensures Truthy(m.amountMultiple) && IsNumber(m.amountMultiple) && amount != 0.0 ==>
      (r > 0.0 <==> AsReal(m.amountMultiple) > 0.0) && (r < 0.0 <==> AsReal(m.amountMultiple) < 0.0)
    ensures Truthy(m.amountMultiple) && IsNumber(m.amountMultiple) ==>
      r == AsReal(m.amountMultiple) * amount || r == -(AsReal(m.amountMultiple) * amount)
  {
    if Truthy(m.amountMultiple) && IsNumber(m.amountMultiple) then
      (if amount < 0.0 then -amount else amount) * AsReal(m.amountMultiple)
    else amount
  }

  /** A multiplier of 1 makes every non-zero amount positive, -1 negative. */
  lemma MultipleOneOrMinusOne(m: Manifest, amount: real)
    requires amount != 0.0
    ensures m.amountMultiple == VInt(1) ==> ApplyMultiple(m, amount) > 0.0
    ensures m.amountMultiple == VInt(-1) ==> ApplyMultiple(m, amount) < 0.0
  {
  }

  /** The amount and category of a transaction, the two fields the
      amount-category overrides rewrite. */
  datatype Charge = Charge(amount: real, category: Value)

  const FilteredCategory: Value := VStr("Filtered")

  /** `for line, amt, new_cat in bank.amount_category_manifest`: one entry
      unpacked into three values. */
  function UnpackRule(item: Value): (r: Result<(Value, Value, Value)>)
    ensures (item.VList? || item.VTuple?) && |item.items| == 3 ==>
      r == Ok((item.items[0], item.items[1], item.items[2]))
    ensures r.Ok? ==> item.VList? || item.VTuple? || item.VStr?
  {
    match item
    case VList(xs) => UnpackThree(xs)
    case VTuple(xs) => UnpackThree(xs)
    case VStr(s) => UnpackThree(seq(|s|, i requires 0 <= i < |s| => VStr([s[i]])))
    case _ => Err(TypeError)
  }

  function UnpackThree(xs: seq<Value>): Result<(Value, Value, Value)> {
    if |xs| < 3 then Err(ValueError("not enough values to unpack (expected 3)"))
    else if |xs| > 3 then Err(ValueError("too many values to unpack (expected 3)"))
    else Ok((xs[0], xs[1], xs[2]))
  }

  /** The newer program's wildcard: an amount of 0 or -1 imposes no amount condition. */
  predicate IsWildcard(amt: Value) {
    EqualsNumber(amt, 0.0) || EqualsNumber(amt, -1.0)
  }

  /** A target category that drops the transaction: None, and in the newer
      program also False. */
  predicate Drops(v: Version, newCat: Value) {
    newCat == VNone || (v == Current && newCat == VBool(false))
  }

  /** Entry `item` acts on a transaction with this description and amount:
      it unpacks, its pattern is a string that matches the description, and
      it is a wildcard (newer program only) or its amount equals the
      transaction's. */
  predicate Applies(v: Version, item: Value, description: string, amount: real, env: Env) {
    && UnpackRule(item).Ok?
    && UnpackRule(item).value.0.VStr?
    && env.searchIgnoreCase(UnpackRule(item).value.0.s, description)
    && ((v == Current && IsWildcard(UnpackRule(item).value.1)) || EqualsNumber(UnpackRule(item).value.1, amount))
  }

  /** What an acting entry makes of the charge: an exact match whose target
      drops gives (0, "Filtered"); otherwise the category becomes the target. */
  function Effect(v: Version, item: Value, c: Charge): Charge
    requires UnpackRule(item).Ok?
  {
    var (_, amt, newCat) := UnpackRule(item).value;
    if !(v == Current && IsWildcard(amt)) && Drops(v, newCat) then Charge(0.0, FilteredCategory)
    else c.(category := newCat)
  }

  /** `update_category_with_amount`. A rule applies when its pattern matches
      the description. In the newer program a wildcard rule sets the
      category and the loop goes on; a rule whose amount equals the
      transaction's sets the category, or zeroes the amount and sets
      "Filtered" when the target drops it, and ends the loop. Other rules
      are passed over. */
  function AmountOverrides(v: Version, rules: seq<Value>, description: string, c: Charge, env: Env): (r: Result<Charge>)
    ensures r.Ok? ==> r.value.amount == c.amount || r.value == Charge(0.0, FilteredCategory)
    decreases |rules|
  {
    if rules == [] then Ok(c)
    else
      var entry :- UnpackRule(rules[0]);
      var (pattern, amt, newCat) := entry;
      if !pattern.VStr? then Err(TypeError)
      else if !env.searchIgnoreCase(pattern.s, description) then
        AmountOverrides(v, rules[1..], description, c, env)
      else if v == Current && IsWildcard(amt) then
        AmountOverrides(v, rules[1..], description, c.(category := newCat), env)
      else if EqualsNumber(amt, c.amount) then
        Ok(if Drops(v, newCat) then Charge(0.0, FilteredCategory) else c.(category := newCat))
      else AmountOverrides(v, rules[1..], description, c, env)
  }

  /** Every change the overrides make is the effect of one entry that acts:
      its pattern matches the description and it is a wildcard (newer
      program) or has exactly the transaction's amount. */
  lemma {:induction false} OverrideIsOneEntry(v: Version, rules: seq<Value>, description: string, c: Charge, env: Env)
    ensures var r := AmountOverrides(v, rules, description, c, env);
      r.Ok? && r.value != c ==> exists k :: (0 <= k < |rules| &&
        Applies(v, rules[k], description, c.amount, env) && r.value == Effect(v, rules[k], c))
    decreases |rules|
  {
    if rules != [] && UnpackRule(rules[0]).Ok? {
      var (pattern, amt, newCat) := UnpackRule(rules[0]).value;
      if pattern.VStr? {
        assert forall k :: 1 <= k < |rules| ==> rules[1..][k - 1] == rules[k];
        if !env.searchIgnoreCase(pattern.s, description) {
          OverrideIsOneEntry(v, rules[1..], description, c, env);
        } else if v == Current && IsWildcard(amt) {
          var c' := c.(category := newCat);
          OverrideIsOneEntry(v, rules[1..], description, c', env);
          assert forall item :: UnpackRule(item).Ok? ==> Effect(v, item, c') == Effect(v, item, c);
          assert Applies(v, rules[0], description, c.amount, env) && c' == Effect(v, rules[0], c);
        } else if EqualsNumber(amt, c.amount) {
          assert Applies(v, rules[0], description, c.amount, env);
        } else {
          OverrideIsOneEntry(v, rules[1..], description, c, env);
        }
      }
    }
  }

  /** A well-formed entry whose pattern matches the description. */
  predicate RuleMatches(item: Value, description: string, env: Env) {
    (item.VList? || item.VTuple?) && |item.items| == 3 && item.items[0].VStr? &&
    env.searchIgnoreCase(item.items[0].s, description)
  }

  /** An entry the loop goes on past: it unpacks, its pattern is a string,
      and it does not match, is a wildcard (newer program) or has another
      amount than the transaction's. */
  predicate PassesThrough(v: Version, item: Value, description: string, amount: real, env: Env) {
    (item.VList? || item.VTuple?) && |item.items| == 3 && item.items[0].VStr? &&
    (|| !env.searchIgnoreCase(item.items[0].s, description)
     || (v == Current && IsWildcard(item.items[1]))
     || !EqualsNumber(item.items[1], amount))
  }

  /** The target of the last matching wildcard entry, or `category` when
      none matches: read from the end of the list. */
  function LastWildcardTarget(rules: seq<Value>, description: string, category: Value, env: Env): Value {
    if rules == [] then category
    else
      var last := rules[|rules| - 1];
      if RuleMatches(last, description, env) && IsWildcard(last.items[1]) then last.items[2]
      else LastWildcardTarget(rules[..|rules| - 1], description, category, env)
  }

  /** `LastWildcardTarget` read from the front: a matching wildcard at the
      head becomes the fallback for the rest. */
  lemma {:induction false} LastWildcardTargetFront(rules: seq<Value>, description: string, category: Value, env: Env)
    requires rules != []
    ensures LastWildcardTarget(rules, description, category, env) ==
      LastWildcardTarget(rules[1..], description,
        if RuleMatches(rules[0], description, env) && IsWildcard(rules[0].items[1]) then rules[0].items[2] else category,
        env)
    decreases |rules|
  {
    var n := |rules|;
    if n > 1 {
      assert rules[1..][..n - 2] == rules[..n - 1][1..];
      assert rules[..n - 1][0] == rules[0];
      LastWildcardTargetFront(rules[..n - 1], description, category, env);
    }
  }

  /** Wildcards do not stop the loop: over entries that all pass through,
      the amount is untouched and the category is the target of the last
      matching wildcard, or the old category when none matches. */
  lemma {:induction false} LastWildcardWins(rules: seq<Value>, description: string, c: Charge, env: Env)
    requires forall k :: 0 <= k < |rules| ==> PassesThrough(Current, rules[k], description, c.amount, env)
    ensures AmountOverrides(Current, rules, description, c, env) ==
      Ok(Charge(c.amount, LastWildcardTarget(rules, description, c.category, env)))
    decreases |rules|
  {
    if rules != [] {
      LastWildcardTargetFront(rules, description, c.category, env);
      var c' := if RuleMatches(rules[0], description, env) && IsWildcard(rules[0].items[1])
                then c.(category := rules[0].items[2]) else c;
      assert forall k :: 1 <= k < |rules| ==> rules[1..][k - 1] == rules[k];
      LastWildcardWins(rules[1..], description, c', env);
    }
  }

  /** An exact-amount match ends the loop: the entries before it that do
      not act (no match, or an unequal amount) and the wildcards before it
      (whose categories it overwrites) leave no trace, and whatever follows
      it is never consulted. */
  lemma {:induction false} ExactMatchEndsLoop(v: Version, skipped: seq<Value>, rule: Value, rest: seq<Value>,
                                              description: string, c: Charge, env: Env)
    requires forall k :: 0 <= k < |skipped| ==> PassesThrough(v, skipped[k], description, c.amount, env)
    requires RuleMatches(rule, description, env)
    requires !(v == Current && IsWildcard(rule.items[1])) && EqualsNumber(rule.items[1], c.amount)
    ensures AmountOverrides(v, skipped + [rule] + rest, description, c, env) ==
      Ok(if Drops(v, rule.items[2]) then Charge(0.0, FilteredCategory) else c.(category := rule.items[2]))
    decreases |skipped|
  {
    if skipped != [] {
      assert (skipped + [rule] + rest)[1..] == skipped[1..] + [rule] + rest;
      var item := skipped[0];
      var c' := if env.searchIgnoreCase(item.items[0].s, description) && v == Current && IsWildcard(item.items[1])
                then c.(category := item.items[2]) else c;
      ExactMatchEndsLoop(v, skipped[1..], rule, rest, description, c', env);
    }
  }
}
