/**
 * The older configuration (Compile_bank_statements/config.py): a
 * constructor with a single assertion and the two constant rule tables,
 * the three banks and the global category rules.
 */
module LegacyConfig {
  import opened PyValues
  import opened Foreign
  import opened Manifests
  import opened Rules

  /** The older constructor: lower-cases the bank name (an AttributeError
      if it is not a string), stores the arguments, and asserts only that
      exactly one amount source is set. It has no multiplier, comma fix,
      aggregator or account name; those fields read as None. */
  function LegacyConstruct(bankName: Value, headers: Value, date: Value, description: Value,
                           category: Value, transactionType: Value, debitCredit: Value, amount: Value,
                           regexFilters: Value, amountCategoryManifest: Value): (r: Result<Manifest>)
    ensures !bankName.VStr? ==> r == Err(AttributeError)
    ensures bankName.VStr? ==> (r.Ok? <==> OneAmountSource(debitCredit, amount))
    ensures r.Err? && bankName.VStr? ==> r.exc == AssertionError
    ensures r.Ok? ==> r.value.name == Lower(bankName.s)
    ensures r.Ok? ==>
      r.value == Manifest(r.value.name, headers, date, description, category, transactionType,
                          debitCredit, amount, VNone, regexFilters, amountCategoryManifest,
                          VNone, VNone, VNone)
  {
    if !bankName.VStr? then Err(AttributeError)
    else if !OneAmountSource(debitCredit, amount) then Err(AssertionError)
    else Ok(Manifest(Lower(bankName.s), headers, date, description, category, transactionType,
                     debitCredit, amount, VNone, regexFilters, amountCategoryManifest,
                     VNone, VNone, VNone))
  }

  const Transfer: string := "USAA FUNDS TRANSFER"

  /** USAA's amount-conditioned overrides. */
  const UsaaOverrides: seq<Value> := [
    VTuple([VStr(Transfer), VFloat(-750.0), VStr("Savings")]),
    VTuple([VStr(Transfer), VFloat(-4150.0), VStr("Savings")]),
    VTuple([VStr(Transfer), VInt(-100), VNone])
  ]

  /** `BANK_MANIFEST`: the constructor calls for Chase, CITI and USAA. */
  const BankManifestEntries: seq<Result<Manifest>> := [
    LegacyConstruct(VStr("Chase"), VBool(true), VStr("Transaction Date"), VStr("Description"),
                    VStr("Category"), VStr("Type"), VNone, VStr("Amount"),
                    VList([VStr("AUTOMATIC PAYMENT - THANK")]), VList([])),
    LegacyConstruct(VStr("CITI"), VBool(true), VStr("Date"), VStr("Description"),
                    VNone, VNone, VTuple([VStr("Debit"), VStr("Credit")]), VNone,
                    VList([VStr("AUTOPAY.*AUTO-PMT")]), VList([])),
    LegacyConstruct(VStr("USAA"), VBool(false), VInt(2), VInt(4),
                    VInt(5), VNone, VNone, VInt(6),
                    VList([VStr("USAA CREDIT CARD PAYMENT"), VStr("DISCOVER\\s*E-PAYMENT"),
                           VStr("CITI AUTOPAY"), VStr("CHASE CREDIT CRD AUTOPAY"),
                           VStr("CHASE CREDIT CRD AUTOPAY"), VStr("CAPITAL ONE\\s*CRCARDPMT")]),
                    VList(UsaaOverrides))
  ]

  /** Every configured bank passes the constructor's assertion: Chase and
      USAA through `amount`, CITI through its debit/credit pair; the
      stored names are distinct. */
  lemma BankManifestAccepted()
    ensures forall k :: 0 <= k < |BankManifestEntries| ==> BankManifestEntries[k].Ok?
    ensures BankManifestEntries[0].value.name == "chase"
    ensures BankManifestEntries[1].value.name == "citi"
    ensures BankManifestEntries[2].value.name == "usaa"
    ensures Truthy(BankManifestEntries[0].value.amount) && !Truthy(BankManifestEntries[0].value.debitCredit)
    ensures !Truthy(BankManifestEntries[1].value.amount) && Truthy(BankManifestEntries[1].value.debitCredit)
    ensures BankManifestEntries[2].value.amount == VInt(6) && !Truthy(BankManifestEntries[2].value.debitCredit)
  {
    ChaseAccepted();
    CitiAccepted();
    UsaaAccepted();
  }

  lemma ChaseAccepted()
    ensures BankManifestEntries[0].Ok? && BankManifestEntries[0].value.name == "chase"
    ensures Truthy(BankManifestEntries[0].value.amount) && !Truthy(BankManifestEntries[0].value.debitCredit)
  {
    assert Lower("Chase") == "chase" by {
      assert Lower("Chase")[0] == LowerChar('C');
    }
  }

  lemma CitiAccepted()
    ensures BankManifestEntries[1].Ok? && BankManifestEntries[1].value.name == "citi"
    ensures !Truthy(BankManifestEntries[1].value.amount) && Truthy(BankManifestEntries[1].value.debitCredit)
  {
    assert Lower("CITI") == "citi" by {
      assert Lower("CITI")[0] == LowerChar('C');
    }
  }

  lemma UsaaAccepted()
    ensures BankManifestEntries[2].Ok? && BankManifestEntries[2].value.name == "usaa"
    ensures BankManifestEntries[2].value.amount == VInt(6) && !Truthy(BankManifestEntries[2].value.debitCredit)
  {
    assert Lower("USAA") == "usaa" by {
      assert Lower("USAA")[0] == LowerChar('U');
    }
  }

  /** USAA's overrides in the older engine: a matching transfer of exactly
      -750 or -4150 becomes "Savings", one of exactly -100 is zeroed and
      marked "Filtered", and every other transaction is left alone. */
  lemma UsaaOverridesEffect(description: string, c: Charge, env: Env)
    ensures var r := AmountOverrides(Legacy, UsaaOverrides, description, c, env);
      if !env.searchIgnoreCase(Transfer, description) then r == Ok(c)
      else if c.amount == -750.0 || c.amount == -4150.0 then r == Ok(c.(category := VStr("Savings")))
      else if c.amount == -100.0 then r == Ok(Charge(0.0, FilteredCategory))
      else r == Ok(c)
  {
    var tail1 := UsaaOverrides[1..];
    var tail2 := UsaaOverrides[2..];
    assert tail1[1..] == tail2;
    assert tail2[1..] == [];
    assert UnpackRule(UsaaOverrides[0]) == Ok((VStr(Transfer), VFloat(-750.0), VStr("Savings")));
    assert UnpackRule(tail1[0]) == Ok((VStr(Transfer), VFloat(-4150.0), VStr("Savings")));
    assert UnpackRule(tail2[0]) == Ok((VStr(Transfer), VInt(-100), VNone));
    assert AmountOverrides(Legacy, [], description, c, env) == Ok(c);
    var r2 := AmountOverrides(Legacy, tail2, description, c, env);
    var r1 := AmountOverrides(Legacy, tail1, description, c, env);
    if !env.searchIgnoreCase(Transfer, description) {
      assert r2 == Ok(c);
      assert r1 == Ok(c);
    } else if c.amount == -750.0 {
      assert !EqualsNumber(VInt(-100), c.amount);
    } else if c.amount == -4150.0 {
      assert r1 == Ok(c.(category := VStr("Savings")));
    } else if c.amount == -100.0 {
      assert r2 == Ok(Charge(0.0, FilteredCategory));
      assert r1 == r2;
    } else {
      assert r2 == Ok(c);
      assert r1 == Ok(c);
    }
  }

  /** Rules that all assign one category, one per pattern. */
  function RulesFor(patterns: seq<string>, category: string): (r: seq<CategoryRule>)
    ensures |r| == |patterns|
    ensures forall k :: 0 <= k < |r| ==> r[k] == CategoryRule(patterns[k], category)
  {
    seq(|patterns|, k requires 0 <= k < |patterns| => CategoryRule(patterns[k], category))
  }

  /** The fifteen restaurant rules that open `CATEGORY_MANIFEST`. */
  const MealsOutRules: seq<CategoryRule> := RulesFor([
    "In N Out", "Chipotle", "5Guys", "Pei Wei", "Chick-Fil-A", "Jamba Juice", "Mexican Food",
    "Ihop ", "Mr\\. Spicy", "Baked Bear", "Freddy's", "Mongolian Grill", "Panera Bread",
    "Food at", "Crack Shack"], "Meals Out")

  /** `CATEGORY_MANIFEST`, in its order. */
  const CategoryManifest: seq<CategoryRule> := MealsOutRules + [
    CategoryRule("Ralphs", "Groceries"),
    CategoryRule("SD Gas Elec", "Power Bill"),
    CategoryRule("ATT\\s*Payment", "Internet"),
    CategoryRule("Gas", "Gas"),
    CategoryRule("Shell Oil", "Gas"),
    CategoryRule("Frys Fuel", "Gas"),
    CategoryRule("Chevron", "Gas"),
    CategoryRule("Arco ", "Gas"),
    CategoryRule("Qt ", "Gas"),
    CategoryRule("Vanguard.*Investment", "Investments"),
    CategoryRule("Coinbase", "Investments")
  ]

  /** A description matching "Chipotle" is a meal out, whatever else it matches. */
  lemma ChipotleIsMealOut(description: string, category: Value, env: Env)
    requires env.searchIgnoreCase("Chipotle", description)
    ensures CategoryAfterRules(CategoryManifest, description, category, env) == VStr("Meals Out")
  {
    assert CategoryManifest[1] == CategoryRule("Chipotle", "Meals Out");
    var k := EarlierRuleWins(CategoryManifest, description, env, 1);
    assert CategoryManifest[k] == MealsOutRules[k];
  }

  /** The generic "Gas" rule comes before the specific station rules and
      the investment rules: a description matching it is never classed as
      an investment, and it is "Gas" unless an earlier rule matched. */
  lemma GasRuleShadowsLaterRules(description: string, env: Env)
    requires env.searchIgnoreCase("Gas", description)
    ensures GlobalCategory(CategoryManifest, description, env).Some?
    ensures GlobalCategory(CategoryManifest, description, env).value
              in {"Meals Out", "Groceries", "Power Bill", "Internet", "Gas"}
    ensures (forall j :: 0 <= j < 18 ==> !env.searchIgnoreCase(CategoryManifest[j].pattern, description)) ==>
              GlobalCategory(CategoryManifest, description, env) == Some("Gas")
  {
    assert CategoryManifest[18] == CategoryRule("Gas", "Gas");
    var k := EarlierRuleWins(CategoryManifest, description, env, 18);
    CategoriesUpToGas(k);
  }

  /** The categories of the rules up to and including "Gas". */
  lemma CategoriesUpToGas(k: nat)
    requires k <= 18
    ensures CategoryManifest[k].category in {"Meals Out", "Groceries", "Power Bill", "Internet", "Gas"}
  {
    if k < |MealsOutRules| {
      assert CategoryManifest[k] == MealsOutRules[k];
    }
  }
}
