/**
 * The newer configuration (finance-utils/config.py): the checking
 * constructor of `BankColumnMaifest` and `get_bank_manifest`, which turns
 * the JSON configuration's `banks` entries into manifest objects.
 */
module Config {
  import opened PyValues
  import opened Manifests

  /** The constructor: lower-cases the bank name (an AttributeError if it is
      not a string), stores every other argument as given, then asserts that
      exactly one amount source is set and that `debit_credit` and
      `transaction_type` are not both set. */
  function Construct(bankName: Value, headers: Value, date: Value, description: Value,
                     category: Value, transactionType: Value, debitCredit: Value,
                     amount: Value, amountMultiple: Value, regexFilters: Value,
                     amountCategoryManifest: Value, addCommaToCsvHeader: Value,
                     aggregator: Value, accountName: Value): (r: Result<Manifest>)
    ensures !bankName.VStr? ==> r == Err(AttributeError)
    ensures bankName.VStr? ==>
      (r.Ok? <==> OneAmountSource(debitCredit, amount) && NotDebitCreditAndType(debitCredit, transactionType))
    ensures r.Err? && bankName.VStr? ==> r.exc == AssertionError
    ensures r.Ok? ==> r.value.name == Lower(bankName.s)
    ensures r.Ok? ==>
      r.value == Manifest(r.value.name, headers, date, description, category, transactionType,
                          debitCredit, amount, amountMultiple, regexFilters, amountCategoryManifest,
                          addCommaToCsvHeader, aggregator, accountName)
  {
    if !bankName.VStr? then Err(AttributeError)
    else if !OneAmountSource(debitCredit, amount) then Err(AssertionError)
    else if !NotDebitCreditAndType(debitCredit, transactionType) then Err(AssertionError)
    else Ok(Manifest(Lower(bankName.s), headers, date, description, category, transactionType,
                     debitCredit, amount, amountMultiple, regexFilters, amountCategoryManifest,
                     addCommaToCsvHeader, aggregator, accountName))
  }

  /** `item.get(key, default)`. */
  function DictGet(item: map<string, Value>, key: string, default: Value): Value {
    if key in item then item[key] else default
  }

  /** One entry of `j["banks"]`: every key defaults to None except
      `amount_category_manifest`, which defaults to an empty list. */
  function FromJsonItem(item: map<string, Value>): (r: Result<Manifest>)
    ensures r.Ok? ==> "regex_filters" !in item ==> r.value.regexFilters == VNone
    ensures r.Ok? ==> "amount_category_manifest" !in item ==> r.value.amountCategoryManifest == VList([])
    ensures r.Ok? ==> "amount_category_manifest" in item ==>
      r.value.amountCategoryManifest == item["amount_category_manifest"]
    ensures r.Ok? ==> OneAmountSource(r.value.debitCredit, r.value.amount)
    ensures r.Ok? <==>
      && "bank_name" in item && item["bank_name"].VStr?
      && OneAmountSource(DictGet(item, "debit_credit", VNone), DictGet(item, "amount", VNone))
      && NotDebitCreditAndType(DictGet(item, "debit_credit", VNone), DictGet(item, "transaction_type", VNone))
    ensures r.Ok? ==> r.value == Manifest(
      Lower(item["bank_name"].s),
      DictGet(item, "headers", VNone),
      DictGet(item, "date", VNone),
      DictGet(item, "description", VNone),
      DictGet(item, "category", VNone),
      DictGet(item, "transaction_type", VNone),
      DictGet(item, "debit_credit", VNone),
      DictGet(item, "amount", VNone),
      DictGet(item, "amount_multiple", VNone),
      DictGet(item, "regex_filters", VNone),
      DictGet(item, "amount_category_manifest", VList([])),
      DictGet(item, "add_comma_to_csv_header", VNone),
      DictGet(item, "aggregator", VNone),
      DictGet(item, "account_name", VNone))
  {
    Construct(
      DictGet(item, "bank_name", VNone),
      DictGet(item, "headers", VNone),
      DictGet(item, "date", VNone),
      DictGet(item, "description", VNone),
      DictGet(item, "category", VNone),
      DictGet(item, "transaction_type", VNone),
      DictGet(item, "debit_credit", VNone),
      DictGet(item, "amount", VNone),
      DictGet(item, "amount_multiple", VNone),
      DictGet(item, "regex_filters", VNone),
      DictGet(item, "amount_category_manifest", VList([])),
      DictGet(item, "add_comma_to_csv_header", VNone),
      DictGet(item, "aggregator", VNone),
      DictGet(item, "account_name", VNone))
  }

  /** `get_bank_manifest(j)` given `j.get("banks")`: one new manifest object
      per entry, in order; a missing `banks` key is a TypeError and the
      first entry the constructor rejects stops the loop. */
  method GetBankManifest(banks: Option<seq<map<string, Value>>>)
    returns (r: Result<seq<BankColumnManifest>>)
    ensures banks.None? ==> r == Err(TypeError)
    ensures banks.Some? ==> (r.Ok? <==> forall k :: 0 <= k < |banks.value| ==> FromJsonItem(banks.value[k]).Ok?)
    ensures banks.Some? && r.Err? ==> exists k :: (0 <= k < |banks.value| && FromJsonItem(banks.value[k]) == Err(r.exc)
      && forall j :: 0 <= j < k ==> FromJsonItem(banks.value[j]).Ok?)
    ensures r.Ok? ==> |r.value| == |banks.value|
    ensures r.Ok? ==> forall k :: 0 <= k < |r.value| ==>
      fresh(r.value[k]) && r.value[k].View() == FromJsonItem(banks.value[k]).value
    ensures r.Ok? ==> forall j, k :: 0 <= j < k < |r.value| ==> r.value[j] != r.value[k]
  {
    if banks.None? {
      return Err(TypeError);
    }
    var items := banks.value;
    var made: seq<BankColumnManifest> := [];
    for i := 0 to |items|
      invariant |made| == i
      invariant forall k :: 0 <= k < i ==> FromJsonItem(items[k]).Ok?
      invariant forall k :: 0 <= k < i ==> fresh(made[k]) && made[k].View() == FromJsonItem(items[k]).value
      invariant forall j, k :: 0 <= j < k < i ==> made[j] != made[k]
    {
      var m := FromJsonItem(items[i]);
      if m.Err? {
        return Err(m.exc);
      }
      var bank := new BankColumnManifest(m.value);
      made := made + [bank];
    }
    r := Ok(made);
  }

  /** A column index 0 counts as unset, so a manifest whose only amount
      source is column 0 is rejected. */
  lemma AmountIndexZeroRejected(bankName: string, description: Value)
    ensures Construct(VStr(bankName), VBool(true), VInt(1), description, VNone, VNone,
                      VNone, VInt(0), VNone, VList([]), VList([]), VBool(false), VBool(false), VNone)
            == Err(AssertionError)
  {
  }
}
