/**
 * The per-bank manifest (`BankColumnMaifest`): where a bank's CSV keeps its
 * date, description, category and amount columns, and the rules that
 * filter and recategorise its transactions. Both program versions build
 * this record; the older one simply never sets the fields it lacks.
 */
module Manifests {
  import opened PyValues

  /** Which program is modelled: `run.py` (Current) or
      `Compile_bank_statements/compile_bank_satements.py` (Legacy). */
  datatype Version = Current | Legacy

  /** The state of one manifest object. A locator (`date`, `description`,
      `category`, `transactionType`, `amount`, the items of `debitCredit`)
      is a column name (`VStr`) or a column index (`VInt`), or unset. */
  datatype Manifest = Manifest(
    name: string,
    headers: Value,
    date: Value,
    description: Value,
    category: Value,
    transactionType: Value,
    debitCredit: Value,
    amount: Value,
    amountMultiple: Value,
    regexFilters: Value,
    amountCategoryManifest: Value,
    addCommaToCsvHeader: Value,
    aggregator: Value,
    accountName: Value)

  /** The constructors' first assertion: exactly one of `debit_credit` and
      `amount` is truthy (so an index 0 counts as unset). */
  predicate OneAmountSource(debitCredit: Value, amount: Value) {
    Truthy(debitCredit) != Truthy(amount)
  }

  /** The newer constructor's second assertion: `debit_credit` and
      `transaction_type` are not both truthy. */
  predicate NotDebitCreditAndType(debitCredit: Value, transactionType: Value) {
    !(Truthy(debitCredit) && Truthy(transactionType))
  }

  /** The fields that column resolution never touches. */
  predicate SameSettings(m: Manifest, m': Manifest) {
    && m'.name == m.name
    && m'.headers == m.headers
    && m'.amountMultiple == m.amountMultiple
    && m'.regexFilters == m.regexFilters
    && m'.amountCategoryManifest == m.amountCategoryManifest
    && m'.addCommaToCsvHeader == m.addCommaToCsvHeader
    && m'.aggregator == m.aggregator
    && m'.accountName == m.accountName
  }

  function Names(ms: seq<Manifest>): (r: seq<string>)
    ensures |r| == |ms|
    ensures forall k :: 0 <= k < |ms| ==> r[k] == ms[k].name
  {
    seq(|ms|, k requires 0 <= k < |ms| => ms[k].name)
  }

  /** The mutable manifest object; column resolution rewrites its locator
      fields in place. */
  class BankColumnManifest {
    var name: string
    var headers: Value
    var date: Value
    var description: Value
    var category: Value
    var transactionType: Value
    var debitCredit: Value
    var amount: Value
    var amountMultiple: Value
    var regexFilters: Value
    var amountCategoryManifest: Value
    var addCommaToCsvHeader: Value
    var aggregator: Value
    var accountName: Value

    function View(): Manifest
      reads this
    {
      Manifest(name, headers, date, description, category, transactionType, debitCredit,
               amount, amountMultiple, regexFilters, amountCategoryManifest,
               addCommaToCsvHeader, aggregator, accountName)
    }

    /** Stores a record that one of the two configuration constructors accepted. */
    constructor (m: Manifest)
      ensures View() == m
    {
      name := m.name;
      headers := m.headers;
      date := m.date;
      description := m.description;
      category := m.category;
      transactionType := m.transactionType;
      debitCredit := m.debitCredit;
      amount := m.amount;
      amountMultiple := m.amountMultiple;
      regexFilters := m.regexFilters;
      amountCategoryManifest := m.amountCategoryManifest;
      addCommaToCsvHeader := m.addCommaToCsvHeader;
      aggregator := m.aggregator;
      accountName := m.accountName;
    }
  }

  /** The views of a list of manifest objects. */
  function Views(banks: seq<BankColumnManifest>): (r: seq<Manifest>)
    reads banks
    ensures |r| == |banks|
    ensures forall k :: 0 <= k < |banks| ==> r[k] == banks[k].View()
  {
    seq(|banks|, k reads banks requires 0 <= k < |banks| => banks[k].View())
  }
}
