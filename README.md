# Finance-utils transaction rule engine, in Dafny

This project models the rule engine of Finance-utils. Finance-utils turns bank
statement CSV files into two reports, "Compiled Income.csv" and "Compiled
expenses.csv". The engine exists in two versions, and both are modelled side by
side. `Manifests.Version` selects one:

- `Current` is `run.py`, configured by `finance-utils/config.py` from a JSON document.
- `Legacy` is `Compile_bank_statements/compile_bank_satements.py`, configured by
  the constant tables of `Compile_bank_statements/config.py`.

The engine has these parts:

- **Bank manifest** (`BankColumnMaifest`). It records where a bank's CSV keeps
  its date, description, category and amount columns. Each locator is a column
  name or a column index. It also holds the bank's skip-filter regexes and its
  amount-conditioned category overrides. The constructors check the
  "exactly one amount source" invariant, and the newer one also checks
  "not both `debit_credit` and `transaction_type`". `get_bank_manifest` builds
  the manifest objects from the JSON `banks` list.
- **Column resolution** (`assign_index_from_col_name`). It rewrites the manifest
  object in place and replaces every column name by its header position. A
  missing name raises a ValueError. The source catches it, prints it and goes
  on, so resolution can stop part-way.
- **Lookup and file selection.** The first bank whose name occurs in the
  lower-cased path wins. The model also covers the filename test of `get_docs`
  and the header-line transform of `add_comma_to_csv_header`.
- **Row transformation**, inside `process_docs`:
  - the loop stops at a row whose first cell is None;
  - skip filters run on the raw description;
  - the description is title-cased (newer version);
  - the date, the column category and the global category rules (first match
    wins) are applied;
  - the amount comes from one column (with the `--` prefix, and `$` in the
    newer version) or from a debit/credit pair;
  - `amount_multiple` is applied (newer version);
  - the amount-conditioned overrides are applied. Wildcards exist only in the
    newer version.
- **Report partition** (`make_df`). Amount > 0 is income and amount < 0 is an
  expense; zero appears in neither. Cost is the absolute amount. Each side is
  sorted by date and written only when it is non-empty.

## How the model is organised

- **Python values.** `PyValues.Value` holds None, bool, int, float (as `real`),
  str, list and tuple. Python truthiness is written out (`Truthy`), so index 0
  reads as unset. The same module models Python `==` against a number,
  subscripting (with negative indices), `list.index` and what a `for` loop
  iterates over.
- **Exceptions.** An exception is a `Result` error. Any exception the source
  does not catch ends the whole run.
- **Foreign code.** Regex search (with `re.M` or `re.I`), `str.title`,
  `float(...)`, `dateutil`'s parser and `str()` of numbers come from the
  outside. They are the fields of one parameter, `Foreign.Env`. A date is an
  `int` key.
- **Pure parts** are functions. They are `Rules` for the per-field rules and
  `Engine` for a row, a file's rows (`RowsFrom`) and the list of files
  (`DocsFrom`).
- **Imperative parts** are methods proved to compute those functions:
  - `Resolution.AssignIndexFromColName` rewrites a `BankColumnManifest` object;
  - `Transactions.AddCategory` and `Transactions.UpdateCategoryWithAmount`
    mutate a `Transaction` object;
  - `Compile.ProcessDocs` appends new transaction objects while it resolves
    manifest objects in place;
  - `Reports.MakeReports` builds both report sides.

## Behaviour of the code worth knowing

- **Column mismatch** (run.py:96-100). A missing column does not abort the
  file. The ValueError is caught and printed, and the file is processed with a
  partly resolved manifest. Resolution stops at the first missing name, and
  the date is resolved first (run.py:74-75), so a missing date column leaves
  the description locator a name too. The first row then fails at the
  description, before the date is read. In the newer program the TypeError of
  `row["Description"]` is swallowed, the description is never set, and
  `filter_transatction` raises AttributeError (run.py:203-212). The older
  program raises that TypeError itself (compile_bank_satements.py:177). A
  date locator left as a name raises TypeError (run.py:103-108) only when the
  description locator is unset or already an index.
- **Row-level errors.** "Both debit and credit", an unparsable date, a
  malformed override entry and the like each end the whole run, because
  nothing in `process_docs` (run.py:176-229) catches them.
- **Output-file exclusion** (run.py:48-57). `get_docs` skips every file whose
  name occurs anywhere inside an output path. So `s.csv` or `Income.csv` is
  never read either.
- **Resolution across files** (run.py:194). `assign_index_from_col_name` runs
  for every file, but on the bank's shared manifest object. Once its locators
  are indices, a second file of the same bank keeps them, whatever its header
  (`Resolution.ResolveIdempotent`).
- **Unmatched files in the older version** (compile_bank_satements.py:159-163).
  The older program reads `bank.name` before testing for None, so an
  unmatched file raises AttributeError.
- **Wildcard overrides never filter** (run.py:153-157). The comment on
  `amount_category_manifest` (finance-utils/config.py:82-83) says a False
  category filters the match out and an amount of 0 or -1 imposes no amount
  requirement. But a 0/-1 entry only sets the category, even to False; only
  an exact-amount match whose target is None or False filters
  (`Rules.LastWildcardWins`, `Rules.ExactMatchEndsLoop`).
- **Sorting** (run.py:253). pandas' default sort is not stable, so only
  "sorted by date and a permutation" is modelled.

## Model

| member | source | states |
|---|---|---|
| `Config.Construct` | finance-utils/config.py:20-90 | A non-string bank name is an AttributeError. Otherwise construction succeeds iff exactly one of `debit_credit`/`amount` is truthy and the two of `debit_credit`/`transaction_type` are not both truthy; a failure is AssertionError. The name is stored lower-cased and every other argument unchanged. |
| `Config.FromJsonItem` | finance-utils/config.py:115-130 | Accepted iff `bank_name` is a string and both assertions hold. The accepted record holds the lower-cased `bank_name` and, for every other key, the item's value when present and None when missing, except `amount_category_manifest`, which defaults to `[]`. |
| `Config.GetBankManifest` | finance-utils/config.py:111-132 | A missing `banks` is a TypeError. Otherwise there is one new, distinct manifest object per entry, in order, each holding `FromJsonItem` of its entry. It fails iff some entry is rejected, and then with the exception of the first rejected entry. |
| `Config.AmountIndexZeroRejected` | finance-utils/config.py:73 | An `amount` locator of column 0 with no `debit_credit` fails the first assertion, because index 0 is falsy. |
| `Manifests.BankColumnManifest.constructor` | finance-utils/config.py:38-90 | The object's fields hold exactly the accepted record. |
| `LegacyConfig.LegacyConstruct` | Compile_bank_statements/config.py:11-51 | The older constructor fails with AttributeError on a non-string name. Otherwise it succeeds iff exactly one amount source is truthy; it has no `transaction_type` check. It stores the name lower-cased and the other arguments unchanged; the fields this version lacks read as None. |
| `LegacyConfig.BankManifestAccepted` | Compile_bank_statements/config.py:56-104 | All three `BANK_MANIFEST` entries pass the assertion: Chase and USAA through `amount` (USAA's is column 6), CITI through its debit/credit pair. Their stored names are the distinct "chase", "citi" and "usaa". |
| `LegacyConfig.UsaaOverridesEffect` | Compile_bank_statements/config.py:98-102 | In the older engine, a "USAA FUNDS TRANSFER" match of exactly -750 or -4150 becomes "Savings", and one of exactly -100 gets amount 0 and category "Filtered". Every other transaction is unchanged. |
| `LegacyConfig.ChipotleIsMealOut` | Compile_bank_statements/config.py:107-109 | Any description matching "Chipotle" gets "Meals Out", whatever later rules it also matches. |
| `LegacyConfig.GasRuleShadowsLaterRules` | Compile_bank_statements/config.py:107-134 | A description matching "Gas" gets one of the categories of rules up to "Gas" (never "Investments"), and exactly "Gas" when none of the 18 earlier rules matches. |
| `Rules.FindBank` | run.py:63-68 | It returns the first bank whose name is a substring of the lower-cased path: that name occurs and no earlier one does. It returns None iff no name occurs. The older version's `get_bank_manifest_from_path` (compile_bank_satements.py:59-64) is identical. |
| `Rules.OutputTailsAreNotStatements` | run.py:48-57 | No name that ends an output file's name, including the output name itself, passes the `get_docs` filename test, against either output path. |
| `Rules.RStrip` | run.py:172 | `rstrip()` removes exactly the trailing whitespace: the result is a prefix, it does not end in whitespace, and only whitespace was cut. |
| `Rules.AddHeaderComma` | run.py:167-174 | The header line becomes its right-stripped text plus ",\n", the other lines are unchanged, and an empty file is an IndexError. |
| `Rules.Filtered` | run.py:134-142 | Returns false iff every pattern is a string that does not match the text, and its only exception is TypeError. Same in compile_bank_satements.py:125-133. |
| `Rules.FilteredExactly` | run.py:134-142 | Returns true iff some string pattern multiline-matches the text and every pattern before it is a string that does not match. Raises iff a non-string pattern is reached before any match. |
| `Rules.DateFromRow` | run.py:103-108 | A date locator that is not an int (a name left unresolved, None) is a TypeError. A date it returns is the parse of some cell of the row. |
| `Rules.RawDescription` | run.py:203-210 | Newer version: a falsy locator (index 0 included) reads as "", and a cell that cannot be read becomes the AttributeError of the unset attribute. Older version (compile_bank_satements.py:177): the cell is read as is. |
| `Rules.InitialCategory` | run.py:219 | It is the category cell when the locator is truthy and None otherwise, so index 0 reads as unset. |
| `Rules.GlobalCategory` | run.py:144-149 | `add_category`'s choice is the category of the first matching rule; it is None iff no rule matches. Same in compile_bank_satements.py:135-140. |
| `Rules.EarlierRuleWins` | run.py:145-149 | When rule i matches, `add_category` chooses the category of a matching rule at or before i, so no later rule decides. Same in compile_bank_satements.py:135-140. |
| `Rules.SingleColumnAmount` | run.py:112-117 | A `--N` cell parses N. In the newer version only, a `$N` cell parses N. Anything else goes through `float(...)`. The older version is compile_bank_satements.py:105-108. |
| `Rules.DebitCreditAmount` | run.py:119-130 | Both truthy is "Cannot be credit and debit at the same time". A debit alone gives -debit, a credit alone gives abs(credit) ≥ 0, and neither gives 0. A non-zero result means exactly one side was set. |
| `Rules.AmountFromRow` | run.py:111-132 | It uses the single column when `amount` is truthy and the debit/credit pair otherwise. With neither, it fails with "Cannot find amount maifest". The debit cell is read first, so its failure (a column left as a name is a TypeError) wins; a one-item pair whose debit cell reads is an IndexError; two readable cells go to `DebitCreditAmount`. Same in compile_bank_satements.py:103-123. |
| `Rules.ApplyMultiple` | run.py:223-224 | A truthy numeric multiplier makes the amount abs(amount)·multiplier, so the multiplier's sign alone decides a non-zero amount's sign. Otherwise the amount is unchanged. |
| `Rules.MultipleOneOrMinusOne` | finance-utils/config.py:68-71 | A multiplier of 1 makes every non-zero amount positive, and -1 makes it negative. |
| `Rules.AmountOverrides` | run.py:151-164 | The overrides either keep the amount or produce exactly (0, "Filtered"). The older rules (compile_bank_satements.py:143-152) are the same version parameter without wildcards, and only None drops there. |
| `Rules.OverrideIsOneEntry` | run.py:151-164 | Any change is the effect of one entry whose pattern matches the description and which is a wildcard (newer version) or has exactly the transaction's amount: (0, "Filtered") for an exact match whose target drops, otherwise the amount kept and the category set to that entry's target. |
| `Rules.LastWildcardWins` | run.py:153-157 | Wildcard entries (amount 0 or -1) do not stop the loop. Over entries that each do not match, are wildcards or have another amount, the amount is untouched and the category is the target of the last matching wildcard (`LastWildcardTarget`, read from the end), or the old category when none matches. |
| `Rules.ExactMatchEndsLoop` | run.py:158-164 | The first matching, non-wildcard entry with an exactly equal amount decides and ends the loop: None (and, in the newer version, False) gives (0, "Filtered"), anything else sets the category. Earlier entries that do not match, have another amount or are wildcards leave no trace; later entries are never consulted. |
| `Engine.ProcessRow` | run.py:200-227 | A row whose raw description matches a skip filter yields nothing. Every transaction produced passed the filters, belongs to the manifest's bank, and carries the raw description, title-cased in the newer version only. The older row body is compile_bank_satements.py:175-187. |
| `Engine.MultipleDecidesSign` | run.py:221-226 | In the newer version with a truthy numeric multiplier, a kept positive amount means a positive multiplier and a negative amount a negative one, after all overrides. |
| `Engine.RowsFrom` | run.py:196-227 | The row loop only appends: the transactions already collected stay a prefix of the result. What it appends is stated by `RowsFromProvenance` and `RowsFromComplete`. |
| `Engine.RowsFromProvenance` | run.py:196-227 | Every transaction the row loop adds is the transformation of one of the file's rows. |
| `Engine.FilteredRowsNeverAppear` | run.py:212-213 | Every transaction of a file is the transformation of one of its rows, and that row passed the skip filters with no filter matching. |
| `Engine.RowsFromComplete` | run.py:196-227 | Every row reached before the first row whose first cell is None contributes the transaction it produces to the result. |
| `Engine.RowsFromNext` | run.py:196-227 | At a row whose first cell is not None, the row's exception ends the loop; otherwise its transaction, if any, is appended and the loop goes on. |
| `Engine.RowsFromStops` | run.py:196-198 | The loop ends with what it has at the last row and at a row whose first cell is None; an empty row is an IndexError. |
| `Engine.StopsAtEmptyFirstCell` | run.py:196-198 | Rows after the first row whose first cell is None have no effect on the result. |
| `Engine.DocsFrom` | run.py:176-229 | Across the file loop the manifest list keeps its names, and transactions are only appended. What each file contributes is stated by `DocsFromMatched`, `UnmatchedFile`, `DocsFromContribution`, `DocsFromComplete` and `DocsFromProvenance`. |
| `Engine.DocsFromMatched` | run.py:180-196 | A file matched to bank k: the bank's manifest is resolved against the file's header and replaced by the result, which later files see; an escaping exception ends the run; otherwise the rows are processed under the resolved manifest and the loop goes on. |
| `Engine.DocsFromContribution` | run.py:180-229 | In a run that succeeds, a matched file's bank, in the state the earlier files leave, is resolved without an escaping exception, and the transactions its rows produce under that manifest follow those of the earlier files in the result. |
| `Engine.DocsFromComplete` | run.py:196-227 | In a run that succeeds, every transaction a matched file's row produces, before the file's first None row and under the bank's manifest as resolved for that file, is in the result. |
| `Engine.DocsFromProvenance` | run.py:180-227 | Every transaction of a run comes from a row of some file that passed the skip filters, transformed under a manifest with the configured settings (filters, overrides, multiplier, name) of the bank the file's path selects. |
| `Engine.UnmatchedFile` | run.py:181-184 | A file no bank matches is skipped by the newer version. In the older one (compile_bank_satements.py:159-163) it ends the run with AttributeError, the manifests unchanged. |
| `Resolution.ResolveLocator` | run.py:74-83 | A non-string locator is unchanged. A string is replaced by the position of its first occurrence in the header, or fails with "'name' is not in list" iff it is absent. |
| `Resolution.ResolveFrom` | run.py:73-95 | Resolution only touches locators, and each one ends as itself or as the header index of its name. A swallowed failure is always a ValueError. |
| `Resolution.ResolvedIsFull` | run.py:71-95 | After a resolution with no missing column, no locator (nor debit/credit item) is left as a column name. |
| `Resolution.ResolveDebitCredit` | run.py:84-95 | A pair that is not converted is kept. A converted pair whose two items resolve and which holds a name is stored back as the two resolved items, as a list in the newer version and a tuple in the older one (compile_bank_satements.py:80-90); one without a name is kept. A missing name is the swallowed "not in list" ValueError for that item; a pair shorter than two is an IndexError that escapes, exactly when its first item (if any) resolves. Failures leave the manifest unchanged. |
| `Resolution.ResolveFromAgain` | run.py:71-95 | Resolution from any locator on, run a second time against the same header, gives the same state and the same outcome. |
| `Resolution.ResolveIdempotent` | run.py:71-100 | Resolving again against the same header changes nothing and ends the same way, whether the first pass succeeded, swallowed a ValueError or raised an IndexError. A manifest resolved without a missing column is unchanged by any later header. |
| `Resolution.ResolvePartialFailure` | run.py:96-100 | On a missing column, the locators before the failing one hold their indices, and the failing one and all later ones (and the debit/credit pair) keep their old values. The error names the missing column, whether it is a locator's or an item of the debit/credit pair. The older handler is compile_bank_satements.py:91-93. |
| `Resolution.EmptyNameHintExactly` | run.py:98-99 | The extra "empty strings" message is printed exactly when the missing name is "". |
| `Resolution.FirstColumnReadsAsUnset` | run.py:204 | A name found in the header's first column resolves to index 0, which later truthiness tests read as "not configured". |
| `Resolution.AssignIndexFromColName` | run.py:71-100 | The in-place rewrite of the manifest object leaves exactly the state, and gives the outcome, that `Resolve` describes. In the older version (compile_bank_satements.py:66-93) only a tuple pair is converted, and it is stored back as a tuple. |
| `Resolution.SetLocator` | run.py:74-83 | It overwrites one locator field and no other. |
| `Resolution.AssignDebitCreditIndex` | run.py:84-95 | The in-place conversion of the debit/credit items leaves the object's state, and gives the outcome, that `ResolveDebitCredit` states. |
| `Transactions.Transaction.constructor` | run.py:200-221 | It sets the fields the row loop assigns before the amount. |
| `Transactions.AddCategory` | run.py:144-149 | The first matching global rule sets the category, and no match leaves it. Nothing else changes. |
| `Transactions.UpdateCategoryWithAmount` | run.py:151-164 | Amount and category end as `AmountOverrides` computes, and it reports an error exactly when that does. Date, description and bank are untouched. |
| `Compile.BuildTransaction` | run.py:200-227 | It builds a new transaction object equal to `ProcessRow`'s result, nothing exactly when that is nothing, and the same exception otherwise. |
| `Compile.ProcessRows` | run.py:196-227 | The row loop appends new objects whose values are `RowsFrom`'s result. It keeps the earlier list as a prefix and fails exactly as `RowsFrom` does. |
| `Compile.ProcessRowInto` | run.py:199-227 | One row: the list gains the new object built from `ProcessRow`'s result, stays as it is for a filtered row, or the row's exception is returned. The rest of the row loop from the new list gives what it gave from the old one. |
| `Compile.ProcessDoc` | run.py:180-194 | One file: lookup, then a skip (newer version) or AttributeError (older version) for an unmatched file. This is one step of `DocsFrom`. |
| `Compile.ProcessMatchedDoc` | run.py:186-196 | A matched file: in-place resolution of the bank's object, then its rows. The manifests and transactions it leaves continue `DocsFrom` as one step of it. |
| `Compile.ProcessDocs` | run.py:176-229 | `process_docs` over distinct manifest objects. The returned transactions and the manifests' final states are those of `DocsFrom`. |
| `Reports.RowOf` | run.py:238-244 | Cost is never negative and is 0 iff the amount is 0. Date, category and bank are copied from the transaction. |
| `Reports.Income` | run.py:245-246 | A row is income iff it comes from a transaction with amount > 0. Every cost is positive, and a zero-amount transaction never appears. |
| `Reports.SidesAreRows` | run.py:237-249 | Income is the rows of the positive transactions and expenses those of the negative ones, in order and with their repetitions. |
| `Reports.Expenses` | run.py:247-249 | A row is an expense iff it comes from a transaction with amount < 0. Every cost is positive, and a zero-amount transaction never appears. |
| `Reports.WithSignExactly` | run.py:245-249 | The transactions of one sign are exactly those of the input with that sign, each as many times as it occurs. |
| `Reports.PartitionIsExact` | run.py:237-249 | Income, expenses and the dropped zero amounts partition the transactions as multisets, and their rows partition the rows of all transactions; the counts add up. |
| `Reports.Insert` | run.py:253 | Inserting into a date-sorted list keeps it sorted and adds exactly that row. |
| `Reports.SortByDate` | run.py:253 | `sort_values(by=["Date"])` is sorted by date and is a permutation of its input. |
| `Reports.Report` | run.py:251-260 | A side is written iff it has rows, and then as a date-sorted permutation of them. |
| `Reports.MakeReports` | run.py:231-260 | The income and expense outputs are `Report` of `Income` and `Expenses` of the transactions. In the older version (compile_bank_satements.py:191-220) Item is title-cased here. |

## Left out

- File-system and CSV I/O is not modelled: listing the input directory, creating it, reading and rewriting the header in `add_comma_to_csv_header`, pandas' `read_csv`, `DataFrame` and `to_csv`, and loading `config.json`. A file enters the model as a `Doc`: its path, header and rows, with NaN already replaced by None. The `add_comma_to_csv_header is True` branch of `process_docs` only changes what pandas reads, so only its line transform (`Rules.AddHeaderComma`) is modelled.
- The order of the files is a parameter; `os.listdir` order is not modelled.
- Regex matching, `str.title`, `float(...)`, date parsing and `str()` of numbers and lists are parameters (`Foreign.Env`); their semantics are not encoded. Dates are opaque `int` keys.
- Amounts are exact reals. Float rounding, NaN and infinities are not modelled.
- Rules.Negated: `deb * -1` on a text debit cell is Python string repetition (it yields ""). The run then fails with a TypeError at the first `abs` of that "": at run.py:224, inside `process_docs`, when the bank has a truthy numeric `amount_multiple`, and otherwise in `make_df` (run.py:241). The older program has no multiplier, so there it always fails in `make_df` (compile_bank_satements.py:201). The model raises TypeError at once. In the source a later row or file that raises first ends the run with its own exception; the model always ends at this row with TypeError.
- Engine.ProcessRow: in the older version a non-string description is a TypeError whatever the global rules are. In the source that TypeError comes from `re.search` in `add_category` or `update_category_with_amount` (compile_bank_satements.py:137, 145), so it needs at least one rule; the older program always runs with its non-empty 26-rule table (`LegacyConfig.CategoryManifest`), where the two agree.
- PyValues.NotInList: the message quotes the missing name as `'name'`, while Python uses `repr(name)`, which differs for names containing quotes or backslashes.
- Lower-casing is ASCII-only, and `rstrip` whitespace is the ASCII set; Unicode case mapping and whitespace are not modelled.
- The global category rules of the newer version are given as a list of (pattern, category) pairs. The failures of a missing or malformed `category_manifest` in the JSON are not modelled.
- JSON objects nested inside a bank entry are not values of the model. The lookup `j.get("banks")` enters as an `Option`.
- Exception messages are modelled only for the ValueErrors the code raises or inspects; other exceptions are modelled by kind. The bank name that "Cannot find amount maifest" carries is dropped.
- Printing and logging are not modelled, including the messages of the swallowed ValueError and `__repr__`. Neither are the unused `TransactionType` enum and the stored but unread `headers`, `aggregator` and `account_name` fields.
- Module-level construction of `BANK_MANIFEST` and `CATEGORY_MANIFEST` (an assertion failure at import time) is modelled as the list of constructor results, not as an import error.
- Reports.SortByDate: fixes one order for rows with equal dates (insertion order), while pandas' sort leaves it unspecified. Only sortedness and permutation are claimed for it.
