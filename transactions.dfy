/**
 * The mutable `Transaction` object and the two methods of `CompileBanks`
 * that rewrite its category and amount in place: `add_category` (global
 * rules, first match wins) and `update_category_with_amount` (the bank's
 * amount-conditioned overrides).
 */
module Transactions {
  import opened PyValues
  import opened Foreign
  import opened Manifests
  import opened Rules
  import opened Engine

  /** A transaction as the row loop fills it in, field by field. */
  class Transaction {
    var date: int
    var amount: real
    var description: string
    var category: Value
    var bankName: string

    function Snapshot(): Txn
      reads this
    {
      Txn(bankName, date, description, amount, category)
    }

    /** The fields the row loop sets before the amount is known. */
    constructor (bankName: string, date: int, description: string, category: Value)
      ensures Snapshot() == Txn(bankName, date, description, 0.0, category)
    {
      this.bankName := bankName;
      this.date := date;
      this.description := description;
      this.amount := 0.0;
      this.category := category;
    }
  }

  /** The values of a list of transaction objects. */
  function Snapshots(ts: seq<Transaction>): (r: seq<Txn>)
    reads ts
    ensures |r| == |ts|
    ensures forall k :: 0 <= k < |ts| ==> r[k] == ts[k].Snapshot()
  {
    seq(|ts|, k reads ts requires 0 <= k < |ts| => ts[k].Snapshot())
  }

  /** `add_category`: the first global rule whose pattern matches the
      description sets the category and ends the loop. */
  method AddCategory(t: Transaction, rules: seq<CategoryRule>, env: Env)
    modifies t
    ensures t.Snapshot() == old(t.Snapshot()).(category := CategoryAfterRules(rules, old(t.description), old(t.category), env))
  {
    for i := 0 to |rules|
      invariant t.Snapshot() == old(t.Snapshot())
      invariant forall k :: 0 <= k < i ==> !env.searchIgnoreCase(rules[k].pattern, t.description)
    {
      if env.searchIgnoreCase(rules[i].pattern, t.description) {
        assert GlobalCategory(rules, t.description, env) == Some(rules[i].category);
        t.category := VStr(rules[i].category);
        return;
      }
    }
  }

  /** `update_category_with_amount`: walks the bank's overrides as
      `AmountOverrides` describes. An exception (a malformed entry) is
      returned; the run it belongs to is over, so the transaction's
      amount and category are then left unspecified. */
  method UpdateCategoryWithAmount(v: Version, t: Transaction, rules: seq<Value>, env: Env)
    returns (err: Option<Exc>)
    modifies t
    ensures var r := AmountOverrides(v, rules, old(t.description), Charge(old(t.amount), old(t.category)), env);
      && (err.None? <==> r.Ok?)
      && (err.Some? ==> r == Err(err.value))
      && (r.Ok? ==> t.Snapshot() == old(t.Snapshot()).(amount := r.value.amount, category := r.value.category))
    ensures t.date == old(t.date) && t.description == old(t.description) && t.bankName == old(t.bankName)
  {
    ghost var spec := AmountOverrides(v, rules, t.description, Charge(t.amount, t.category), env);
    for i := 0 to |rules|
      invariant t.date == old(t.date) && t.description == old(t.description) && t.bankName == old(t.bankName)
      invariant spec == AmountOverrides(v, rules[i..], t.description, Charge(t.amount, t.category), env)
    {
      assert rules[i..][1..] == rules[i + 1..];
      var entry := UnpackRule(rules[i]);
      if entry.Err? {
        return Some(entry.exc);
      }
      var (pattern, amt, newCat) := entry.value;
      if !pattern.VStr? {
        return Some(TypeError);
      }
      if env.searchIgnoreCase(pattern.s, t.description) {
        if v == Current && IsWildcard(amt) {
          t.category := newCat;
        } else if EqualsNumber(amt, t.amount) {
          if Drops(v, newCat) {
            t.amount := 0.0;
            t.category := FilteredCategory;
          } else {
            t.category := newCat;
          }
          return None;
        }
      }
    }
    return None;
  }
}
