/**
 * Python values as the statement compiler meets them (manifest settings,
 * CSV cells after pandas has replaced NaN by None, JSON items), Python
 * truthiness, and the few built-ins the engine leans on: sequence
 * subscripts, `list.index`, `str.lower`, `str.startswith`, `in` on strings.
 */
module PyValues {

  datatype Value =
    | VNone
    | VBool(b: bool)
    | VInt(i: int)
    | VFloat(x: real)
    | VStr(s: string)
    | VList(items: seq<Value>)
    | VTuple(items: seq<Value>)

  /** The exceptions the engine can raise. None of them is caught by the
      run as a whole: each one aborts it. */
  datatype Exc =
    | ValueError(msg: string)
    | TypeError
    | IndexError
    | AttributeError
    | AssertionError

  datatype Option<+T> = None | Some(value: T)

  datatype Result<+T> = Ok(value: T) | Err(exc: Exc) {
    predicate IsFailure() { Err? }

    function PropagateFailure<U>(): Result<U>
      requires Err?
    {
      Err(exc)
    }

    function Extract(): T
      requires Ok?
    {
      value
    }
  }

  /** Python's `bool(v)`. */
  predicate Truthy(v: Value) {
    match v
    case VNone => false
    case VBool(b) => b
    case VInt(i) => i != 0
    case VFloat(x) => x != 0.0
    case VStr(s) => s != ""
    case VList(items) => items != []
    case VTuple(items) => items != []
  }

  /** `isinstance(v, int)`; `bool` is a subclass of `int`. */
  predicate IsInt(v: Value) {
    v.VInt? || v.VBool?
  }

  function AsInt(v: Value): int
    requires IsInt(v)
  {
    if v.VInt? then v.i else if v.b then 1 else 0
  }

  /** `isinstance(v, (int, float))`. */
  predicate IsNumber(v: Value) {
    IsInt(v) || v.VFloat?
  }

  function AsReal(v: Value): real
    requires IsNumber(v)
  {
    if v.VFloat? then v.x else AsInt(v) as real
  }

  /** Python's `v == x` for a float `x`: false for every non-number. */
  predicate EqualsNumber(v: Value, x: real) {
    IsNumber(v) && AsReal(v) == x
  }

  /** `row[loc]` on a row tuple: an int index, a negative one counting from the end. */
  function Subscript(row: seq<Value>, loc: Value): (r: Result<Value>)
    ensures r.Ok? <==> IsInt(loc) && -|row| <= AsInt(loc) < |row|
    ensures r.Ok? && 0 <= AsInt(loc) ==> r.value == row[AsInt(loc)]
    ensures r.Ok? ==> r.value in row
    ensures r.Err? ==> r.exc == (if IsInt(loc) then IndexError else TypeError)
  {
    if !IsInt(loc) then Err(TypeError)
    else
      var k := AsInt(loc);
      if 0 <= k < |row| then Ok(row[k])
      else if -|row| <= k < 0 then Ok(row[|row| + k])
      else Err(IndexError)
  }

  /** The ValueError that `list.index` raises for a missing element. */
  function NotInList(name: string): Exc {
    ValueError("'" + name + "' is not in list")
  }

  /** `cols.index(name)`: the position of the first occurrence. */
  function IndexOf(cols: seq<string>, name: string): (r: Result<nat>)
    ensures r.Ok? <==> name in cols
    ensures r.Ok? ==> r.value < |cols| && cols[r.value] == name && name !in cols[..r.value]
    ensures r.Err? ==> r.exc == NotInList(name)
  {
    if |cols| == 0 then Err(NotInList(name))
    else if cols[0] == name then Ok(0)
    else
      match IndexOf(cols[1..], name)
      case Ok(i) =>
        assert cols[1..][..i] == cols[1..i + 1];
        Ok(i + 1)
      case Err(e) => Err(e)
  }

  /** `for x in v`: the items a loop over `v` sees. */
  function Iterate(v: Value): (r: Result<seq<Value>>)
    ensures (v.VList? || v.VTuple?) ==> r == Ok(v.items)
    ensures v.VStr? ==> r.Ok? && |r.value| == |v.s|
    ensures r.Err? <==> !(v.VList? || v.VTuple? || v.VStr?)
  {
    match v
    case VList(items) => Ok(items)
    case VTuple(items) => Ok(items)
    case VStr(s) => Ok(seq(|s|, i requires 0 <= i < |s| => VStr([s[i]])))
    case _ => Err(TypeError)
  }

  function LowerChar(c: char): char {
    if 'A' <= c <= 'Z' then (c as int + 32) as char else c
  }

  /** `s.lower()` on ASCII letters. */
  function Lower(s: string): (r: string)
    ensures |r| == |s|
    ensures forall i :: 0 <= i < |s| ==> r[i] == LowerChar(s[i])
  {
    if s == [] then [] else [LowerChar(s[0])] + Lower(s[1..])
  }

  predicate StartsWith(s: string, prefix: string) {
    |prefix| <= |s| && s[..|prefix|] == prefix
  }

  predicate EndsWith(s: string, suffix: string) {
    |suffix| <= |s| && s[|s| - |suffix|..] == suffix
  }

  /** Python's `p in s` on strings. */
  predicate IsSubstring(p: string, s: string)
    decreases |s|
  {
    StartsWith(s, p) || (s != [] && IsSubstring(p, s[1..]))
  }

  /** Every string occurs in any string that ends with it. */
  lemma {:induction false} SubstringOfSuffix(a: string, p: string)
    ensures IsSubstring(p, a + p)
    decreases |a|
  {
    if a == [] {
      assert a + p == p;
    } else {
      assert (a + p)[1..] == a[1..] + p;
      SubstringOfSuffix(a[1..], p);
    }
  }
}
