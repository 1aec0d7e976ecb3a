/**
 * The library code the engine calls but this model does not define:
 * regular-expression search (`re.search`), `str.title`, `float(str)`,
 * `dateutil.parser.parse` and `str()` of numbers. They are parameters of
 * every operation that uses them, gathered in one `Env` value.
 */
module Foreign {
  import opened PyValues

  datatype Env = Env(
    /** `re.search(pattern, text, re.M)` finds a match */
    searchMultiline: (string, string) -> bool,
    /** `re.search(pattern, text, re.I)` finds a match */
    searchIgnoreCase: (string, string) -> bool,
    /** `text.title()` */
    title: string -> string,
    /** `float(text)`; `None` where it raises ValueError */
    parseFloat: string -> Option<real>,
    /** `dateutil.parser.parse(text)` as a totally ordered key; `None` where it raises */
    parseDate: string -> Option<int>,
    /** `str(v)` of numbers, lists and tuples */
    show: Value -> string)

  /** `str(v)`. */
  function Str(v: Value, env: Env): (r: string)
    ensures v.VStr? ==> r == v.s
    ensures v.VNone? ==> r == "None"
  {
    match v
    case VNone => "None"
    case VBool(b) => if b then "True" else "False"
    case VStr(s) => s
    case _ => env.show(v)
  }

  /** `float(text)`. */
  function ParseFloat(text: string, env: Env): (r: Result<real>)
    ensures r.Ok? <==> env.parseFloat(text).Some?
    ensures r.Ok? ==> r.value == env.parseFloat(text).value
  {
    match env.parseFloat(text)
    case Some(x) => Ok(x)
    case None => Err(ValueError("could not convert string to float"))
  }

  /** `float(v)` of a cell. */
  function ToFloat(v: Value, env: Env): (r: Result<real>)
    ensures IsNumber(v) ==> r == Ok(AsReal(v))
    ensures v.VStr? ==> r == ParseFloat(v.s, env)
    ensures !IsNumber(v) && !v.VStr? ==> r == Err(TypeError)
  {
    if IsNumber(v) then Ok(AsReal(v))
    else if v.VStr? then ParseFloat(v.s, env)
    else Err(TypeError)
  }
}
