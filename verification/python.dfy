/** The slice of Python's value model the handler relies on: the values json.loads
    produces, truthiness, dict.get, subscripting, iteration and str(). */
module Python {
  import opened Results

  /** A value after json.loads. A dict keeps its entries in insertion order, as a
      Python dict does. json.loads never produces two entries with the same key
      (a repeated key keeps its last value), so a `Dict` with a repeated key stands
      for no real value and lies outside the model; `Lookup` reads the first. */
  datatype Value =
    | Null
    | Bool(b: bool)
    | Int(i: int)
    | Str(s: string)
    | List(items: seq<Value>)
    | Dict(entries: seq<(string, Value)>)

  type Entries = seq<(string, Value)>

  /** The exceptions the handler can meet. The last three are raised by the code's
      collaborators: the HTTP layer, the Odoo error check and the DynamoDB client. */
  datatype Error =
    | TypeError
    | AttributeError
    | KeyError(key: Value)
    | IndexError
    | HttpError(reason: string)
    | OdooRpcError(detail: Value)
    | ClientError

  /** Python's truth test (`if v`, `v or w`). */
  predicate Truthy(v: Value) {
    match v
    case Null => false
    case Bool(b) => b
    case Int(i) => i != 0
    case Str(s) => s != ""
    case List(xs) => xs != []
    case Dict(es) => es != []
  }

  /** The value stored under `key`, if any. */
  function Lookup(es: Entries, key: string): (r: Option<Value>)
    ensures r.Some? <==> exists k :: 0 <= k < |es| && es[k].0 == key
  {
    if es == [] then None
    else if es[0].0 == key then Some(es[0].1)
    else Lookup(es[1..], key)
  }

  /** `d.get(key, default)`. */
  function GetOr(es: Entries, key: string, default: Value): Value {
    match Lookup(es, key)
    case Some(v) => v
    case None => default
  }

  /** `d.get(key)`: None for a missing key. */
  function Get(es: Entries, key: string): Value {
    GetOr(es, key, Null)
  }

  /** `v[i]` for a non-negative integer index. A dict built by json.loads has only
      string keys, so an integer key is never found in it. */
  function Subscript(v: Value, i: nat): Result<Value, Error> {
    match v
    case List(xs) => if i < |xs| then Ok(xs[i]) else Err(IndexError)
    case Str(s) => if i < |s| then Ok(Str([s[i]])) else Err(IndexError)
    case Dict(_) => Err(KeyError(Int(i)))
    case _ => Err(TypeError)
  }

  /** What `for x in v` visits, for a value on which `len(v)` succeeds: the items of
      a list, the characters of a string, the keys of a dict. Any other value makes
      `len` raise TypeError. */
  function IterItems(v: Value): (r: Result<seq<Value>, Error>)
    ensures r.Ok? <==> v.List? || v.Str? || v.Dict?
    ensures v.List? ==> r == Ok(v.items)
    ensures r.Ok? && v.Str? ==> |r.value| == |v.s| && forall k | 0 <= k < |v.s| :: r.value[k] == Str([v.s[k]])
    ensures r.Ok? && v.Dict? ==> |r.value| == |v.entries| && forall k | 0 <= k < |v.entries| :: r.value[k] == Str(v.entries[k].0)
  {
    match v
    case List(xs) => Ok(xs)
    case Str(s) => Ok(seq(|s|, k requires 0 <= k < |s| => Str([s[k]])))
    case Dict(es) => Ok(seq(|es|, k requires 0 <= k < |es| => Str(es[k].0)))
    case _ => Err(TypeError)
  }

  function DigitChar(d: nat): (c: char)
    requires d < 10
    ensures '0' <= c <= '9'
  {
    ('0' as int + d) as char
  }

  /** `str(n)` for a non-negative int: its decimal digits, without leading zeros. */
  function NatToString(n: nat): (r: string)
    ensures |r| > 0
    ensures forall k | 0 <= k < |r| :: '0' <= r[k] <= '9'
    ensures n >= 10 ==> r[0] != '0'
  {
    if n < 10 then [DigitChar(n)] else NatToString(n / 10) + [DigitChar(n % 10)]
  }

  /** `str(i)` for an int. */
  function IntToString(i: int): string {
    if i < 0 then "-" + NatToString(-i) else NatToString(i)
  }

  /** The quote `repr` puts around a string: double quotes only when the string
      holds a single quote and no double quote. */
  function QuoteFor(s: string): char {
    if '\'' in s && '"' !in s then '"' else '\''
  }

  function EscapeChar(c: char, quote: char): string {
    if c == '\\' then "\\\\"
    else if c == quote then ['\\', quote]
    else if c == '\n' then "\\n"
    else if c == '\r' then "\\r"
    else if c == '\t' then "\\t"
    else [c]
  }

  function Escape(s: string, quote: char): string {
    if s == [] then "" else EscapeChar(s[0], quote) + Escape(s[1..], quote)
  }

  /** `repr(s)` for a string. */
  function ReprStr(s: string): string {
    var q := QuoteFor(s);
    [q] + Escape(s, q) + [q]
  }

  /** `", ".join(parts)`. */
  function Join(parts: seq<string>): string {
    if parts == [] then ""
    else if |parts| == 1 then parts[0]
    else parts[0] + ", " + Join(parts[1..])
  }

  /** `repr(v)`, which is how `str` shows the items of a list or dict. */
  function Repr(v: Value): string
    decreases v
  {
    match v
    case Null => "None"
    case Bool(b) => if b then "True" else "False"
    case Int(i) => IntToString(i)
    case Str(s) => ReprStr(s)
    case List(xs) =>
      "[" + Join(seq(|xs|, k requires 0 <= k < |xs| => Repr(xs[k]))) + "]"
    case Dict(es) =>
      "{" + Join(seq(|es|, k requires 0 <= k < |es| => ReprStr(es[k].0) + ": " + Repr(es[k].1))) + "}"
  }

  /** `str(v)`: a string is itself, anything else is shown as by `repr`. */
  function PyStr(v: Value): string {
    if v.Str? then v.s else Repr(v)
  }
}
