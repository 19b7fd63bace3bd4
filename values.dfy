/** The values that flow through a lazy graph, and the Python semantics the
    builtin operators give them: truthiness, equality and ordering of
    integers, booleans and strings. */
module Values {

  datatype Option<T> = None | Some(value: T)

  /** The exceptions the core raises or lets through. */
  datatype Error =
    | TypeError         // wrong arity, unorderable operands, bool() of a Variable
    | AttributeError    // a plain value used where a node is expected
    | KeyError          // discarding a key an enumerator does not track
    | ValueError        // raised by a user-supplied callable; `_try_cache_result` catches it around its `max`
    | Raised(code: int) // whatever a user-supplied callable raises

  datatype Result<T> = Ok(value: T) | Err(error: Error)

  /** A Python value of one of the kinds the builtin operators are applied to. */
  datatype Value = IntV(i: int) | BoolV(b: bool) | StrV(s: string)

  /** A callable as an Exec node invokes it: the positional and the keyword
      argument values in, a value or an exception out. */
  type Callable = (seq<Value>, map<string, Value>) -> Result<Value>

  /** `bool` is a subclass of `int` in Python: both are numbers. */
  predicate IsNumber(v: Value) {
    v.IntV? || v.BoolV?
  }

  function AsNumber(v: Value): int
    requires IsNumber(v)
  {
    match v
    case IntV(i) => i
    case BoolV(b) => if b then 1 else 0
  }

  /** Python's `bool(v)`: zero and the empty string are false. */
  function Truthy(v: Value): bool {
    match v
    case IntV(i) => i != 0
    case BoolV(b) => b
    case StrV(s) => s != ""
  }

  /** Python's `a == b`: numbers compare by value (`True == 1`), strings by
      content, and a number never equals a string. */
  function PyEq(a: Value, b: Value): bool {
    if IsNumber(a) && IsNumber(b) then AsNumber(a) == AsNumber(b)
    else if a.StrV? && b.StrV? then a.s == b.s
    else false
  }

  /** Lexicographic order of strings by code point, as Python's `<` on `str`. */
  function StrLt(s: string, t: string): bool {
    if s == [] then t != []
    else t != [] && (s[0] < t[0] || (s[0] == t[0] && StrLt(s[1..], t[1..])))
  }

  /** Python's `<=` on `str`, defined on its own as the order it is. */
  function StrLe(s: string, t: string): bool {
    if s == [] then true
    else t != [] && (s[0] < t[0] || (s[0] == t[0] && StrLe(s[1..], t[1..])))
  }

  /** Python's `a < b`: mixing a number and a string raises TypeError. */
  function PyLt(a: Value, b: Value): Result<bool> {
    if IsNumber(a) && IsNumber(b) then Ok(AsNumber(a) < AsNumber(b))
    else if a.StrV? && b.StrV? then Ok(StrLt(a.s, b.s))
    else Err(TypeError)
  }

  /** Python's `a <= b`. */
  function PyLe(a: Value, b: Value): Result<bool> {
    if IsNumber(a) && IsNumber(b) then Ok(AsNumber(a) <= AsNumber(b))
    else if a.StrV? && b.StrV? then Ok(StrLe(a.s, b.s))
    else Err(TypeError)
  }

  lemma {:induction false} StrLeIsLtOrEq(s: string, t: string)
    ensures StrLe(s, t) <==> StrLt(s, t) || s == t
  {
    if s != [] && t != [] && s[0] == t[0] {
      StrLeIsLtOrEq(s[1..], t[1..]);
      assert s == [s[0]] + s[1..] && t == [t[0]] + t[1..];
    }
  }

  /** The string order is strict total: exactly one of `s < t`, `s == t`, `t < s`. */
  lemma {:induction false} StrLtTrichotomy(s: string, t: string)
    ensures (if StrLt(s, t) then 1 else 0) + (if s == t then 1 else 0) + (if StrLt(t, s) then 1 else 0) == 1
  {
    if s != [] && t != [] && s[0] == t[0] {
      StrLtTrichotomy(s[1..], t[1..]);
      assert s == [s[0]] + s[1..] && t == [t[0]] + t[1..];
    }
  }

  /** `a <= b` is `a < b or a == b` whenever the operands are ordered, and
      both raise on the same operands. */
  lemma PyLeIsLtOrEq(a: Value, b: Value)
    ensures PyLe(a, b).Err? <==> PyLt(a, b).Err?
    ensures PyLe(a, b).Ok? ==> PyLe(a, b).value == (PyLt(a, b).value || PyEq(a, b))
  {
    if a.StrV? && b.StrV? {
      StrLeIsLtOrEq(a.s, b.s);
    }
  }

  /** On ordered operands exactly one of `a < b`, `a == b`, `b < a` holds. */
  lemma PyLtTrichotomy(a: Value, b: Value)
    requires PyLt(a, b).Ok?
    ensures PyLt(b, a).Ok?
    ensures (if PyLt(a, b).value then 1 else 0) + (if PyEq(a, b) then 1 else 0)
            + (if PyLt(b, a).value then 1 else 0) == 1
  {
    if a.StrV? && b.StrV? {
      StrLtTrichotomy(a.s, b.s);
    }
  }
}
