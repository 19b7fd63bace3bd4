/** The `exec` bodies of the six builtin operators (Eq, Lt, Le, Ne, Bool,
    Not), each behind Python's binding of call arguments to the parameters
    `(a, b)` or `(a)`. */
module Builtins {
  import opened Values

  predicate Distinct(names: seq<string>) {
    forall i, j :: 0 <= i < j < |names| ==> names[i] != names[j]
  }

  /** Python binds a call to `def f(p0, ..., pn)` as follows: more positional
      arguments than parameters, a keyword that names no parameter, a keyword
      that names a parameter already filled positionally, and a parameter left
      unfilled each raise TypeError. */
  function Bind(params: seq<string>, args: seq<Value>, kwargs: map<string, Value>): (r: Result<seq<Value>>)
    requires Distinct(params)
    ensures r.Err? ==> r.error == TypeError
    ensures r.Ok? <==> |args| <= |params| && kwargs.Keys == set j | |args| <= j < |params| :: params[j]
    ensures r.Ok? ==> |r.value| == |params|
                      && (forall j :: 0 <= j < |args| ==> r.value[j] == args[j])
                      && (forall j :: |args| <= j < |params| ==> r.value[j] == kwargs[params[j]])
  {
    if |args| > |params| then Err(TypeError)                                        // too many positional
    else if exists n <- kwargs.Keys :: n !in params then Err(TypeError)             // unexpected keyword
    else if exists j :: 0 <= j < |args| && params[j] in kwargs then Err(TypeError)  // multiple values
    else if exists j :: |args| <= j < |params| && params[j] !in kwargs then Err(TypeError) // missing
    else Ok(args + seq(|params| - |args|, j requires 0 <= j < |params| - |args| => kwargs[params[|args| + j]]))
  }

  const BINARY: seq<string> := ["a", "b"]
  const UNARY: seq<string> := ["a"]

  /** `EqBase.exec(self, a, b)`: `a == b`. */
  function EqBody(args: seq<Value>, kwargs: map<string, Value>): (r: Result<Value>)
    ensures r.Ok? ==> r.value.BoolV?
    ensures r.Err? ==> r.error == TypeError
  {
    match Bind(BINARY, args, kwargs)
    case Err(e) => Err(e)
    case Ok(vs) => Ok(BoolV(PyEq(vs[0], vs[1])))
  }

  /** `LtBase.exec(self, a, b)`: `a < b`. */
  function LtBody(args: seq<Value>, kwargs: map<string, Value>): (r: Result<Value>)
    ensures r.Ok? ==> r.value.BoolV?
    ensures r.Err? ==> r.error == TypeError
  {
    match Bind(BINARY, args, kwargs)
    case Err(e) => Err(e)
    case Ok(vs) => match PyLt(vs[0], vs[1]) { case Err(e) => Err(e) case Ok(c) => Ok(BoolV(c)) }
  }

  /** `LeBase.exec(self, a, b)`: `a <= b`. */
  function LeBody(args: seq<Value>, kwargs: map<string, Value>): (r: Result<Value>)
    ensures r.Ok? ==> r.value.BoolV?
    ensures r.Err? ==> r.error == TypeError
  {
    match Bind(BINARY, args, kwargs)
    case Err(e) => Err(e)
    case Ok(vs) => match PyLe(vs[0], vs[1]) { case Err(e) => Err(e) case Ok(c) => Ok(BoolV(c)) }
  }

  /** `NeBase.exec(self, a, b)`: `a != b`. */
  function NeBody(args: seq<Value>, kwargs: map<string, Value>): (r: Result<Value>)
    ensures r.Ok? ==> r.value.BoolV?
    ensures r.Err? ==> r.error == TypeError
  {
    match Bind(BINARY, args, kwargs)
    case Err(e) => Err(e)
    case Ok(vs) => Ok(BoolV(!PyEq(vs[0], vs[1])))
  }

  /** `BoolBase.exec(self, a)`: `bool(a)`. */
  function BoolBody(args: seq<Value>, kwargs: map<string, Value>): (r: Result<Value>)
    ensures r.Ok? ==> r.value.BoolV?
    ensures r.Err? ==> r.error == TypeError
  {
    match Bind(UNARY, args, kwargs)
    case Err(e) => Err(e)
    case Ok(vs) => Ok(BoolV(Truthy(vs[0])))
  }

  /** `NotBase.exec(self, a)`: `not a`. */
  function NotBody(args: seq<Value>, kwargs: map<string, Value>): (r: Result<Value>)
    ensures r.Ok? ==> r.value.BoolV?
    ensures r.Err? ==> r.error == TypeError
  {
    match Bind(UNARY, args, kwargs)
    case Err(e) => Err(e)
    case Ok(vs) => Ok(BoolV(!Truthy(vs[0])))
  }

  /** Called as the core calls them, with two positional values, the binary
      operators compute Python's comparison of those values; any other
      call shape raises TypeError unless it names `a` and `b` exactly. */
  lemma BinaryOperators(x: Value, y: Value)
    ensures EqBody([x, y], map[]) == Ok(BoolV(PyEq(x, y)))
    ensures NeBody([x, y], map[]) == Ok(BoolV(!PyEq(x, y)))
    ensures LtBody([x, y], map[]) == (if PyLt(x, y).Ok? then Ok(BoolV(PyLt(x, y).value)) else Err(TypeError))
    ensures LeBody([x, y], map[]) == (if PyLe(x, y).Ok? then Ok(BoolV(PyLe(x, y).value)) else Err(TypeError))
    ensures EqBody([], map["a" := x, "b" := y]) == Ok(BoolV(PyEq(x, y)))
    ensures EqBody([x], map["a" := y]) == Err(TypeError)
    ensures EqBody([x], map[]) == Err(TypeError)
    ensures EqBody([x, y, x], map[]) == Err(TypeError)
  {
    var two := Bind(BINARY, [x, y], map[]);
    assert two.Ok? && two.value == [x, y];
    var named := Bind(BINARY, [], map["a" := x, "b" := y]);
    assert (set j | 0 <= j < 2 :: BINARY[j]) == {"a", "b"};
    assert named.Ok? && named.value == [x, y];
    assert (set j | 1 <= j < 2 :: BINARY[j]) == {"b"};
  }

  /** The unary operators applied to one positional value. */
  lemma UnaryOperators(x: Value)
    ensures BoolBody([x], map[]) == Ok(BoolV(Truthy(x)))
    ensures NotBody([x], map[]) == Ok(BoolV(!Truthy(x)))
    ensures NotBody([], map[]) == Err(TypeError)
    ensures BoolBody([x, x], map[]) == Err(TypeError)
  {
    var one := Bind(UNARY, [x], map[]);
    assert one.Ok? && one.value == [x];
    assert UNARY[0] == "a";
    assert 0 <= 0 < 1;
    var names := set j | 0 <= j < 1 :: UNARY[j];
    assert "a" in names;
  }

  /** `Ne` is the negation of `Eq` on every call, and both raise alike. */
  lemma NeNegatesEq(args: seq<Value>, kwargs: map<string, Value>)
    ensures NeBody(args, kwargs).Ok? <==> EqBody(args, kwargs).Ok?
    ensures NeBody(args, kwargs).Ok? ==>
              NeBody(args, kwargs).value == BoolV(!EqBody(args, kwargs).value.b)
  {
  }

  /** `Le` is `Lt` or `Eq` on every call where `Lt` does not raise. */
  lemma LeIsLtOrEq(args: seq<Value>, kwargs: map<string, Value>)
    ensures LeBody(args, kwargs).Ok? <==> LtBody(args, kwargs).Ok?
    ensures LeBody(args, kwargs).Ok? ==>
              LeBody(args, kwargs).value == BoolV(LtBody(args, kwargs).value.b || EqBody(args, kwargs).value.b)
  {
    var bound := Bind(BINARY, args, kwargs);
    if bound.Ok? {
      PyLeIsLtOrEq(bound.value[0], bound.value[1]);
    }
  }

  /** `Not(Bool(x))` has the value of `Not(x)`: `Bool` yields its operand's truthiness. */
  lemma NotOfBool(x: Value)
    ensures BoolBody([x], map[]).Ok?
    ensures NotBody([BoolBody([x], map[]).value], map[]) == NotBody([x], map[])
  {
    UnaryOperators(x);
    UnaryOperators(BoolV(Truthy(x)));
  }
}
