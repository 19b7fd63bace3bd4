/** Client programs over the lazy graph, each building its nodes from a
    fresh clock and stating what its reads return: the memoizing `Add2`
    function, a chain of Exec nodes sharing a Variable, the comparison and
    truth operators, and an enumerator over a list of keyed elements. */
module Scenarios {
  import opened Values
  import opened Clocks
  import opened Nodes
  import opened Enumerators
  import Builtins

  /** A user function `exec(self, a, b): return a + b` with Python's `+`:
      numbers add (a boolean counts as 0 or 1), strings concatenate, and any
      other pair raises TypeError. */
  function Add2(args: seq<Value>, kwargs: map<string, Value>): (r: Result<Value>)
    ensures r.Ok? ==> r.value.IntV? || r.value.StrV?
    ensures r.Err? ==> r.error == TypeError
  {
    match Builtins.Bind(Builtins.BINARY, args, kwargs)
    case Err(e) => Err(e)
    case Ok(vs) =>
      if IsNumber(vs[0]) && IsNumber(vs[1]) then Ok(IntV(AsNumber(vs[0]) + AsNumber(vs[1])))
      else if vs[0].StrV? && vs[1].StrV? then Ok(StrV(vs[0].s + vs[1].s))
      else Err(TypeError)
  }

  lemma Add2Ints(x: int, y: int)
    ensures Add2([IntV(x), IntV(y)], map[]) == Ok(IntV(x + y))
  {
    var bound := Builtins.Bind(Builtins.BINARY, [IntV(x), IntV(y)], map[]);
    assert bound.Ok? && bound.value == [IntV(x), IntV(y)];
  }

  /** `some_function(a, b) = a ** 2 + b ** 2 - 2 * a * b`, wrapped by
      `Function`; a non-number raises TypeError. */
  function SomeFunction(args: seq<Value>, kwargs: map<string, Value>): (r: Result<Value>)
    ensures r.Ok? ==> r.value.IntV?
    ensures r.Err? ==> r.error == TypeError
  {
    match Builtins.Bind(Builtins.BINARY, args, kwargs)
    case Err(e) => Err(e)
    case Ok(vs) =>
      if IsNumber(vs[0]) && IsNumber(vs[1]) then
        var x, y := AsNumber(vs[0]), AsNumber(vs[1]);
        Ok(IntV(x * x + y * y - 2 * x * y))
      else Err(TypeError)
  }

  /** `another_function(a) = a ** 3`, wrapped by `Function`. */
  function AnotherFunction(args: seq<Value>, kwargs: map<string, Value>): (r: Result<Value>)
    ensures r.Ok? ==> r.value.IntV?
    ensures r.Err? ==> r.error == TypeError
  {
    match Builtins.Bind(Builtins.UNARY, args, kwargs)
    case Err(e) => Err(e)
    case Ok(vs) => if IsNumber(vs[0]) then Ok(IntV(AsNumber(vs[0]) * AsNumber(vs[0]) * AsNumber(vs[0]))) else Err(TypeError)
  }

  lemma SomeInts(x: int, y: int)
    ensures SomeFunction([IntV(x), IntV(y)], map[]) == Ok(IntV(x * x + y * y - 2 * x * y))
  {
    var bound := Builtins.Bind(Builtins.BINARY, [IntV(x), IntV(y)], map[]);
    assert bound.Ok? && bound.value == [IntV(x), IntV(y)];
  }

  lemma AnotherInt(x: int)
    ensures AnotherFunction([IntV(x)], map[]) == Ok(IntV(x * x * x))
  {
    var bound := Builtins.Bind(Builtins.UNARY, [IntV(x)], map[]);
    assert bound.Ok? && bound.value == [IntV(x)];
  }

  /** `a < b` on two integers, as the Lt operator computes it. */
  lemma LtInts(x: int, y: int)
    ensures Builtins.LtBody([IntV(x), IntV(y)], map[]) == Ok(BoolV(x < y))
  {
    Builtins.BinaryOperators(IntV(x), IntV(y));
  }

  /** `not a` on a boolean, as the Not operator computes it. */
  lemma NotBools(x: bool)
    ensures Builtins.NotBody([BoolV(x)], map[]) == Ok(BoolV(!x))
  {
    Builtins.UnaryOperators(BoolV(x));
  }

  /** `bool(a)` on an integer, as the Bool operator computes it. */
  lemma BoolInts(x: int)
    ensures Builtins.BoolBody([IntV(x)], map[]) == Ok(BoolV(x != 0))
  {
    Builtins.UnaryOperators(IntV(x));
  }

  /** A node over two positional arguments pulls their timestamps in order. */
  lemma TwoStamps(e: Exec)
    requires e.Valid() && |e.args| == 2 && e.kwargs == []
    ensures e.Deps() == e.args
    ensures e.Newest() ==
      if e.DepStamp(e.args[0]).Err? then Err(e.DepStamp(e.args[0]).error)
      else if e.DepStamp(e.args[1]).Err? then Err(e.DepStamp(e.args[1]).error)
      else Ok(Max(Max(e.func.stamp, e.DepStamp(e.args[0]).value), e.DepStamp(e.args[1]).value))
  {
    assert KwNodes([]) == [];
    assert e.Deps() == e.args;
    assert e.NewestUpTo(0) == Ok(e.func.stamp);
    assert e.NewestUpTo(1) == if e.DepStamp(e.args[0]).Err? then Err(e.DepStamp(e.args[0]).error)
                             else Ok(Max(e.func.stamp, e.DepStamp(e.args[0]).value));
  }

  /** A node over two positional arguments reads their values in order and
      calls its function on them. */
  lemma TwoValues(e: Exec)
    requires e.Valid() && |e.args| == 2 && e.kwargs == []
    ensures e.ValuesUpTo(2) ==
      if e.DepValue(e.args[0]).Err? then Err(e.DepValue(e.args[0]).error)
      else if e.DepValue(e.args[1]).Err? then Err(e.DepValue(e.args[1]).error)
      else Ok([e.DepValue(e.args[0]).value, e.DepValue(e.args[1]).value])
    ensures e.ValuesUpTo(2).Ok? ==> e.Apply() == e.func.body(e.ValuesUpTo(2).value, map[])
  {
    assert KwNodes([]) == [];
    assert e.Deps() == e.args;
    assert e.ValuesUpTo(0) == Ok([]);
    var v0, v1 := e.DepValue(e.args[0]), e.DepValue(e.args[1]);
    if v0.Ok? {
      assert [] + [v0.value] == [v0.value];
      assert e.ValuesUpTo(1) == Ok([v0.value]);
      if v1.Ok? {
        assert [v0.value] + [v1.value] == [v0.value, v1.value];
      }
    }
    if e.ValuesUpTo(2).Ok? {
      var vs := e.ValuesUpTo(2).value;
      assert vs[..2] == vs && vs[2..] == [];
    }
  }

  /** A node `f(a, b)` over two Variables: what a read of it leaves and yields. */
  lemma OverVariables(e: Exec, a: Variable, b: Variable)
    requires e.Valid() && e.args == [VarDep(a), VarDep(b)] && e.kwargs == []
    ensures e.Below == ExecsOf(e.Deps()) ==> e.Below == {}
    ensures var n := Max(Max(e.func.stamp, a.updatedAt), b.updatedAt);
      && e.Newest() == Ok(n)
      && (e.Invokes() <==> Stale(e.cachedAt, n))
      && e.Settle() == if !Stale(e.cachedAt, n) then Ok(e.State())
                       else match e.func.body([a.value, b.value], map[])
                            case Err(x) => Err(x)
                            case Ok(v) => Ok(CacheState(Some(n), Some(v)))
  {
    TwoStamps(e);
    TwoValues(e);
    ReachableFromDeps(e.Deps());
  }

  /** `value` on a node `f(a, b)` over two Variables, in closed form, where
      `v` is what the function gives on the current values: the function is
      invoked exactly when the node has no generation yet or f, a or b is
      newer than it, and the generation then becomes the newest of the three
      timestamps; otherwise the cached result is returned. */
  method ValueOverVariables(e: Exec, a: Variable, b: Variable, ghost v: Result<Value>) returns (r: Result<Value>)
    requires e.Valid() && e.args == [VarDep(a), VarDep(b)] && e.kwargs == [] && e.Below == ExecsOf(e.Deps())
    requires e.func.body([a.value, b.value], map[]) == v
    modifies e
    ensures var n := Max(Max(e.func.stamp, a.updatedAt), b.updatedAt);
      if Stale(old(e.cachedAt), n) then
        && r == v
        && e.calls == old(e.calls) + 1
        && e.State() == (if v.Ok? then CacheState(Some(n), Some(v.value)) else old(e.State()))
      else
        && r == (if old(e.cached).Some? then Ok(old(e.cached).value) else Err(AttributeError))
        && e.State() == old(e.State()) && e.calls == old(e.calls)
  {
    OverVariables(e, a, b);
    r := e.Value();
  }

  /** `updated_at` on a node `f(a, b)` over two Variables, in closed form. */
  method StampOverVariables(e: Exec, a: Variable, b: Variable, ghost v: Result<Value>) returns (r: Result<nat>)
    requires e.Valid() && e.args == [VarDep(a), VarDep(b)] && e.kwargs == [] && e.Below == ExecsOf(e.Deps())
    requires e.func.body([a.value, b.value], map[]) == v
    modifies e
    ensures var n := Max(Max(e.func.stamp, a.updatedAt), b.updatedAt);
      if Stale(old(e.cachedAt), n) then
        && r == (if v.Ok? then Ok(n) else Err(v.error))
        && e.calls == old(e.calls) + 1
        && e.State() == (if v.Ok? then CacheState(Some(n), Some(v.value)) else old(e.State()))
      else
        && r == Ok(old(e.cachedAt).value)
        && e.State() == old(e.State()) && e.calls == old(e.calls)
  {
    OverVariables(e, a, b);
    r := e.UpdatedAt();
  }

  /** A node `f(a)` over one Variable: what a read of it leaves and yields. */
  lemma OverVariable(e: Exec, a: Variable)
    requires e.Valid() && e.args == [VarDep(a)] && e.kwargs == []
    ensures e.Below == ExecsOf(e.Deps()) ==> e.Below == {}
    ensures var n := Max(e.func.stamp, a.updatedAt);
      && e.Newest() == Ok(n)
      && (e.Invokes() <==> Stale(e.cachedAt, n))
      && e.Settle() == if !Stale(e.cachedAt, n) then Ok(e.State())
                       else match e.func.body([a.value], map[])
                            case Err(x) => Err(x)
                            case Ok(v) => Ok(CacheState(Some(n), Some(v)))
  {
    OneArg(e);
    ReachableFromDeps(e.Deps());
  }

  /** `value` on a node `f(a)` over one Variable, in closed form, where `v`
      is what the function gives on a's current value. */
  method ValueOverVariable(e: Exec, a: Variable, ghost v: Result<Value>) returns (r: Result<Value>)
    requires e.Valid() && e.args == [VarDep(a)] && e.kwargs == [] && e.Below == ExecsOf(e.Deps())
    requires e.func.body([a.value], map[]) == v
    modifies e
    ensures var n := Max(e.func.stamp, a.updatedAt);
      if Stale(old(e.cachedAt), n) then
        && r == v && e.calls == old(e.calls) + 1
        && e.State() == (if v.Ok? then CacheState(Some(n), Some(v.value)) else old(e.State()))
      else
        && r == (if old(e.cached).Some? then Ok(old(e.cached).value) else Err(AttributeError))
        && e.State() == old(e.State()) && e.calls == old(e.calls)
  {
    OverVariable(e, a);
    r := e.Value();
  }

  /** `bool()` of a node `f(a)` over one Variable: the truthiness of what
      `value` gives, in the same closed form. */
  method TruthOverVariable(e: Exec, a: Variable, ghost v: Result<Value>) returns (r: Result<bool>)
    requires e.Valid() && e.args == [VarDep(a)] && e.kwargs == [] && e.Below == ExecsOf(e.Deps())
    requires e.func.body([a.value], map[]) == v
    modifies e
    ensures var n := Max(e.func.stamp, a.updatedAt);
      if Stale(old(e.cachedAt), n) then
        && r == (if v.Ok? then Ok(Truthy(v.value)) else Err(v.error))
        && e.State() == (if v.Ok? then CacheState(Some(n), Some(v.value)) else old(e.State()))
      else
        && r == (if old(e.cached).Some? then Ok(Truthy(old(e.cached).value)) else Err(AttributeError))
        && e.State() == old(e.State())
  {
    OverVariable(e, a);
    r := e.AsBool();
  }

  /** A node over one positional argument. */
  lemma OneArg(e: Exec)
    requires e.Valid() && |e.args| == 1 && e.kwargs == []
    ensures e.Deps() == e.args
    ensures e.Newest() ==
      if e.DepStamp(e.args[0]).Err? then Err(e.DepStamp(e.args[0]).error)
      else Ok(Max(e.func.stamp, e.DepStamp(e.args[0]).value))
    ensures e.ValuesUpTo(1) ==
      if e.DepValue(e.args[0]).Err? then Err(e.DepValue(e.args[0]).error)
      else Ok([e.DepValue(e.args[0]).value])
    ensures e.ValuesUpTo(1).Ok? ==> e.Apply() == e.func.body(e.ValuesUpTo(1).value, map[])
  {
    assert KwNodes([]) == [];
    assert e.Deps() == e.args;
    assert e.NewestUpTo(0) == Ok(e.func.stamp) && e.ValuesUpTo(0) == Ok([]);
    var v0 := e.DepValue(e.args[0]);
    if v0.Ok? {
      assert [] + [v0.value] == [v0.value];
    }
    if e.ValuesUpTo(1).Ok? {
      var vs := e.ValuesUpTo(1).value;
      assert vs[..1] == vs && vs[1..] == [];
    }
  }

  /** `sut = Variable(23)` between clock readings t1 and t2 holds 23 and a
      timestamp between them; `sut.value = 53` between readings t3 and t4
      holds 53 and a timestamp after t2 and between t3 and t4. */
  method VariableHasValue(clock: Clock) returns (v1: Value, s1: nat, v2: Value, s2: nat, t1: nat, t2: nat, t3: nat, t4: nat)
    modifies clock
    ensures v1 == IntV(23) && t1 < s1 < t2
    ensures v2 == IntV(53) && t2 < s2 && t3 < s2 < t4
  {
    t1 := clock.Read();
    var sut := new Variable(IntV(23), clock);
    t2 := clock.Read();
    v1, s1 := sut.value, sut.updatedAt;
    t3 := clock.Read();
    sut.Set(IntV(53), clock);
    t4 := clock.Read();
    v2, s2 := sut.value, sut.updatedAt;
  }

  /** `a = Integer(3); b = Integer(5); f = Add2(); sut = f(a, b)` reads 8. */
  method FunctionExecutesTheProcess() returns (r: Result<Value>)
    ensures r == Ok(IntV(8))
  {
    var clock := new Clock();
    var a := new Variable(IntV(3), clock);
    var b := new Variable(IntV(5), clock);
    var f := new Function(Add2, clock);
    var sut := f.Call([VarDep(a), VarDep(b)], [], clock);
    Add2Ints(3, 5);
    r := ValueOverVariables(sut, a, b, Ok(IntV(8)));
  }

  /** Two reads of a node's `value` with no Variable set in between. When
      the first succeeds, the second yields the same value and invokes no
      function at all, so over both reads the node and every node below it
      invoke their function at most once: exactly when a read at the start
      would have. */
  method ReadAgain(y: Exec) returns (r1: Result<Value>, r2: Result<Value>)
    requires y.Valid()
    modifies y, y.Below
    ensures r1 == old(y.ReadValue())
    ensures r1.Ok? ==> r2 == r1 && y.calls == old(y.calls) + (if old(y.Invokes()) then 1 else 0)
    ensures r1.Ok? ==> forall z <- y.Below :: old(z.Settle()).Ok? && z.State() == old(z.Settle()).value
    ensures r1.Ok? ==> forall z <- y.Below :: z.calls == old(z.calls) + (if old(z.Invokes()) then 1 else 0)
  {
    r1 := y.Value();
    Stable(y);
    label Mid:
    r2 := y.Value();
    if r1.Ok? {
      forall z | z in y.Below
        ensures old(z.Settle()).Ok? && z.State() == old(z.Settle()).value
        ensures z.calls == old(z.calls) + (if old(z.Invokes()) then 1 else 0)
      {
        assert Counted@Mid(z);
      }
    }
  }

  /** `f = Add2(); a = Variable(x); b = Variable(y); sut = f(a, b)`. */
  method NewSum(x: int, y: int, clock: Clock) returns (a: Variable, b: Variable, sut: Exec)
    modifies clock
    ensures fresh(a) && fresh(b) && fresh(sut)
    ensures a.value == IntV(x) && b.value == IntV(y) && sut.func.stamp < a.updatedAt < b.updatedAt <= clock.now
    ensures sut.Valid() && sut.func.body == Add2 && sut.args == [VarDep(a), VarDep(b)] && sut.kwargs == []
    ensures sut.State() == CacheState(None, None) && sut.calls == 0 && sut.Below == ExecsOf(sut.Deps())
  {
    var f := new Function(Add2, clock);
    a := new Variable(IntV(x), clock);
    b := new Variable(IntV(y), clock);
    sut := f.Call([VarDep(a), VarDep(b)], [], clock);
  }

  /** `sut = f(a, b)` with a = 3 and b = 5 reads 8; after `a.value = 4` it
      reads 9, and its `updated_at` is then a's timestamp. */
  method FunctionUpdatesTheResult(clock: Clock) returns (before: Result<Value>, after: Result<Value>,
                                                           stamp: Result<nat>, setAt: nat)
    modifies clock
    ensures before == Ok(IntV(8)) && after == Ok(IntV(9)) && stamp == Ok(setAt)
  {
    var a, b, sut := NewSum(3, 5, clock);
    Add2Ints(3, 5);
    before := ValueOverVariables(sut, a, b, Ok(IntV(8)));
    a.Set(IntV(4), clock);
    setAt := a.updatedAt;
    Add2Ints(4, 5);
    after := ValueOverVariables(sut, a, b, Ok(IntV(9)));
    stamp := StampOverVariables(sut, a, b, Ok(IntV(9)));
  }

  /** The call count of `f(a, b)`: none before the first read, one after
      it, still one after a second read, two after `a.value = 4` and a
      third read. */
  method RecalculateOnlyIfArgumentUpdated(clock: Clock)
    returns (first: Result<Value>, second: Result<Value>, third: Result<Value>,
             ghost c0: nat, ghost c1: nat, ghost c2: nat, ghost c3: nat)
    modifies clock
    ensures first == Ok(IntV(8)) && second == Ok(IntV(8)) && third == Ok(IntV(9))
    ensures c0 == 0 && c1 == 1 && c2 == 1 && c3 == 2
  {
    var a, b, sut := NewSum(3, 5, clock);
    c0 := sut.calls;
    Add2Ints(3, 5);
    first := ValueOverVariables(sut, a, b, Ok(IntV(8)));
    c1 := sut.calls;
    second := ValueOverVariables(sut, a, b, Ok(IntV(8)));
    c2 := sut.calls;
    a.Set(IntV(4), clock);
    Add2Ints(4, 5);
    third := ValueOverVariables(sut, a, b, Ok(IntV(9)));
    c3 := sut.calls;
  }

  /** A node `f(a, c)` over a Variable and a fresh node `c = f(a, b)`:
      reading it first settles c. */
  lemma OverVariableAndNode(e: Exec, a: Variable, c: Exec, b: Variable)
    requires e.Valid() && e.args == [VarDep(a), ExecDep(c)] && e.kwargs == []
    requires c.Valid() && c.args == [VarDep(a), VarDep(b)] && c.kwargs == [] && c.Below == ExecsOf(c.Deps())
    requires c.State() == CacheState(None, None) && e.func == c.func
    ensures e.Below == ExecsOf(e.Deps()) ==> e.Below == {c}
    ensures var nc := Max(Max(c.func.stamp, a.updatedAt), b.updatedAt);
      var inner := c.func.body([a.value, b.value], map[]);
      inner.Ok? ==>
        && c.ReadValue() == inner && c.ReadStamp() == Ok(nc)
        && e.Newest() == Ok(Max(Max(e.func.stamp, a.updatedAt), nc))
        && (e.State() == CacheState(None, None) ==>
              e.ReadValue() == match e.func.body([a.value, inner.value], map[])
                               case Err(x) => Err(x) case Ok(v) => Ok(v))
  {
    OverVariables(c, a, b);
    TwoStamps(e);
    TwoValues(e);
    ReachableFromDeps(e.Deps());
  }

  /** `c = f(a, b)` and `sut = f(a, c)` with a = 3 and b = 5: reading sut
      gives 3 + (3 + 5). */
  method ExecutesRecursively() returns (r: Result<Value>)
    ensures r == Ok(IntV(11))
  {
    var clock := new Clock();
    var f := new Function(Add2, clock);
    var a := new Variable(IntV(3), clock);
    var b := new Variable(IntV(5), clock);
    var c := f.Call([VarDep(a), VarDep(b)], [], clock);
    var sut := f.Call([VarDep(a), ExecDep(c)], [], clock);
    Add2Ints(3, 5);
    Add2Ints(3, 8);
    OverVariableAndNode(sut, a, c, b);
    r := sut.Value();
  }

  /** A node `g(c, b)` whose first argument is a node `c = h(a)` over a
      Variable that is due to recompute: what a read of it leaves and yields. */
  lemma OverNodeAndVariable(e: Exec, c: Exec, a: Variable, b: Variable)
    requires e.Valid() && e.args == [ExecDep(c), VarDep(b)] && e.kwargs == []
    requires c.Valid() && c.args == [VarDep(a)] && c.kwargs == [] && c.Below == ExecsOf(c.Deps())
    requires Stale(c.cachedAt, Max(c.func.stamp, a.updatedAt))
    ensures e.Below == ExecsOf(e.Deps()) ==> e.Below == {c}
    ensures var nc := Max(c.func.stamp, a.updatedAt);
      var inner := c.func.body([a.value], map[]);
      inner.Ok? ==>
        && c.Settle() == Ok(CacheState(Some(nc), Some(inner.value)))
        && var n := Max(Max(e.func.stamp, nc), b.updatedAt);
           && e.Newest() == Ok(n)
           && e.Settle() == if !Stale(e.cachedAt, n) then Ok(e.State())
                            else match e.func.body([inner.value, b.value], map[])
                                 case Err(x) => Err(x)
                                 case Ok(v) => Ok(CacheState(Some(n), Some(v)))
  {
    OverVariable(c, a);
    TwoStamps(e);
    TwoValues(e);
    ReachableFromDeps(e.Deps());
  }

  /** `value` on `g(c, b)` with `c = h(a)` due to recompute, where `u` is
      what h gives on a's value and `v` what g gives on u and b's value:
      the read yields v whenever g's node is older than the newest of g, h,
      a and b; each node keeps its generation or takes that newest one. */
  method ValueOverNodeAndVariable(e: Exec, c: Exec, a: Variable, b: Variable, ghost u: Value, ghost v: Result<Value>)
    returns (r: Result<Value>)
    requires e.Valid() && e.args == [ExecDep(c), VarDep(b)] && e.kwargs == [] && e.Below == ExecsOf(e.Deps())
    requires c.Valid() && c.args == [VarDep(a)] && c.kwargs == [] && c.Below == ExecsOf(c.Deps())
    requires Stale(c.cachedAt, Max(c.func.stamp, a.updatedAt))
    requires c.func.body([a.value], map[]) == Ok(u) && e.func.body([u, b.value], map[]) == v
    modifies e, c
    ensures var n := Max(Max(e.func.stamp, Max(c.func.stamp, a.updatedAt)), b.updatedAt);
      && (Stale(old(e.cachedAt), n) ==> r == v)
      && (e.cachedAt == old(e.cachedAt) || e.cachedAt == Some(n))
    ensures c.cachedAt == old(c.cachedAt) || c.cachedAt == Some(Max(c.func.stamp, a.updatedAt))
  {
    OverNodeAndVariable(e, c, a, b);
    r := e.Value();
  }

  /** How the chain of test_function_function is wired: `c = h(a)`,
      `sut1 = g(a, b)` and `sut2 = g(c, b)` with g `some_function` and h
      `another_function`. */
  ghost predicate ChainShape(a: Variable, b: Variable, c: Exec, sut1: Exec, sut2: Exec) {
    && a != b && sut1 != sut2 && sut1 != c && sut2 != c
    && c.Valid() && c.func.body == AnotherFunction
    && c.args == [VarDep(a)] && c.kwargs == [] && c.Below == ExecsOf(c.Deps())
    && sut1.Valid() && sut1.func.body == SomeFunction
    && sut1.args == [VarDep(a), VarDep(b)] && sut1.kwargs == [] && sut1.Below == ExecsOf(sut1.Deps())
    && sut2.Valid() && sut2.func == sut1.func
    && sut2.args == [ExecDep(c), VarDep(b)] && sut2.kwargs == [] && sut2.Below == ExecsOf(sut2.Deps())
  }

  /** `lazy_a = Integer(2); lazy_b = Integer(3); lazy_c = h(lazy_a);
      sut1 = g(lazy_a, lazy_b); sut2 = g(lazy_c, lazy_b)`. */
  method NewChain(clock: Clock) returns (a: Variable, b: Variable, c: Exec, sut1: Exec, sut2: Exec)
    modifies clock
    ensures fresh(a) && fresh(b) && fresh(c) && fresh(sut1) && fresh(sut2) && ChainShape(a, b, c, sut1, sut2)
    ensures a.value == IntV(2) && b.value == IntV(3) && a.updatedAt <= clock.now && b.updatedAt <= clock.now
    ensures c.func.stamp <= clock.now && sut1.func.stamp <= clock.now
    ensures c.cachedAt.None? && sut1.cachedAt.None? && sut2.cachedAt.None?
  {
    a := new Variable(IntV(2), clock);
    b := new Variable(IntV(3), clock);
    var g := new Function(SomeFunction, clock);
    var h := new Function(AnotherFunction, clock);
    c := h.Call([VarDep(a)], [], clock);
    sut1 := g.Call([VarDep(a), VarDep(b)], [], clock);
    sut2 := g.Call([ExecDep(c), VarDep(b)], [], clock);
  }

  /** Reading `sut1.value` then `sut2.value` with lazy_a = x and lazy_b = 3,
      when every node of the chain is older than lazy_a: they give g(x, 3)
      and g(h(x), 3), and every generation left is no later than `t`, a
      bound on the timestamps of the chain's functions and Variables. */
  method ReadChain(a: Variable, b: Variable, c: Exec, sut1: Exec, sut2: Exec, x: int, ghost t: nat)
    returns (r1: Result<Value>, r2: Result<Value>)
    requires ChainShape(a, b, c, sut1, sut2) && a.value == IntV(x) && b.value == IntV(3)
    requires a.updatedAt <= t && b.updatedAt <= t && c.func.stamp <= t && sut1.func.stamp <= t
    requires c.cachedAt.None? || c.cachedAt.value < a.updatedAt
    requires sut1.cachedAt.None? || sut1.cachedAt.value < a.updatedAt
    requires sut2.cachedAt.None? || sut2.cachedAt.value < a.updatedAt
    modifies c, sut1, sut2
    ensures var u := x * x * x;
      r1 == Ok(IntV(x * x + 9 - 6 * x)) && r2 == Ok(IntV(u * u + 9 - 6 * u))
    ensures c.cachedAt.None? || c.cachedAt.value <= t
    ensures sut1.cachedAt.None? || sut1.cachedAt.value <= t
    ensures sut2.cachedAt.None? || sut2.cachedAt.value <= t
  {
    SomeInts(x, 3);
    r1 := ValueOverVariables(sut1, a, b, Ok(IntV(x * x + 9 - 6 * x)));
    var u := x * x * x;
    AnotherInt(x);
    SomeInts(u, 3);
    r2 := ValueOverNodeAndVariable(sut2, c, a, b, IntV(u), Ok(IntV(u * u + 9 - 6 * u)));
  }

  /** Over lazy_a = 2 and lazy_b = 3, `sut1 = g(lazy_a, lazy_b)` reads
      g(2, 3) = 1 and `sut2 = g(h(lazy_a), lazy_b)` reads g(8, 3) = 25; once
      `lazy_a.value = 4`, sut1 reads g(4, 3) = 1 and sut2 no longer reads 25
      but g(h(4), 3) = 3721. */
  method FunctionFunction(clock: Clock) returns (r1: Result<Value>, r2: Result<Value>, r3: Result<Value>, r4: Result<Value>)
    modifies clock
    ensures r1 == Ok(IntV(1)) && r2 == Ok(IntV(25))
    ensures r3 == Ok(IntV(1)) && r4 != r2 && r4 == Ok(IntV(3721))
  {
    var a, b, c, sut1, sut2 := NewChain(clock);
    r1, r2 := ReadChain(a, b, c, sut1, sut2, 2, clock.now);
    a.Set(IntV(4), clock);
    r3, r4 := ReadChain(a, b, c, sut1, sut2, 4, clock.now);
  }

  /** `sut = a < b` over fresh Variables a = x and b = y, read once. */
  method LessThan(x: int, y: int, ops: Operators, clock: Clock) returns (r: Result<Value>)
    requires ops.Valid() && ops.StampedBy(clock.now)
    modifies clock
    ensures r == Ok(BoolV(x < y)) && clock.now > old(clock.now)
  {
    var a := new Variable(IntV(x), clock);
    var b := new Variable(IntV(y), clock);
    var sut := a.Lt(VarDep(b), ops, clock);
    LtInts(x, y);
    r := ValueOverVariables(sut, a, b, Ok(BoolV(x < y)));
  }

  /** `sut = a > b` over fresh Variables a = x and b = y, read once. */
  method GreaterThan(x: int, y: int, ops: Operators, clock: Clock) returns (r: Result<Value>)
    requires ops.Valid() && ops.StampedBy(clock.now)
    modifies clock
    ensures r == Ok(BoolV(y < x)) && clock.now > old(clock.now)
  {
    var a := new Variable(IntV(x), clock);
    var b := new Variable(IntV(y), clock);
    var sut := a.Gt(b, ops, clock);
    LtInts(y, x);
    r := ValueOverVariables(sut, b, a, Ok(BoolV(y < x)));
  }

  /** 3 < 4 reads true. */
  method LtReturnsTrueIfALtB(ops: Operators, clock: Clock) returns (r: Result<Value>)
    requires ops.Valid() && ops.StampedBy(clock.now)
    modifies clock
    ensures r == Ok(BoolV(true))
  {
    r := LessThan(3, 4, ops, clock);
  }

  /** 4 < 4 and 5 < 4, each on fresh Variables, read false. */
  method LtReturnsFalseIfNotALtB(ops: Operators, clock: Clock) returns (r1: Result<Value>, r2: Result<Value>)
    requires ops.Valid() && ops.StampedBy(clock.now)
    modifies clock
    ensures r1 == Ok(BoolV(false)) && r2 == Ok(BoolV(false))
  {
    r1 := LessThan(4, 4, ops, clock);
    r2 := LessThan(5, 4, ops, clock);
  }

  /** 5 > 4 reads true. */
  method GtReturnsTrueIfAGtB(ops: Operators, clock: Clock) returns (r: Result<Value>)
    requires ops.Valid() && ops.StampedBy(clock.now)
    modifies clock
    ensures r == Ok(BoolV(true))
  {
    r := GreaterThan(5, 4, ops, clock);
  }

  /** 4 > 4 and 3 > 4, each on fresh Variables, read false. */
  method GtReturnsFalseIfNotAGtB(ops: Operators, clock: Clock) returns (r1: Result<Value>, r2: Result<Value>)
    requires ops.Valid() && ops.StampedBy(clock.now)
    modifies clock
    ensures r1 == Ok(BoolV(false)) && r2 == Ok(BoolV(false))
  {
    r1 := GreaterThan(4, 4, ops, clock);
    r2 := GreaterThan(3, 4, ops, clock);
  }

  /** `sut = a < b` with a = 3 and b = 4 reads true, and false once
      `a.value = 4`. */
  method LtChangesItsValue(ops: Operators, clock: Clock) returns (before: Result<Value>, after: Result<Value>)
    requires ops.Valid() && ops.StampedBy(clock.now)
    modifies clock
    ensures before == Ok(BoolV(true)) && after == Ok(BoolV(false))
  {
    var a := new Variable(IntV(3), clock);
    var b := new Variable(IntV(4), clock);
    var sut := a.Lt(VarDep(b), ops, clock);
    LtInts(3, 4);
    before := ValueOverVariables(sut, a, b, Ok(BoolV(true)));
    a.Set(IntV(4), clock);
    LtInts(4, 4);
    after := ValueOverVariables(sut, a, b, Ok(BoolV(false)));
  }

  /** `sut = a > b` over a = 3 and b = 4, read once: it is false. */
  method NewGreater(ops: Operators, clock: Clock) returns (a: Variable, b: Variable, sut: Exec, first: Result<Value>)
    requires ops.Valid() && ops.StampedBy(clock.now)
    modifies clock
    ensures fresh(a) && fresh(b) && fresh(sut) && a != b && first == Ok(BoolV(false))
    ensures a.value == IntV(3) && b.value == IntV(4) && sut.func.stamp <= clock.now && b.updatedAt <= clock.now
    ensures sut.Valid() && sut.func == ops.lt && sut.args == [VarDep(b), VarDep(a)] && sut.kwargs == []
    ensures sut.Below == ExecsOf(sut.Deps()) && sut.cachedAt.Some? && sut.cachedAt.value <= clock.now
  {
    a := new Variable(IntV(3), clock);
    b := new Variable(IntV(4), clock);
    sut := a.Gt(b, ops, clock);
    LtInts(4, 3);
    first := ValueOverVariables(sut, b, a, Ok(BoolV(false)));
  }

  /** `sut = a > b` is `Lt(b, a)`: with a = 3 and b = 4 it reads false,
      true once `a.value = 5`, and false again once `a.value = 4`. */
  method GtChangesItsValue(ops: Operators, clock: Clock)
    returns (first: Result<Value>, second: Result<Value>, third: Result<Value>)
    requires ops.Valid() && ops.StampedBy(clock.now)
    modifies clock
    ensures first == Ok(BoolV(false)) && second == Ok(BoolV(true)) && third == Ok(BoolV(false))
  {
    var a, b, sut;
    a, b, sut, first := NewGreater(ops, clock);
    a.Set(IntV(5), clock);
    LtInts(4, 5);
    second := ValueOverVariables(sut, b, a, Ok(BoolV(true)));
    assert sut.cachedAt == Some(clock.now);
    a.Set(IntV(4), clock);
    LtInts(4, 4);
    third := ValueOverVariables(sut, b, a, Ok(BoolV(false)));
  }

  /** A node over a Variable and a plain value pulls `updated_at` from it. */
  lemma OverVariableAndRaw(e: Exec, a: Variable, x: Value)
    requires e.Valid() && e.args == [VarDep(a), RawDep(x)] && e.kwargs == []
    ensures e.Below == ExecsOf(e.Deps()) ==> e.Below == {}
    ensures e.ReadValue() == Err(AttributeError) && e.ReadStamp() == Err(AttributeError)
  {
    TwoStamps(e);
    TwoValues(e);
    ReachableFromDeps(e.Deps());
  }

  /** `a < 4` compares a Variable with a plain value: the comparison methods
      do not wrap it into a node, so the read raises AttributeError. */
  method PlainOperandRaises(ops: Operators, clock: Clock) returns (r: Result<Value>)
    modifies clock
    ensures r == Err(AttributeError)
  {
    var a := new Variable(IntV(3), clock);
    var sut := a.Lt(RawDep(IntV(4)), ops, clock);
    OverVariableAndRaw(sut, a, IntV(4));
    r := sut.Value();
  }

  /** `sut = Not(a)` with a = True reads False, and True once
      `a.value = False`. */
  method NotChangesItsValue(ops: Operators, clock: Clock) returns (before: Result<Value>, after: Result<Value>)
    requires ops.Valid() && ops.StampedBy(clock.now)
    modifies clock
    ensures before == Ok(BoolV(false)) && after == Ok(BoolV(true))
  {
    var a := new Variable(BoolV(true), clock);
    var sut := ops.negation.Call([VarDep(a)], [], clock);
    NotBools(true);
    before := ValueOverVariable(sut, a, Ok(BoolV(false)));
    a.Set(BoolV(false), clock);
    NotBools(false);
    after := ValueOverVariable(sut, a, Ok(BoolV(true)));
  }

  /** `bool(a)` of a Variable raises TypeError. */
  method DirectBoolRaises(clock: Clock) returns (r: Result<bool>)
    modifies clock
    ensures r == Err(TypeError)
  {
    var a := new Variable(IntV(123), clock);
    r := a.AsBool();
  }

  /** `bool(Bool(a))` with a = 0 is False, and True once `a.value = 1`. */
  method IfStatementAcceptsBoolObject(ops: Operators, clock: Clock) returns (before: Result<bool>, after: Result<bool>)
    requires ops.Valid() && ops.StampedBy(clock.now)
    modifies clock
    ensures before == Ok(false) && after == Ok(true)
  {
    var a := new Variable(IntV(0), clock);
    var sut := ops.truth.Call([VarDep(a)], [], clock);
    BoolInts(0);
    before := TruthOverVariable(sut, a, Ok(BoolV(false)));
    a.Set(IntV(1), clock);
    BoolInts(1);
    after := TruthOverVariable(sut, a, Ok(BoolV(true)));
  }

  /** The list of keyed elements a, b and, when present, c as the
      enumerator sees it, and the map `{key: updated_at}` built from it. */
  function Items(ta: nat, tb: nat, tc: Option<nat>): seq<Item<string>> {
    [Item("a", ta), Item("b", tb)] + (if tc.Some? then [Item("c", tc.value)] else [])
  }

  function Stamps(ta: nat, tb: nat, tc: Option<nat>): map<string, nat> {
    if tc.Some? then map["a" := ta, "b" := tb, "c" := tc.value] else map["a" := ta, "b" := tb]
  }

  /** The list's keys are the map's. */
  lemma ItemKeys(ta: nat, tb: nat, tc: Option<nat>)
    ensures KeysOf(Items(ta, tb, tc)) == Stamps(ta, tb, tc).Keys
  {
    var src := Items(ta, tb, tc);
    assert src[..1] == [Item("a", ta)] && src[..1][..0] == [];
    assert src[..2] == [Item("a", ta), Item("b", tb)] && src[..2][..1] == src[..1];
    if tc.Some? {
      assert src[..|src| - 1] == src[..2];
    } else {
      assert src == src[..2];
    }
    assert KeysOf(src[..1]) == {"a"};
    assert KeysOf(src[..2]) == {"a", "b"};
  }

  /** The aggregate an enumerator computes from its initial map is the
      timestamp of the key that holds the newest one. */
  lemma NewestInitial(m: map<string, nat>, k0: string, v: nat)
    requires k0 in m && forall k <- m.Keys :: m[k] <= m[k0]
    requires v in m.Values && forall k <- m.Keys :: m[k] <= v
    ensures v == m[k0]
  {
  }

  /** Reading over the elements it was built from changes nothing. */
  lemma ReadUnchanged(ta: nat, tb: nat, tc: Option<nat>, at: Option<nat>, now: nat)
    ensures Reconcile(Stamps(ta, tb, tc), at, now, Items(ta, tb, tc))
            == Reconciled(Stamps(ta, tb, tc), at, now, [], [], {})
  {
    var src := Items(ta, tb, tc);
    ItemKeys(ta, tb, tc);
    ReconcileQuiet(Stamps(ta, tb, tc), at, now, src);
  }

  /** The scan over [a, b, c] once a's timestamp is newer: `update` on a alone. */
  lemma ScanAfterUpdate(ta: nat, ta': nat, tb: nat, tc: nat, at: Option<nat>, now: nat)
    requires ta < ta'
    ensures Scan(Stamps(ta, tb, Some(tc)), at, now, Items(ta', tb, Some(tc)))
            == Scanned(Stamps(ta', tb, Some(tc)), Raise(at, ta'), now, [], [Item("a", ta')])
  {
    var m := Stamps(ta, tb, Some(tc));
    var src := Items(ta', tb, Some(tc));
    var s := Scanned(Stamps(ta', tb, Some(tc)), Raise(at, ta'), now, [], [Item("a", ta')]);
    assert Scan(m, at, now, src[..1]) == s by {
      ScanStep(m, at, now, src, 0);
      assert src[..0] == [];
      assert m["a" := ta'] == s.snap;
    }
    assert Scan(m, at, now, src[..2]) == s by {
      ScanStep(m, at, now, src, 1);
    }
    ScanStep(m, at, now, src, 2);
    assert src[..3] == src;
  }

  /** Once a's timestamp is newer, a read calls `update` on a alone and
      raises the aggregate to a's new timestamp. */
  lemma ReadAfterUpdate(ta: nat, ta': nat, tb: nat, tc: nat, at: Option<nat>, now: nat)
    requires ta < ta'
    ensures Reconcile(Stamps(ta, tb, Some(tc)), at, now, Items(ta', tb, Some(tc)))
            == Reconciled(Stamps(ta', tb, Some(tc)), Raise(at, ta'), now, [], [Item("a", ta')], {})
  {
    ScanAfterUpdate(ta, ta', tb, tc, at, now);
    ItemKeys(ta', tb, Some(tc));
    assert Stamps(ta, tb, Some(tc)).Keys == Stamps(ta', tb, Some(tc)).Keys;
    assert Stamps(ta', tb, Some(tc)) - {} == Stamps(ta', tb, Some(tc));
  }

  /** The scan over [a, b, c] when c is new: `enter` on c alone. */
  lemma ScanAfterAddition(ta: nat, tb: nat, tc: nat, at: Option<nat>, now: nat)
    ensures Scan(Stamps(ta, tb, None), at, now, Items(ta, tb, Some(tc)))
            == Scanned(Stamps(ta, tb, Some(tc)), Raise(at, now + 1), now + 1, [Item("c", tc)], [])
  {
    var m := Stamps(ta, tb, None);
    var src := Items(ta, tb, Some(tc));
    var s := Scanned(m, at, now, [], []);
    assert Scan(m, at, now, src[..1]) == s by {
      ScanStep(m, at, now, src, 0);
      assert src[..0] == [];
    }
    assert Scan(m, at, now, src[..2]) == s by {
      ScanStep(m, at, now, src, 1);
    }
    ScanStep(m, at, now, src, 2);
    assert src[..3] == src;
    assert m["c" := tc] == Stamps(ta, tb, Some(tc));
  }

  /** Once c joins the list, a read calls `enter` on c alone and raises
      the aggregate to a fresh clock reading. */
  lemma ReadAfterAddition(ta: nat, tb: nat, tc: nat, at: Option<nat>, now: nat)
    ensures Reconcile(Stamps(ta, tb, None), at, now, Items(ta, tb, Some(tc)))
            == Reconciled(Stamps(ta, tb, Some(tc)), Raise(at, now + 1), now + 1, [Item("c", tc)], [], {})
  {
    ScanAfterAddition(ta, tb, tc, at, now);
    ItemKeys(ta, tb, Some(tc));
    assert Stamps(ta, tb, None).Keys - Stamps(ta, tb, Some(tc)).Keys == {};
    assert Stamps(ta, tb, Some(tc)) - {} == Stamps(ta, tb, Some(tc));
  }

  /** `sut.updated_at` over the list it was built from. */
  method ReadUnchangedList(sut: Enumerator<string>, ta: nat, tb: nat, tc: Option<nat>, clock: Clock)
    returns (r: Option<nat>)
    requires sut.snapshot == Stamps(ta, tb, tc)
    modifies sut, clock
    ensures r == old(sut.updatedAt) && sut.updatedAt == r && sut.snapshot == old(sut.snapshot)
    ensures clock.now == old(clock.now)
  {
    ReadUnchanged(ta, tb, tc, sut.updatedAt, clock.now);
    r := sut.UpdatedAt(Items(ta, tb, tc), clock);
  }

  /** `sut.updated_at` once a's timestamp has grown to ta'. */
  method ReadUpdatedList(sut: Enumerator<string>, ghost ta: nat, ta': nat, tb: nat, tc: nat, clock: Clock)
    returns (r: Option<nat>)
    requires sut.snapshot == Stamps(ta, tb, Some(tc)) && ta < ta'
    modifies sut, clock
    ensures r == Raise(old(sut.updatedAt), ta') && sut.updatedAt == r && sut.snapshot == Stamps(ta', tb, Some(tc))
    ensures clock.now == old(clock.now)
  {
    ReadAfterUpdate(ta, ta', tb, tc, sut.updatedAt, clock.now);
    r := sut.UpdatedAt(Items(ta', tb, Some(tc)), clock);
  }

  /** `sut.updated_at` once c has joined the list. */
  method ReadGrownList(sut: Enumerator<string>, ta: nat, tb: nat, tc: nat, clock: Clock)
    returns (r: Option<nat>)
    requires sut.snapshot == Stamps(ta, tb, None)
    modifies sut, clock
    ensures r == Raise(old(sut.updatedAt), old(clock.now) + 1) && sut.updatedAt == r
    ensures sut.snapshot == Stamps(ta, tb, Some(tc)) && clock.now == old(clock.now) + 1
  {
    ReadAfterAddition(ta, tb, tc, sut.updatedAt, clock.now);
    ghost var R := Reconciled(Stamps(ta, tb, Some(tc)), Raise(sut.updatedAt, clock.now + 1), clock.now + 1,
                              [Item("c", tc)], [], {});
    assert Reconcile(sut.snapshot, sut.updatedAt, clock.now, Items(ta, tb, Some(tc))) == R;
    r := sut.UpdatedAt(Items(ta, tb, Some(tc)), clock);
    assert sut.updatedAt == R.at && clock.now == R.now && sut.snapshot == R.snap;
  }

  /** Over the list [a, b, c] of elements created in that order, an
      enumerator starts at c's timestamp, the newest; after `a.value` is
      set it reports a's new timestamp. */
  method EnumeratorDetectsMemberUpdate(a: Variable, b: Variable, c: Variable, clock: Clock)
    returns (start: Option<nat>, after: Option<nat>)
    requires a.updatedAt < b.updatedAt < c.updatedAt <= clock.now
    modifies a, clock
    ensures start == Some(c.updatedAt) && after == Some(a.updatedAt)
  {
    var sut := new Enumerator<string>(Stamps(a.updatedAt, b.updatedAt, Some(c.updatedAt)), None);
    assert "a" in sut.snapshot;
    NewestInitial(sut.snapshot, "c", sut.updatedAt.value);
    start := ReadUnchangedList(sut, a.updatedAt, b.updatedAt, Some(c.updatedAt), clock);
    ghost var ta := a.updatedAt;
    a.Set(IntV(1), clock);
    after := ReadUpdatedList(sut, ta, a.updatedAt, b.updatedAt, c.updatedAt, clock);
  }

  /** Over the list [a, b] of elements created in that order, an
      enumerator starts at b's timestamp; once c is appended, it reports a
      time later than a clock reading taken after the append, and reading
      it again after a further clock reading reports the same time, earlier
      than that reading. */
  method EnumeratorDetectsMemberAddition(a: Variable, b: Variable, c: Variable, clock: Clock)
    returns (start: Option<nat>, after: Option<nat>, before: nat, later: nat, again: Option<nat>)
    requires a.updatedAt < b.updatedAt < c.updatedAt <= clock.now
    modifies clock
    ensures start == Some(b.updatedAt)
    ensures after.Some? && before < after.value && again == after && again.value < later
  {
    var sut := new Enumerator<string>(Stamps(a.updatedAt, b.updatedAt, None), None);
    assert "a" in sut.snapshot;
    NewestInitial(sut.snapshot, "b", sut.updatedAt.value);
    start := ReadUnchangedList(sut, a.updatedAt, b.updatedAt, None, clock);
    before := clock.Read();
    after := ReadGrownList(sut, a.updatedAt, b.updatedAt, c.updatedAt, clock);
    later := clock.Read();
    again := ReadUnchangedList(sut, a.updatedAt, b.updatedAt, Some(c.updatedAt), clock);
  }
}
