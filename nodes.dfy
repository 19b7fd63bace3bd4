/** The lazy graph: Function nodes (a callable with a fixed timestamp),
    Variable leaves (a mutable value with a timestamp) and Exec nodes, which
    memoize the application of a Function node to argument nodes and
    recompute on a read only when a dependency is newer than the cache.

    An Exec node's structure (its function, its arguments, the nodes below
    it, its height in the DAG) never changes after construction, so it is
    kept in `const` fields and `Valid()` reads nothing; a read only writes
    the two cache fields `cachedAt` (`_updated_at`) and `cached`
    (`_cached_result`) of the Exec nodes it reaches.

    What a read will do is given, in the current heap, by the ghost
    functions `Settle` (the cache `_try_cache_result` leaves, or the
    exception it raises), `ReadStamp` (`updated_at`) and `ReadValue`
    (`value`). The read methods are proved against them. Because a read
    of one node also refreshes nodes shared with its siblings, each read
    promises `Advanced` of every node it may write, and lemma `Stable`
    shows that such writes never change what any read would produce. */
module Nodes {
  import opened Values
  import opened Clocks
  import Builtins

  /** An argument bound into an Exec node. A plain value is not wrapped into
      a node: reading its `updated_at` or `value` raises AttributeError. */
  datatype Dep = VarDep(v: Variable) | ExecDep(e: Exec) | RawDep(raw: Value)

  /** A keyword argument `name=node`. */
  datatype Kwarg = Kwarg(name: string, node: Dep)

  /** The two cache fields of an Exec node; `result` is None while the
      attribute `_cached_result` has not been assigned. */
  datatype CacheState = CacheState(at: Option<nat>, result: Option<Value>)

  function KwNodes(kwargs: seq<Kwarg>): seq<Dep> {
    seq(|kwargs|, i requires 0 <= i < |kwargs| => kwargs[i].node)
  }

  predicate NamesDistinct(kwargs: seq<Kwarg>) {
    forall i, j :: 0 <= i < j < |kwargs| ==> kwargs[i].name != kwargs[j].name
  }

  /** `{k: v.value for k, v in self._kwargs.items()}`. */
  function KwMap(kwargs: seq<Kwarg>, vals: seq<Value>): map<string, Value>
    requires |vals| == |kwargs|
  {
    if kwargs == [] then map[]
    else KwMap(kwargs[..|kwargs| - 1], vals[..|vals| - 1])[kwargs[|kwargs| - 1].name := vals[|vals| - 1]]
  }

  /** The keyword map has exactly the keyword names as keys, each bound to
      its own argument's value. */
  lemma {:induction false} KwMapBinds(kwargs: seq<Kwarg>, vals: seq<Value>)
    requires |vals| == |kwargs| && NamesDistinct(kwargs)
    ensures KwMap(kwargs, vals).Keys == set i | 0 <= i < |kwargs| :: kwargs[i].name
    ensures forall i | 0 <= i < |kwargs| :: KwMap(kwargs, vals)[kwargs[i].name] == vals[i]
  {
    if kwargs != [] {
      KwMapBinds(kwargs[..|kwargs| - 1], vals[..|vals| - 1]);
    }
  }

  function Max(a: nat, b: nat): nat {
    if a < b then b else a
  }

  /** The recompute test of `_try_cache_result`: no generation yet, or a
      dependency strictly newer than it. */
  predicate Stale(at: Option<nat>, newest: nat) {
    at.None? || newest > at.value
  }

  /** The Exec nodes reachable through one argument. */
  ghost function Footprint(d: Dep): set<Exec> {
    if d.ExecDep? then {d.e} + d.e.Below else {}
  }

  /** The Exec nodes reachable through a list of arguments. */
  ghost function ExecsOf(deps: seq<Dep>): set<Exec> {
    if deps == [] then {}
    else ExecsOf(deps[..|deps| - 1]) + Footprint(deps[|deps| - 1])
  }

  /** The Variable nodes reachable through a list of arguments. */
  ghost function LeavesOf(deps: seq<Dep>): set<Variable> {
    if deps == [] then {}
    else
      var d := deps[|deps| - 1];
      LeavesOf(deps[..|deps| - 1]) + (if d.ExecDep? then d.e.Leaves else if d.VarDep? then {d.v} else {})
  }

  ghost function HeightOf(deps: seq<Dep>): nat {
    if deps == [] then 0
    else
      var d := deps[|deps| - 1];
      Max(HeightOf(deps[..|deps| - 1]), if d.ExecDep? then d.e.height else 0)
  }

  lemma {:induction false} ReachableFromDeps(deps: seq<Dep>)
    ensures forall d <- deps :: d.ExecDep? ==>
              d.e in ExecsOf(deps) && d.e.Below <= ExecsOf(deps) && d.e.Leaves <= LeavesOf(deps)
              && d.e.height <= HeightOf(deps)
    ensures forall d <- deps :: d.VarDep? ==> d.v in LeavesOf(deps)
    ensures forall z <- ExecsOf(deps) :: exists d <- deps :: d.ExecDep? && (z == d.e || z in d.e.Below)
    ensures forall v <- LeavesOf(deps) :: exists d <- deps :: d == VarDep(v) || (d.ExecDep? && v in d.e.Leaves)
  {
    if deps != [] {
      var front := deps[..|deps| - 1];
      ReachableFromDeps(front);
      assert deps == front + [deps[|deps| - 1]];
    }
  }

  /** What the constructor of an Exec node needs of its arguments. */
  ghost predicate Ready(args: seq<Dep>, kwargs: seq<Kwarg>) {
    NamesDistinct(kwargs) && forall d <- args + KwNodes(kwargs) :: d.ExecDep? ==> d.e.Valid()
  }

  /** `Function` and `BaseFunction`: an immutable callable whose timestamp is
      fixed when it is constructed. */
  class Function {
    const stamp: nat
    const body: Callable

    constructor (body: Callable, clock: Clock)
      modifies clock
      ensures this.body == body && stamp == clock.now && clock.now == old(clock.now) + 1
    {
      var t := clock.Read();
      this.body := body;
      stamp := t;
    }

    /** `__call__`: defers the application into a new Exec node; nothing is invoked. */
    method Call(args: seq<Dep>, kwargs: seq<Kwarg>, clock: Clock) returns (e: Exec)
      requires Ready(args, kwargs)
      modifies clock
      ensures fresh(e) && e.Valid() && e.func == this && e.args == args && e.kwargs == kwargs
      ensures e.State() == CacheState(None, None) && e.calls == 0 && e.Below == ExecsOf(e.Deps())
      ensures clock.now == old(clock.now) + 1
    {
      e := new Exec(this, args, kwargs, clock);
    }
  }

  /** The six builtin operators, process-wide shared Function nodes. */
  class Operators {
    const eq: Function
    const lt: Function
    const le: Function
    const ne: Function
    const truth: Function
    const negation: Function

    ghost predicate Valid() {
      && eq.body == Builtins.EqBody && lt.body == Builtins.LtBody && le.body == Builtins.LeBody
      && ne.body == Builtins.NeBody && truth.body == Builtins.BoolBody && negation.body == Builtins.NotBody
    }

    ghost predicate StampedBy(t: nat) {
      && eq.stamp <= t && lt.stamp <= t && le.stamp <= t
      && ne.stamp <= t && truth.stamp <= t && negation.stamp <= t
    }

    constructor (clock: Clock)
      modifies clock
      ensures Valid() && StampedBy(clock.now) && clock.now == old(clock.now) + 6
    {
      eq := new Function(Builtins.EqBody, clock);
      lt := new Function(Builtins.LtBody, clock);
      le := new Function(Builtins.LeBody, clock);
      ne := new Function(Builtins.NeBody, clock);
      truth := new Function(Builtins.BoolBody, clock);
      negation := new Function(Builtins.NotBody, clock);
    }
  }

  /** A mutable leaf. */
  class Variable {
    var value: Value
    var updatedAt: nat

    constructor (value: Value, clock: Clock)
      modifies clock
      ensures this.value == value && updatedAt == clock.now && clock.now == old(clock.now) + 1
    {
      var t := clock.Read();
      updatedAt := t;
      this.value := value;
    }

    /** The `value` setter: the new value with a fresh timestamp, later
        than every earlier clock reading. */
    method Set(value: Value, clock: Clock)
      modifies this, clock
      ensures this.value == value && updatedAt == clock.now && clock.now == old(clock.now) + 1
      ensures updatedAt > old(clock.now)
      ensures old(updatedAt) <= old(clock.now) ==> updatedAt > old(updatedAt)
    {
      var t := clock.Read();
      updatedAt := t;
      this.value := value;
    }

    /** `__bool__`: a Variable refuses to collapse into a boolean. */
    method AsBool() returns (r: Result<bool>)
      ensures r == Err(TypeError)
    {
      r := Err(TypeError);
    }

    /** `__eq__`: builds `Exec(Eq, self, other)`. */
    method Eq(other: Dep, ops: Operators, clock: Clock) returns (e: Exec)
      requires other.ExecDep? ==> other.e.Valid()
      modifies clock
      ensures fresh(e) && e.Valid() && e.func == ops.eq && e.args == [VarDep(this), other] && e.kwargs == []
      ensures e.State() == CacheState(None, None) && e.calls == 0 && e.Below == ExecsOf(e.Deps()) && clock.now == old(clock.now) + 1
    {
      e := new Exec(ops.eq, [VarDep(this), other], [], clock);
    }

    /** `__lt__`: builds `Exec(Lt, self, other)`. */
    method Lt(other: Dep, ops: Operators, clock: Clock) returns (e: Exec)
      requires other.ExecDep? ==> other.e.Valid()
      modifies clock
      ensures fresh(e) && e.Valid() && e.func == ops.lt && e.args == [VarDep(this), other] && e.kwargs == []
      ensures e.State() == CacheState(None, None) && e.calls == 0 && e.Below == ExecsOf(e.Deps()) && clock.now == old(clock.now) + 1
    {
      e := new Exec(ops.lt, [VarDep(this), other], [], clock);
    }

    /** `__le__`: builds `Exec(Le, self, other)`. */
    method Le(other: Dep, ops: Operators, clock: Clock) returns (e: Exec)
      requires other.ExecDep? ==> other.e.Valid()
      modifies clock
      ensures fresh(e) && e.Valid() && e.func == ops.le && e.args == [VarDep(this), other] && e.kwargs == []
      ensures e.State() == CacheState(None, None) && e.calls == 0 && e.Below == ExecsOf(e.Deps()) && clock.now == old(clock.now) + 1
    {
      e := new Exec(ops.le, [VarDep(this), other], [], clock);
    }

    /** `__ne__`: builds `Exec(Ne, self, other)`. */
    method Ne(other: Dep, ops: Operators, clock: Clock) returns (e: Exec)
      requires other.ExecDep? ==> other.e.Valid()
      modifies clock
      ensures fresh(e) && e.Valid() && e.func == ops.ne && e.args == [VarDep(this), other] && e.kwargs == []
      ensures e.State() == CacheState(None, None) && e.calls == 0 && e.Below == ExecsOf(e.Deps()) && clock.now == old(clock.now) + 1
    {
      e := new Exec(ops.ne, [VarDep(this), other], [], clock);
    }

    /** `self > other`: Variable defines no `__gt__`, so Python reflects the
        comparison into `other.__lt__(self)`, that is `Exec(Lt, other, self)`. */
    method Gt(other: Variable, ops: Operators, clock: Clock) returns (e: Exec)
      modifies clock
      ensures fresh(e) && e.Valid() && e.func == ops.lt && e.args == [VarDep(other), VarDep(this)] && e.kwargs == []
      ensures e.State() == CacheState(None, None) && e.calls == 0 && e.Below == ExecsOf(e.Deps()) && clock.now == old(clock.now) + 1
    {
      e := other.Lt(VarDep(this), ops, clock);
    }

    /** `self >= other`, reflected into `other.__le__(self)`. */
    method Ge(other: Variable, ops: Operators, clock: Clock) returns (e: Exec)
      modifies clock
      ensures fresh(e) && e.Valid() && e.func == ops.le && e.args == [VarDep(other), VarDep(this)] && e.kwargs == []
      ensures e.State() == CacheState(None, None) && e.calls == 0 && e.Below == ExecsOf(e.Deps()) && clock.now == old(clock.now) + 1
    {
      e := other.Le(VarDep(this), ops, clock);
    }
  }

  /** A memoizing application node. */
  class Exec {
    const func: Function
    const args: seq<Dep>
    const kwargs: seq<Kwarg>
    /** `_updated_at`: the generation of the cached result, None until the first recomputation. */
    var cachedAt: Option<nat>
    /** `_cached_result`. */
    var cached: Option<Value>
    /** How many times this node has invoked its function. */
    ghost var calls: nat
    /** The Exec nodes reachable through the arguments. */
    ghost const Below: set<Exec>
    /** The Variable nodes reachable through the arguments. */
    ghost const Leaves: set<Variable>
    ghost const height: nat

    /** The argument nodes in the order `_try_cache_result` reads them. */
    function Deps(): seq<Dep> {
      args + KwNodes(kwargs)
    }

    ghost predicate Beneath(d: Dep) {
      match d
      case VarDep(v) => v in Leaves
      case ExecDep(x) => x in Below
      case RawDep(_) => true
    }

    /** The arguments are earlier nodes: the graph below is a DAG, closed
        under reachability, and does not contain this node. */
    ghost predicate Valid()
      decreases height
    {
      && NamesDistinct(kwargs)
      && Below == ExecsOf(Deps())
      && Leaves == LeavesOf(Deps())
      && this !in Below
      && (forall z <- Below :: z.height < height && z.Below <= Below && z.Leaves <= Leaves && z.Valid())
      && (forall d <- Deps() :: Beneath(d))
    }

    constructor (func: Function, args: seq<Dep>, kwargs: seq<Kwarg>, clock: Clock)
      requires Ready(args, kwargs)
      modifies clock
      ensures Valid() && this.func == func && this.args == args && this.kwargs == kwargs
      ensures State() == CacheState(None, None) && calls == 0 && Below == ExecsOf(Deps())
      ensures clock.now == old(clock.now) + 1
    {
      // `BaseObject.__init__` takes a clock reading that is then overwritten by None.
      var t := clock.Read();
      var deps := args + KwNodes(kwargs);
      this.func := func;
      this.args := args;
      this.kwargs := kwargs;
      Below := ExecsOf(deps);
      Leaves := LeavesOf(deps);
      height := HeightOf(deps) + 1;
      cachedAt := None;
      cached := None;
      calls := 0;
      new;
      ReachableFromDeps(deps);
    }

    function State(): CacheState
      reads this
    {
      CacheState(cachedAt, cached)
    }

    /** A generation is only ever recorded next to a result. */
    predicate Consistent()
      reads this
    {
      cachedAt.Some? ==> cached.Some?
    }

    /** What reading `d.updated_at` gives. */
    ghost function DepStamp(d: Dep): Result<nat>
      requires Valid() && d in Deps()
      reads this, Below, Leaves
      decreases height, 1, 0
    {
      match d
      case VarDep(v) => Ok(v.updatedAt)
      case ExecDep(x) => x.ReadStamp()
      case RawDep(_) => Err(AttributeError)
    }

    /** What reading `d.value` gives. */
    ghost function DepValue(d: Dep): Result<Value>
      requires Valid() && d in Deps()
      reads this, Below, Leaves
      decreases height, 1, 0
    {
      match d
      case VarDep(v) => Ok(v.value)
      case ExecDep(x) => x.ReadValue()
      case RawDep(_) => Err(AttributeError)
    }

    /** The running `max` over the function node and the first k arguments. */
    ghost function NewestUpTo(k: nat): Result<nat>
      requires Valid() && k <= |Deps()|
      reads this, Below, Leaves
      decreases height, 2, k
    {
      if k == 0 then Ok(func.stamp)
      else match NewestUpTo(k - 1)
        case Err(e) => Err(e)
        case Ok(n) =>
          match DepStamp(Deps()[k - 1])
          case Err(e) => Err(e)
          case Ok(t) => Ok(Max(n, t))
    }

    /** The values of the first k arguments, read in order. */
    ghost function ValuesUpTo(k: nat): (r: Result<seq<Value>>)
      requires Valid() && k <= |Deps()|
      reads this, Below, Leaves
      decreases height, 2, k
      ensures r.Ok? ==> |r.value| == k
    {
      if k == 0 then Ok([])
      else match ValuesUpTo(k - 1)
        case Err(e) => Err(e)
        case Ok(vs) =>
          match DepValue(Deps()[k - 1])
          case Err(e) => Err(e)
          case Ok(v) => Ok(vs + [v])
    }

    ghost function Newest(): Result<nat>
      requires Valid()
      reads this, Below, Leaves
      decreases height, 3, 0
    {
      NewestUpTo(|Deps()|)
    }

    /** What `_cache_result` computes: the function applied to the current
        argument values, positional ones first, then the keyword ones. */
    ghost function Apply(): Result<Value>
      requires Valid()
      reads this, Below, Leaves
      decreases height, 3, 0
    {
      match ValuesUpTo(|Deps()|)
      case Err(e) => Err(e)
      case Ok(vs) => func.body(vs[..|args|], KwMap(kwargs, vs[|args|..]))
    }

    /** The cache `_try_cache_result` leaves behind, or the exception it raises. */
    ghost function Settle(): (r: Result<CacheState>)
      requires Valid()
      reads this, Below, Leaves
      decreases height, 4, 0
      ensures r.Ok? ==> r.value.at.Some?
      ensures r.Ok? && Consistent() ==> r.value.result.Some?
    {
      match Newest()
      case Err(e) => Err(e)
      case Ok(n) =>
        if Stale(cachedAt, n) then
          match Apply()
          case Err(e) => Err(e)
          case Ok(v) => Ok(CacheState(Some(n), Some(v)))
        else Ok(State())
    }

    /** Whether a read now invokes the function. */
    ghost predicate Invokes()
      requires Valid()
      reads this, Below, Leaves
    {
      Newest().Ok? && Stale(cachedAt, Newest().value) && ValuesUpTo(|Deps()|).Ok?
    }

    /** What reading `updated_at` gives. */
    ghost function ReadStamp(): Result<nat>
      requires Valid()
      reads this, Below, Leaves
      decreases height, 5, 0
    {
      match Settle()
      case Err(e) => Err(e)
      case Ok(c) => Ok(c.at.value)
    }

    /** What reading `value` gives. */
    ghost function ReadValue(): Result<Value>
      requires Valid()
      reads this, Below, Leaves
      decreases height, 5, 0
    {
      match Settle()
      case Err(e) => Err(e)
      case Ok(c) => if c.result.Some? then Ok(c.result.value) else Err(AttributeError)
    }

    /** Once a prefix of the arguments raises, the whole `max` raises the same. */
    lemma {:induction false} NewestErrSticks(k: nat, n: nat)
      requires Valid() && k <= n <= |Deps()|
      ensures NewestUpTo(k).Err? ==> NewestUpTo(n) == NewestUpTo(k)
      decreases n
    {
      if n > k {
        NewestErrSticks(k, n - 1);
      }
    }

    lemma {:induction false} ValuesErrSticks(k: nat, n: nat)
      requires Valid() && k <= n <= |Deps()|
      ensures ValuesUpTo(k).Err? ==> ValuesUpTo(n) == ValuesUpTo(k)
      decreases n
    {
      if n > k {
        ValuesErrSticks(k, n - 1);
      }
    }

    /** The `max` bounds the function's and every argument's timestamp from
        above and is one of them. */
    lemma {:induction false} NewestIsMax(k: nat)
      requires Valid() && k <= |Deps()| && NewestUpTo(k).Ok?
      ensures NewestUpTo(k).value >= func.stamp
      ensures forall j | 0 <= j < k :: DepStamp(Deps()[j]).Ok? && DepStamp(Deps()[j]).value <= NewestUpTo(k).value
      ensures NewestUpTo(k).value == func.stamp || exists j | 0 <= j < k :: DepStamp(Deps()[j]) == NewestUpTo(k)
      decreases k
    {
      if k > 0 {
        NewestIsMax(k - 1);
      }
    }

    /** The `max` raises exactly when an argument's `updated_at` raises, and
        then with the exception of the first such argument. */
    lemma {:induction false} NewestRaisesFirst(k: nat)
      requires Valid() && k <= |Deps()|
      ensures NewestUpTo(k).Ok? <==> forall j | 0 <= j < k :: DepStamp(Deps()[j]).Ok?
      ensures NewestUpTo(k).Err? ==>
                exists j | 0 <= j < k :: DepStamp(Deps()[j]).Err? && NewestUpTo(k).error == DepStamp(Deps()[j]).error
                  && forall i | 0 <= i < j :: DepStamp(Deps()[i]).Ok?
      decreases k
    {
      if k > 0 {
        NewestRaisesFirst(k - 1);
      }
    }

    /** The argument values are read in order, each as its `value` gives it,
        and the first exception stops the reading. */
    lemma {:induction false} ValuesInOrder(k: nat)
      requires Valid() && k <= |Deps()|
      ensures ValuesUpTo(k).Ok? <==> forall j | 0 <= j < k :: DepValue(Deps()[j]).Ok?
      ensures ValuesUpTo(k).Ok? ==> forall j | 0 <= j < k :: Ok(ValuesUpTo(k).value[j]) == DepValue(Deps()[j])
      ensures ValuesUpTo(k).Err? ==>
                exists j | 0 <= j < k :: DepValue(Deps()[j]).Err? && ValuesUpTo(k).error == DepValue(Deps()[j]).error
                  && forall i | 0 <= i < j :: DepValue(Deps()[i]).Ok?
      decreases k
    {
      if k > 0 {
        ValuesInOrder(k - 1);
      }
    }

    /** When the `max` raises, reading the argument values raises the same
        exception again: every argument before the first raising one has
        settled with a result, and that one raises on `value` as well. */
    lemma CaughtErrorRecurs()
      requires Valid() && (forall z <- Below :: z.Consistent()) && Newest().Err?
      ensures Apply() == Err(Newest().error)
    {
      var n := |Deps()|;
      NewestRaisesFirst(n);
      var j :| 0 <= j < n && DepStamp(Deps()[j]).Err? && Newest().error == DepStamp(Deps()[j]).error
               && forall i | 0 <= i < j :: DepStamp(Deps()[i]).Ok?;
      forall i | 0 <= i < j
        ensures DepValue(Deps()[i]).Ok?
      {
        assert Beneath(Deps()[i]);
      }
      assert DepValue(Deps()[j]) == Err(Newest().error) by {
        assert Beneath(Deps()[j]);
      }
      ValuesInOrder(j);
      ValuesErrSticks(j + 1, n);
    }

    /** An argument's `updated_at` is no older than the Variables below it. */
    lemma DepCoversLeaves(d: Dep)
      requires Valid() && d in Deps() && DepStamp(d).Ok?
      ensures d.VarDep? ==> d.v.updatedAt <= DepStamp(d).value
      ensures d.ExecDep? ==> forall v <- d.e.Leaves :: v.updatedAt <= DepStamp(d).value
      decreases height, 0
    {
      if d.ExecDep? {
        assert Beneath(d);
        d.e.GenerationCoversLeaves();
      }
    }

    /** Every Variable below the node is no newer than the `max`. */
    lemma {:induction false} NewestCoversLeaves()
      requires Valid() && Newest().Ok?
      ensures forall v <- Leaves :: v.updatedAt <= Newest().value
      decreases height, 1
    {
      NewestIsMax(|Deps()|);
      ReachableFromDeps(Deps());
      forall v | v in Leaves
        ensures v.updatedAt <= Newest().value
      {
        var d :| d in Deps() && (d == VarDep(v) || (d.ExecDep? && v in d.e.Leaves));
        var j :| 0 <= j < |Deps()| && Deps()[j] == d;
        DepCoversLeaves(d);
      }
    }

    /** The generation a read leaves is no older than the function, the
        previous generation, or any Variable below the node. */
    lemma {:induction false} GenerationCoversLeaves()
      requires Valid() && Settle().Ok?
      ensures Settle().value.at.value >= Newest().value >= func.stamp
      ensures cachedAt.Some? ==> Settle().value.at.value >= cachedAt.value
      ensures forall v <- Leaves :: v.updatedAt <= Settle().value.at.value
      decreases height, 2
    {
      NewestIsMax(|Deps()|);
      NewestCoversLeaves();
    }

    /** After a Variable below the node is set to a value (taking a clock
        reading later than the node's generation), the next read invokes
        the function again, unless an argument raises. */
    lemma NewerLeafForcesRecompute(v: Variable)
      requires Valid() && v in Leaves && Settle().Ok?
      requires cachedAt.Some? && v.updatedAt > cachedAt.value
      ensures Invokes() && Settle().value.at.value >= v.updatedAt
      ensures Settle().value.result == Some(Apply().value)
    {
      NewestCoversLeaves();
    }

    /** A node that already holds what a read would leave is not stale, so a
        read would not invoke the function. */
    lemma SettledIdle()
      requires Valid()
      ensures Settle() == Ok(State()) ==> !Invokes()
    {
    }

    /** When a read succeeds, it invokes the function exactly when it changes
        the cache. */
    lemma InvokesIffChanged()
      requires Valid()
      ensures Settle().Ok? ==> (Invokes() <==> Settle().value != State())
    {
    }

    /** With every input no newer than the generation, a read keeps the cache
        and does not invoke the function. */
    lemma FreshCacheKept()
      requires Valid() && cachedAt.Some? && Newest().Ok? && Newest().value <= cachedAt.value
      ensures Settle() == Ok(State()) && !Invokes()
    {
    }

    /** `updated_at`: pulls the dependencies, recomputes if one is newer, and
        returns the generation. */
    method UpdatedAt() returns (r: Result<nat>)
      requires Valid()
      modifies this, Below
      decreases height, 5
      ensures Advanced(this) && forall z <- Below :: Advanced(z) && Counted(z)
      ensures r.Ok? ==> forall z <- Below :: Refreshed(z) && Settled(z)
      ensures r == old(ReadStamp())
      ensures calls == old(calls) + (if old(Invokes()) then 1 else 0)
      ensures State() == if old(Settle()).Ok? then old(Settle()).value else old(State())
      ensures r.Ok? ==> Settle() == Ok(State()) && !Invokes()
    {
      var o := TryCacheResult();
      if o.Err? {
        return Err(o.error);
      }
      r := Ok(cachedAt.value);
    }

    /** `value`: pulls as `updated_at` does and returns the cached result. */
    method Value() returns (r: Result<Value>)
      requires Valid()
      modifies this, Below
      decreases height, 5
      ensures Advanced(this) && forall z <- Below :: Advanced(z) && Counted(z)
      ensures r.Ok? ==> forall z <- Below :: Refreshed(z) && Settled(z)
      ensures r == old(ReadValue())
      ensures calls == old(calls) + (if old(Invokes()) then 1 else 0)
      ensures State() == if old(Settle()).Ok? then old(Settle()).value else old(State())
      ensures r.Ok? ==> Settle() == Ok(State()) && !Invokes()
    {
      var o := TryCacheResult();
      if o.Err? {
        return Err(o.error);
      }
      if cached.None? {
        r := Err(AttributeError);
      } else {
        r := Ok(cached.value);
      }
    }

    /** `BaseObject.__bool__`: the truthiness of `value`. */
    method AsBool() returns (r: Result<bool>)
      requires Valid()
      modifies this, Below
      decreases height, 6
      ensures Advanced(this) && forall z <- Below :: Advanced(z) && Counted(z)
      ensures r.Ok? ==> forall z <- Below :: Refreshed(z) && Settled(z)
      ensures r == match old(ReadValue()) { case Err(e) => Err(e) case Ok(v) => Ok(Truthy(v)) }
      ensures State() == if old(Settle()).Ok? then old(Settle()).value else old(State())
      ensures calls == old(calls) + (if old(Invokes()) then 1 else 0)
    {
      var v := Value();
      if v.Err? {
        return Err(v.error);
      }
      r := Ok(Truthy(v.value));
    }

    method ReadDepStamp(d: Dep) returns (r: Result<nat>)
      requires Valid() && d in Deps()
      modifies Below
      decreases height, 1
      ensures forall z <- Below :: Advanced(z) && Counted(z)
      ensures r.Ok? ==> forall z <- Below :: if z in Footprint(d) then Renewed(z) else Untouched(z)
      ensures r == old(DepStamp(d))
    {
      match d
      case VarDep(v) =>
        r := Ok(v.updatedAt);
      case ExecDep(x) =>
        forall z | z in Footprint(d)
          ensures z.Settle().Ok? ==> (z.Invokes() <==> z.Settle().value != z.State())
        {
          z.InvokesIffChanged();
        }
        r := x.UpdatedAt();
      case RawDep(_) =>
        r := Err(AttributeError);
    }

    method ReadDepValue(d: Dep) returns (r: Result<Value>)
      requires Valid() && d in Deps()
      modifies Below
      decreases height, 1
      ensures forall z <- Below :: Advanced(z) && Counted(z)
      ensures r.Ok? ==> forall z <- Below :: if z in Footprint(d) then Renewed(z) else Untouched(z)
      ensures r == old(DepValue(d))
    {
      match d
      case VarDep(v) =>
        r := Ok(v.value);
      case ExecDep(x) =>
        forall z | z in Footprint(d)
          ensures z.Settle().Ok? ==> (z.Invokes() <==> z.Settle().value != z.State())
        {
          z.InvokesIffChanged();
        }
        r := x.Value();
      case RawDep(_) =>
        r := Err(AttributeError);
    }

    /** `_try_cache_result`. On an exception, this node's two cache fields
        are exactly as they were. */
    method TryCacheResult() returns (r: Result<()>)
      requires Valid()
      modifies this, Below
      decreases height, 4
      ensures Advanced(this) && forall z <- Below :: Advanced(z) && Counted(z)
      ensures r.Ok? ==> forall z <- Below :: Refreshed(z) && Settled(z)
      ensures r.Ok? <==> old(Settle()).Ok?
      ensures r.Err? ==> r.error == old(Settle()).error && State() == old(State())
      ensures r.Ok? ==> State() == old(Settle()).value
      ensures calls == old(calls) + (if old(Invokes()) then 1 else 0)
      ensures r.Ok? ==> Settle() == Ok(State()) && !Invokes()
    {
      var newest := PullNewest();
      if newest.Err? {
        return Err(newest.error);
      }
      if Stale(cachedAt, newest.value) {
        StableBelow(this);
        label Mid:
        var c := CacheResult();
        forall z | z in Below
          ensures Advanced(z) && Counted(z) && (c.Ok? ==> Refreshed(z))
        {
          assert Advanced@Mid(z) && Counted@Mid(z);
        }
        if c.Err? {
          return Err(c.error);
        }
        cachedAt := Some(newest.value);
      }
      r := Ok(());
      Stable(this);
      StableBelow(this);
    }

    /** The `max` of `updated_at` over the function node and the arguments,
        in order, with which `_try_cache_result` begins. */
    method PullNewest() returns (r: Result<nat>)
      requires Valid()
      modifies Below
      decreases height, 2
      ensures forall z <- Below :: Advanced(z) && Counted(z)
      ensures r.Ok? ==> forall z <- Below :: Refreshed(z)
      ensures r == old(Newest())
    {
      var deps := Deps();
      forall k | 0 <= k <= |deps|
        ensures old(NewestUpTo(k)).Err? ==> old(Newest()) == old(NewestUpTo(k))
      {
        NewestErrSticks(k, |deps|);
      }
      var newest := func.stamp;
      forall z | z in Below
        ensures z.Settle().Ok? ==> (z.Invokes() <==> z.Settle().value != z.State())
      {
        z.InvokesIffChanged();
      }
      ghost var seen: set<Exec> := {};
      var i := 0;
      while i < |deps|
        invariant 0 <= i <= |deps|
        invariant forall k | 0 <= k <= |deps| :: old(NewestUpTo(k)).Err? ==> old(Newest()) == old(NewestUpTo(k))
        invariant forall z <- Below :: Advanced(z)
        invariant seen == ExecsOf(deps[..i])
        invariant forall z <- Below :: if z in seen then Renewed(z) else Untouched(z)
        invariant old(NewestUpTo(i)) == Ok(newest)
      {
        StableStep(this);
        label Before:
        var t := ReadDepStamp(deps[i]);
        forall z | z in Below
          ensures Advanced(z)
        {
          assert Advanced@Before(z);
        }
        assert deps[..i + 1][..i] == deps[..i];
        if t.Err? {
          forall z | z in Below
            ensures Counted(z)
          {
            assert Counted@Before(z);
          }
          assert old(NewestUpTo(i + 1)) == Err(t.error);
          return Err(t.error);
        }
        forall z | z in Below
          ensures if z in seen + Footprint(deps[i]) then Renewed(z) else Untouched(z)
        {
        }
        seen := seen + Footprint(deps[i]);
        newest := Max(newest, t.value);
        i := i + 1;
      }
      assert deps[..i] == deps;
      forall z | z in Below
        ensures Counted(z) && Refreshed(z)
      {
      }
      r := Ok(newest);
    }

    /** The generator `(a.value for a in self._args)` followed by the
        keyword values: reads every argument's `value` in order and stops at
        the first exception. */
    method ReadValues() returns (r: Result<seq<Value>>)
      requires Valid()
      modifies Below
      decreases height, 2
      ensures forall z <- Below :: Advanced(z) && Counted(z)
      ensures r.Ok? ==> forall z <- Below :: Refreshed(z)
      ensures r == old(ValuesUpTo(|Deps()|))
    {
      var deps := Deps();
      forall k | 0 <= k <= |deps|
        ensures old(ValuesUpTo(k)).Err? ==> old(ValuesUpTo(|deps|)) == old(ValuesUpTo(k))
      {
        ValuesErrSticks(k, |deps|);
      }
      var vals: seq<Value> := [];
      forall z | z in Below
        ensures z.Settle().Ok? ==> (z.Invokes() <==> z.Settle().value != z.State())
      {
        z.InvokesIffChanged();
      }
      ghost var seen: set<Exec> := {};
      var i := 0;
      while i < |deps|
        invariant 0 <= i <= |deps|
        invariant forall k | 0 <= k <= |deps| :: old(ValuesUpTo(k)).Err? ==> old(ValuesUpTo(|deps|)) == old(ValuesUpTo(k))
        invariant forall z <- Below :: Advanced(z)
        invariant seen == ExecsOf(deps[..i])
        invariant forall z <- Below :: if z in seen then Renewed(z) else Untouched(z)
        invariant old(ValuesUpTo(i)) == Ok(vals)
      {
        StableStep(this);
        label Before:
        var v := ReadDepValue(deps[i]);
        forall z | z in Below
          ensures Advanced(z)
        {
          assert Advanced@Before(z);
        }
        assert deps[..i + 1][..i] == deps[..i];
        if v.Err? {
          forall z | z in Below
            ensures Counted(z)
          {
            assert Counted@Before(z);
          }
          assert old(ValuesUpTo(i + 1)) == Err(v.error);
          return Err(v.error);
        }
        forall z | z in Below
          ensures if z in seen + Footprint(deps[i]) then Renewed(z) else Untouched(z)
        {
        }
        seen := seen + Footprint(deps[i]);
        vals := vals + [v.value];
        i := i + 1;
      }
      assert deps[..i] == deps;
      forall z | z in Below
        ensures Counted(z) && Refreshed(z)
      {
      }
      r := Ok(vals);
    }

    /** `_cache_result`: reads every argument's value, invokes the function
        and stores its result; the exception of either is passed on with
        `cached` untouched. */
    method CacheResult() returns (r: Result<Value>)
      requires Valid()
      modifies this, Below
      decreases height, 3
      ensures forall z <- Below :: Advanced(z) && Counted(z)
      ensures r.Ok? ==> forall z <- Below :: Refreshed(z)
      ensures r == old(Apply())
      ensures cachedAt == old(cachedAt)
      ensures cached == (if r.Ok? then Some(r.value) else old(cached))
      ensures calls == old(calls) + (if old(ValuesUpTo(|Deps()|)).Ok? then 1 else 0)
    {
      var vals := ReadValues();
      if vals.Err? {
        return Err(vals.error);
      }
      r := func.body(vals.value[..|args|], KwMap(kwargs, vals.value[|args|..]));
      calls := calls + 1;
      if r.Ok? {
        cached := Some(r.value);
      }
    }
  }

  /** Between two states, node z kept its cache or took exactly the cache
      that a read of it would have left. */
  twostate predicate Advanced(z: Exec)
    requires z.Valid()
    reads z
  {
    z.State() == old(z.State()) || (old(z.Settle()).Ok? && z.State() == old(z.Settle()).value)
  }

  /** Between two states, node z invoked its function at most once, and
      only if a read of it in the first state would have. */
  twostate predicate Counted(z: Exec)
    requires z.Valid()
    reads z
  {
    old(z.calls) <= z.calls <= old(z.calls) + (if old(z.Invokes()) then 1 else 0)
  }

  /** Between two states, node z kept its cache and invoked nothing. */
  twostate predicate Untouched(z: Exec)
    reads z
  {
    z.State() == old(z.State()) && z.calls == old(z.calls)
  }

  /** Node z was read: it holds the cache a read in the first state would
      have left, and it invoked its function exactly when that read would
      have. */
  twostate predicate Refreshed(z: Exec)
    requires z.Valid()
    reads z
  {
    old(z.Settle()).Ok? && z.State() == old(z.Settle()).value && z.calls == old(z.calls) + (if old(z.Invokes()) then 1 else 0)
  }

  /** `Refreshed`, with the invocation read off the change of cache, which a
      successful read makes exactly when it invokes the function. */
  twostate predicate Renewed(z: Exec)
    requires z.Valid()
    reads z
  {
    old(z.Settle()).Ok? && z.State() == old(z.Settle()).value && z.calls == old(z.calls) + (if z.State() == old(z.State()) then 0 else 1)
  }

  /** Node z holds the cache a read of it settles on, and a read would
      invoke nothing. */
  ghost predicate Settled(z: Exec)
    requires z.Valid()
    reads z, z.Below, z.Leaves
  {
    z.Settle() == Ok(z.State()) && !z.Invokes()
  }

  /** `Stable` for every node below y. */
  twostate lemma StableBelow(y: Exec)
    requires y.Valid()
    requires Advanced(y) && forall z <- y.Below :: Advanced(z)
    requires forall v <- y.Leaves :: v.updatedAt == old(v.updatedAt) && v.value == old(v.value)
    ensures forall z <- y.Below :: z.Settle() == old(z.Settle())
    ensures forall z <- y.Below :: z.Settle() == Ok(z.State()) ==> !z.Invokes()
    ensures y.Settle() == old(y.Settle())
    ensures forall d <- y.Deps() :: y.DepStamp(d) == old(y.DepStamp(d)) && y.DepValue(d) == old(y.DepValue(d))
    ensures forall k | 0 <= k <= |y.Deps()| :: y.NewestUpTo(k) == old(y.NewestUpTo(k)) && y.ValuesUpTo(k) == old(y.ValuesUpTo(k))
    ensures y.Apply() == old(y.Apply())
  {
    forall z | z in y.Below
      ensures z.Settle() == old(z.Settle())
      ensures z.Settle() == Ok(z.State()) ==> !z.Invokes()
    {
      Stable(z);
      z.SettledIdle();
    }
    Stable(y);
  }

  /** `Stable` for the nodes below y and for each of y's arguments: what a
      loop over y's arguments needs before reading the next one. */
  twostate lemma StableStep(y: Exec)
    requires y.Valid()
    requires forall z <- y.Below :: Advanced(z)
    requires forall v <- y.Leaves :: v.updatedAt == old(v.updatedAt) && v.value == old(v.value)
    ensures forall z <- y.Below :: z.Settle() == old(z.Settle())
    ensures forall z <- y.Below :: z.State() == old(z.State()) ==> z.Invokes() == old(z.Invokes())
    ensures forall z <- y.Below :: z.Settle() == Ok(z.State()) ==> !z.Invokes()
    ensures forall d <- y.Deps() :: y.DepStamp(d) == old(y.DepStamp(d)) && y.DepValue(d) == old(y.DepValue(d))
  {
    forall z | z in y.Below
      ensures z.Settle() == old(z.Settle())
      ensures z.State() == old(z.State()) ==> z.Invokes() == old(z.Invokes())
      ensures z.Settle() == Ok(z.State()) ==> !z.Invokes()
    {
      Stable(z);
      z.SettledIdle();
    }
    forall d | d in y.Deps()
      ensures y.DepStamp(d) == old(y.DepStamp(d)) && y.DepValue(d) == old(y.DepValue(d))
    {
      assert y.Beneath(d);
      if d.ExecDep? {
        Stable(d.e);
      }
    }
  }

  /** Refreshing caches never changes what a read produces: if every node
      below y (and y) only advanced and no Variable changed, a read of y
      yields exactly what it would have yielded before. */
  twostate lemma {:induction false} Stable(y: Exec)
    requires y.Valid()
    requires Advanced(y) && forall z <- y.Below :: Advanced(z)
    requires forall v <- y.Leaves :: v.updatedAt == old(v.updatedAt) && v.value == old(v.value)
    ensures forall d <- y.Deps() :: y.DepStamp(d) == old(y.DepStamp(d)) && y.DepValue(d) == old(y.DepValue(d))
    ensures forall k | 0 <= k <= |y.Deps()| :: y.NewestUpTo(k) == old(y.NewestUpTo(k)) && y.ValuesUpTo(k) == old(y.ValuesUpTo(k))
    ensures y.Apply() == old(y.Apply())
    ensures y.Settle() == old(y.Settle())
    ensures y.ReadStamp() == old(y.ReadStamp()) && y.ReadValue() == old(y.ReadValue())
    ensures y.Invokes() == old(y.Invokes()) || (y.State() != old(y.State()) && !y.Invokes())
    decreases y.height
  {
    forall d | d in y.Deps()
      ensures y.DepStamp(d) == old(y.DepStamp(d)) && y.DepValue(d) == old(y.DepValue(d))
    {
      assert y.Beneath(d);
      if d.ExecDep? {
        Stable(d.e);
      }
    }
    var k := 0;
    while k < |y.Deps()|
      invariant 0 <= k <= |y.Deps()|
      invariant forall j | 0 <= j <= k :: y.NewestUpTo(j) == old(y.NewestUpTo(j)) && y.ValuesUpTo(j) == old(y.ValuesUpTo(j))
    {
      assert y.Deps()[k] in y.Deps();
      k := k + 1;
    }
  }
}
