# sendo's lazy evaluation core, in Dafny

sendo builds a lazy computation graph out of three kinds of node:

- **Variable** leaves hold a mutable value and the timestamp of its last assignment.
- **Function** nodes wrap a callable and carry their construction timestamp.
- **Exec** nodes apply a Function node to argument nodes.

Reading an Exec node's `value` or `updated_at` first pulls the `updated_at` of the function and of every argument. The node recomputes only when it has no cached generation yet, or when one of them is strictly newer than the cached one. Comparing Variables (`==`, `<`, `<=`, `!=`, and, by Python's reflection, `>` and `>=`) builds Exec nodes over the builtin operators Eq, Lt, Le and Ne. The operators Bool and Not are applied directly, as `Bool(a)` and `Not(a)`. A Variable refuses to become a boolean. `BaseEnumerator` tracks a collection: on every read it reconciles a key-to-timestamp snapshot with the current enumeration, calls the `enter`, `update` and `exit` hooks, and raises an aggregate `updated_at`.

The project is in six files:

- `values.dfy` (module `Values`): the values that flow through the graph, and Python's truthiness, equality and ordering of integers, booleans and strings.
- `builtins.dfy` (module `Builtins`): Python's binding of call arguments to `exec(self, a, b)` and `exec(self, a)`, and the six operator bodies.
- `clock.dfy` (module `Clocks`): `get_dt()` as a counter object whose every reading is later than all earlier ones.
- `nodes.dfy` (module `Nodes`): the classes `Function`, `Operators` (the six shared operator nodes), `Variable` and `Exec`.
  - Ghost functions (`Newest`, `Apply`, `Settle`, `ReadStamp`, `ReadValue`) say, in the current heap, what a read will produce.
  - The imperative read methods (`TryCacheResult`, `PullNewest`, `CacheResult`, `UpdatedAt`, `Value`, `AsBool`) are proved against them.
  - The twostate lemma `Stable` shows that refreshing the caches of shared nodes never changes what any read produces.
- `enumerator.dfy` (module `Enumerators`): the class `Enumerator`, whose methods mirror `add`, `update_value`, `discard`, `_try_update_updated_at`, `_try_update` and `updated_at`.
  - They are proved against the pure reconciliation `Scan`/`Reconcile`.
  - Lemmas about those functions give the snapshot, hook and aggregate properties.
- `scenarios.dfy` (module `Scenarios`): most of the repository's test programs, as verified client methods. Each builds its nodes and states what every read returns. The tests not replayed one by one are named under "Left out".

## Model

| member | source | states |
|---|---|---|
| Values.StrLeIsLtOrEq | sendo/base.py:127-132 | on strings, `<=` holds exactly when `<` holds or the strings are equal |
| Values.StrLtTrichotomy | sendo/base.py:119-124 | for any two strings exactly one of `s < t`, `s == t`, `t < s` holds |
| Values.PyLeIsLtOrEq | sendo/base.py:119-132 | `a <= b` raises exactly when `a < b` raises; otherwise it equals `a < b or a == b` |
| Values.PyLtTrichotomy | sendo/base.py:111-124 | on operands that `<` accepts, the reversed comparison is accepted as well, and exactly one of `a < b`, `a == b`, `b < a` holds |
| Builtins.Bind | sendo/base.py:115-116 | binding succeeds iff there are at most as many positional arguments as parameters and the keywords name exactly the remaining parameters; the bound slots hold the positional values, then the keyword values by name; every failure is TypeError |
| Builtins.EqBody | sendo/base.py:115-116 | `Eq.exec(a, b)` gives a bool, or raises TypeError when the call does not bind |
| Builtins.LtBody | sendo/base.py:123-124 | `Lt.exec(a, b)` gives a bool, or raises TypeError (a bad call, or operands `<` does not order) |
| Builtins.LeBody | sendo/base.py:131-132 | `Le.exec(a, b)` gives a bool, or raises TypeError (a bad call, or operands `<=` does not order) |
| Builtins.NeBody | sendo/base.py:139-140 | `Ne.exec(a, b)` gives a bool, or raises TypeError when the call does not bind |
| Builtins.BoolBody | sendo/base.py:147-148 | `Bool.exec(a)` gives a bool, or raises TypeError when the call does not bind |
| Builtins.NotBody | sendo/base.py:155-156 | `Not.exec(a)` gives a bool, or raises TypeError when the call does not bind |
| Builtins.BinaryOperators | sendo/base.py:111-140 | called with two positional values, Eq, Ne, Lt and Le give Python's `==`, `!=`, `<`, `<=` of them (TypeError for unorderable operands); keyword calls bind by name; wrong arity raises TypeError |
| Builtins.UnaryOperators | sendo/base.py:143-156 | Bool and Not give `bool(x)` and `not x` of one positional value; a call with no argument or with two raises TypeError |
| Builtins.NeNegatesEq | sendo/base.py:111-116 | on every call shape, Ne raises exactly when Eq does; otherwise it is the negation of Eq |
| Builtins.LeIsLtOrEq | sendo/base.py:119-132 | on every call shape, Le raises exactly when Lt does; otherwise it is Lt or Eq |
| Builtins.NotOfBool | sendo/base.py:143-156 | `Not(Bool(x))` has the value of `Not(x)` |
| Clocks.Clock.constructor | sendo/base.py:19-20 | the clock starts before every reading |
| Clocks.Clock.Read | sendo/base.py:19-20 | each reading is one later than the previous one |
| Nodes.KwMap | sendo/base.py:73 | the dict comprehension `{k: v.value for k, v in self._kwargs.items()}`, built from the names and the values read; its properties are in `Nodes.KwMapBinds` |
| Nodes.KwMapBinds | sendo/base.py:71-74 | the keyword dict passed to the function has exactly the keyword names as keys, each bound to its own argument's value |
| Nodes.ReachableFromDeps | sendo/base.py:53-57 | every Exec and Variable reachable from an argument list lies under one of its arguments, and each argument's own reachable nodes are included |
| Nodes.Function.constructor | sendo/base.py:98-101 | a Function node keeps its callable and is stamped with a fresh clock reading |
| Nodes.Function.Call | sendo/base.py:94-95 | `__call__` builds a new Exec node over exactly the given arguments, invoking nothing: no cache, no generation, call count zero |
| Nodes.Operators.constructor | sendo/base.py:159-164 | the six operator nodes carry the bodies of Eq, Lt, Le, Ne, Bool and Not and are stamped by the current clock |
| Nodes.Variable.constructor | sendo/base.py:168-170 | a Variable holds its value and a fresh clock reading |
| Nodes.Variable.Set | sendo/base.py:176-179 | the setter stores the new value and stamps it with a fresh reading, strictly later than every earlier reading and than the previous stamp |
| Nodes.Variable.AsBool | sendo/base.py:193-196 | `bool()` of a Variable raises TypeError |
| Nodes.Variable.Eq | sendo/base.py:181-182 | `a == other` builds an unread Exec node of Eq over `(a, other)` |
| Nodes.Variable.Lt | sendo/base.py:184-185 | `a < other` builds an unread Exec node of Lt over `(a, other)` |
| Nodes.Variable.Le | sendo/base.py:187-188 | `a <= other` builds an unread Exec node of Le over `(a, other)` |
| Nodes.Variable.Ne | sendo/base.py:190-191 | `a != other` builds an unread Exec node of Ne over `(a, other)` |
| Nodes.Variable.Gt | sendo/base.py:184-185 | `a > b` (no `__gt__`, reflected) builds an Exec node of Lt over `(b, a)` |
| Nodes.Variable.Ge | sendo/base.py:187-188 | `a >= b` (reflected) builds an Exec node of Le over `(b, a)` |
| Nodes.Exec.constructor | sendo/base.py:44-49 | a new Exec node records its function and arguments, has no generation and no cached result, and sits above exactly the nodes reachable from its arguments |
| Nodes.Exec.NewestUpTo | sendo/base.py:53-58 | the running `max` of `updated_at` over the function node and the first k arguments in chain order, or the first exception raised; its properties are in `NewestIsMax` and `NewestRaisesFirst` |
| Nodes.Exec.Newest | sendo/base.py:53-58 | the `max` over the whole chain: the function node, the positional arguments, then the keyword arguments |
| Nodes.Exec.Apply | sendo/base.py:70-74 | what `_cache_result` computes: the function's `value` called on the positional values and the keyword dict, or the first exception of reading them or of the call |
| Nodes.Exec.Invokes | sendo/base.py:61-62 | a read calls the function exactly when the `max` succeeds, the node has no generation or the `max` is strictly newer, and the argument values can be read; used by `Value` and `UpdatedAt` to state the call count |
| Nodes.Exec.ReadStamp | sendo/base.py:65-68 | `updated_at` is the generation `_try_cache_result` leaves, or its exception |
| Nodes.Exec.ReadValue | sendo/base.py:76-79 | `value` is the result `_try_cache_result` leaves, AttributeError when none was ever assigned, or its exception |
| Nodes.Exec.ValuesUpTo | sendo/base.py:71-74 | reading k argument values yields k values |
| Nodes.Exec.Settle | sendo/base.py:51-63 | a read that does not raise leaves a generation, and a result whenever the node had one with its generation |
| Nodes.Exec.NewestErrSticks | sendo/base.py:53-58 | once computing `max` over a prefix of the dependencies raises, the whole `max` raises the same exception |
| Nodes.Exec.ValuesErrSticks | sendo/base.py:71-74 | once reading a prefix of the argument values raises, reading all of them raises the same exception |
| Nodes.Exec.NewestIsMax | sendo/base.py:53-58 | the `max` is at least the function's and every argument's `updated_at`, and equals one of them |
| Nodes.Exec.NewestRaisesFirst | sendo/base.py:53-58 | the `max` raises iff some argument's `updated_at` raises, and then with the exception of the first such argument |
| Nodes.Exec.ValuesInOrder | sendo/base.py:71-74 | the argument values are read in order, each as its own `value` gives it; the first exception stops the read and is passed on |
| Nodes.Exec.CaughtErrorRecurs | sendo/base.py:52-62 | when the `max` raises (and, every node below being in a state a read leaves, the ValueError handler then re-runs `_cache_result`), reading the argument values raises the same exception again, so the read fails with that exception either way |
| Nodes.Exec.DepCoversLeaves | sendo/base.py:55-56 | an argument's `updated_at` is no older than any Variable below it |
| Nodes.Exec.NewestCoversLeaves | sendo/base.py:53-58 | the `max` is no older than any Variable anywhere below the node |
| Nodes.Exec.GenerationCoversLeaves | sendo/base.py:61-63 | after a read, the generation is at least the `max`, the function's stamp, the previous generation (it never decreases), and every Variable below the node |
| Nodes.Exec.NewerLeafForcesRecompute | sendo/base.py:61-63 | when a Variable below the node is newer than its generation, the next read invokes the function, takes a generation no older than that Variable, and caches the freshly computed result |
| Nodes.Exec.FreshCacheKept | sendo/base.py:61-63 | when no dependency is newer than the generation, a read keeps the cache and does not invoke the function |
| Nodes.Exec.UpdatedAt | sendo/base.py:65-68 | `updated_at` returns what a read gives and leaves the cache a read leaves; the call count rises by one exactly when the read invokes the function; afterwards a second read would change nothing. Every node below keeps its cache or takes the one a read of it leaves, and invokes its function at most once, and only if a read of it would. On success every node below holds the cache a read of it leaves, has invoked its function exactly when such a read would, and is settled, so a further read of it would invoke nothing |
| Nodes.Exec.Value | sendo/base.py:76-79 | `value` returns the cached result after the read; AttributeError when none was ever assigned; call count and cache of this node and of every node below as for `UpdatedAt` |
| Nodes.Exec.AsBool | sendo/base.py:36-37 | `bool()` of an Exec node is the truthiness of its `value`, or that read's exception; the caches and call counts of this node and of the nodes below as for `UpdatedAt` |
| Nodes.Exec.ReadDepStamp | sendo/base.py:55-56 | reading an argument's `updated_at` gives a Variable's stamp, an Exec node's settled generation, or AttributeError for a plain value. On success the argument node and the nodes below it take the cache a read of each leaves, and each has invoked its function exactly when its cache changed; every other node below this one is untouched |
| Nodes.Exec.ReadDepValue | sendo/base.py:72-73 | reading an argument's `value` gives a Variable's value, an Exec node's settled result, or AttributeError for a plain value; the nodes below as for `ReadDepStamp` |
| Nodes.Exec.TryCacheResult | sendo/base.py:51-63 | recomputes exactly when there is no generation or the `max` is strictly newer; on success the cache becomes the settled one; when the `max` or the function raises, both cache fields keep their prior values and the exception is passed on; the nodes below as for `UpdatedAt` |
| Nodes.Exec.PullNewest | sendo/base.py:52-58 | the loop computes `max` over the function and the arguments in order, or the first argument's exception; every node below keeps its cache or takes a read's, and invokes its function at most once and only if a read of it would; on success every node below is refreshed as by a read of it |
| Nodes.Exec.ReadValues | sendo/base.py:71-74 | the generator reads every argument's `value` in order, positional then keyword, and stops at the first exception; the nodes below as for `PullNewest` |
| Nodes.Exec.CacheResult | sendo/base.py:70-74 | applies the function to the argument values (positional first, then keywords); `_cached_result` is assigned only when the call returns, and the generation is untouched; this node's call count rises by one once the argument values are read; the nodes below as for `PullNewest` |
| Nodes.StableBelow | sendo/base.py:51-63 | refreshing the caches of shared nodes below a node changes no argument's `updated_at` or `value` and nothing the node's read computes |
| Nodes.StableStep | sendo/base.py:53-58 | while the dependencies are pulled one by one, the reads already done leave the remaining arguments' `updated_at` and `value` as they were |
| Nodes.Stable | sendo/base.py:51-79 | if the nodes below only took the caches their own reads settle on and no Variable changed, a read of the node yields exactly what it would have yielded before |
| Enumerators.Raise | sendo/base.py:251-253 | `_try_update_updated_at`: the aggregate set to t when absent or older; its properties are in `RaiseBounds` and `RaiseLater` |
| Enumerators.RaiseBounds | sendo/base.py:251-253 | `_try_update_updated_at` leaves an aggregate at least t and the old aggregate, and it is one of the two |
| Enumerators.RaiseLater | sendo/base.py:251-253 | raising to t1 and then to a later t2 equals raising to t2 |
| Enumerators.KeysOfItems | sendo/base.py:257-258 | a key is among the enumerated keys exactly when some enumerated item carries it |
| Enumerators.AfterDiscards | sendo/base.py:265-266 | the aggregate after n discards, each raising it to the next clock reading: unchanged for none, otherwise raised to the last reading (`OneMoreDiscard`) |
| Enumerators.OneMoreDiscard | sendo/base.py:265-266 | each further discard raises the aggregate to the next clock reading |
| Enumerators.Reconcile | sendo/base.py:255-266 | `_try_update` as a function of the snapshot, the aggregate, the clock and the enumeration: the scan, then `discard` of every old key not met; its properties are in the `Reconcile*` lemmas |
| Enumerators.ReconcileFromScan | sendo/base.py:255-266 | the keys left unchecked by the scan are all still tracked, and the pass is the scan followed by their discards |
| Enumerators.Scan | sendo/base.py:256-264 | the first loop of `_try_update` over the enumerated items in order: `add` for an unknown key, `update_value` for a newer item, nothing otherwise; its properties are in the `Scan*` lemmas |
| Enumerators.ScanKeys | sendo/base.py:256-264 | the scan tracks the old keys and the enumerated ones; a key it does not meet keeps its timestamp |
| Enumerators.ScanBounds | sendo/base.py:257-263 | after the scan, every tracked timestamp is at least the old one and at least each of its items' |
| Enumerators.ScanAttained | sendo/base.py:257-263 | every tracked timestamp is the old one or one of its items' |
| Enumerators.ScanAggregate | sendo/base.py:228-240 | the scan takes one clock reading per addition; the aggregate never decreases, covers every update's timestamp, and covers the last reading once something was added |
| Enumerators.ScanAggregateAttained | sendo/base.py:257-263 | the aggregate after the scan is the old one, one of the timestamps of the items it updated, or one of the clock readings it took |
| Enumerators.ScanHooks | sendo/base.py:257-263 | with distinct keys, `enter` receives exactly the items whose key was unknown and `update` exactly those newer than the remembered stamp, both in enumeration order |
| Enumerators.ScanQuiet | sendo/base.py:257-263 | a scan that finds every key known and nothing newer changes nothing and calls no hook |
| Enumerators.ReconcileTracksSource | sendo/base.py:255-266 | after a pass the snapshot's keys are exactly the enumerated keys; `exit` is called on exactly the vanished keys; each timestamp is at least its items' and the old one, and equals one of them |
| Enumerators.ReconcileCovers | sendo/base.py:255-266 | the snapshot's keys after a pass are the enumerated keys, each no older than its items |
| Enumerators.ReconcileIdempotent | sendo/base.py:255-266 | a second pass over an unchanged enumeration changes neither the snapshot nor the aggregate, calls no hook and takes no clock reading |
| Enumerators.ReconcileQuiet | sendo/base.py:255-266 | a snapshot that tracks exactly the enumerated keys, none older than its items, is left alone by a pass |
| Enumerators.ReconcileAggregate | sendo/base.py:228-266 | the pass takes one reading per addition and per discard; the aggregate never decreases, covers every applied update, and after an addition or discard is later than the clock before the pass (after a discard, at least the last reading); it is the old aggregate, an applied update's timestamp, or one of the pass's readings |
| Enumerators.ScanStep | sendo/base.py:257-264 | one iteration of the first loop: an unknown key is added with a fresh reading, a newer item is updated to its own stamp, anything else is skipped; the key is checked off |
| Enumerators.MaxStamp | sendo/base.py:209-212 | `max` of the initial timestamps is one of them and bounds all of them; it is None (the ValueError path) exactly for an empty map |
| Enumerators.Enumerator.constructor | sendo/base.py:200-214 | the snapshot is the initial map; an explicit aggregate is kept; otherwise the aggregate is the largest initial timestamp, or None for an empty map |
| Enumerators.Enumerator.TryUpdateUpdatedAt | sendo/base.py:251-253 | raises the aggregate to t when absent or older, and changes nothing else |
| Enumerators.Enumerator.Add | sendo/base.py:228-231 | `enter` is called with the item; the key maps to the item's stamp; the aggregate is raised to a fresh clock reading |
| Enumerators.Enumerator.UpdateValue | sendo/base.py:237-240 | `update` is called with the item; the key maps to the item's stamp; the aggregate is raised to that stamp |
| Enumerators.Enumerator.Discard | sendo/base.py:246-249 | `exit` is called first; a key that is not tracked then raises KeyError with snapshot, aggregate and clock unchanged; otherwise the key is removed and the aggregate raised to a fresh reading |
| Enumerators.Enumerator.TryUpdate | sendo/base.py:255-266 | `_try_update` leaves exactly the state of `Reconcile`: its snapshot, aggregate and clock; the hook logs are extended by its entered and updated items and by its exited keys, in some order |
| Enumerators.Enumerator.ScanAll | sendo/base.py:256-264 | the first loop leaves exactly the state of `Scan` and returns the old keys not enumerated |
| Enumerators.Enumerator.DiscardAll | sendo/base.py:265-266 | the second loop removes exactly the unchecked keys, calls `exit` once per key in some order, and takes one reading per key |
| Enumerators.Enumerator.UpdatedAt | sendo/base.py:274-277 | `updated_at` reconciles and returns the resulting aggregate |
| Scenarios.Add2 | tests/test_base.py:36-38 | the test's `exec(self, a, b)` with Python's `+`: numbers (booleans as 0 and 1) add, strings concatenate; it gives an integer or a string, and every failure is TypeError |
| Scenarios.Add2Ints | tests/test_base.py:31-38 | the test's `Add2` adds two integers |
| Scenarios.SomeFunction | tests/test_base.py:100-101 | `some_function(a, b) = a ** 2 + b ** 2 - 2 * a * b` gives an integer; every failure is TypeError |
| Scenarios.AnotherFunction | tests/test_base.py:103-104 | `another_function(a) = a ** 3` gives an integer; every failure is TypeError |
| Scenarios.SomeInts | tests/test_base.py:100-101 | on two integers `some_function` is `x*x + y*y - 2*x*y` |
| Scenarios.AnotherInt | tests/test_base.py:103-104 | on an integer `another_function` is its cube |
| Scenarios.LtInts | sendo/base.py:123-124 | Lt on two integers is their `<` |
| Scenarios.NotBools | sendo/base.py:155-156 | Not on a boolean is its negation |
| Scenarios.BoolInts | sendo/base.py:147-148 | Bool on an integer is whether it is non-zero |
| Scenarios.TwoStamps | sendo/base.py:53-58 | for a node with two positional arguments, the `max` is over the function and the two arguments, or the first argument's exception |
| Scenarios.TwoValues | sendo/base.py:70-74 | for a node with two positional arguments, the function is applied to the two values, read in order |
| Scenarios.OverVariables | sendo/base.py:51-74 | a node `f(a, b)` over two Variables invokes f exactly when it is stale with respect to the newest of f, a and b, and then settles on that stamp and f's result |
| Scenarios.ValueOverVariables | sendo/base.py:76-79 | `value` of `f(a, b)` in closed form: the new result and one more call when stale, the cached result and no call otherwise |
| Scenarios.StampOverVariables | sendo/base.py:65-68 | `updated_at` of `f(a, b)` in closed form: the newest stamp when stale, the cached generation otherwise |
| Scenarios.OverVariable | sendo/base.py:51-74 | a node `f(a)` over one Variable settles as `OverVariables` does |
| Scenarios.ValueOverVariable | sendo/base.py:76-79 | `value` of `f(a)` in closed form |
| Scenarios.TruthOverVariable | sendo/base.py:36-37 | `bool()` of `f(a)` is the truthiness of its closed-form value |
| Scenarios.OneArg | sendo/base.py:51-74 | for a node with one positional argument, the `max` and the values are those of that argument |
| Scenarios.VariableHasValue | tests/test_base.py:9-27 | a new Variable(23) holds 23 with a stamp between the readings taken around its construction; after `sut.value = 53` it holds 53 with a stamp later than every earlier reading and before the next |
| Scenarios.FunctionExecutesTheProcess | tests/test_base.py:40-48 | with a = 3 and b = 5 created before `f = Add2()`, `f(a, b)` reads 8 |
| Scenarios.NewSum | tests/test_base.py:61-66 | `f = Add2(); a, b = Variable(x), Variable(y); sut = f(a, b)` leaves time-ordered stamps and an unread node |
| Scenarios.FunctionUpdatesTheResult | tests/test_base.py:61-76 | `f(a, b)` reads 8; after `a.value = 4` it reads 9, and its `updated_at` equals a's |
| Scenarios.RecalculateOnlyIfArgumentUpdated | tests/test_base.py:78-95 | the call count is 0, then 1 after the first read, still 1 after a second read, and 2 after `a.value = 4`; the values read are 8, 8, 9 |
| Scenarios.ReadAgain | sendo/base.py:61-63 | reading any Exec node's `value` twice with no Variable set in between: when the first read succeeds the second returns the same value, and over both reads that node and every node below it invoke their function exactly when a read at the start would (at most once); every node below ends with the cache a read of it at the start would leave |
| Scenarios.OverVariableAndNode | tests/test_base.py:50-59 | reading `f(a, c)` over an unread `c = f(a, b)` settles c first and then applies f to a's value and c's result |
| Scenarios.ExecutesRecursively | tests/test_base.py:50-59 | `f(a, f(a, b))` with a = 3, b = 5 reads 11 |
| Scenarios.OverNodeAndVariable | tests/test_base.py:97-122 | over a node `c = h(a)` due to recompute, `g(c, b)` settles c on h's result and the newer of h's and a's stamps, and then takes the newest of g, c and b and applies g to c's result and b's value |
| Scenarios.ValueOverNodeAndVariable | tests/test_base.py:116-122 | `value` of `g(c, b)` gives g on h(a) and b whenever it is stale; each of the two nodes keeps its generation or takes the newest stamp |
| Scenarios.NewChain | tests/test_base.py:106-113 | the chain `lazy_c = h(lazy_a)`, `sut1 = g(lazy_a, lazy_b)`, `sut2 = g(lazy_c, lazy_b)` is built unread, with stamps no later than the clock |
| Scenarios.ReadChain | tests/test_base.py:114-122 | reading sut1 then sut2 for lazy_a = x and lazy_b = 3, every node being older than lazy_a, gives g(x, 3) and g(x³, 3) |
| Scenarios.FunctionFunction | tests/test_base.py:97-122 | sut1 reads 1 and sut2 reads 25; after `lazy_a.value = 4`, sut1 reads 1 and sut2 reads 3721, which is no longer 25 |
| Scenarios.LessThan | tests/test_base.py:250-272 | `a < b` over fresh Variables x and y reads whether x < y |
| Scenarios.LtReturnsTrueIfALtB | tests/test_base.py:250-257 | `3 < 4` reads True |
| Scenarios.LtReturnsFalseIfNotALtB | tests/test_base.py:259-272 | `4 < 4` and `5 < 4` read False |
| Scenarios.LtChangesItsValue | tests/test_base.py:274-285 | `a < b` reads True, then False after `a.value = 4` |
| Scenarios.NewGreater | tests/test_base.py:356-364 | `a > b` with a = 3 and b = 4 first reads False |
| Scenarios.GtChangesItsValue | tests/test_base.py:356-371 | `a > b` reads False, True after `a.value = 5`, False after `a.value = 4` |
| Scenarios.GreaterThan | tests/test_base.py:332-354 | `a > b` over fresh Variables x and y reads whether y < x |
| Scenarios.GtReturnsTrueIfAGtB | tests/test_base.py:332-339 | `5 > 4` reads True |
| Scenarios.GtReturnsFalseIfNotAGtB | tests/test_base.py:341-354 | `4 > 4` and `3 > 4` read False |
| Scenarios.OverVariableAndRaw | sendo/base.py:53-56 | a node over a Variable and a plain value raises AttributeError on both `value` and `updated_at` |
| Scenarios.PlainOperandRaises | sendo/base.py:184-185 | `a < 4` builds a node whose read raises AttributeError, because the plain operand has no `updated_at` |
| Scenarios.NotChangesItsValue | tests/test_base.py:477-487 | `Not(a)` reads False for a = True, then True after `a.value = False` |
| Scenarios.DirectBoolRaises | tests/test_base.py:491-495 | `bool(a)` of a Variable raises TypeError |
| Scenarios.IfStatementAcceptsBoolObject | tests/test_base.py:525-537 | `bool(Bool(a))` is False for a = 0 and True after `a.value = 1` |
| Scenarios.ItemKeys | tests/test_base.py:127-130 | the keys of the list `[a, b(, c)]` are the keys of the map built from it |
| Scenarios.NewestInitial | sendo/base.py:208-210 | the initial aggregate is the timestamp of the key holding the newest one |
| Scenarios.ReadUnchanged | tests/test_base.py:165 | reading over the list the enumerator was built from changes nothing |
| Scenarios.ScanAfterUpdate | tests/test_base.py:166-168 | once a is newer, the scan calls `update` on a alone and raises the aggregate to a's stamp |
| Scenarios.ReadAfterUpdate | tests/test_base.py:166-168 | the whole pass after a's update: `update` on a alone, nothing discarded |
| Scenarios.ScanAfterAddition | tests/test_base.py:182-188 | once c is appended, the scan calls `enter` on c alone with a fresh reading |
| Scenarios.ReadAfterAddition | tests/test_base.py:182-188 | the whole pass after c's addition: `enter` on c alone, nothing discarded |
| Scenarios.ReadUnchangedList | tests/test_base.py:165 | `updated_at` over the unchanged list returns the current aggregate and changes nothing |
| Scenarios.ReadUpdatedList | tests/test_base.py:168 | `updated_at` after a's update returns the aggregate raised to a's new stamp |
| Scenarios.ReadGrownList | tests/test_base.py:182-188 | `updated_at` after c is appended returns the aggregate raised to a fresh reading |
| Scenarios.EnumeratorDetectsMemberUpdate | tests/test_base.py:155-168 | over `[a, b, c]` the enumerator reports c's stamp, then a's new stamp once `a.value` is set |
| Scenarios.EnumeratorDetectsMemberAddition | tests/test_base.py:170-188 | over `[a, b]` it reports b's stamp; once c is appended, it reports a time after a reading taken after the append; a second read after a further reading reports the same time, earlier than that reading |

## Left out

- `get_dt()` reads the wall clock (sendo/base.py:19-20). It is replaced by the `Clock` counter, which assumes strictly increasing readings. A real clock can return the same instant twice, and then `newest > self._updated_at` fails. Timezones are not modelled.
- Values are integers, booleans and strings, and a user callable is a pure function from the argument values to a value or an exception. Python's arbitrary objects, `*args`/`**kwargs` unpacking and generic typing are not modelled.
- The callable's own side effects are not modelled. The tests' `_call_count` field becomes a ghost counter `calls` on each Exec node, raised whenever that node invokes its function.
- A Function node passed as an argument is not modelled: a Function node appears only as an Exec node's function. Arguments are Variables, Exec nodes or plain values.
- The chain passed to `max` always contains the function node, so `max` never sees an empty sequence. The `except ValueError` around it (sendo/base.py:59-60) is still reached: the `map` is lazy, so a ValueError raised by a dependency's `updated_at` (a user callable below raising ValueError) is caught there too.
- Nodes.Exec.TryCacheResult: on a caught ValueError the source takes a fresh `get_dt()` reading, finds the node stale and re-runs `_cache_result`, which reads the argument values again and so invokes the failing callable below once more (in a chain of n such nodes the failing callable runs 2^n times) before the same exception propagates. The model passes the exception on directly: it takes no clock reading there and does not count those repeated invocations. The outcome agrees: `Nodes.Exec.CaughtErrorRecurs` shows that the re-run raises the same exception, and neither the cache nor the generation of this node changes in either version. A ValueError is the `ValueError` error kind; its message is not modelled.
- A plain operand of a comparison is not wrapped in a node. Reading its `updated_at` raises AttributeError (`Dep.RawDep`, `Scenarios.PlainOperandRaises`).
- The process-wide operator instances `Eq`, `Lt`, `Le`, `Ne`, `Bool` and `Not` (sendo/base.py:159-164) are an `Operators` object passed to the comparison methods and the scenarios.
- Python's reflection of `>` and `>=` is stated directly as `Variable.Gt` and `Variable.Ge`. A right operand that is not a Variable raises TypeError in the source; that case is not modelled. The missing `__hash__` that follows from defining `__eq__` is not modelled.
- `BaseEnumerator.value` (sendo/base.py:279-282) is not modelled: it returns `_cached_result`, which nothing ever assigns.
- The ABC machinery (`ABCMeta`, `abstractmethod`, sendo/base.py:23, 31-34, 216-244) is not modelled. The abstract hooks `enter`, `update` and `exit` are recorded as logs of their arguments. `enumerate()` and `get_key` become a sequence of items (key and `updated_at`) passed to each read.
- `get_addition_dt` and `get_deletion_dt` (sendo/base.py:268-272) are the `get_dt` clock; overriding them in a subclass is not modelled.
- The second loop of `_try_update` iterates a Python set, whose order is not specified. `DiscardAll` picks an arbitrary order, so the exit log is stated as some ordering of the unchecked keys (`Appended`), not as a particular sequence.
- Enumerators.ScanHooks: requires distinct keys in one enumeration. With a repeated key, the second occurrence is compared against the stamp the first one just stored, which `Scan` itself models.
- The model does not capture aliasing between a Variable inside an enumerated list and the enumerator. A scenario passes each element's current stamp explicitly.
- `BaseEnumerator.__init__` keeps the caller's dict by reference (sendo/base.py:205-207), and `add`, `update_value` and `discard` then mutate that dict in place, visibly to the caller. The model's `Enumerator` copies the initial map into its `snapshot` field, so the caller's map is never changed.
- `_try_update` stops part-way when an enumerated item's `updated_at` raises or a hook raises: the snapshot keeps the additions and updates made so far and nothing is discarded. The model's items carry `nat` stamps and its hooks are logs that cannot raise, so every pass runs to the end.
- `Scenarios.Add2`, `SomeFunction` and `AnotherFunction` cover integers, booleans and strings; other Python operands (floats, lists) are outside the value model.
- The other per-operator tests are not replayed one by one: Eq (tests/test_base.py:191-246), Le (288-329), Ge (374-415), Ne (417-452), Not on a fixed value (461-475) and Bool (497-523). Each is an instance of `Builtins.BinaryOperators` or `Builtins.UnaryOperators` and of the closed forms `Scenarios.ValueOverVariables` and `Scenarios.ValueOverVariable`.
- `tests/test_base.py:455-459` applies `not` to a Variable directly. That is `__bool__`, which `Nodes.Variable.AsBool` models as TypeError.
