# funcwrap's argument binder, in Dafny

`funcwrap.wraps(model, target)` builds a wrapper that accepts exactly the calls
the `model` callable accepts. The wrapper binds each call against the model's
parameter list and then calls `target(*args, **kwargs)` with the bound values.
For a rejected call it raises `TypeError` and never reaches the target. The
binding rules are Python's:
- section 6.3.4 ("Calls") of the Python Language Reference;
- PEP 3102 for keyword-only parameters;
- PEP 570 for positional-only parameters.

The test suite's probe target `called(*args, **kwargs)` returns
`(args, kwargs)` (test_funcwrap.py:226-227). So every test assertion is a
statement about what the binder forwards.

The project models that binder as a pure function. It also proves the binder
equal to an independent slot-by-slot description of Python's rules, proves
the forwarding properties the tests rely on, and settles every call in the
test suite by evaluation.

| file | module | contents |
|---|---|---|
| wrappers.dfy | `Wrappers` | `Option`, `Result` |
| keywords.dfy | `Keywords` | keyword arguments as an ordered list of `(name, value)` pairs: lookup, removal, repeated names |
| signature.dfy | `Signature` | parameter kinds, `Param(name, kind, default)`, `WellFormed` (the shape every Python signature has), `Bound` (what a call forwards) |
| binding.dfy | `Binding` | `Walk`, the single left-to-right pass over the parameters; `Bind`, the binder with the duplicate-keyword check |
| reference.dfy | `Reference` | `Accepts` and `Expected`: which calls are valid and what is forwarded, stated per parameter slot |
| correctness.dfy | `Correctness` | `BindMatchesReference`: the walk is the reference, in both directions |
| evaluation.dfy | `Evaluation` | the same binder in cursor-and-accumulator form, proved equal to `Bind` |
| properties.dfy | `Properties` | the general properties the tests exercise |
| reforward.dfy | `Reforward` | binding the forwarded values again gives the same binding |
| scenarios.dfy | `Scenarios` | every call of the test suite, on a hand-written parameter list |

Design points:
- The value type is a type parameter `V`. A default can reach the output only
  as the stored value itself, so the default-identity test (lines 89-96)
  becomes a theorem about any `V`.
- A rejected call yields `Err(e)`. The error kinds follow Python's `TypeError`
  messages:
  - a keyword repeated at the call site;
  - multiple values for one argument;
  - a missing positional argument;
  - a missing keyword-only argument;
  - too many positional arguments;
  - an unexpected keyword;
  - a positional-only parameter passed by keyword.
- The keywords forwarded are the keyword-only parameters in declaration
  order, then the leftover keywords in the order the call gave them.

## Model

| member | source | states |
|---|---|---|
| Binding.Bind | test_funcwrap.py:119-125 | an accepted call repeats no keyword, and its positional values open the forwarded tuple in call order |
| Correctness.BindMatchesReference | test_funcwrap.py:69-86 | for a well-formed parameter list, a call binds exactly when its keywords are distinct and Python's per-slot rules accept it; what is forwarded is then the slot values plus the surplus positionals, and the keyword-only values plus the unclaimed keywords |
| Evaluation.EvaluateIsBind | test_funcwrap.py:226-227 | the cursor-and-accumulator binder forwards the same values and rejects the same calls, with the same error, as `Bind`, on every input |
| Reforward.ReforwardIdentity | test_funcwrap.py:226-227 | calling the same parameter list with what the wrapper forwarded binds to exactly that again, so the target sees what the model would have bound |
| Properties.EmptySignature | test_funcwrap.py:12-19 | a parameter list with no parameters accepts only the empty call and forwards `((), {})` |
| Properties.PositionalSlot | test_funcwrap.py:36-40 | positional parameter `j` is forwarded at index `j`: the `j`-th positional value if there is one, else the keyword value (never for positional-only), else exactly its stored default |
| Properties.KeywordOnlySlot | test_funcwrap.py:183-184 | a keyword-only parameter is forwarded under its name with the supplied value, else with exactly its stored default |
| Properties.PositionOrName | test_funcwrap.py:27-28 | giving the next positional-or-keyword parameter by position, or by name at any place among the other keywords, binds to the same result, errors included |
| Properties.MissingPositionalRejected | test_funcwrap.py:29-30 | a required positional parameter given neither by position nor (when allowed) by name makes the call fail |
| Properties.MissingKeywordOnlyRejected | test_funcwrap.py:188 | a required keyword-only parameter not named in the call makes the call fail |
| Properties.TooManyPositionalRejected | test_funcwrap.py:65-66 | without `*args`, more positional values than positional parameters make the call fail |
| Properties.UnclaimedForwarded | test_funcwrap.py:107-108 | a keyword entry that no named parameter takes binds only where `**kwargs` exists, and is then forwarded among the keywords after the keyword-only parameters |
| Properties.UnexpectedKeywordRejected | test_funcwrap.py:54-55 | without `**kwargs`, a keyword that names no parameter assignable by name makes the call fail |
| Properties.DoubleBindingRejected | test_funcwrap.py:152 | a positional-or-keyword parameter given both by position and by name makes the call fail |
| Properties.PositionalOnlyNotByName | test_funcwrap.py:198-199 | a positional-only parameter is never filled by name. Without `**kwargs` the call fails. With it, the parameter takes its stored default and the named entry is forwarded as a keyword |
| Properties.PositionalShape | test_funcwrap.py:50-53 | the forwarded tuple has one entry per positional parameter or per positional value, whichever is more, and more values than parameters bind only where `*args` takes them |
| Properties.KeywordShape | test_funcwrap.py:72-80 | the forwarded keywords start with the keyword-only names in declared order and repeat no name; every later entry is an entry of the call that no named parameter takes, and such entries exist only where `**kwargs` takes them |
| Scenarios.NoArgsCalls | test_funcwrap.py:16-19 | `wrapped()` forwards `((), {})` for the empty call and rejects a positional or keyword argument |
| Scenarios.DecoratorCalls | test_funcwrap.py:27-30 | `(a, b=-1)`: the calls by position, by name and mixed forward `(0, -1)` or `(0, 1)`; no `a` is rejected |
| Scenarios.PositionalArgumentsCalls | test_funcwrap.py:35-44 | the same parameter list, plus rejection of an unknown keyword and of a third positional value |
| Scenarios.VarArgsCalls | test_funcwrap.py:49-55 | `(*args)` forwards every positional value and rejects any keyword |
| Scenarios.KwargsCalls | test_funcwrap.py:60-66 | `(**kwargs)` forwards every keyword in call order and rejects any positional value |
| Scenarios.AllKindsRequiredByPosition | test_funcwrap.py:72 | `f(0, c=1)` forwards `((0, -1), {c: 1, d: -1})` |
| Scenarios.AllKindsRequiredByName | test_funcwrap.py:73 | `f(a=0, c=1)` forwards `((0, -1), {c: 1, d: -1})` |
| Scenarios.AllKindsOptionalByPosition | test_funcwrap.py:74 | `f(0, 1, c=2)` forwards `((0, 1), {c: 2, d: -1})` |
| Scenarios.AllKindsOptionalByName | test_funcwrap.py:75 | `f(0, b=1, c=2)` forwards `((0, 1), {c: 2, d: -1})` |
| Scenarios.AllKindsSurplusPositional | test_funcwrap.py:76 | `f(0, 1, 2, 3, c=4)` forwards `((0, 1, 2, 3), {c: 4, d: -1})` |
| Scenarios.AllKindsKeywordOnlySupplied | test_funcwrap.py:77 | `f(0, c=1, d=2)` forwards `((0, -1), {c: 1, d: 2})` |
| Scenarios.AllKindsLeftoverKeyword | test_funcwrap.py:78 | `f(0, c=1, d=2, e=3)` forwards `((0, -1), {c: 1, d: 2, e: 3})` |
| Scenarios.AllKindsEverySlot | test_funcwrap.py:79-80 | `f(0, 1, 2, 3, c=4, d=5, e=6)` forwards `((0, 1, 2, 3), {c: 4, d: 5, e: 6})` |
| Scenarios.AllKindsRejected | test_funcwrap.py:81-86 | the six calls missing `a` or `c`, or giving `b` twice, are rejected |
| Scenarios.DefaultValueIdentity | test_funcwrap.py:89-96 | `(a=x)` forwards the very `x` when `a` is omitted, and the supplied `y` (not `x`) when it is given |
| Scenarios.LambdaByPosition | test_funcwrap.py:102-104 | `(a, b=-1, *args, **kwargs)` forwards one, two or three positional values in order, the default filling `b` |
| Scenarios.LambdaByName | test_funcwrap.py:105-106 | the same parameter list given `a` and `b` by name forwards them positionally |
| Scenarios.LambdaLeftovers | test_funcwrap.py:107-108 | unknown keywords are forwarded as keywords |
| Scenarios.LambdaRejected | test_funcwrap.py:109-110 | calls without `a` are rejected |
| Scenarios.InstanceByPosition | test_funcwrap.py:119-121 | a callable instance's `__call__(self, a, b=-1, *args, **kwargs)`, with the instance passed first, forwards it first |
| Scenarios.InstanceByName | test_funcwrap.py:122-123 | the same list with `a` and `b` by name |
| Scenarios.InstanceLeftoverKeyword | test_funcwrap.py:124 | an unknown keyword `c` is forwarded as a keyword |
| Scenarios.InstanceSurplusAndKeyword | test_funcwrap.py:125 | surplus positional values and an unknown keyword are both forwarded |
| Scenarios.InstanceRejected | test_funcwrap.py:126-127 | calls without `self` and `a` are rejected |
| Scenarios.PartialByNameDefaults | test_funcwrap.py:135 | `partial(wrapped, a=-1, b=-2)` forwards the pre-applied values as keyword defaults |
| Scenarios.PartialByNameOverride | test_funcwrap.py:136 | supplied `a` and `b` replace the pre-applied values |
| Scenarios.PartialByNameRejected | test_funcwrap.py:137-139 | calls without `c` are rejected |
| Scenarios.PartialByPositionCalls | test_funcwrap.py:148-152 | `partial(wrapped, -1, -2)` leaves `(c, *args, **kwargs)`; `c` twice or missing is rejected |
| Scenarios.KeywordOnlyCalls | test_funcwrap.py:182-188 | `(*, c, d=-1)` forwards both by name, `d` defaulted; positional values and a missing `c` are rejected |
| Scenarios.PositionalOnlyCalls | test_funcwrap.py:193-200 | `(a, b=-1, /)` takes values only by position; naming `a` or `b`, or an unknown keyword, is rejected |
| Scenarios.MixedPositionalOnlyLeading | test_funcwrap.py:207-208 | `(a, b=-1, /, c=-1, *args, d, **kwargs)` fills the defaults after the positional values given |
| Scenarios.MixedPositionalOnlyTrailing | test_funcwrap.py:209-210 | the same list with values up to and beyond `c`, the surplus going to `*args` |
| Scenarios.MixedPositionalOnlyByName | test_funcwrap.py:211-212 | `c` can be named; an unknown keyword is forwarded after `d` |
| Scenarios.MixedPositionalOnlyRejected | test_funcwrap.py:213-216 | calls without `a` or `d` are rejected |
| Scenarios.SpecialNameCalls | test_funcwrap.py:220-223 | a parameter called `__call__` binds like any other, by position, by name or by default |

## Left out

- setup.py is packaging metadata. It reads the module's version by `exec`; it has no binding behaviour.
- funcwrap.py is not part of this model. The binder is modelled from the behaviour the tests pin and from Python's binding rules.
- Deriving a parameter list from a lambda, a bound `__call__` or a `functools.partial` is Python introspection. The scenarios write the resulting lists by hand:
  - line 118 gives `(self, a, b=-1, *args, **kwargs)`, since the expected output starts with the instance;
  - line 133 gives keyword-only `a=-1, b=-2, c` plus `**kwargs`;
  - line 145 gives `(c, *args, **kwargs)`.
- Annotations and their identity (lines 155-177) are introspection metadata with no effect on binding.
- The two-phase form `wraps(wrapped)(called)` (line 26) is currying around the same binder. DecoratorCalls binds the same parameter list.
- The generated code behind the wrapper is not modelled, and neither is how it avoids clashes with names such as `__call__` (lines 219-223). In the model such a name is an ordinary string.
- The pytest skip markers and the Python version gating (lines 191, 203) are not modelled.
- Invoking the target, and passing its result or exception through, is a foreign call.
- Error kinds:
  - The tests pin only `TypeError`, so the scenarios state only that a call is rejected.
  - When a call has several faults, the model names the first one the left-to-right walk meets. CPython's message can name another. For `(*, c, d=-1)` called with `f(0)`, CPython reports the surplus positional value; the model reports the missing `c`.
  - A leftover keyword naming a positional-only parameter is reported as `PositionalOnlyAsKeyword` when it is the first leftover keyword, following CPython's message. CPython checks every keyword for positional-only names, so for `(a, b=-1, /)` called as `f(0, x=1, b=2)` it reports `b` where the model reports `UnexpectedKeyword("x")`. Both labels are a rejection.
- Keyword arguments arrive as an ordered list of pairs. A name repeated at the call site is rejected as `DuplicateKeyword`, as Python rejects it before binding. The forwarded keywords are an ordered list; the tests compare them as a dict, where order does not matter.
- The parameter lists in `Scenarios` are not proved `WellFormed`. Their calls are settled by evaluating `Evaluation.Evaluate`, which `Evaluation.EvaluateIsBind` proves equal to `Binding.Bind` on every input, and need no well-formedness.
