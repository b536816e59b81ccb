/**
 * The wrapper's documented behaviour on concrete signatures, one lemma per
 * group of calls.  Each parameter list is the one Python derives for the
 * wrapped callable; every claim is settled by evaluating the binder.
 */
module Scenarios {
  import opened Wrappers
  import opened Keywords
  import opened Signature
  import opened Binding
  import opened Evaluation

  /** The call binds, and forwards exactly these positionals and keywords. */
  ghost predicate Forwards<V>(r: Result<Bound<V>, BindError>, positional: seq<V>, keywords: Keywords<V>)
  {
    r.Ok? && r.value.positional == positional && r.value.keywords == keywords
  }

  /** `def wrapped()` */
  const NoParams: seq<Param<int>> := []

  /** `lambda a, b=-1: None` */
  const TwoParams: seq<Param<int>> :=
    [Param("a", PositionalOrKeyword, None), Param("b", PositionalOrKeyword, Some(-1))]

  /** `lambda *args: None` */
  const OnlyVarPositional: seq<Param<int>> := [Param("args", VarPositional, None)]

  /** `lambda **kwargs: None` */
  const OnlyVarKeyword: seq<Param<int>> := [Param("kwargs", VarKeyword, None)]

  /** `lambda a, b=-1, *args, c, d=-1, **kwargs: None` */
  const AllKinds: seq<Param<int>> :=
    [Param("a", PositionalOrKeyword, None), Param("b", PositionalOrKeyword, Some(-1)),
     Param("args", VarPositional, None), Param("c", KeywordOnly, None),
     Param("d", KeywordOnly, Some(-1)), Param("kwargs", VarKeyword, None)]

  /** `lambda a, b=-1, *args, **kwargs: None` */
  const LambdaParams: seq<Param<int>> :=
    [Param("a", PositionalOrKeyword, None), Param("b", PositionalOrKeyword, Some(-1)),
     Param("args", VarPositional, None), Param("kwargs", VarKeyword, None)]

  /** `def __call__(self, a, b=-1, *args, **kwargs)` of an instance, with `self` passed explicitly. */
  const InstanceParams: seq<Param<int>> :=
    [Param("self", PositionalOrKeyword, None), Param("a", PositionalOrKeyword, None),
     Param("b", PositionalOrKeyword, Some(-1)), Param("args", VarPositional, None),
     Param("kwargs", VarKeyword, None)]

  /** `functools.partial(wrapped, a=-1, b=-2)` of `def wrapped(a, b, c, *args, **kwargs)`. */
  const PartialByName: seq<Param<int>> :=
    [Param("a", KeywordOnly, Some(-1)), Param("b", KeywordOnly, Some(-2)),
     Param("c", KeywordOnly, None), Param("kwargs", VarKeyword, None)]

  /** `functools.partial(wrapped, -1, -2)` of `def wrapped(a, b, c, *args, **kwargs)`. */
  const PartialByPosition: seq<Param<int>> :=
    [Param("c", PositionalOrKeyword, None), Param("args", VarPositional, None),
     Param("kwargs", VarKeyword, None)]

  /** `lambda *, c, d=-1: None` */
  const OnlyKeywordOnly: seq<Param<int>> := [Param("c", KeywordOnly, None), Param("d", KeywordOnly, Some(-1))]

  /** `lambda a, b=-1, /: None` */
  const OnlyPositionalOnly: seq<Param<int>> :=
    [Param("a", PositionalOnly, None), Param("b", PositionalOnly, Some(-1))]

  /** `lambda a, b=-1, /, c=-1, *args, d, **kwargs: None` */
  const MixedPositionalOnly: seq<Param<int>> :=
    [Param("a", PositionalOnly, None), Param("b", PositionalOnly, Some(-1)),
     Param("c", PositionalOrKeyword, Some(-1)), Param("args", VarPositional, None),
     Param("d", KeywordOnly, None), Param("kwargs", VarKeyword, None)]

  /** `lambda __call__=-1: None` */
  const SpecialName: seq<Param<int>> := [Param("__call__", PositionalOrKeyword, Some(-1))]

  lemma NoArgsCalls()
    ensures Forwards(Evaluate(NoParams, [], []), [], [])
    ensures Evaluate(NoParams, [0], []).Err?
    ensures Evaluate(NoParams, [], [("a", 0)]).Err?
  {
  }

  lemma DecoratorCalls()
    ensures Forwards(Evaluate(TwoParams, [0], []), [0, -1], [])
    ensures Forwards(Evaluate(TwoParams, [], [("a", 0)]), [0, -1], [])
    ensures Forwards(Evaluate(TwoParams, [0, 1], []), [0, 1], [])
    ensures Forwards(Evaluate(TwoParams, [0], [("b", 1)]), [0, 1], [])
    ensures Forwards(Evaluate(TwoParams, [], [("a", 0), ("b", 1)]), [0, 1], [])
    ensures Evaluate(TwoParams, [], []).Err?
    ensures Evaluate(TwoParams, [], [("b", 0)]).Err?
  {
  }

  lemma PositionalArgumentsCalls()
    ensures Forwards(Evaluate(TwoParams, [0], []), [0, -1], [])
    ensures Forwards(Evaluate(TwoParams, [], [("a", 0)]), [0, -1], [])
    ensures Forwards(Evaluate(TwoParams, [0, 1], []), [0, 1], [])
    ensures Forwards(Evaluate(TwoParams, [0], [("b", 1)]), [0, 1], [])
    ensures Forwards(Evaluate(TwoParams, [], [("a", 0), ("b", 1)]), [0, 1], [])
    ensures Evaluate(TwoParams, [], []).Err?
    ensures Evaluate(TwoParams, [], [("b", 1)]).Err?
    ensures Evaluate(TwoParams, [], [("a", 0), ("b", 1), ("c", 2)]).Err?
    ensures Evaluate(TwoParams, [0, 1, 2], []).Err?
  {
  }

  lemma VarArgsCalls()
    ensures Forwards(Evaluate(OnlyVarPositional, [], []), [], [])
    ensures Forwards(Evaluate(OnlyVarPositional, [0], []), [0], [])
    ensures Forwards(Evaluate(OnlyVarPositional, [0, 1], []), [0, 1], [])
    ensures Forwards(Evaluate(OnlyVarPositional, [0, 1, 2], []), [0, 1, 2], [])
    ensures Evaluate(OnlyVarPositional, [], [("a", 0)]).Err?
    ensures Evaluate(OnlyVarPositional, [0], [("b", 1)]).Err?
  {
  }

  lemma KwargsCalls()
    ensures Forwards(Evaluate(OnlyVarKeyword, [], []), [], [])
    ensures Forwards(Evaluate(OnlyVarKeyword, [], [("a", 0)]), [], [("a", 0)])
    ensures Forwards(Evaluate(OnlyVarKeyword, [], [("a", 0), ("b", 1)]), [], [("a", 0), ("b", 1)])
    ensures Forwards(Evaluate(OnlyVarKeyword, [], [("a", 0), ("b", 1), ("c", 2)]), [], [("a", 0), ("b", 1), ("c", 2)])
    ensures Evaluate(OnlyVarKeyword, [0], []).Err?
    ensures Evaluate(OnlyVarKeyword, [0, 1], []).Err?
  {
  }

  lemma AllKindsRequiredByPosition()
    ensures Forwards(Evaluate(AllKinds, [0], [("c", 1)]), [0, -1], [("c", 1), ("d", -1)])
  {
  }

  lemma AllKindsRequiredByName()
    ensures Forwards(Evaluate(AllKinds, [], [("a", 0), ("c", 1)]), [0, -1], [("c", 1), ("d", -1)])
  {
  }

  lemma AllKindsOptionalByPosition()
    ensures Forwards(Evaluate(AllKinds, [0, 1], [("c", 2)]), [0, 1], [("c", 2), ("d", -1)])
  {
  }

  lemma AllKindsOptionalByName()
    ensures Forwards(Evaluate(AllKinds, [0], [("b", 1), ("c", 2)]), [0, 1], [("c", 2), ("d", -1)])
  {
  }

  lemma AllKindsSurplusPositional()
    ensures Forwards(Evaluate(AllKinds, [0, 1, 2, 3], [("c", 4)]), [0, 1, 2, 3], [("c", 4), ("d", -1)])
  {
  }

  lemma AllKindsKeywordOnlySupplied()
    ensures Forwards(Evaluate(AllKinds, [0], [("c", 1), ("d", 2)]), [0, -1], [("c", 1), ("d", 2)])
  {
  }

  lemma AllKindsLeftoverKeyword()
    ensures Forwards(Evaluate(AllKinds, [0], [("c", 1), ("d", 2), ("e", 3)]), [0, -1], [("c", 1), ("d", 2), ("e", 3)])
  {
  }

  lemma AllKindsEverySlot()
    ensures Forwards(Evaluate(AllKinds, [0, 1, 2, 3], [("c", 4), ("d", 5), ("e", 6)]),
                     [0, 1, 2, 3], [("c", 4), ("d", 5), ("e", 6)])
  {
  }

  lemma AllKindsRejected()
    ensures Evaluate(AllKinds, [], []).Err?
    ensures Evaluate(AllKinds, [0], []).Err?
    ensures Evaluate(AllKinds, [], [("c", 4)]).Err?
    ensures Evaluate(AllKinds, [], [("a", 0)]).Err?
    ensures Evaluate(AllKinds, [0, 4], []).Err?
    ensures Evaluate(AllKinds, [0, 4], [("b", 1)]).Err?
  {
  }

  /** An omitted argument is forwarded as the very default object; a supplied one replaces it. */
  lemma DefaultValueIdentity<V>(x: V, y: V)
    ensures Forwards(Evaluate([Param("a", PositionalOrKeyword, Some(x))], [], []), [x], [])
    ensures x != y ==> !Forwards(Evaluate([Param("a", PositionalOrKeyword, Some(x))], [y], []), [x], [])
    ensures Forwards(Evaluate([Param("a", PositionalOrKeyword, Some(x))], [y], []), [y], [])
  {
    var ps := [Param("a", PositionalOrKeyword, Some(x))];
    assert !Pending<V>([], 0, "a", {});
    assert ps[0].kind == PositionalOrKeyword && ps[0].default == Some(x);
    assert [] + [x] == [x] && [] + [[y][0]] == [y];
    assert Leftover<V>([], 0, {}) == [];
    assert Run(ps, 0, [], 0, [], {}, [], []) == Run(ps, 1, [], 0, [], {}, [x], []) == Ok(Bound([x], []));
    assert Run(ps, 0, [y], 0, [], {}, [], []) == Run(ps, 1, [y], 1, [], {}, [y], []) == Ok(Bound([y], []));
  }

  lemma LambdaByPosition()
    ensures Forwards(Evaluate(LambdaParams, [0], []), [0, -1], [])
    ensures Forwards(Evaluate(LambdaParams, [0, 1], []), [0, 1], [])
    ensures Forwards(Evaluate(LambdaParams, [0, 1, 2], []), [0, 1, 2], [])
  {
  }

  lemma LambdaByName()
    ensures Forwards(Evaluate(LambdaParams, [], [("a", 0)]), [0, -1], [])
    ensures Forwards(Evaluate(LambdaParams, [], [("a", 0), ("b", 1)]), [0, 1], [])
  {
  }

  lemma LambdaLeftovers()
    ensures Forwards(Evaluate(LambdaParams, [], [("a", 0), ("b", 1), ("c", 2)]), [0, 1], [("c", 2)])
    ensures Forwards(Evaluate(LambdaParams, [0, 1, 2], [("d", 3)]), [0, 1, 2], [("d", 3)])
  {
  }

  lemma LambdaRejected()
    ensures Evaluate(LambdaParams, [], [("b", 1)]).Err?
    ensures Evaluate(LambdaParams, [], [("b", 1), ("c", 1)]).Err?
  {
  }

  /** The instance `w` is passed explicitly as `self`, and forwarded first. */
  lemma InstanceByPosition(w: int)
    ensures Forwards(Evaluate(InstanceParams, [w, 0], []), [w, 0, -1], [])
    ensures Forwards(Evaluate(InstanceParams, [w, 0, 1], []), [w, 0, 1], [])
    ensures Forwards(Evaluate(InstanceParams, [w, 0, 1, 2], []), [w, 0, 1, 2], [])
  {
  }

  lemma InstanceByName(w: int)
    ensures Forwards(Evaluate(InstanceParams, [w], [("a", 0)]), [w, 0, -1], [])
    ensures Forwards(Evaluate(InstanceParams, [w], [("a", 0), ("b", 1)]), [w, 0, 1], [])
  {
  }

  lemma InstanceLeftoverKeyword(w: int)
    ensures Forwards(Evaluate(InstanceParams, [w], [("a", 0), ("b", 1), ("c", 2)]), [w, 0, 1], [("c", 2)])
  {
  }

  lemma InstanceSurplusAndKeyword(w: int)
    ensures Forwards(Evaluate(InstanceParams, [w, 0, 1, 2], [("d", 3)]), [w, 0, 1, 2], [("d", 3)])
  {
  }

  lemma InstanceRejected()
    ensures Evaluate(InstanceParams, [], [("b", 1)]).Err?
    ensures Evaluate(InstanceParams, [], [("b", 1), ("c", 1)]).Err?
  {
  }

  lemma PartialByNameDefaults()
    ensures Forwards(Evaluate(PartialByName, [], [("c", 0), ("d", 1)]), [], [("a", -1), ("b", -2), ("c", 0), ("d", 1)])
  {
  }

  lemma PartialByNameOverride()
    ensures Forwards(Evaluate(PartialByName, [], [("a", 0), ("b", 1), ("c", 2)]), [], [("a", 0), ("b", 1), ("c", 2)])
  {
  }

  lemma PartialByNameRejected()
    ensures Evaluate(PartialByName, [], []).Err?
    ensures Evaluate(PartialByName, [], [("a", 1)]).Err?
    ensures Evaluate(PartialByName, [], [("b", 1)]).Err?
  {
  }

  lemma PartialByPositionCalls()
    ensures Forwards(Evaluate(PartialByPosition, [0], []), [0], [])
    ensures Forwards(Evaluate(PartialByPosition, [], [("c", 0)]), [0], [])
    ensures Forwards(Evaluate(PartialByPosition, [0, 1], [("d", 2)]), [0, 1], [("d", 2)])
    ensures Evaluate(PartialByPosition, [], []).Err?
    ensures Evaluate(PartialByPosition, [0], [("c", 1)]).Err?
  {
  }

  lemma KeywordOnlyCalls()
    ensures Forwards(Evaluate(OnlyKeywordOnly, [], [("c", 0)]), [], [("c", 0), ("d", -1)])
    ensures Forwards(Evaluate(OnlyKeywordOnly, [], [("c", 0), ("d", 1)]), [], [("c", 0), ("d", 1)])
    ensures Evaluate(OnlyKeywordOnly, [], []).Err?
    ensures Evaluate(OnlyKeywordOnly, [0], []).Err?
    ensures Evaluate(OnlyKeywordOnly, [0, 1], []).Err?
    ensures Evaluate(OnlyKeywordOnly, [], [("d", 1)]).Err?
  {
  }

  lemma PositionalOnlyCalls()
    ensures Forwards(Evaluate(OnlyPositionalOnly, [0], []), [0, -1], [])
    ensures Forwards(Evaluate(OnlyPositionalOnly, [0, 1], []), [0, 1], [])
    ensures Evaluate(OnlyPositionalOnly, [], []).Err?
    ensures Evaluate(OnlyPositionalOnly, [], [("a", 0)]).Err?
    ensures Evaluate(OnlyPositionalOnly, [0], [("b", 1)]).Err?
    ensures Evaluate(OnlyPositionalOnly, [0, 1], [("c", 2)]).Err?
  {
  }

  lemma MixedPositionalOnlyLeading()
    ensures Forwards(Evaluate(MixedPositionalOnly, [0], [("d", 1)]), [0, -1, -1], [("d", 1)])
    ensures Forwards(Evaluate(MixedPositionalOnly, [0, 1], [("d", 2)]), [0, 1, -1], [("d", 2)])
  {
  }

  lemma MixedPositionalOnlyTrailing()
    ensures Forwards(Evaluate(MixedPositionalOnly, [0, 1, 2], [("d", 3)]), [0, 1, 2], [("d", 3)])
    ensures Forwards(Evaluate(MixedPositionalOnly, [0, 1, 2, 3], [("d", 4)]), [0, 1, 2, 3], [("d", 4)])
  {
  }

  lemma MixedPositionalOnlyByName()
    ensures Forwards(Evaluate(MixedPositionalOnly, [0], [("c", 1), ("d", 2)]), [0, -1, 1], [("d", 2)])
    ensures Forwards(Evaluate(MixedPositionalOnly, [0], [("d", 1), ("e", 2)]), [0, -1, -1], [("d", 1), ("e", 2)])
  {
  }

  lemma MixedPositionalOnlyRejected()
    ensures Evaluate(MixedPositionalOnly, [], []).Err?
    ensures Evaluate(MixedPositionalOnly, [0], []).Err?
    ensures Evaluate(MixedPositionalOnly, [0, 1], []).Err?
    ensures Evaluate(MixedPositionalOnly, [], [("d", 1)]).Err?
  {
  }

  lemma SpecialNameCalls()
    ensures Forwards(Evaluate(SpecialName, [], []), [-1], [])
    ensures Forwards(Evaluate(SpecialName, [0], []), [0], [])
    ensures Forwards(Evaluate(SpecialName, [], [("__call__", 0)]), [0], [])
  {
  }
}
