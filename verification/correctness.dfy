/**
 * The single-pass binder agrees with the slot-by-slot reference: on a
 * well-formed parameter list it accepts exactly the calls the reference
 * accepts, and forwards exactly the reference's values.
 */
module Correctness {
  import opened Wrappers
  import opened Keywords
  import opened Signature
  import opened Binding
  import opened Reference

  /** The positional values left after one parameter has had its turn. */
  function Advance<V>(pos: seq<V>): seq<V>
  {
    if pos == [] then [] else pos[1..]
  }

  /** `rest'` answers like `rest` for every name other than `n`. */
  ghost predicate AgreeExcept<V>(rest: Keywords<V>, rest': Keywords<V>, n: string)
  {
    && (forall m :: m != n ==> (HasName(rest', m) <==> HasName(rest, m)))
    && (forall m :: m != n && HasName(rest, m) && HasName(rest', m) ==> Lookup(rest', m) == Lookup(rest, m))
  }

  /** A list that claims `n` besides what `qs` claims leaves unclaimed what `qs` leaves once `n` is removed. */
  lemma {:induction false} UnclaimedConsume<V>(ps: seq<Param<V>>, qs: seq<Param<V>>, kw: Keywords<V>, n: string)
    requires forall m :: Claimed(ps, m) <==> m == n || Claimed(qs, m)
    ensures Unclaimed(ps, kw) == Unclaimed(qs, Remove(kw, n))
  {
    if kw != [] {
      UnclaimedConsume(ps, qs, kw[1..], n);
    }
  }

  /** Parameter lists that claim the same names leave the same keywords unclaimed. */
  lemma {:induction false} UnclaimedSame<V>(ps: seq<Param<V>>, qs: seq<Param<V>>, kw: Keywords<V>)
    requires forall m :: Claimed(ps, m) <==> Claimed(qs, m)
    ensures Unclaimed(ps, kw) == Unclaimed(qs, kw)
  {
    if kw != [] {
      UnclaimedSame(ps, qs, kw[1..]);
    }
  }

  /** With nothing claimed, every keyword is unclaimed. */
  lemma {:induction false} UnclaimedAll<V>(ps: seq<Param<V>>, kw: Keywords<V>)
    requires forall m :: !Claimed(ps, m)
    ensures Unclaimed(ps, kw) == kw
  {
    if kw != [] {
      UnclaimedAll(ps, kw[1..]);
    }
  }

  /** Keyword-only values do not depend on a name none of the parameters carries. */
  lemma {:induction false} PairsAgree<V>(qs: seq<Param<V>>, rest: Keywords<V>, rest': Keywords<V>, n: string)
    requires AgreeExcept(rest, rest', n)
    requires forall j :: 0 <= j < |qs| ==> qs[j].name != n
    ensures KeywordOnlyPairs(qs, rest) == KeywordOnlyPairs(qs, rest')
    ensures forall j :: 0 <= j < |qs| ==> KeywordValue(qs[j], rest) == KeywordValue(qs[j], rest')
  {
    if qs != [] {
      assert forall j :: 0 <= j < |qs[1..]| ==> qs[1..][j] == qs[j + 1];
      PairsAgree(qs[1..], rest, rest', n);
    }
  }

  /** Slot `j` of a list is slot `j - 1` of its tail, once the head has had its turn. */
  lemma SlotShift<V>(ps: seq<Param<V>>, pos: seq<V>, rest: Keywords<V>, rest': Keywords<V>, j: nat)
    requires WellFormed(ps) && 1 <= j < |ps|
    requires AgreeExcept(rest, rest', ps[0].name)
    ensures SlotValue(ps, j, pos, rest) == SlotValue(ps[1..], j - 1, Advance(pos), rest')
  {
    assert ps[1..][j - 1] == ps[j];
    assert ps[0].name != ps[j].name;
  }

  /** The head of a well-formed list carries a name no later parameter carries. */
  lemma HeadNameFresh<V>(ps: seq<Param<V>>)
    requires WellFormed(ps) && ps != []
    ensures forall j :: 0 <= j < |ps[1..]| ==> ps[1..][j].name != ps[0].name
  {
    forall j | 0 <= j < |ps[1..]|
      ensures ps[1..][j].name != ps[0].name
    {
      assert ps[1..][j] == ps[j + 1];
    }
  }

  /** Keyword-only values over a list split into its head and its tail. */
  lemma KeywordOnlyUncons<V>(ps: seq<Param<V>>, kw: Keywords<V>)
    requires ps != []
    ensures KeywordOnlySupplied(ps, kw) <==>
      (ps[0].kind == KeywordOnly ==> KeywordValue(ps[0], kw).Some?) && KeywordOnlySupplied(ps[1..], kw)
  {
    if KeywordOnlySupplied(ps, kw) {
      forall j | 0 <= j < |ps[1..]| && ps[1..][j].kind == KeywordOnly
        ensures KeywordValue(ps[1..][j], kw).Some?
      {
        assert ps[1..][j] == ps[j + 1];
      }
    }
    if (ps[0].kind == KeywordOnly ==> KeywordValue(ps[0], kw).Some?) && KeywordOnlySupplied(ps[1..], kw) {
      forall j | 0 <= j < |ps| && ps[j].kind == KeywordOnly
        ensures KeywordValue(ps[j], kw).Some?
      {
        if j > 0 {
          assert ps[1..][j - 1] == ps[j];
        }
      }
    }
  }

  /** Consuming one positional parameter and one value leaves the surplus, and whether it is allowed, unchanged. */
  lemma FixedStepSurplus<V>(ps: seq<Param<V>>, pos: seq<V>)
    requires WellFormed(ps) && ps != [] && ps[0].kind.Fixed()
    ensures NoSurplusPositional(ps, pos) <==> NoSurplusPositional(ps[1..], Advance(pos))
    ensures Surplus(ps, pos) == Surplus(ps[1..], Advance(pos))
  {
    Uncons(ps);
    assert FixedCount(ps) == 1 + FixedCount(ps[1..]);
  }

  /** No parameter is bound twice exactly when none of the remaining ones is, after the first has taken its value. */
  lemma FixedStepDouble<V>(ps: seq<Param<V>>, pos: seq<V>, rest: Keywords<V>, rest': Keywords<V>)
    requires WellFormed(ps) && ps != [] && ps[0].kind.Fixed()
    requires AgreeExcept(rest, rest', ps[0].name)
    requires ps[0].kind == PositionalOrKeyword && pos != [] ==> !HasName(rest, ps[0].name)
    ensures NoDoubleBinding(ps, pos, rest) <==> NoDoubleBinding(ps[1..], Advance(pos), rest')
  {
    var qs, pos' := ps[1..], Advance(pos);
    HeadNameFresh(ps);
    if NoDoubleBinding(ps, pos, rest) {
      forall j | 0 <= j < |qs| && j < |pos'| && qs[j].kind == PositionalOrKeyword
        ensures !HasName(rest', qs[j].name)
      {
        assert qs[j] == ps[j + 1];
      }
    }
    if NoDoubleBinding(qs, pos', rest') {
      forall j | 0 <= j < |ps| && j < |pos| && ps[j].kind == PositionalOrKeyword
        ensures !HasName(rest, ps[j].name)
      {
        if j > 0 {
          assert qs[j - 1] == ps[j];
        }
      }
    }
  }

  /** Once the first positional parameter has a value, the rest are supplied exactly when they were before, and its value leads. */
  lemma FixedStepSupplied<V>(ps: seq<Param<V>>, pos: seq<V>, rest: Keywords<V>, rest': Keywords<V>)
    requires WellFormed(ps) && ps != [] && ps[0].kind.Fixed()
    requires AgreeExcept(rest, rest', ps[0].name)
    requires SlotValue(ps, 0, pos, rest).Some?
    ensures FixedSupplied(ps, pos, rest) <==> FixedSupplied(ps[1..], Advance(pos), rest')
    ensures FixedSupplied(ps, pos, rest) ==>
      FixedValues(ps, pos, rest) == [SlotValue(ps, 0, pos, rest).value] + FixedValues(ps[1..], Advance(pos), rest')
  {
    var qs, pos' := ps[1..], Advance(pos);
    assert FixedCount(ps) == 1 + FixedCount(qs);
    forall j | 1 <= j < |ps|
      ensures SlotValue(ps, j, pos, rest) == SlotValue(qs, j - 1, pos', rest')
    {
      SlotShift(ps, pos, rest, rest', j);
    }
    if FixedSupplied(ps, pos, rest) {
      forall j | 0 <= j < FixedCount(qs)
        ensures SlotValue(qs, j, pos', rest').Some?
      {
        assert SlotValue(ps, j + 1, pos, rest) == SlotValue(qs, j, pos', rest');
      }
      var a, b := FixedValues(ps, pos, rest), [SlotValue(ps, 0, pos, rest).value] + FixedValues(qs, pos', rest');
      assert |a| == |b|;
      forall j | 0 <= j < |a| ensures a[j] == b[j] {
        if j > 0 {
          assert SlotValue(ps, j, pos, rest) == SlotValue(qs, j - 1, pos', rest');
        }
      }
    }
    if FixedSupplied(qs, pos', rest') {
      forall j | 0 <= j < FixedCount(ps)
        ensures SlotValue(ps, j, pos, rest).Some?
      {
        if j > 0 {
          assert SlotValue(ps, j, pos, rest) == SlotValue(qs, j - 1, pos', rest');
        }
      }
    }
  }

  /** The keyword side of a step whose head is positional. */
  lemma NonKeywordStep<V>(ps: seq<Param<V>>, rest: Keywords<V>, rest': Keywords<V>)
    requires WellFormed(ps) && ps != [] && (ps[0].kind.Fixed() || ps[0].kind == VarPositional)
    requires AgreeExcept(rest, rest', ps[0].name)
    requires Unclaimed(ps, rest) == Unclaimed(ps[1..], rest')
    ensures KeywordOnlySupplied(ps, rest) <==> KeywordOnlySupplied(ps[1..], rest')
    ensures KeywordOnlyPairs(ps, rest) == KeywordOnlyPairs(ps[1..], rest')
    ensures NoStrayKeyword(ps, rest) <==> NoStrayKeyword(ps[1..], rest')
  {
    var qs := ps[1..];
    Uncons(ps);
    HeadNameFresh(ps);
    PairsAgree(qs, rest, rest', ps[0].name);
    KeywordOnlyUncons(ps, rest);
    if KeywordOnlySupplied(qs, rest) {
      forall j | 0 <= j < |qs| && qs[j].kind == KeywordOnly
        ensures KeywordValue(qs[j], rest').Some?
      {
      }
    }
    if KeywordOnlySupplied(qs, rest') {
      forall j | 0 <= j < |qs| && qs[j].kind == KeywordOnly
        ensures KeywordValue(qs[j], rest).Some?
      {
      }
    }
  }

  /** Acceptance by the reference, one positional parameter at a time. */
  lemma FixedStepAccepts<V>(ps: seq<Param<V>>, pos: seq<V>, rest: Keywords<V>, rest': Keywords<V>)
    requires WellFormed(ps) && ps != [] && ps[0].kind.Fixed()
    requires AgreeExcept(rest, rest', ps[0].name)
    requires Unclaimed(ps, rest) == Unclaimed(ps[1..], rest')
    requires SlotValue(ps, 0, pos, rest).Some?
    requires ps[0].kind == PositionalOrKeyword && pos != [] ==> !HasName(rest, ps[0].name)
    ensures Accepts(ps, pos, rest) <==> Accepts(ps[1..], Advance(pos), rest')
  {
    FixedStepSurplus(ps, pos);
    FixedStepDouble(ps, pos, rest, rest');
    FixedStepSupplied(ps, pos, rest, rest');
    NonKeywordStep(ps, rest, rest');
  }

  /** The reference, one positional parameter at a time. */
  lemma FixedStep<V>(ps: seq<Param<V>>, pos: seq<V>, rest: Keywords<V>, rest': Keywords<V>)
    requires WellFormed(ps) && ps != [] && ps[0].kind.Fixed()
    requires AgreeExcept(rest, rest', ps[0].name)
    requires Unclaimed(ps, rest) == Unclaimed(ps[1..], rest')
    requires SlotValue(ps, 0, pos, rest).Some?
    requires ps[0].kind == PositionalOrKeyword && pos != [] ==> !HasName(rest, ps[0].name)
    ensures Accepts(ps, pos, rest) <==> Accepts(ps[1..], Advance(pos), rest')
    ensures Accepts(ps, pos, rest) ==>
      Expected(ps, pos, rest) ==
        Bound([SlotValue(ps, 0, pos, rest).value] + Expected(ps[1..], Advance(pos), rest').positional,
              Expected(ps[1..], Advance(pos), rest').keywords)
  {
    FixedStepAccepts(ps, pos, rest, rest');
    if Accepts(ps, pos, rest) {
      FixedStepSurplus(ps, pos);
      FixedStepSupplied(ps, pos, rest, rest');
      NonKeywordStep(ps, rest, rest');
      FixedStepExpected(ps, pos, rest, rest');
    }
  }

  /** The forwarded values of the reference, once each component is known to step. */
  lemma FixedStepExpected<V>(ps: seq<Param<V>>, pos: seq<V>, rest: Keywords<V>, rest': Keywords<V>)
    requires ps != [] && Accepts(ps, pos, rest) && Accepts(ps[1..], Advance(pos), rest')
    requires SlotValue(ps, 0, pos, rest).Some?
    requires FixedValues(ps, pos, rest) == [SlotValue(ps, 0, pos, rest).value] + FixedValues(ps[1..], Advance(pos), rest')
    requires Surplus(ps, pos) == Surplus(ps[1..], Advance(pos))
    requires KeywordOnlyPairs(ps, rest) == KeywordOnlyPairs(ps[1..], rest')
    requires Unclaimed(ps, rest) == Unclaimed(ps[1..], rest')
    ensures Expected(ps, pos, rest) ==
      Bound([SlotValue(ps, 0, pos, rest).value] + Expected(ps[1..], Advance(pos), rest').positional,
            Expected(ps[1..], Advance(pos), rest').keywords)
  {
    var v, fs, ss := SlotValue(ps, 0, pos, rest).value, FixedValues(ps[1..], Advance(pos), rest'), Surplus(ps[1..], Advance(pos));
    assert ([v] + fs) + ss == [v] + (fs + ss);
  }

  /** In a well-formed list nothing after a parameter has a lower rank, and nothing after a variadic one the same rank. */
  lemma LaterRanks<V>(ps: seq<Param<V>>)
    requires WellFormed(ps) && ps != []
    ensures forall j :: 0 <= j < |ps| ==> ps[0].kind.Rank() <= ps[j].kind.Rank()
    ensures ps[0].kind.Variadic() ==> forall j :: 1 <= j < |ps| ==> ps[0].kind.Rank() < ps[j].kind.Rank()
  {
  }

  /** From `*args` on there are no positional parameters left. */
  lemma NoPositionalParameters<V>(ps: seq<Param<V>>, pos: seq<V>, kw: Keywords<V>)
    requires WellFormed(ps) && ps != [] && ps[0].kind.Rank() >= VarPositional.Rank()
    ensures FixedCount(ps) == 0 && FixedCount(ps[1..]) == 0
    ensures NoDoubleBinding(ps, pos, kw) && NoDoubleBinding(ps[1..], pos, kw)
    ensures FixedSupplied(ps, pos, kw) && FixedValues(ps, pos, kw) == []
    ensures FixedSupplied(ps[1..], pos, kw) && FixedValues(ps[1..], pos, kw) == []
  {
    var qs := ps[1..];
    LaterRanks(ps);
    assert FixedCount(qs) == 0 by {
      if qs != [] { assert qs[0] == ps[1]; }
    }
    forall j | 0 <= j < |qs| ensures qs[j].kind != PositionalOrKeyword {
      assert qs[j] == ps[j + 1];
    }
  }

  /** The keyword side of a keyword-only step. */
  lemma KeywordOnlyStepKeywords<V>(ps: seq<Param<V>>, rest: Keywords<V>, rest': Keywords<V>)
    requires WellFormed(ps) && ps != [] && ps[0].kind == KeywordOnly
    requires AgreeExcept(rest, rest', ps[0].name)
    requires KeywordValue(ps[0], rest).Some?
    ensures KeywordOnlySupplied(ps, rest) <==> KeywordOnlySupplied(ps[1..], rest')
    ensures KeywordOnlyPairs(ps, rest) == [(ps[0].name, KeywordValue(ps[0], rest).value)] + KeywordOnlyPairs(ps[1..], rest')
  {
    var qs := ps[1..];
    HeadNameFresh(ps);
    PairsAgree(qs, rest, rest', ps[0].name);
    KeywordOnlyUncons(ps, rest);
    if KeywordOnlySupplied(qs, rest) {
      forall j | 0 <= j < |qs| && qs[j].kind == KeywordOnly
        ensures KeywordValue(qs[j], rest').Some?
      {
      }
    }
    if KeywordOnlySupplied(qs, rest') {
      forall j | 0 <= j < |qs| && qs[j].kind == KeywordOnly
        ensures KeywordValue(qs[j], rest).Some?
      {
      }
    }
  }

  /** The reference, one keyword-only parameter at a time. */
  lemma KeywordOnlyStep<V>(ps: seq<Param<V>>, pos: seq<V>, rest: Keywords<V>, rest': Keywords<V>)
    requires WellFormed(ps) && ps != [] && ps[0].kind == KeywordOnly
    requires AgreeExcept(rest, rest', ps[0].name)
    requires Unclaimed(ps, rest) == Unclaimed(ps[1..], rest')
    requires KeywordValue(ps[0], rest).Some?
    ensures Accepts(ps, pos, rest) <==> Accepts(ps[1..], pos, rest')
    ensures Accepts(ps, pos, rest) ==>
      Expected(ps, pos, rest) ==
        Bound(Expected(ps[1..], pos, rest').positional,
              [(ps[0].name, KeywordValue(ps[0], rest).value)] + Expected(ps[1..], pos, rest').keywords)
  {
    var qs := ps[1..];
    Uncons(ps);
    LaterRanks(ps);
    NoPositionalParameters(ps, pos, rest);
    NoPositionalParameters(ps, pos, rest');
    KeywordOnlyStepKeywords(ps, rest, rest');
    assert !HasKind(ps, VarPositional) && !HasKind(qs, VarPositional);
    assert HasKind(ps, VarKeyword) == HasKind(qs, VarKeyword);
    assert NoSurplusPositional(ps, pos) == NoSurplusPositional(qs, pos);
    assert NoStrayKeyword(ps, rest) == NoStrayKeyword(qs, rest');
    if Accepts(ps, pos, rest) {
      var head := [(ps[0].name, KeywordValue(ps[0], rest).value)];
      var pairs, leftovers := KeywordOnlyPairs(qs, rest'), Unclaimed(qs, rest');
      assert Surplus(ps, pos) == Surplus(qs, pos);
      assert (head + pairs) + leftovers == head + (pairs + leftovers);
    }
  }

  /** The reference at `*args`: it takes every positional value still unconsumed. */
  lemma VarPositionalStep<V>(ps: seq<Param<V>>, pos: seq<V>, rest: Keywords<V>)
    requires WellFormed(ps) && ps != [] && ps[0].kind == VarPositional
    ensures Accepts(ps, pos, rest) <==> Accepts(ps[1..], [], rest)
    ensures Accepts(ps, pos, rest) ==>
      Expected(ps, pos, rest) ==
        Bound(pos + Expected(ps[1..], [], rest).positional, Expected(ps[1..], [], rest).keywords)
  {
    Uncons(ps);
    UnclaimedSame(ps, ps[1..], rest);
    NonKeywordStep(ps, rest, rest);
    NoPositionalParameters(ps, pos, rest);
    NoPositionalParameters(ps, [], rest);
    assert HasKind(ps, VarPositional);
  }

  /** The reference at `**kwargs`, the last parameter: it takes every keyword still unconsumed. */
  lemma VarKeywordStep<V>(ps: seq<Param<V>>, pos: seq<V>, rest: Keywords<V>)
    requires WellFormed(ps) && ps != [] && ps[0].kind == VarKeyword
    ensures |ps| == 1
    ensures Accepts(ps, pos, rest) <==> pos == []
    ensures Accepts(ps, pos, rest) ==> Expected(ps, pos, rest) == Bound([], rest)
  {
    Uncons(ps);
    assert ps[1..] == [];
    assert !Claimed(ps[1..], ps[0].name);
    UnclaimedAll(ps, rest);
    assert FixedCount(ps) == 0;
    assert HasKind(ps, VarKeyword);
    if Accepts(ps, pos, rest) {
      assert FixedValues(ps, pos, rest) == [];
      assert Surplus(ps, pos) == [];
      assert KeywordOnlyPairs(ps, rest) == KeywordOnlyPairs(ps[1..], rest) == [];
    }
  }

  /** The reference on an empty parameter list: only the empty call. */
  lemma EmptyStep<V>(pos: seq<V>, rest: Keywords<V>)
    ensures Accepts([], pos, rest) <==> pos == [] && rest == []
    ensures Accepts([], pos, rest) ==> Expected([], pos, rest) == Bound([], [])
  {
    var ps: seq<Param<V>> := [];
    UnclaimedAll(ps, rest);
    assert !HasKind(ps, VarPositional) && !HasKind(ps, VarKeyword);
    if Accepts(ps, pos, rest) {
      assert FixedValues(ps, pos, rest) == [];
    }
  }

  /** The walk and the reference agree on this call. */
  ghost predicate Agrees<V>(ps: seq<Param<V>>, pos: seq<V>, rest: Keywords<V>)
  {
    && (Walk(ps, pos, rest).Ok? <==> Accepts(ps, pos, rest))
    && (Walk(ps, pos, rest).Ok? ==> Walk(ps, pos, rest).value == Expected(ps, pos, rest))
  }

  /** The walk agrees with the reference on a list that starts with a positional-only parameter. */
  lemma PositionalOnlyCase<V>(ps: seq<Param<V>>, pos: seq<V>, rest: Keywords<V>)
    requires WellFormed(ps) && ps != [] && ps[0].kind == PositionalOnly
    requires pos != [] || ps[0].default.Some? ==> Agrees(ps[1..], Advance(pos), rest)
    ensures Agrees(ps, pos, rest)
  {
    Uncons(ps);
    if pos != [] || ps[0].default.Some? {
      UnclaimedSame(ps, ps[1..], rest);
      FixedStep(ps, pos, rest, rest);
    } else {
      assert SlotValue(ps, 0, pos, rest).None?;
    }
  }

  /** The walk agrees with the reference on a list that starts with a positional-or-keyword parameter. */
  lemma PositionalOrKeywordCase<V>(ps: seq<Param<V>>, pos: seq<V>, rest: Keywords<V>)
    requires WellFormed(ps) && ps != [] && ps[0].kind == PositionalOrKeyword
    requires pos == [] && HasName(rest, ps[0].name) ==> Agrees(ps[1..], [], Remove(rest, ps[0].name))
    requires !HasName(rest, ps[0].name) && (pos != [] || ps[0].default.Some?) ==> Agrees(ps[1..], Advance(pos), rest)
    ensures Agrees(ps, pos, rest)
  {
    var n := ps[0].name;
    Uncons(ps);
    RemoveOnly(rest, n);
    UnclaimedConsume(ps, ps[1..], rest, n);
    if pos != [] && HasName(rest, n) {
      assert !NoDoubleBinding(ps, pos, rest) by {
        assert 0 < |pos| && ps[0].kind == PositionalOrKeyword;
      }
    } else if pos == [] && HasName(rest, n) {
      FixedStep(ps, pos, rest, Remove(rest, n));
    } else if pos != [] || ps[0].default.Some? {
      FixedStep(ps, pos, rest, rest);
    } else {
      assert SlotValue(ps, 0, pos, rest).None?;
    }
  }

  /** The walk agrees with the reference on a list that starts with a keyword-only parameter. */
  lemma KeywordOnlyCase<V>(ps: seq<Param<V>>, pos: seq<V>, rest: Keywords<V>)
    requires WellFormed(ps) && ps != [] && ps[0].kind == KeywordOnly
    requires HasName(rest, ps[0].name) ==> Agrees(ps[1..], pos, Remove(rest, ps[0].name))
    requires !HasName(rest, ps[0].name) && ps[0].default.Some? ==> Agrees(ps[1..], pos, rest)
    ensures Agrees(ps, pos, rest)
  {
    var n := ps[0].name;
    Uncons(ps);
    RemoveOnly(rest, n);
    UnclaimedConsume(ps, ps[1..], rest, n);
    if HasName(rest, n) {
      KeywordOnlyStep(ps, pos, rest, Remove(rest, n));
    } else if ps[0].default.Some? {
      KeywordOnlyStep(ps, pos, rest, rest);
    } else {
      assert KeywordValue(ps[0], rest).None?;
    }
  }

  /** The walk agrees with the reference on a list that starts with `*args`. */
  lemma VarPositionalCase<V>(ps: seq<Param<V>>, pos: seq<V>, rest: Keywords<V>)
    requires WellFormed(ps) && ps != [] && ps[0].kind == VarPositional
    requires Agrees(ps[1..], [], rest)
    ensures Agrees(ps, pos, rest)
  {
    VarPositionalStep(ps, pos, rest);
  }

  /** The walk agrees with the reference on a list that starts with `**kwargs`. */
  lemma VarKeywordCase<V>(ps: seq<Param<V>>, pos: seq<V>, rest: Keywords<V>)
    requires WellFormed(ps) && ps != [] && ps[0].kind == VarKeyword
    ensures Agrees(ps, pos, rest)
  {
    VarKeywordStep(ps, pos, rest);
    assert ps[1..] == [];
  }

  /**
   * The walk agrees with the reference on every well-formed parameter list,
   * whatever positional values and keyword entries remain.
   */
  lemma {:induction false} WalkMatchesReference<V>(ps: seq<Param<V>>, pos: seq<V>, rest: Keywords<V>)
    requires WellFormed(ps)
    ensures Walk(ps, pos, rest).Ok? <==> Accepts(ps, pos, rest)
    ensures Walk(ps, pos, rest).Ok? ==> Walk(ps, pos, rest).value == Expected(ps, pos, rest)
    decreases |ps|
  {
    if ps == [] {
      EmptyStep(pos, rest);
    } else {
      var p, qs := ps[0], ps[1..];
      WellFormedTail(ps);
      match p.kind
      case PositionalOnly =>
        WalkMatchesReference(qs, Advance(pos), rest);
        PositionalOnlyCase(ps, pos, rest);
      case PositionalOrKeyword =>
        WalkMatchesReference(qs, [], Remove(rest, p.name));
        WalkMatchesReference(qs, Advance(pos), rest);
        PositionalOrKeywordCase(ps, pos, rest);
      case VarPositional =>
        WalkMatchesReference(qs, [], rest);
        VarPositionalCase(ps, pos, rest);
      case KeywordOnly =>
        WalkMatchesReference(qs, pos, Remove(rest, p.name));
        WalkMatchesReference(qs, pos, rest);
        KeywordOnlyCase(ps, pos, rest);
      case VarKeyword =>
        VarKeywordCase(ps, pos, rest);
    }
  }

  /**
   * The binder is correct: on a well-formed parameter list it accepts exactly
   * the calls with distinct keyword names that the reference accepts, and
   * forwards exactly the reference's values.
   */
  lemma BindMatchesReference<V>(ps: seq<Param<V>>, pos: seq<V>, kw: Keywords<V>)
    requires WellFormed(ps)
    ensures Bind(ps, pos, kw).Ok? <==> NamesDistinct(kw) && Accepts(ps, pos, kw)
    ensures Bind(ps, pos, kw).Ok? ==> Bind(ps, pos, kw).value == Expected(ps, pos, kw)
  {
    RepeatedNameDecides(kw);
    WalkMatchesReference(ps, pos, kw);
  }
}
