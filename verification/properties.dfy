/**
 * What the test suite promises of the wrapper, stated for every well-formed
 * parameter list and every call.
 */
module Properties {
  import opened Wrappers
  import opened Keywords
  import opened Signature
  import opened Binding
  import opened Reference
  import opened Correctness
  import opened Reforward

  /** A signature without parameters accepts only the empty call, and forwards nothing. */
  lemma EmptySignature<V>(pos: seq<V>, kw: Keywords<V>)
    ensures Bind([], pos, kw).Ok? <==> pos == [] && kw == []
    ensures Bind([], pos, kw).Ok? ==> Bind([], pos, kw).value == Bound([], [])
  {
    BindMatchesReference([], pos, kw);
    EmptyStep(pos, kw);
  }

  /**
   * Each positional parameter is forwarded, in its declared place, as the
   * positional value supplied for it, else the keyword value (not for a
   * positional-only parameter), else exactly its stored default.
   */
  lemma PositionalSlot<V>(ps: seq<Param<V>>, pos: seq<V>, kw: Keywords<V>, j: nat)
    requires WellFormed(ps) && Bind(ps, pos, kw).Ok? && j < FixedCount(ps)
    ensures j < |Bind(ps, pos, kw).value.positional|
    ensures j < |pos| ==> Bind(ps, pos, kw).value.positional[j] == pos[j]
    ensures |pos| <= j && ps[j].kind == PositionalOrKeyword && HasName(kw, ps[j].name) ==>
      Bind(ps, pos, kw).value.positional[j] == Lookup(kw, ps[j].name)
    ensures |pos| <= j && (ps[j].kind == PositionalOnly || !HasName(kw, ps[j].name)) ==>
      ps[j].default.Some? && Bind(ps, pos, kw).value.positional[j] == ps[j].default.value
  {
    BindMatchesReference(ps, pos, kw);
    assert Bind(ps, pos, kw).value.positional[j] == FixedValues(ps, pos, kw)[j];
    assert ps[j].kind.Fixed();
  }

  /** A supplied keyword-only value, else exactly the stored default, is forwarded under the parameter's name. */
  lemma KeywordOnlySlot<V>(ps: seq<Param<V>>, pos: seq<V>, kw: Keywords<V>, j: nat)
    requires WellFormed(ps) && Bind(ps, pos, kw).Ok? && j < |ps| && ps[j].kind == KeywordOnly
    ensures HasName(kw, ps[j].name) ==> (ps[j].name, Lookup(kw, ps[j].name)) in Bind(ps, pos, kw).value.keywords
    ensures !HasName(kw, ps[j].name) ==>
      ps[j].default.Some? && (ps[j].name, ps[j].default.value) in Bind(ps, pos, kw).value.keywords
  {
    BindMatchesReference(ps, pos, kw);
    PairsHold(ps, kw, j);
  }

  /**
   * Walking with a value in the next positional slot is walking with it
   * under that slot's name, wherever among the keywords the name is written.
   */
  lemma {:induction false} WalkPositionOrName<V>(ps: seq<Param<V>>, pos: seq<V>, r1: Keywords<V>, r2: Keywords<V>, v: V)
    requires |pos| < |ps| && ps[|pos|].kind == PositionalOrKeyword
    requires forall i :: 0 <= i < |pos| ==> ps[i].kind.Fixed() && ps[i].name != ps[|pos|].name
    requires !HasName(r1 + r2, ps[|pos|].name)
    ensures Walk(ps, pos + [v], r1 + r2) == Walk(ps, pos, r1 + [(ps[|pos|].name, v)] + r2)
    decreases |pos|
  {
    var n := ps[|pos|].name;
    InsertFresh(r1, r2, n, v);
    if pos != [] {
      assert ps[0].name != n;
      assert (pos + [v])[1..] == pos[1..] + [v];
      assert ps[1..][|pos[1..]|] == ps[|pos|];
      WalkPositionOrName(ps[1..], pos[1..], r1, r2, v);
    } else {
      var s := r1 + [(n, v)] + r2;
      assert pos + [v] == [v] && [v][1..] == [];
      assert ps[0].kind == PositionalOrKeyword && ps[0].name == n;
      assert Walk(ps, [v], r1 + r2) == Prepend([v], [], Walk(ps[1..], [], r1 + r2));
      assert Walk(ps, [], s) == Prepend([Lookup(s, n)], [], Walk(ps[1..], [], Remove(s, n)));
    }
  }

  /**
   * A positional-or-keyword parameter binds the same whether its value comes
   * by position or by name, at any place among the other keywords: the two
   * calls give the same result, errors included.
   */
  lemma PositionOrName<V>(ps: seq<Param<V>>, pos: seq<V>, kw1: Keywords<V>, kw2: Keywords<V>, v: V)
    requires WellFormed(ps) && |pos| < FixedCount(ps) && ps[|pos|].kind == PositionalOrKeyword
    requires !HasName(kw1 + kw2, ps[|pos|].name)
    ensures Bind(ps, pos + [v], kw1 + kw2) == Bind(ps, pos, kw1 + [(ps[|pos|].name, v)] + kw2)
  {
    InsertFresh(kw1, kw2, ps[|pos|].name, v);
    WalkPositionOrName(ps, pos, kw1, kw2, v);
  }

  /** A required positional parameter supplied neither by position nor (where allowed) by name fails the call. */
  lemma MissingPositionalRejected<V>(ps: seq<Param<V>>, pos: seq<V>, kw: Keywords<V>, j: nat)
    requires WellFormed(ps) && j < FixedCount(ps) && |pos| <= j && ps[j].default.None?
    requires ps[j].kind == PositionalOnly || !HasName(kw, ps[j].name)
    ensures Bind(ps, pos, kw).Err?
  {
    BindMatchesReference(ps, pos, kw);
    assert SlotValue(ps, j, pos, kw).None?;
  }

  /** A required keyword-only parameter not supplied by name fails the call. */
  lemma MissingKeywordOnlyRejected<V>(ps: seq<Param<V>>, pos: seq<V>, kw: Keywords<V>, j: nat)
    requires WellFormed(ps) && j < |ps| && ps[j].kind == KeywordOnly && ps[j].default.None?
    requires !HasName(kw, ps[j].name)
    ensures Bind(ps, pos, kw).Err?
  {
    BindMatchesReference(ps, pos, kw);
    assert KeywordValue(ps[j], kw).None?;
  }

  /** Without `*args`, more positional values than positional parameters fail the call. */
  lemma TooManyPositionalRejected<V>(ps: seq<Param<V>>, pos: seq<V>, kw: Keywords<V>)
    requires WellFormed(ps) && !HasKind(ps, VarPositional) && FixedCount(ps) < |pos|
    ensures Bind(ps, pos, kw).Err?
  {
    BindMatchesReference(ps, pos, kw);
  }

  /** Every keyword entry that no named parameter takes is among the reference's unclaimed ones. */
  lemma {:induction false} UnclaimedKeeps<V>(ps: seq<Param<V>>, kw: Keywords<V>, i: nat)
    requires i < |kw| && !Claimed(ps, kw[i].0)
    ensures kw[i] in Unclaimed(ps, kw)
  {
    if i > 0 {
      assert kw[1..][i - 1] == kw[i];
      UnclaimedKeeps(ps, kw[1..], i - 1);
    }
  }

  /**
   * Without `**kwargs`, a keyword that names no positional-or-keyword or
   * keyword-only parameter fails the call (a positional-only name included).
   */
  lemma UnexpectedKeywordRejected<V>(ps: seq<Param<V>>, pos: seq<V>, kw: Keywords<V>, i: nat)
    requires WellFormed(ps) && !HasKind(ps, VarKeyword) && i < |kw| && !Claimed(ps, kw[i].0)
    ensures Bind(ps, pos, kw).Err?
  {
    BindMatchesReference(ps, pos, kw);
    UnclaimedKeeps(ps, kw, i);
  }

  /** A positional-or-keyword parameter given both by position and by name fails the call. */
  lemma DoubleBindingRejected<V>(ps: seq<Param<V>>, pos: seq<V>, kw: Keywords<V>, j: nat)
    requires WellFormed(ps) && j < |ps| && j < |pos| && ps[j].kind == PositionalOrKeyword
    requires HasName(kw, ps[j].name)
    ensures Bind(ps, pos, kw).Err?
  {
    BindMatchesReference(ps, pos, kw);
  }

  /**
   * A positional-only parameter is never filled by name: the parameter takes
   * its default, and the keyword is left for `**kwargs`; without `**kwargs`
   * the call fails.
   */
  lemma PositionalOnlyNotByName<V>(ps: seq<Param<V>>, pos: seq<V>, kw: Keywords<V>, j: nat)
    requires WellFormed(ps) && j < |ps| && ps[j].kind == PositionalOnly && |pos| <= j
    requires HasName(kw, ps[j].name)
    ensures !HasKind(ps, VarKeyword) ==> Bind(ps, pos, kw).Err?
    ensures Bind(ps, pos, kw).Ok? ==>
      && ps[j].default.Some?
      && j < |Bind(ps, pos, kw).value.positional|
      && Bind(ps, pos, kw).value.positional[j] == ps[j].default.value
      && (ps[j].name, Lookup(kw, ps[j].name)) in Bind(ps, pos, kw).value.keywords
  {
    FixedPrefix(ps);
    HasNameIndex(kw, ps[j].name);
    var i :| 0 <= i < |kw| && kw[i].0 == ps[j].name;
    assert !Claimed(ps, kw[i].0);
    if !HasKind(ps, VarKeyword) {
      UnexpectedKeywordRejected(ps, pos, kw, i);
    }
    if Bind(ps, pos, kw).Ok? {
      PositionalSlot(ps, pos, kw, j);
      BindMatchesReference(ps, pos, kw);
      UnclaimedKeeps(ps, kw, i);
      LookupFinds(kw, ps[j].name);
    }
  }

  /**
   * The forwarded tuple: one value per positional parameter or per value
   * supplied, whichever is more; a surplus only where `*args` takes it.
   */
  lemma PositionalShape<V>(ps: seq<Param<V>>, pos: seq<V>, kw: Keywords<V>, b: Bound<V>)
    requires WellFormed(ps) && Bind(ps, pos, kw) == Ok(b)
    ensures |b.positional| == if |pos| <= FixedCount(ps) then FixedCount(ps) else |pos|
    ensures FixedCount(ps) < |pos| ==> HasKind(ps, VarPositional)
  {
    BindMatchesReference(ps, pos, kw);
  }

  /** Each leftover entry is an entry of the call that no named parameter takes. */
  lemma {:induction false} UnclaimedAt<V>(ps: seq<Param<V>>, kw: Keywords<V>, k: nat)
    requires k < |Unclaimed(ps, kw)|
    ensures Unclaimed(ps, kw)[k] in kw && !Claimed(ps, Unclaimed(ps, kw)[k].0)
  {
    var head: Keywords<V> := if Claimed(ps, kw[0].0) then [] else [kw[0]];
    var tail := Unclaimed(ps, kw[1..]);
    assert Unclaimed(ps, kw) == head + tail;
    if k < |head| {
      assert Unclaimed(ps, kw)[k] == kw[0];
    } else {
      UnclaimedAt(ps, kw[1..], k - |head|);
      assert Unclaimed(ps, kw)[k] == tail[k - |head|];
      assert tail[k - |head|] in kw[1..];
    }
  }

  /** The reference's forwarded keywords open with the keyword-only names, in declared order. */
  lemma ForwardedNames<V>(ps: seq<Param<V>>, kw: Keywords<V>)
    requires KeywordOnlySupplied(ps, kw)
    ensures |KeywordOnlyNames(ps)| == |KeywordOnlyPairs(ps, kw)|
    ensures Names(KeywordOnlyPairs(ps, kw) + Unclaimed(ps, kw))[..|KeywordOnlyNames(ps)|] == KeywordOnlyNames(ps)
  {
    PairsNames(ps, kw);
    NamesAppend(KeywordOnlyPairs(ps, kw), Unclaimed(ps, kw));
  }

  /** After the keyword-only entries, the reference forwards only unclaimed entries of the call. */
  lemma ForwardedTail<V>(ps: seq<Param<V>>, kw: Keywords<V>)
    ensures forall i :: |KeywordOnlyPairs(ps, kw)| <= i < |KeywordOnlyPairs(ps, kw) + Unclaimed(ps, kw)| ==>
      (KeywordOnlyPairs(ps, kw) + Unclaimed(ps, kw))[i] in kw && !Claimed(ps, (KeywordOnlyPairs(ps, kw) + Unclaimed(ps, kw))[i].0)
  {
    var pairs, rest := KeywordOnlyPairs(ps, kw), Unclaimed(ps, kw);
    forall i | |pairs| <= i < |pairs + rest|
      ensures (pairs + rest)[i] in kw && !Claimed(ps, (pairs + rest)[i].0)
    {
      assert (pairs + rest)[i] == rest[i - |pairs|];
      UnclaimedAt(ps, kw, i - |pairs|);
    }
  }

  /** A successful binding forwards the reference's keywords for a call Python accepts. */
  lemma BoundKeywords<V>(ps: seq<Param<V>>, pos: seq<V>, kw: Keywords<V>, b: Bound<V>)
    requires WellFormed(ps) && Bind(ps, pos, kw) == Ok(b)
    ensures NamesDistinct(kw) && KeywordOnlySupplied(ps, kw) && NoStrayKeyword(ps, kw)
    ensures b.keywords == KeywordOnlyPairs(ps, kw) + Unclaimed(ps, kw)
  {
    BindMatchesReference(ps, pos, kw);
  }

  /**
   * A keyword entry that no named parameter takes reaches the target: the
   * call binds only with `**kwargs`, and the entry is forwarded after the
   * keyword-only parameters.
   */
  lemma UnclaimedForwarded<V>(ps: seq<Param<V>>, pos: seq<V>, kw: Keywords<V>, b: Bound<V>, i: nat)
    requires WellFormed(ps) && Bind(ps, pos, kw) == Ok(b) && i < |kw| && !Claimed(ps, kw[i].0)
    ensures HasKind(ps, VarKeyword)
    ensures |KeywordOnlyNames(ps)| <= |b.keywords| && kw[i] in b.keywords[|KeywordOnlyNames(ps)|..]
  {
    BoundKeywords(ps, pos, kw, b);
    ForwardedNames(ps, kw);
    UnclaimedKeeps(ps, kw, i);
    assert b.keywords[|KeywordOnlyPairs(ps, kw)|..] == Unclaimed(ps, kw);
  }

  /**
   * The forwarded keywords: the keyword-only names first, in declared order,
   * no name twice, and after them only entries of the call that no named
   * parameter takes, present only where `**kwargs` takes them.
   */
  lemma KeywordShape<V>(ps: seq<Param<V>>, pos: seq<V>, kw: Keywords<V>, b: Bound<V>)
    requires WellFormed(ps) && Bind(ps, pos, kw) == Ok(b)
    ensures |KeywordOnlyNames(ps)| <= |b.keywords|
    ensures Names(b.keywords)[..|KeywordOnlyNames(ps)|] == KeywordOnlyNames(ps)
    ensures NamesDistinct(b.keywords)
    ensures |KeywordOnlyNames(ps)| < |b.keywords| ==> HasKind(ps, VarKeyword)
    ensures forall i :: |KeywordOnlyNames(ps)| <= i < |b.keywords| ==>
      b.keywords[i] in kw && !Claimed(ps, b.keywords[i].0)
  {
    BoundKeywords(ps, pos, kw, b);
    ForwardedNames(ps, kw);
    ForwardedDistinct(ps, kw);
    ForwardedTail(ps, kw);
  }
}
