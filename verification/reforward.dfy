/**
 * Forwarding is stable: handing the wrapper's own output back to the same
 * parameter list binds to that output again.  This is what lets a wrapper wrap
 * a wrapper, and what makes `wrapped(*args, **kwargs)` call the target with
 * exactly the values it would have bound itself.
 */
module Reforward {
  import opened Wrappers
  import opened Keywords
  import opened Signature
  import opened Binding
  import opened Reference
  import opened Correctness

  /** A named entry's name is present. */
  lemma EntryNamed<V>(kw: Keywords<V>, e: (string, V))
    requires e in kw
    ensures HasName(kw, e.0)
  {
    HasNameIndex(kw, e.0);
    var i :| 0 <= i < |kw| && kw[i] == e;
  }

  /** Every keyword-only entry is named after a keyword-only parameter. */
  lemma PairsNamedKeywordOnly<V>(ps: seq<Param<V>>, kw: Keywords<V>, n: string)
    requires HasName(KeywordOnlyPairs(ps, kw), n)
    ensures exists j :: 0 <= j < |ps| && ps[j].kind == KeywordOnly && ps[j].name == n
  {
    var pairs := KeywordOnlyPairs(ps, kw);
    HasNameIndex(pairs, n);
    var i :| 0 <= i < |pairs| && pairs[i].0 == n;
    PairsFrom(ps, kw);
    assert pairs[i] in pairs;
  }

  /** The keyword-only entries repeat no name. */
  lemma {:induction false} PairsDistinct<V>(ps: seq<Param<V>>, kw: Keywords<V>)
    requires WellFormed(ps)
    ensures NamesDistinct(KeywordOnlyPairs(ps, kw))
  {
    if ps != [] {
      WellFormedTail(ps);
      PairsDistinct(ps[1..], kw);
      var head: Keywords<V> := if ps[0].kind == KeywordOnly && KeywordValue(ps[0], kw).Some?
        then [(ps[0].name, KeywordValue(ps[0], kw).value)] else [];
      var tail := KeywordOnlyPairs(ps[1..], kw);
      HeadNameFresh(ps);
      PairsFrom(ps[1..], kw);
      forall i | 0 <= i < |tail| ensures tail[i].0 != ps[0].name {
        assert tail[i] in tail;
      }
      HasNameIndex(tail, ps[0].name);
      forall n | HasName(head, n) ensures !HasName(tail, n) {
        assert head[1..] == [] && !HasName(head[1..], n);
        assert n == ps[0].name;
      }
      DistinctAppend(head, tail);
    }
  }

  /** The forwarded keywords repeat no name: keyword-only names are claimed, leftovers are not. */
  lemma ForwardedDistinct<V>(ps: seq<Param<V>>, kw: Keywords<V>)
    requires WellFormed(ps) && NamesDistinct(kw)
    ensures NamesDistinct(KeywordOnlyPairs(ps, kw) + Unclaimed(ps, kw))
  {
    var pairs, rest := KeywordOnlyPairs(ps, kw), Unclaimed(ps, kw);
    PairsDistinct(ps, kw);
    UnclaimedDistinct(ps, kw);
    UnclaimedMembers(ps, kw);
    forall n | HasName(pairs, n) ensures !HasName(rest, n) {
      PairsNamedKeywordOnly(ps, kw, n);
      var j :| 0 <= j < |ps| && ps[j].kind == KeywordOnly && ps[j].name == n;
      assert Claimed(ps, n);
    }
    DistinctAppend(pairs, rest);
  }

  /** Keyword-only entries depend only on the keyword-only parameters' values. */
  lemma {:induction false} PairsStable<V>(ps: seq<Param<V>>, kw: Keywords<V>, kw': Keywords<V>)
    requires forall j :: 0 <= j < |ps| && ps[j].kind == KeywordOnly ==> KeywordValue(ps[j], kw') == KeywordValue(ps[j], kw)
    ensures KeywordOnlyPairs(ps, kw') == KeywordOnlyPairs(ps, kw)
  {
    if ps != [] {
      assert forall j :: 0 <= j < |ps[1..]| ==> ps[1..][j] == ps[j + 1];
      PairsStable(ps[1..], kw, kw');
    }
  }

  /** Passing the keyword-only entries back by name gives every keyword-only parameter the same value. */
  lemma KeywordOnlyRoundTrip<V>(ps: seq<Param<V>>, kw: Keywords<V>, j: nat)
    requires WellFormed(ps) && NamesDistinct(kw) && KeywordOnlySupplied(ps, kw)
    requires j < |ps| && ps[j].kind == KeywordOnly
    ensures KeywordValue(ps[j], KeywordOnlyPairs(ps, kw) + Unclaimed(ps, kw)) == KeywordValue(ps[j], kw)
  {
    var pairs, n := KeywordOnlyPairs(ps, kw), ps[j].name;
    var v := KeywordValue(ps[j], kw).value;
    PairsHold(ps, kw, j);
    EntryNamed(pairs, (n, v));
    AppendLookup(pairs, Unclaimed(ps, kw), n);
    PairsDistinct(ps, kw);
    LookupFinds(pairs, n);
    var i :| 0 <= i < |pairs| && pairs[i] == (n, v);
  }

  /** Passing the forwarded keywords back leaves the same leftovers for `**kwargs`. */
  lemma LeftoversRoundTrip<V>(ps: seq<Param<V>>, kw: Keywords<V>)
    ensures Unclaimed(ps, KeywordOnlyPairs(ps, kw) + Unclaimed(ps, kw)) == Unclaimed(ps, kw)
  {
    var pairs := KeywordOnlyPairs(ps, kw);
    UnclaimedAppend(ps, pairs, Unclaimed(ps, kw));
    UnclaimedIdempotent(ps, kw);
    PairsFrom(ps, kw);
    forall i | 0 <= i < |pairs| ensures Claimed(ps, pairs[i].0) {
      assert pairs[i] in pairs;
    }
    UnclaimedNone(ps, pairs);
  }

  /** The forwarded positionals bind the positional parameters to the same values. */
  lemma FixedRoundTrip<V>(ps: seq<Param<V>>, pos: seq<V>, kw: Keywords<V>, kw': Keywords<V>)
    requires FixedSupplied(ps, pos, kw)
    ensures FixedSupplied(ps, FixedValues(ps, pos, kw) + Surplus(ps, pos), kw')
    ensures FixedValues(ps, FixedValues(ps, pos, kw) + Surplus(ps, pos), kw') == FixedValues(ps, pos, kw)
    ensures Surplus(ps, FixedValues(ps, pos, kw) + Surplus(ps, pos)) == Surplus(ps, pos)
  {
    var fixed := FixedValues(ps, pos, kw);
    var out := fixed + Surplus(ps, pos);
    assert forall j :: 0 <= j < FixedCount(ps) ==> j < |out| && out[j] == fixed[j];
    assert out[FixedCount(ps)..] == Surplus(ps, pos);
  }

  /** The forwarded call satisfies every acceptance condition the original call did. */
  lemma AcceptsForwarded<V>(ps: seq<Param<V>>, pos: seq<V>, kw: Keywords<V>)
    requires WellFormed(ps) && NamesDistinct(kw) && Accepts(ps, pos, kw)
    ensures Accepts(ps, Expected(ps, pos, kw).positional, Expected(ps, pos, kw).keywords)
    ensures Expected(ps, Expected(ps, pos, kw).positional, Expected(ps, pos, kw).keywords) == Expected(ps, pos, kw)
  {
    var b := Expected(ps, pos, kw);
    var pairs, rest := KeywordOnlyPairs(ps, kw), Unclaimed(ps, kw);
    FixedRoundTrip(ps, pos, kw, b.keywords);
    LeftoversRoundTrip(ps, kw);
    forall j | 0 <= j < |ps| && ps[j].kind == KeywordOnly
      ensures KeywordValue(ps[j], b.keywords) == KeywordValue(ps[j], kw)
    {
      KeywordOnlyRoundTrip(ps, kw, j);
    }
    PairsStable(ps, kw, b.keywords);
    forall j | 0 <= j < |ps| && j < |b.positional| && ps[j].kind == PositionalOrKeyword
      ensures !HasName(b.keywords, ps[j].name)
    {
      var n := ps[j].name;
      assert Claimed(ps, n);
      UnclaimedMembers(ps, kw);
      PairsFrom(ps, kw);
      forall i | 0 <= i < |pairs| ensures pairs[i].0 != n {
        assert pairs[i] in pairs;
      }
      HasNameIndex(pairs, n);
      AppendLookup(pairs, rest, n);
    }
  }

  /**
   * Re-forwarding is the identity: calling a well-formed parameter list with
   * the positionals and keywords it forwarded binds to exactly those again.
   */
  lemma ReforwardIdentity<V>(ps: seq<Param<V>>, pos: seq<V>, kw: Keywords<V>)
    requires WellFormed(ps) && Bind(ps, pos, kw).Ok?
    ensures Bind(ps, Bind(ps, pos, kw).value.positional, Bind(ps, pos, kw).value.keywords) == Bind(ps, pos, kw)
  {
    var b := Bind(ps, pos, kw).value;
    BindMatchesReference(ps, pos, kw);
    ForwardedDistinct(ps, kw);
    AcceptsForwarded(ps, pos, kw);
    BindMatchesReference(ps, b.positional, b.keywords);
  }
}
