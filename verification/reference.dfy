/**
 * An independent description of a successful binding, slot by slot and
 * without a cursor: which calls Python accepts for a parameter list, and what
 * the wrapper then forwards.  Section 6.3.4 ("Calls") of the Python Language
 * Reference, PEP 3102 (keyword-only parameters) and PEP 570 (positional-only
 * parameters) give the rules.
 */
module Reference {
  import opened Wrappers
  import opened Keywords
  import opened Signature

  /** The value of positional parameter `j`: by position, else by name (not for positional-only), else its default. */
  function SlotValue<V>(ps: seq<Param<V>>, j: nat, pos: seq<V>, kw: Keywords<V>): Option<V>
    requires j < |ps|
  {
    if j < |pos| then Some(pos[j])
    else if ps[j].kind == PositionalOrKeyword && HasName(kw, ps[j].name) then Some(Lookup(kw, ps[j].name))
    else ps[j].default
  }

  /** The value of keyword-only parameter `p`: by name, else its default. */
  function KeywordValue<V>(p: Param<V>, kw: Keywords<V>): Option<V>
  {
    if HasName(kw, p.name) then Some(Lookup(kw, p.name)) else p.default
  }

  /** The keyword entries no named parameter takes, in call order: what `**kwargs` collects. */
  function Unclaimed<V>(ps: seq<Param<V>>, kw: Keywords<V>): Keywords<V>
  {
    if kw == [] then []
    else (if Claimed(ps, kw[0].0) then [] else [kw[0]]) + Unclaimed(ps, kw[1..])
  }

  /** Every positional value has a parameter, or `*args` takes the surplus. */
  ghost predicate NoSurplusPositional<V>(ps: seq<Param<V>>, pos: seq<V>)
  {
    |pos| <= FixedCount(ps) || HasKind(ps, VarPositional)
  }

  /** No parameter is filled both by position and by name. */
  ghost predicate NoDoubleBinding<V>(ps: seq<Param<V>>, pos: seq<V>, kw: Keywords<V>)
  {
    forall j :: 0 <= j < |ps| && j < |pos| && ps[j].kind == PositionalOrKeyword ==> !HasName(kw, ps[j].name)
  }

  /** Every positional parameter gets a value. */
  ghost predicate FixedSupplied<V>(ps: seq<Param<V>>, pos: seq<V>, kw: Keywords<V>)
  {
    forall j :: 0 <= j < FixedCount(ps) ==> SlotValue(ps, j, pos, kw).Some?
  }

  /** Every keyword-only parameter gets a value. */
  ghost predicate KeywordOnlySupplied<V>(ps: seq<Param<V>>, kw: Keywords<V>)
  {
    forall j :: 0 <= j < |ps| && ps[j].kind == KeywordOnly ==> KeywordValue(ps[j], kw).Some?
  }

  /** Every keyword has a parameter, or `**kwargs` takes the rest. */
  ghost predicate NoStrayKeyword<V>(ps: seq<Param<V>>, kw: Keywords<V>)
  {
    HasKind(ps, VarKeyword) || Unclaimed(ps, kw) == []
  }

  /** The call is one Python accepts for this parameter list (keyword names assumed distinct). */
  ghost predicate Accepts<V>(ps: seq<Param<V>>, pos: seq<V>, kw: Keywords<V>)
  {
    && NoSurplusPositional(ps, pos)
    && NoDoubleBinding(ps, pos, kw)
    && FixedSupplied(ps, pos, kw)
    && KeywordOnlySupplied(ps, kw)
    && NoStrayKeyword(ps, kw)
  }

  /** The values of the positional parameters, in declaration order. */
  ghost function FixedValues<V>(ps: seq<Param<V>>, pos: seq<V>, kw: Keywords<V>): seq<V>
    requires FixedSupplied(ps, pos, kw)
  {
    seq(FixedCount(ps), j requires 0 <= j < FixedCount(ps) => SlotValue(ps, j, pos, kw).value)
  }

  /** The positional values beyond the positional parameters: what `*args` collects. */
  function Surplus<V>(ps: seq<Param<V>>, pos: seq<V>): seq<V>
  {
    if FixedCount(ps) <= |pos| then pos[FixedCount(ps)..] else []
  }

  /** The keyword-only parameters that get a value, with it, in declaration order. */
  function KeywordOnlyPairs<V>(ps: seq<Param<V>>, kw: Keywords<V>): Keywords<V>
  {
    if ps == [] then []
    else
      (if ps[0].kind == KeywordOnly && KeywordValue(ps[0], kw).Some?
       then [(ps[0].name, KeywordValue(ps[0], kw).value)] else [])
      + KeywordOnlyPairs(ps[1..], kw)
  }

  /**
   * What the wrapper forwards for an accepted call: the positional parameters'
   * values then the surplus positionals; the keyword-only parameters' values
   * then the unclaimed keywords.
   */
  ghost function Expected<V>(ps: seq<Param<V>>, pos: seq<V>, kw: Keywords<V>): Bound<V>
    requires Accepts(ps, pos, kw)
  {
    Bound(FixedValues(ps, pos, kw) + Surplus(ps, pos), KeywordOnlyPairs(ps, kw) + Unclaimed(ps, kw))
  }

  /** Collecting leftovers keeps call order: it distributes over concatenation. */
  lemma {:induction false} UnclaimedAppend<V>(ps: seq<Param<V>>, a: Keywords<V>, b: Keywords<V>)
    ensures Unclaimed(ps, a + b) == Unclaimed(ps, a) + Unclaimed(ps, b)
  {
    if a == [] {
      assert a + b == b;
    } else {
      assert (a + b)[1..] == a[1..] + b;
      UnclaimedAppend(ps, a[1..], b);
    }
  }

  /** The leftovers are exactly the call's entries whose name no named parameter takes. */
  lemma {:induction false} UnclaimedMembers<V>(ps: seq<Param<V>>, kw: Keywords<V>)
    ensures forall e :: e in Unclaimed(ps, kw) <==> e in kw && !Claimed(ps, e.0)
    ensures forall n :: HasName(Unclaimed(ps, kw), n) ==> HasName(kw, n) && !Claimed(ps, n)
    ensures |Unclaimed(ps, kw)| <= |kw|
  {
    if kw != [] {
      UnclaimedMembers(ps, kw[1..]);
      assert forall e :: e in kw <==> e == kw[0] || e in kw[1..];
      var head: Keywords<V> := if Claimed(ps, kw[0].0) then [] else [kw[0]];
      var tail := Unclaimed(ps, kw[1..]);
      forall n | HasName(head + tail, n)
        ensures HasName(kw, n) && !Claimed(ps, n)
      {
        AppendLookup(head, tail, n);
        if HasName(head, n) {
          assert head[1..] == [];
        }
      }
    }
  }

  /** Collecting leftovers twice collects nothing more. */
  lemma {:induction false} UnclaimedIdempotent<V>(ps: seq<Param<V>>, kw: Keywords<V>)
    ensures Unclaimed(ps, Unclaimed(ps, kw)) == Unclaimed(ps, kw)
  {
    if kw != [] {
      UnclaimedIdempotent(ps, kw[1..]);
      var head := if Claimed(ps, kw[0].0) then [] else [kw[0]];
      UnclaimedAppend(ps, head, Unclaimed(ps, kw[1..]));
      assert Unclaimed(ps, head) == head by {
        if head != [] {
          assert head[1..] == [];
        }
      }
    }
  }

  /** Entries whose names are all taken leave nothing over. */
  lemma {:induction false} UnclaimedNone<V>(ps: seq<Param<V>>, kw: Keywords<V>)
    requires forall i :: 0 <= i < |kw| ==> Claimed(ps, kw[i].0)
    ensures Unclaimed(ps, kw) == []
  {
    if kw != [] {
      assert forall i :: 0 <= i < |kw[1..]| ==> kw[1..][i] == kw[i + 1];
      UnclaimedNone(ps, kw[1..]);
    }
  }

  /** Leftovers of a call without repeated names repeat no name. */
  lemma {:induction false} UnclaimedDistinct<V>(ps: seq<Param<V>>, kw: Keywords<V>)
    requires NamesDistinct(kw)
    ensures NamesDistinct(Unclaimed(ps, kw))
  {
    if kw != [] {
      var head := if Claimed(ps, kw[0].0) then [] else [kw[0]];
      var tail := Unclaimed(ps, kw[1..]);
      assert NamesDistinct(kw[1..]) by {
        forall i, j | 0 <= i < j < |kw[1..]| ensures kw[1..][i].0 != kw[1..][j].0 {
          assert kw[1..][i] == kw[i + 1] && kw[1..][j] == kw[j + 1];
        }
      }
      UnclaimedDistinct(ps, kw[1..]);
      UnclaimedMembers(ps, kw[1..]);
      forall j | 0 <= j < |kw[1..]| ensures kw[1..][j].0 != kw[0].0 {
        assert kw[1..][j] == kw[j + 1];
      }
      HasNameIndex(kw[1..], kw[0].0);
      forall n | HasName(head, n) ensures !HasName(tail, n) {
        assert head[1..] == [] && !HasName(head[1..], n);
        assert n == kw[0].0;
      }
      DistinctAppend(head, tail);
    }
  }

  /** A supplied keyword-only value, else the stored default, appears under the parameter's name. */
  lemma {:induction false} PairsHold<V>(ps: seq<Param<V>>, kw: Keywords<V>, j: nat)
    requires j < |ps| && ps[j].kind == KeywordOnly && KeywordValue(ps[j], kw).Some?
    ensures (ps[j].name, KeywordValue(ps[j], kw).value) in KeywordOnlyPairs(ps, kw)
  {
    if j > 0 {
      assert ps[1..][j - 1] == ps[j];
      PairsHold(ps[1..], kw, j - 1);
    }
  }

  /** Every keyword-only entry carries the name of a keyword-only parameter and that parameter's value. */
  lemma {:induction false} PairsFrom<V>(ps: seq<Param<V>>, kw: Keywords<V>)
    ensures forall e :: e in KeywordOnlyPairs(ps, kw) ==>
      exists j :: (0 <= j < |ps| && ps[j].kind == KeywordOnly && ps[j].name == e.0
                   && KeywordValue(ps[j], kw) == Some(e.1))
  {
    if ps != [] {
      PairsFrom(ps[1..], kw);
      forall e | e in KeywordOnlyPairs(ps[1..], kw)
        ensures exists j :: (0 <= j < |ps| && ps[j].kind == KeywordOnly && ps[j].name == e.0
                             && KeywordValue(ps[j], kw) == Some(e.1))
      {
        var j :| (0 <= j < |ps[1..]| && ps[1..][j].kind == KeywordOnly && ps[1..][j].name == e.0
                  && KeywordValue(ps[1..][j], kw) == Some(e.1));
        assert ps[j + 1] == ps[1..][j];
      }
    }
  }

  /** The keyword-only entries carry the keyword-only names, in declaration order. */
  lemma {:induction false} PairsNames<V>(ps: seq<Param<V>>, kw: Keywords<V>)
    requires KeywordOnlySupplied(ps, kw)
    ensures Names(KeywordOnlyPairs(ps, kw)) == KeywordOnlyNames(ps)
  {
    if ps != [] {
      assert KeywordOnlySupplied(ps[1..], kw) by {
        forall j | 0 <= j < |ps[1..]| && ps[1..][j].kind == KeywordOnly
          ensures KeywordValue(ps[1..][j], kw).Some?
        {
          assert ps[1..][j] == ps[j + 1];
        }
      }
      PairsNames(ps[1..], kw);
      assert ps[0].kind == KeywordOnly ==> KeywordValue(ps[0], kw).Some?;
      var head: Keywords<V> := if ps[0].kind == KeywordOnly then [(ps[0].name, KeywordValue(ps[0], kw).value)] else [];
      assert Names(head + KeywordOnlyPairs(ps[1..], kw)) == Names(head) + Names(KeywordOnlyPairs(ps[1..], kw));
    }
  }
}
