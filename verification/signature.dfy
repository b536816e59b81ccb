/**
 * The parameter list of the wrapped callable: each parameter's name, kind and
 * optional default, in declaration order (Python's `inspect.Parameter`).
 */
module Signature {
  import opened Wrappers
  import opened Keywords

  /** The five parameter kinds of a Python signature, in the order they must appear. */
  datatype Kind = PositionalOnly | PositionalOrKeyword | VarPositional | KeywordOnly | VarKeyword
  {
    /** Position of the kind in the mandatory order posonly* posorkw* varpos? kwonly* varkw?. */
    function Rank(): nat
    {
      match this
      case PositionalOnly => 0
      case PositionalOrKeyword => 1
      case VarPositional => 2
      case KeywordOnly => 3
      case VarKeyword => 4
    }

    /** A parameter that occupies one slot of the forwarded positional tuple. */
    predicate Fixed()
    {
      this == PositionalOnly || this == PositionalOrKeyword
    }

    /** A parameter that collects the surplus of the call (`*args`, `**kwargs`). */
    predicate Variadic()
    {
      this == VarPositional || this == VarKeyword
    }

    /** A parameter that a keyword argument of the same name fills. */
    predicate ByName()
    {
      this == PositionalOrKeyword || this == KeywordOnly
    }
  }

  datatype Param<V> = Param(name: string, kind: Kind, default: Option<V>)

  /** What a call forwards to the target: `target(*positional, **dict(keywords))`. */
  datatype Bound<V> = Bound(positional: seq<V>, keywords: Keywords<V>)

  /**
   * What Python guarantees of every signature it builds: kinds in rank order
   * with at most one of each variadic kind and `**kwargs` last, distinct names, no default on a
   * variadic parameter, and no required positional parameter after one with
   * a default.
   */
  predicate WellFormed<V>(ps: seq<Param<V>>)
  {
    && (forall i, j :: 0 <= i < j < |ps| ==> ps[i].kind.Rank() <= ps[j].kind.Rank())
    && (forall i, j :: 0 <= i < j < |ps| && ps[i].kind.Variadic() ==> ps[i].kind.Rank() < ps[j].kind.Rank())
    && (forall i :: 0 <= i < |ps| && ps[i].kind == VarKeyword ==> i == |ps| - 1)
    && (forall i, j :: 0 <= i < j < |ps| ==> ps[i].name != ps[j].name)
    && (forall i :: 0 <= i < |ps| && ps[i].kind.Variadic() ==> ps[i].default.None?)
    && (forall i, j :: 0 <= i < j < |ps| && ps[j].kind.Fixed() && ps[i].default.Some? ==> ps[j].default.Some?)
  }

  /** Length of the leading run of positional parameters (Python's `co_argcount`). */
  function FixedCount<V>(ps: seq<Param<V>>): (r: nat)
    ensures r <= |ps|
    ensures forall j :: 0 <= j < r ==> ps[j].kind.Fixed()
    ensures r < |ps| ==> !ps[r].kind.Fixed()
  {
    if ps == [] || !ps[0].kind.Fixed() then 0 else 1 + FixedCount(ps[1..])
  }

  /** The names of the keyword-only parameters, in declaration order. */
  function KeywordOnlyNames<V>(ps: seq<Param<V>>): seq<string>
  {
    if ps == [] then []
    else (if ps[0].kind == KeywordOnly then [ps[0].name] else []) + KeywordOnlyNames(ps[1..])
  }

  /** Some parameter has kind `k`. */
  predicate HasKind<V>(ps: seq<Param<V>>, k: Kind)
  {
    exists i :: 0 <= i < |ps| && ps[i].kind == k
  }

  /** Some parameter a keyword argument called `n` would fill. */
  predicate Claimed<V>(ps: seq<Param<V>>, n: string)
  {
    exists i :: 0 <= i < |ps| && ps[i].name == n && ps[i].kind.ByName()
  }

  /** Some positional-only parameter is called `n`. */
  predicate PositionalOnlyName<V>(ps: seq<Param<V>>, n: string)
  {
    exists i :: 0 <= i < |ps| && ps[i].name == n && ps[i].kind == PositionalOnly
  }

  /** Well-formedness holds of every suffix. */
  lemma WellFormedTail<V>(ps: seq<Param<V>>)
    requires WellFormed(ps) && ps != []
    ensures WellFormed(ps[1..])
  {
  }

  /** The three membership questions split over the head and the rest of a list. */
  lemma Uncons<V>(ps: seq<Param<V>>)
    requires ps != []
    ensures forall k :: HasKind(ps, k) <==> ps[0].kind == k || HasKind(ps[1..], k)
    ensures forall n :: Claimed(ps, n) <==> (ps[0].name == n && ps[0].kind.ByName()) || Claimed(ps[1..], n)
    ensures forall n :: PositionalOnlyName(ps, n) <==>
      (ps[0].name == n && ps[0].kind == PositionalOnly) || PositionalOnlyName(ps[1..], n)
  {
    forall k | HasKind(ps, k) && ps[0].kind != k
      ensures HasKind(ps[1..], k)
    {
      var i :| 0 <= i < |ps| && ps[i].kind == k;
      assert ps[1..][i - 1] == ps[i];
    }
    forall n | Claimed(ps, n) && !(ps[0].name == n && ps[0].kind.ByName())
      ensures Claimed(ps[1..], n)
    {
      var i :| 0 <= i < |ps| && ps[i].name == n && ps[i].kind.ByName();
      assert ps[1..][i - 1] == ps[i];
    }
    forall n | PositionalOnlyName(ps, n) && !(ps[0].name == n && ps[0].kind == PositionalOnly)
      ensures PositionalOnlyName(ps[1..], n)
    {
      var i :| 0 <= i < |ps| && ps[i].name == n && ps[i].kind == PositionalOnly;
      assert ps[1..][i - 1] == ps[i];
    }
    forall k | HasKind(ps[1..], k)
      ensures HasKind(ps, k)
    {
      var i :| 0 <= i < |ps[1..]| && ps[1..][i].kind == k;
      assert ps[i + 1] == ps[1..][i];
    }
    forall n | Claimed(ps[1..], n)
      ensures Claimed(ps, n)
    {
      var i :| 0 <= i < |ps[1..]| && ps[1..][i].name == n && ps[1..][i].kind.ByName();
      assert ps[i + 1] == ps[1..][i];
    }
    forall n | PositionalOnlyName(ps[1..], n)
      ensures PositionalOnlyName(ps, n)
    {
      var i :| 0 <= i < |ps[1..]| && ps[1..][i].name == n && ps[1..][i].kind == PositionalOnly;
      assert ps[i + 1] == ps[1..][i];
    }
  }

  /** In a well-formed list every positional parameter precedes every other one. */
  lemma FixedPrefix<V>(ps: seq<Param<V>>)
    requires WellFormed(ps)
    ensures forall j :: 0 <= j < |ps| ==> (ps[j].kind.Fixed() <==> j < FixedCount(ps))
  {
    var f := FixedCount(ps);
    forall j | f <= j < |ps|
      ensures !ps[j].kind.Fixed()
    {
      if j > f {
        assert 2 <= ps[f].kind.Rank() <= ps[j].kind.Rank();
      }
    }
  }
}
