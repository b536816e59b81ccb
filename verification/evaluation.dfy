/**
 * The binder as an interpreter runs it: cursors into the parameter list and
 * the positional values, the set of keyword names consumed so far in place
 * of a shrinking keyword list, and the forwarded values accumulated left to
 * right.  `EvaluateIsBind` proves it equal to `Binding.Bind` on every call,
 * so a concrete call can be settled by evaluating this form.
 */
module Evaluation {
  import opened Wrappers
  import opened Keywords
  import opened Signature
  import opened Binding

  /** The entries from index `k` on whose names are not in `used`, in call order. */
  function Leftover<V>(kw: Keywords<V>, k: nat, used: set<string>): Keywords<V>
    decreases |kw| - k
  {
    if k >= |kw| then []
    else (if kw[k].0 in used then [] else [kw[k]]) + Leftover(kw, k + 1, used)
  }

  /** Some entry from index `k` on is called `n`, and `n` is not consumed yet. */
  predicate Pending<V>(kw: Keywords<V>, k: nat, n: string, used: set<string>)
    decreases |kw| - k
  {
    k < |kw| && n !in used && (kw[k].0 == n || Pending(kw, k + 1, n, used))
  }

  /** The value of the first entry from index `k` on called `n`. */
  function Fetch<V>(kw: Keywords<V>, k: nat, n: string, used: set<string>): V
    requires Pending(kw, k, n, used)
    decreases |kw| - k
  {
    if kw[k].0 == n then kw[k].1 else Fetch(kw, k + 1, n, used)
  }

  /**
   * Bind parameters `ps[i..]` to positional values `pos[j..]` and the keyword
   * entries of `kw` not in `used`, after `outP` and `outK` have been forwarded.
   */
  function Run<V>(ps: seq<Param<V>>, i: nat, pos: seq<V>, j: nat, kw: Keywords<V>, used: set<string>,
                  outP: seq<V>, outK: Keywords<V>): Result<Bound<V>, BindError>
    requires i <= |ps| && j <= |pos|
    decreases |ps| - i
  {
    if i == |ps| then
      if j < |pos| then Err(TooManyPositional(|pos| - j))
      else if Leftover(kw, 0, used) != [] then Err(UnexpectedKeyword(Leftover(kw, 0, used)[0].0))
      else Ok(Bound(outP, outK))
    else
      var p := ps[i];
      match p.kind
      case PositionalOnly =>
        if j < |pos| then Run(ps, i + 1, pos, j + 1, kw, used, outP + [pos[j]], outK)
        else if p.default.Some? then Run(ps, i + 1, pos, j, kw, used, outP + [p.default.value], outK)
        else Err(MissingArgument(p.name))
      case PositionalOrKeyword =>
        if j < |pos| then
          if Pending(kw, 0, p.name, used) then Err(MultipleValues(p.name))
          else Run(ps, i + 1, pos, j + 1, kw, used, outP + [pos[j]], outK)
        else if Pending(kw, 0, p.name, used) then
          Run(ps, i + 1, pos, j, kw, used + {p.name}, outP + [Fetch(kw, 0, p.name, used)], outK)
        else if p.default.Some? then Run(ps, i + 1, pos, j, kw, used, outP + [p.default.value], outK)
        else Err(MissingArgument(p.name))
      case VarPositional =>
        Run(ps, i + 1, pos, |pos|, kw, used, outP + pos[j..], outK)
      case KeywordOnly =>
        if Pending(kw, 0, p.name, used) then
          Run(ps, i + 1, pos, j, kw, used + {p.name}, outP, outK + [(p.name, Fetch(kw, 0, p.name, used))])
        else if p.default.Some? then Run(ps, i + 1, pos, j, kw, used, outP, outK + [(p.name, p.default.value)])
        else Err(MissingKeywordOnly(p.name))
      case VarKeyword =>
        Run(ps, i + 1, pos, j, [], {}, outP, outK + Leftover(kw, 0, used))
  }

  /** Report a leftover keyword that names a positional-only parameter as such. */
  function Relabel<V>(ps: seq<Param<V>>, r: Result<Bound<V>, BindError>): Result<Bound<V>, BindError>
  {
    if r.Err? && r.error.UnexpectedKeyword? && PositionalOnlyName(ps, r.error.name)
    then Err(PositionalOnlyAsKeyword(r.error.name)) else r
  }

  /** The whole binder in evaluation form. */
  function Evaluate<V>(ps: seq<Param<V>>, pos: seq<V>, kw: Keywords<V>): Result<Bound<V>, BindError>
  {
    if RepeatedName(kw).Some? then Err(DuplicateKeyword(RepeatedName(kw).value))
    else Relabel(ps, Run(ps, 0, pos, 0, kw, {}, [], []))
  }

  /** A pending name is one the leftover entries carry, with the same first value. */
  lemma {:induction false} PendingIsHasName<V>(kw: Keywords<V>, k: nat, n: string, used: set<string>)
    ensures Pending(kw, k, n, used) <==> HasName(Leftover(kw, k, used), n)
    ensures Pending(kw, k, n, used) ==> Fetch(kw, k, n, used) == Lookup(Leftover(kw, k, used), n)
    decreases |kw| - k
  {
    if k < |kw| {
      PendingIsHasName(kw, k + 1, n, used);
      var head: Keywords<V> := if kw[k].0 in used then [] else [kw[k]];
      AppendLookup(head, Leftover(kw, k + 1, used), n);
      if head != [] {
        assert head[1..] == [];
      }
      if n in used {
        LeftoverUnused(kw, k + 1, n, used);
      }
    }
  }

  /** A consumed name is never among the leftovers. */
  lemma {:induction false} LeftoverUnused<V>(kw: Keywords<V>, k: nat, n: string, used: set<string>)
    requires n in used
    ensures !HasName(Leftover(kw, k, used), n)
    decreases |kw| - k
  {
    if k < |kw| {
      LeftoverUnused(kw, k + 1, n, used);
      var head: Keywords<V> := if kw[k].0 in used then [] else [kw[k]];
      AppendLookup(head, Leftover(kw, k + 1, used), n);
      if head != [] {
        assert head[1..] == [];
      }
    }
  }

  /** Consuming one more name removes its entries from the leftovers. */
  lemma {:induction false} LeftoverConsume<V>(kw: Keywords<V>, k: nat, n: string, used: set<string>)
    ensures Leftover(kw, k, used + {n}) == Remove(Leftover(kw, k, used), n)
    decreases |kw| - k
  {
    if k < |kw| {
      LeftoverConsume(kw, k + 1, n, used);
      var head: Keywords<V> := if kw[k].0 in used then [] else [kw[k]];
      RemoveAppend(head, Leftover(kw, k + 1, used), n);
      if head != [] {
        assert head[1..] == [];
      }
    }
  }

  /** With nothing consumed, the leftovers from index `k` are the entries from `k`. */
  lemma {:induction false} LeftoverNone<V>(kw: Keywords<V>, k: nat)
    requires k <= |kw|
    ensures Leftover(kw, k, {}) == kw[k..]
    decreases |kw| - k
  {
    if k < |kw| {
      LeftoverNone(kw, k + 1);
      assert kw[k..] == [kw[k]] + kw[k + 1..];
    }
  }

  /** Forwarding `outP` and `outK` first, then a binding, is one binding with them in front. */
  lemma PrependTwice<V>(outP: seq<V>, outK: Keywords<V>, vs: seq<V>, ks: Keywords<V>, r: Result<Bound<V>, BindError>)
    ensures Prepend(outP, outK, Prepend(vs, ks, r)) == Prepend(outP + vs, outK + ks, r)
  {
    if r.Ok? {
      assert outP + (vs + r.value.positional) == (outP + vs) + r.value.positional;
      assert outK + (ks + r.value.keywords) == (outK + ks) + r.value.keywords;
    }
  }

  /**
   * The evaluation form agrees with the walk on every suffix: running from
   * cursors `i` and `j` with names `used` consumed is walking `ps[i..]` over
   * `pos[j..]` and the leftovers, behind what is already forwarded.
   */
  lemma {:induction false} RunIsWalk<V>(ps: seq<Param<V>>, i: nat, pos: seq<V>, j: nat, kw: Keywords<V>,
                                        used: set<string>, outP: seq<V>, outK: Keywords<V>)
    requires i <= |ps| && j <= |pos|
    ensures Run(ps, i, pos, j, kw, used, outP, outK)
         == Prepend(outP, outK, Walk(ps[i..], pos[j..], Leftover(kw, 0, used)))
    decreases |ps| - i
  {
    var rest := Leftover(kw, 0, used);
    var qs, vs := ps[i..], pos[j..];
    if i < |ps| {
      var p := ps[i];
      assert qs[0] == p && qs[1..] == ps[i + 1..];
      PendingIsHasName(kw, 0, p.name, used);
      assert outP + [] == outP && outK + [] == outK;
      match p.kind
      case PositionalOnly =>
        if j < |pos| {
          RunIsWalk(ps, i + 1, pos, j + 1, kw, used, outP + [pos[j]], outK);
          assert vs[0] == pos[j] && vs[1..] == pos[j + 1..];
          PrependTwice(outP, outK, [pos[j]], [], Walk(qs[1..], vs[1..], rest));
        } else if p.default.Some? {
          RunIsWalk(ps, i + 1, pos, j, kw, used, outP + [p.default.value], outK);
          PrependTwice(outP, outK, [p.default.value], [], Walk(qs[1..], [], rest));
        }
      case PositionalOrKeyword =>
        if j < |pos| {
          RunIsWalk(ps, i + 1, pos, j + 1, kw, used, outP + [pos[j]], outK);
          assert vs[0] == pos[j] && vs[1..] == pos[j + 1..];
          PrependTwice(outP, outK, [pos[j]], [], Walk(qs[1..], vs[1..], rest));
        } else if HasName(rest, p.name) {
          var v := Fetch(kw, 0, p.name, used);
          RunIsWalk(ps, i + 1, pos, j, kw, used + {p.name}, outP + [v], outK);
          LeftoverConsume(kw, 0, p.name, used);
          PrependTwice(outP, outK, [v], [], Walk(qs[1..], [], Remove(rest, p.name)));
        } else if p.default.Some? {
          RunIsWalk(ps, i + 1, pos, j, kw, used, outP + [p.default.value], outK);
          PrependTwice(outP, outK, [p.default.value], [], Walk(qs[1..], [], rest));
        }
      case VarPositional =>
        RunIsWalk(ps, i + 1, pos, |pos|, kw, used, outP + vs, outK);
        assert pos[|pos|..] == [];
        PrependTwice(outP, outK, vs, [], Walk(qs[1..], [], rest));
      case KeywordOnly =>
        if HasName(rest, p.name) {
          var v := Fetch(kw, 0, p.name, used);
          RunIsWalk(ps, i + 1, pos, j, kw, used + {p.name}, outP, outK + [(p.name, v)]);
          LeftoverConsume(kw, 0, p.name, used);
          PrependTwice(outP, outK, [], [(p.name, v)], Walk(qs[1..], vs, Remove(rest, p.name)));
        } else if p.default.Some? {
          RunIsWalk(ps, i + 1, pos, j, kw, used, outP, outK + [(p.name, p.default.value)]);
          PrependTwice(outP, outK, [], [(p.name, p.default.value)], Walk(qs[1..], vs, rest));
        }
      case VarKeyword =>
        RunIsWalk(ps, i + 1, pos, j, [], {}, outP, outK + rest);
        assert Leftover<V>([], 0, {}) == [];
        PrependTwice(outP, outK, [], rest, Walk(qs[1..], vs, []));
    } else {
      assert qs == [];
      if j == |pos| {
        assert outP + [] == outP && outK + [] == outK;
      }
    }
  }

  /** The evaluation form is the binder: the same result, errors included, on every call. */
  lemma EvaluateIsBind<V>(ps: seq<Param<V>>, pos: seq<V>, kw: Keywords<V>)
    ensures Evaluate(ps, pos, kw) == Bind(ps, pos, kw)
  {
    RunIsWalk(ps, 0, pos, 0, kw, {}, [], []);
    LeftoverNone(kw, 0);
    assert ps[0..] == ps && pos[0..] == pos && kw[0..] == kw;
    var w := Walk(ps, pos, kw);
    if w.Ok? {
      assert [] + w.value.positional == w.value.positional;
      assert [] + w.value.keywords == w.value.keywords;
    }
  }
}
