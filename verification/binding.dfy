/**
 * The binder: match a call (positional values plus named values) against a
 * parameter list and compute what the wrapper forwards to its target, a
 * positional tuple and a keyword mapping.
 */
module Binding {
  import opened Wrappers
  import opened Keywords
  import opened Signature

  /** The reasons a call is rejected; every one of them is a `TypeError` in Python. */
  datatype BindError =
    | DuplicateKeyword(name: string)         // the call itself names a keyword twice
    | MultipleValues(name: string)           // supplied by position and by name
    | MissingArgument(name: string)          // required positional parameter not supplied
    | MissingKeywordOnly(name: string)       // required keyword-only parameter not supplied
    | TooManyPositional(surplus: nat)        // positional values left over, no `*args`
    | UnexpectedKeyword(name: string)        // keyword left over, no `**kwargs`
    | PositionalOnlyAsKeyword(name: string)  // a positional-only parameter named in the call

  /** Put forwarded values in front of a successful binding of the rest of the parameter list. */
  function Prepend<V>(vs: seq<V>, kws: Keywords<V>, r: Result<Bound<V>, BindError>): Result<Bound<V>, BindError>
  {
    match r
    case Ok(b) => Ok(Bound(vs + b.positional, kws + b.keywords))
    case Err(e) => Err(e)
  }

  /**
   * One left-to-right pass over the parameters `ps`.  `pos` holds the
   * positional values not yet consumed and `rest` the keyword entries not yet
   * consumed; a parameter filled by name removes its name from `rest`.
   */
  function Walk<V>(ps: seq<Param<V>>, pos: seq<V>, rest: Keywords<V>): Result<Bound<V>, BindError>
    decreases |ps|
  {
    if ps == [] then
      if pos != [] then Err(TooManyPositional(|pos|))
      else if rest != [] then Err(UnexpectedKeyword(rest[0].0))
      else Ok(Bound([], []))
    else
      var p := ps[0];
      match p.kind
      case PositionalOnly =>
        if pos != [] then Prepend([pos[0]], [], Walk(ps[1..], pos[1..], rest))
        else if p.default.Some? then Prepend([p.default.value], [], Walk(ps[1..], [], rest))
        else Err(MissingArgument(p.name))
      case PositionalOrKeyword =>
        if pos != [] then
          if HasName(rest, p.name) then Err(MultipleValues(p.name))
          else Prepend([pos[0]], [], Walk(ps[1..], pos[1..], rest))
        else if HasName(rest, p.name) then
          Prepend([Lookup(rest, p.name)], [], Walk(ps[1..], [], Remove(rest, p.name)))
        else if p.default.Some? then Prepend([p.default.value], [], Walk(ps[1..], [], rest))
        else Err(MissingArgument(p.name))
      case VarPositional =>
        Prepend(pos, [], Walk(ps[1..], [], rest))
      case KeywordOnly =>
        if HasName(rest, p.name) then
          Prepend([], [(p.name, Lookup(rest, p.name))], Walk(ps[1..], pos, Remove(rest, p.name)))
        else if p.default.Some? then Prepend([], [(p.name, p.default.value)], Walk(ps[1..], pos, rest))
        else Err(MissingKeywordOnly(p.name))
      case VarKeyword =>
        Prepend([], rest, Walk(ps[1..], pos, []))
  }

  /**
   * Bind a call to the parameter list `ps`.  A keyword named twice is
   * rejected before any matching; a leftover keyword that names a
   * positional-only parameter is reported as such.
   */
  function Bind<V>(ps: seq<Param<V>>, pos: seq<V>, kw: Keywords<V>): (r: Result<Bound<V>, BindError>)
    ensures r.Ok? ==> NamesDistinct(kw)
    ensures r.Ok? ==> |pos| <= |r.value.positional| && r.value.positional[..|pos|] == pos
  {
    RepeatedNameDecides(kw);
    WalkKeepsPositionals(ps, pos, kw);
    match RepeatedName(kw)
    case Some(n) => Err(DuplicateKeyword(n))
    case None =>
      match Walk(ps, pos, kw)
      case Err(UnexpectedKeyword(n)) =>
        if PositionalOnlyName(ps, n) then Err(PositionalOnlyAsKeyword(n)) else Err(UnexpectedKeyword(n))
      case r => r
  }

  /** Positional values always land, in call order, at the front of the forwarded tuple. */
  lemma {:induction false} WalkKeepsPositionals<V>(ps: seq<Param<V>>, pos: seq<V>, rest: Keywords<V>)
    ensures Walk(ps, pos, rest).Ok? ==>
      |pos| <= |Walk(ps, pos, rest).value.positional| && Walk(ps, pos, rest).value.positional[..|pos|] == pos
    decreases |ps|
  {
    if ps != [] {
      var p := ps[0];
      match p.kind
      case PositionalOnly =>
        WalkKeepsPositionals(ps[1..], if pos != [] then pos[1..] else [], rest);
      case PositionalOrKeyword =>
        WalkKeepsPositionals(ps[1..], if pos != [] then pos[1..] else [], rest);
        WalkKeepsPositionals(ps[1..], [], Remove(rest, p.name));
      case VarPositional =>
      case KeywordOnly =>
        WalkKeepsPositionals(ps[1..], pos, rest);
        WalkKeepsPositionals(ps[1..], pos, Remove(rest, p.name));
      case VarKeyword =>
        WalkKeepsPositionals(ps[1..], pos, []);
    }
  }
}
