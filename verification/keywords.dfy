/**
 * The keyword part of a call: an ordered list of name/value pairs, in the
 * order the caller wrote them.  A list rather than a map, because the order
 * in which leftover keywords are forwarded is observable.
 */
module Keywords {
  import opened Wrappers

  type Keywords<V> = seq<(string, V)>

  /** The names of the entries, in call order. */
  function Names<V>(kw: Keywords<V>): (r: seq<string>)
    ensures |r| == |kw| && forall j :: 0 <= j < |kw| ==> r[j] == kw[j].0
  {
    if kw == [] then [] else [kw[0].0] + Names(kw[1..])
  }

  /** The names of a concatenation are the names of its parts, in order. */
  lemma NamesAppend<V>(a: Keywords<V>, b: Keywords<V>)
    ensures Names(a + b) == Names(a) + Names(b)
    ensures Names(a + b)[..|a|] == Names(a)
  {
  }

  /** Some entry is called `n`. */
  predicate HasName<V>(kw: Keywords<V>, n: string)
  {
    kw != [] && (kw[0].0 == n || HasName(kw[1..], n))
  }

  /** No name is supplied twice. */
  predicate NamesDistinct<V>(kw: Keywords<V>)
  {
    forall i, j :: 0 <= i < j < |kw| ==> kw[i].0 != kw[j].0
  }

  /** `HasName` is membership of the name among the entries. */
  lemma {:induction false} HasNameIndex<V>(kw: Keywords<V>, n: string)
    ensures HasName(kw, n) <==> exists j :: 0 <= j < |kw| && kw[j].0 == n
  {
    if kw != [] {
      HasNameIndex(kw[1..], n);
      if HasName(kw[1..], n) {
        var j :| 0 <= j < |kw[1..]| && kw[1..][j].0 == n;
        assert kw[j + 1].0 == n;
      }
      if kw[0].0 != n && exists j :: 0 <= j < |kw| && kw[j].0 == n {
        var j :| 0 <= j < |kw| && kw[j].0 == n;
        assert kw[1..][j - 1].0 == n;
      }
    }
  }

  /** The value of the first entry called `n`; with distinct names, the only one. */
  function Lookup<V>(kw: Keywords<V>, n: string): V
    requires HasName(kw, n)
  {
    if kw[0].0 == n then kw[0].1 else Lookup(kw[1..], n)
  }

  /** The list with every entry called `n` taken out; the other entries keep their order. */
  function Remove<V>(kw: Keywords<V>, n: string): Keywords<V>
  {
    if kw == [] then []
    else
      var tail := Remove(kw[1..], n);
      if kw[0].0 == n then tail else [kw[0]] + tail
  }

  /** A name the caller supplied more than once, if there is one. */
  function RepeatedName<V>(kw: Keywords<V>): Option<string>
  {
    if kw == [] then None
    else if HasName(kw[1..], kw[0].0) then Some(kw[0].0)
    else RepeatedName(kw[1..])
  }

  /** `Lookup` returns the value of an entry with that name, the only one when names are distinct. */
  lemma {:induction false} LookupFinds<V>(kw: Keywords<V>, n: string)
    requires HasName(kw, n)
    ensures (n, Lookup(kw, n)) in kw
    ensures NamesDistinct(kw) ==> forall j :: 0 <= j < |kw| && kw[j].0 == n ==> kw[j].1 == Lookup(kw, n)
  {
    if kw[0].0 != n {
      LookupFinds(kw[1..], n);
      assert (n, Lookup(kw, n)) in kw[1..];
    }
    if NamesDistinct(kw) && kw[0].0 == n {
      forall j | 0 < j < |kw| ensures kw[j].0 != n {
      }
    }
  }

  /** `Remove` takes out exactly the name it is given: other names keep their presence and value. */
  lemma {:induction false} RemoveOnly<V>(kw: Keywords<V>, n: string)
    ensures !HasName(Remove(kw, n), n)
    ensures forall m :: m != n ==> (HasName(Remove(kw, n), m) <==> HasName(kw, m))
    ensures forall m :: m != n && HasName(kw, m) ==> Lookup(Remove(kw, n), m) == Lookup(kw, m)
    ensures !HasName(kw, n) ==> Remove(kw, n) == kw
  {
    if kw != [] {
      RemoveOnly(kw[1..], n);
    }
  }

  /** `RepeatedName` finds a repeat exactly when the names are not distinct. */
  lemma {:induction false} RepeatedNameDecides<V>(kw: Keywords<V>)
    ensures RepeatedName(kw).None? <==> NamesDistinct(kw)
    ensures RepeatedName(kw).Some? ==>
      exists i, j :: 0 <= i < j < |kw| && kw[i].0 == RepeatedName(kw).value && kw[j].0 == RepeatedName(kw).value
  {
    if kw != [] {
      HasNameIndex(kw[1..], kw[0].0);
      RepeatedNameDecides(kw[1..]);
      if HasName(kw[1..], kw[0].0) {
        var j :| 0 <= j < |kw[1..]| && kw[1..][j].0 == kw[0].0;
        assert kw[j + 1].0 == kw[0].0;
      } else if RepeatedName(kw[1..]).Some? {
        var i, j :| 0 <= i < j < |kw[1..]| && kw[1..][i].0 == RepeatedName(kw).value && kw[1..][j].0 == RepeatedName(kw).value;
        assert kw[i + 1].0 == kw[j + 1].0;
      } else {
        forall i, j | 0 <= i < j < |kw| ensures kw[i].0 != kw[j].0 {
          if i > 0 {
            assert kw[1..][i - 1] == kw[i] && kw[1..][j - 1] == kw[j];
          } else {
            assert kw[1..][j - 1] == kw[j];
          }
        }
      }
    }
  }

  /**
   * Inserting an entry with a fresh name anywhere in the call: the name is
   * found with that value, removing it gives the call back, and every other
   * name, and any repeated name, is unaffected.
   */
  lemma {:induction false} InsertFresh<V>(a: Keywords<V>, b: Keywords<V>, n: string, v: V)
    requires !HasName(a + b, n)
    ensures HasName(a + [(n, v)] + b, n) && Lookup(a + [(n, v)] + b, n) == v
    ensures Remove(a + [(n, v)] + b, n) == a + b
    ensures forall m :: m != n ==> (HasName(a + [(n, v)] + b, m) <==> HasName(a + b, m))
    ensures RepeatedName(a + [(n, v)] + b) == RepeatedName(a + b)
  {
    var s := a + [(n, v)] + b;
    if a == [] {
      assert s == [(n, v)] + b && a + b == b;
      assert s[1..] == b;
      RemoveOnly(b, n);
    } else {
      assert s[0] == a[0] && (a + b)[0] == a[0];
      assert s[1..] == a[1..] + [(n, v)] + b;
      assert (a + b)[1..] == a[1..] + b;
      InsertFresh(a[1..], b, n, v);
      assert Remove(s, n) == [a[0]] + (a[1..] + b);
    }
  }

  /** Membership and lookup in a concatenation: the earlier list wins. */
  lemma {:induction false} AppendLookup<V>(a: Keywords<V>, b: Keywords<V>, n: string)
    ensures HasName(a + b, n) <==> HasName(a, n) || HasName(b, n)
    ensures HasName(a, n) ==> Lookup(a + b, n) == Lookup(a, n)
    ensures !HasName(a, n) && HasName(b, n) ==> Lookup(a + b, n) == Lookup(b, n)
  {
    if a != [] {
      assert (a + b)[1..] == a[1..] + b;
      AppendLookup(a[1..], b, n);
    } else {
      assert a + b == b;
    }
  }

  /** Removing a name from a concatenation removes it from each part. */
  lemma {:induction false} RemoveAppend<V>(a: Keywords<V>, b: Keywords<V>, n: string)
    ensures Remove(a + b, n) == Remove(a, n) + Remove(b, n)
  {
    if a != [] {
      assert (a + b)[1..] == a[1..] + b;
      RemoveAppend(a[1..], b, n);
    } else {
      assert a + b == b;
    }
  }

  /** Two lists without repeats and without a common name concatenate to one without repeats. */
  lemma DistinctAppend<V>(a: Keywords<V>, b: Keywords<V>)
    requires NamesDistinct(a) && NamesDistinct(b)
    requires forall n :: HasName(a, n) ==> !HasName(b, n)
    ensures NamesDistinct(a + b)
  {
    forall i, j | 0 <= i < j < |a + b|
      ensures (a + b)[i].0 != (a + b)[j].0
    {
      if i < |a| <= j {
        HasNameIndex(a, a[i].0);
        HasNameIndex(b, a[i].0);
        assert (a + b)[j] == b[j - |a|];
      }
    }
  }
}
