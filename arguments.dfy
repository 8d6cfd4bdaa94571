/**
 * Keyword-argument remapping for the command layer: each command accepts a
 * long and a short spelling of every flag, and a wrapper folds both into the
 * long one before the command runs. Keyword arguments are a map from names
 * to values; a mapping is the list of (long name, alias) pairs of a command.
 */
module Arguments {
  import opened Errors
  import opened PyStrings

  /**
   * One turn of the remapping loop for `(attr, alias)`: a value under the
   * long name moves over, then a value under the alias moves over it.
   */
  function RemapStep<V>(attr: string, alias: string, conformed: map<string, V>, rest: map<string, V>)
    : (map<string, V>, map<string, V>)
  {
    var (c1, r1) := if attr in rest then (conformed[attr := rest[attr]], rest - {attr}) else (conformed, rest);
    if alias in r1 then (c1[attr := r1[alias]], r1 - {alias}) else (c1, r1)
  }

  /** The whole loop over `mapping`, from the given conformed and remaining keywords. */
  function Remap<V>(mapping: seq<(string, string)>, conformed: map<string, V>, rest: map<string, V>)
    : (map<string, V>, map<string, V>)
  {
    if |mapping| == 0 then (conformed, rest)
    else
      var (c1, r1) := RemapStep(mapping[0].0, mapping[0].1, conformed, rest);
      Remap(mapping[1..], c1, r1)
  }

  /** Every long name and alias of the mapping. */
  function Names(mapping: seq<(string, string)>): set<string>
  {
    (set i | 0 <= i < |mapping| :: mapping[i].0) + (set i | 0 <= i < |mapping| :: mapping[i].1)
  }

  /** The long names and aliases of the mapping are pairwise different. */
  predicate DistinctNames(mapping: seq<(string, string)>)
  {
    (forall i :: 0 <= i < |mapping| ==> mapping[i].0 != mapping[i].1)
    && forall i, j :: 0 <= i < j < |mapping| ==>
      mapping[i].0 != mapping[j].0 && mapping[i].0 != mapping[j].1
      && mapping[i].1 != mapping[j].0 && mapping[i].1 != mapping[j].1
  }

  /** The error for keywords no pair claimed: "argument" takes an "s" beyond one key. */
  function UnknownKeywordsError(keys: seq<string>): Error
  {
    NotImplementedError("Not implemented keyword argument" + (if |keys| > 1 then "s" else "") + ": " + JoinComma(keys))
  }

  /** `keys` lists the set `s`, each element once. */
  predicate Lists(keys: seq<string>, s: set<string>)
  {
    (forall i :: 0 <= i < |keys| ==> keys[i] in s)
    && (forall x :: x in s ==> x in keys)
    && forall i, j :: 0 <= i < j < |keys| ==> keys[i] != keys[j]
  }

  /**
   * `handle_arguments`: the conformed keywords the command is called with,
   * or `NotImplementedError` listing the keywords left over.
   */
  method HandleArguments<V>(mapping: seq<(string, string)>, kwargs: map<string, V>) returns (r: Result<map<string, V>>)
    ensures var (conformed, rest) := Remap(mapping, map[], kwargs);
      (r.Ok? <==> rest == map[])
      && (r.Ok? ==> r.value == conformed)
      && (r.Err? ==> exists keys :: Lists(keys, rest.Keys) && r.error == UnknownKeywordsError(keys))
  {
    var conformed: map<string, V> := map[];
    var rest := kwargs;
    for i := 0 to |mapping|
      invariant Remap(mapping[i..], conformed, rest) == Remap(mapping, map[], kwargs)
    {
      assert mapping[i..][1..] == mapping[i + 1..];
      var (attr, alias) := mapping[i];
      if attr in rest {
        conformed := conformed[attr := rest[attr]];
        rest := rest - {attr};
      }
      if alias in rest {
        conformed := conformed[attr := rest[alias]];
        rest := rest - {alias};
      }
    }
    assert mapping[|mapping|..] == [];
    if rest != map[] {
      var keys: seq<string> := [];
      var left := rest.Keys;
      while left != {}
        invariant left <= rest.Keys
        invariant forall i :: 0 <= i < |keys| ==> keys[i] in rest.Keys && keys[i] !in left
        invariant forall x :: x in rest.Keys ==> x in left || x in keys
        invariant forall i, j :: 0 <= i < j < |keys| ==> keys[i] != keys[j]
        decreases left
      {
        var k :| k in left;
        keys := keys + [k];
        left := left - {k};
      }
      return Err(UnknownKeywordsError(keys));
    }
    return Ok(conformed);
  }

  /** Nothing is left over but the keywords the mapping does not name. */
  lemma {:induction false} LeftoverIsUnnamed<V>(mapping: seq<(string, string)>, conformed: map<string, V>, rest: map<string, V>)
    ensures Remap(mapping, conformed, rest).1 == rest - Names(mapping)
    ensures Remap(mapping, conformed, rest).0.Keys <= conformed.Keys + set i | 0 <= i < |mapping| :: mapping[i].0
  {
    if |mapping| > 0 {
      var (c1, r1) := RemapStep(mapping[0].0, mapping[0].1, conformed, rest);
      LeftoverIsUnnamed(mapping[1..], c1, r1);
      assert Names(mapping) == {mapping[0].0, mapping[0].1} + Names(mapping[1..]) by {
        forall x | x in Names(mapping) ensures x in {mapping[0].0, mapping[0].1} + Names(mapping[1..]) {
          var i :| 0 <= i < |mapping| && (x == mapping[i].0 || x == mapping[i].1);
          if i > 0 {
            assert mapping[1..][i - 1] == mapping[i];
          }
        }
        forall x | x in Names(mapping[1..]) ensures x in Names(mapping) {
          var i :| 0 <= i < |mapping[1..]| && (x == mapping[1..][i].0 || x == mapping[1..][i].1);
          assert mapping[1..][i] == mapping[i + 1];
        }
      }
      assert Remap(mapping, conformed, rest).1 == rest - Names(mapping);
      forall x | x in Remap(mapping, conformed, rest).0.Keys
        ensures x in conformed.Keys + set i | 0 <= i < |mapping| :: mapping[i].0
      {
        if x !in c1.Keys {
          var i :| 0 <= i < |mapping[1..]| && mapping[1..][i].0 == x;
          assert mapping[i + 1].0 == x;
        } else if x !in conformed.Keys {
          assert x == mapping[0].0;
        }
      }
    }
  }

  /** A long name that no pair of `mapping` has keeps whatever the conformed keywords held for it. */
  lemma {:induction false} RemapLeavesOthers<V>(mapping: seq<(string, string)>, conformed: map<string, V>, rest: map<string, V>, a: string)
    requires forall i :: 0 <= i < |mapping| ==> mapping[i].0 != a
    ensures var c := Remap(mapping, conformed, rest).0; (a in c <==> a in conformed) && (a in c ==> c[a] == conformed[a])
  {
    if |mapping| > 0 {
      var (c1, r1) := RemapStep(mapping[0].0, mapping[0].1, conformed, rest);
      RemapLeavesOthers(mapping[1..], c1, r1, a);
    }
  }

  /**
   * With distinct names, the pair `(attr, alias)` ends up under `attr` with
   * the alias's value when the alias was passed (the alias wins), with the
   * long name's value when only it was passed, and absent otherwise.
   */
  lemma {:induction false} AliasWins<V>(mapping: seq<(string, string)>, conformed: map<string, V>, rest: map<string, V>, k: nat)
    requires DistinctNames(mapping) && k < |mapping|
    ensures var c := Remap(mapping, conformed, rest).0;
      var (attr, alias) := mapping[k];
      (alias in rest ==> attr in c && c[attr] == rest[alias])
      && (alias !in rest && attr in rest ==> attr in c && c[attr] == rest[attr])
      && (alias !in rest && attr !in rest ==> (attr in c <==> attr in conformed) && (attr in c ==> c[attr] == conformed[attr]))
  {
    var (c1, r1) := RemapStep(mapping[0].0, mapping[0].1, conformed, rest);
    assert DistinctNames(mapping[1..]);
    if k == 0 {
      RemapLeavesOthers(mapping[1..], c1, r1, mapping[0].0);
    } else {
      assert mapping[1..][k - 1] == mapping[k];
      AliasWins(mapping[1..], c1, r1, k - 1);
    }
  }
}
