/**
 * Python sets of objects that hash and compare by a key. Ports and
 * connections hash and compare by a dag-path string that changes when a node
 * is re-parented, while a Python set keeps each element in the slot of the
 * hash it had when it was added. A lookup of `x` by hash and equality
 * therefore finds an element only when that element was stored under the key
 * `x` has now AND its own key now equals that key: an element whose key
 * changed since it was added is not found through its hash. (CPython also
 * accepts a probed slot that holds the very object looked up, which can still
 * reach a moved element's old slot; that shortcut is not modelled.) Two maps
 * give, for every element involved, the key it was `stored` under and the
 * `key` it has in the state of the call.
 */
module PySets {
  import opened Errors

  /**
   * `y` answers a lookup of `x`: it sits in the slot for the hash of `x` and
   * compares equal to `x`.
   */
  predicate Answers<T>(y: T, x: T, stored: map<T, string>, key: map<T, string>)
    requires y in stored && y in key && x in key
  {
    stored[y] == key[x] && key[y] == key[x]
  }

  /** `x in s`: some element of `s` answers a lookup of `x`. */
  predicate Finds<T(==)>(s: set<T>, x: T, stored: map<T, string>, key: map<T, string>)
    requires s <= stored.Keys && s + {x} <= key.Keys
  {
    exists y :: y in s && Answers(y, x, stored, key)
  }

  /** No element's key changed since it was added. */
  predicate InStep<T(==)>(s: set<T>, stored: map<T, string>, key: map<T, string>)
    requires s <= stored.Keys && s <= key.Keys
  {
    forall y :: y in s ==> stored[y] == key[y]
  }

  /** No two elements of `s` share a key. */
  predicate UniqueKeys<T(==)>(s: set<T>, key: map<T, string>)
    requires s <= key.Keys
  {
    forall a, b :: a in s && b in s && key[a] == key[b] ==> a == b
  }

  /**
   * `s.add(x)`: unchanged when a lookup of `x` finds an element, otherwise
   * `x` joins, stored under the key it has now.
   */
  function Add<T(==)>(s: set<T>, x: T, stored: map<T, string>, key: map<T, string>): (r: set<T>)
    requires s + {x} <= stored.Keys && s + {x} <= key.Keys && stored[x] == key[x]
    ensures s <= r <= s + {x}
    ensures r == s <==> Finds(s, x, stored, key)
    ensures Finds(r, x, stored, key)
  {
    if Finds(s, x, stored, key) then s else s + {x}
  }

  /**
   * `r` is `s` less one element that answers a lookup of `x`. Which one, when
   * several do, depends on the probing order of the hash table, so the
   * model leaves it open.
   */
  ghost predicate TakesOut<T>(s: set<T>, x: T, stored: map<T, string>, key: map<T, string>, r: set<T>)
    requires s <= stored.Keys && s + {x} <= key.Keys
  {
    exists y :: y in s && Answers(y, x, stored, key) && r == s - {y}
  }

  /**
   * `s.discard(x)`: the element a lookup of `x` finds leaves; nothing
   * happens when there is none.
   */
  method Discard<T(==)>(s: set<T>, x: T, stored: map<T, string>, key: map<T, string>) returns (r: set<T>)
    requires s <= stored.Keys && s + {x} <= key.Keys
    ensures !Finds(s, x, stored, key) ==> r == s
    ensures Finds(s, x, stored, key) ==> TakesOut(s, x, stored, key, r)
  {
    r := s;
    if Finds(s, x, stored, key) {
      var y :| y in s && Answers(y, x, stored, key);
      r := s - {y};
    }
  }

  /**
   * `s.remove(x)`: the element a lookup of `x` finds leaves; `KeyError`
   * (whose text is the element's repr) when there is none.
   */
  method Remove<T(==)>(s: set<T>, x: T, stored: map<T, string>, key: map<T, string>, repr: string) returns (r: Result<set<T>>)
    requires s <= stored.Keys && s + {x} <= key.Keys
    ensures r.Err? <==> !Finds(s, x, stored, key)
    ensures r.Err? ==> r.error == KeyError(repr)
    ensures r.Ok? ==> TakesOut(s, x, stored, key, r.value)
  {
    if Finds(s, x, stored, key) {
      var y :| y in s && Answers(y, x, stored, key);
      r := Ok(s - {y});
    } else {
      r := Err(KeyError(repr));
    }
  }

  /** Adding to a set that is in step and has unique keys keeps both. */
  lemma AddKeepsUnique<T>(s: set<T>, x: T, stored: map<T, string>, key: map<T, string>)
    requires s + {x} <= stored.Keys && s + {x} <= key.Keys && stored[x] == key[x]
    requires InStep(s, stored, key) && UniqueKeys(s, key)
    ensures var r := Add(s, x, stored, key); InStep(r, stored, key) && UniqueKeys(r, key)
  {
    if !Finds(s, x, stored, key) {
      forall y | y in s
        ensures key[y] != key[x]
      {
        assert !Answers(y, x, stored, key);
      }
    }
  }

  /** A subset of a set with unique keys has unique keys, under any key map that agrees on it. */
  lemma UniqueKeysShrink<T>(s: set<T>, t: set<T>, k1: map<T, string>, k2: map<T, string>)
    requires s <= t && t <= k1.Keys && s <= k2.Keys && UniqueKeys(t, k1)
    requires forall x :: x in s ==> k2[x] == k1[x]
    ensures UniqueKeys(s, k2)
  {
  }

  /** Adding twice is adding once. */
  lemma AddIdempotent<T>(s: set<T>, x: T, stored: map<T, string>, key: map<T, string>)
    requires s + {x} <= stored.Keys && s + {x} <= key.Keys && stored[x] == key[x]
    ensures Add(Add(s, x, stored, key), x, stored, key) == Add(s, x, stored, key)
  {
  }

  /** In a set that is in step and has unique keys, the element a lookup of a member finds is that member. */
  lemma TakesOutMember<T>(s: set<T>, x: T, stored: map<T, string>, key: map<T, string>, r: set<T>)
    requires s <= stored.Keys && s <= key.Keys && x in s && InStep(s, stored, key) && UniqueKeys(s, key)
    ensures Finds(s, x, stored, key)
    ensures TakesOut(s, x, stored, key, r) <==> r == s - {x}
  {
    assert Answers(x, x, stored, key);
  }

  /**
   * Taking out again what was just added, when nothing answered for it
   * before, gives the set back.
   */
  lemma TakesOutWhatWasAdded<T>(s: set<T>, x: T, stored: map<T, string>, key: map<T, string>, r: set<T>)
    requires s + {x} <= stored.Keys && s + {x} <= key.Keys && stored[x] == key[x]
    requires !Finds(s, x, stored, key)
    ensures TakesOut(Add(s, x, stored, key), x, stored, key, r) <==> r == s
  {
    var t := Add(s, x, stored, key);
    assert Answers(x, x, stored, key);
    assert t - {x} == s;
    if TakesOut(t, x, stored, key, r) {
      var y :| y in t && Answers(y, x, stored, key) && r == t - {y};
      assert y == x;
    }
  }

  /**
   * A member whose key changed since it was added, and that no other member
   * answers for, is not found through its hash: `remove` raises `KeyError`
   * and `discard` does nothing although the object is in the set.
   */
  lemma StaleMemberMissed<T>(s: set<T>, x: T, stored: map<T, string>, key: map<T, string>)
    requires s <= stored.Keys && s <= key.Keys && x in s && stored[x] != key[x]
    requires forall y :: y in s && y != x ==> !Answers(y, x, stored, key)
    ensures !Finds(s, x, stored, key)
  {
  }

  /** After taking an element out of a set with unique keys, a lookup of it finds nothing. */
  lemma TakesOutLeavesNone<T>(s: set<T>, x: T, stored: map<T, string>, key: map<T, string>, r: set<T>)
    requires s <= stored.Keys && s + {x} <= key.Keys && UniqueKeys(s, key)
    requires TakesOut(s, x, stored, key, r)
    ensures !Finds(r, x, stored, key)
  {
  }
}
