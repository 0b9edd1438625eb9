/**
 `LocUnorderedSetMap` (gps/utils/LocUnorderedSetMap.h): a map from keys to sets of values.

 `update` is documented to answer the values it removed; the code answers those it kept.  The model follows the
 code.  The order in which an unordered set is visited is left open.
 */
module SetMap {
  function Get<K, V>(m: map<K, set<V>>, k: K): set<V> {
    if k in m then m[k] else {}
  }

  /** The map without `vals` under `keys`, and without the entries this empties. */
  function Trimmed<K, V>(m: map<K, set<V>>, keys: set<K>, vals: set<V>): map<K, set<V>> {
    map k | k in m && !(k in keys && m[k] <= vals) :: if k in keys then m[k] - vals else m[k]
  }

  function GoneKeys<K, V>(m: map<K, set<V>>, keys: set<K>, vals: set<V>): set<K> {
    set k | k in keys && k in m && m[k] <= vals
  }

  function GoneVals<K, V>(m: map<K, set<V>>, keys: set<K>, vals: set<V>): set<V> {
    set v | v in vals && exists k :: k in keys && v in Get(m, k)
  }

  /** The map with `vals` added under each of `keys`. */
  function Added<K, V>(m: map<K, set<V>>, keys: set<K>, vals: set<V>): map<K, set<V>> {
    if vals == {} then m else map k | k in m.Keys + keys :: if k in keys then Get(m, k) + vals else m[k]
  }

  function NewKeys<K, V>(m: map<K, set<V>>, keys: set<K>, vals: set<V>): set<K> {
    if vals == {} then {} else keys - m.Keys
  }

  function Replaced<K, V>(m: map<K, set<V>>, k: K, vals: set<V>): map<K, set<V>> {
    if vals == {} then m - {k} else m[k := vals]
  }

  /** No entry is an empty set. */
  ghost predicate NoEmptyEntry<K, V>(m: map<K, set<V>>) {
    forall k :: k in m ==> m[k] != {}
  }

  // ---------------------------------------------------------------- what becomes of one value under one key

  lemma TrimmedIsExact<K, V>(m: map<K, set<V>>, keys: set<K>, vals: set<V>, k: K, v: V)
    ensures v in Get(Trimmed(m, keys, vals), k) <==> v in Get(m, k) && !(k in keys && v in vals)
    ensures k in GoneKeys(m, keys, vals) <==> k in m && k in keys && forall x :: x in m[k] ==> x in vals
    ensures k in Trimmed(m, keys, vals) <==> k in m && k !in GoneKeys(m, keys, vals)
    ensures v in GoneVals(m, keys, vals) <==> v in vals && exists x :: x in keys && v in Get(m, x)
  {}

  /** Adding no values adds nothing, not even keys. */
  lemma AddedIsExact<K, V>(m: map<K, set<V>>, keys: set<K>, vals: set<V>, k: K, v: V)
    ensures v in Get(Added(m, keys, vals), k) <==> v in Get(m, k) || (k in keys && v in vals)
    ensures k in NewKeys(m, keys, vals) <==> k in keys && k !in m && vals != {}
    ensures k in Added(m, keys, vals) <==> k in m || k in NewKeys(m, keys, vals)
  {}

  /** Putting no values drops the entry. */
  lemma ReplacedIsExact<K, V>(m: map<K, set<V>>, k: K, vals: set<V>, x: K, v: V)
    ensures v in Get(Replaced(m, k, vals), x) <==> if x == k then v in vals else v in Get(m, x)
    ensures x in Replaced(m, k, vals) <==> if x == k then vals != {} else x in m
  {}

  class LocUnorderedSetMap<K(==), V(==)> {
    var m: map<K, set<V>>

    constructor ()
      ensures m == map[]
    {
      m := map[];
    }

    /** `trimSet`: take `rVals` out of a set, collecting those that were in it. */
    static method TrimSet(fromSet: set<V>, rVals: set<V>) returns (left: set<V>, gone: set<V>)
      ensures left == fromSet - rVals && gone == fromSet * rVals
    {
      left, gone := fromSet, {};
      var todo := rVals;
      while todo != {}
        invariant todo <= rVals
        invariant left == fromSet - (rVals - todo) && gone == fromSet * (rVals - todo)
        decreases todo
      {
        var val :| val in todo;
        if val in left {
          left, gone := left - {val}, gone + {val};
        }
        todo := todo - {val};
      }
    }

    /** `removeAndReturnInterset`: take the common values out of both sets and answer them. */
    static method RemoveAndReturnIntersect(s1: set<V>, s2: set<V>)
      returns (common: set<V>, rest1: set<V>, rest2: set<V>)
      ensures common == s1 * s2 && rest1 == s1 - s2 && rest2 == s2 - s1
    {
      common, rest1, rest2 := {}, s1, s2;
      var todo := s2;
      while todo != {}
        invariant todo <= s2
        invariant common == s1 * (s2 - todo) && rest1 == s1 - (s2 - todo) && rest2 == s2 - s1 * (s2 - todo)
        decreases todo
      {
        var b :| b in todo;
        if b in rest1 {
          common, rest1, rest2 := common + {b}, rest1 - {b}, rest2 - {b};
        }
        todo := todo - {b};
      }
    }

    method TrimOrRemove(keys: set<K>, rVals: set<V>) returns (goneKeys: set<K>, goneVals: set<V>)
      modifies this
      ensures m == Trimmed(old(m), keys, rVals)
      ensures goneKeys == GoneKeys(old(m), keys, rVals) && goneVals == GoneVals(old(m), keys, rVals)
    {
      goneKeys, goneVals := {}, {};
      var todo := keys;
      while todo != {}
        invariant todo <= keys
        invariant m == Trimmed(old(m), keys - todo, rVals)
        invariant goneKeys == GoneKeys(old(m), keys - todo, rVals)
        invariant goneVals == GoneVals(old(m), keys - todo, rVals)
        decreases todo
      {
        var key :| key in todo;
        TrimOneMore(old(m), keys - todo, key, rVals);
        assert keys - (todo - {key}) == keys - todo + {key};
        if key in m {
          ghost var before := m;
          var left, gone := TrimSet(m[key], rVals);
          assert forall v :: v in m[key] && v !in rVals ==> v in left;
          goneVals := goneVals + gone;
          m := m[key := left];
          if left == {} {
            m := m - {key};
            assert m == before - {key};
            goneKeys := goneKeys + {key};
          }
        }
        todo := todo - {key};
      }
      assert keys - todo == keys;
    }

    /** `add` for one key; answers whether the entry is new. */
    method AddOne(key: K, newVals: set<V>) returns (newEntryAdded: bool)
      modifies this
      ensures m == Added(old(m), {key}, newVals)
      ensures newEntryAdded <==> key in NewKeys(old(m), {key}, newVals)
    {
      newEntryAdded := false;
      if newVals != {} {
        if key in m {
          m := m[key := m[key] + newVals];
        } else {
          m := m[key := newVals];
          newEntryAdded := true;
        }
        AddedToOne(old(m), key, newVals);
      }
    }

    method Add(keys: set<K>, newVals: set<V>) returns (newKeys: set<K>)
      modifies this
      ensures m == Added(old(m), keys, newVals) && newKeys == NewKeys(old(m), keys, newVals)
    {
      newKeys := {};
      var todo := keys;
      while todo != {}
        invariant todo <= keys
        invariant m == Added(old(m), keys - todo, newVals)
        invariant newKeys == NewKeys(old(m), keys - todo, newVals)
        decreases todo
      {
        var key :| key in todo;
        assert keys - (todo - {key}) == keys - todo + {key};
        var added := AddOne(key, newVals);
        if added {
          newKeys := newKeys + {key};
        }
        todo := todo - {key};
      }
      assert keys - todo == keys;
    }

    method Remove(key: K) returns (removed: bool)
      modifies this
      ensures m == old(m) - {key} && (removed <==> key in old(m))
    {
      removed := key in m;
      m := m - {key};
    }

    /** `update`: put `newVals` under `key`.  Answers the values the entry had and keeps, and the values that are
        new to it. */
    method Update(key: K, newVals: set<V>) returns (goneVals: set<V>, leftNew: set<V>)
      modifies this
      ensures m == Replaced(old(m), key, newVals)
      ensures goneVals == Get(old(m), key) * newVals && leftNew == newVals - Get(old(m), key)
    {
      goneVals, leftNew := {}, newVals;
      if newVals == {} {
        m := m - {key};
      } else {
        var curVals := Get(m, key);
        m := m[key := newVals];
        goneVals, curVals, leftNew := RemoveAndReturnIntersect(curVals, newVals);
      }
    }
  }

  lemma TrimOneMore<K, V>(m: map<K, set<V>>, keys: set<K>, key: K, vals: set<V>)
    requires key !in keys
    ensures key in Trimmed(m, keys, vals) <==> key in m
    ensures key in m ==> Trimmed(m, keys, vals)[key] == m[key]
    ensures Trimmed(m, keys + {key}, vals) ==
            if key !in m then Trimmed(m, keys, vals)
            else if m[key] <= vals then Trimmed(m, keys, vals) - {key}
            else Trimmed(m, keys, vals)[key := m[key] - vals]
    ensures GoneKeys(m, keys + {key}, vals) ==
            GoneKeys(m, keys, vals) + if key in m && m[key] <= vals then {key} else {}
    ensures GoneVals(m, keys + {key}, vals) == GoneVals(m, keys, vals) + Get(m, key) * vals
  {}

  lemma AddedToOne<K, V>(m: map<K, set<V>>, key: K, vals: set<V>)
    requires vals != {}
    ensures Added(m, {key}, vals) == m[key := Get(m, key) + vals]
    ensures key !in m ==> Get(m, key) + vals == vals
  {}

}
