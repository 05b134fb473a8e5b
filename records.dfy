/**
 * A JavaScript object used as a string-keyed record: its own keys in insertion order,
 * each key once. Assigning to a present key keeps its position; assigning to a new key
 * appends it.
 */
module Records {
  import opened Wrappers
  import opened StringOrder

  /** The keys of a record, in order. */
  function KeysOf<V>(es: seq<(string, V)>): (ks: seq<string>)
    ensures |ks| == |es|
    ensures forall k :: 0 <= k < |es| ==> ks[k] == es[k].0
  {
    if es == [] then [] else [es[0].0] + KeysOf(es[1..])
  }

  /** A map of paths to file contents (`{ [path: string]: string }`). */
  type FileCollection = c: seq<(string, string)> | Distinct(KeysOf(c)) witness []

  /** `record[key]`: the value stored under `key`, if any. */
  function Get<V>(es: seq<(string, V)>, key: string): (r: Option<V>)
    ensures r.Some? ==> exists i :: 0 <= i < |es| && es[i] == (key, r.value)
    ensures r.None? ==> key !in KeysOf(es)
  {
    if es == [] then None
    else if es[0].0 == key then Some(es[0].1)
    else Get(es[1..], key)
  }

  /** In a record without repeated keys, a key finds the value stored with it. */
  lemma {:induction false} GetUnique<V>(es: seq<(string, V)>, i: nat)
    requires Distinct(KeysOf(es)) && i < |es|
    ensures Get(es, es[i].0) == Some(es[i].1)
  {
    if i > 0 {
      assert KeysOf(es)[0] != KeysOf(es)[i];
      assert Distinct(KeysOf(es[1..])) by {
        assert KeysOf(es[1..]) == KeysOf(es)[1..];
      }
      GetUnique(es[1..], i - 1);
    }
  }

  /** `record[key] = value`. */
  function Set<V>(es: seq<(string, V)>, key: string, value: V): (r: seq<(string, V)>)
    ensures Get(r, key) == Some(value)
    ensures forall other :: other != key ==> Get(r, other) == Get(es, other)
  {
    if es == [] then [(key, value)]
    else if es[0].0 == key then [(key, value)] + es[1..]
    else [es[0]] + Set(es[1..], key, value)
  }

  /** Assigning keeps a present key where it is and appends a new one at the end. */
  lemma {:induction false} SetKeys<V>(es: seq<(string, V)>, key: string, value: V)
    ensures KeysOf(Set(es, key, value)) ==
      if key in KeysOf(es) then KeysOf(es) else KeysOf(es) + [key]
  {
    var r := Set(es, key, value);
    if es != [] {
      var ks, tailKeys := KeysOf(es), KeysOf(es[1..]);
      assert ks == [es[0].0] + tailKeys;
      if es[0].0 == key {
        assert r[1..] == es[1..];
        assert KeysOf(r) == [key] + tailKeys;
      } else {
        var rest := Set(es[1..], key, value);
        SetKeys(es[1..], key, value);
        assert r[1..] == rest;
        assert KeysOf(r) == [es[0].0] + KeysOf(rest);
        assert key in ks <==> key in tailKeys;
        if key !in tailKeys {
          assert KeysOf(r) == [es[0].0] + (tailKeys + [key]) == ks + [key];
        }
      }
    }
  }

  /** Assigning changes no entry but the one for `key`. */
  lemma {:induction false} SetEntries<V>(es: seq<(string, V)>, key: string, value: V)
    ensures forall i :: 0 <= i < |Set(es, key, value)| ==>
      Set(es, key, value)[i] == (key, value) || Set(es, key, value)[i] in es
  {
    var r := Set(es, key, value);
    if es != [] && es[0].0 != key {
      var rest := Set(es[1..], key, value);
      SetEntries(es[1..], key, value);
      assert r == [es[0]] + rest;
      forall i | 1 <= i < |r|
        ensures r[i] == (key, value) || r[i] in es
      {
        assert r[i] == rest[i - 1];
        if rest[i - 1] in es[1..] {
          var j :| 0 <= j < |es[1..]| && es[1..][j] == rest[i - 1];
          assert es[j + 1] == r[i];
        }
      }
    } else if es != [] {
      forall i | 1 <= i < |r|
        ensures r[i] in es
      {
        assert r[i] == es[i];
      }
    }
  }

  /** Assigning keeps the keys free of repeats. */
  lemma SetDistinct<V>(es: seq<(string, V)>, key: string, value: V)
    requires Distinct(KeysOf(es))
    ensures Distinct(KeysOf(Set(es, key, value)))
  {
    SetKeys(es, key, value);
  }
}
