/** JavaScript plain objects with string keys, as the core builds them with
    `Object.fromEntries` and property assignment: a map of entries plus the
    order in which keys were first inserted (the order `Object.entries` and
    `Object.values` report; integer-like keys, which JavaScript lists first,
    are not distinguished). */
module Objects {

  datatype Dict<V> = Dict(keys: seq<string>, entries: map<string, V>)

  predicate Distinct(xs: seq<string>) {
    forall i, j :: 0 <= i < j < |xs| ==> xs[i] != xs[j]
  }

  /** The key order lists every key exactly once. */
  ghost predicate WellFormed<V>(d: Dict<V>) {
    && Distinct(d.keys)
    && (forall k :: k in d.entries <==> k in d.keys)
  }

  function Empty<V>(): (d: Dict<V>)
    ensures WellFormed(d) && d.keys == []
  {
    Dict([], map[])
  }

  /** `obj[k] = v`: a new key goes to the end of the order, an existing key
      keeps its place and gets the new value. */
  function Put<V>(d: Dict<V>, k: string, v: V): (r: Dict<V>)
    ensures WellFormed(d) ==> WellFormed(r)
    ensures r.entries == d.entries[k := v]
    ensures r.keys == if k in d.entries then d.keys else d.keys + [k]
  {
    if k in d.entries then Dict(d.keys, d.entries[k := v]) else Dict(d.keys + [k], d.entries[k := v])
  }

  /** `Object.fromEntries(es)`: entries are assigned in order. */
  function FromEntries<V>(es: seq<(string, V)>): (r: Dict<V>)
    ensures WellFormed(r)
  {
    if es == [] then Empty() else Put(FromEntries(es[..|es| - 1]), es[|es| - 1].0, es[|es| - 1].1)
  }

  /** The object has exactly the keys that occur among the entries. */
  lemma FromEntriesKeys<V>(es: seq<(string, V)>)
    ensures forall k :: k in FromEntries(es).entries <==> exists i :: 0 <= i < |es| && es[i].0 == k
  {
    forall k ensures k in FromEntries(es).entries <==> exists i :: 0 <= i < |es| && es[i].0 == k {
      FromEntriesKey(es, k);
    }
  }

  /** One key: it is in the object exactly when some entry has it. */
  lemma FromEntriesKey<V>(es: seq<(string, V)>, k: string)
    ensures k in FromEntries(es).entries <==> exists i :: 0 <= i < |es| && es[i].0 == k
  {
    if k in FromEntries(es).entries {
      var i := KeySource(es, k);
    } else {
      forall i | 0 <= i < |es| ensures es[i].0 != k {
        EntryKeyKept(es, i);
      }
    }
  }

  /** The key of every entry is in the object. */
  lemma {:induction false} EntryKeyKept<V>(es: seq<(string, V)>, i: nat)
    requires i < |es|
    ensures es[i].0 in FromEntries(es).entries
  {
    var n := |es| - 1;
    if i < n {
      var prefix := es[..n];
      assert prefix[i] == es[i];
      EntryKeyKept(prefix, i);
    }
  }

  /** A key of the object is the key of some entry. */
  lemma {:induction false} KeySource<V>(es: seq<(string, V)>, k: string) returns (i: nat)
    requires k in FromEntries(es).entries
    ensures i < |es| && es[i].0 == k
  {
    var n := |es| - 1;
    if es[n].0 == k {
      i := n;
    } else {
      var prefix := es[..n];
      i := KeySource(prefix, k);
      assert prefix[i] == es[i];
    }
  }

  /** A key that occurs several times takes the value of its last occurrence. */
  lemma {:induction false} FromEntriesLastWins<V>(es: seq<(string, V)>, i: nat)
    requires i < |es|
    requires forall j :: i < j < |es| ==> es[j].0 != es[i].0
    ensures es[i].0 in FromEntries(es).entries && FromEntries(es).entries[es[i].0] == es[i].1
  {
    if i < |es| - 1 {
      var prefix := es[..|es| - 1];
      assert prefix[i] == es[i];
      FromEntriesLastWins(prefix, i);
    }
  }
}
