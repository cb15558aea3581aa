/** Collections of named records, seen as maps from name to contents. */
module Tables {
  import opened RuleMaps

  type Table<V> = map<nat, Binding<V>>

  ghost predicate Unique<V>(t: Table<V>)
  {
    forall u, w | u in t && w in t && u != w :: t[u].key != t[w].key
  }

  ghost predicate Carries<V>(t: Table<V>, u: nat, key: string)
  {
    u in t && t[u].key == key
  }

  /** The table by name; which of several records of one name is seen is unspecified. */
  ghost function ByKey<V>(t: Table<V>): (m: map<string, V>)
    ensures forall k :: k in m <==> exists u :: Carries(t, u, k)
    ensures forall k | k in m :: exists u :: Carries(t, u, k) && m[k] == t[u].value
  {
    var keys := set u | u in t :: t[u].key;
    assert forall k | k in keys :: exists u :: Carries(t, u, k) by {
      forall k | k in keys
        ensures exists u :: Carries(t, u, k)
      {
        var u :| u in t && t[u].key == k;
        assert Carries(t, u, k);
      }
    }
    assert forall u | u in t :: t[u].key in keys && Carries(t, u, t[u].key);
    map k | k in keys :: var u :| Carries(t, u, k); t[u].value
  }

  /** A map with every record's entry and no other name is the table by name. */
  lemma Determined<V>(t: Table<V>, m: map<string, V>)
    requires forall u | u in t :: t[u].key in m && m[t[u].key] == t[u].value
    requires forall k | k in m :: exists u :: Carries(t, u, k)
    ensures ByKey(t) == m
  {
    var b := ByKey(t);
    forall k | k in b
      ensures k in m && m[k] == b[k]
    {
      var u :| Carries(t, u, k) && b[k] == t[u].value;
    }
  }

  lemma Lookup<V>(t: Table<V>, u: nat)
    requires Unique(t) && u in t
    ensures t[u].key in ByKey(t) && ByKey(t)[t[u].key] == t[u].value
  {
    assert Carries(t, u, t[u].key);
    var w :| Carries(t, w, t[u].key) && ByKey(t)[t[u].key] == t[w].value;
  }

  /** A record added, or replaced under the same name. */
  lemma Written<V>(t: Table<V>, u: nat, b: Binding<V>)
    requires Unique(t)
    requires if u in t then t[u].key == b.key else b.key !in ByKey(t)
    ensures Unique(t[u := b]) && ByKey(t[u := b]) == ByKey(t)[b.key := b.value]
  {
    hide ByKey;
    var t', m' := t[u := b], ByKey(t)[b.key := b.value];
    forall w | w in t && w != u
      ensures t[w].key != b.key
    {
      Lookup(t, w);
    }
    forall w | w in t'
      ensures t'[w].key in m' && m'[t'[w].key] == t'[w].value
    {
      if w != u {
        Lookup(t, w);
      }
    }
    forall k | k in m'
      ensures exists w :: Carries(t', w, k)
    {
      if k == b.key {
        assert Carries(t', u, k);
      } else {
        KeysAreCarried(t, k);
        var w :| Carries(t, w, k);
        assert Carries(t', w, k);
      }
    }
    Determined(t', m');
  }

  lemma KeysAreCarried<V>(t: Table<V>, k: string)
    ensures k in ByKey(t) <==> exists u :: Carries(t, u, k)
  {
  }

  lemma Erased<V>(t: Table<V>, u: nat)
    requires Unique(t) && u in t
    ensures Unique(t - {u}) && ByKey(t - {u}) == ByKey(t) - {t[u].key}
  {
    hide ByKey;
    var t', m' := t - {u}, ByKey(t) - {t[u].key};
    forall w | w in t'
      ensures t'[w].key in m' && m'[t'[w].key] == t'[w].value
    {
      Lookup(t, w);
    }
    forall k | k in m'
      ensures exists w :: Carries(t', w, k)
    {
      KeysAreCarried(t, k);
      var w :| Carries(t, w, k);
      assert Carries(t', w, k);
    }
    Determined(t', m');
  }
}
