/** Python's insertion-ordered `dict` (and `OrderedDict`) as a key order plus a map. */
module OrderedDicts {
  import opened Seqs

  /** `keys` lists every key once, in insertion order; `vals` maps each key to its value. */
  datatype Dict<K, V> = Dict(keys: seq<K>, vals: map<K, V>)

  predicate Valid<K, V>(d: Dict<K, V>)
  {
    && Distinct(d.keys)
    && (forall k | k in d.keys :: k in d.vals)
    && (forall k | k in d.vals :: k in d.keys)
  }

  function Empty<K, V>(): (d: Dict<K, V>)
    ensures Valid(d) && d.keys == [] && d.vals == map[]
  {
    Dict([], map[])
  }

  /** `d[k] = v`: a key already present keeps its position, a new key goes last. */
  function Put<K, V>(d: Dict<K, V>, k: K, v: V): (r: Dict<K, V>)
    requires Valid(d)
    ensures Valid(r)
    ensures r.vals == d.vals[k := v]
    ensures k in d.vals ==> r.keys == d.keys
    ensures k !in d.vals ==> r.keys == d.keys + [k]
  {
    if k in d.vals then Dict(d.keys, d.vals[k := v])
    else Dict(d.keys + [k], d.vals[k := v])
  }

  /**
   * Storing under a key twice is storing the second value once: the entry keeps the position
   * of its first insertion.
   */
  lemma PutTwice<K, V>(d: Dict<K, V>, k: K, v1: V, v2: V)
    requires Valid(d)
    ensures Put(Put(d, k, v1), k, v2) == Put(d, k, v2)
    ensures k in d.vals ==> Put(Put(d, k, v1), k, v2).keys == d.keys
  {
    assert d.vals[k := v1][k := v2] == d.vals[k := v2];
  }

  /** `del d[k]`, or nothing when `k` is absent; the other keys keep their order. */
  function Remove<K, V>(d: Dict<K, V>, k: K): (r: Dict<K, V>)
    requires Valid(d)
    ensures Valid(r)
    ensures r.keys == Without(d.keys, k)
    ensures r.vals == d.vals - {k}
  {
    WithoutDistinct(d.keys, k);
    Dict(Without(d.keys, k), d.vals - {k})
  }

  /** `list(d.values())`. */
  function Values<K, V>(d: Dict<K, V>): (r: seq<V>)
    requires Valid(d)
    ensures |r| == |d.keys|
    ensures forall i | 0 <= i < |r| :: r[i] == d.vals[d.keys[i]]
  {
    seq(|d.keys|, i requires 0 <= i < |d.keys| => d.vals[d.keys[i]])
  }

  lemma {:induction false} WithoutDistinct<T>(s: seq<T>, x: T)
    requires Distinct(s)
    ensures Distinct(Without(s, x))
  {
    if s != [] {
      assert Distinct(s[1..]) by {
        forall i, j | 0 <= i < j < |s[1..]| ensures s[1..][i] != s[1..][j] {
          assert s[1..][i] == s[i + 1] && s[1..][j] == s[j + 1];
        }
      }
      WithoutDistinct(s[1..], x);
      var w := Without(s[1..], x);
      if s[0] != x {
        assert s[0] !in s[1..];
        assert s[0] !in w;
        assert Distinct([s[0]] + w) by {
          forall i, j | 0 <= i < j < |[s[0]] + w| ensures ([s[0]] + w)[i] != ([s[0]] + w)[j] {
            if i == 0 {
              assert ([s[0]] + w)[j] == w[j - 1];
            } else {
              assert ([s[0]] + w)[i] == w[i - 1] && ([s[0]] + w)[j] == w[j - 1];
            }
          }
        }
      }
    }
  }

  /** The keys of `keys` that are not in `drop`, in their order. */
  function KeepKeys<K(==)>(keys: seq<K>, drop: seq<K>): (r: seq<K>)
    ensures forall k | k in r :: k in keys && k !in drop
    ensures forall k | k in keys && k !in drop :: k in r
  {
    if keys == [] then []
    else if keys[0] in drop then KeepKeys(keys[1..], drop)
    else [keys[0]] + KeepKeys(keys[1..], drop)
  }

  /** Dropping no key keeps them all. */
  lemma {:induction false} KeepKeysNone<K>(keys: seq<K>)
    ensures KeepKeys(keys, []) == keys
  {
    if keys != [] {
      KeepKeysNone(keys[1..]);
    }
  }

  /** Dropping one more key is removing it from what was kept. */
  lemma {:induction false} KeepKeysSnoc<K>(keys: seq<K>, drop: seq<K>, k: K)
    ensures KeepKeys(keys, drop + [k]) == Without(KeepKeys(keys, drop), k)
  {
    if keys != [] {
      KeepKeysSnoc(keys[1..], drop, k);
      assert keys[0] in drop + [k] <==> keys[0] in drop || keys[0] == k;
    }
  }
}
