/** JavaScript `Map` semantics: insertion-ordered key/value pairs where
    `set` on an existing key replaces its value in place. */
module OrderedMap {
  import opened Wrappers

  type Assoc<K, V> = seq<(K, V)>

  predicate HasKey<K(==,!new), V>(m: Assoc<K, V>, k: K) {
    exists i :: 0 <= i < |m| && m[i].0 == k
  }

  /** No key appears twice. */
  predicate DistinctKeys<K(==,!new), V>(m: Assoc<K, V>) {
    forall i, j :: 0 <= i < j < |m| ==> m[i].0 != m[j].0
  }

  /** `get`: the value of the first pair with key k. */
  function Get<K(==,!new), V>(m: Assoc<K, V>, k: K): (r: Option<V>)
  {
    if |m| == 0 then None
    else if m[0].0 == k then Some(m[0].1)
    else Get(m[1..], k)
  }

  /** `get` finds a value exactly when the key is present, and the value is
      the one stored with the key. */
  lemma {:induction false} GetSpec<K(!new), V>(m: Assoc<K, V>, k: K)
    ensures Get(m, k).None? <==> !HasKey(m, k)
    ensures Get(m, k).Some? ==> exists i :: 0 <= i < |m| && m[i] == (k, Get(m, k).value)
  {
    if |m| > 0 && m[0].0 != k {
      GetSpec(m[1..], k);
      assert HasKey(m, k) ==> HasKey(m[1..], k) by {
        if HasKey(m, k) {
          var i :| 0 <= i < |m| && m[i].0 == k;
          assert m[1..][i - 1].0 == k;
        }
      }
      if Get(m, k).Some? {
        var i :| 0 <= i < |m| - 1 && m[1..][i] == (k, Get(m, k).value);
        assert m[i + 1] == m[1..][i];
      }
    }
  }

  /** `set`: overwrite in place when present, otherwise append. */
  function Set<K(==,!new), V>(m: Assoc<K, V>, k: K, v: V): (r: Assoc<K, V>)
  {
    if |m| == 0 then [(k, v)]
    else if m[0].0 == k then [(k, v)] + m[1..]
    else [m[0]] + Set(m[1..], k, v)
  }

  /** `set` keeps every existing key in place and appends a new one at the end. */
  lemma {:induction false} SetShape<K(!new), V>(m: Assoc<K, V>, k: K, v: V)
    ensures HasKey(m, k) ==> |Set(m, k, v)| == |m|
    ensures !HasKey(m, k) ==> Set(m, k, v) == m + [(k, v)]
    ensures forall i :: 0 <= i < |m| ==> Set(m, k, v)[i].0 == m[i].0
  {
    if |m| > 0 && m[0].0 != k {
      SetShape(m[1..], k, v);
      assert HasKey(m, k) ==> HasKey(m[1..], k) by {
        if HasKey(m, k) {
          var i :| 0 <= i < |m| && m[i].0 == k;
          assert m[1..][i - 1].0 == k;
        }
      }
      assert HasKey(m[1..], k) ==> HasKey(m, k) by {
        if HasKey(m[1..], k) {
          var i :| 0 <= i < |m| - 1 && m[1..][i].0 == k;
          assert m[i + 1].0 == k;
        }
      }
      var r := Set(m, k, v);
      forall i | 0 <= i < |m| ensures r[i].0 == m[i].0 {
        if i > 0 { assert r[i] == Set(m[1..], k, v)[i - 1]; }
      }
    }
  }

  /** `delete`: drop the pair with key k (every one, of which there is at most one). */
  function Delete<K(==,!new), V>(m: Assoc<K, V>, k: K): (r: Assoc<K, V>)
    ensures !HasKey(r, k)
    ensures |r| <= |m|
    ensures forall j :: HasKey(r, j) <==> HasKey(m, j) && j != k
  {
    if |m| == 0 then []
    else
      var rest := Delete(m[1..], k);
      assert forall j :: HasKey(m, j) <==> m[0].0 == j || HasKey(m[1..], j) by {
        forall j ensures HasKey(m, j) <==> m[0].0 == j || HasKey(m[1..], j) {
          if HasKey(m, j) && m[0].0 != j {
            var i :| 0 <= i < |m| && m[i].0 == j;
            assert m[1..][i - 1].0 == j;
          }
          if HasKey(m[1..], j) {
            var i :| 0 <= i < |m| - 1 && m[1..][i].0 == j;
            assert m[i + 1].0 == j;
          }
        }
      }
      if m[0].0 == k then rest
      else
        var r := [m[0]] + rest;
        assert forall j :: HasKey(r, j) <==> r[0].0 == j || HasKey(rest, j) by {
          forall j ensures HasKey(r, j) <==> r[0].0 == j || HasKey(rest, j) {
            if HasKey(r, j) && r[0].0 != j {
              var i :| 0 <= i < |r| && r[i].0 == j;
              assert rest[i - 1].0 == j;
            }
            if HasKey(rest, j) {
              var i :| 0 <= i < |rest| && rest[i].0 == j;
              assert r[i + 1].0 == j;
            }
          }
        }
        r
  }

  /** After `set`, the key reads back the new value. */
  lemma {:induction false} GetSetSame<K(!new), V>(m: Assoc<K, V>, k: K, v: V)
    ensures Get(Set(m, k, v), k) == Some(v)
  {
    if |m| > 0 && m[0].0 != k {
      GetSetSame(m[1..], k, v);
    }
  }

  /** `set` on one key leaves every other key's value alone. */
  lemma {:induction false} GetSetOther<K(!new), V>(m: Assoc<K, V>, k: K, v: V, j: K)
    requires j != k
    ensures Get(Set(m, k, v), j) == Get(m, j)
  {
    if |m| > 0 && m[0].0 != k {
      GetSetOther(m[1..], k, v, j);
    }
  }

  /** With distinct keys, `get` on the i-th key returns the i-th value. */
  lemma {:induction false} GetAt<K(!new), V>(m: Assoc<K, V>, i: nat)
    requires DistinctKeys(m) && i < |m|
    ensures Get(m, m[i].0) == Some(m[i].1)
  {
    if i > 0 {
      assert m[0].0 != m[i].0;
      assert DistinctKeys(m[1..]) by {
        forall a, b | 0 <= a < b < |m| - 1 ensures m[1..][a].0 != m[1..][b].0 {
          assert m[1..][a] == m[a + 1] && m[1..][b] == m[b + 1];
        }
      }
      GetAt(m[1..], i - 1);
      assert m[1..][i - 1] == m[i];
    }
  }

  /** `set` on k leaves every other key's value alone (all keys at once). */
  lemma SetFrame<K(!new), V>(m: Assoc<K, V>, k: K, v: V)
    ensures Get(Set(m, k, v), k) == Some(v)
    ensures forall j :: j != k ==> Get(Set(m, k, v), j) == Get(m, j)
  {
    GetSetSame(m, k, v);
    forall j | j != k ensures Get(Set(m, k, v), j) == Get(m, j) {
      GetSetOther(m, k, v, j);
    }
  }

  /** `set` keeps keys distinct. */
  lemma {:induction false} SetDistinct<K(!new), V>(m: Assoc<K, V>, k: K, v: V)
    requires DistinctKeys(m)
    ensures DistinctKeys(Set(m, k, v))
  {
    if |m| > 0 && m[0].0 != k {
      SetDistinct(m[1..], k, v);
      SetShape(m[1..], k, v);
      SetShape(m, k, v);
      var r := Set(m, k, v);
      var rest := Set(m[1..], k, v);
      forall i, j | 0 <= i < j < |r| ensures r[i].0 != r[j].0 {
        if i == 0 {
          if j - 1 < |m| - 1 {
            assert rest[j - 1].0 == m[1..][j - 1].0;
          } else {
            assert !HasKey(m[1..], k);
            assert r[j].0 == k;
          }
        }
      }
    }
  }

  /** The keys of an assoc list, in order. */
  function Keys<K(==,!new), V>(m: Assoc<K, V>): (ks: seq<K>)
    ensures |ks| == |m| && forall i :: 0 <= i < |m| ==> ks[i] == m[i].0
  {
    seq(|m|, i requires 0 <= i < |m| => m[i].0)
  }
}
