/** Python's insertion-ordered `dict` with string keys, as an association list:
    `t[k] = v` keeps the position of an existing key and appends a new one, and
    `del t[k]` removes the key and keeps the order of the rest. */
module Tables {
  import opened Wrappers

  type Table<V> = seq<(string, V)>

  /** The keys in insertion order (`list(t.keys())`). */
  function Keys<V>(t: Table<V>): (ks: seq<string>)
    ensures |ks| == |t|
    ensures forall j :: 0 <= j < |t| ==> ks[j] == t[j].0
  {
    if t == [] then [] else [t[0].0] + Keys(t[1..])
  }

  /** No key occurs twice, as in every Python dict. */
  predicate UniqueKeys<V>(t: Table<V>) {
    t == [] || (t[0].0 !in Keys(t[1..]) && UniqueKeys(t[1..]))
  }

  /** `t.get(k)`: the value stored under the first occurrence of `k`, if any. */
  function Find<V>(t: Table<V>, k: string): (r: Option<V>)
    ensures r.Some? <==> k in Keys(t)
  {
    if t == [] then None
    else if t[0].0 == k then Some(t[0].1)
    else Find(t[1..], k)
  }

  /** The value `Find` returns is the one stored in the first entry under `k`. */
  lemma {:induction false} FindFirst<V>(t: Table<V>, k: string)
    ensures Find(t, k).Some? ==> exists j :: 0 <= j < |t| && t[j].0 == k && t[j].1 == Find(t, k).value && forall m :: 0 <= m < j ==> t[m].0 != k
  {
    if t != [] && t[0].0 != k && Find(t, k).Some? {
      var u, v := t[1..], Find(t, k).value;
      assert Find(u, k) == Some(v);
      FindFirst(u, k);
      var j :| 0 <= j < |u| && u[j].0 == k && u[j].1 == v && forall m :: 0 <= m < j ==> u[m].0 != k;
      assert t[j + 1] == u[j];
      assert forall m :: 0 <= m < j + 1 ==> t[m].0 != k by {
        assert forall m :: 0 < m < j + 1 ==> t[m] == u[m - 1];
      }
    }
  }

  /** `t[k] = v`: replaces the value of `k` in place when `k` is present, appends
      `(k, v)` otherwise. */
  function Put<V>(t: Table<V>, k: string, v: V): (r: Table<V>)
    ensures k in Keys(t) ==> Keys(r) == Keys(t)
    ensures k !in Keys(t) ==> r == t + [(k, v)]
  {
    if t == [] then [(k, v)]
    else if t[0].0 == k then [(k, v)] + t[1..]
    else [t[0]] + Put(t[1..], k, v)
  }

  /** `del t[k]`: drops every entry stored under `k` (at most one when keys are unique). */
  function Remove<V>(t: Table<V>, k: string): (r: Table<V>)
    ensures forall k' :: k' in Keys(r) <==> k' in Keys(t) && k' != k
    ensures |r| <= |t|
    ensures forall k' :: k' != k ==> Find(r, k') == Find(t, k')
  {
    if t == [] then []
    else if t[0].0 == k then Remove(t[1..], k)
    else [t[0]] + Remove(t[1..], k)
  }

  /** With unique keys, `Put` keeps the keys unique. */
  lemma {:induction false} PutUnique<V>(t: Table<V>, k: string, v: V)
    requires UniqueKeys(t)
    ensures UniqueKeys(Put(t, k, v))
  {
    if t != [] && t[0].0 != k {
      PutUnique(t[1..], k, v);
      var r := Put(t, k, v);
      assert r[0] == t[0] && r[1..] == Put(t[1..], k, v);
      if k !in Keys(t[1..]) {
        assert Keys(r[1..]) == Keys(t[1..]) + [k];
      }
    }
  }

  /** After `t[k] = v`, looking up `k` finds `v` and every other key finds what it did. */
  lemma {:induction false} PutFind<V>(t: Table<V>, k: string, v: V, k': string)
    ensures Find(Put(t, k, v), k) == Some(v)
    ensures k' != k ==> Find(Put(t, k, v), k') == Find(t, k')
  {
    if t != [] && t[0].0 != k {
      PutFind(t[1..], k, v, k');
    }
  }

  /** `Put` leaves every entry under another key where it was. */
  lemma {:induction false} PutKeepsOthers<V>(t: Table<V>, k: string, v: V, j: nat)
    requires j < |t| && t[j].0 != k
    ensures j < |Put(t, k, v)| && Put(t, k, v)[j] == t[j]
  {
    if j > 0 && t[0].0 != k {
      PutKeepsOthers(t[1..], k, v, j - 1);
    }
  }

  /** Removing a key keeps the keys unique. */
  lemma {:induction false} RemoveUnique<V>(t: Table<V>, k: string)
    requires UniqueKeys(t)
    ensures UniqueKeys(Remove(t, k))
  {
    if t != [] {
      RemoveUnique(t[1..], k);
    }
  }

  /** Deleting a key that is not there changes nothing. */
  lemma {:induction false} RemoveAbsent<V>(t: Table<V>, k: string)
    requires k !in Keys(t)
    ensures Remove(t, k) == t
  {
    if t != [] {
      RemoveAbsent(t[1..], k);
    }
  }

  /** With unique keys, deleting the first key drops exactly the first entry. */
  lemma RemoveFirst<V>(t: Table<V>)
    requires UniqueKeys(t) && t != []
    ensures Remove(t, t[0].0) == t[1..]
  {
    RemoveAbsent(t[1..], t[0].0);
  }

  /** Deleting a key that none of `pre`'s entries has keeps `pre` in front. */
  lemma {:induction false} RemoveAfter<V>(pre: Table<V>, rest: Table<V>, k: string)
    requires k !in Keys(pre)
    ensures Remove(pre + rest, k) == pre + Remove(rest, k)
  {
    if pre != [] {
      assert Remove(pre + rest, k) == [pre[0]] + Remove(pre[1..] + rest, k) by {
        var t := pre + rest;
        assert Keys(pre)[0] == pre[0].0;
        assert t[0] == pre[0] && t[1..] == pre[1..] + rest;
      }
      RemoveAfter(pre[1..], rest, k);
      assert [pre[0]] + (pre[1..] + Remove(rest, k)) == pre + Remove(rest, k);
    } else {
      assert pre + rest == rest;
    }
  }

  /** With unique keys, the key of entry `j` occurs neither before nor after it. */
  lemma KeyOnlyAt<V>(t: Table<V>, j: nat)
    requires UniqueKeys(t) && j < |t|
    ensures t[j].0 !in Keys(t[..j]) && t[j].0 !in Keys(t[j + 1..])
  {
    assert t[j].0 !in Keys(t[j + 1..]) by {
      SuffixUnique(t, j + 1);
    }
    var ks := Keys(t[..j]);
    forall m | 0 <= m < j ensures ks[m] != t[j].0 {
      LaterKeysDiffer(t, m);
    }
  }

  /** With unique keys, deleting the key of entry `j` drops exactly that entry and
      keeps the others, values and order, where they were. */
  lemma RemoveAt<V>(t: Table<V>, j: nat)
    requires UniqueKeys(t) && j < |t|
    ensures Remove(t, t[j].0) == t[..j] + t[j + 1..]
  {
    var k, rest := t[j].0, t[j..];
    KeyOnlyAt(t, j);
    assert t == t[..j] + rest;
    RemoveAfter(t[..j], rest, k);
    assert rest[0].0 == k && rest[1..] == t[j + 1..];
    RemoveAbsent(t[j + 1..], k);
  }

  /** A suffix of a table with unique keys has unique keys and no key of the prefix. */
  lemma {:induction false} SuffixUnique<V>(t: Table<V>, i: nat)
    requires UniqueKeys(t) && i <= |t|
    ensures UniqueKeys(t[i..])
    ensures forall j :: 0 <= j < i ==> t[j].0 !in Keys(t[i..])
  {
    if i > 0 {
      SuffixUnique(t[1..], i - 1);
      assert t[1..][i - 1..] == t[i..];
      forall j | 0 <= j < i ensures t[j].0 !in Keys(t[i..]) {
        if j == 0 {
          assert forall x :: x in Keys(t[i..]) ==> x in Keys(t[1..]) by {
            forall x | x in Keys(t[i..]) ensures x in Keys(t[1..]) {
              var m :| 0 <= m < |t[i..]| && Keys(t[i..])[m] == x;
              assert Keys(t[1..])[m + i - 1] == x;
            }
          }
        } else {
          assert t[j].0 == t[1..][j - 1].0;
        }
      }
    }
  }

  /** In a table with unique keys, no later entry shares entry `i`'s key. */
  lemma LaterKeysDiffer<V>(t: Table<V>, i: nat)
    requires UniqueKeys(t) && i < |t|
    ensures forall j :: i < j < |t| ==> t[j].0 != t[i].0
  {
    SuffixUnique(t, i + 1);
    forall j | i < j < |t| ensures t[j].0 != t[i].0 {
      assert Keys(t[i + 1..])[j - i - 1] == t[j].0;
    }
  }

  /** In a table with unique keys, the key list has no repeats. */
  lemma KeysDistinct<V>(t: Table<V>)
    requires UniqueKeys(t)
    ensures forall a, b :: 0 <= a < b < |t| ==> Keys(t)[a] != Keys(t)[b]
  {
    forall a | 0 <= a < |t| ensures forall b :: a < b < |t| ==> t[b].0 != t[a].0 {
      LaterKeysDiffer(t, a);
    }
  }

  /** In a table with unique keys, entry `n`'s key is not among the first `n`, so
      putting entry `n` after them appends it. */
  lemma PutAfterPrefix<V>(t: Table<V>, n: nat)
    requires UniqueKeys(t) && n < |t|
    ensures Put(t[..n], t[n].0, t[n].1) == t[..n + 1]
  {
    SuffixUnique(t, n);
    assert Keys(t[n..])[0] == t[n].0;
    var ks := Keys(t[..n]);
    assert forall j :: 0 <= j < |ks| ==> ks[j] == t[j].0 != t[n].0;
    assert t[..n + 1] == t[..n] + [(t[n].0, t[n].1)];
  }

  /** `Put` stores `v` at the position where `k` was. */
  lemma {:induction false} PutAt<V>(t: Table<V>, k: string, v: V, j: nat)
    requires UniqueKeys(t) && j < |t| && t[j].0 == k
    ensures j < |Put(t, k, v)| && Put(t, k, v)[j] == (k, v)
  {
    if j > 0 {
      assert t[0].0 != k by {
        assert Keys(t[1..])[j - 1] == k;
      }
      PutAt(t[1..], k, v, j - 1);
    }
  }

  /** The set of keys. */
  function KeySet<V>(t: Table<V>): (ks: set<string>)
    ensures forall x :: x in ks <==> x in Keys(t)
  {
    set x | x in Keys(t)
  }
}
