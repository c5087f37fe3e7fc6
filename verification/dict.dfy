/** A JavaScript object used as a dictionary keyed by chain tag: its
    entries in insertion order, which is the order `for (const k in obj)`
    visits them. Assigning to a present key keeps its position; assigning
    to a new key appends it. */
module Dict {
  import opened Wrappers

  type Entries<V> = seq<(string, V)>

  function Keys<V>(d: Entries<V>): (ks: seq<string>)
    ensures |ks| == |d| && forall i :: 0 <= i < |d| ==> ks[i] == d[i].0
    decreases |d|
  {
    if d == [] then [] else [d[0].0] + Keys(d[1..])
  }

  predicate DistinctKeys<V>(d: Entries<V>) {
    forall i, j :: 0 <= i < j < |d| ==> d[i].0 != d[j].0
  }

  /** `obj[k]`, with `None` for `undefined`. */
  function Get<V>(d: Entries<V>, k: string): Option<V>
    decreases |d|
  {
    if d == [] then None
    else if d[0].0 == k then Some(d[0].1)
    else Get(d[1..], k)
  }

  /** `obj[k]` is defined exactly for the keys the object holds. */
  lemma {:induction false} GetDefined<V>(d: Entries<V>, k: string)
    ensures Get(d, k).Some? <==> k in Keys(d)
    decreases |d|
  {
    if d != [] {
      GetDefined(d[1..], k);
      assert Keys(d) == [d[0].0] + Keys(d[1..]);
    }
  }

  /** `obj[k] = v`. */
  function Put<V>(d: Entries<V>, k: string, v: V): Entries<V>
    decreases |d|
  {
    if d == [] then [(k, v)]
    else if d[0].0 == k then [(k, v)] + d[1..]
    else [d[0]] + Put(d[1..], k, v)
  }

  /** After `obj[k] = v`, `obj[k]` is `v`, every other key reads as before,
      a present key keeps its position and a new key goes last. */
  lemma PutSpec<V>(d: Entries<V>, k: string, v: V)
    ensures Get(Put(d, k, v), k) == Some(v)
    ensures forall k' :: k' != k ==> Get(Put(d, k, v), k') == Get(d, k')
    ensures Keys(Put(d, k, v)) == if k in Keys(d) then Keys(d) else Keys(d) + [k]
    ensures DistinctKeys(d) ==> DistinctKeys(Put(d, k, v))
  {
    PutGet(d, k, v);
    PutKeys(d, k, v);
    PutDistinct(d, k, v);
  }

  lemma {:induction false} PutGet<V>(d: Entries<V>, k: string, v: V)
    ensures Get(Put(d, k, v), k) == Some(v)
    ensures forall k' :: k' != k ==> Get(Put(d, k, v), k') == Get(d, k')
    decreases |d|
  {
    if d != [] && d[0].0 != k {
      PutGet(d[1..], k, v);
      assert Put(d, k, v)[1..] == Put(d[1..], k, v);
    }
  }

  lemma {:induction false} PutKeys<V>(d: Entries<V>, k: string, v: V)
    ensures Keys(Put(d, k, v)) == if k in Keys(d) then Keys(d) else Keys(d) + [k]
    decreases |d|
  {
    var r := Put(d, k, v);
    if d == [] {
    } else if d[0].0 == k {
      assert r[1..] == d[1..];
      assert Keys(r) == [k] + Keys(d[1..]);
    } else {
      PutKeys(d[1..], k, v);
      var tail := Put(d[1..], k, v);
      assert r[1..] == tail;
      assert Keys(d) == [d[0].0] + Keys(d[1..]);
      assert Keys(r) == [d[0].0] + Keys(tail);
    }
  }

  lemma PutDistinct<V>(d: Entries<V>, k: string, v: V)
    ensures DistinctKeys(d) ==> DistinctKeys(Put(d, k, v))
  {
    var r := Put(d, k, v);
    PutKeys(d, k, v);
    if DistinctKeys(d) {
      var ks, rs := Keys(d), Keys(r);
      forall i, j | 0 <= i < j < |r|
        ensures r[i].0 != r[j].0
      {
        assert r[i].0 == rs[i] && r[j].0 == rs[j];
        if j < |d| {
          assert rs[i] == d[i].0 && rs[j] == d[j].0;
        } else {
          assert rs[j] == k && rs[i] == d[i].0;
        }
      }
    }
  }

  /** `(obj[k] = obj[k] || []).push(x)`: append `x` to the list at `k`,
      creating the list when `k` is absent. */
  function Push<T>(d: Entries<seq<T>>, k: string, x: T): Entries<seq<T>> {
    Put(d, k, Get(d, k).GetOr([]) + [x])
  }

  /** The dictionary built by pushing every `(key, value)` pair in order. */
  function Collect<T>(pairs: seq<(string, T)>): Entries<seq<T>>
    decreases |pairs|
  {
    if pairs == [] then []
    else
      var last := pairs[|pairs| - 1];
      Push(Collect(pairs[..|pairs| - 1]), last.0, last.1)
  }

  /** The values paired with `k`, in order. */
  function Select<T>(pairs: seq<(string, T)>, k: string): seq<T>
    decreases |pairs|
  {
    if pairs == [] then []
    else
      var last := pairs[|pairs| - 1];
      Select(pairs[..|pairs| - 1], k) + (if last.0 == k then [last.1] else [])
  }

  /** Grouping by key: each key holds exactly its values in their original
      order, and a key is present only if it has at least one value. */
  lemma {:induction false} CollectGet<T>(pairs: seq<(string, T)>, k: string)
    ensures Get(Collect(pairs), k) == if Select(pairs, k) == [] then None else Some(Select(pairs, k))
    decreases |pairs|
  {
    if pairs != [] {
      var prefix := pairs[..|pairs| - 1];
      var last := pairs[|pairs| - 1];
      CollectGet(prefix, k);
      var before := Collect(prefix);
      assert Collect(pairs) == Push(before, last.0, last.1);
      PutSpec(before, last.0, Get(before, last.0).GetOr([]) + [last.1]);
      if last.0 == k {
        assert Get(Collect(pairs), k) == Some(Get(before, k).GetOr([]) + [last.1]);
        assert Select(pairs, k) == Select(prefix, k) + [last.1];
      } else {
        assert Get(Collect(pairs), k) == Get(before, k);
        assert Select(pairs, k) == Select(prefix, k);
      }
    }
  }

  lemma {:induction false} CollectDistinct<T>(pairs: seq<(string, T)>)
    ensures DistinctKeys(Collect(pairs))
    decreases |pairs|
  {
    if pairs != [] {
      var before := Collect(pairs[..|pairs| - 1]);
      var last := pairs[|pairs| - 1];
      CollectDistinct(pairs[..|pairs| - 1]);
      PutSpec(before, last.0, Get(before, last.0).GetOr([]) + [last.1]);
    }
  }

  /** A key that is not the first key is not among the keys of the rest
      either, if it is not a key at all. */
  lemma KeysRest<V>(d: Entries<V>, k: string)
    requires d != [] && k !in Keys(d)
    ensures d[0].0 != k && k !in Keys(d[1..])
  {
    assert Keys(d) == [d[0].0] + Keys(d[1..]);
  }

  lemma {:induction false} PutNew<V>(d: Entries<V>, k: string, v: V)
    requires k !in Keys(d)
    ensures Put(d, k, v) == d + [(k, v)]
    decreases |d|
  {
    if d != [] {
      KeysRest(d, k);
      PutNew(d[1..], k, v);
      assert d + [(k, v)] == [d[0]] + (d[1..] + [(k, v)]);
    }
  }

  lemma {:induction false} GetLast<V>(e: Entries<V>, k: string, v0: V)
    requires k !in Keys(e)
    ensures Get(e + [(k, v0)], k) == Some(v0)
    decreases |e|
  {
    if e != [] {
      KeysRest(e, k);
      assert e + [(k, v0)] == [e[0]] + (e[1..] + [(k, v0)]);
      GetLast(e[1..], k, v0);
    }
  }

  lemma PutPast<V>(x: (string, V), d: Entries<V>, k: string, v: V)
    requires x.0 != k
    ensures Put([x] + d, k, v) == [x] + Put(d, k, v)
  {
    assert ([x] + d)[1..] == d;
  }

  lemma PutFirst<V>(v0: V, d: Entries<V>, k: string, v: V)
    ensures Put([(k, v0)] + d, k, v) == [(k, v)] + d
  {
    assert ([(k, v0)] + d)[1..] == d;
  }

  lemma {:induction false} PutLast<V>(e: Entries<V>, k: string, v0: V, v: V)
    requires k !in Keys(e)
    ensures Put(e + [(k, v0)], k, v) == e + [(k, v)]
    decreases |e|
  {
    if e == [] {
      PutFirst(v0, [], k, v);
      assert [(k, v0)] + [] == [(k, v0)];
    } else {
      KeysRest(e, k);
      var tail := e[1..] + [(k, v0)];
      assert e + [(k, v0)] == [e[0]] + tail;
      PutPast(e[0], tail, k, v);
      PutLast(e[1..], k, v0, v);
      assert e + [(k, v)] == [e[0]] + (e[1..] + [(k, v)]);
    }
  }

  /** Pushing under a key that is not present appends a one-element list. */
  lemma PushNew<T>(d: Entries<seq<T>>, k: string, x: T)
    requires k !in Keys(d)
    ensures Push(d, k, x) == d + [(k, [x])]
  {
    GetDefined(d, k);
    assert Get(d, k).GetOr([]) + [x] == [x];
    PutNew(d, k, [x]);
  }

  /** Pushing under the last key extends the last list. */
  lemma PushLast<T>(e: Entries<seq<T>>, k: string, v: seq<T>, x: T)
    requires k !in Keys(e)
    ensures Push(e + [(k, v)], k, x) == e + [(k, v + [x])]
  {
    GetLast(e, k, v);
    PutLast(e, k, v, v + [x]);
  }

  lemma KeysAppend<V>(d: Entries<V>, k: string, v: V)
    ensures Keys(d + [(k, v)]) == Keys(d) + [k]
  {
  }

  /** Appending an entry under another key leaves every other key's value
      as it was. */
  lemma {:induction false} GetAppend<V>(d: Entries<V>, k: string, v: V, other: string)
    requires other != k
    ensures Get(d + [(k, v)], other) == Get(d, other)
    decreases |d|
  {
    if d != [] {
      assert (d + [(k, v)])[1..] == d[1..] + [(k, v)];
      GetAppend(d[1..], k, v, other);
    }
  }

  /** Every value selected for `k` was paired with `k`. */
  lemma {:induction false} SelectMember<T>(pairs: seq<(string, T)>, k: string, j: nat)
    requires j < |Select(pairs, k)|
    ensures (k, Select(pairs, k)[j]) in pairs
    decreases |pairs|
  {
    var n := |pairs| - 1;
    var before := Select(pairs[..n], k);
    if j < |before| {
      SelectMember(pairs[..n], k, j);
      assert (k, before[j]) in pairs[..n];
      assert Select(pairs, k)[j] == before[j];
    }
  }

  /** Pushing one more pair onto the grouped pairs. */
  lemma CollectSnoc<T>(pairs: seq<(string, T)>, k: string, x: T)
    ensures Collect(pairs + [(k, x)]) == Push(Collect(pairs), k, x)
  {
    assert (pairs + [(k, x)])[..|pairs|] == pairs;
  }
}
