/** Kotlin's `mutableMapOf` (a `LinkedHashMap` keyed by string): entries in insertion order,
    where storing under a present key replaces the value in place and storing under a new key
    appends. The order is observable: every registry query lists values in this order.
 */
module LinkedMap {
  import opened Results
  import opened Sequences

  type LinkedMap<V> = seq<(string, V)>

  /** The keys, in entry order. */
  function Keys<V>(m: LinkedMap<V>): (ks: seq<string>)
    ensures |ks| == |m|
    ensures forall i :: 0 <= i < |m| ==> ks[i] == m[i].0
  {
    seq(|m|, i requires 0 <= i < |m| => m[i].0)
  }

  /** `values`, in entry order. */
  function Values<V>(m: LinkedMap<V>): (vs: seq<V>)
    ensures |vs| == |m|
    ensures forall i :: 0 <= i < |m| ==> vs[i] == m[i].1
  {
    seq(|m|, i requires 0 <= i < |m| => m[i].1)
  }

  /** No key occurs twice; a map built with `Put` and `Remove` keeps this. */
  ghost predicate KeysUnique<V>(m: LinkedMap<V>) {
    forall i, j :: 0 <= i < j < |m| ==> m[i].0 != m[j].0
  }

  /** Every value is stored under its own id. */
  ghost predicate KeyedBy<V>(m: LinkedMap<V>, id: V -> string) {
    forall i :: 0 <= i < |m| ==> m[i].0 == id(m[i].1)
  }

  /** The position of key `k`. */
  function IndexOf<V>(m: LinkedMap<V>, k: string): (r: Option<nat>)
    ensures r.Some? ==> r.value < |m| && m[r.value].0 == k
    ensures r.Some? ==> forall j :: 0 <= j < r.value ==> m[j].0 != k
    ensures r.None? <==> forall j :: 0 <= j < |m| ==> m[j].0 != k
  {
    if |m| == 0 then None
    else if m[0].0 == k then Some(0)
    else
      match IndexOf(m[1..], k)
      case None => None
      case Some(i) => Some(i + 1)
  }

  /** `m[k]`: the value stored under `k`, or `None` (Kotlin's `null`). */
  function Get<V>(m: LinkedMap<V>, k: string): (r: Option<V>)
    ensures r.None? <==> forall j :: 0 <= j < |m| ==> m[j].0 != k
    ensures KeysUnique(m) ==> forall j :: 0 <= j < |m| && m[j].0 == k ==> r == Some(m[j].1)
  {
    match IndexOf(m, k)
    case None => None
    case Some(i) => Some(m[i].1)
  }

  /** `IndexOf` is the only result meeting its contract. */
  lemma IndexOfDetermined<V>(m: LinkedMap<V>, k: string, r: Option<nat>)
    requires r.Some? ==> r.value < |m| && m[r.value].0 == k
    requires r.Some? ==> forall j :: 0 <= j < r.value ==> m[j].0 != k
    requires r.None? <==> forall j :: 0 <= j < |m| ==> m[j].0 != k
    ensures IndexOf(m, k) == r
  {
  }

  /** `m[k] = v`: replaces the value of a present key in place, appends a new key. */
  function Put<V>(m: LinkedMap<V>, k: string, v: V): (r: LinkedMap<V>)
    ensures Get(r, k) == Some(v)
    ensures forall k' :: k' != k ==> Get(r, k') == Get(m, k')
    ensures Get(m, k).Some? ==> Keys(r) == Keys(m)
    ensures Get(m, k).None? ==> Keys(r) == Keys(m) + [k]
    ensures KeysUnique(m) ==> KeysUnique(r)
    ensures forall i :: 0 <= i < |r| ==> r[i] == (k, v) || r[i] in m
  {
    match IndexOf(m, k)
    case Some(i) =>
      PutAt(m, i, k, v);
      m[i := (k, v)]
    case None =>
      PutAppended(m, k, v);
      m + [(k, v)]
  }

  /** Replacing the entry of a present key changes only that key's value. */
  lemma PutAt<V>(m: LinkedMap<V>, i: nat, k: string, v: V)
    requires IndexOf(m, k) == Some(i)
    ensures var r := m[i := (k, v)];
      && Get(r, k) == Some(v)
      && (forall k' :: k' != k ==> Get(r, k') == Get(m, k'))
      && Keys(r) == Keys(m)
      && (KeysUnique(m) ==> KeysUnique(r))
      && (forall j :: 0 <= j < |r| ==> r[j] == (k, v) || r[j] in m)
  {
    var r := m[i := (k, v)];
    forall k' ensures IndexOf(r, k') == IndexOf(m, k') {
      IndexOfDetermined(r, k', IndexOf(m, k'));
    }
    assert Keys(r) == Keys(m);
  }

  /** Appending a new key adds its value and changes no other key's. */
  lemma PutAppended<V>(m: LinkedMap<V>, k: string, v: V)
    requires IndexOf(m, k).None?
    ensures var r := m + [(k, v)];
      && Get(r, k) == Some(v)
      && (forall k' :: k' != k ==> Get(r, k') == Get(m, k'))
      && Keys(r) == Keys(m) + [k]
      && (KeysUnique(m) ==> KeysUnique(r))
      && (forall j :: 0 <= j < |r| ==> r[j] == (k, v) || r[j] in m)
  {
    var r := m + [(k, v)];
    forall k' | k' != k ensures IndexOf(r, k') == IndexOf(m, k') {
      IndexOfDetermined(r, k', IndexOf(m, k'));
    }
    IndexOfDetermined(r, k, Some(|m|));
    assert Keys(r) == Keys(m) + [k];
  }

  /** `m.remove(k)`: the map without key `k`, and the value it had. */
  function Remove<V>(m: LinkedMap<V>, k: string): (r: (LinkedMap<V>, Option<V>))
    ensures r.1 == Get(m, k)
    ensures KeysUnique(m) ==> Get(r.0, k).None?
    ensures KeysUnique(m) ==> forall k' :: k' != k ==> Get(r.0, k') == Get(m, k')
    ensures KeysUnique(m) ==> KeysUnique(r.0)
    ensures forall i :: 0 <= i < |r.0| ==> r.0[i] in m
  {
    match IndexOf(m, k)
    case None => (m, None)
    case Some(i) =>
      var r := m[..i] + m[i + 1..];
      assert forall j {:trigger r[j]} :: 0 <= j < |r| ==> r[j] == (if j < i then m[j] else m[j + 1]);
      RemoveAtKeepsOthers(m, i, r);
      (r, Some(m[i].1))
  }

  /** Dropping the entry at `i` from a map with unique keys keeps every other key's value. */
  lemma {:induction false} RemoveAtKeepsOthers<V>(m: LinkedMap<V>, i: nat, r: LinkedMap<V>)
    requires i < |m| && |r| == |m| - 1
    requires forall j {:trigger r[j]} :: 0 <= j < |r| ==> r[j] == (if j < i then m[j] else m[j + 1])
    ensures KeysUnique(m) ==> forall k' :: k' != m[i].0 ==> Get(r, k') == Get(m, k')
  {
    if KeysUnique(m) {
      forall k' | k' != m[i].0 ensures Get(r, k') == Get(m, k') {
        var idx := IndexOf(m, k');
        if idx.Some? {
          var j := idx.value;
          assert j != i;
          var j' := if j < i then j else j - 1;
          assert 0 <= j' < |r| && r[j'] == m[j];
        } else {
          forall j | 0 <= j < |r| ensures r[j].0 != k' {
            assert r[j] == (if j < i then m[j] else m[j + 1]);
          }
        }
      }
    }
  }

  /** Storing a value under its own id keeps the map keyed by id. */
  lemma PutKeyedBy<V>(m: LinkedMap<V>, v: V, id: V -> string)
    ensures KeyedBy(m, id) ==> KeyedBy(Put(m, id(v), v), id)
  {
    var r := Put(m, id(v), v);
    forall i | KeyedBy(m, id) && 0 <= i < |r| ensures r[i].0 == id(r[i].1) {
      if r[i] != (id(v), v) {
        var j :| 0 <= j < |m| && m[j] == r[i];
      }
    }
  }

  /** Removing a key keeps the map keyed by id. */
  lemma RemoveKeyedBy<V>(m: LinkedMap<V>, k: string, id: V -> string)
    ensures KeyedBy(m, id) ==> KeyedBy(Remove(m, k).0, id)
  {
    var r := Remove(m, k).0;
    forall i | KeyedBy(m, id) && 0 <= i < |r| ensures r[i].0 == id(r[i].1) {
      var j :| 0 <= j < |m| && m[j] == r[i];
    }
  }

  /** In a map keyed by id with unique keys, a value is found under its id. */
  lemma GetValue<V>(m: LinkedMap<V>, v: V, id: V -> string)
    requires KeysUnique(m) && KeyedBy(m, id)
    requires v in Values(m)
    ensures Get(m, id(v)) == Some(v)
  {
    var i :| 0 <= i < |m| && Values(m)[i] == v;
  }

  /** What `Get` finds is one of the values. */
  lemma GetInValues<V>(m: LinkedMap<V>, k: string)
    requires Get(m, k).Some?
    ensures Get(m, k).value in Values(m)
  {
    var i := IndexOf(m, k).value;
    assert Values(m)[i] == m[i].1;
  }

  /** In a map keyed by id with unique keys, selecting the values whose id is `k` finds exactly
      the value stored under `k`, or nothing. */
  lemma {:induction false} FilterById<V(!new)>(m: LinkedMap<V>, id: V -> string, k: string, p: V -> bool)
    requires KeysUnique(m) && KeyedBy(m, id)
    requires forall v :: p(v) <==> id(v) == k
    ensures Filter(Values(m), p) == match Get(m, k) case Some(v) => [v] case None => []
  {
    if |m| > 0 {
      var tail := m[1..];
      assert Values(m) == [m[0].1] + Values(tail);
      assert KeysUnique(tail) && KeyedBy(tail, id);
      FilterById(tail, id, k, p);
      if m[0].0 == k {
        assert Get(tail, k).None?;
        assert Get(m, k) == Some(m[0].1);
      } else {
        assert Get(m, k) == Get(tail, k) by {
          IndexOfDetermined(m, k, match IndexOf(tail, k) case None => None case Some(i) => Some(i + 1));
        }
      }
    }
  }

  /** After `Put`, every value is the stored one or was there before. */
  lemma PutValues<V>(m: LinkedMap<V>, k: string, v: V)
    ensures forall x :: x in Values(Put(m, k, v)) ==> x == v || x in Values(m)
  {
    var r := Put(m, k, v);
    forall x | x in Values(r) ensures x == v || x in Values(m) {
      var i :| 0 <= i < |r| && Values(r)[i] == x;
      if r[i] != (k, v) {
        var j :| 0 <= j < |m| && m[j] == r[i];
        assert Values(m)[j] == x;
      }
    }
  }

  /** After `Remove`, every value was there before. */
  lemma RemoveValues<V>(m: LinkedMap<V>, k: string)
    ensures forall x :: x in Values(Remove(m, k).0) ==> x in Values(m)
  {
    var r := Remove(m, k).0;
    forall x | x in Values(r) ensures x in Values(m) {
      var i :| 0 <= i < |r| && Values(r)[i] == x;
      var j :| 0 <= j < |m| && m[j] == r[i];
      assert Values(m)[j] == x;
    }
  }

  /** The value under `k` after `writes`, applied in order, to a table holding `before` under
      `k`: the last write to `k` wins, and writing `None` removes the key. */
  function Overwrite<V>(before: Option<V>, writes: seq<(string, Option<V>)>, k: string): Option<V>
    decreases |writes|
  {
    if |writes| == 0 then before
    else if writes[|writes| - 1].0 == k then writes[|writes| - 1].1
    else Overwrite(before, writes[..|writes| - 1], k)
  }

  /** `r` is `m` after `writes`, as far as any look-up can tell. */
  ghost predicate Rewritten<V>(m: LinkedMap<V>, r: LinkedMap<V>, writes: seq<(string, Option<V>)>) {
    forall k :: Get(r, k) == Overwrite(Get(m, k), writes, k)
  }

  /** No writes leave a table as it was. */
  lemma RewrittenNothing<V>(m: LinkedMap<V>)
    ensures Rewritten(m, m, [])
  {
  }

  /** `Put` is a write of the value. */
  lemma RewrittenPut<V>(m: LinkedMap<V>, r: LinkedMap<V>, writes: seq<(string, Option<V>)>, k: string, v: V)
    requires Rewritten(m, r, writes)
    ensures Rewritten(m, Put(r, k, v), writes + [(k, Some(v))])
  {
    var w := writes + [(k, Some(v))];
    assert w[..|w| - 1] == writes;
  }

  /** `Remove` on a table with unique keys is a write of `None`. */
  lemma RewrittenRemove<V>(m: LinkedMap<V>, r: LinkedMap<V>, writes: seq<(string, Option<V>)>, k: string)
    requires Rewritten(m, r, writes) && KeysUnique(r)
    ensures Rewritten(m, Remove(r, k).0, writes + [(k, None)])
  {
    var w := writes + [(k, None)];
    assert w[..|w| - 1] == writes;
  }
}
