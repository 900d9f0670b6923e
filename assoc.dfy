/**
 * A Python `dict` with string keys, modelled as an association list that
 * keeps insertion order. Python guarantees unique keys; `UniqueKeys` states
 * it, and every operation here preserves it.
 *
 * - `Get` is `d.get(k)`,
 * - `Put` is `d[k] = v`: an existing key keeps its position, a new key goes
 *   to the end,
 * - `Delete` is `del d[k]` on a present key (and nothing on a missing one).
 */
module Assoc {
  import opened Wrappers

  type Assoc<V> = seq<(string, V)>

  function Keys<V>(m: Assoc<V>): (ks: seq<string>)
    ensures |ks| == |m| && forall i :: 0 <= i < |m| ==> ks[i] == m[i].0
  {
    seq(|m|, i requires 0 <= i < |m| => m[i].0)
  }

  ghost predicate UniqueKeys<V>(m: Assoc<V>)
  {
    forall i, j :: 0 <= i < j < |m| ==> m[i].0 != m[j].0
  }

  /** Position of the first entry with key `k`, or `|m|` when there is none. */
  function Find<V>(m: Assoc<V>, k: string): (i: nat)
    ensures i <= |m|
    ensures i < |m| ==> m[i].0 == k
    ensures forall j :: 0 <= j < i ==> m[j].0 != k
    ensures i == |m| <==> k !in Keys(m)
  {
    if m == [] then 0
    else if m[0].0 == k then assert Keys(m)[0] == k; 0
    else
      var i := 1 + Find(m[1..], k);
      assert i < |m| ==> Keys(m)[i] == k;
      assert i == |m| ==> forall j :: 0 <= j < |m| ==> Keys(m)[j] != k;
      i
  }

  function Get<V>(m: Assoc<V>, k: string): (r: Option<V>)
    ensures r.Some? <==> k in Keys(m)
    ensures r.Some? ==> (k, r.value) in m
  {
    var i := Find(m, k);
    if i < |m| then Some(m[i].1) else None
  }

  /** `d.get(k, default)` */
  function GetOr<V>(m: Assoc<V>, k: string, default: V): (v: V)
    ensures k !in Keys(m) ==> v == default
    ensures k in Keys(m) ==> Get(m, k) == Some(v)
  {
    match Get(m, k)
    case Some(v) => v
    case None => default
  }

  /** `d[k] = v` (for the key order, see PutKeys; for the other keys, PutOther) */
  function Put<V>(m: Assoc<V>, k: string, v: V): (r: Assoc<V>)
    ensures Find(r, k) == Find(m, k) && Get(r, k) == Some(v)
  {
    var i := Find(m, k);
    if i < |m| then
      var r := m[i := (k, v)];
      FindAgree(m, r, k);
      r
    else
      var r := m + [(k, v)];
      assert r[|m|].0 == k && forall j :: 0 <= j < |m| ==> r[j].0 != k;
      r
  }

  /** `d[k] = v` keeps an existing key in place and adds a new one at the end. */
  lemma PutKeys<V>(m: Assoc<V>, k: string, v: V)
    ensures k in Keys(m) ==> Keys(Put(m, k, v)) == Keys(m)
    ensures k !in Keys(m) ==> Keys(Put(m, k, v)) == Keys(m) + [k]
    ensures UniqueKeys(m) ==> UniqueKeys(Put(m, k, v))
  {
    var i := Find(m, k);
    var r := Put(m, k, v);
    if i < |m| {
      assert r == m[i := (k, v)];
      assert Keys(r) == Keys(m);
    } else {
      assert r == m + [(k, v)];
      assert Keys(r) == Keys(m) + [k];
    }
  }

  /** `d[k] = v` leaves every other key's value as it was. */
  lemma PutOther<V>(m: Assoc<V>, k: string, v: V, k': string)
    requires k' != k
    ensures Get(Put(m, k, v), k') == Get(m, k')
  {
    FindAgree(m, Put(m, k, v), k');
  }

  /**
   * `del d[k]` when `k` is present: its entry goes, the others keep their
   * order; nothing otherwise (see DeleteUnique and DeleteOther).
   */
  function Delete<V>(m: Assoc<V>, k: string): (r: Assoc<V>)
    ensures k in Keys(m) ==> |r| == |m| - 1
    ensures k !in Keys(m) ==> r == m
    ensures var i := Find(m, k); Keys(r) == Keys(m)[..i] + Keys(m)[(if i < |m| then i + 1 else i)..]
  {
    var i := Find(m, k);
    if i < |m| then
      var r := m[..i] + m[i + 1..];
      assert Keys(r) == Keys(m)[..i] + Keys(m)[i + 1..];
      r
    else
      m
  }

  /** Dropping entry `i` of a dict keeps the keys unique and leaves no copy of its key. */
  lemma RemoveAtUnique<V>(m: Assoc<V>, i: nat)
    requires UniqueKeys(m) && i < |m|
    ensures var r := m[..i] + m[i + 1..];
      UniqueKeys(r) && forall j :: 0 <= j < |r| ==> r[j].0 != m[i].0
  {
    var r := m[..i] + m[i + 1..];
    forall a, b | 0 <= a < b < |r| ensures r[a].0 != r[b].0 {
      assert r[a] == m[if a < i then a else a + 1];
      assert r[b] == m[if b < i then b else b + 1];
    }
    forall j | 0 <= j < |r| ensures r[j].0 != m[i].0 {
      assert r[j] == m[if j < i then j else j + 1];
    }
  }

  /** In a dict, `del d[k]` keeps the keys unique and leaves no `k` behind. */
  lemma DeleteUnique<V>(m: Assoc<V>, k: string)
    requires UniqueKeys(m)
    ensures UniqueKeys(Delete(m, k)) && k !in Keys(Delete(m, k))
  {
    var i := Find(m, k);
    var r := Delete(m, k);
    if i < |m| {
      assert r == m[..i] + m[i + 1..];
      RemoveAtUnique(m, i);
    }
  }

  /** `del d[k]` leaves every other key's value as it was. */
  lemma DeleteOther<V>(m: Assoc<V>, k: string, k': string)
    requires k' != k
    ensures Get(Delete(m, k), k') == Get(m, k')
  {
    var i := Find(m, k);
    if i < |m| {
      DeleteGet(m, i, k');
    }
  }

  /**
   * When `b` extends `a` with entries of other keys, and the two agree on
   * which positions of `a` hold `k`, the first `k` is at the same place
   * (or missing from both).
   */
  lemma {:induction false} FindAgree<V>(a: Assoc<V>, b: Assoc<V>, k: string)
    requires |a| <= |b|
    requires forall j :: 0 <= j < |a| ==> (a[j].0 == k <==> b[j].0 == k)
    requires forall j :: |a| <= j < |b| ==> b[j].0 != k
    ensures Find(b, k) == if Find(a, k) < |a| then Find(a, k) else |b|
  {
    var i := Find(a, k);
    if i < |a| {
      assert b[i].0 == k;
      assert forall j :: 0 <= j < i ==> b[j].0 != k;
    } else {
      assert forall j :: 0 <= j < |b| ==> b[j].0 != k;
      assert forall j :: 0 <= j < |b| ==> Keys(b)[j] != k;
    }
  }

  /** The first entry with key `k` is at `i`. */
  lemma FindAt<V>(m: Assoc<V>, k: string, i: nat)
    requires i < |m| && m[i].0 == k
    requires forall j :: 0 <= j < i ==> m[j].0 != k
    ensures Find(m, k) == i
  {
  }

  lemma DeleteGet<V>(m: Assoc<V>, i: nat, k': string)
    requires i < |m| && m[i].0 != k'
    ensures Get(m[..i] + m[i + 1..], k') == Get(m, k')
  {
    var r := m[..i] + m[i + 1..];
    var f := Find(m, k');
    if f < |m| {
      var g := if f < i then f else f - 1;
      assert r[g] == m[f];
      forall j | 0 <= j < g ensures r[j].0 != k' {
        assert r[j] == m[if j < i then j else j + 1];
      }
      FindAt(r, k', g);
    } else {
      forall j | 0 <= j < |r| ensures Keys(r)[j] != k' {
        assert r[j] == m[if j < i then j else j + 1];
      }
    }
  }

  /** Assigning a key twice leaves only the second value, in the same place. */
  lemma PutPut<V>(m: Assoc<V>, k: string, a: V, b: V)
    ensures Put(Put(m, k, a), k, b) == Put(m, k, b)
  {
    var i := Find(m, k);
    var m1 := Put(m, k, a);
    assert Find(m1, k) == i;
    if i < |m| {
      assert m1 == m[i := (k, a)];
      assert Put(m1, k, b) == m1[i := (k, b)];
      assert m1[i := (k, b)] == m[i := (k, b)];
    } else {
      assert m1 == m + [(k, a)];
      assert Put(m1, k, b) == m1[i := (k, b)];
      assert m1[i := (k, b)] == m + [(k, b)];
    }
  }

  lemma KeysCons<V>(m: Assoc<V>)
    requires m != []
    ensures Keys(m) == [m[0].0] + Keys(m[1..])
  {
  }

  lemma KeysConcat<V>(a: Assoc<V>, b: Assoc<V>)
    ensures Keys(a + b) == Keys(a) + Keys(b)
  {
  }

  lemma UniqueCons<V>(m: Assoc<V>)
    requires m != []
    ensures UniqueKeys(m) <==> m[0].0 !in Keys(m[1..]) && UniqueKeys(m[1..])
  {
    KeysCons(m);
    if m[0].0 !in Keys(m[1..]) && UniqueKeys(m[1..]) {
      forall i, j | 0 <= i < j < |m| ensures m[i].0 != m[j].0 {
        if i == 0 {
          assert Keys(m[1..])[j - 1] == m[j].0;
        } else {
          assert m[1..][i - 1] == m[i] && m[1..][j - 1] == m[j];
        }
      }
    }
    if UniqueKeys(m) {
      forall j | 0 <= j < |m[1..]| ensures Keys(m[1..])[j] != m[0].0 {
        assert m[1..][j] == m[j + 1];
      }
    }
  }

  /** Looking a key up in a non-empty list: the head, or the rest. */
  lemma GetCons<V>(m: Assoc<V>, k: string)
    requires m != []
    ensures Get(m, k) == if m[0].0 == k then Some(m[0].1) else Get(m[1..], k)
  {
    if m[0].0 != k {
      assert Find(m, k) == 1 + Find(m[1..], k);
    }
  }

  /** A prefix of a dict's entries has unique keys, and its keys are the first ones. */
  lemma UniquePrefix<V>(m: Assoc<V>, n: nat)
    requires UniqueKeys(m) && n <= |m|
    ensures UniqueKeys(m[..n])
  {
    assert forall i :: 0 <= i < n ==> m[..n][i] == m[i];
  }

  /** Assigning a key that is not there appends it. */
  lemma PutAbsent<V>(m: Assoc<V>, k: string, v: V)
    requires k !in Keys(m)
    ensures Put(m, k, v) == m + [(k, v)]
  {
    assert Find(m, k) == |m|;
  }

  /** `for k, v in entries: d[k] = v`, in order. */
  function PutAll<V>(m: Assoc<V>, entries: Assoc<V>): (r: Assoc<V>)
    decreases |entries|
    ensures UniqueKeys(m) ==> UniqueKeys(r)
  {
    if entries == [] then m
    else
      PutKeys(m, entries[0].0, entries[0].1);
      PutAll(Put(m, entries[0].0, entries[0].1), entries[1..])
  }

  /** The keys already there keep their places at the front. */
  lemma {:induction false} PutAllPrefix<V>(m: Assoc<V>, entries: Assoc<V>)
    decreases |entries|
    ensures |m| <= |PutAll(m, entries)| && Keys(PutAll(m, entries))[..|m|] == Keys(m)
  {
    if entries != [] {
      var e := entries[0];
      var m' := Put(m, e.0, e.1);
      assert |m| <= |m'| && Keys(m')[..|m|] == Keys(m) by {
        PutKeys(m, e.0, e.1);
      }
      PutAllPrefix(m', entries[1..]);
      var r := PutAll(m', entries[1..]);
      assert PutAll(m, entries) == r;
      assert Keys(r)[..|m|] == Keys(r)[..|m'|][..|m|];
    }
  }

  /** Assigning keys none of which is there yet, each once, appends them in order. */
  lemma {:induction false} PutAllFresh<V>(m: Assoc<V>, entries: Assoc<V>)
    decreases |entries|
    requires UniqueKeys(m + entries)
    ensures PutAll(m, entries) == m + entries
  {
    if entries != [] {
      var e := entries[0];
      var all := m + entries;
      forall j | 0 <= j < |m| ensures Keys(m)[j] != e.0 {
        assert all[j] == m[j] && all[|m|] == e;
      }
      PutAbsent(m, e.0, e.1);
      assert all == (m + [e]) + entries[1..];
      PutAllFresh(m + [e], entries[1..]);
    }
  }
}
