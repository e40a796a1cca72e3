/**
 * Python `dict[str, V]` with its insertion order, which the service exposes
 * (rendered ticket sections, the collected map returned to the client):
 * an association list in which assigning an existing key keeps its position
 * and assigning a new key appends it.
 */
module Dicts {
  import opened Options

  type Dict<V> = seq<(string, V)>

  /** What every Python dict satisfies: no key twice. */
  predicate KeysDistinct<V>(d: Dict<V>) {
    forall i, j :: 0 <= i < j < |d| ==> d[i].0 != d[j].0
  }

  function Keys<V>(d: Dict<V>): (ks: seq<string>)
    ensures |ks| == |d| && forall i :: 0 <= i < |d| ==> ks[i] == d[i].0
  {
    seq(|d|, i requires 0 <= i < |d| => d[i].0)
  }

  /** Position of the first entry with key `k`. */
  function IndexOf<V>(d: Dict<V>, k: string): (r: Option<nat>)
    ensures r.Some? ==> r.value < |d| && d[r.value].0 == k
    ensures r.Some? ==> forall i :: 0 <= i < r.value ==> d[i].0 != k
    ensures r.None? ==> forall i :: 0 <= i < |d| ==> d[i].0 != k
  {
    if |d| == 0 then None
    else if d[0].0 == k then Some(0)
    else match IndexOf(d[1..], k)
      case None => None
      case Some(j) => Some(j + 1)
  }

  /** `k in d`. */
  predicate HasKey<V>(d: Dict<V>, k: string) {
    IndexOf(d, k).Some?
  }

  /** `d.get(k)`. */
  function Get<V>(d: Dict<V>, k: string): Option<V> {
    match IndexOf(d, k)
    case None => None
    case Some(i) => Some(d[i].1)
  }

  lemma IndexOfIs<V>(d: Dict<V>, k: string, j: nat)
    requires j < |d| && d[j].0 == k
    requires forall i :: 0 <= i < j ==> d[i].0 != k
    ensures IndexOf(d, k) == Some(j)
  {
  }

  lemma GetAt<V>(d: Dict<V>, j: nat)
    requires KeysDistinct(d) && j < |d|
    ensures Get(d, d[j].0) == Some(d[j].1)
  {
    IndexOfIs(d, d[j].0, j);
  }

  lemma SameKeysSameIndex<V>(d: Dict<V>, e: Dict<V>, k: string)
    requires |d| == |e| && forall i :: 0 <= i < |d| ==> d[i].0 == e[i].0
    ensures IndexOf(d, k) == IndexOf(e, k)
  {
    match IndexOf(d, k)
    case None =>
    case Some(j) => IndexOfIs(e, k, j);
  }

  lemma IndexOfAppend<V>(d: Dict<V>, k: string, v: V, k': string)
    ensures IndexOf(d + [(k, v)], k') == AppendedIndex(d, k, k')
  {
    var e := d + [(k, v)];
    match IndexOf(d, k')
    case Some(j) => IndexOfIs(e, k', j);
    case None =>
      if k' == k { IndexOfIs(e, k', |d|); }
  }

  /** Where key `k'` is found once `k` has been appended to `d`. */
  function AppendedIndex<V>(d: Dict<V>, k: string, k': string): Option<nat> {
    if HasKey(d, k') then IndexOf(d, k') else if k' == k then Some(|d|) else None
  }

  /** `d[k] = v`. */
  function Put<V>(d: Dict<V>, k: string, v: V): (r: Dict<V>)
    ensures Get(r, k) == Some(v)
    ensures forall k' :: k' != k ==> Get(r, k') == Get(d, k')
    ensures HasKey(d, k) ==> Keys(r) == Keys(d)
    ensures !HasKey(d, k) ==> Keys(r) == Keys(d) + [k]
    ensures KeysDistinct(d) ==> KeysDistinct(r)
  {
    match IndexOf(d, k)
    case Some(i) =>
      var r := d[i := (k, v)];
      assert forall k' :: IndexOf(r, k') == IndexOf(d, k') by {
        forall k' { SameKeysSameIndex(r, d, k'); }
      }
      assert Keys(r) == Keys(d);
      r
    case None =>
      var r := d + [(k, v)];
      assert forall k' :: IndexOf(r, k') == AppendedIndex(d, k, k') by {
        forall k' { IndexOfAppend(d, k, v, k'); }
      }
      assert Keys(r) == Keys(d) + [k];
      r
  }

  /** `d.setdefault(k, v)`: `d` itself when `k` is already a key, `v` appended under `k` otherwise. */
  function SetDefault<V>(d: Dict<V>, k: string, v: V): (r: Dict<V>)
    ensures HasKey(d, k) ==> r == d
    ensures !HasKey(d, k) ==> r == Put(d, k, v)
  {
    if HasKey(d, k) then d else Put(d, k, v)
  }

  lemma HasKeyGet<V>(d: Dict<V>, k: string)
    ensures HasKey(d, k) <==> Get(d, k).Some?
  {
  }

  lemma HasKeyIn<V>(d: Dict<V>, k: string)
    ensures HasKey(d, k) <==> k in Keys(d)
  {
    if k in Keys(d) {
      var i :| 0 <= i < |d| && Keys(d)[i] == k;
      assert d[i].0 == k;
    }
  }

  /** The value of the last entry under `k`, the one a dict built from these pairs keeps. */
  function LastFor<V>(d: Dict<V>, k: string): (r: Option<V>)
    ensures r.None? <==> forall i :: 0 <= i < |d| ==> d[i].0 != k
  {
    if d == [] then None
    else if d[|d| - 1].0 == k then Some(d[|d| - 1].1)
    else LastFor(d[..|d| - 1], k)
  }

  /** In a dict, the last entry under a key is its only one. */
  lemma {:induction false} LastForDistinct<V>(d: Dict<V>, k: string)
    requires KeysDistinct(d)
    ensures LastFor(d, k) == Get(d, k)
  {
    if d != [] {
      var init := d[..|d| - 1];
      var last := d[|d| - 1];
      assert d == init + [last];
      IndexOfAppend(init, last.0, last.1, k);
      if last.0 == k {
        assert !HasKey(init, k);
      } else {
        LastForDistinct(init, k);
      }
    }
  }

  /** `d.update(es)`, or `{**d, **es}`: the pairs of `es` assigned in order. */
  function PutAll<V>(d: Dict<V>, es: Dict<V>): Dict<V>
  {
    if es == [] then d
    else Put(PutAll(d, es[..|es| - 1]), es[|es| - 1].0, es[|es| - 1].1)
  }

  /** After an update a key holds the last value `es` gives it, or what it held before. */
  lemma {:induction false} PutAllGet<V>(d: Dict<V>, es: Dict<V>, k: string)
    ensures Get(PutAll(d, es), k) == if LastFor(es, k).Some? then LastFor(es, k) else Get(d, k)
  {
    if es != [] {
      PutAllGet(d, es[..|es| - 1], k);
    }
  }

  /** An update keeps the keys already there, in their places, and a dict stays a dict. */
  lemma {:induction false} PutAllKeys<V>(d: Dict<V>, es: Dict<V>)
    ensures |PutAll(d, es)| >= |d| && Keys(PutAll(d, es))[..|d|] == Keys(d)
    ensures KeysDistinct(d) ==> KeysDistinct(PutAll(d, es))
  {
    if es != [] {
      PutAllKeys(d, es[..|es| - 1]);
    }
  }
}
