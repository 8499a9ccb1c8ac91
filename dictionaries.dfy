/** `Dictionary<long, V>` as the core uses it: entries are only ever added,
    so enumeration visits them in insertion order. It is modelled as the
    list of its entries in that order; `Add` refuses a key already present,
    as the .NET method does by throwing. */
module Dictionaries {
  import opened Base

  datatype Entry<V> = Entry(key: int64, value: V)

  type Dictionary<V> = seq<Entry<V>>

  function Keys<V>(d: Dictionary<V>): (ks: seq<int64>)
    ensures |ks| == |d|
    ensures forall i :: 0 <= i < |d| ==> ks[i] == d[i].key
  {
    seq(|d|, i requires 0 <= i < |d| => d[i].key)
  }

  /** `d.Values`, in enumeration order. */
  function Values<V>(d: Dictionary<V>): (vs: seq<V>)
    ensures |vs| == |d|
    ensures forall i :: 0 <= i < |d| ==> vs[i] == d[i].value
  {
    seq(|d|, i requires 0 <= i < |d| => d[i].value)
  }

  /** No key occurs twice: what a dictionary built by `Add` always satisfies. */
  predicate DistinctKeys<V>(d: Dictionary<V>) {
    forall i, j :: 0 <= i < j < |d| ==> d[i].key != d[j].key
  }

  /** `d.TryGetValue(k, out v)`: the value stored under `k`, if any. */
  function TryGetValue<V>(d: Dictionary<V>, k: int64): (r: Option<V>)
    ensures r.None? <==> k !in Keys(d)
    ensures r.Some? ==> exists i :: 0 <= i < |d| && d[i] == Entry(k, r.value)
  {
    if d == [] then None
    else if d[0].key == k then Some(d[0].value)
    else
      var r := TryGetValue(d[1..], k);
      assert Keys(d) == [d[0].key] + Keys(d[1..]);
      assert r.Some? ==> exists i :: 0 <= i < |d[1..]| && d[1..][i] == Entry(k, r.value);
      r
  }

  /** `d.Add(k, v)`: `None` when `k` is already present (the .NET method
      throws `ArgumentException`), otherwise `d` with the entry appended. */
  function Add<V>(d: Dictionary<V>, k: int64, v: V): (r: Option<Dictionary<V>>)
    ensures r.None? <==> k in Keys(d)
    ensures r.Some? ==> r.value == d + [Entry(k, v)]
    ensures r.Some? && DistinctKeys(d) ==> DistinctKeys(r.value)
  {
    if k in Keys(d) then None else Some(d + [Entry(k, v)])
  }

  /** With distinct keys, a lookup finds exactly the stored entry. */
  lemma {:induction false} TryGetValueFinds<V>(d: Dictionary<V>, i: nat)
    requires DistinctKeys(d) && i < |d|
    ensures TryGetValue(d, d[i].key) == Some(d[i].value)
  {
    if i > 0 {
      TryGetValueFinds(d[1..], i - 1);
    }
  }

  /** Once a key repeats, appending more entries cannot repair it. */
  lemma DuplicatePersists<V>(d: Dictionary<V>, e: Dictionary<V>)
    requires !DistinctKeys(d)
    ensures !DistinctKeys(d + e)
  {
    var i, j :| 0 <= i < j < |d| && d[i].key == d[j].key;
    assert (d + e)[i] == d[i] && (d + e)[j] == d[j];
  }

  /** `Add` fails exactly when appending the entry would repeat a key. */
  lemma AddFailsOnDuplicate<V>(d: Dictionary<V>, k: int64, v: V)
    requires k in Keys(d)
    ensures !DistinctKeys(d + [Entry(k, v)])
  {
    var i :| 0 <= i < |d| && Keys(d)[i] == k;
    assert (d + [Entry(k, v)])[i].key == (d + [Entry(k, v)])[|d|].key;
  }
}
