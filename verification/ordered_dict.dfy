/**
 * Python's `dict`, which the scripts rely on for ordering: keys are unique,
 * iteration follows first insertion, and assigning to an existing key
 * replaces its value in place without moving it.
 */
module OrderedDict {
  import opened Wrappers

  datatype Dict<K, V> = Dict(items: seq<(K, V)>)

  function Empty<K, V>(): Dict<K, V> {
    Dict([])
  }

  function KeysOf<K, V>(items: seq<(K, V)>): (ks: seq<K>)
    ensures |ks| == |items|
    ensures forall i :: 0 <= i < |items| ==> ks[i] == items[i].0
  {
    seq(|items|, i requires 0 <= i < |items| => items[i].0)
  }

  /** Iteration order of the keys. */
  function Keys<K, V>(d: Dict<K, V>): seq<K> {
    KeysOf(d.items)
  }

  ghost predicate Distinct<T>(s: seq<T>) {
    forall i, j :: 0 <= i < j < |s| ==> s[i] != s[j]
  }

  /** Every dictionary the program can build has distinct keys. */
  ghost predicate Valid<K, V>(d: Dict<K, V>) {
    Distinct(Keys(d))
  }

  /** Position of the first item with key `k`. */
  function IndexOf<K(==), V>(items: seq<(K, V)>, k: K): (r: Option<nat>)
    ensures r.Some? ==> r.value < |items| && items[r.value].0 == k
    ensures r.Some? ==> forall j :: 0 <= j < r.value ==> items[j].0 != k
    ensures r.None? <==> k !in KeysOf(items)
  {
    if |items| == 0 then None
    else if items[0].0 == k then Some(0)
    else match IndexOf(items[1..], k)
      case None => assert KeysOf(items) == [items[0].0] + KeysOf(items[1..]); None
      case Some(j) => Some(j + 1)
  }

  /** `d.get(k)`. */
  function Get<K(==), V>(d: Dict<K, V>, k: K): (r: Option<V>)
    ensures r.Some? <==> k in Keys(d)
  {
    match IndexOf(d.items, k)
    case Some(i) => Some(d.items[i].1)
    case None => None
  }

  lemma GetAt<K, V>(d: Dict<K, V>, i: nat)
    requires Valid(d) && i < |d.items|
    ensures Get(d, d.items[i].0) == Some(d.items[i].1)
  {
    var j := IndexOf(d.items, d.items[i].0).value;
    assert Keys(d)[j] == Keys(d)[i];
  }

  /** `d[k] = v`. */
  function Put<K(==), V>(d: Dict<K, V>, k: K, v: V): (r: Dict<K, V>)
    ensures Valid(d) ==> Valid(r)
    ensures Get(r, k) == Some(v)
    ensures Keys(r) == if k in Keys(d) then Keys(d) else Keys(d) + [k]
  {
    match IndexOf(d.items, k)
    case Some(i) =>
      var r := Dict(d.items[i := (k, v)]);
      assert Keys(r) == Keys(d);
      assert IndexOf(r.items, k) == Some(i);
      r
    case None =>
      var r := Dict(d.items + [(k, v)]);
      assert Keys(r) == Keys(d) + [k];
      assert IndexOf(r.items, k) == Some(|d.items|) by {
        IndexOfAppend(d.items, (k, v), k);
      }
      r
  }

  /** Assigning one key leaves every other key's value alone. */
  lemma PutOther<K, V>(d: Dict<K, V>, k: K, v: V, k': K)
    requires k' != k
    ensures Get(Put(d, k, v), k') == Get(d, k')
  {
    match IndexOf(d.items, k)
    case Some(i) => IndexOfUpdate(d.items, i, v, k');
    case None => IndexOfAppend(d.items, (k, v), k');
  }

  lemma {:induction false} IndexOfUpdate<K, V>(items: seq<(K, V)>, i: nat, v: V, k': K)
    requires i < |items| && items[i].0 != k'
    ensures IndexOf(items[i := (items[i].0, v)], k') == IndexOf(items, k')
  {
    if |items| > 0 && items[0].0 != k' && i > 0 {
      assert items[i := (items[i].0, v)][1..] == items[1..][i - 1 := (items[i].0, v)];
      IndexOfUpdate(items[1..], i - 1, v, k');
    } else if |items| > 0 && items[0].0 != k' {
      assert items[i := (items[i].0, v)][1..] == items[1..];
    }
  }

  lemma {:induction false} IndexOfAppend<K, V>(items: seq<(K, V)>, x: (K, V), k: K)
    ensures IndexOf(items + [x], k) ==
      if k in KeysOf(items) then IndexOf(items, k)
      else if x.0 == k then Some(|items|) else None
  {
    if |items| > 0 && items[0].0 != k {
      assert (items + [x])[1..] == items[1..] + [x];
      assert KeysOf(items) == [items[0].0] + KeysOf(items[1..]);
      IndexOfAppend(items[1..], x, k);
    }
  }

  /** Assign every pair in order, as a loop of `d[k] = v` statements does. */
  function PutAll<K(==), V>(d: Dict<K, V>, pairs: seq<(K, V)>): (r: Dict<K, V>)
    ensures Valid(d) ==> Valid(r)
    decreases |pairs|
  {
    if |pairs| == 0 then d else PutAll(Put(d, pairs[0].0, pairs[0].1), pairs[1..])
  }

  /** The key order `PutAll` produces: each key where it was first assigned. */
  ghost function FirstOccurrences<K>(ks: seq<K>, more: seq<K>): seq<K>
    decreases |more|
  {
    if |more| == 0 then ks
    else FirstOccurrences(if more[0] in ks then ks else ks + [more[0]], more[1..])
  }

  lemma {:induction false} PutAllKeys<K, V>(d: Dict<K, V>, pairs: seq<(K, V)>)
    ensures Keys(PutAll(d, pairs)) == FirstOccurrences(Keys(d), KeysOf(pairs))
    decreases |pairs|
  {
    if |pairs| > 0 {
      var k := pairs[0].0;
      var d' := Put(d, k, pairs[0].1);
      PutAllKeys(d', pairs[1..]);
      assert KeysOf(pairs)[0] == k;
      assert KeysOf(pairs)[1..] == KeysOf(pairs[1..]);
      assert PutAll(d, pairs) == PutAll(d', pairs[1..]);
      assert FirstOccurrences(Keys(d), KeysOf(pairs))
          == FirstOccurrences(Keys(d'), KeysOf(pairs[1..]));
    }
  }

  lemma {:induction false} FirstOccurrencesOfFresh<K>(ks: seq<K>, more: seq<K>)
    requires Distinct(ks + more)
    ensures FirstOccurrences(ks, more) == ks + more
    decreases |more|
  {
    if |more| > 0 {
      assert more[0] !in ks by {
        forall i | 0 <= i < |ks| ensures ks[i] != more[0] {
          assert (ks + more)[i] != (ks + more)[|ks|];
        }
      }
      assert ks + more == (ks + [more[0]]) + more[1..];
      FirstOccurrencesOfFresh(ks + [more[0]], more[1..]);
    }
  }

  /** Assigning pairs with distinct, fresh keys keeps them in order after the existing ones. */
  lemma PutAllFreshKeys<K, V>(d: Dict<K, V>, pairs: seq<(K, V)>)
    requires Distinct(Keys(d) + KeysOf(pairs))
    ensures Keys(PutAll(d, pairs)) == Keys(d) + KeysOf(pairs)
  {
    PutAllKeys(d, pairs);
    FirstOccurrencesOfFresh(Keys(d), KeysOf(pairs));
  }

  /** After assigning pairs with distinct keys, each key maps to its own value. */
  lemma {:induction false} PutAllGet<K, V>(d: Dict<K, V>, pairs: seq<(K, V)>, i: nat)
    requires Distinct(KeysOf(pairs)) && i < |pairs|
    ensures Get(PutAll(d, pairs), pairs[i].0) == Some(pairs[i].1)
    decreases |pairs|
  {
    var d' := Put(d, pairs[0].0, pairs[0].1);
    assert KeysOf(pairs[1..]) == KeysOf(pairs)[1..];
    if i == 0 {
      PutAllUntouched(d', pairs[1..], pairs[0].0);
    } else {
      PutAllGet(d', pairs[1..], i - 1);
    }
  }

  /** Assigning other keys leaves a key's value alone. */
  lemma {:induction false} PutAllUntouched<K, V>(d: Dict<K, V>, pairs: seq<(K, V)>, k: K)
    requires k !in KeysOf(pairs)
    ensures Get(PutAll(d, pairs), k) == Get(d, k)
    decreases |pairs|
  {
    if |pairs| > 0 {
      assert KeysOf(pairs[1..]) == KeysOf(pairs)[1..];
      assert KeysOf(pairs)[0] == pairs[0].0;
      PutAllUntouched(Put(d, pairs[0].0, pairs[0].1), pairs[1..], k);
      PutOther(d, pairs[0].0, pairs[0].1, k);
    }
  }

  /** Assigning `a` then `b` is assigning `a + b`. */
  lemma {:induction false} PutAllConcat<K, V>(d: Dict<K, V>, a: seq<(K, V)>, b: seq<(K, V)>)
    ensures PutAll(d, a + b) == PutAll(PutAll(d, a), b)
    decreases |a|
  {
    if |a| == 0 {
      assert a + b == b;
    } else {
      assert (a + b)[0] == a[0];
      assert (a + b)[1..] == a[1..] + b;
      PutAllConcat(Put(d, a[0].0, a[0].1), a[1..], b);
    }
  }
}
