/** A model of `java.util.TreeMap<String, String>`: the entries are kept as a
    sequence strictly sorted by key under Java's `String.compareTo`, and `Put`
    inserts or overwrites in place, exactly as `TreeMap.put` does. */
module TreeMaps {

  /** Java's `String.compareTo(a, b) < 0`: the first differing character decides,
      and a proper prefix comes before every longer string. */
  predicate Less(a: string, b: string): (r: bool)
    decreases |a|
  {
    if |a| == 0 then |b| > 0
    else if |b| == 0 then false
    else if a[0] != b[0] then a[0] < b[0]
    else Less(a[1..], b[1..])
  }

  /** Two different strings are always ordered one way or the other. */
  lemma {:induction false} LessTotal(a: string, b: string)
    requires a != b
    ensures Less(a, b) || Less(b, a)
    decreases |a|
  {
    if |a| > 0 && |b| > 0 && a[0] == b[0] {
      assert a == [a[0]] + a[1..] && b == [b[0]] + b[1..];
      LessTotal(a[1..], b[1..]);
    }
  }

  lemma {:induction false} LessTransitive(a: string, b: string, c: string)
    requires Less(a, b) && Less(b, c)
    ensures Less(a, c)
    decreases |a|
  {
    if |a| > 0 && a[0] == b[0] && b[0] == c[0] {
      LessTransitive(a[1..], b[1..], c[1..]);
    }
  }

  datatype Entry = Entry(key: string, value: string)

  /** Keys strictly increase along the sequence, so each key occurs once. */
  ghost predicate StrictlySorted(es: seq<Entry>) {
    forall i, j :: 0 <= i < j < |es| ==> Less(es[i].key, es[j].key)
  }

  /** The map the entries stand for; an earlier entry wins over a later one
      with the same key (which never happens when the entries are sorted). */
  function ToMap(es: seq<Entry>): (m: map<string, string>)
  {
    if |es| == 0 then map[] else ToMap(es[1..])[es[0].key := es[0].value]
  }

  /** Every key of `es` lies strictly above `x`. */
  ghost predicate Above(x: string, es: seq<Entry>) {
    forall i :: 0 <= i < |es| ==> Less(x, es[i].key)
  }

  /** An entry below every key of a sorted sequence may go in front of it. */
  lemma SortedCons(e: Entry, es: seq<Entry>)
    requires StrictlySorted(es) && Above(e.key, es)
    ensures StrictlySorted([e] + es)
  {
  }

  /** Below the first key of a sorted sequence means below all of its keys. */
  lemma BelowFirstIsBelowAll(x: string, es: seq<Entry>)
    requires StrictlySorted(es) && |es| > 0 && Less(x, es[0].key)
    ensures Above(x, es)
  {
    forall j | 1 <= j < |es|
      ensures Less(x, es[j].key)
    {
      LessTransitive(x, es[0].key, es[j].key);
    }
  }

  /** `TreeMap.put(k, v)`: the entry for `k` is overwritten, or a new entry is
      inserted at its sorted position. */
  function Put(es: seq<Entry>, k: string, v: string): (r: seq<Entry>)
    requires StrictlySorted(es)
    ensures StrictlySorted(r)
    ensures ToMap(r) == ToMap(es)[k := v]
    decreases |es|, 1
  {
    if |es| == 0 then [Entry(k, v)]
    else if es[0].key == k then [Entry(k, v)] + es[1..]
    else if Less(k, es[0].key) then
      BelowFirstIsBelowAll(k, es);
      SortedCons(Entry(k, v), es);
      [Entry(k, v)] + es
    else
      var tail := Put(es[1..], k, v);
      LessTotal(k, es[0].key);
      PutKeepsAbove(es[1..], k, v, es[0].key);
      SortedCons(es[0], tail);
      assert ToMap([es[0]] + tail) == ToMap(tail)[es[0].key := es[0].value];
      [es[0]] + tail
  }

  /** `Put` brings in no key but `k`: a bound below `k` and below every key
      of `es` stays below every key of the result. */
  lemma {:induction false} PutKeepsAbove(es: seq<Entry>, k: string, v: string, x: string)
    requires StrictlySorted(es) && Above(x, es) && Less(x, k)
    ensures Above(x, Put(es, k, v))
    decreases |es|, 2
  {
    if |es| > 0 && es[0].key != k && !Less(k, es[0].key) {
      PutKeepsAbove(es[1..], k, v, x);
    }
  }
}
