/** A plain JavaScript object with string keys (`Record<string, V>`), kept as its
    entries in enumeration order. Assigning to a present key keeps its position;
    assigning to a new key appends it. */
module Records {
  import opened Wrappers

  type Object<V> = seq<(string, V)>

  function Keys<V>(o: Object<V>): set<string> {
    set i | 0 <= i < |o| :: o[i].0
  }

  predicate DistinctKeys<V>(o: Object<V>) {
    forall i, j :: 0 <= i < j < |o| ==> o[i].0 != o[j].0
  }

  lemma KeysOfTail<V>(o: Object<V>)
    requires o != []
    ensures Keys(o) == {o[0].0} + Keys(o[1..])
  {
    forall k | k in Keys(o) ensures k in {o[0].0} + Keys(o[1..]) {
      var i :| 0 <= i < |o| && o[i].0 == k;
      if i > 0 { assert o[1..][i - 1] == o[i]; }
    }
    forall k | k in Keys(o[1..]) ensures k in Keys(o) {
      var i :| 0 <= i < |o[1..]| && o[1..][i].0 == k;
      assert o[i + 1] == o[1..][i];
    }
  }

  /** `o[k]`: the value stored under `k`, or `undefined` when `k` is not a key. */
  function Get<V>(o: Object<V>, k: string): (r: Option<V>)
    ensures r.Some? <==> k in Keys(o)
    ensures r.Some? ==> (k, r.value) in o
  {
    if o == [] then None
    else if o[0].0 == k then Some(o[0].1)
    else
      KeysOfTail(o);
      Get(o[1..], k)
  }

  /** `o[k] = v`. */
  function Assign<V>(o: Object<V>, k: string, v: V): (r: Object<V>)
    ensures Get(r, k) == Some(v)
    ensures forall k' :: k' != k ==> Get(r, k') == Get(o, k')
    ensures Keys(r) == Keys(o) + {k}
    ensures DistinctKeys(o) ==> DistinctKeys(r)
  {
    if o == [] then
      LeadingEntry((k, v), []);
      assert [(k, v)] + [] == [(k, v)];
      [(k, v)]
    else
      LeadingEntry(o[0], o[1..]);
      assert o == [o[0]] + o[1..];
      if o[0].0 == k then
        LeadingEntry((k, v), o[1..]);
        [(k, v)] + o[1..]
      else
        var t := Assign(o[1..], k, v);
        LeadingEntry(o[0], t);
        [o[0]] + t
  }

  /** An object whose first entry is `x`, followed by the entries of `t`. */
  lemma LeadingEntry<V>(x: (string, V), t: Object<V>)
    ensures Keys([x] + t) == {x.0} + Keys(t)
    ensures forall k :: Get([x] + t, k) == if x.0 == k then Some(x.1) else Get(t, k)
    ensures DistinctKeys([x] + t) <==> x.0 !in Keys(t) && DistinctKeys(t)
  {
    var o := [x] + t;
    assert o[1..] == t;
    KeysOfTail(o);
    LeadingEntryDistinct(x, t);
  }

  lemma LeadingEntryDistinct<V>(x: (string, V), t: Object<V>)
    ensures DistinctKeys([x] + t) <==> x.0 !in Keys(t) && DistinctKeys(t)
  {
    var o := [x] + t;
    if DistinctKeys(o) {
      forall i, j | 0 <= i < j < |t| ensures t[i].0 != t[j].0 {
        assert t[i] == o[i + 1] && t[j] == o[j + 1];
      }
      forall i | 0 <= i < |t| ensures t[i].0 != x.0 {
        assert o[0] == x && o[i + 1] == t[i];
      }
    }
    if x.0 !in Keys(t) && DistinctKeys(t) {
      forall i, j | 0 <= i < j < |o| ensures o[i].0 != o[j].0 {
        assert o[j] == t[j - 1];
        if i > 0 {
          assert o[i] == t[i - 1];
        }
      }
    }
  }

  /** `Object.entries(o).find(([, v]) => p(v))`, keeping only the key:
      the first key in enumeration order whose value satisfies `p`. */
  function FindKey<V>(o: Object<V>, p: V -> bool): Option<string> {
    if o == [] then None
    else if p(o[0].1) then Some(o[0].0)
    else FindKey(o[1..], p)
  }

  lemma {:induction false} FindKeyIsFirstMatch<V>(o: Object<V>, p: V -> bool)
    ensures FindKey(o, p).None? <==> forall i :: 0 <= i < |o| ==> !p(o[i].1)
    ensures FindKey(o, p).Some? ==>
      exists i :: 0 <= i < |o| && o[i].0 == FindKey(o, p).value && p(o[i].1)
        && forall j :: 0 <= j < i ==> !p(o[j].1)
  {
    if o != [] && !p(o[0].1) {
      var t := o[1..];
      FindKeyIsFirstMatch(t, p);
      forall i | 1 <= i < |o| ensures o[i] == t[i - 1] { }
      if FindKey(o, p).Some? {
        var i :| 0 <= i < |t| && t[i].0 == FindKey(t, p).value && p(t[i].1)
          && forall j :: 0 <= j < i ==> !p(t[j].1);
        assert o[i + 1] == t[i];
      }
    }
  }
}
