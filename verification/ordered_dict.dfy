/** A Python `dict` keyed by strings: a map together with the insertion
    order that `dict.keys()` and `dict.items()` iterate in. Assigning to an
    existing key keeps its position; `pop` removes the key from the order.
 */
module OrderedDict {
  import opened Wrappers

  ghost predicate NoDup<T>(s: seq<T>) {
    forall i, j :: 0 <= i < j < |s| ==> s[i] != s[j]
  }

  /** `r` is `s` with some elements dropped and the rest kept in order. */
  ghost predicate IsSubsequence<T>(r: seq<T>, s: seq<T>)
    decreases |s|
  {
    if |r| == 0 then true
    else if |s| == 0 then false
    else if r[0] == s[0] then IsSubsequence(r[1..], s[1..])
    else IsSubsequence(r, s[1..])
  }

  lemma {:induction false} SubsequenceOfItself<T>(s: seq<T>)
    ensures IsSubsequence(s, s)
    decreases |s|
  {
    if |s| > 0 {
      SubsequenceOfItself(s[1..]);
    }
  }

  datatype Dict<V> = Dict(order: seq<string>, entries: map<string, V>) {

    /** The representation of a real dict: each key listed once, in order. */
    ghost predicate Valid() {
      NoDup(order) && forall k :: k in entries <==> k in order
    }

    /** `d.get(k)` */
    function Get(k: string): (r: Option<V>)
      ensures r.Some? <==> k in entries
      ensures r.Some? ==> r.value == entries[k]
    {
      if k in entries then Some(entries[k]) else None
    }

    /** `d[k] = v` */
    function Put(k: string, v: V): (r: Dict<V>)
      ensures r.entries == entries[k := v]
      ensures k in entries ==> r.order == order
      ensures k !in entries ==> r.order == order + [k]
      ensures Valid() ==> r.Valid()
    {
      if k in entries then Dict(order, entries[k := v]) else Dict(order + [k], entries[k := v])
    }

    /** `d.pop(k, None)` for every `k` in `ks`. */
    function RemoveAll(ks: set<string>): (r: Dict<V>)
      ensures r.entries == entries - ks
      ensures r.order == Without(order, ks)
      ensures Valid() ==> r.Valid()
    {
      Dict(Without(order, ks), entries - ks)
    }

    /** `d.pop(k, None)` */
    function Remove(k: string): (r: Dict<V>)
      ensures r.entries == entries - {k}
      ensures Valid() ==> r.Valid()
      ensures k !in entries && Valid() ==> r == this
    {
      if k in entries then RemoveAll({k}) else this
    }
  }

  function Empty<V>(): (d: Dict<V>)
    ensures d.Valid() && |d.entries| == 0
  {
    Dict([], map[])
  }

  /** `[x for x in s if x not in ks]` */
  function Without(s: seq<string>, ks: set<string>): (r: seq<string>)
    ensures forall x :: x in r <==> x in s && x !in ks
    ensures NoDup(s) ==> NoDup(r)
    ensures |r| <= |s|
    ensures (forall x :: x in s ==> x !in ks) ==> r == s
  {
    if |s| == 0 then []
    else if s[0] in ks then Without(s[1..], ks)
    else [s[0]] + Without(s[1..], ks)
  }

  /** A duplicate-free sequence has as many elements as its set. */
  lemma {:induction false} NoDupCard(s: seq<string>)
    requires NoDup(s)
    ensures |set x | x in s| == |s|
  {
    if |s| > 0 {
      var init := s[..|s| - 1];
      NoDupCard(init);
      assert (set x | x in s) == (set x | x in init) + {s[|s| - 1]};
      assert s[|s| - 1] !in init;
    }
  }

  lemma ValidLen<V>(d: Dict<V>)
    requires d.Valid()
    ensures |d.entries| == |d.order|
  {
    assert d.entries.Keys == set x | x in d.order;
    NoDupCard(d.order);
  }

  /** Removing a subset of the keys shrinks the map by exactly that many. */
  lemma RemoveCard<V>(m: map<string, V>, ks: set<string>)
    requires ks <= m.Keys
    ensures |m - ks| == |m| - |ks|
  {
    assert (m - ks).Keys == m.Keys - ks;
    assert m.Keys == (m.Keys - ks) + ks;
  }
}
