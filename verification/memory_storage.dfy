/** `MemoryStorage` (src/redis_client.py): the in-process fallback store.

    Two dicts, key -> bytes and key -> expiry instant, with lazy expiry on
    single-key reads, a purge of expired keys before every write and before
    listing, and a capacity rule that runs before the value is inserted.
    The asyncio lock only serialises calls; each operation here is one
    atomic step from a store to an `Answer` (the new store and the value
    returned).
 */
module MemoryStorage {
  import opened Wrappers
  import opened Common
  import opened OrderedDict
  import Text

  const MaxItems: nat := 1000

  datatype Store = Store(data: Dict<Bytes>, expiry: Dict<Instant>)

  /** The result of one operation: the store after it and its return value. */
  datatype Answer<T> = Answer(store: Store, value: T)

  /** Both fields are real dicts. */
  ghost predicate WellFormed(s: Store) {
    s.data.Valid() && s.expiry.Valid()
  }

  /** Every key with an expiry also holds a value. */
  ghost predicate Inv(s: Store) {
    s.expiry.entries.Keys <= s.data.entries.Keys
  }

  /** The number of stored values, `len(self._data)`. */
  function Size(s: Store): nat {
    |s.data.entries|
  }

  function New(): (s: Store)
    ensures WellFormed(s) && Inv(s) && Size(s) == 0
  {
    Store(OrderedDict.Empty(), OrderedDict.Empty())
  }

  /** The key carries an expiry that lies strictly before `now`. */
  predicate Expired(s: Store, k: string, now: Instant) {
    k in s.expiry.entries && s.expiry.entries[k] < now
  }

  // -------------------------------------------------------------------------
  // _cleanup_expired

  function ExpiredKeys(s: Store, now: Instant): (dead: set<string>)
    ensures forall k :: k in dead <==> Expired(s, k, now)
  {
    set k | k in s.expiry.entries && s.expiry.entries[k] < now
  }

  /** `_cleanup_expired`: drops every expired key from both dicts and
      touches nothing else. */
  function CleanupExpired(s: Store, now: Instant): (r: Store)
    ensures WellFormed(s) ==> WellFormed(r)
    ensures Inv(s) ==> Inv(r)
    ensures forall k :: k in r.data.entries <==> k in s.data.entries && !Expired(s, k, now)
    ensures forall k :: k in r.expiry.entries <==> k in s.expiry.entries && !Expired(s, k, now)
    ensures forall k :: k in r.data.entries ==> r.data.entries[k] == s.data.entries[k]
    ensures forall k :: k in r.expiry.entries ==> now <= r.expiry.entries[k] == s.expiry.entries[k]
    ensures r.data.order == Without(s.data.order, ExpiredKeys(s, now))
  {
    var dead := ExpiredKeys(s, now);
    Store(s.data.RemoveAll(dead), s.expiry.RemoveAll(dead))
  }

  // -------------------------------------------------------------------------
  // _enforce_max_items

  ghost predicate SortedByExpiry(ks: seq<string>, exp: map<string, Instant>)
    requires forall k :: k in ks ==> k in exp
  {
    forall i, j :: 0 <= i < j < |ks| ==> exp[ks[i]] <= exp[ks[j]]
  }

  /** One step of a stable insertion sort: `k` goes after every key whose
      expiry is not later than its own. */
  function InsertByExpiry(sorted: seq<string>, k: string, exp: map<string, Instant>): (r: seq<string>)
    requires k in exp && forall x :: x in sorted ==> x in exp
    requires SortedByExpiry(sorted, exp)
    ensures forall x :: x in r <==> x in sorted || x == k
    ensures multiset(r) == multiset(sorted) + multiset{k}
    ensures SortedByExpiry(r, exp)
  {
    if |sorted| == 0 then [k]
    else
      var last := sorted[|sorted| - 1];
      var init := sorted[..|sorted| - 1];
      assert sorted == init + [last];
      if exp[last] <= exp[k] then
        AppendSorted(sorted, k, exp);
        sorted + [k]
      else
        var rest := InsertByExpiry(init, k, exp);
        assert forall x :: x in init ==> exp[x] <= exp[last];
        assert forall x :: x in rest ==> exp[x] <= exp[last];
        AppendSorted(rest, last, exp);
        assert multiset(sorted) == multiset(init) + multiset{last};
        rest + [last]
  }

  lemma AppendSorted(ks: seq<string>, k: string, exp: map<string, Instant>)
    requires k in exp && forall x :: x in ks ==> x in exp
    requires SortedByExpiry(ks, exp)
    requires forall x :: x in ks ==> exp[x] <= exp[k]
    ensures SortedByExpiry(ks + [k], exp)
  {
    var r := ks + [k];
    forall i, j | 0 <= i < j < |r|
      ensures exp[r[i]] <= exp[r[j]]
    {
      if j == |ks| {
        assert r[i] in ks;
      } else {
        assert r[i] == ks[i] && r[j] == ks[j];
      }
    }
  }

  /** `items.sort(key=lambda x: x[1])` over the expiry dict's items, keys
      only: a stable sort by expiry instant. */
  function SortByExpiry(ks: seq<string>, exp: map<string, Instant>): (r: seq<string>)
    requires forall x :: x in ks ==> x in exp
    ensures forall x :: x in r <==> x in ks
    ensures multiset(r) == multiset(ks)
    ensures SortedByExpiry(r, exp)
  {
    if |ks| == 0 then []
    else
      var init := ks[..|ks| - 1];
      assert ks == init + [ks[|ks| - 1]];
      InsertByExpiry(SortByExpiry(init, exp), ks[|ks| - 1], exp)
  }

  /** A permutation of a duplicate-free sequence is duplicate-free. */
  lemma {:induction false} PermutationKeepsNoDup(a: seq<string>, b: seq<string>)
    requires NoDup(a) && multiset(a) == multiset(b)
    ensures NoDup(b)
  {
    forall i, j | 0 <= i < j < |b|
      ensures b[i] != b[j]
    {
      if b[i] == b[j] {
        var x := b[i];
        assert b == b[..j] + b[j..];
        assert multiset(b)[x] == multiset(b[..j])[x] + multiset(b[j..])[x];
        assert x in b[..j] && x in b[j..];
        assert multiset(b)[x] >= 2;
        NoDupCount(a, x);
        assert false;
      }
    }
  }

  lemma {:induction false} NoDupCount(a: seq<string>, x: string)
    requires NoDup(a)
    ensures multiset(a)[x] <= 1
  {
    if |a| > 0 {
      var init := a[..|a| - 1];
      assert a == init + [a[|a| - 1]];
      assert NoDup(init);
      NoDupCount(init, x);
      assert a[|a| - 1] !in init;
    }
  }

  function Min(a: int, b: int): int {
    if a <= b then a else b
  }

  /** The keys `_enforce_max_items` removes from a store over capacity: the
      first `len(data) - MaxItems // 2` keys of the expiry dict ordered by
      expiry. */
  function Evicted(s: Store): (e: set<string>)
    requires WellFormed(s) && Size(s) > MaxItems
    ensures e <= s.expiry.entries.Keys
    ensures |e| == Min(Size(s) - MaxItems / 2, |s.expiry.entries|)
    ensures forall a, b :: a in e && b in s.expiry.entries && b !in e ==>
              s.expiry.entries[a] <= s.expiry.entries[b]
  {
    var exp := s.expiry.entries;
    var sorted := SortByExpiry(s.expiry.order, exp);
    var n := Min(Size(s) - MaxItems / 2, |sorted|);
    SortedCovers(s.expiry, sorted);
    PrefixCard(sorted, n);
    PrefixFirst(sorted, exp, n);
    set k | k in sorted[..n]
  }

  /** The sorted keys are the expiry dict's keys, each once. */
  lemma SortedCovers(d: Dict<Instant>, sorted: seq<string>)
    requires d.Valid() && multiset(sorted) == multiset(d.order)
    ensures NoDup(sorted) && |sorted| == |d.entries|
    ensures forall k :: k in sorted <==> k in d.entries
  {
    PermutationKeepsNoDup(d.order, sorted);
    ValidLen(d);
    assert |sorted| == |d.order| by {
      assert |multiset(sorted)| == |multiset(d.order)|;
    }
    forall k ensures k in sorted <==> k in d.entries {
      assert k in sorted <==> k in multiset(sorted);
      assert k in d.order <==> k in multiset(d.order);
    }
  }

  /** The first `n` of distinct keys are `n` keys. */
  lemma PrefixCard(ks: seq<string>, n: nat)
    requires NoDup(ks) && n <= |ks|
    ensures |set k | k in ks[..n]| == n
  {
    assert NoDup(ks[..n]);
    NoDupCard(ks[..n]);
  }

  /** In a sorted sequence, a key of the first `n` expires no later than
      any key outside them. */
  lemma PrefixFirst(ks: seq<string>, exp: map<string, Instant>, n: nat)
    requires forall k :: k in ks ==> k in exp
    requires SortedByExpiry(ks, exp) && n <= |ks|
    ensures forall a, b :: a in ks[..n] && b in ks && b !in ks[..n] ==> exp[a] <= exp[b]
  {
    assert forall j :: 0 <= j < n ==> ks[..n][j] == ks[j];
    forall a, b | a in ks[..n] && b in ks && b !in ks[..n] ensures exp[a] <= exp[b] {
      var i :| 0 <= i < n && ks[i] == a;
      var j :| 0 <= j < |ks| && ks[j] == b;
    }
  }

  /** `_enforce_max_items`: a no-op up to `MaxItems` values; above it, only
      keys that carry an expiry are removed, earliest expiry first, at most
      `len(data) - MaxItems // 2` of them. */
  function EnforceMaxItems(s: Store): (r: Store)
    requires WellFormed(s)
    ensures WellFormed(r)
    ensures Inv(s) ==> Inv(r)
    ensures Size(s) <= MaxItems ==> r == s
    ensures Size(s) > MaxItems ==>
              && r.data.entries == s.data.entries - Evicted(s)
              && r.expiry.entries == s.expiry.entries - Evicted(s)
    ensures forall k :: k in s.data.entries && k !in s.expiry.entries ==> k in r.data.entries
    ensures forall k :: k in r.data.entries ==> k in s.data.entries && r.data.entries[k] == s.data.entries[k]
    ensures forall k :: k in r.expiry.entries ==> k in s.expiry.entries && r.expiry.entries[k] == s.expiry.entries[k]
  {
    if Size(s) <= MaxItems then s
    else
      var e := Evicted(s);
      Store(s.data.RemoveAll(e), s.expiry.RemoveAll(e))
  }

  /** When every value carries an expiry, eviction brings an over-full store
      down to exactly half the capacity. */
  lemma EnforceHalvesWhenAllExpire(s: Store)
    requires WellFormed(s) && s.expiry.entries.Keys == s.data.entries.Keys
    requires Size(s) > MaxItems
    ensures Size(EnforceMaxItems(s)) == MaxItems / 2
  {
    var e := Evicted(s);
    assert |s.expiry.entries| == Size(s);
    RemoveCard(s.data.entries, e);
  }

  // -------------------------------------------------------------------------
  // get / set / delete / exists / keys

  /** `get`: an expired key is removed from both dicts and reads as None;
      otherwise the stored value, if any, is returned and nothing changes. */
  function Get(s: Store, key: string, now: Instant): (r: Answer<Option<Bytes>>)
    requires WellFormed(s)
    ensures WellFormed(r.store)
    ensures Inv(s) ==> Inv(r.store)
    ensures r.value.Some? <==> key in s.data.entries && !Expired(s, key, now)
    ensures r.value.Some? ==> r.value.value == s.data.entries[key]
    ensures !Expired(s, key, now) ==> r.store == s
    ensures Expired(s, key, now) ==>
              && r.store.data.entries == s.data.entries - {key}
              && r.store.expiry.entries == s.expiry.entries - {key}
  {
    if key in s.expiry.entries && s.expiry.entries[key] < now then
      Answer(Store(s.data.Remove(key), s.expiry.Remove(key)), None)
    else
      Answer(s, s.data.Get(key))
  }

  /** `exists`: same lazy expiry as `get`, then data-dict membership. */
  function Exists(s: Store, key: string, now: Instant): (r: Answer<bool>)
    requires WellFormed(s)
    ensures WellFormed(r.store)
    ensures Inv(s) ==> Inv(r.store)
    ensures r.value <==> key in s.data.entries && !Expired(s, key, now)
    ensures r.store == Get(s, key, now).store
  {
    if key in s.expiry.entries && s.expiry.entries[key] < now then
      Answer(Store(s.data.Remove(key), s.expiry.Remove(key)), false)
    else
      Answer(s, key in s.data.entries)
  }

  /** `if ttl:` in `set`: None and 0 both make the key permanent. */
  predicate HasTtl(ttl: Option<int>) {
    ttl.Some? && ttl.value != 0
  }

  /** What `set` does before it writes: drop expired keys, then apply the
      capacity rule. Survivors keep their values and expiries, none of them
      is expired, and no permanent key is lost. */
  function Purge(s: Store, now: Instant): (r: Store)
    requires WellFormed(s)
    ensures WellFormed(r)
    ensures Inv(s) ==> Inv(r)
    ensures forall k :: k in r.data.entries ==>
              k in s.data.entries && r.data.entries[k] == s.data.entries[k] && !Expired(s, k, now)
    ensures forall k :: k in r.expiry.entries ==>
              k in s.expiry.entries && r.expiry.entries[k] == s.expiry.entries[k]
    ensures forall k :: k in r.data.entries && k in s.expiry.entries ==> k in r.expiry.entries
    ensures forall k :: k in s.data.entries && k !in s.expiry.entries ==> k in r.data.entries
  {
    EnforceMaxItems(CleanupExpired(s, now))
  }

  /** `set`: purge, enforce the capacity rule, then store the value; a
      truthy ttl records `now + ttl` seconds as the expiry, otherwise any
      earlier expiry of the key is dropped. Always answers True. */
  function Set(s: Store, key: string, value: Bytes, ttl: Option<int>, now: Instant): (r: Answer<bool>)
    requires WellFormed(s)
    ensures r.value
    ensures SetEffect(s, key, value, ttl, now, r.store)
  {
    var purged := Purge(s, now);
    var written := Store(purged.data.Put(key, value), SetExpiry(purged.expiry, key, ttl, now));
    SetEffectHolds(s, key, value, ttl, now, purged, written);
    Answer(written, true)
  }

  /** What `set` promises about the store `r` it leaves. */
  ghost predicate SetEffect(s: Store, key: string, value: Bytes, ttl: Option<int>, now: Instant, r: Store) {
    && WellFormed(r)
    && (Inv(s) ==> Inv(r))
    && key in r.data.entries && r.data.entries[key] == value
    && (HasTtl(ttl) ==> key in r.expiry.entries && r.expiry.entries[key] == AddSeconds(now, ttl.value))
    && (!HasTtl(ttl) ==> key !in r.expiry.entries)
    // no other key is invented, changed, or kept past its expiry
    && (forall k :: k in r.data.entries && k != key ==>
          k in s.data.entries && r.data.entries[k] == s.data.entries[k] && !Expired(s, k, now))
    && (forall k :: k in r.expiry.entries && k != key ==>
          k in s.expiry.entries && r.expiry.entries[k] == s.expiry.entries[k])
    // a surviving key keeps its expiry
    && (forall k :: k in r.data.entries && k != key && k in s.expiry.entries ==> k in r.expiry.entries)
    // permanent keys are never evicted
    && (forall k :: k in s.data.entries && k !in s.expiry.entries ==> k in r.data.entries)
  }

  lemma SetEffectHolds(s: Store, key: string, value: Bytes, ttl: Option<int>, now: Instant, purged: Store, written: Store)
    requires WellFormed(s) && purged == Purge(s, now)
    requires written == Store(purged.data.Put(key, value), SetExpiry(purged.expiry, key, ttl, now))
    ensures SetEffect(s, key, value, ttl, now, written)
  {
    assert written.data.entries == purged.data.entries[key := value];
    forall k | k in written.expiry.entries && k != key
      ensures k in s.expiry.entries && written.expiry.entries[k] == s.expiry.entries[k]
    {
      assert k in purged.expiry.entries;
    }
  }

  /** The expiry half of `set`: record `now + ttl`, or drop the key's expiry. */
  function SetExpiry(expiry: Dict<Instant>, key: string, ttl: Option<int>, now: Instant): (r: Dict<Instant>)
    ensures expiry.Valid() ==> r.Valid()
    ensures HasTtl(ttl) ==> r.entries == expiry.entries[key := AddSeconds(now, ttl.value)]
    ensures !HasTtl(ttl) ==> r.entries == expiry.entries - {key}
  {
    if HasTtl(ttl) then expiry.Put(key, AddSeconds(now, ttl.value)) else expiry.Remove(key)
  }

  /** `delete`: removes the key from both dicts and answers True. */
  function Delete(s: Store, key: string): (r: Answer<bool>)
    requires WellFormed(s)
    ensures r.value
    ensures WellFormed(r.store)
    ensures Inv(s) ==> Inv(r.store)
    ensures r.store.data.entries == s.data.entries - {key}
    ensures r.store.expiry.entries == s.expiry.entries - {key}
  {
    Answer(Store(s.data.Remove(key), s.expiry.Remove(key)), true)
  }

  /** The pattern language of `keys`: `*`, `prefix*`, or an exact key. */
  predicate Matches(pattern: string, k: string) {
    if pattern == "*" then true
    else if Text.EndsWith(pattern, "*") then Text.StartsWith(k, pattern[..|pattern| - 1])
    else k == pattern
  }

  /** `[k for k in ks if k.startswith(prefix)]` */
  function FilterPrefix(ks: seq<string>, prefix: string): (r: seq<string>)
    ensures forall k :: k in r <==> k in ks && Text.StartsWith(k, prefix)
    ensures IsSubsequence(r, ks)
    ensures NoDup(ks) ==> NoDup(r)
  {
    if |ks| == 0 then []
    else if Text.StartsWith(ks[0], prefix) then [ks[0]] + FilterPrefix(ks[1..], prefix)
    else FilterPrefix(ks[1..], prefix)
  }

  /** `[k for k in ks if k == pattern]` */
  function FilterEqual(ks: seq<string>, pattern: string): (r: seq<string>)
    ensures forall k :: k in r <==> k in ks && k == pattern
    ensures IsSubsequence(r, ks)
    ensures NoDup(ks) ==> r == (if pattern in ks then [pattern] else [])
  {
    if |ks| == 0 then []
    else if ks[0] == pattern then
      assert NoDup(ks) ==> pattern !in ks[1..];
      [ks[0]] + FilterEqual(ks[1..], pattern)
    else
      var rest := FilterEqual(ks[1..], pattern);
      assert |rest| > 0 ==> rest[0] in rest && rest[0] != ks[0];
      rest
  }

  /** `keys`: purges expired keys, then lists the live keys matching the
      pattern, each once, in insertion order. */
  function Keys(s: Store, pattern: string, now: Instant): (r: Answer<seq<string>>)
    requires WellFormed(s)
    ensures r.store == CleanupExpired(s, now)
    ensures forall k :: k in r.value <==> k in s.data.entries && !Expired(s, k, now) && Matches(pattern, k)
    ensures NoDup(r.value)
    ensures IsSubsequence(r.value, r.store.data.order)
    ensures pattern == "*" ==> r.value == r.store.data.order
    ensures !Text.EndsWith(pattern, "*") ==>
              r.value == (if pattern in r.store.data.entries then [pattern] else [])
  {
    var purged := CleanupExpired(s, now);
    var ks := purged.data.order;
    if pattern == "*" then
      SubsequenceOfItself(ks);
      Answer(purged, ks)
    else if Text.EndsWith(pattern, "*") then Answer(purged, FilterPrefix(ks, pattern[..|pattern| - 1]))
    else Answer(purged, FilterEqual(ks, pattern))
  }

  // -------------------------------------------------------------------------
  // Properties across operations

  /** Lazy expiry: a value written with a ttl of `t` seconds is returned by
      `get` until `now + t` inclusive and is gone strictly after it; without
      a ttl it never expires. */
  lemma SetThenGet(s: Store, key: string, value: Bytes, ttl: Option<int>, now: Instant, later: Instant)
    requires WellFormed(s)
    ensures var written := Set(s, key, value, ttl, now).store;
            Get(written, key, later).value ==
              if HasTtl(ttl) && AddSeconds(now, ttl.value) < later then None else Some(value)
  {
  }

  /** If every stored key carries a ttl, no `set` leaves more than
      `MaxItems + 1` values: the capacity check runs before the insertion. */
  lemma {:induction false} SetBoundedWhenAllExpire(s: Store, key: string, value: Bytes, ttl: Option<int>, now: Instant)
    requires WellFormed(s) && s.expiry.entries.Keys == s.data.entries.Keys
    ensures Size(Set(s, key, value, ttl, now).store) <= MaxItems + 1
  {
    var purged := CleanupExpired(s, now);
    assert purged.expiry.entries.Keys == purged.data.entries.Keys;
    var enforced := EnforceMaxItems(purged);
    if Size(purged) > MaxItems {
      EnforceHalvesWhenAllExpire(purged);
    }
    assert Size(enforced) <= MaxItems;
    SetStoresAfterPurge(s, key, value, ttl, now);
    PutCard(enforced.data.entries, key, value);
  }

  lemma PutCard(m: map<string, Bytes>, k: string, v: Bytes)
    ensures |m[k := v]| <= |m| + 1
  {
    if k in m {
      assert m[k := v].Keys == m.Keys;
    }
  }

  /** The capacity is not a hard bound: a store holding exactly `MaxItems`
      live values grows to `MaxItems + 1` when a new key is set. */
  lemma {:induction false} SetCanExceedCapacity(s: Store, key: string, value: Bytes, ttl: Option<int>, now: Instant)
    requires WellFormed(s)
    requires Size(CleanupExpired(s, now)) == MaxItems
    requires key !in CleanupExpired(s, now).data.entries
    ensures Size(Set(s, key, value, ttl, now).store) == MaxItems + 1
  {
    var purged := CleanupExpired(s, now);
    assert EnforceMaxItems(purged) == purged;
    var r := Set(s, key, value, ttl, now).store;
    assert r.data.entries == purged.data.entries[key := value];
  }

  /** Permanent keys are outside the eviction rule: in a store without any
      expiry, every `set` of a new key adds one value, however large the
      store already is. */
  lemma {:induction false} PermanentKeysGrowWithoutBound(s: Store, key: string, value: Bytes, now: Instant)
    requires WellFormed(s) && |s.expiry.entries| == 0
    requires key !in s.data.entries
    ensures Size(Set(s, key, value, None, now).store) == Size(s) + 1
  {
    var kept := KeptWithoutExpiry(s, now);
    SetStoresAfterPurge(s, key, value, None, now);
    assert Set(s, key, value, None, now).store.data.entries == kept[key := value];
  }

  /** Without any expiry, neither the purge nor the capacity rule removes
      a value. */
  lemma KeptWithoutExpiry(s: Store, now: Instant) returns (kept: map<string, Bytes>)
    requires WellFormed(s) && |s.expiry.entries| == 0
    ensures kept == EnforceMaxItems(CleanupExpired(s, now)).data.entries
    ensures kept.Keys == s.data.entries.Keys
  {
    var purged := PurgeWithoutExpiry(s, now);
    EnforceWithoutExpiry(purged);
    kept := EnforceMaxItems(purged).data.entries;
  }

  lemma PurgeWithoutExpiry(s: Store, now: Instant) returns (purged: Store)
    requires WellFormed(s) && |s.expiry.entries| == 0
    ensures purged == CleanupExpired(s, now) && WellFormed(purged)
    ensures purged.data.entries.Keys == s.data.entries.Keys && |purged.expiry.entries| == 0
  {
    purged := CleanupExpired(s, now);
    assert s.expiry.entries.Keys == {};
    assert purged.expiry.entries.Keys == {};
  }

  lemma EnforceWithoutExpiry(p: Store)
    requires WellFormed(p) && |p.expiry.entries| == 0
    ensures EnforceMaxItems(p).data.entries == p.data.entries
  {
    if Size(p) > MaxItems {
      assert p.expiry.entries.Keys == {};
      assert Evicted(p) == {};
    }
  }

  /** The values `set` leaves are those left by the purge and the capacity
      rule, plus the new one. */
  lemma SetStoresAfterPurge(s: Store, key: string, value: Bytes, ttl: Option<int>, now: Instant)
    requires WellFormed(s)
    ensures Set(s, key, value, ttl, now).store.data.entries ==
            EnforceMaxItems(CleanupExpired(s, now)).data.entries[key := value]
  {
  }
}
