/** `BaseStorage.get_json` / `set_json` (src/redis_client.py) over the
    in-memory backend: the JSON text layer between Python values and the
    bytes the backend stores.
 */
module JsonStorage {
  import opened Wrappers
  import opened Common
  import opened Json
  import opened MemoryStorage

  /** `get_json`: the backend's `get`, then absent/empty bytes as None,
      otherwise the decoded document (or the decoder's error). */
  function GetJson(s: Store, key: string, now: Instant, c: Codec): (r: Answer<Result<Option<Value>>>)
    requires WellFormed(s)
    ensures WellFormed(r.store)
    ensures r.store == Get(s, key, now).store
    ensures Get(s, key, now).value.None? ==> r.value == Ok(None)
    ensures Faithful(c) ==>
              forall v :: Get(s, key, now).value == Some(c.dumps(v)) ==> r.value == Ok(Some(v))
  {
    var a := Get(s, key, now);
    Answer(a.store, LoadStored(c, a.value))
  }

  /** `set_json`: encode first (a TypeError leaves the store untouched), then
      the backend's `set`. */
  function SetJson(s: Store, key: string, p: PyValue, ttl: Option<int>, now: Instant, c: Codec)
    : (r: Answer<Result<bool>>)
    requires WellFormed(s)
    ensures WellFormed(r.store)
    ensures r.value.Ok? <==> Serializable(p)
    ensures !Serializable(p) ==> r.store == s
    ensures Serializable(p) ==>
              r.value == Ok(true) && r.store == Set(s, key, c.dumps(ToJson(p).value), ttl, now).store
  {
    match Dumps(c, p)
    case Err(e) => Answer(s, Err(e))
    case Ok(bytes) =>
      var a := Set(s, key, bytes, ttl, now);
      Answer(a.store, Ok(a.value))
  }

  /** A document written with `set_json` reads back with `get_json` as the
      serialised form of the value, until the key's ttl has passed. */
  lemma SetJsonThenGetJson(s: Store, key: string, p: PyValue, ttl: Option<int>, now: Instant, later: Instant, c: Codec)
    requires WellFormed(s) && Faithful(c) && Serializable(p)
    ensures var written := SetJson(s, key, p, ttl, now, c).store;
            GetJson(written, key, later, c).value ==
              if HasTtl(ttl) && AddSeconds(now, ttl.value) < later then Ok(None)
              else Ok(Some(ToJson(p).value))
  {
    var doc := ToJson(p).value;
    SetThenGet(s, key, c.dumps(doc), ttl, now, later);
  }
}
