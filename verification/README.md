# KakaoTalk emoticon server: storage, task registry, preview store and token resolution

This project models the stateful core of the `playmcp-kakaotalk-emoticon` MCP server in Dafny and proves properties of it. The core has four parts.

- **Storage layer** (`src/redis_client.py`):
  - the in-memory fallback store `MemoryStorage`, with lazy expiry, a purge before every write and listing, and the `MAX_ITEMS` eviction rule;
  - the retry loop of `RedisStorage` around a scripted server, with its backoff, its failure counter and client re-creation;
  - the JSON convenience layer (`get_json`, `set_json`, `_json_serializer`);
  - the ttl table and the key helpers.
- **Task registry** (`src/task_storage.py`):
  - `TaskStatus` and `GenerationTask`, with `progress_percent` and the `to_dict`/`from_dict` pair;
  - every `TaskStorage` operation, each a read of the task document followed by a rewrite.
- **Preview store** (`src/preview_generator.py`, class `PreviewGenerator`):
  - short random ids and the URLs handed out for them;
  - image storage from bytes and from base64 or data URLs;
  - resolution of an image reference back to bytes;
  - the entry list of the download archive, and the before/after preview pages.
- **Token resolution** (`server.py`): `_extract_hf_token_from_headers`, plus the precedence and error branch at the top of `generate_tool`.

Every operation is a pure function from a state to a new state and a return value. Anything the source takes from the world is a parameter:

| source uses | model takes |
|---|---|
| `datetime.now()` | `now`, in microseconds |
| `secrets.choice` | a `draw` function |
| `json.dumps`/`json.loads` | a `Codec`; `Faithful` says when they are mutual inverses |
| `base64.b64decode` | a `Decoder` |
| `k.decode('utf-8')` on KEYS replies | a `utf8` function, None where Python raises |
| the ZIP writer | a `zip` function over the entry list |
| Jinja rendering | a `render` function |
| the request headers | a `HeaderSource` |
| the `REDIS_TTL_*` and `HF_TOKEN` environment variables | a `TtlConfig` and an optional string |

Files (one module each):

- `wrappers.dfy`: Option/Result.
- `common.dfy`: bytes and instants.
- `text.dfy`: the `str` methods used.
- `ordered_dict.dfy`: an insertion-ordered dict.
- `keyspace.dfy`: ttl table and key helpers.
- `json.dfy`: JSON values, serializer, ISO timestamps.
- `memory_storage.dfy`: `MemoryStorage`.
- `json_storage.dfy`: `get_json`/`set_json` over it.
- `redis_storage.dfy`: `RedisStorage`'s retry loop and commands.
- `short_id.dfy`: random ids.
- `tasks.dfy`: `GenerationTask`.
- `task_storage.dfy`: `TaskStorage`.
- `preview.dfy`: `PreviewGenerator`.
- `bearer_token.dfy`: token resolution.

## Model

| member | source | states |
|---|---|---|
| Keyspace.Defaults | src/redis_client.py:34-40 | With no overrides, the ttl is 86400 s for task, preview, image and status, and 43200 s for zip. |
| Keyspace.GetTtl | src/redis_client.py:337-347 | Each of the five known data types gets its table entry; any other name gets the preview ttl. |
| Keyspace.Key | src/redis_client.py:351-373 | A key is the namespace prefix followed by the id, and the id can be read back after the prefix. |
| Keyspace.KeysAreUnique | src/redis_client.py:351-373 | Two keys are equal exactly when namespace and id are both equal: keys of different kinds never collide. |
| Keyspace.PrefixPatternSelectsNamespace | src/redis_client.py:351-373 | A key starts with a namespace's prefix exactly when it was made in that namespace, so `"<ns>:*"` lists one kind of object. |
| Json.Serializer | src/redis_client.py:83-90 | A datetime becomes ISO text that parses back to the same instant; an object with `.value` becomes that value; anything else is a TypeError. |
| Json.ToJson | src/redis_client.py:78-90 | Serialisation succeeds exactly when no nested object is one the serializer rejects; lists keep their length and dicts their keys. |
| Json.Dumps | src/redis_client.py:78-81 | `set_json`'s encoding fails exactly on unserialisable values; with a faithful codec, decoding the bytes yields the serialised document. |
| Json.LoadStored | src/redis_client.py:71-76 | Missing or empty bytes read as None; bytes a faithful codec produced decode to the document they encode. |
| Json.IsoRoundTrip | src/task_storage.py:53-69 | Parsing the ISO text of any instant returns that instant. |
| Json.IsoFormatInjective | src/task_storage.py:53-54 | Different instants are written as different texts. |
| JsonStorage.GetJson | src/redis_client.py:71-76 | `get_json` has the backend `get`'s effect on the store: an absent key reads as None, and stored encoded bytes read as their document. |
| JsonStorage.SetJson | src/redis_client.py:78-81 | An unserialisable value raises and leaves the store untouched; otherwise the encoded bytes are `set` with the given ttl. |
| JsonStorage.SetJsonThenGetJson | src/redis_client.py:71-81 | A document written with `set_json` reads back with `get_json` as the serialised value until its ttl has passed, then as None. |
| MemoryStorage.New | src/redis_client.py:103-106 | A new store is empty, well-formed and satisfies the invariant that every key with an expiry also holds a value. |
| MemoryStorage.ExpiredKeys | src/redis_client.py:108-114 | The expired keys are exactly those whose expiry lies strictly before now. |
| MemoryStorage.CleanupExpired | src/redis_client.py:108-117 | Exactly the expired keys leave both dicts; all other values, expiries and the insertion order of the survivors are unchanged. |
| MemoryStorage.InsertByExpiry | src/redis_client.py:128 | One step of the sort: the result holds the old keys plus the new one, as a multiset, and stays ordered by expiry. |
| MemoryStorage.SortByExpiry | src/redis_client.py:125-128 | The sort is a permutation of the expiry dict's keys, ordered by expiry instant. |
| MemoryStorage.Evicted | src/redis_client.py:124-134 | The evicted keys all carry an expiry, number `min(len(data) - 500, len(expiry))`, and none expires later than a kept key with an expiry. |
| MemoryStorage.EnforceMaxItems | src/redis_client.py:119-134 | The rule is a no-op up to 1000 values; above that it removes exactly the evicted keys, never a key without expiry, and changes no surviving value. |
| MemoryStorage.EnforceHalvesWhenAllExpire | src/redis_client.py:119-134 | When every value has an expiry, an over-full store is brought down to exactly 500 values. |
| MemoryStorage.Get | src/redis_client.py:136-144 | A value is returned exactly when the key is present and not expired. An expired key is removed from both dicts and reads as None. Otherwise the store is unchanged. |
| MemoryStorage.Exists | src/redis_client.py:164-170 | True exactly when the key holds an unexpired value, with the same lazy removal as `get`. |
| MemoryStorage.Purge | src/redis_client.py:146-149 | Before a write, every surviving key keeps its value, and keeps its expiry exactly when it had one. No survivor is expired, and no permanent key is lost. |
| MemoryStorage.Set | src/redis_client.py:146-156 | `set` always answers True. The key holds the value. A truthy ttl sets the expiry to now + ttl; otherwise the key has none. Every other key was there before, keeps its value, keeps its expiry exactly when it had one, and is not expired. Every permanent key survives. |
| MemoryStorage.SetExpiry | src/redis_client.py:152-155 | A truthy ttl records now + ttl seconds; None or 0 drops any earlier expiry of the key. |
| MemoryStorage.Delete | src/redis_client.py:158-162 | `delete` always answers True and removes the key from both dicts, and only that key. |
| MemoryStorage.FilterPrefix | src/redis_client.py:181-183 | Keeps exactly the keys that start with the prefix, in their order in the input, without duplicating any. |
| MemoryStorage.FilterEqual | src/redis_client.py:185-186 | Keeps exactly the keys equal to the pattern, as a subsequence of the input: one copy if it is present, none otherwise. |
| MemoryStorage.Keys | src/redis_client.py:172-186 | Purges expired keys, then lists exactly the live keys the pattern matches, each once, in insertion order. `*` gives every key, and an exact pattern gives at most itself. |
| MemoryStorage.SetThenGet | src/redis_client.py:136-156 | A value set with ttl t is returned by `get` up to and including now + t and is gone strictly after; without a ttl it never expires. |
| MemoryStorage.SetStoresAfterPurge | src/redis_client.py:146-153 | The values after `set` are what the purge and the capacity rule kept, plus the new value. |
| MemoryStorage.SetBoundedWhenAllExpire | src/redis_client.py:119-156 | If every stored key has a ttl, a `set` leaves at most 1001 values. |
| MemoryStorage.SetCanExceedCapacity | src/redis_client.py:119-156 | A store with exactly 1000 live values grows to 1001 on a new key, because the capacity check runs before the insert. |
| MemoryStorage.PermanentKeysGrowWithoutBound | src/redis_client.py:119-156 | In a store without expiries, every `set` of a new key without a ttl adds one value, whatever the size. |
| RedisStorage.GetClient | src/redis_client.py:210-227 | An existing client is reused unchanged; otherwise a new client is created and the error counter is reset. |
| RedisStorage.RecordFailure | src/redis_client.py:238-250 | A failure increments the counter. Once the count exceeds 5, the client is dropped and the counter reset. |
| RedisStorage.RetryFrom | src/redis_client.py:229-256 | The attempts from a given one onwards create no fewer clients and sleep at most once per remaining attempt. |
| RedisStorage.ExecuteWithRetry | src/redis_client.py:229-256 | The loop as written computes the same result, connection state, remaining script and sleeps as the recursive definition. |
| RedisStorage.FirstReplyWins | src/redis_client.py:229-256 | The first reply within three attempts is the result, after one backoff of 0.5 s, 1 s, ... per failed attempt. |
| RedisStorage.AllAttemptsRaise | src/redis_client.py:229-256 | When all three attempts raise, the result is None after sleeping 0.5 s and 1 s, with no sleep after the last attempt. |
| RedisStorage.ReplyDoesNotResetErrors | src/redis_client.py:229-237 | A successful first attempt leaves the connection state, error counter included, as it was. |
| RedisStorage.FailuresAccumulate | src/redis_client.py:229-256 | A call whose attempts all raise adds three to a counter that stays within the threshold. |
| RedisStorage.SixFailuresReconnect | src/redis_client.py:229-256 | Six consecutive failures over two calls drop the client on the sixth; the next call runs on a second client. |
| RedisStorage.SetCommandFor | src/redis_client.py:265-271 | SETEX with the ttl exactly when the ttl is truthy, plain SET otherwise, for the same key and value. |
| RedisStorage.RemoteGet | src/redis_client.py:258-263 | The stored bytes when GET ran and found the key; None otherwise. |
| RedisStorage.RemoteSet | src/redis_client.py:265-274 | True exactly when the command ran within the retry budget. |
| RedisStorage.RemoteDelete | src/redis_client.py:276-281 | True exactly when DEL ran, whatever count it replied. |
| RedisStorage.RemoteExists | src/redis_client.py:283-288 | True exactly when EXISTS ran and counted at least one key. |
| RedisStorage.RemoteKeys | src/redis_client.py:290-298 | After the retry loop: the empty list when every attempt failed. Otherwise the reply decoded key by key, in order, succeeding exactly when every key decodes; a key that is not UTF-8 raises. |
| RedisStorage.DecodeKeys | src/redis_client.py:298 | Decoding the reply succeeds exactly when every key is a `str` or decodes as UTF-8, and then gives one string per key, in order. |
| RedisStorage.TextKeysPassThrough | src/redis_client.py:298 | Keys that are already `str` come back unchanged. |
| RedisStorage.ExhaustionDegrades | src/redis_client.py:252-298 | When every attempt raises, the commands return None, False, False, False and an empty key list instead of raising. |
| ShortId.AlphabetIsAlnum | src/preview_generator.py:1720 | The alphabet has 62 characters, exactly the ASCII letters and digits. |
| ShortId.Generate | src/preview_generator.py:1710-1721 | An id has exactly the requested length and only letters and digits; its i-th character is the alphabet entry picked by the i-th draw. |
| ShortId.EveryShortIdIsDrawn | src/preview_generator.py:1710-1721 | Every alphanumeric string of the right length is produced by some sequence of draws. |
| Tasks.TagsRoundTrip | src/task_storage.py:17-22 | Parsing a tag gives back a status exactly when the tag is that status's value. |
| Tasks.RoundHalfEven | src/task_storage.py:49 | The result is within half a step of n/d, and an exact tie is broken to the even integer. |
| Tasks.RoundHalfEvenUnique | src/task_storage.py:49 | Any integer with the nearest, ties-to-even property is the rounded value. |
| Tasks.ProgressPercent | src/task_storage.py:49 | 0 without a positive total; otherwise the nearest integer to completed/total × 100. |
| Tasks.ProgressBounded | src/task_storage.py:49 | A completed count between 0 and the total gives a percentage between 0 and 100. |
| Tasks.ReadTimestamp | src/task_storage.py:61-71 | A missing or null timestamp is now; an accepted one is a string that parses to the result. |
| Tasks.ReadStatus | src/task_storage.py:74-76 | A missing status is pending; an accepted one is the string value of the result. |
| Tasks.FromDict | src/task_storage.py:57-90 | A task is only built from a dict, and its id is the dict's `task_id` string. |
| Tasks.FromDictToDict | src/task_storage.py:40-90 | Reading back the saved dict reproduces the task, every field included; the stored progress percent is ignored. |
| Tasks.ToDictFields | src/task_storage.py:40-55 | The saved dict holds every field under its name: the status as its value, optional fields as null, timestamps in ISO form, and the rounded progress percent. |
| Tasks.ToDict | src/task_storage.py:40-55 | The saved dict has exactly the twelve keys of `to_dict`. Its progress percent is an integer, within 0..100 when the count is within the total. |
| Tasks.FromDictDefaults | src/task_storage.py:25-38 | A dict with only id, type and total gives a pending task with no progress, no emoticons, no icon and no error, both timestamps now. |
| Tasks.FromDictNeedsTaskId | src/task_storage.py:79 | A dict without `task_id` is rejected. |
| Tasks.Apply | src/task_storage.py:129-182 | Each update changes only its own fields and `updated_at`. Id, type, total and `created_at` never change; error and complete force the status. |
| Tasks.NewTask | src/task_storage.py:109-119 | A new task is pending, with no progress, emoticons, icon or error, and created and updated now; its progress is 0 %. |
| Tasks.AddAll | src/task_storage.py:151-157 | Appending descriptors one by one extends the list and leaves the count, status and error alone. |
| Tasks.StaticWalkthrough | src/task_storage.py:137-174 | 32 planned, 5 added: the count stays 0; progress 5 shows 16 %; an error forces failed with its message. |
| Tasks.NoTransitionGuards | src/task_storage.py:129-182 | Any status can follow any status; completing a failed task keeps its error message. |
| TaskStorage.SaveTask | src/task_storage.py:104-107 | The task's dict form goes under `task:<its own id>` with the task ttl. |
| TaskStorage.CreateTask | src/task_storage.py:109-119 | A fresh 12-character alphanumeric id. A pending task of the given kind and total, with nothing done, an empty description, no icon or error, created now. The task is saved. |
| TaskStorage.GetTask | src/task_storage.py:121-127 | `get_task` has the `get` effect on the store; a missing key gives no task; a task is only found when bytes are stored. |
| TaskStorage.GetTaskReadsDocument | src/task_storage.py:121-127 | A stored task document reads back as the task it encodes. |
| TaskStorage.GetTaskFalsyDocument | src/task_storage.py:121-127 | A stored falsy document (null, {}, 0, "", []) reads as no task. |
| TaskStorage.Mutate | src/task_storage.py:129-182 | An update raises exactly when the read raises. Without a task nothing is written. With one, the mutated task is saved. |
| TaskStorage.UpdateTaskStatus | src/task_storage.py:129-135 | A read at the same instant sees the new status and `updated_at`, and nothing else changed. |
| TaskStorage.UpdateTaskProgress | src/task_storage.py:137-149 | A read at the same instant sees the new count and description, and nothing else changed. |
| TaskStorage.AddEmoticonTo | src/task_storage.py:151-157 | A read at the same instant sees the descriptor appended, and nothing else changed. |
| TaskStorage.SetIconOf | src/task_storage.py:159-165 | A read at the same instant sees the new icon, and nothing else changed. |
| TaskStorage.SetErrorOf | src/task_storage.py:167-174 | A read at the same instant sees a failed task with the message. |
| TaskStorage.CompleteTask | src/task_storage.py:176-182 | A read at the same instant sees a completed task, whatever its status was. |
| TaskStorage.SaveThenGet | src/task_storage.py:104-127 | A saved task reads back as itself until the task ttl has passed, and as absent afterwards. |
| TaskStorage.CreateThenGet | src/task_storage.py:109-127 | The task `create_task` returns is what `get_task` returns for its id at the same instant. |
| TaskStorage.MutateThenGet | src/task_storage.py:129-182 | After an update, the next read returns the task with exactly that update applied, until the ttl passes. |
| TaskStorage.MutateAbsentWritesNothing | src/task_storage.py:129-135 | Updating a missing task succeeds silently and adds no key. |
| TaskStorage.MutateWritesUnderStoredId | src/task_storage.py:104-135 | The save uses the id inside the document: a document under `task:a` naming task `b` is rewritten under `task:b`. `task:a`, if not evicted, keeps its old bytes. |
| Preview.NewGenerator | src/preview_generator.py:1698-1708 | The base URL loses exactly its trailing slashes, and all three stores start empty. |
| Preview.ResourceUrl | src/preview_generator.py:1739-1743 | With and without a base URL, the resource URL is `base + "/" + kind + "/" + id`. |
| Preview.StoreImage | src/preview_generator.py:1723-1743 | A fresh id maps to the data and MIME type, the URL is `base/image/<id>`, and pages and archives are untouched. |
| Preview.DataUrlMime | src/preview_generator.py:1758 | The MIME type is the longest start of the header after `data:` holding no `:` or `;`; it ends at the first of them. |
| Preview.StoreBase64Image | src/preview_generator.py:1745-1764 | A plain payload is decoded and stored as PNG. A data URL without a comma raises. Otherwise the text after the first comma is decoded and stored with the MIME type of the header before it; an undecodable payload raises before storing. |
| Preview.DataUrlKeepsMime | src/preview_generator.py:1755-1764 | `data:<mime>;base64,<payload>` stores the decoded payload under the header's MIME type. |
| Preview.GetImage | src/preview_generator.py:1766-1776 | The stored image exactly when the id is present. |
| Preview.RefImageId | src/preview_generator.py:1887 | The id is the text after the last piece the left-to-right split on `/image/` yields, cut at its first `?` or `#`. |
| Preview.ImageBytesFromRef | src/preview_generator.py:1871-1902 | Checks are made in order. An empty reference gives None. A server URL is a lookup that never raises. A data URL raises without a comma; otherwise it is the decode of the text after the first comma, raising on bad base64. Bare base64 gives its decode, or None if undecodable. |
| Preview.DataUrlResolvesAsStored | src/preview_generator.py:1893-1896 | A data URL that names no server image resolves to the bytes that storing it would keep, and raises exactly when storing it would. |
| Preview.MarkerMeansLookup | src/preview_generator.py:1885-1891 | A reference containing `/image/` is always looked up, never decoded, and never raises. |
| Preview.StoreThenResolve | src/preview_generator.py:1885-1891 | The URL `store_image` hands out resolves back to the stored bytes whenever the base URL does not end in `/image`. That is sufficient, not necessary: a base ending in `/image/image` also resolves. |
| Preview.TrailingImageBaseLosesId | src/preview_generator.py:1887 | For a base URL ending in `/image` but not in `/image/image`, the id read back is `image/<id>`, not the stored id. |
| Preview.ImageDataRef | src/preview_generator.py:1915 | A missing `image_data` is the empty reference, and a string is itself. Any other value raises exactly when it is truthy, and is the empty reference otherwise. |
| Preview.Items | src/preview_generator.py:1914-1919 | The loop succeeds exactly when every reference resolves. It lists, in increasing index order, exactly the emoticons with non-empty bytes, numbered from 1 by their position. |
| Preview.IconBytes | src/preview_generator.py:1921-1924 | A missing or empty icon contributes nothing. A non-empty icon goes through reference resolution: it raises exactly when that raises, and otherwise contributes the resolved bytes when they are non-empty. |
| Preview.ZipEntries | src/preview_generator.py:1904-1926 | The archive lists `emoticon_NN.<format>` for each written emoticon in order, then `icon.png` if the icon resolved; every entry is non-empty. |
| Preview.EntryNameInjective | src/preview_generator.py:1918 | Different indices give different file names. |
| Preview.EntryNamesDistinct | src/preview_generator.py:1913-1924 | No two entries of an archive share a name. |
| Preview.EveryResolvedEmoticonListed | src/preview_generator.py:1914-1919 | The j-th emoticon, if it resolves to non-empty bytes, is in the archive as `emoticon_<j+1>` with those bytes. |
| Preview.CreateZip | src/preview_generator.py:1904-1926 | The archive is the encoder applied to the entry list, and fails exactly when listing the entries fails. |
| Preview.GenerateBeforePreview | src/preview_generator.py:1778-1815 | The rendered page is stored under a fresh id, its URL is `base/preview/<id>`, and nothing else changes. |
| Preview.GenerateAfterPreview | src/preview_generator.py:1817-1869 | Fails exactly when the archive does. The archive goes under the download id. The page, rendered with the download URL, goes under the preview id. Images are untouched. |
| Preview.GetPreviewHtml | src/preview_generator.py:1928-1930 | The stored page exactly when the id is present. |
| Preview.GetDownloadZip | src/preview_generator.py:1932-1934 | The stored archive exactly when the id is present. |
| Preview.AfterPreviewServesBoth | src/preview_generator.py:1817-1869 | The ids in the returned URLs fetch the stored archive and the page rendered with the download URL. |
| BearerToken.AuthorizationHeader | server.py:33-37 | The value of the first header whose lower-cased name is `authorization`, if any header matches. |
| BearerToken.ExtractToken | server.py:22-46 | A token exactly when headers are available and the first authorization value starts with `bearer ` in any case. The token is the rest, stripped. |
| BearerToken.ResolveToken | server.py:176 | A non-empty header token wins; a missing or empty one falls through to the parameter. |
| BearerToken.GenerateToolAuth | server.py:176-184 | The error comes back exactly when the header token, the parameter and `HF_TOKEN` are all missing or empty. Otherwise generation gets the header token if non-empty, else the parameter. |
| BearerToken.Precedence | server.py:175-176 | A bearer header with a non-blank token decides the call, whatever follows it; without headers a given parameter is used. |
| BearerToken.BlankBearerFallsThrough | server.py:39-40 | A bearer value with only blanks after the scheme yields the empty token, which falls through to the parameter. |
| BearerToken.FirstAuthorizationHeaderWins | server.py:33-40 | If the first authorization header is not bearer, later ones are never consulted. |
| BearerToken.HeaderNameCaseInsensitive | server.py:35 | A header name selects the authorization header exactly when it spells `authorization` with any of its letters in upper case. |

## Left out

- Concurrency:
  - the `asyncio.Lock`s are not modelled; each operation is one atomic step.
  - two interleaved task updates can lose one write, which a one-call-at-a-time model does not show.
- `close()` on both storages and the `get_storage` singleton are left out. They choose or release a backend and hold no logic the model needs.
- Environment:
  - the `REDIS_TTL_*` overrides are a `TtlConfig` parameter;
  - `REDIS_URL` only chooses the backend;
  - `HF_TOKEN` is an optional-string parameter.
- Redis server, network and client:
  - the server is a script of per-attempt outcomes;
  - the pattern semantics of KEYS belong to the server and are not modelled;
  - `print` of the final failure is left out.
- RedisStorage.GetClient: creating a client cannot fail in the model. `from_url` does not connect, and a failure there would be one more raising attempt.
- The JSON layer over Redis is modelled only over `MemoryStorage`. Over Redis it is the same encoding around `RemoteGet`/`RemoteSet`.
- JSON text:
  - `json.dumps`/`json.loads` are an abstract codec; the model assumes only the round trip (`Faithful`);
  - key order, `ensure_ascii` and UTF-8 are not modelled;
  - numbers are integers, since the stored documents hold only counts.
- Timestamps:
  - `datetime` is an integer count of microseconds;
  - `isoformat`/`fromisoformat` are a signed decimal encoding with the same round-trip and injectivity properties, not the calendar layout;
  - `created_at` and `updated_at` of a new task share one instant, where the source calls `datetime.now()` twice.
- MemoryStorage.SetExpiry: `datetime.now() + timedelta(seconds=ttl)` raises OverflowError when the result leaves datetime's range. Instants are unbounded here, so that error is not modelled.
- MemoryStorage.Set: for the same reason, the overflow case is not modelled. In the source it raises after the value is stored, keeping the key's old expiry.
- MemoryStorage.Evicted: the contract does not say which keys go when several share the expiry at the cut. The source takes them in expiry-dict order, because Python's sort is stable. The model's insertion sort is stable too, but stability is not proved.
- Tasks.ProgressPercent rounds the exact quotient half to even. Python rounds the float `completed / total * 100`, whose binary error can move an exact tie (for example 12.5) to either side.
- Tasks.FromDict:
  - a present field of the wrong JSON type is an error. `from_dict` would store such a value in the dataclass unchecked. A non-string, non-null timestamp or status is kept as is, which is unsound for a typed record.
  - a status string that is not a `TaskStatus` value raises ValueError, as in the source.
- Text: `str.lower()` and `str.strip()` are modelled for ASCII only; Unicode case mapping and Unicode whitespace are not.
- Request headers are a `HeaderSource` parameter: the pairs `get_http_headers()` returns, in dict order, or its failure. The framework's own header handling is not part of this model.
- Preview pages:
  - the HTML templates, `get_emoticon_spec`, `EMOTICON_TYPE_NAMES` and the lower-cased spec format are not modelled;
  - the page is the result of a `render` parameter and the file format is a `format` parameter;
  - an unknown emoticon type, which raises in the spec lookup before anything is stored, is not modelled.
- Base64 decoding and ZIP writing are the `decode` and `zip` parameters. The archive is specified by its entry list, which is what the loop decides.
- The HTTP routes, the other MCP tools, the generation pipeline called by `generate_tool` and the request models are not part of this model.
