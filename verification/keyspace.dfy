/** Key namespaces and time-to-live configuration (src/redis_client.py):
    `DEFAULT_TTL`, `get_ttl` and the `*_key` helpers. The environment
    overrides (`REDIS_TTL_*`) are read once at import time; here they are a
    `TtlConfig` value passed in, and `Defaults()` is the table with no
    overrides.
 */
module Keyspace {
  import Text

  datatype TtlConfig = TtlConfig(task: int, preview: int, image: int, zip: int, status: int)

  /** The table when no `REDIS_TTL_*` variable is set. */
  function Defaults(): (cfg: TtlConfig)
    ensures cfg.task == 86400 && cfg.preview == 86400 && cfg.image == 86400
    ensures cfg.zip == 43200 && cfg.status == 86400
  {
    TtlConfig(86400, 86400, 86400, 43200, 86400)
  }

  /** `get_ttl`: the table entry for a known data type, the preview ttl for
      any other name. */
  function GetTtl(cfg: TtlConfig, dataType: string): (ttl: int)
    ensures dataType == "task" ==> ttl == cfg.task
    ensures dataType == "image" ==> ttl == cfg.image
    ensures dataType == "zip" ==> ttl == cfg.zip
    ensures dataType == "status" ==> ttl == cfg.status
    ensures dataType !in {"task", "image", "zip", "status"} ==> ttl == cfg.preview
  {
    if dataType == "task" then cfg.task
    else if dataType == "preview" then cfg.preview
    else if dataType == "image" then cfg.image
    else if dataType == "zip" then cfg.zip
    else if dataType == "status" then cfg.status
    else cfg.preview
  }

  /** The namespaces of the key helpers. */
  datatype Namespace = Task | Preview | Image | Zip | Status

  function Prefix(ns: Namespace): (p: string)
    ensures |p| > 0 && p[|p| - 1] == ':'
    ensures forall i :: 0 <= i < |p| - 1 ==> p[i] != ':'
  {
    match ns
    case Task => "task:"
    case Preview => "preview:"
    case Image => "image:"
    case Zip => "zip:"
    case Status => "status:"
  }

  /** `task_key`, `preview_key`, `image_key`, `zip_key`, `status_key`:
      `"<ns>:" + id`. */
  function Key(ns: Namespace, id: string): (k: string)
    ensures Text.StartsWith(k, Prefix(ns))
    ensures k[|Prefix(ns)|..] == id
  {
    Prefix(ns) + id
  }

  function TaskKey(id: string): string { Key(Task, id) }
  function PreviewKey(id: string): string { Key(Preview, id) }
  function ImageKey(id: string): string { Key(Image, id) }
  function ZipKey(id: string): string { Key(Zip, id) }
  function StatusKey(id: string): string { Key(Status, id) }

  /** Keys of different namespaces never collide, and within a namespace the
      key determines the id; so `"<ns>:*"` selects exactly one class of
      objects. */
  lemma KeysAreUnique(a: Namespace, idA: string, b: Namespace, idB: string)
    ensures Key(a, idA) == Key(b, idB) <==> a == b && idA == idB
  {
    if Key(a, idA) == Key(b, idB) {
      var ka := Key(a, idA);
      var pa := Prefix(a);
      var pb := Prefix(b);
      // the first ':' of a key ends its prefix, and the five prefixes
      // have five different lengths
      assert |pa| == |pb|;
    }
  }

  /** A key matches the listing pattern `"<ns>:*"` iff it is in that namespace. */
  lemma PrefixPatternSelectsNamespace(ns: Namespace, other: Namespace, id: string)
    ensures Text.StartsWith(Key(other, id), Prefix(ns)) <==> other == ns
  {
    var k := Key(other, id);
    if Text.StartsWith(k, Prefix(ns)) {
      KeysAreUnique(ns, k[|Prefix(ns)|..], other, id);
      assert Key(ns, k[|Prefix(ns)|..]) == k;
    }
  }
}
