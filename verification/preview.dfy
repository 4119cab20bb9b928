/** `PreviewGenerator` (src/preview_generator.py): three id-keyed maps
    (preview pages, ZIP archives, images) behind short random ids, the URLs
    handed out for them, the resolution of an image reference back to
    bytes, and the list of entries written into a download archive.
    Template rendering, base64 decoding and ZIP encoding are parameters.
 */
module Preview {
  import opened Wrappers
  import opened Common
  import opened Text
  import Json
  import ShortId

  /** `_generate_short_id`'s default length. */
  const IdLength: nat := 8

  /** The MIME type `store_image` and plain base64 input default to. */
  const DefaultMime: string := "image/png"

  /** The marker `_get_image_bytes_from_ref` looks for. */
  const ImageMarker: string := "/image/"

  datatype Image = Image(data: Bytes, mimeType: string)

  datatype Generator = Generator(
    baseUrl: string,
    pages: map<string, string>,    // preview_id -> HTML
    zips: map<string, Bytes>,      // download_id -> ZIP bytes
    images: map<string, Image>)    // image_id -> data and MIME type

  /** A generator after storing something, and the URL handed out for it. */
  datatype Stored = Stored(gen: Generator, url: string)

  /** `base64.b64decode`: None where it raises `binascii.Error`. */
  type Decoder = string -> Option<Bytes>

  /** `__init__`: the base URL loses its trailing slashes; nothing is stored. */
  function NewGenerator(baseUrl: string): (g: Generator)
    ensures StartsWith(baseUrl, g.baseUrl)
    ensures |g.baseUrl| > 0 ==> g.baseUrl[|g.baseUrl| - 1] != '/'
    ensures forall i :: |g.baseUrl| <= i < |baseUrl| ==> baseUrl[i] == '/'
    ensures g.pages == map[] && g.zips == map[] && g.images == map[]
  {
    Generator(RStripChar(baseUrl, '/'), map[], map[], map[])
  }

  /** The `{base_url}/<kind>/{id}` URLs, with the relative form when there
      is no base URL. Both branches spell the same string. */
  function ResourceUrl(g: Generator, kind: string, id: string): (url: string)
    ensures url == g.baseUrl + "/" + kind + "/" + id
  {
    if |g.baseUrl| > 0 then g.baseUrl + "/" + kind + "/" + id
    else "/" + kind + "/" + id
  }

  // -------------------------------------------------------------------------
  // Images

  /** `store_image`: a fresh id maps to the data and MIME type, and the URL
      `{base}/image/{id}` is returned. */
  function StoreImage(g: Generator, data: Bytes, mime: string, draw: nat -> nat): (r: Stored)
    ensures var id := ShortId.Generate(IdLength, draw);
            && r.gen.images == g.images[id := Image(data, mime)]
            && r.url == g.baseUrl + ImageMarker + id
    ensures r.gen.baseUrl == g.baseUrl && r.gen.pages == g.pages && r.gen.zips == g.zips
  {
    var id := ShortId.Generate(IdLength, draw);
    Stored(g.(images := g.images[id := Image(data, mime)]), ResourceUrl(g, "image", id))
  }

  /** The MIME type of a data-URL header `data:<type>;...`:
      `header.split(":")[1].split(";")[0]`. */
  function DataUrlMime(header: string): (mime: string)
    requires StartsWith(header, "data:")
    ensures StartsWith(header[5..], mime)
    ensures ':' !in mime && ';' !in mime
    ensures |mime| < |header| - 5 ==> header[5 + |mime|] == ':' || header[5 + |mime|] == ';'
  {
    TakeUntilTwice(header[5..], ':', ';');
    TakeUntil(TakeUntil(header[5..], ':'), ';')
  }

  /** `store_base64_image`: a `data:` URL supplies its own MIME type and the
      payload after the first comma; anything else is a bare payload stored
      as PNG. A data URL without a comma, or a payload that does not decode,
      raises before anything is stored. */
  function StoreBase64Image(g: Generator, text: string, decode: Decoder, draw: nat -> nat): (r: Result<Stored>)
    ensures r.Err? ==> !StartsWith(text, "data:") || ',' !in text || decode(SplitOnce(text, ',').value.1).None?
    ensures !StartsWith(text, "data:") ==>
              r == (match decode(text)
                    case Some(bytes) => Ok(StoreImage(g, bytes, DefaultMime, draw))
                    case None => Err("binascii.Error: invalid base64"))
    ensures StartsWith(text, "data:") && ',' !in text ==> r.Err?
    ensures StartsWith(text, "data:") && ',' in text ==>
              var parts := SplitOnce(text, ',').value;
              && StartsWith(parts.0, "data:")
              && r == (match decode(parts.1)
                       case Some(bytes) => Ok(StoreImage(g, bytes, DataUrlMime(parts.0), draw))
                       case None => Err("binascii.Error: invalid base64"))
  {
    if StartsWith(text, "data:") then
      match SplitOnce(text, ',')
      case None => Err("ValueError: not enough values to unpack")
      case Some((header, data)) =>
        assert text == header + [','] + data;
        assert text[..5] == header[..5];
        var mime := DataUrlMime(header);
        match decode(data)
        case None => Err("binascii.Error: invalid base64")
        case Some(bytes) => Ok(StoreImage(g, bytes, mime, draw))
    else
      match decode(text)
      case None => Err("binascii.Error: invalid base64")
      case Some(bytes) => Ok(StoreImage(g, bytes, DefaultMime, draw))
  }

  /** A data URL keeps the MIME type its header names. */
  lemma DataUrlKeepsMime(g: Generator, mime: string, payload: string, decode: Decoder, draw: nat -> nat)
    requires ',' !in mime && ':' !in mime && ';' !in mime
    requires decode(payload).Some?
    ensures var r := StoreBase64Image(g, "data:" + mime + ";base64," + payload, decode, draw);
            r.Ok? && r.value.gen.images[ShortId.Generate(IdLength, draw)] == Image(decode(payload).value, mime)
  {
    var text := "data:" + mime + ";base64," + payload;
    DataUrlParts(mime, payload);
    var stored := StoreImage(g, decode(payload).value, mime, draw);
    assert StoreBase64Image(g, text, decode, draw) == Ok(stored);
  }

  /** How `data:<mime>;base64,<payload>` splits. */
  lemma DataUrlParts(mime: string, payload: string)
    requires ',' !in mime && ':' !in mime && ';' !in mime
    ensures var text := "data:" + mime + ";base64," + payload;
            var header := "data:" + mime + ";base64";
            && StartsWith(text, "data:")
            && SplitOnce(text, ',') == Some((header, payload))
            && StartsWith(header, "data:") && DataUrlMime(header) == mime
  {
    var text := "data:" + mime + ";base64," + payload;
    var header := "data:" + mime + ";base64";
    assert text[..5] == "data:";
    assert text == header + [','] + payload;
    TakeUntilStops(header, ',', payload);
    HeaderMime(mime);
  }

  lemma HeaderMime(mime: string)
    requires ',' !in mime && ':' !in mime && ';' !in mime
    ensures var header := "data:" + mime + ";base64";
            StartsWith(header, "data:") && DataUrlMime(header) == mime
  {
    var header := "data:" + mime + ";base64";
    var rest := mime + ";base64";
    assert StartsWith(header, "data:") by {
      assert header[..5] == "data:";
    }
    assert header[5..] == rest;
    assert TakeUntil(rest, ':') == rest by {
      assert ':' !in ";base64";
      TakeUntilStops(rest, ':', []);
    }
    assert TakeUntil(rest, ';') == mime by {
      assert rest == mime + [';'] + "base64";
      TakeUntilStops(mime, ';', "base64");
    }
  }

  /** `TakeUntil` stops at the first `c`. */
  lemma {:induction false} TakeUntilStops(head: string, c: char, tail: string)
    requires c !in head
    ensures TakeUntil(head + [c] + tail, c) == head
    ensures TakeUntil(head, c) == head
    decreases |head|
  {
    if |head| > 0 {
      assert (head + [c] + tail)[1..] == head[1..] + [c] + tail;
      TakeUntilStops(head[1..], c, tail);
    }
  }

  /** `get_image`. */
  function GetImage(g: Generator, id: string): (r: Option<Image>)
    ensures r.Some? <==> id in g.images
    ensures r.Some? ==> r.value == g.images[id]
  {
    if id in g.images then Some(g.images[id]) else None
  }

  // -------------------------------------------------------------------------
  // Resolving an image reference

  /** The id in a server image URL:
      `ref.split("/image/")[-1].split("?")[0].split("#")[0]`. */
  function RefImageId(ref: string): (id: string)
    ensures var tail := SplitLast(ref, ImageMarker);
            && EndsWith(ref, tail) && StartsWith(tail, id)
            && '?' !in id && '#' !in id
            && (|id| < |tail| ==> tail[|id|] == '?' || tail[|id|] == '#')
  {
    TakeUntilTwice(SplitLast(ref, ImageMarker), '?', '#');
    TakeUntil(TakeUntil(SplitLast(ref, ImageMarker), '?'), '#')
  }

  /** `_get_image_bytes_from_ref`, checked in the source's order: empty
      reference, server URL, data URL, bare base64. A data URL without a
      comma or with an undecodable payload raises; an undecodable bare
      payload gives None. */
  function ImageBytesFromRef(g: Generator, ref: string, decode: Decoder): (r: Result<Option<Bytes>>)
    ensures ref == [] ==> r == Ok(None)
    ensures Contains(ref, ImageMarker) ==>
              r == Ok(match GetImage(g, RefImageId(ref)) case Some(img) => Some(img.data) case None => None)
    ensures r.Err? ==> StartsWith(ref, "data:") && !Contains(ref, ImageMarker)
    ensures ref != [] && !Contains(ref, ImageMarker) && !StartsWith(ref, "data:") ==> r == Ok(decode(ref))
    ensures !Contains(ref, ImageMarker) && StartsWith(ref, "data:") && ',' !in ref ==> r.Err?
    ensures !Contains(ref, ImageMarker) && StartsWith(ref, "data:") && ',' in ref ==>
              r == (match decode(SplitOnce(ref, ',').value.1)
                    case Some(bytes) => Ok(Some(bytes))
                    case None => Err("binascii.Error: invalid base64"))
  {
    if ref == [] then Ok(None)
    else if Contains(ref, ImageMarker) then
      match GetImage(g, RefImageId(ref))
      case Some(img) => Ok(Some(img.data))
      case None => Ok(None)
    else if StartsWith(ref, "data:") then
      match SplitOnce(ref, ',')
      case None => Err("ValueError: not enough values to unpack")
      case Some((_, data)) =>
        match decode(data)
        case None => Err("binascii.Error: invalid base64")
        case Some(bytes) => Ok(Some(bytes))
    else
      Ok(decode(ref))
  }

  /** A data URL that names no server image resolves to the very bytes
      `_store_base64_image` would store for it, and raises exactly when
      storing it would. */
  lemma DataUrlResolvesAsStored(g: Generator, text: string, decode: Decoder, draw: nat -> nat)
    requires StartsWith(text, "data:") && !Contains(text, ImageMarker)
    ensures var stored := StoreBase64Image(g, text, decode, draw);
            var resolved := ImageBytesFromRef(g, text, decode);
            && (stored.Ok? <==> resolved.Ok?)
            && (stored.Ok? ==>
                  resolved.value == Some(stored.value.gen.images[ShortId.Generate(IdLength, draw)].data))
  {
  }

  /** `pat in s` */
  predicate Contains(s: string, pat: string) {
    exists i | 0 <= i <= |s| :: OccursAt(s, pat, i)
  }

  /** A reference containing `/image/` is always treated as a server URL,
      even a base64 payload that happens to contain those seven characters,
      and never raises. */
  lemma MarkerMeansLookup(g: Generator, ref: string, decode: Decoder)
    requires Contains(ref, ImageMarker)
    ensures ImageBytesFromRef(g, ref, decode).Ok?
    ensures ImageBytesFromRef(g, ref, decode).value.Some? ==> RefImageId(ref) in g.images
  {
  }

  /** The URL `store_image` hands out resolves back to the stored bytes,
      whatever the decoder, provided the base URL does not itself end in
      `/image`. */
  lemma StoreThenResolve(g: Generator, data: Bytes, mime: string, draw: nat -> nat, decode: Decoder)
    requires !EndsWith(g.baseUrl, "/image")
    ensures var s := StoreImage(g, data, mime, draw);
            ImageBytesFromRef(s.gen, s.url, decode) == Ok(Some(data))
  {
    var id := ShortId.Generate(IdLength, draw);
    var s := StoreImage(g, data, mime, draw);
    assert '/' !in id && '?' !in id && '#' !in id by {
      assert forall i :: 0 <= i < |id| ==> ShortId.IsAlnum(id[i]);
    }
    UrlGivesId(g.baseUrl, id);
    assert GetImage(s.gen, id) == Some(Image(data, mime));
  }

  /** The id read back from `base + "/image/" + id`. */
  lemma UrlGivesId(base: string, id: string)
    requires !EndsWith(base, "/image")
    requires '/' !in id && '?' !in id && '#' !in id
    ensures Contains(base + ImageMarker + id, ImageMarker)
    ensures RefImageId(base + ImageMarker + id) == id
  {
    var url := base + ImageMarker + id;
    assert OccursAt(url, ImageMarker, |base|) by {
      assert url[|base|..|base| + 7] == ImageMarker;
    }
    NoMarkerWithoutSlash(id);
    SplitLastAfterMarker(base, id);
    NoCharTakeUntil(id, '?');
    NoCharTakeUntil(id, '#');
  }

  lemma NoCharTakeUntil(s: string, c: char)
    requires c !in s
    ensures TakeUntil(s, c) == s
  {
  }

  /** What follows the marker in `x + "/image/" + y` is `y`, when `y` holds
      no marker and `x` does not end in `/image`. */
  lemma {:induction false} SplitLastAfterMarker(x: string, y: string)
    requires forall j :: !OccursAt(y, ImageMarker, j)
    requires !EndsWith(x, "/image")
    ensures SplitLast(x + ImageMarker + y, ImageMarker) == y
    decreases |x|
  {
    var u := x + ImageMarker + y;
    var n := |x|;
    assert OccursAt(u, ImageMarker, n) by {
      assert u[n..n + 7] == ImageMarker;
    }
    var i := FirstIndexOf(u, ImageMarker).value;
    if i == n {
      assert u[i + 7..] == y;
      NoMarkerSplitsWhole(y);
    } else if i + 7 <= n {
      var x' := x[i + 7..];
      assert u[i + 7..] == x' + ImageMarker + y;
      SplitLastAfterMarker(x', y);
    } else {
      NoStraddle(x, y, i);
      assert false;
    }
  }

  /** A string without `/` holds no marker. */
  lemma NoMarkerWithoutSlash(y: string)
    requires '/' !in y
    ensures forall j :: !OccursAt(y, ImageMarker, j)
  {
    forall j ensures !OccursAt(y, ImageMarker, j) {
      if 0 <= j && j + 7 <= |y| {
        assert y[j..j + 7][0] == y[j];
      }
    }
  }

  /** The marker's only border is `/`: an occurrence that starts inside `x`
      and ends inside the appended marker forces `x` to end in `/image`. */
  lemma NoStraddle(x: string, y: string, i: int)
    requires OccursAt(x + ImageMarker + y, ImageMarker, i)
    requires i < |x| < i + 7
    ensures EndsWith(x, "/image")
  {
    var u := x + ImageMarker + y;
    var n := |x|;
    var k := n - i;
    assert u[i + 6] == u[i..i + 7][6] == '/';
    assert u[i + 6] == ImageMarker[6 - k];
    assert k == 6;
    assert x[|x| - 6..] == u[i..n];
    assert u[i..n] == u[i..i + 7][..6];
  }

  /** With a base URL that ends in `/image` once (`x + "/image"`, `x` not
      itself ending in `/image`) the left-to-right split stops at the base's
      own `/image/`: the id read back is `image/<id>`, not the one stored. */
  lemma TrailingImageBaseLosesId(x: string, id: string)
    requires !EndsWith(x, "/image")
    requires '/' !in id && '?' !in id && '#' !in id
    ensures RefImageId(x + "/image" + ImageMarker + id) == "image/" + id
  {
    var rest := "image/" + id;
    SplitAfterTrailingImage(x, id);
    PlainAfterImage(id);
    NoCharTakeUntil(rest, '?');
    NoCharTakeUntil(rest, '#');
  }

  lemma SplitAfterTrailingImage(x: string, id: string)
    requires !EndsWith(x, "/image")
    requires '/' !in id
    ensures SplitLast(x + "/image" + ImageMarker + id, ImageMarker) == "image/" + id
  {
    assert x + "/image" + ImageMarker + id == x + ImageMarker + ("image/" + id);
    NoMarkerAfterImage(id);
    SplitLastAfterMarker(x, "image/" + id);
  }

  /** A string holding no marker is its own last piece. */
  lemma NoMarkerSplitsWhole(s: string)
    requires forall j :: !OccursAt(s, ImageMarker, j)
    ensures SplitLast(s, ImageMarker) == s
  {
    assert FirstIndexOf(s, ImageMarker).None?;
  }

  lemma PlainAfterImage(id: string)
    requires '?' !in id && '#' !in id
    ensures '?' !in "image/" + id && '#' !in "image/" + id
  {
    var rest := "image/" + id;
    forall i | 0 <= i < |rest| ensures rest[i] != '?' && rest[i] != '#' {
      if i >= 6 {
        assert rest[i] == id[i - 6];
      }
    }
  }

  /** `image/<id>` holds no marker when `id` holds no `/`. */
  lemma NoMarkerAfterImage(id: string)
    requires '/' !in id
    ensures forall j :: !OccursAt("image/" + id, ImageMarker, j)
  {
    var rest := "image/" + id;
    forall j ensures !OccursAt(rest, ImageMarker, j) {
      if 0 <= j && j + 7 <= |rest| {
        assert rest[j..j + 7][6] == rest[j + 6] == id[j];
      }
    }
  }

  // -------------------------------------------------------------------------
  // The download archive

  /** `emoticon.get("image_data", "")` as a reference string: a missing or
      falsy value is the empty reference; any other non-string makes the
      string operations raise. */
  function ImageDataRef(e: map<string, Json.Value>): (r: Result<string>)
    ensures "image_data" !in e ==> r == Ok("")
    ensures "image_data" in e && e["image_data"].Str? ==> r == Ok(e["image_data"].s)
    ensures "image_data" in e && !e["image_data"].Str? ==>
              && (r.Err? <==> Json.Truthy(e["image_data"]))
              && (r.Ok? ==> r.value == "")
  {
    if "image_data" !in e then Ok("")
    else match e["image_data"]
      case Str(s) => Ok(s)
      case v => if Json.Truthy(v) then Err("TypeError: image_data is not a string") else Ok("")
  }

  /** What one emoticon's reference resolves to (bytes, None, or the
      exception raised). */
  function EmoticonBytes(g: Generator, e: map<string, Json.Value>, decode: Decoder): Result<Option<Bytes>> {
    var ref :- ImageDataRef(e);
    ImageBytesFromRef(g, ref, decode)
  }

  /** The resolution of every emoticon, in list order. */
  function Resolutions(g: Generator, es: seq<map<string, Json.Value>>, decode: Decoder): (rs: seq<Result<Option<Bytes>>>)
    ensures |rs| == |es| && forall j :: 0 <= j < |es| ==> rs[j] == EmoticonBytes(g, es[j], decode)
  {
    seq(|es|, j requires 0 <= j < |es| => EmoticonBytes(g, es[j], decode))
  }

  /** `if image_bytes:` */
  predicate Written(r: Result<Option<Bytes>>) {
    r.Ok? && r.value.Some? && |r.value.value| > 0
  }

  /** `f"emoticon_{idx:02d}.{file_format}"` */
  function EntryName(idx: nat, format: string): string {
    "emoticon_" + Pad2(idx) + "." + format
  }

  const IconEntry: string := "icon.png"

  /** `items` lists, in increasing index order, an (index, bytes) pair for
      references in `rs` numbered from `from`, each one non-empty bytes. */
  ghost predicate Numbered(rs: seq<Result<Option<Bytes>>>, from: nat, items: seq<(nat, Bytes)>) {
    && |items| <= |rs|
    && (forall k :: 0 <= k < |items| ==>
          && from <= items[k].0 < from + |rs|
          && rs[items[k].0 - from] == Ok(Some(items[k].1))
          && |items[k].1| > 0)
    && (forall k, l :: 0 <= k < l < |items| ==> items[k].0 < items[l].0)
  }

  /** Every reference of `rs` that resolves to non-empty bytes has its
      (index, bytes) pair in `items`. */
  ghost predicate Complete(rs: seq<Result<Option<Bytes>>>, from: nat, items: seq<(nat, Bytes)>) {
    forall j :: 0 <= j < |rs| && Written(rs[j]) ==> (from + j, rs[j].value.value) in items
  }

  /** The loop `for idx, emoticon in enumerate(emoticons, 1)` over resolved
      references `rs`, numbered from `from`: an (index, bytes) pair for each
      non-empty resolution, in order. The first exception aborts the whole
      archive. */
  function Items(rs: seq<Result<Option<Bytes>>>, from: nat): (r: Result<seq<(nat, Bytes)>>)
    ensures r.Ok? <==> forall j :: 0 <= j < |rs| ==> rs[j].Ok?
    ensures r.Ok? ==> Numbered(rs, from, r.value)
    ensures r.Ok? ==> Complete(rs, from, r.value)
    decreases |rs|
  {
    if |rs| == 0 then Ok([])
    else
      match rs[0]
      case Err(e) => Err(e)
      case Ok(first) =>
        AllOkCons(rs);
        match Items(rs[1..], from + 1)
        case Err(e) => Err(e)
        case Ok(rest) =>
          NumberedCons(rs, from, rest);
          CompleteCons(rs, from, rest);
          Ok(if Written(rs[0]) then [(from, first.value)] + rest else rest)
  }

  /** With the head resolved, the whole list resolves iff its tail does. */
  lemma AllOkCons(rs: seq<Result<Option<Bytes>>>)
    requires |rs| > 0 && rs[0].Ok?
    ensures (forall j :: 0 <= j < |rs| ==> rs[j].Ok?) <==> (forall j :: 0 <= j < |rs[1..]| ==> rs[1..][j].Ok?)
  {
    assert forall j :: 1 <= j < |rs| ==> rs[j] == rs[1..][j - 1];
  }

  /** Numbering the tail from `from + 1` and putting the head's entry, if
      any, in front numbers the whole list from `from`. */
  lemma NumberedCons(rs: seq<Result<Option<Bytes>>>, from: nat, rest: seq<(nat, Bytes)>)
    requires |rs| > 0 && rs[0].Ok? && Numbered(rs[1..], from + 1, rest)
    ensures Numbered(rs, from, if Written(rs[0]) then [(from, rs[0].value.value)] + rest else rest)
  {
    NumberedShift(rs, from, rest);
    if Written(rs[0]) {
      NumberedPrepend(rs, from, rs[0].value.value, rest);
    }
  }

  lemma CompleteCons(rs: seq<Result<Option<Bytes>>>, from: nat, rest: seq<(nat, Bytes)>)
    requires |rs| > 0 && rs[0].Ok? && Complete(rs[1..], from + 1, rest)
    ensures Complete(rs, from, if Written(rs[0]) then [(from, rs[0].value.value)] + rest else rest)
  {
    var items := if Written(rs[0]) then [(from, rs[0].value.value)] + rest else rest;
    forall j | 0 <= j < |rs| && Written(rs[j]) ensures (from + j, rs[j].value.value) in items {
      if j > 0 {
        assert rs[1..][j - 1] == rs[j];
        assert (from + 1 + (j - 1), rs[1..][j - 1].value.value) in rest;
      }
    }
  }

  lemma NumberedShift(rs: seq<Result<Option<Bytes>>>, from: nat, rest: seq<(nat, Bytes)>)
    requires |rs| > 0 && Numbered(rs[1..], from + 1, rest)
    ensures Numbered(rs, from, rest) && |rest| < |rs|
    ensures forall k :: 0 <= k < |rest| ==> from < rest[k].0
  {
    forall k | 0 <= k < |rest|
      ensures from < rest[k].0 < from + |rs|
      ensures rs[rest[k].0 - from] == Ok(Some(rest[k].1))
    {
      assert rs[1..][rest[k].0 - (from + 1)] == rs[rest[k].0 - from];
    }
  }

  lemma NumberedPrepend(rs: seq<Result<Option<Bytes>>>, from: nat, b: Bytes, rest: seq<(nat, Bytes)>)
    requires |rs| > 0 && rs[0] == Ok(Some(b)) && |b| > 0
    requires Numbered(rs, from, rest) && |rest| < |rs|
    requires forall k :: 0 <= k < |rest| ==> from < rest[k].0
    ensures Numbered(rs, from, [(from, b)] + rest)
  {
    var items := [(from, b)] + rest;
    assert forall k :: 0 < k < |items| ==> items[k] == rest[k - 1];
    forall k, l | 0 <= k < l < |items| ensures items[k].0 < items[l].0 {
      if k > 0 {
        assert items[k] == rest[k - 1] && items[l] == rest[l - 1];
      }
    }
  }

  function IconBytes(g: Generator, icon: Option<string>, decode: Decoder): (r: Result<Option<Bytes>>)
    ensures icon.None? || icon == Some([]) ==> r == Ok(None)
    ensures r.Ok? && r.value.Some? ==> |r.value.value| > 0
    ensures icon.Some? && |icon.value| > 0 ==>
              var resolved := ImageBytesFromRef(g, icon.value, decode);
              && (r.Err? <==> resolved.Err?)
              && (r.Ok? ==> r.value == (if resolved.value.Some? && |resolved.value.value| > 0
                                        then resolved.value else None))
  {
    if icon.Some? && |icon.value| > 0 then
      var bytes :- ImageBytesFromRef(g, icon.value, decode);
      Ok(if bytes.Some? && |bytes.value| > 0 then bytes else None)
    else Ok(None)
  }

  /** `_create_zip`'s entry list: numbered emoticon files in list order,
      then `icon.png` when the icon resolves to non-empty bytes. */
  function ZipEntries(g: Generator, es: seq<map<string, Json.Value>>, icon: Option<string>, format: string, decode: Decoder)
    : (r: Result<seq<(string, Bytes)>>)
    ensures r.Ok? <==> Items(Resolutions(g, es, decode), 1).Ok? && IconBytes(g, icon, decode).Ok?
    ensures r.Ok? ==>
              var items := Items(Resolutions(g, es, decode), 1).value;
              var iconBytes := IconBytes(g, icon, decode).value;
              && |r.value| == |items| + (if iconBytes.Some? then 1 else 0)
              && (forall k :: 0 <= k < |items| ==> r.value[k] == (EntryName(items[k].0, format), items[k].1))
              && (iconBytes.Some? ==> r.value[|items|] == (IconEntry, iconBytes.value))
    ensures r.Ok? ==> forall k :: 0 <= k < |r.value| ==> |r.value[k].1| > 0
  {
    var items :- Items(Resolutions(g, es, decode), 1);
    var iconBytes :- IconBytes(g, icon, decode);
    var files := seq(|items|, k requires 0 <= k < |items| => (EntryName(items[k].0, format), items[k].1));
    Ok(if iconBytes.Some? then files + [(IconEntry, iconBytes.value)] else files)
  }

  /** No two entries of an archive share a name, so no entry shadows another. */
  lemma EntryNamesDistinct(g: Generator, es: seq<map<string, Json.Value>>, icon: Option<string>, format: string, decode: Decoder)
    requires ZipEntries(g, es, icon, format, decode).Ok?
    ensures var entries := ZipEntries(g, es, icon, format, decode).value;
            forall k, l :: 0 <= k < l < |entries| ==> entries[k].0 != entries[l].0
  {
    var entries := ZipEntries(g, es, icon, format, decode).value;
    var items := Items(Resolutions(g, es, decode), 1).value;
    NamesDistinct(items, entries, format);
  }

  /** Every emoticon whose reference resolves to non-empty bytes is in the
      archive, named after its 1-based position in the list. */
  lemma EveryResolvedEmoticonListed(g: Generator, es: seq<map<string, Json.Value>>, icon: Option<string>, format: string,
                                    decode: Decoder, j: nat)
    requires ZipEntries(g, es, icon, format, decode).Ok?
    requires j < |es| && Written(EmoticonBytes(g, es[j], decode))
    ensures (EntryName(j + 1, format), EmoticonBytes(g, es[j], decode).value.value)
              in ZipEntries(g, es, icon, format, decode).value
  {
    var rs := Resolutions(g, es, decode);
    var items := Items(rs, 1).value;
    var entries := ZipEntries(g, es, icon, format, decode).value;
    var b := EmoticonBytes(g, es[j], decode).value.value;
    assert rs[j] == EmoticonBytes(g, es[j], decode);
    assert (1 + j, b) in items;
    var k :| 0 <= k < |items| && items[k] == (1 + j, b);
    assert entries[k] == (EntryName(j + 1, format), b);
  }

  /** Entries named after increasing indices, optionally followed by the
      icon, have pairwise different names. */
  lemma NamesDistinct(items: seq<(nat, Bytes)>, entries: seq<(string, Bytes)>, format: string)
    requires forall k, l :: 0 <= k < l < |items| ==> items[k].0 < items[l].0
    requires |items| <= |entries| <= |items| + 1
    requires forall k :: 0 <= k < |items| ==> entries[k].0 == EntryName(items[k].0, format)
    requires |entries| > |items| ==> entries[|items|].0 == IconEntry
    ensures forall k, l :: 0 <= k < l < |entries| ==> entries[k].0 != entries[l].0
  {
    forall k, l | 0 <= k < l < |entries|
      ensures entries[k].0 != entries[l].0
    {
      if l < |items| {
        EntryNameInjective(items[k].0, items[l].0, format);
      } else {
        EntryNameNotIcon(items[k].0, format);
      }
    }
  }

  lemma EntryNameNotIcon(idx: nat, format: string)
    ensures EntryName(idx, format) != IconEntry
  {
    assert EntryName(idx, format)[0] == 'e' != IconEntry[0];
  }

  /** Different indices give different file names. */
  lemma EntryNameInjective(a: nat, b: nat, format: string)
    ensures EntryName(a, format) == EntryName(b, format) <==> a == b
  {
    if EntryName(a, format) == EntryName(b, format) {
      var pa, pb := Pad2(a), Pad2(b);
      assert EntryName(a, format) == "emoticon_" + (pa + "." + format);
      assert EntryName(b, format) == "emoticon_" + (pb + "." + format);
      assert pa + "." + format == EntryName(a, format)[9..];
      assert pb + "." + format == EntryName(b, format)[9..];
      NamePrefixDetermined(pa, pb, format);
      Pad2Injective(a, b);
    }
  }

  /** Two digit strings followed by `"." + format` are equal when the
      whole strings are. */
  lemma NamePrefixDetermined(a: string, b: string, format: string)
    requires forall i :: 0 <= i < |a| ==> IsDigit(a[i])
    requires forall i :: 0 <= i < |b| ==> IsDigit(b[i])
    requires a + "." + format == b + "." + format
    ensures a == b
  {
    if |a| < |b| {
      assert false;
    } else if |b| < |a| {
      assert false;
    } else {
      assert a == (a + "." + format)[..|a|];
    }
  }

  /** `_create_zip`: the archive's bytes, produced by the encoder `zip` from
      the entry list. */
  function CreateZip(g: Generator, es: seq<map<string, Json.Value>>, icon: Option<string>, format: string,
                     decode: Decoder, zip: seq<(string, Bytes)> -> Bytes): (r: Result<Bytes>)
    ensures r.Ok? <==> ZipEntries(g, es, icon, format, decode).Ok?
    ensures r.Ok? ==> r.value == zip(ZipEntries(g, es, icon, format, decode).value)
  {
    var entries :- ZipEntries(g, es, icon, format, decode);
    Ok(zip(entries))
  }

  // -------------------------------------------------------------------------
  // Pages

  /** `generate_before_preview`: the rendered page under a fresh id, and its
      URL `{base}/preview/{id}`. */
  function GenerateBeforePreview(g: Generator, html: string, draw: nat -> nat): (r: Stored)
    ensures var id := ShortId.Generate(IdLength, draw);
            && r.gen.pages == g.pages[id := html]
            && r.url == g.baseUrl + "/preview/" + id
    ensures r.gen.baseUrl == g.baseUrl && r.gen.zips == g.zips && r.gen.images == g.images
  {
    var id := ShortId.Generate(IdLength, draw);
    Stored(g.(pages := g.pages[id := html]), ResourceUrl(g, "preview", id))
  }

  datatype AfterPreview = AfterPreview(gen: Generator, previewUrl: string, downloadUrl: string)

  /** `generate_after_preview`: the archive is built first (an exception
      leaves the generator unchanged) and stored under a fresh download id;
      the page, rendered with the download URL, goes under a second id. */
  function GenerateAfterPreview(g: Generator, es: seq<map<string, Json.Value>>, icon: Option<string>, format: string,
                                decode: Decoder, zip: seq<(string, Bytes)> -> Bytes, render: string -> string,
                                drawDownload: nat -> nat, drawPreview: nat -> nat): (r: Result<AfterPreview>)
    ensures r.Ok? <==> CreateZip(g, es, icon, format, decode, zip).Ok?
    ensures r.Ok? ==>
              var downloadId := ShortId.Generate(IdLength, drawDownload);
              var previewId := ShortId.Generate(IdLength, drawPreview);
              && r.value.downloadUrl == g.baseUrl + "/download/" + downloadId
              && r.value.previewUrl == g.baseUrl + "/preview/" + previewId
              && r.value.gen.zips == g.zips[downloadId := CreateZip(g, es, icon, format, decode, zip).value]
              && r.value.gen.pages == g.pages[previewId := render(r.value.downloadUrl)]
              && r.value.gen.images == g.images && r.value.gen.baseUrl == g.baseUrl
  {
    var downloadId := ShortId.Generate(IdLength, drawDownload);
    var archive :- CreateZip(g, es, icon, format, decode, zip);
    var withZip := g.(zips := g.zips[downloadId := archive]);
    var downloadUrl := ResourceUrl(g, "download", downloadId);
    var page := GenerateBeforePreview(withZip, render(downloadUrl), drawPreview);
    Ok(AfterPreview(page.gen, page.url, downloadUrl))
  }

  /** `get_preview_html` / `get_download_zip`: plain lookups. */
  function GetPreviewHtml(g: Generator, id: string): (r: Option<string>)
    ensures r.Some? <==> id in g.pages
    ensures r.Some? ==> r.value == g.pages[id]
  {
    if id in g.pages then Some(g.pages[id]) else None
  }

  function GetDownloadZip(g: Generator, id: string): (r: Option<Bytes>)
    ensures r.Some? <==> id in g.zips
    ensures r.Some? ==> r.value == g.zips[id]
  {
    if id in g.zips then Some(g.zips[id]) else None
  }

  /** The URLs `generate_after_preview` returns end in ids under which the
      page and the archive can be fetched. */
  lemma AfterPreviewServesBoth(g: Generator, es: seq<map<string, Json.Value>>, icon: Option<string>, format: string,
                               decode: Decoder, zip: seq<(string, Bytes)> -> Bytes, render: string -> string,
                               drawDownload: nat -> nat, drawPreview: nat -> nat)
    requires CreateZip(g, es, icon, format, decode, zip).Ok?
    ensures var r := GenerateAfterPreview(g, es, icon, format, decode, zip, render, drawDownload, drawPreview).value;
            var downloadId := ShortId.Generate(IdLength, drawDownload);
            var previewId := ShortId.Generate(IdLength, drawPreview);
            && GetDownloadZip(r.gen, downloadId) == Some(CreateZip(g, es, icon, format, decode, zip).value)
            && GetPreviewHtml(r.gen, previewId) == Some(render(r.downloadUrl))
  {
  }
}
