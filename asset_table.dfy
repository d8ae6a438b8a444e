/**
 * util/html.ts, `imgSrc`: the shared table of embedded images, keyed by URL.
 *
 * The EPub object's `images` array is the field `images` of class
 * ImageTable; `imgSrc` is its method ImgSrc (a linear search, then a push).
 * The two MIME helpers of the mimetypes package are supplied as function
 * values. The id of a new entry is `uuid()` computed from random draws that
 * depend on the number of entries already in the table (IdStream).
 */
module AssetTable {
  import opened Wrappers
  import opened Other

  /** What `extensionsFromMimetype` answers: nothing, one string, or an array. */
  datatype MimeAnswer = NoAnswer | One(value: string) | Several(values: seq<string>)

  /**
   * The two lookups of the mimetypes package. `lookup(t)` is the `type`
   * field of `lookup(t)`'s answer, when there is one.
   */
  datatype Mime = Mime(
    extensionsFromMimetype: string -> MimeAnswer,
    lookup: Option<string> -> Option<string>)

  /** One entry of the table (the `Image` type). `mediaType` is absent when the lookup gave `undefined`. */
  datatype Image = Image(url: string, id: string, extension: string, mediaType: Option<string>)

  // ---------------------------------------------------------------------------
  // The pieces of a new entry
  // ---------------------------------------------------------------------------

  /** JavaScript line terminators: `.` in a regular expression does not match them. */
  predicate IsLineTerminator(c: char) {
    c == '\n' || c == '\r' || c == 0x2028 as char || c == 0x2029 as char
  }

  /** Index of the first `c` in `s`, or `|s|` when there is none. */
  function IndexOf(s: string, c: char): (k: nat)
    ensures k <= |s|
    ensures k < |s| ==> s[k] == c
    ensures forall j :: 0 <= j < k ==> s[j] != c
  {
    if s == [] then 0
    else if s[0] == c then 0
    else 1 + IndexOf(s[1..], c)
  }

  /** Index of the first line terminator at or after `from`, or `|s|`. */
  function LineEnd(s: string, from: nat): (k: nat)
    requires from <= |s|
    ensures from <= k <= |s|
    ensures k < |s| ==> IsLineTerminator(s[k])
    ensures forall j :: from <= j < k ==> !IsLineTerminator(s[j])
    decreases |s| - from
  {
    if from == |s| || IsLineTerminator(s[from]) then from
    else LineEnd(s, from + 1)
  }

  /**
   * The query stripping before the MIME lookup (a replace of the pattern
   * `\?.*`, not global): the first `?` and everything after it up to the next
   * line terminator are removed.
   */
  function StripQuery(url: string): (r: string)
    ensures '?' !in url ==> r == url
    ensures (forall j :: 0 <= j < |url| ==> !IsLineTerminator(url[j])) ==>
      r == url[..IndexOf(url, '?')]
  {
    var q := IndexOf(url, '?');
    if q == |url| then url else url[..q] + url[LineEnd(url, q)..]
  }

  /** `_m = extensionsFromMimetype(...) || ""; typeof _m == 'string' ? _m : _m[0]`. */
  function MediaTypeOf(answer: MimeAnswer): Option<string> {
    match answer
    case NoAnswer => Some("")
    case One(s) => Some(s)
    case Several(xs) => if |xs| > 0 then Some(xs[0]) else None
  }

  /** The entry `imgSrc` creates for a URL it has not seen, with the given id. */
  function NewImage(url: string, id: string, mime: Mime): (img: Image)
    ensures img.url == url && img.id == id
  {
    var mediaType := MediaTypeOf(mime.extensionsFromMimetype(StripQuery(url)));
    Image(url, id, mime.lookup(mediaType).GetOr(""), mediaType)
  }

  /** The local path `imgSrc` returns for an entry. */
  function ImagePath(img: Image): string {
    "images/" + img.id + "." + img.extension
  }

  // ---------------------------------------------------------------------------
  // The table as a value
  // ---------------------------------------------------------------------------

  /** Index of the first entry for `url` (what `find` returns), or `|images|`. */
  function FindIndex(images: seq<Image>, url: string): (k: nat)
    ensures k <= |images|
    ensures k < |images| ==> images[k].url == url
    ensures forall j :: 0 <= j < k ==> images[j].url != url
  {
    if images == [] then 0
    else if images[0].url == url then 0
    else 1 + FindIndex(images[1..], url)
  }

  predicate Has(images: seq<Image>, url: string) {
    exists j :: 0 <= j < |images| && images[j].url == url
  }

  predicate DistinctUrls(images: seq<Image>) {
    forall i, j :: 0 <= i < j < |images| ==> images[i].url != images[j].url
  }

  /** The path of the entry for `url`. */
  function PathFor(images: seq<Image>, url: string): string
    requires Has(images, url)
  {
    ImagePath(images[FindIndex(images, url)])
  }

  /** The table after `imgSrc(url)`: unchanged if the URL is known, else one entry pushed. */
  function Insert(images: seq<Image>, url: string, ids: nat -> string, mime: Mime): (r: seq<Image>)
    ensures Has(r, url)
  {
    if FindIndex(images, url) < |images| then images
    else
      var r := images + [NewImage(url, ids(|images|), mime)];
      assert r[|images|].url == url;
      r
  }

  /** The table after `imgSrc` has been called on each of `urls` in turn. */
  function InsertAll(images: seq<Image>, urls: seq<string>, ids: nat -> string, mime: Mime): seq<Image>
    decreases urls
  {
    if urls == [] then images
    else InsertAll(Insert(images, urls[0], ids, mime), urls[1..], ids, mime)
  }

  /** The URLs of `urls` not in `seen`, each once, in order of first occurrence. */
  function FirstOccurrences(urls: seq<string>, seen: seq<string>): seq<string>
  {
    if urls == [] then []
    else if urls[0] in seen then FirstOccurrences(urls[1..], seen)
    else [urls[0]] + FirstOccurrences(urls[1..], seen + [urls[0]])
  }

  function Urls(images: seq<Image>): (us: seq<string>)
    ensures |us| == |images| && forall i :: 0 <= i < |images| ==> us[i] == images[i].url
  {
    seq(|images|, i requires 0 <= i < |images| => images[i].url)
  }

  // ---------------------------------------------------------------------------
  // Properties of the table
  // ---------------------------------------------------------------------------

  /** A URL already in the table: the table is unchanged and the known entry's path is used. */
  lemma InsertKnown(images: seq<Image>, url: string, ids: nat -> string, mime: Mime)
    requires Has(images, url)
    ensures Insert(images, url, ids, mime) == images
  {
    var j :| 0 <= j < |images| && images[j].url == url;
    assert FindIndex(images, url) <= j;
  }

  /** A new URL: exactly one entry, for that URL, is appended and the old entries stay. */
  lemma InsertNew(images: seq<Image>, url: string, ids: nat -> string, mime: Mime)
    requires !Has(images, url)
    ensures var r := Insert(images, url, ids, mime);
      r == images + [NewImage(url, ids(|images|), mime)]
      && PathFor(r, url) == ImagePath(r[|images|])
  {
    var r := Insert(images, url, ids, mime);
    assert FindIndex(images, url) == |images|;
    assert FindIndex(r, url) == |images|;
  }

  /** `imgSrc` never creates a duplicate URL. */
  lemma InsertKeepsDistinct(images: seq<Image>, url: string, ids: nat -> string, mime: Mime)
    requires DistinctUrls(images)
    ensures DistinctUrls(Insert(images, url, ids, mime))
  {
    if !Has(images, url) {
      InsertNew(images, url, ids, mime);
    } else {
      InsertKnown(images, url, ids, mime);
    }
  }

  /** After any sequence of `imgSrc` calls the URLs in the table are pairwise distinct. */
  lemma {:induction false} InsertAllKeepsDistinct(images: seq<Image>, urls: seq<string>, ids: nat -> string, mime: Mime)
    requires DistinctUrls(images)
    ensures DistinctUrls(InsertAll(images, urls, ids, mime))
    decreases urls
  {
    if urls != [] {
      InsertKeepsDistinct(images, urls[0], ids, mime);
      InsertAllKeepsDistinct(Insert(images, urls[0], ids, mime), urls[1..], ids, mime);
    }
  }

  /** Entries already in the table are never moved or changed. */
  lemma {:induction false} InsertAllExtends(images: seq<Image>, urls: seq<string>, ids: nat -> string, mime: Mime)
    ensures var r := InsertAll(images, urls, ids, mime);
      |images| <= |r| && r[..|images|] == images
    decreases urls
  {
    if urls != [] {
      var next := Insert(images, urls[0], ids, mime);
      InsertAllExtends(next, urls[1..], ids, mime);
      var r := InsertAll(next, urls[1..], ids, mime);
      assert r[..|next|][..|images|] == r[..|images|];
    }
  }

  /** The first entry for a URL is still the first entry once more entries follow. */
  lemma {:induction false} InsertAllConcat(images: seq<Image>, a: seq<string>, b: seq<string>, ids: nat -> string, mime: Mime)
    ensures InsertAll(images, a + b, ids, mime) == InsertAll(InsertAll(images, a, ids, mime), b, ids, mime)
    decreases a
  {
    if a != [] {
      assert (a + b)[0] == a[0] && (a + b)[1..] == a[1..] + b;
      InsertAllConcat(Insert(images, a[0], ids, mime), a[1..], b, ids, mime);
    } else {
      assert a + b == b;
    }
  }

  lemma InsertAllOne(images: seq<Image>, url: string, ids: nat -> string, mime: Mime)
    ensures InsertAll(images, [url], ids, mime) == Insert(images, url, ids, mime)
  {
    assert [url][1..] == [];
  }

  lemma FindInPrefix(images: seq<Image>, more: seq<Image>, url: string)
    requires Has(images, url)
    ensures FindIndex(images + more, url) == FindIndex(images, url)
  {
    var k := FindIndex(images, url);
    var j :| 0 <= j < |images| && images[j].url == url;
    assert k <= j;
    var both := images + more;
    assert both[k] == images[k];
    assert forall i :: 0 <= i < k ==> both[i] == images[i];
  }

  /**
   * Two calls with the same URL return the same path, whatever calls come in
   * between (from the same chapter or from later ones).
   */
  lemma SamePathLater(images: seq<Image>, urls: seq<string>, url: string, ids: nat -> string, mime: Mime)
    requires Has(images, url)
    ensures Has(InsertAll(images, urls, ids, mime), url)
    ensures PathFor(InsertAll(images, urls, ids, mime), url) == PathFor(images, url)
  {
    var r := InsertAll(images, urls, ids, mime);
    InsertAllExtends(images, urls, ids, mime);
    assert r == images + r[|images|..];
    FindInPrefix(images, r[|images|..], url);
  }

  /**
   * Discovery order: the table grows by the URLs it did not know, each once,
   * in the order in which `imgSrc` first saw them.
   */
  lemma {:induction false} InsertAllOrder(images: seq<Image>, urls: seq<string>, ids: nat -> string, mime: Mime)
    ensures Urls(InsertAll(images, urls, ids, mime)) == Urls(images) + FirstOccurrences(urls, Urls(images))
    decreases urls
  {
    if urls != [] {
      var next := Insert(images, urls[0], ids, mime);
      InsertAllOrder(next, urls[1..], ids, mime);
      UrlsInsert(images, urls[0], ids, mime);
      FirstOccurrencesStep(Urls(images), urls);
    }
  }

  lemma FirstOccurrencesStep(seen: seq<string>, urls: seq<string>)
    requires urls != []
    ensures var seen' := if urls[0] in seen then seen else seen + [urls[0]];
      seen' + FirstOccurrences(urls[1..], seen') == seen + FirstOccurrences(urls, seen)
  {
    if urls[0] !in seen {
      var later := FirstOccurrences(urls[1..], seen + [urls[0]]);
      assert (seen + [urls[0]]) + later == seen + ([urls[0]] + later);
    }
  }

  lemma UrlsInsert(images: seq<Image>, url: string, ids: nat -> string, mime: Mime)
    ensures Urls(Insert(images, url, ids, mime)) ==
      if url in Urls(images) then Urls(images) else Urls(images) + [url]
  {
    if url in Urls(images) {
      assert Has(images, url) by {
        var j :| 0 <= j < |Urls(images)| && Urls(images)[j] == url;
        assert images[j].url == url;
      }
      InsertKnown(images, url, ids, mime);
    } else {
      assert !Has(images, url);
      InsertNew(images, url, ids, mime);
      UrlsAppend(images, NewImage(url, ids(|images|), mime));
    }
  }

  lemma UrlsAppend(images: seq<Image>, img: Image)
    ensures Urls(images + [img]) == Urls(images) + [img.url]
  {
  }

  /** Two URLs that differ only in a query string get the same media type and extension. */
  lemma QueryIgnored(base: string, query: string, id: string, mime: Mime)
    requires '?' !in base
    requires forall j :: 0 <= j < |query| ==> !IsLineTerminator(query[j])
    ensures NewImage(base + "?" + query, id, mime).extension == NewImage(base, id, mime).extension
    ensures NewImage(base + "?" + query, id, mime).mediaType == NewImage(base, id, mime).mediaType
  {
    var u := base + "?" + query;
    assert IndexOf(u, '?') == |base| by {
      assert u[|base|] == '?';
      assert forall j :: 0 <= j < |base| ==> u[j] == base[j];
    }
    assert forall j :: 0 <= j < |base| ==> !IsLineTerminator(u[j]) || IsLineTerminator(base[j]);
    assert LineEnd(u, |base|) == |u| by {
      assert forall j :: |base| < j < |u| ==> u[j] == query[j - |base| - 1];
      assert !IsLineTerminator(u[|base|]);
    }
    assert StripQuery(u) == base;
  }

  /** When the type lookup has no answer, the extension is the empty string. */
  lemma ExtensionDefault(url: string, id: string, mime: Mime)
    requires mime.lookup(MediaTypeOf(mime.extensionsFromMimetype(StripQuery(url)))) == None
    ensures NewImage(url, id, mime).extension == ""
  {
  }

  // ---------------------------------------------------------------------------
  // The table as the EPub object holds it
  // ---------------------------------------------------------------------------

  /** The id `uuid()` gives the entry created when the table holds `k` entries. */
  function IdStream(entropy: nat -> seq<Nibble>): nat -> string {
    (k: nat) => Uuid(entropy(k))
  }

  class ImageTable {
    /** `this.images`, in insertion order. */
    var images: seq<Image>
    /** `ids(k)`: the id of the entry created when the table holds `k` entries. */
    const ids: nat -> string
    const mime: Mime

    ghost predicate Valid()
      reads this
    {
      DistinctUrls(images)
    }

    /** `entropy(k)`: the draws of `Math.random` behind the k-th new entry's `uuid()`. */
    constructor (entropy: nat -> seq<Nibble>, mime: Mime)
      ensures Valid()
      ensures images == [] && ids == IdStream(entropy) && this.mime == mime
    {
      images := [];
      ids := IdStream(entropy);
      this.mime := mime;
    }

    /** `imgSrc(url)`: find the entry for `url`, pushing a new one if there is none. */
    method ImgSrc(url: string) returns (path: string)
      requires Valid()
      modifies this
      ensures Valid()
      ensures images == Insert(old(images), url, ids, mime)
      ensures Has(old(images), url) ==> images == old(images)
      ensures !Has(old(images), url) ==>
        images == old(images) + [NewImage(url, ids(|old(images)|), mime)]
      ensures Has(images, url) && path == PathFor(images, url)
    {
      var k := 0;
      while k < |images| && images[k].url != url
        invariant 0 <= k <= |images|
        invariant forall j :: 0 <= j < k ==> images[j].url != url
      {
        k := k + 1;
      }
      assert k == FindIndex(images, url);
      var image;
      if k == |images| {
        image := NewImage(url, ids(|images|), mime);
        InsertNew(images, url, ids, mime);
        images := images + [image];
      } else {
        image := images[k];
      }
      path := ImagePath(image);
    }
  }
}
