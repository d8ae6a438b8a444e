/**
 * util/html.ts, `normalizeHTML`: the sanitised chapter, serialised, with one
 * leading `<body>` tag and one trailing `</body>` tag cut off.
 *
 * The replacement regex has two alternatives, anchored at the start and at
 * the end of the string (no multiline flag), so the global replace removes
 * at most one opening tag at position 0 (with or without the XHTML
 * namespace) and at most one closing tag that ends the string.
 * Serialisation belongs to the DOM library and is a parameter.
 */
module HtmlNormalize {
  import opened Wrappers
  import opened Other
  import opened AssetTable
  import opened HtmlParse

  const BodyOpen: string := "<body>"
  const BodyOpenNs: string := "<body xmlns=\"http://www.w3.org/1999/xhtml\">"
  const BodyClose: string := "</body>"

  predicate StartsWith(s: string, p: string) {
    |p| <= |s| && s[..|p|] == p
  }

  predicate EndsWith(s: string, p: string) {
    |p| <= |s| && s[|s| - |p|..] == p
  }

  /** Length of the opening tag the first alternative matches at position 0 (0 if none). */
  function OpenLength(s: string): (n: nat)
    ensures n <= |s|
    ensures n == 0 || s[..n] == BodyOpen || s[..n] == BodyOpenNs
    ensures n == 0 <==> !StartsWith(s, BodyOpen) && !StartsWith(s, BodyOpenNs)
  {
    if StartsWith(s, BodyOpenNs) then |BodyOpenNs|
    else if StartsWith(s, BodyOpen) then |BodyOpen|
    else 0
  }

  /** Length of the closing tag the second alternative matches at the end (0 if none, or if it would overlap the opening tag). */
  function CloseLength(s: string): (n: nat)
    ensures OpenLength(s) + n <= |s|
    ensures n == 0 || s[|s| - n..] == BodyClose
    ensures !EndsWith(s, BodyClose) ==> n == 0
  {
    if EndsWith(s, BodyClose) && OpenLength(s) + |BodyClose| <= |s| then |BodyClose| else 0
  }

  /**
   * The global replace of the body-tag regex by the empty string: `s` is an
   * optional opening tag, the result, and an optional closing tag.
   */
  function StripBody(s: string): (r: string)
    ensures |r| + OpenLength(s) + CloseLength(s) == |s|
    ensures s == s[..OpenLength(s)] + r + s[|s| - CloseLength(s)..]
    ensures !StartsWith(s, BodyOpen) && !StartsWith(s, BodyOpenNs) && !EndsWith(s, BodyClose) ==> r == s
  {
    var r := s[OpenLength(s)..|s| - CloseLength(s)];
    assert s == s[..OpenLength(s)] + r + s[|s| - CloseLength(s)..];
    r
  }

  /** The namespaced opening tag is never taken for the plain one followed by text. */
  lemma OpenPlain(x: string)
    ensures OpenLength(BodyOpen + x) == |BodyOpen|
  {
    var s := BodyOpen + x;
    assert s[..|BodyOpen|] == BodyOpen;
    assert s[5] == '>' && BodyOpenNs[5] == ' ';
  }

  lemma OpenNs(x: string)
    ensures OpenLength(BodyOpenNs + x) == |BodyOpenNs|
  {
    assert (BodyOpenNs + x)[..|BodyOpenNs|] == BodyOpenNs;
  }

  lemma CloseAtEnd(pre: string, x: string)
    requires OpenLength(pre + x + BodyClose) == |pre|
    ensures CloseLength(pre + x + BodyClose) == |BodyClose|
  {
    var s := pre + x + BodyClose;
    assert s[|s| - |BodyClose|..] == BodyClose;
  }

  /** Wrapping a fragment in `<body>` … `</body>` and normalising gives the fragment back. */
  lemma UnwrapPlain(x: string)
    ensures StripBody(BodyOpen + x + BodyClose) == x
  {
    var s := BodyOpen + x + BodyClose;
    OpenPlain(x + BodyClose);
    assert s == BodyOpen + (x + BodyClose);
    CloseAtEnd(BodyOpen, x);
    assert s[|BodyOpen|..|s| - |BodyClose|] == x;
  }

  /** The same with the namespaced opening tag the XHTML serialiser writes. */
  lemma UnwrapNs(x: string)
    ensures StripBody(BodyOpenNs + x + BodyClose) == x
  {
    var s := BodyOpenNs + x + BodyClose;
    OpenNs(x + BodyClose);
    assert s == BodyOpenNs + (x + BodyClose);
    CloseAtEnd(BodyOpenNs, x);
    assert s[|BodyOpenNs|..|s| - |BodyClose|] == x;
  }

  /** A closing tag alone is removed; nothing else is. */
  lemma OnlyClose(x: string)
    requires !StartsWith(x + BodyClose, BodyOpen) && !StartsWith(x + BodyClose, BodyOpenNs)
    ensures StripBody(x + BodyClose) == x
  {
    CloseAtEnd([], x);
    assert [] + x + BodyClose == x + BodyClose;
  }

  /** What `normalizeHTML` returns, and the image table afterwards. */
  function Normalized(doc: Document, allowed: set<string>, images: seq<Image>, ids: nat -> string, mime: Mime,
                      serialize: Markup -> string): (string, seq<Image>)
  {
    var fixed := Fixed(doc, allowed, images, ids, mime);
    (StripBody(serialize(fixed.0)), fixed.1)
  }

  /**
   * `normalizeHTML.call(epub, index, data)`: sanitise through the EPub's
   * image table, serialise, strip the body tags.
   */
  method NormalizeHTML(table: ImageTable, index: nat, doc: Document, allowed: set<string>, serialize: Markup -> string)
    returns (html: string, warnings: seq<string>)
    requires table.Valid()
    modifies table
    ensures table.Valid()
    ensures warnings == ChapterWarnings(index, doc.elements, allowed)
    ensures (html, table.images) == Normalized(doc, allowed, old(table.images), table.ids, table.mime, serialize)
  {
    var markup;
    markup, warnings := FixHTML(table, index, doc, allowed);
    html := StripBody(serialize(markup));
  }
}
