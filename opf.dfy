/**
 * templates/epub2/content.opf.ejs.ts: the OPF 2.0.1 package document.
 *
 * The template only emits text from `forEach` loops and `if`s over its
 * inputs, so the model keeps what those loops decide and leaves out the XML
 * text around them: whether the cover `meta` is there, the manifest items
 * (section 2.3 of OPF 2.0.1) and the spine idrefs (section 2.4), in the
 * order the template writes them.
 */
module Opf {
  import opened Wrappers
  import opened Other
  import opened AssetTable
  import opened Epub

  /** One `<item id=… href=… media-type=…/>` of the manifest. */
  datatype Item = Item(id: string, href: string, mediaType: string)

  /** What the template decides: the cover `meta`, the manifest and the spine idrefs. */
  datatype PackageDoc = PackageDoc(coverMeta: bool, manifest: seq<Item>, spine: seq<string>)

  // ---------------------------------------------------------------------------
  // Manifest
  // ---------------------------------------------------------------------------

  /** The three items every package has: the NCX, the TOC page and the stylesheet. */
  function FixedItems(): seq<Item> {
    [ Item("ncx", "toc.ncx", "application/x-dtbncx+xml"),
      Item("toc", "toc.xhtml", "application/xhtml+xml"),
      Item("css", "style.css", "text/css") ]
  }

  function CoverItems(cover: Option<Cover>): seq<Item> {
    if cover.None? then [] else [Item("image_cover", "cover." + cover.value.extension, cover.value.mediaType)]
  }

  /** An absent media type prints as the empty string. */
  function MediaTypeText(t: Option<string>): string {
    if t.Some? then t.value else ""
  }

  function ImageItem(index: nat, image: Image): Item {
    Item("image_" + NatToString(index), "images/" + image.id + "." + image.extension, MediaTypeText(image.mediaType))
  }

  /** The id a chapter has both in the manifest and in the spine. */
  function ChapterId(index: nat, chapter: NormChapter): string {
    "content_" + NatToString(index) + "_" + chapter.id
  }

  function ChapterItem(index: nat, chapter: NormChapter): Item {
    Item(ChapterId(index, chapter), chapter.filename, "application/xhtml+xml")
  }

  function FontItem(index: nat, font: Font): Item {
    Item("font_" + NatToString(index), "fonts/" + font.filename, font.mediaType)
  }

  function ImageItems(images: seq<Image>): (items: seq<Item>)
    ensures |items| == |images| && forall k :: 0 <= k < |images| ==> items[k] == ImageItem(k, images[k])
  {
    seq(|images|, k requires 0 <= k < |images| => ImageItem(k, images[k]))
  }

  function ChapterItems(content: seq<NormChapter>): (items: seq<Item>)
    ensures |items| == |content| && forall k :: 0 <= k < |content| ==> items[k] == ChapterItem(k, content[k])
  {
    seq(|content|, k requires 0 <= k < |content| => ChapterItem(k, content[k]))
  }

  function FontItems(fonts: seq<Font>): (items: seq<Item>)
    ensures |items| == |fonts| && forall k :: 0 <= k < |fonts| ==> items[k] == FontItem(k, fonts[k])
  {
    seq(|fonts|, k requires 0 <= k < |fonts| => FontItem(k, fonts[k]))
  }

  /** The manifest in template order: fixed items, cover, images, chapters, fonts. */
  function Manifest(cover: Option<Cover>, images: seq<Image>, content: seq<NormChapter>, fonts: seq<Font>): seq<Item> {
    FixedItems() + CoverItems(cover) + ImageItems(images) + ChapterItems(content) + FontItems(fonts)
  }

  // ---------------------------------------------------------------------------
  // Spine
  // ---------------------------------------------------------------------------

  /** An `itemref`: the TOC page or the chapter at an index of `content`. */
  datatype Ref = TocRef | ChapterRef(index: nat)

  /** One `content.forEach` of the spine: the chapters from `from` on whose `beforeToc` is `before`, in order. */
  function Group(content: seq<NormChapter>, before: bool, from: nat): seq<Ref>
    decreases |content| - from
  {
    if from >= |content| then []
    else (if content[from].beforeToc == before then [ChapterRef(from)] else []) + Group(content, before, from + 1)
  }

  /** The spine: the `beforeToc` chapters, the TOC page, the other chapters. */
  function SpineRefs(content: seq<NormChapter>): seq<Ref> {
    Group(content, true, 0) + [TocRef] + Group(content, false, 0)
  }

  predicate RefIn(content: seq<NormChapter>, r: Ref) {
    r.ChapterRef? ==> r.index < |content|
  }

  function RefId(content: seq<NormChapter>, r: Ref): string
    requires RefIn(content, r)
  {
    match r
    case TocRef => "toc"
    case ChapterRef(k) => ChapterId(k, content[k])
  }

  function SpineIds(content: seq<NormChapter>, refs: seq<Ref>): (ids: seq<string>)
    requires forall i :: 0 <= i < |refs| ==> RefIn(content, refs[i])
    ensures |ids| == |refs| && forall i :: 0 <= i < |refs| ==> ids[i] == RefId(content, refs[i])
  {
    seq(|refs|, i requires 0 <= i < |refs| => RefId(content, refs[i]))
  }

  /** What the template writes for these inputs. */
  function Package(cover: Option<Cover>, images: seq<Image>, content: seq<NormChapter>, fonts: seq<Font>): PackageDoc {
    GroupRange(content, true, 0);
    GroupRange(content, false, 0);
    PackageDoc(cover.Some?, Manifest(cover, images, content, fonts), SpineIds(content, SpineRefs(content)))
  }

  // ---------------------------------------------------------------------------
  // Spine properties
  // ---------------------------------------------------------------------------

  /** A group holds chapter refs of its side only, from `from` on, in increasing chapter order. */
  lemma {:induction false} GroupRange(content: seq<NormChapter>, before: bool, from: nat)
    ensures forall i :: 0 <= i < |Group(content, before, from)| ==> InGroup(content, before, from, Group(content, before, from)[i])
    ensures forall i, j :: 0 <= i < j < |Group(content, before, from)| ==>
      Ascends(Group(content, before, from)[i], Group(content, before, from)[j])
    decreases |content| - from
  {
    if from < |content| {
      GroupRange(content, before, from + 1);
      var g, rest := Group(content, before, from), Group(content, before, from + 1);
      var head: seq<Ref> := if content[from].beforeToc == before then [ChapterRef(from)] else [];
      assert g == head + rest;
      forall i | 0 <= i < |g| ensures InGroup(content, before, from, g[i]) {
        if i >= |head| {
          assert g[i] == rest[i - |head|];
        }
      }
      forall i, j | 0 <= i < j < |g| ensures Ascends(g[i], g[j]) {
        assert g[j] == rest[j - |head|];
        if i >= |head| {
          assert g[i] == rest[i - |head|];
        }
      }
    }
  }

  /** Two chapter refs in increasing chapter order. */
  predicate Ascends(r: Ref, s: Ref) {
    r.ChapterRef? && s.ChapterRef? && r.index < s.index
  }

  /** `r` is a chapter at or after `from` on the `before` side of the TOC page. */
  predicate InGroup(content: seq<NormChapter>, before: bool, from: nat, r: Ref) {
    r.ChapterRef? && from <= r.index < |content| && content[r.index].beforeToc == before
  }

  /** A group holds each chapter of its side exactly once, and nothing else. */
  lemma {:induction false} GroupCount(content: seq<NormChapter>, before: bool, from: nat, r: Ref)
    ensures multiset(Group(content, before, from))[r] == if InGroup(content, before, from, r) then 1 else 0
    decreases |content| - from
  {
    if from >= |content| {
      assert Group(content, before, from) == [];
    } else {
      GroupCount(content, before, from + 1, r);
      GroupUnfold(content, before, from, r);
      if r.ChapterRef? && r.index == from {
        assert !InGroup(content, before, from + 1, r);
      } else {
        assert InGroup(content, before, from, r) == InGroup(content, before, from + 1, r);
      }
    }
  }

  /** One step of `Group`, counted at `r`: the chapter at `from` if it is on this side, then the rest. */
  lemma GroupUnfold(content: seq<NormChapter>, before: bool, from: nat, r: Ref)
    requires from < |content|
    ensures multiset(Group(content, before, from))[r] ==
      (if content[from].beforeToc == before && r == ChapterRef(from) then 1 else 0) + multiset(Group(content, before, from + 1))[r]
  {
  }

  /**
   * The spine holds the TOC page once and every chapter once, and nothing
   * else: it has one entry more than there are chapters.
   */
  lemma SpineOnce(content: seq<NormChapter>)
    ensures |SpineRefs(content)| == |content| + 1
    ensures multiset(SpineRefs(content))[TocRef] == 1
    ensures forall k: nat :: k < |content| ==> multiset(SpineRefs(content))[ChapterRef(k)] == 1
    ensures forall i :: 0 <= i < |SpineRefs(content)| ==> RefIn(content, SpineRefs(content)[i])
  {
    var refs := SpineRefs(content);
    GroupCount(content, true, 0, TocRef);
    GroupCount(content, false, 0, TocRef);
    forall k: nat | k < |content| ensures multiset(refs)[ChapterRef(k)] == 1 {
      GroupCount(content, true, 0, ChapterRef(k));
      GroupCount(content, false, 0, ChapterRef(k));
    }
    var a, b := Group(content, true, 0), Group(content, false, 0);
    GroupRange(content, true, 0);
    GroupRange(content, false, 0);
    GroupSizes(content, 0);
    forall i | 0 <= i < |refs| ensures RefIn(content, refs[i]) {
      if i < |a| {
        assert refs[i] == a[i];
      } else if i > |a| {
        assert refs[i] == b[i - |a| - 1];
      }
    }
  }

  /** The two groups split the chapters between them. */
  lemma {:induction false} GroupSizes(content: seq<NormChapter>, from: nat)
    ensures |Group(content, true, from)| + |Group(content, false, from)| == if from < |content| then |content| - from else 0
    decreases |content| - from
  {
    if from < |content| {
      GroupSizes(content, from + 1);
    }
  }

  /**
   * The order of the spine: before the TOC page exactly the `beforeToc`
   * chapters, after it exactly the others, each side in `content` order.
   */
  lemma SpineOrder(content: seq<NormChapter>)
    ensures var refs := SpineRefs(content);
      var t := |Group(content, true, 0)|;
      && t < |refs| && refs[t] == TocRef
      && (forall i :: 0 <= i < t ==> refs[i].ChapterRef? && refs[i].index < |content| && content[refs[i].index].beforeToc)
      && (forall i :: t < i < |refs| ==> refs[i].ChapterRef? && refs[i].index < |content| && !content[refs[i].index].beforeToc)
      && (forall i, j :: 0 <= i < j < t ==> refs[i].index < refs[j].index)
      && (forall i, j :: t < i < j < |refs| ==> refs[i].index < refs[j].index)
  {
    var refs := SpineRefs(content);
    var a, b := Group(content, true, 0), Group(content, false, 0);
    var t := |a|;
    GroupRange(content, true, 0);
    GroupRange(content, false, 0);
    forall i | t < i < |refs| ensures refs[i] == b[i - t - 1] {
    }
  }

  // ---------------------------------------------------------------------------
  // Manifest properties
  // ---------------------------------------------------------------------------

  /** The items before the chapters' and the fonts': the fixed ones, the cover's and the images'. */
  lemma ManifestParts(cover: Option<Cover>, images: seq<Image>, content: seq<NormChapter>, fonts: seq<Font>)
    ensures var head := FixedItems() + CoverItems(cover) + ImageItems(images);
      && |head| == 3 + |CoverItems(cover)| + |images|
      && Manifest(cover, images, content, fonts) == head + ChapterItems(content) + FontItems(fonts)
  {
  }

  lemma ImageAt(cover: Option<Cover>, images: seq<Image>, content: seq<NormChapter>, fonts: seq<Font>, k: nat)
    requires k < |images|
    ensures 3 + |CoverItems(cover)| + k < |Manifest(cover, images, content, fonts)|
    ensures Manifest(cover, images, content, fonts)[3 + |CoverItems(cover)| + k] == ImageItem(k, images[k])
  {
    var fixed := FixedItems() + CoverItems(cover);
    assert Manifest(cover, images, content, fonts) == fixed + (ImageItems(images) + ChapterItems(content) + FontItems(fonts));
  }

  lemma ChapterAt(cover: Option<Cover>, images: seq<Image>, content: seq<NormChapter>, fonts: seq<Font>, k: nat)
    requires k < |content|
    ensures 3 + |CoverItems(cover)| + |images| + k < |Manifest(cover, images, content, fonts)|
    ensures Manifest(cover, images, content, fonts)[3 + |CoverItems(cover)| + |images| + k] == ChapterItem(k, content[k])
  {
    var head := FixedItems() + CoverItems(cover) + ImageItems(images);
    ManifestParts(cover, images, content, fonts);
    assert Manifest(cover, images, content, fonts) == head + (ChapterItems(content) + FontItems(fonts));
  }

  lemma FontAt(cover: Option<Cover>, images: seq<Image>, content: seq<NormChapter>, fonts: seq<Font>, k: nat)
    requires k < |fonts|
    ensures 3 + |CoverItems(cover)| + |images| + |content| + k < |Manifest(cover, images, content, fonts)|
    ensures Manifest(cover, images, content, fonts)[3 + |CoverItems(cover)| + |images| + |content| + k] == FontItem(k, fonts[k])
  {
    ManifestParts(cover, images, content, fonts);
  }

  /** Where each kind of item sits in the manifest. */
  lemma ManifestLayout(cover: Option<Cover>, images: seq<Image>, content: seq<NormChapter>, fonts: seq<Font>)
    ensures var m := Manifest(cover, images, content, fonts);
      var c := |CoverItems(cover)|;
      && |m| == 3 + c + |images| + |content| + |fonts|
      && m[..3] == FixedItems()
      && (cover.Some? ==> m[3] == Item("image_cover", "cover." + cover.value.extension, cover.value.mediaType))
      && (forall k :: 0 <= k < |images| ==> m[3 + c + k] == ImageItem(k, images[k]))
      && (forall k :: 0 <= k < |content| ==> m[3 + c + |images| + k] == ChapterItem(k, content[k]))
      && (forall k :: 0 <= k < |fonts| ==> m[3 + c + |images| + |content| + k] == FontItem(k, fonts[k]))
  {
    var m := Manifest(cover, images, content, fonts);
    var c := |CoverItems(cover)|;
    ManifestParts(cover, images, content, fonts);
    forall k | 0 <= k < |images| ensures m[3 + c + k] == ImageItem(k, images[k]) {
      ImageAt(cover, images, content, fonts, k);
    }
    forall k | 0 <= k < |content| ensures m[3 + c + |images| + k] == ChapterItem(k, content[k]) {
      ChapterAt(cover, images, content, fonts, k);
    }
    forall k | 0 <= k < |fonts| ensures m[3 + c + |images| + |content| + k] == FontItem(k, fonts[k]) {
      FontAt(cover, images, content, fonts, k);
    }
  }

  /** Only the cover item has the id `image_cover`. */
  lemma OnlyCoverId(cover: Option<Cover>, images: seq<Image>, content: seq<NormChapter>, fonts: seq<Font>, i: nat)
    requires i < |Manifest(cover, images, content, fonts)|
    requires cover.None? || i != 3
    ensures Manifest(cover, images, content, fonts)[i].id != "image_cover"
  {
    var c := |CoverItems(cover)|;
    ManifestParts(cover, images, content, fonts);
    if i < 3 {
      assert Manifest(cover, images, content, fonts)[i] == FixedItems()[i];
    } else if i < 3 + c + |images| {
      var k := i - 3 - c;
      assert i == 3 + c + k;
      ImageAt(cover, images, content, fonts, k);
      ImageIdNotCover(k, images[k]);
    } else if i < 3 + c + |images| + |content| {
      var k := i - 3 - c - |images|;
      assert i == 3 + c + |images| + k;
      ChapterAt(cover, images, content, fonts, k);
      assert ChapterItem(k, content[k]).id[0] == 'c';
    } else {
      var k := i - 3 - c - |images| - |content|;
      assert i == 3 + c + |images| + |content| + k;
      FontAt(cover, images, content, fonts, k);
      assert FontItem(k, fonts[k]).id[0] == 'f';
    }
  }

  /** An image's id has a digit where `image_cover` has its `c`. */
  lemma ImageIdNotCover(k: nat, image: Image)
    ensures ImageItem(k, image).id != "image_cover"
  {
    var s := NatToString(k);
    assert ImageItem(k, image).id[6] == s[0];
    assert IsDigit(s[0]);
  }

  /** The cover `meta` and the `image_cover` item are both there iff there is a cover. */
  lemma CoverIff(cover: Option<Cover>, images: seq<Image>, content: seq<NormChapter>, fonts: seq<Font>)
    ensures Package(cover, images, content, fonts).coverMeta <==> cover.Some?
    ensures (exists i :: 0 <= i < |Package(cover, images, content, fonts).manifest|
               && Package(cover, images, content, fonts).manifest[i].id == "image_cover") <==> cover.Some?
  {
    var m := Package(cover, images, content, fonts).manifest;
    assert m == Manifest(cover, images, content, fonts);
    ManifestParts(cover, images, content, fonts);
    if cover.Some? {
      assert m[3] == CoverItems(cover)[0];
    } else {
      forall i | 0 <= i < |m| ensures m[i].id != "image_cover" {
        OnlyCoverId(cover, images, content, fonts, i);
      }
    }
  }

  /** Every spine idref names a manifest item: `toc` the TOC page, a chapter its own item. */
  lemma SpineInManifest(cover: Option<Cover>, images: seq<Image>, content: seq<NormChapter>, fonts: seq<Font>)
    ensures var p := Package(cover, images, content, fonts);
      forall i :: 0 <= i < |p.spine| ==> exists j :: 0 <= j < |p.manifest| && p.manifest[j].id == p.spine[i]
  {
    var p := Package(cover, images, content, fonts);
    SpineOnce(content);
    forall i | 0 <= i < |p.spine| ensures exists j :: 0 <= j < |p.manifest| && p.manifest[j].id == p.spine[i] {
      var j := RefItem(cover, images, content, fonts, SpineRefs(content)[i]);
    }
  }

  /** The manifest item a spine ref names. */
  lemma RefItem(cover: Option<Cover>, images: seq<Image>, content: seq<NormChapter>, fonts: seq<Font>, r: Ref)
    returns (j: nat)
    requires RefIn(content, r)
    ensures j < |Manifest(cover, images, content, fonts)| && Manifest(cover, images, content, fonts)[j].id == RefId(content, r)
  {
    ManifestParts(cover, images, content, fonts);
    match r
    case TocRef =>
      j := 1;
      assert Manifest(cover, images, content, fonts)[1] == FixedItems()[1];
    case ChapterRef(k) =>
      j := 3 + |CoverItems(cover)| + |images| + k;
      ChapterAt(cover, images, content, fonts, k);
  }

  /** The names `render` gives the files besides the template jobs: fonts, images, cover. */
  function AssetNames(fonts: seq<Font>, images: seq<Image>, cover: Option<Cover>): seq<string> {
    FontFiles(fonts) + ImageFiles(images) + (if cover.Some? then [CoverFile(cover.value)] else [])
  }

  /**
   * When `render` resolves and every chapter is written at `OEBPS/` plus its
   * filename, every manifest item names a file of the archive.
   */
  lemma ManifestInArchive(o: NormOptions, content: seq<NormChapter>, images: seq<Image>, cover: Option<Cover>,
                          css: string, render: Renderer, net: Network)
    requires o.batchSize >= 1 || (|o.fonts| == 0 && |images| == 0)
    requires Rendered(o, content, images, cover, css, render, net).1
    requires forall k :: 0 <= k < |content| ==> content[k].href == "OEBPS/" + content[k].filename
    ensures var m := Manifest(cover, images, content, o.fonts);
      forall i :: 0 <= i < |m| ==> "OEBPS/" + m[i].href in Names(Rendered(o, content, images, cover, css, render, net).0)
  {
    RenderedNames(o, content, images, cover, css, render, net);
    Regroup(JobNames(Jobs(content, cover.Some?)), o.fonts, images, cover);
    ManifestNamed(cover, images, content, o.fonts);
  }

  lemma Regroup(jobNames: seq<string>, fonts: seq<Font>, images: seq<Image>, cover: Option<Cover>)
    ensures jobNames + FontFiles(fonts) + ImageFiles(images) + (if cover.Some? then [CoverFile(cover.value)] else [])
      == jobNames + AssetNames(fonts, images, cover)
  {
    var x := if cover.Some? then [CoverFile(cover.value)] else [];
    AppendAssoc(jobNames, FontFiles(fonts), ImageFiles(images));
    AppendAssoc(jobNames, FontFiles(fonts) + ImageFiles(images), x);
  }

  /** Every manifest item names a template job's file or a downloaded asset. */
  lemma ManifestNamed(cover: Option<Cover>, images: seq<Image>, content: seq<NormChapter>, fonts: seq<Font>)
    requires forall k :: 0 <= k < |content| ==> content[k].href == "OEBPS/" + content[k].filename
    ensures var m := Manifest(cover, images, content, fonts);
      forall i :: 0 <= i < |m| ==> "OEBPS/" + m[i].href in JobNames(Jobs(content, cover.Some?)) + AssetNames(fonts, images, cover)
  {
    var m := Manifest(cover, images, content, fonts);
    forall i | 0 <= i < |m|
      ensures "OEBPS/" + m[i].href in JobNames(Jobs(content, cover.Some?)) + AssetNames(fonts, images, cover)
    {
      ItemNamed(cover, images, content, fonts, i);
    }
  }

  /** One manifest item of `ManifestInArchive`. */
  lemma ItemNamed(cover: Option<Cover>, images: seq<Image>, content: seq<NormChapter>, fonts: seq<Font>, i: nat)
    requires i < |Manifest(cover, images, content, fonts)|
    requires forall k :: 0 <= k < |content| ==> content[k].href == "OEBPS/" + content[k].filename
    ensures "OEBPS/" + Manifest(cover, images, content, fonts)[i].href
      in JobNames(Jobs(content, cover.Some?)) + AssetNames(fonts, images, cover)
  {
    var c := |CoverItems(cover)|;
    ManifestParts(cover, images, content, fonts);
    if i < 3 {
      FixedNamed(cover, images, content, fonts, i);
    } else if i < 3 + c {
      CoverNamed(cover, images, content, fonts, i);
    } else if i < 3 + c + |images| {
      ImageNamed(cover, images, content, fonts, i);
    } else if i < 3 + c + |images| + |content| {
      ChapterNamed(cover, images, content, fonts, i);
    } else {
      FontNamed(cover, images, content, fonts, i);
    }
  }

  lemma FixedNamed(cover: Option<Cover>, images: seq<Image>, content: seq<NormChapter>, fonts: seq<Font>, i: nat)
    requires i < 3
    ensures i < |Manifest(cover, images, content, fonts)|
    ensures "OEBPS/" + Manifest(cover, images, content, fonts)[i].href
      in JobNames(Jobs(content, cover.Some?)) + AssetNames(fonts, images, cover)
  {
    var jobs := Jobs(content, cover.Some?);
    var n := |content|;
    assert Manifest(cover, images, content, fonts)[i] == FixedItems()[i];
    FixedHrefs();
    if i == 0 {
      JobNamed(jobs, AssetNames(fonts, images, cover), n + 3);
    } else if i == 1 {
      JobNamed(jobs, AssetNames(fonts, images, cover), n + 4);
    } else {
      JobNamed(jobs, AssetNames(fonts, images, cover), 0);
    }
  }

  lemma FixedHrefs()
    ensures "OEBPS/" + FixedItems()[0].href == JobName(Ncx)
    ensures "OEBPS/" + FixedItems()[1].href == JobName(TocPage)
    ensures "OEBPS/" + FixedItems()[2].href == JobName(StyleSheet)
  {
  }

  lemma JobNamed(jobs: seq<Job>, tail: seq<string>, k: nat)
    requires k < |jobs|
    ensures JobName(jobs[k]) in JobNames(jobs) + tail
  {
    Named(JobNames(jobs) + tail, k, JobName(jobs[k]));
  }

  lemma AssetNamed(jobs: seq<Job>, fonts: seq<Font>, images: seq<Image>, cover: Option<Cover>, k: nat)
    requires k < |AssetNames(fonts, images, cover)|
    ensures AssetNames(fonts, images, cover)[k] in JobNames(jobs) + AssetNames(fonts, images, cover)
  {
    Named(JobNames(jobs) + AssetNames(fonts, images, cover), |jobs| + k, AssetNames(fonts, images, cover)[k]);
  }

  lemma CoverNamed(cover: Option<Cover>, images: seq<Image>, content: seq<NormChapter>, fonts: seq<Font>, i: nat)
    requires 3 <= i < 3 + |CoverItems(cover)|
    ensures i < |Manifest(cover, images, content, fonts)|
    ensures "OEBPS/" + Manifest(cover, images, content, fonts)[i].href
      in JobNames(Jobs(content, cover.Some?)) + AssetNames(fonts, images, cover)
  {
    assert i == 3;
    assert Manifest(cover, images, content, fonts)[3] == CoverItems(cover)[0];
    CoverHref(cover.value);
    assert AssetNames(fonts, images, cover)[|fonts| + |images|] == CoverFile(cover.value);
    AssetNamed(Jobs(content, cover.Some?), fonts, images, cover, |fonts| + |images|);
  }

  lemma CoverHref(cover: Cover)
    ensures "OEBPS/" + ("cover." + cover.extension) == CoverFile(cover)
  {
  }

  lemma ImageNamed(cover: Option<Cover>, images: seq<Image>, content: seq<NormChapter>, fonts: seq<Font>, i: nat)
    requires 3 + |CoverItems(cover)| <= i < 3 + |CoverItems(cover)| + |images|
    ensures i < |Manifest(cover, images, content, fonts)|
    ensures "OEBPS/" + Manifest(cover, images, content, fonts)[i].href
      in JobNames(Jobs(content, cover.Some?)) + AssetNames(fonts, images, cover)
  {
    var k := i - 3 - |CoverItems(cover)|;
    assert i == 3 + |CoverItems(cover)| + k;
    ImageAt(cover, images, content, fonts, k);
    ImageHref(k, images[k]);
    assert AssetNames(fonts, images, cover)[|fonts| + k] == ImageFiles(images)[k];
    AssetNamed(Jobs(content, cover.Some?), fonts, images, cover, |fonts| + k);
  }

  lemma ImageHref(k: nat, image: Image)
    ensures ImageItem(k, image).href == ImagePath(image)
    ensures "OEBPS/" + ImageItem(k, image).href == ImageFile(image)
  {
  }

  lemma ChapterNamed(cover: Option<Cover>, images: seq<Image>, content: seq<NormChapter>, fonts: seq<Font>, i: nat)
    requires 3 + |CoverItems(cover)| + |images| <= i < 3 + |CoverItems(cover)| + |images| + |content|
    requires forall k :: 0 <= k < |content| ==> content[k].href == "OEBPS/" + content[k].filename
    ensures i < |Manifest(cover, images, content, fonts)|
    ensures "OEBPS/" + Manifest(cover, images, content, fonts)[i].href
      in JobNames(Jobs(content, cover.Some?)) + AssetNames(fonts, images, cover)
  {
    var k := i - 3 - |CoverItems(cover)| - |images|;
    assert i == 3 + |CoverItems(cover)| + |images| + k;
    ChapterAt(cover, images, content, fonts, k);
    PageNamed(content, cover.Some?, AssetNames(fonts, images, cover), k);
  }

  lemma PageNamed(content: seq<NormChapter>, hasCover: bool, tail: seq<string>, k: nat)
    requires k < |content| && content[k].href == "OEBPS/" + content[k].filename
    ensures "OEBPS/" + content[k].filename in JobNames(Jobs(content, hasCover)) + tail
  {
    var jobs := Jobs(content, hasCover);
    assert jobs[k + 1] == Page(content[k]);
    JobNamed(jobs, tail, k + 1);
  }

  lemma FontNamed(cover: Option<Cover>, images: seq<Image>, content: seq<NormChapter>, fonts: seq<Font>, i: nat)
    requires 3 + |CoverItems(cover)| + |images| + |content| <= i < 3 + |CoverItems(cover)| + |images| + |content| + |fonts|
    ensures i < |Manifest(cover, images, content, fonts)|
    ensures "OEBPS/" + Manifest(cover, images, content, fonts)[i].href
      in JobNames(Jobs(content, cover.Some?)) + AssetNames(fonts, images, cover)
  {
    var k := i - 3 - |CoverItems(cover)| - |images| - |content|;
    assert i == 3 + |CoverItems(cover)| + |images| + |content| + k;
    FontAt(cover, images, content, fonts, k);
    FontHref(k, fonts[k]);
    assert AssetNames(fonts, images, cover)[k] == FontFiles(fonts)[k];
    AssetNamed(Jobs(content, cover.Some?), fonts, images, cover, k);
  }

  lemma FontHref(k: nat, font: Font)
    ensures "OEBPS/" + FontItem(k, font).href == FontFile(font)
  {
  }

  lemma Named(names: seq<string>, k: nat, name: string)
    requires k < |names| && names[k] == name
    ensures name in names
  {
  }
}
