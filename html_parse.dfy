/**
 * util/html-parse.ts, `fixHTML`: sanitises one chapter.
 *
 * The parsed document is a sequence of elements in document order (the
 * descendants of `<body>`, or of the whole document when there is no body),
 * each with its tag and its attributes in `Object.keys` order. Parsing and
 * serialising belong to the DOM library; the model starts after the parse
 * and stops at the choice of what to serialise.
 */
module HtmlParse {
  import opened Wrappers
  import opened Other
  import opened AssetTable

  datatype Attr = Attr(name: string, value: string)

  datatype Element = Element(tag: string, attrs: seq<Attr>)

  /** The parser's output: whether a `<body>` exists, and the elements `document.querySelectorAll('*')` visits. */
  datatype Document = Document(hasBody: bool, elements: seq<Element>)

  /** What `fixHTML` returns: `body.innerHTML`, or `String(document)` when there is no body. */
  datatype Markup = BodyInner(elements: seq<Element>) | WholeDocument(elements: seq<Element>)

  const Placeholder: string := "image-placeholder"

  // ---------------------------------------------------------------------------
  // Attributes of one element
  // ---------------------------------------------------------------------------

  /** `Object.keys(element.attributes)`. */
  function Names(attrs: seq<Attr>): (ns: seq<string>)
    ensures |ns| == |attrs| && forall i :: 0 <= i < |attrs| ==> ns[i] == attrs[i].name
  {
    seq(|attrs|, i requires 0 <= i < |attrs| => attrs[i].name)
  }

  predicate NamesWithin(attrs: seq<Attr>, names: set<string>) {
    forall i :: 0 <= i < |attrs| ==> attrs[i].name in names
  }

  /** `getAttribute(name)`: the value of the attribute called `name`, if any. */
  function GetAttr(attrs: seq<Attr>, name: string): (r: Option<string>)
    ensures r.Some? <==> exists i :: 0 <= i < |attrs| && attrs[i].name == name
    ensures r.Some? ==> exists i :: 0 <= i < |attrs| && attrs[i] == Attr(name, r.value)
  {
    if attrs == [] then None
    else if attrs[0].name == name then Some(attrs[0].value)
    else
      var r := GetAttr(attrs[1..], name);
      assert forall i :: 1 <= i < |attrs| ==> attrs[i] == attrs[1..][i - 1];
      r
  }

  /** `removeAttribute(name)`. */
  function RemoveAttr(attrs: seq<Attr>, name: string): (r: seq<Attr>)
    ensures forall a :: a in r <==> a in attrs && a.name != name
  {
    if attrs == [] then []
    else (if attrs[0].name == name then [] else [attrs[0]]) + RemoveAttr(attrs[1..], name)
  }

  /** `setAttribute(name, value)`: overwrite the attribute in place, or append it. */
  function SetAttr(attrs: seq<Attr>, name: string, value: string): (r: seq<Attr>)
    ensures GetAttr(r, name) == Some(value)
    ensures forall n :: n != name ==> GetAttr(r, n) == GetAttr(attrs, n)
    ensures forall i :: 0 <= i < |r| ==> r[i] == Attr(name, value) || r[i] in attrs
  {
    if attrs == [] then [Attr(name, value)]
    else if attrs[0].name == name then [Attr(name, value)] + attrs[1..]
    else
      var r := [attrs[0]] + SetAttr(attrs[1..], name, value);
      assert forall n :: GetAttr(r, n) == if attrs[0].name == n then Some(attrs[0].value) else GetAttr(r[1..], n);
      r
  }

  // ---------------------------------------------------------------------------
  // First pass: the attribute allow-list
  // ---------------------------------------------------------------------------

  /** The attributes the first pass leaves on an element. */
  function FilterAllowed(attrs: seq<Attr>, allowed: set<string>): (r: seq<Attr>)
    ensures forall a :: a in r <==> a in attrs && a.name in allowed
    ensures NamesWithin(r, allowed)
  {
    if attrs == [] then []
    else (if attrs[0].name in allowed then [attrs[0]] else []) + FilterAllowed(attrs[1..], allowed)
  }

  /** The attributes left once the names in `visited` have been looked at. */
  function Keep(attrs: seq<Attr>, allowed: set<string>, visited: seq<string>): seq<Attr>
  {
    if attrs == [] then []
    else
      (if attrs[0].name in allowed || attrs[0].name !in visited then [attrs[0]] else [])
      + Keep(attrs[1..], allowed, visited)
  }

  /** The warning for a removed attribute. */
  function DropMessage(index: nat, name: string): string {
    "Warning (content[" + NatToString(index) + "]): attribute " + name + " isn't allowed."
  }

  /** The names the first pass removes, in the order it visits them. */
  function Dropped(names: seq<string>, allowed: set<string>): (r: seq<string>)
    ensures forall n :: n in r <==> n in names && n !in allowed
  {
    if names == [] then []
    else
      var last := names[|names| - 1];
      Dropped(names[..|names| - 1], allowed) + (if last in allowed then [] else [last])
  }

  /** The warnings the first pass emits for one element. */
  function DropWarnings(index: nat, names: seq<string>, allowed: set<string>): seq<string>
  {
    if names == [] then []
    else
      var last := names[|names| - 1];
      DropWarnings(index, names[..|names| - 1], allowed) + (if last in allowed then [] else [DropMessage(index, last)])
  }

  /** One warning per removed name, in order. */
  lemma {:induction false} DropWarningsMessages(index: nat, names: seq<string>, allowed: set<string>)
    ensures var r := DropWarnings(index, names, allowed);
      && |r| == |Dropped(names, allowed)|
      && forall i :: 0 <= i < |r| ==> r[i] == DropMessage(index, Dropped(names, allowed)[i])
  {
    if names != [] {
      DropWarningsMessages(index, names[..|names| - 1], allowed);
    }
  }

  /** The warnings the first pass emits for a sequence of elements. */
  function ChapterWarnings(index: nat, es: seq<Element>, allowed: set<string>): seq<string>
  {
    if es == [] then []
    else
      var last := es[|es| - 1];
      ChapterWarnings(index, es[..|es| - 1], allowed) + DropWarnings(index, Names(last.attrs), allowed)
  }

  lemma DropWarningsSnoc(index: nat, names: seq<string>, name: string, allowed: set<string>)
    ensures DropWarnings(index, names + [name], allowed) ==
      DropWarnings(index, names, allowed) + (if name in allowed then [] else [DropMessage(index, name)])
  {
    assert (names + [name])[..|names|] == names;
  }

  function Clean(e: Element, allowed: set<string>): Element {
    Element(e.tag, FilterAllowed(e.attrs, allowed))
  }

  /** The document after the first pass. */
  function AttrPass(es: seq<Element>, allowed: set<string>): (r: seq<Element>)
    ensures |r| == |es|
    ensures forall i :: 0 <= i < |es| ==> r[i] == Clean(es[i], allowed)
  {
    seq(|es|, i requires 0 <= i < |es| => Clean(es[i], allowed))
  }

  lemma {:induction false} KeepStep(attrs: seq<Attr>, allowed: set<string>, visited: seq<string>, name: string)
    ensures name !in allowed ==>
      RemoveAttr(Keep(attrs, allowed, visited), name) == Keep(attrs, allowed, visited + [name])
    ensures name in allowed ==>
      Keep(attrs, allowed, visited + [name]) == Keep(attrs, allowed, visited)
  {
    if attrs != [] {
      KeepStep(attrs[1..], allowed, visited, name);
      var head := if attrs[0].name in allowed || attrs[0].name !in visited then [attrs[0]] else [];
      RemoveAttrConcat(head, Keep(attrs[1..], allowed, visited), name);
    }
  }

  lemma HeadTail<T>(a: seq<T>, b: seq<T>)
    requires a != []
    ensures (a + b)[0] == a[0] && (a + b)[1..] == a[1..] + b
  {
  }

  lemma Assoc<T>(x: seq<T>, y: seq<T>, z: seq<T>)
    ensures x + (y + z) == (x + y) + z
  {
  }

  lemma {:induction false} RemoveAttrConcat(a: seq<Attr>, b: seq<Attr>, name: string)
    ensures RemoveAttr(a + b, name) == RemoveAttr(a, name) + RemoveAttr(b, name)
  {
    if a != [] {
      var head := if a[0].name == name then [] else [a[0]];
      HeadTail(a, b);
      RemoveAttrConcat(a[1..], b, name);
      Assoc(head, RemoveAttr(a[1..], name), RemoveAttr(b, name));
    } else {
      assert a + b == b;
    }
  }

  lemma {:induction false} KeepNothingVisited(attrs: seq<Attr>, allowed: set<string>)
    ensures Keep(attrs, allowed, []) == attrs
  {
    if attrs != [] {
      KeepNothingVisited(attrs[1..], allowed);
      assert [attrs[0]] + attrs[1..] == attrs;
    }
  }

  lemma {:induction false} KeepVisitedAll(attrs: seq<Attr>, allowed: set<string>, visited: seq<string>)
    requires forall i :: 0 <= i < |attrs| ==> attrs[i].name in visited
    ensures Keep(attrs, allowed, visited) == FilterAllowed(attrs, allowed)
  {
    if attrs != [] {
      KeepVisitedAll(attrs[1..], allowed, visited);
    }
  }

  // ---------------------------------------------------------------------------
  // Second pass: images
  // ---------------------------------------------------------------------------

  predicate IsImg(e: Element) {
    e.tag == "img"
  }

  /** The value `alt ||= "image-placeholder"` leaves: a missing or empty `alt` becomes the placeholder. */
  function AltFilled(alt: Option<string>): Option<string> {
    if alt == None || alt == Some("") then Some(Placeholder) else alt
  }

  /** `element.attributes.alt ||= "image-placeholder"`. */
  function WithAlt(e: Element): (r: Element)
    ensures r.tag == e.tag
    ensures GetAttr(r.attrs, "alt") == AltFilled(GetAttr(e.attrs, "alt"))
    ensures forall n :: n != "alt" ==> GetAttr(r.attrs, n) == GetAttr(e.attrs, n)
    ensures AltGiven(r)
    ensures forall i :: 0 <= i < |r.attrs| ==> r.attrs[i].name == "alt" || r.attrs[i] in e.attrs
  {
    var alt := GetAttr(e.attrs, "alt");
    if alt == None || alt == Some("") then
      Element(e.tag, SetAttr(e.attrs, "alt", Placeholder))
    else e
  }

  predicate AltGiven(e: Element) {
    GetAttr(e.attrs, "alt").Some? && GetAttr(e.attrs, "alt").value != ""
  }

  /**
   * An `img` once its `alt` is filled in and its `src` pointed at `path`;
   * every other attribute keeps its value.
   */
  function Rewritten(e: Element, path: string): (r: Element)
    ensures r.tag == e.tag
    ensures GetAttr(r.attrs, "src") == Some(path)
    ensures GetAttr(r.attrs, "alt") == AltFilled(GetAttr(e.attrs, "alt"))
    ensures forall n :: n != "alt" && n != "src" ==> GetAttr(r.attrs, n) == GetAttr(e.attrs, n)
    ensures AltGiven(r)
  {
    var e1 := WithAlt(e);
    assert "alt" != "src" by { assert "alt"[0] != "src"[0]; }
    Element(e1.tag, SetAttr(e1.attrs, "src", path))
  }

  /** One step of the `img` loop: what replaces `e`, and the table afterwards. */
  function FixImg(e: Element, images: seq<Image>, ids: nat -> string, mime: Mime): (seq<Element>, seq<Image>)
  {
    if !IsImg(e) then ([e], images)
    else
      match GetAttr(WithAlt(e).attrs, "src")
      case None => ([], images)
      case Some(src) =>
        var table := Insert(images, src, ids, mime);
        ([Rewritten(e, PathFor(table, src))], table)
  }

  /** The `img` loop over the whole document, threading the image table. */
  function ImgPass(es: seq<Element>, images: seq<Image>, ids: nat -> string, mime: Mime): (seq<Element>, seq<Image>)
    decreases es
  {
    if es == [] then ([], images)
    else
      var step := FixImg(es[0], images, ids, mime);
      var rest := ImgPass(es[1..], step.1, ids, mime);
      (step.0 + rest.0, rest.1)
  }

  /** The URL the callback receives for `e`, if any. */
  function SrcOf(e: Element): Option<string> {
    if IsImg(e) then GetAttr(e.attrs, "src") else None
  }

  function SrcList(e: Element): seq<string> {
    if SrcOf(e).Some? then [SrcOf(e).value] else []
  }

  /** The `src` of every `img` that has one, in document order: the calls made to the callback. */
  function Srcs(es: seq<Element>): seq<string> {
    if es == [] then [] else SrcList(es[0]) + Srcs(es[1..])
  }

  /** The `img` elements of a sequence, in order. */
  function Imgs(es: seq<Element>): seq<Element> {
    if es == [] then [] else (if IsImg(es[0]) then [es[0]] else []) + Imgs(es[1..])
  }

  /** The other elements of a sequence, in order. */
  function Others(es: seq<Element>): seq<Element> {
    if es == [] then [] else (if IsImg(es[0]) then [] else [es[0]]) + Others(es[1..])
  }

  /** An element carries only allowed attributes, plus `alt` on an `img`. */
  predicate Sanitized(e: Element, allowed: set<string>) {
    NamesWithin(e.attrs, if IsImg(e) then allowed + {"alt"} else allowed)
  }

  lemma FixImgCases(e: Element, images: seq<Image>, ids: nat -> string, mime: Mime)
    ensures var r := FixImg(e, images, ids, mime);
      && (!IsImg(e) ==> r == ([e], images))
      && (IsImg(e) && SrcOf(e).None? ==> r == ([], images))
      && (SrcOf(e).Some? ==>
            && r.1 == Insert(images, SrcOf(e).value, ids, mime)
            && r.0 == [Rewritten(e, PathFor(r.1, SrcOf(e).value))])
  {
  }

  lemma {:induction false} ImgsConcat(a: seq<Element>, b: seq<Element>)
    ensures Imgs(a + b) == Imgs(a) + Imgs(b)
    ensures Others(a + b) == Others(a) + Others(b)
  {
    if a != [] {
      ImgsConcat(a[1..], b);
      assert (a + b)[0] == a[0] && (a + b)[1..] == a[1..] + b;
    } else {
      assert a + b == b;
    }
  }

  /** The table after the second pass: the callback ran on each `src` in document order. */
  lemma {:induction false} ImgPassTable(es: seq<Element>, images: seq<Image>, ids: nat -> string, mime: Mime)
    ensures ImgPass(es, images, ids, mime).1 == InsertAll(images, Srcs(es), ids, mime)
    decreases es
  {
    if es != [] {
      var step := FixImg(es[0], images, ids, mime);
      FixImgCases(es[0], images, ids, mime);
      ImgPassTable(es[1..], step.1, ids, mime);
      InsertAllConcat(images, SrcList(es[0]), Srcs(es[1..]), ids, mime);
      if SrcOf(es[0]).Some? {
        InsertAllOne(images, SrcOf(es[0]).value, ids, mime);
      }
    }
  }

  lemma Single(x: Element)
    ensures Imgs([x]) == (if IsImg(x) then [x] else [])
    ensures Others([x]) == (if IsImg(x) then [] else [x])
  {
    assert [x][1..] == [];
  }

  /** The second pass leaves every element other than `img` in place and in order. */
  lemma {:induction false} ImgPassOthers(es: seq<Element>, images: seq<Image>, ids: nat -> string, mime: Mime)
    ensures Others(ImgPass(es, images, ids, mime).0) == Others(es)
    decreases es
  {
    if es != [] {
      var step := FixImg(es[0], images, ids, mime);
      var rest := ImgPass(es[1..], step.1, ids, mime);
      FixImgCases(es[0], images, ids, mime);
      ImgPassOthers(es[1..], step.1, ids, mime);
      ImgsConcat(step.0, rest.0);
      ImgsConcat([es[0]], es[1..]);
      assert [es[0]] + es[1..] == es;
      Single(es[0]);
      if |step.0| == 1 {
        Single(step.0[0]);
      }
    }
  }

  /** The `img` elements of a sequence that have a `src`, in order: those the callback is called for. */
  function Sourced(es: seq<Element>): seq<Element> {
    if es == [] then [] else (if SrcOf(es[0]).Some? then [es[0]] else []) + Sourced(es[1..])
  }

  /**
   * The k-th element of `imgs` is the k-th element of `orig`, whose `src` is
   * the k-th URL of `srcs`, rewritten to the local path `table` gives that URL.
   */
  predicate PointsAt(imgs: seq<Element>, orig: seq<Element>, srcs: seq<string>, table: seq<Image>) {
    && |imgs| == |srcs| && |orig| == |srcs|
    && forall k :: 0 <= k < |srcs| ==>
         && Has(table, srcs[k])
         && SrcOf(orig[k]) == Some(srcs[k])
         && imgs[k] == Rewritten(orig[k], PathFor(table, srcs[k]))
  }

  lemma PointsAtCons(x: Element, imgs: seq<Element>, e: Element, orig: seq<Element>, src: string, srcs: seq<string>, table: seq<Image>)
    requires Has(table, src) && SrcOf(e) == Some(src) && x == Rewritten(e, PathFor(table, src))
    requires PointsAt(imgs, orig, srcs, table)
    ensures PointsAt([x] + imgs, [e] + orig, [src] + srcs, table)
  {
    var imgs', orig', srcs' := [x] + imgs, [e] + orig, [src] + srcs;
    forall k | 0 <= k < |srcs'|
      ensures Has(table, srcs'[k])
      ensures SrcOf(orig'[k]) == Some(srcs'[k])
      ensures imgs'[k] == Rewritten(orig'[k], PathFor(table, srcs'[k]))
    {
      if k > 0 {
        assert imgs'[k] == imgs[k - 1] && orig'[k] == orig[k - 1] && srcs'[k] == srcs[k - 1];
      }
    }
  }

  /**
   * The `img` elements after the second pass: the k-th surviving `img` is the
   * k-th `img` that had a `src`, with its `src` now the local path of that URL
   * in the final table, its `alt` filled in as `||=` does, and every other
   * attribute as before. So no `img` without a `src` survives.
   */
  lemma {:induction false} ImgPassImgs(es: seq<Element>, images: seq<Image>, ids: nat -> string, mime: Mime)
    ensures PointsAt(Imgs(ImgPass(es, images, ids, mime).0), Sourced(es), Srcs(es), ImgPass(es, images, ids, mime).1)
    decreases es
  {
    if es != [] {
      var step := FixImg(es[0], images, ids, mime);
      var rest := ImgPass(es[1..], step.1, ids, mime);
      FixImgCases(es[0], images, ids, mime);
      ImgPassImgs(es[1..], step.1, ids, mime);
      ImgsConcat(step.0, rest.0);
      assert ImgPass(es, images, ids, mime) == (step.0 + rest.0, rest.1);
      if SrcOf(es[0]).Some? {
        var src := SrcOf(es[0]).value;
        Single(step.0[0]);
        ImgPassTable(es[1..], step.1, ids, mime);
        SamePathLater(step.1, Srcs(es[1..]), src, ids, mime);
        PointsAtCons(step.0[0], Imgs(rest.0), es[0], Sourced(es[1..]), src, Srcs(es[1..]), rest.1);
      } else if |step.0| == 1 {
        Single(step.0[0]);
      }
    }
  }

  lemma FixImgAllowed(e: Element, images: seq<Image>, ids: nat -> string, mime: Mime, allowed: set<string>)
    requires NamesWithin(e.attrs, allowed)
    ensures var out := FixImg(e, images, ids, mime).0;
      forall i :: 0 <= i < |out| ==> Sanitized(out[i], allowed)
  {
    FixImgCases(e, images, ids, mime);
    if SrcOf(e).Some? {
      var table := Insert(images, SrcOf(e).value, ids, mime);
      var path := PathFor(table, SrcOf(e).value);
      var j :| 0 <= j < |e.attrs| && e.attrs[j].name == "src";
      WithAltNames(e, allowed);
      SetAttrNames(WithAlt(e).attrs, "src", path, allowed + {"alt"});
      assert Rewritten(e, path).attrs == SetAttr(WithAlt(e).attrs, "src", path);
    }
  }

  /** Filling in `alt` adds no attribute name besides `alt`. */
  lemma WithAltNames(e: Element, names: set<string>)
    requires NamesWithin(e.attrs, names)
    ensures NamesWithin(WithAlt(e).attrs, names + {"alt"})
  {
    var e1 := WithAlt(e);
    forall i | 0 <= i < |e1.attrs| ensures e1.attrs[i].name in names + {"alt"} {
      if e1.attrs[i].name != "alt" {
        var j :| 0 <= j < |e.attrs| && e.attrs[j] == e1.attrs[i];
      }
    }
  }

  /** Setting an attribute whose name is already allowed keeps every name allowed. */
  lemma SetAttrNames(attrs: seq<Attr>, name: string, value: string, names: set<string>)
    requires NamesWithin(attrs, names) && name in names
    ensures NamesWithin(SetAttr(attrs, name, value), names)
  {
    var r := SetAttr(attrs, name, value);
    forall i | 0 <= i < |r| ensures r[i].name in names {
      if r[i] != Attr(name, value) {
        var j :| 0 <= j < |attrs| && attrs[j] == r[i];
      }
    }
  }

  /**
   * Once the first pass has run, every attribute left in the document is in
   * the allow-list, except an `alt` the second pass puts on an `img`.
   */
  lemma {:induction false} ImgPassAllowed(es: seq<Element>, images: seq<Image>, ids: nat -> string, mime: Mime, allowed: set<string>)
    requires forall i :: 0 <= i < |es| ==> NamesWithin(es[i].attrs, allowed)
    ensures var out := ImgPass(es, images, ids, mime).0;
      forall i :: 0 <= i < |out| ==> Sanitized(out[i], allowed)
    decreases es
  {
    if es != [] {
      var step := FixImg(es[0], images, ids, mime);
      FixImgAllowed(es[0], images, ids, mime, allowed);
      ImgPassAllowed(es[1..], step.1, ids, mime, allowed);
      var rest := ImgPass(es[1..], step.1, ids, mime).0;
      var out := ImgPass(es, images, ids, mime).0;
      assert out == step.0 + rest;
      assert forall i :: 0 <= i < |ImgPass(es[1..], step.1, ids, mime).0| ==> Sanitized(ImgPass(es[1..], step.1, ids, mime).0[i], allowed);
      assert forall i :: 0 <= i < |rest| ==> Sanitized(rest[i], allowed);
      forall i | 0 <= i < |out| ensures Sanitized(out[i], allowed) {
        if i >= |step.0| {
          assert out[i] == rest[i - |step.0|];
          assert Sanitized(rest[i - |step.0|], allowed);
        } else {
          assert out[i] == step.0[i];
          assert Sanitized(step.0[i], allowed);
        }
      }
    }
  }

  // ---------------------------------------------------------------------------
  // fixHTML
  // ---------------------------------------------------------------------------

  lemma StripStep(index: nat, attrs: seq<Attr>, allowed: set<string>, names: seq<string>, k: nat)
    requires k < |names|
    ensures var before := Keep(attrs, allowed, names[..k]);
      var after := Keep(attrs, allowed, names[..k + 1]);
      if names[k] in allowed then after == before
      else after == RemoveAttr(before, names[k])
    ensures var before := DropWarnings(index, names[..k], allowed);
      var after := DropWarnings(index, names[..k + 1], allowed);
      if names[k] in allowed then after == before
      else after == before + [DropMessage(index, names[k])]
  {
    assert names[..k + 1] == names[..k] + [names[k]];
    KeepStep(attrs, allowed, names[..k], names[k]);
    DropWarningsSnoc(index, names[..k], names[k], allowed);
  }

  /** The attribute loop for one element: drop every name outside the allow-list, warning once per name. */
  method StripElement(index: nat, element: Element, allowed: set<string>)
    returns (cleaned: Element, warnings: seq<string>)
    ensures cleaned == Clean(element, allowed)
    ensures warnings == DropWarnings(index, Names(element.attrs), allowed)
  {
    var names := Names(element.attrs);
    var attrs := element.attrs;
    warnings := [];
    var k := 0;
    KeepNothingVisited(element.attrs, allowed);
    assert names[..0] == [];
    while k < |names|
      invariant 0 <= k <= |names|
      invariant attrs == Keep(element.attrs, allowed, names[..k])
      invariant warnings == DropWarnings(index, names[..k], allowed)
    {
      StripStep(index, element.attrs, allowed, names, k);
      if names[k] !in allowed {
        warnings := warnings + [DropMessage(index, names[k])];
        attrs := RemoveAttr(attrs, names[k]);
      }
      k := k + 1;
    }
    assert names[..k] == names;
    KeepVisitedAll(element.attrs, allowed, names);
    cleaned := Element(element.tag, attrs);
  }

  /** The first loop of `fixHTML`, over every element in document order. */
  method StripAttributes(index: nat, elements: seq<Element>, allowed: set<string>)
    returns (es: seq<Element>, warnings: seq<string>)
    ensures es == AttrPass(elements, allowed)
    ensures warnings == ChapterWarnings(index, elements, allowed)
  {
    es := elements;
    warnings := [];
    var e := 0;
    while e < |es|
      invariant 0 <= e <= |es| == |elements|
      invariant forall i :: 0 <= i < e ==> es[i] == Clean(elements[i], allowed)
      invariant forall i :: e <= i < |es| ==> es[i] == elements[i]
      invariant warnings == ChapterWarnings(index, elements[..e], allowed)
    {
      var cleaned, dropped := StripElement(index, es[e], allowed);
      warnings := warnings + dropped;
      es := es[e := cleaned];
      assert elements[..e + 1][..e] == elements[..e];
      e := e + 1;
    }
    assert elements[..e] == elements;
  }

  /** One more element of the `img` loop done. */
  lemma ImgPassStep(es: seq<Element>, j: nat, start: seq<Image>, images: seq<Image>, out: seq<Element>, ids: nat -> string, mime: Mime)
    requires j < |es|
    requires ImgPass(es, start, ids, mime) ==
      (out + ImgPass(es[j..], images, ids, mime).0, ImgPass(es[j..], images, ids, mime).1)
    ensures var step := FixImg(es[j], images, ids, mime);
      var tail := ImgPass(es[j + 1..], step.1, ids, mime);
      ImgPass(es, start, ids, mime) == ((out + step.0) + tail.0, tail.1)
  {
    assert es[j..][0] == es[j] && es[j..][1..] == es[j + 1..];
    var step := FixImg(es[j], images, ids, mime);
    var tail := ImgPass(es[j + 1..], step.1, ids, mime);
    assert out + (step.0 + tail.0) == (out + step.0) + tail.0;
  }

  /** The second loop of `fixHTML`, over the `img` elements, calling `imgSrc` on the table. */
  method RewriteImages(table: ImageTable, es: seq<Element>) returns (out: seq<Element>)
    requires table.Valid()
    modifies table
    ensures table.Valid()
    ensures (out, table.images) == ImgPass(es, old(table.images), table.ids, table.mime)
  {
    out := [];
    var j := 0;
    assert es[0..] == es;
    assert out + ImgPass(es, table.images, table.ids, table.mime).0 == ImgPass(es, table.images, table.ids, table.mime).0;
    while j < |es|
      invariant 0 <= j <= |es|
      invariant table.Valid()
      invariant ImgPass(es, old(table.images), table.ids, table.mime) ==
        (out + ImgPass(es[j..], table.images, table.ids, table.mime).0,
         ImgPass(es[j..], table.images, table.ids, table.mime).1)
    {
      ImgPassStep(es, j, old(table.images), table.images, out, table.ids, table.mime);
      FixImgCases(es[j], table.images, table.ids, table.mime);
      ghost var before := out;
      ghost var step := FixImg(es[j], table.images, table.ids, table.mime);
      var element := es[j];
      if IsImg(element) {
        var src := GetAttr(WithAlt(element).attrs, "src");
        if src.Some? {
          var path := table.ImgSrc(src.value);
          out := out + [Rewritten(element, path)];
        }
      } else {
        out := out + [element];
      }
      assert out == before + step.0 && table.images == step.1;
      j := j + 1;
    }
    assert es[j..] == [] && out + [] == out;
  }

  /** What `fixHTML` returns for `doc`, and the image table afterwards. */
  function Fixed(doc: Document, allowed: set<string>, images: seq<Image>, ids: nat -> string, mime: Mime): (Markup, seq<Image>)
  {
    var pass := ImgPass(AttrPass(doc.elements, allowed), images, ids, mime);
    (if doc.hasBody then BodyInner(pass.0) else WholeDocument(pass.0), pass.1)
  }

  /**
   * `fixHTML.call(epub, index, html, imgSrc)` on an already parsed document.
   * The callback is `imgSrc` on the table; `warnings` is what went to `warn`.
   */
  method FixHTML(table: ImageTable, index: nat, doc: Document, allowed: set<string>)
    returns (markup: Markup, warnings: seq<string>)
    requires table.Valid()
    modifies table
    ensures table.Valid()
    ensures warnings == ChapterWarnings(index, doc.elements, allowed)
    ensures (markup, table.images) == Fixed(doc, allowed, old(table.images), table.ids, table.mime)
  {
    var es;
    es, warnings := StripAttributes(index, doc.elements, allowed);
    var out := RewriteImages(table, es);
    markup := if doc.hasBody then BodyInner(out) else WholeDocument(out);
  }
}
