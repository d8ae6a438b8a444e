/**
 * cmd.ts: the text-to-EPUB command. `encodeContent` turns plain text into
 * XHTML body text by a chain of global replaces, and `toEpub` cuts the text
 * into chapters at the chapter headings.
 *
 * The heading regex engine is not modelled: `toEpub`'s matches are supplied
 * as a list of heading positions and captured titles, in the order
 * `matchAll` yields them.
 */
module Cmd {
  import opened Wrappers

  // ---------------------------------------------------------------------------
  // Character classes
  // ---------------------------------------------------------------------------

  /** JavaScript's `\s`: the ECMAScript white space and line terminator characters. */
  predicate IsJsSpace(c: char) {
    || c == '\t' || c == '\n' || c == '\U{000B}' || c == '\U{000C}' || c == '\r' || c == ' '
    || c == '\U{00A0}' || c == '\U{1680}' || ('\U{2000}' <= c <= '\U{200A}')
    || c == '\U{2028}' || c == '\U{2029}' || c == '\U{202F}' || c == '\U{205F}'
    || c == '\U{3000}' || c == '\U{FEFF}'
  }

  predicate IsLineBreak(c: char) {
    c == '\r' || c == '\n'
  }

  /** The class of `rep`: C0 and C1 controls, zero-width marks, the byte order mark and U+FF00 to U+FFFF. */
  predicate Invisible(c: char) {
    || ('\U{0000}' <= c <= '\U{001F}')
    || ('\U{007F}' <= c <= '\U{009F}')
    || ('\U{200B}' <= c <= '\U{200F}')
    || c == '\U{FEFF}'
    || ('\U{FF00}' <= c <= '\U{FFFF}')
  }

  /** The characters XHTML text must not carry raw. */
  predicate Markup(c: char) {
    c == '<' || c == '>' || c == '"' || c == '\''
  }

  // ---------------------------------------------------------------------------
  // The five escaping replaces
  // ---------------------------------------------------------------------------

  /** `str.replace(/c/g, entity)`. */
  function ReplaceAll(s: string, c: char, entity: string): string {
    if s == [] then []
    else (if s[0] == c then entity else [s[0]]) + ReplaceAll(s[1..], c, entity)
  }

  lemma {:induction false} ReplaceConcat(a: string, b: string, c: char, entity: string)
    ensures ReplaceAll(a + b, c, entity) == ReplaceAll(a, c, entity) + ReplaceAll(b, c, entity)
  {
    if a == [] {
      assert a + b == b;
    } else {
      assert (a + b)[0] == a[0] && (a + b)[1..] == a[1..] + b;
      ReplaceConcat(a[1..], b, c, entity);
    }
  }

  /** The first five replaces of `encodeContent`, `&` first. */
  function EscapeChain(s: string): string {
    ReplaceAll(ReplaceAll(ReplaceAll(ReplaceAll(ReplaceAll(s, '&', "&amp;"), '<', "&lt;"), '>', "&gt;"), '"', "&quot;"), '\'', "&apos;")
  }

  /** The entity one character is escaped to. */
  function EscapeChar(c: char): (r: string)
    ensures forall i :: 0 <= i < |r| ==> !Markup(r[i])
  {
    match c
    case '&' => "&amp;"
    case '<' => "&lt;"
    case '>' => "&gt;"
    case '"' => "&quot;"
    case '\'' => "&apos;"
    case _ => [c]
  }

  /** Escaping character by character. */
  function Escaped(s: string): (r: string)
    ensures forall i :: 0 <= i < |r| ==> !Markup(r[i])
  {
    if s == [] then [] else EscapeChar(s[0]) + Escaped(s[1..])
  }

  lemma EscapeChainConcat(a: string, b: string)
    ensures EscapeChain(a + b) == EscapeChain(a) + EscapeChain(b)
  {
    var r1a, r1b := ReplaceAll(a, '&', "&amp;"), ReplaceAll(b, '&', "&amp;");
    ReplaceConcat(a, b, '&', "&amp;");
    var r2a, r2b := ReplaceAll(r1a, '<', "&lt;"), ReplaceAll(r1b, '<', "&lt;");
    ReplaceConcat(r1a, r1b, '<', "&lt;");
    var r3a, r3b := ReplaceAll(r2a, '>', "&gt;"), ReplaceAll(r2b, '>', "&gt;");
    ReplaceConcat(r2a, r2b, '>', "&gt;");
    var r4a, r4b := ReplaceAll(r3a, '"', "&quot;"), ReplaceAll(r3b, '"', "&quot;");
    ReplaceConcat(r3a, r3b, '"', "&quot;");
    ReplaceConcat(r4a, r4b, '\'', "&apos;");
  }

  lemma EscapeChainOne(c: char)
    ensures EscapeChain([c]) == EscapeChar(c)
  {
    if c == '&' {
      EscapeAmp(c);
    } else if c == '<' {
      EscapeLt(c);
    } else if c == '>' {
      EscapeGt(c);
    } else if c == '"' {
      EscapeQuot(c);
    } else if c == '\'' {
      EscapeApos(c);
    } else {
      ReplaceOne(c, '&', "&amp;");
      ReplaceOne(c, '<', "&lt;");
      ReplaceOne(c, '>', "&gt;");
      ReplaceOne(c, '"', "&quot;");
      ReplaceOne(c, '\'', "&apos;");
    }
  }

  // Each entity the chain writes holds none of the characters replaced after it.

  lemma EscapeAmp(c: char)
    requires c == '&'
    ensures EscapeChain([c]) == "&amp;"
  {
    var r1 := ReplaceAll([c], '&', "&amp;");
    ReplaceOne(c, '&', "&amp;");
    assert r1 == "&amp;";
    var r2 := ReplaceAll(r1, '<', "&lt;");
    ReplaceAbsent("&amp;", '<', "&lt;");
    assert r2 == "&amp;";
    var r3 := ReplaceAll(r2, '>', "&gt;");
    ReplaceAbsent("&amp;", '>', "&gt;");
    assert r3 == "&amp;";
    var r4 := ReplaceAll(r3, '"', "&quot;");
    ReplaceAbsent("&amp;", '"', "&quot;");
    assert r4 == "&amp;";
    var r5 := ReplaceAll(r4, '\'', "&apos;");
    ReplaceAbsent("&amp;", '\'', "&apos;");
    assert r5 == "&amp;";
  }

  lemma EscapeLt(c: char)
    requires c == '<'
    ensures EscapeChain([c]) == "&lt;"
  {
    var r1 := ReplaceAll([c], '&', "&amp;");
    ReplaceOne(c, '&', "&amp;");
    assert r1 == [c];
    var r2 := ReplaceAll(r1, '<', "&lt;");
    ReplaceOne(c, '<', "&lt;");
    assert r2 == "&lt;";
    var r3 := ReplaceAll(r2, '>', "&gt;");
    ReplaceAbsent("&lt;", '>', "&gt;");
    assert r3 == "&lt;";
    var r4 := ReplaceAll(r3, '"', "&quot;");
    ReplaceAbsent("&lt;", '"', "&quot;");
    assert r4 == "&lt;";
    var r5 := ReplaceAll(r4, '\'', "&apos;");
    ReplaceAbsent("&lt;", '\'', "&apos;");
    assert r5 == "&lt;";
  }

  lemma EscapeGt(c: char)
    requires c == '>'
    ensures EscapeChain([c]) == "&gt;"
  {
    var r1 := ReplaceAll([c], '&', "&amp;");
    ReplaceOne(c, '&', "&amp;");
    assert r1 == [c];
    var r2 := ReplaceAll(r1, '<', "&lt;");
    ReplaceOne(c, '<', "&lt;");
    assert r2 == [c];
    var r3 := ReplaceAll(r2, '>', "&gt;");
    ReplaceOne(c, '>', "&gt;");
    assert r3 == "&gt;";
    var r4 := ReplaceAll(r3, '"', "&quot;");
    ReplaceAbsent("&gt;", '"', "&quot;");
    assert r4 == "&gt;";
    var r5 := ReplaceAll(r4, '\'', "&apos;");
    ReplaceAbsent("&gt;", '\'', "&apos;");
    assert r5 == "&gt;";
  }

  lemma EscapeQuot(c: char)
    requires c == '"'
    ensures EscapeChain([c]) == "&quot;"
  {
    var r1 := ReplaceAll([c], '&', "&amp;");
    ReplaceOne(c, '&', "&amp;");
    assert r1 == [c];
    var r2 := ReplaceAll(r1, '<', "&lt;");
    ReplaceOne(c, '<', "&lt;");
    assert r2 == [c];
    var r3 := ReplaceAll(r2, '>', "&gt;");
    ReplaceOne(c, '>', "&gt;");
    assert r3 == [c];
    var r4 := ReplaceAll(r3, '"', "&quot;");
    ReplaceOne(c, '"', "&quot;");
    assert r4 == "&quot;";
    var r5 := ReplaceAll(r4, '\'', "&apos;");
    ReplaceAbsent("&quot;", '\'', "&apos;");
    assert r5 == "&quot;";
  }

  lemma EscapeApos(c: char)
    requires c == '\''
    ensures EscapeChain([c]) == "&apos;"
  {
    var r1 := ReplaceAll([c], '&', "&amp;");
    ReplaceOne(c, '&', "&amp;");
    assert r1 == [c];
    var r2 := ReplaceAll(r1, '<', "&lt;");
    ReplaceOne(c, '<', "&lt;");
    assert r2 == [c];
    var r3 := ReplaceAll(r2, '>', "&gt;");
    ReplaceOne(c, '>', "&gt;");
    assert r3 == [c];
    var r4 := ReplaceAll(r3, '"', "&quot;");
    ReplaceOne(c, '"', "&quot;");
    assert r4 == [c];
    var r5 := ReplaceAll(r4, '\'', "&apos;");
    ReplaceOne(c, '\'', "&apos;");
    assert r5 == "&apos;";
  }

  lemma ReplaceOne(c: char, x: char, entity: string)
    ensures ReplaceAll([c], x, entity) == if c == x then entity else [c]
  {
    assert [c][1..] == [];
  }

  lemma {:induction false} ReplaceAbsent(s: string, x: char, entity: string)
    ensures x !in s ==> ReplaceAll(s, x, entity) == s
  {
    if s != [] && x !in s {
      ReplaceAbsent(s[1..], x, entity);
      assert x !in s[1..];
    }
  }

  /**
   * Because `&` is replaced first, the chain escapes every character once:
   * the entities it introduces are not escaped again, and an entity already
   * in the text has its `&` escaped.
   */
  lemma {:induction false} EscapeChainPerChar(s: string)
    ensures EscapeChain(s) == Escaped(s)
  {
    if s == [] {
    } else {
      assert s == [s[0]] + s[1..];
      EscapeChainConcat([s[0]], s[1..]);
      EscapeChainOne(s[0]);
      EscapeChainPerChar(s[1..]);
    }
  }

  // ---------------------------------------------------------------------------
  // Line breaks: /\s*[\r\n]+\s*/g
  // ---------------------------------------------------------------------------

  /** The length of the white space run `s` starts with. */
  function SpaceRun(s: string): (n: nat)
    ensures n <= |s|
    ensures forall i :: 0 <= i < n ==> IsJsSpace(s[i])
    ensures n < |s| ==> !IsJsSpace(s[n])
  {
    if s == [] || !IsJsSpace(s[0]) then 0 else 1 + SpaceRun(s[1..])
  }

  const BreakTag: string := "<br />"

  /** What a maximal white space run becomes: `<br />` if it holds a line break, else itself. */
  function Piece(run: string): (r: string)
    ensures forall i :: 0 <= i < |r| ==> !IsLineBreak(r[i])
  {
    if exists i :: 0 <= i < |run| && IsLineBreak(run[i]) then BreakTag else run
  }

  /**
   * The sixth replace. The leftmost match starts where a white space run
   * starts, and the greedy `\s*` around `[\r\n]+` take in the whole run, so
   * each maximal run holding a line break becomes one `<br />` and every
   * other run stays.
   */
  function BreakLines(s: string): (r: string)
    ensures forall i :: 0 <= i < |r| ==> !IsLineBreak(r[i])
    decreases |s|
  {
    if s == [] then []
    else
      var n := if IsJsSpace(s[0]) then SpaceRun(s) else 1;
      var head := if IsJsSpace(s[0]) then Piece(s[..n]) else [s[0]];
      var rest := BreakLines(s[n..]);
      assert forall i :: |head| <= i < |head + rest| ==> (head + rest)[i] == rest[i - |head|];
      head + rest
  }

  /** One step of `BreakLines`: the first character or run, then the rest. */
  lemma BreakStep(s: string)
    requires s != []
    ensures var n := if IsJsSpace(s[0]) then SpaceRun(s) else 1;
      && 0 < n <= |s|
      && BreakLines(s) == (if IsJsSpace(s[0]) then Piece(s[..n]) else [s[0]]) + BreakLines(s[n..])
  {
  }

  /** `BreakStep` with the step's length and output named by the caller. */
  lemma BreakStepWith(s: string, n: nat, head: string)
    requires s != []
    requires n == if IsJsSpace(s[0]) then SpaceRun(s) else 1
    requires 0 < n <= |s|
    requires head == if IsJsSpace(s[0]) then Piece(s[..n]) else [s[0]]
    ensures BreakLines(s) == head + BreakLines(s[n..])
  {
    BreakStep(s);
  }

  /** A run never reaches across a character that is not white space. */
  lemma {:induction false} BreakConcat(a: string, b: string)
    requires a == [] || !IsJsSpace(a[|a| - 1])
    ensures BreakLines(a + b) == BreakLines(a) + BreakLines(b)
    decreases |a|
  {
    if a == [] {
      assert a + b == b;
    } else {
      BreakStep(a);
      var n := if IsJsSpace(a[0]) then SpaceRun(a) else 1;
      assert 0 < n <= |a|;
      var head := if IsJsSpace(a[0]) then Piece(a[..n]) else [a[0]];
      BreakStepWith(a, n, head);
      assert (a + b)[0] == a[0];
      if IsJsSpace(a[0]) {
        assert n < |a|;
        SpaceRunPrefix(a, b);
      }
      SplitConcat(a, b, n);
      BreakStepWith(a + b, n, head);
      var tail := a[n..];
      LastOfSuffix(a, n);
      BreakConcat(tail, b);
      Regroup(BreakLines(a + b), BreakLines(a), head, BreakLines(tail), BreakLines(b));
    }
  }

  lemma SplitConcat<T>(a: seq<T>, b: seq<T>, n: nat)
    requires n <= |a|
    ensures (a + b)[..n] == a[..n] && (a + b)[n..] == a[n..] + b
  {
  }

  lemma TakeDrop<T>(s: seq<T>, n: nat)
    requires n <= |s|
    ensures s[..n] + s[n..] == s
  {
  }

  lemma LastOfSuffix<T>(a: seq<T>, n: nat)
    requires 0 < n <= |a|
    ensures a[n..] == [] || a[n..][|a[n..]| - 1] == a[|a| - 1]
  {
  }

  lemma Regroup<T>(whole: seq<T>, part: seq<T>, h: seq<T>, x: seq<T>, y: seq<T>)
    requires whole == h + (x + y) && part == h + x
    ensures whole == part + y
  {
  }

  lemma SpaceRunPrefix(a: string, b: string)
    requires SpaceRun(a) < |a|
    ensures SpaceRun(a + b) == SpaceRun(a)
  {
    var n, m := SpaceRun(a), SpaceRun(a + b);
    assert (a + b)[n] == a[n];
    if m < n {
      assert (a + b)[m] == a[m];
    }
  }

  /** A maximal white space run holding a line break becomes one `<br />`. */
  lemma BreakRun(w: string, b: string)
    requires |w| > 0 && forall i :: 0 <= i < |w| ==> IsJsSpace(w[i])
    requires exists i :: 0 <= i < |w| && IsLineBreak(w[i])
    requires b == [] || !IsJsSpace(b[0])
    ensures BreakLines(w + b) == BreakTag + BreakLines(b)
  {
    RunOf(w, b);
    BreakStep(w + b);
  }

  /** A maximal white space run without a line break stays as it is. */
  lemma KeepRun(w: string, b: string)
    requires |w| > 0 && forall i :: 0 <= i < |w| ==> IsJsSpace(w[i]) && !IsLineBreak(w[i])
    requires b == [] || !IsJsSpace(b[0])
    ensures BreakLines(w + b) == w + BreakLines(b)
  {
    RunOf(w, b);
    BreakStep(w + b);
  }

  lemma RunOf(w: string, b: string)
    requires |w| > 0 && forall i :: 0 <= i < |w| ==> IsJsSpace(w[i])
    requires b == [] || !IsJsSpace(b[0])
    ensures SpaceRun(w + b) == |w| && (w + b)[..|w|] == w && (w + b)[|w|..] == b
  {
    var s := w + b;
    assert forall i :: 0 <= i < |w| ==> s[i] == w[i];
    if |w| < |s| {
      assert s[|w|] == b[0];
    }
  }

  lemma PiecePlain(s: string, n: nat)
    requires n <= |s| && forall i :: 0 <= i < |s| ==> !IsLineBreak(s[i])
    ensures Piece(s[..n]) == s[..n]
  {
    var run := s[..n];
    assert forall i :: 0 <= i < |run| ==> run[i] == s[i];
  }

  /** Text without line breaks goes through unchanged. */
  lemma {:induction false} BreakPlain(s: string)
    requires forall i :: 0 <= i < |s| ==> !IsLineBreak(s[i])
    ensures BreakLines(s) == s
    decreases |s|
  {
    if s != [] {
      BreakStep(s);
      var n := if IsJsSpace(s[0]) then SpaceRun(s) else 1;
      assert 0 < n <= |s|;
      var head := if IsJsSpace(s[0]) then Piece(s[..n]) else [s[0]];
      BreakStepWith(s, n, head);
      var tail := s[n..];
      assert forall i :: 0 <= i < |tail| ==> tail[i] == s[n + i];
      BreakPlain(tail);
      if IsJsSpace(s[0]) {
        PiecePlain(s, n);
      }
      assert head == s[..n];
      TakeDrop(s, n);
    }
  }

  // ---------------------------------------------------------------------------
  // The last replace: `rep`
  // ---------------------------------------------------------------------------

  function StripInvisible(s: string): (r: string)
    ensures forall i :: 0 <= i < |r| ==> !Invisible(r[i])
    ensures forall c :: c in r <==> c in s && !Invisible(c)
    ensures (forall i :: 0 <= i < |s| ==> !Invisible(s[i])) ==> r == s
  {
    if s == [] then []
    else
      var rest := StripInvisible(s[1..]);
      assert forall c :: c in s <==> c == s[0] || c in s[1..];
      if Invisible(s[0]) then rest
      else
        assert forall i :: 1 <= i < |[s[0]] + rest| ==> ([s[0]] + rest)[i] == rest[i - 1];
        [s[0]] + rest
  }

  lemma {:induction false} StripConcat(a: string, b: string)
    ensures StripInvisible(a + b) == StripInvisible(a) + StripInvisible(b)
  {
    if a == [] {
      assert a + b == b;
    } else {
      assert (a + b)[0] == a[0] && (a + b)[1..] == a[1..] + b;
      StripConcat(a[1..], b);
    }
  }

  // ---------------------------------------------------------------------------
  // encodeContent
  // ---------------------------------------------------------------------------

  function EncodeContent(s: string): string {
    StripInvisible(BreakLines(EscapeChain(s)))
  }

  /** The text `<br />` starts at `j`. */
  predicate TagAt(r: string, j: int) {
    && 0 <= j && j + 6 <= |r|
    && r[j] == '<' && r[j + 1] == 'b' && r[j + 2] == 'r' && r[j + 3] == ' ' && r[j + 4] == '/' && r[j + 5] == '>'
  }

  /** Text cut into `<br />` tags and characters that are not markup. */
  predicate Tagged(r: string)
    decreases |r|
  {
    || r == []
    || (TagAt(r, 0) && Tagged(r[6..]))
    || (!Markup(r[0]) && Tagged(r[1..]))
  }

  /**
   * Every `<` begins a `<br />`, every `>` ends one, and there is no quote
   * or apostrophe.
   */
  predicate OnlyBreakTags(r: string) {
    && (forall i :: 0 <= i < |r| && r[i] == '<' ==> TagAt(r, i))
    && (forall i :: 0 <= i < |r| && r[i] == '>' ==> TagAt(r, i - 5))
    && (forall i :: 0 <= i < |r| ==> r[i] != '"' && r[i] != '\'')
  }

  lemma {:induction false} TaggedShape(r: string)
    requires Tagged(r)
    ensures OnlyBreakTags(r)
    decreases |r|
  {
    if r == [] {
    } else if TagAt(r, 0) && Tagged(r[6..]) {
      TaggedShape(r[6..]);
      TagShift(r, r[6..], 6);
    } else {
      TaggedShape(r[1..]);
      TagShift(r, r[1..], 1);
    }
  }

  /** `OnlyBreakTags` carries over from the tail `t` to `r`, given how `r` starts. */
  lemma TagShift(r: string, t: string, k: nat)
    requires (k == 6 && TagAt(r, 0)) || (k == 1 && |r| >= 1 && !Markup(r[0]))
    requires t == r[k..] && OnlyBreakTags(t)
    ensures OnlyBreakTags(r)
  {
    forall i | 0 <= i < |r| && r[i] == '<' ensures TagAt(r, i) {
      if i >= k {
        assert t[i - k] == '<';
      }
    }
    forall i | 0 <= i < |r| && r[i] == '>' ensures TagAt(r, i - 5) {
      if i >= k {
        assert t[i - k] == '>';
      }
    }
    forall i | 0 <= i < |r| ensures r[i] != '"' && r[i] != '\'' {
      if i >= k {
        assert r[i] == t[i - k];
      }
    }
  }

  lemma {:induction false} TaggedPlain(x: string, y: string)
    requires forall i :: 0 <= i < |x| ==> !Markup(x[i])
    requires Tagged(y)
    ensures Tagged(x + y)
  {
    if x != [] {
      TaggedPlain(x[1..], y);
      assert (x + y)[1..] == x[1..] + y;
    } else {
      assert x + y == y;
    }
  }

  /** A `<br />` tag holds no invisible character, so stripping keeps it. */
  /** No character of `<br />` is one `rep` deletes. */
  lemma TagChars(x: string)
    requires |x| == 6 && TagAt(x, 0)
    ensures forall i :: 0 <= i < |x| ==> !Invisible(x[i])
  {
    forall i | 0 <= i < |x| ensures !Invisible(x[i]) {
      assert x[i] == '<' || x[i] == 'b' || x[i] == 'r' || x[i] == ' ' || x[i] == '/' || x[i] == '>';
    }
  }

  lemma TagVisible(x: string)
    requires |x| == 6 && TagAt(x, 0)
    ensures StripInvisible(x) == x
  {
    TagChars(x);
  }

  lemma TaggedTag(x: string, y: string)
    requires |x| == 6 && TagAt(x, 0) && Tagged(y)
    ensures Tagged(x + y)
  {
    assert (x + y)[6..] == y;
  }

  lemma {:induction false} TaggedBreakLines(s: string)
    requires forall i :: 0 <= i < |s| ==> !Markup(s[i])
    ensures Tagged(BreakLines(s))
    decreases |s|
  {
    if s != [] {
      var n := if IsJsSpace(s[0]) then SpaceRun(s) else 1;
      BreakStep(s);
      TaggedBreakLines(s[n..]);
      var head := if IsJsSpace(s[0]) then Piece(s[..n]) else [s[0]];
      if head == BreakTag {
        TaggedTag(BreakTag, BreakLines(s[n..]));
      } else {
        TaggedPlain(head, BreakLines(s[n..]));
      }
    }
  }

  lemma {:induction false} TaggedStrip(r: string)
    requires Tagged(r)
    ensures Tagged(StripInvisible(r))
    decreases |r|
  {
    if r == [] {
    } else if TagAt(r, 0) && Tagged(r[6..]) {
      TaggedStrip(r[6..]);
      assert r == r[..6] + r[6..];
      StripConcat(r[..6], r[6..]);
      TagVisible(r[..6]);
      TaggedTag(r[..6], StripInvisible(r[6..]));
    } else {
      TaggedStrip(r[1..]);
      assert r == [r[0]] + r[1..];
      StripConcat([r[0]], r[1..]);
      if !Invisible(r[0]) {
        TaggedPlain([r[0]], StripInvisible(r[1..]));
      }
    }
  }

  /**
   * What `encodeContent` promises: the only markup left is `<br />`, and
   * no line break or other invisible character survives.
   */
  lemma EncodeContentSafe(s: string)
    ensures OnlyBreakTags(EncodeContent(s))
    ensures forall i :: 0 <= i < |EncodeContent(s)| ==> !Invisible(EncodeContent(s)[i]) && !IsLineBreak(EncodeContent(s)[i])
  {
    EscapeChainPerChar(s);
    TaggedBreakLines(Escaped(s));
    TaggedStrip(BreakLines(Escaped(s)));
    TaggedShape(EncodeContent(s));
  }

  /** Text with nothing to escape, no line break and nothing invisible comes out unchanged. */
  lemma EncodePlain(s: string)
    requires forall i :: 0 <= i < |s| ==> !Markup(s[i]) && s[i] != '&' && !Invisible(s[i])
    ensures EncodeContent(s) == s
  {
    EscapeChainPerChar(s);
    EscapedPlain(s);
    BreakPlain(s);
  }

  lemma {:induction false} EscapedPlain(s: string)
    requires forall i :: 0 <= i < |s| ==> !Markup(s[i]) && s[i] != '&'
    ensures Escaped(s) == s
  {
    if s != [] {
      EscapedPlain(s[1..]);
    }
  }

  // ---------------------------------------------------------------------------
  // toEpub: cutting the text into chapters
  // ---------------------------------------------------------------------------

  /** One match of the heading regex: where it starts, and the title it captured. */
  datatype Heading = Heading(index: nat, title: string)

  datatype Chapter = Chapter(title: string, content: string)

  /** What `matchAll` guarantees: the matches lie inside the text, in increasing order. */
  predicate HeadingsIn(data: string, hs: seq<Heading>) {
    && (forall i :: 0 <= i < |hs| ==> hs[i].index <= |data|)
    && (forall i, j :: 0 <= i < j < |hs| ==> hs[i].index < hs[j].index)
  }

  /** The text of chapter `k`: from heading `k`, heading included, up to heading `k + 1`. */
  function Span(data: string, hs: seq<Heading>, k: nat): string
    requires HeadingsIn(data, hs) && k + 1 < |hs|
  {
    data[hs[k].index..hs[k + 1].index]
  }

  /**
   * The chapter loop of `toEpub`: one chapter per heading but the last, in
   * heading order, titled by its heading and holding its span, encoded.
   */
  method SplitChapters(data: string, hs: seq<Heading>) returns (chaps: seq<Chapter>)
    requires HeadingsIn(data, hs)
    ensures |chaps| == Max(|hs| - 1, 0)
    ensures forall k :: 0 <= k < |chaps| ==> chaps[k] == Chapter(hs[k].title, EncodeContent(Span(data, hs, k)))
  {
    chaps := [];
    var i := 1;
    while i < |hs|
      invariant 1 <= i <= Max(|hs|, 1)
      invariant |chaps| == i - 1
      invariant forall k :: 0 <= k < |chaps| ==> chaps[k] == Chapter(hs[k].title, EncodeContent(Span(data, hs, k)))
    {
      var content := data[hs[i - 1].index..hs[i].index];
      var title := hs[i - 1].title;
      chaps := chaps + [Chapter(title, EncodeContent(content))];
      i := i + 1;
    }
  }

  /** The texts of the chapters cut at the first `n` headings. */
  function Spans(data: string, hs: seq<Heading>, n: nat): (ss: seq<string>)
    requires HeadingsIn(data, hs) && 1 <= n <= |hs|
    ensures |ss| == n - 1 && forall k :: 0 <= k < n - 1 ==> ss[k] == Span(data, hs, k)
  {
    seq(n - 1, k requires 0 <= k < n - 1 => Span(data, hs, k))
  }

  function Concat(ss: seq<string>): string {
    if ss == [] then [] else Concat(ss[..|ss| - 1]) + ss[|ss| - 1]
  }

  /**
   * The chapter texts tile the text from the first heading to the last one:
   * what precedes the first heading and what follows the last is dropped.
   */
  lemma {:induction false} SpansTile(data: string, hs: seq<Heading>, n: nat)
    requires HeadingsIn(data, hs) && 1 <= n <= |hs|
    ensures Concat(Spans(data, hs, n)) == data[hs[0].index..hs[n - 1].index]
  {
    if n > 1 {
      SpansTile(data, hs, n - 1);
      var ss := Spans(data, hs, n);
      assert ss[..|ss| - 1] == Spans(data, hs, n - 1);
      var a, b, c := hs[0].index, hs[n - 2].index, hs[n - 1].index;
      assert data[a..b] + data[b..c] == data[a..c];
    }
  }

  /**
   * As written, the chapters stop at the last heading: when text follows it,
   * that text is in no chapter.
   */
  lemma LastChapterLost(data: string, hs: seq<Heading>)
    requires HeadingsIn(data, hs) && 1 <= |hs| && hs[|hs| - 1].index < |data|
    ensures |Concat(Spans(data, hs, |hs|))| < |data| - hs[0].index
  {
    SpansTile(data, hs, |hs|);
  }

  // ---------------------------------------------------------------------------
  // toEpub with the last chapter kept
  // ---------------------------------------------------------------------------

  /** The text of chapter `k` when the last chapter runs to the end of the text. */
  function SpanToEnd(data: string, hs: seq<Heading>, k: nat): string
    requires HeadingsIn(data, hs) && k < |hs|
  {
    data[hs[k].index..if k + 1 < |hs| then hs[k + 1].index else |data|]
  }

  /** The chapter loop with one chapter per heading, the last one running to the end of the text. */
  method SplitAllChapters(data: string, hs: seq<Heading>) returns (chaps: seq<Chapter>)
    requires HeadingsIn(data, hs)
    ensures |chaps| == |hs|
    ensures forall k :: 0 <= k < |chaps| ==> chaps[k] == Chapter(hs[k].title, EncodeContent(SpanToEnd(data, hs, k)))
  {
    chaps := [];
    var i := 0;
    while i < |hs|
      invariant 0 <= i <= |hs|
      invariant |chaps| == i
      invariant forall k :: 0 <= k < i ==> chaps[k] == Chapter(hs[k].title, EncodeContent(SpanToEnd(data, hs, k)))
    {
      var end := if i + 1 < |hs| then hs[i + 1].index else |data|;
      chaps := chaps + [Chapter(hs[i].title, EncodeContent(data[hs[i].index..end]))];
      i := i + 1;
    }
  }

  /** The texts of the chapters `SplitAllChapters` cuts. */
  function SpansToEnd(data: string, hs: seq<Heading>): (ss: seq<string>)
    requires HeadingsIn(data, hs)
    ensures |ss| == |hs| && forall k :: 0 <= k < |hs| ==> ss[k] == SpanToEnd(data, hs, k)
  {
    seq(|hs|, k requires 0 <= k < |hs| => SpanToEnd(data, hs, k))
  }

  /** With the last chapter kept, the chapters tile all the text from the first heading on. */
  lemma SpansToEndTile(data: string, hs: seq<Heading>)
    requires HeadingsIn(data, hs) && 1 <= |hs|
    ensures Concat(SpansToEnd(data, hs)) == data[hs[0].index..]
  {
    var n := |hs|;
    var ss := SpansToEnd(data, hs);
    SpansTile(data, hs, n);
    assert ss[..n - 1] == Spans(data, hs, n);
    var a, b := hs[0].index, hs[n - 1].index;
    assert data[a..b] + data[b..] == data[a..];
  }
}
