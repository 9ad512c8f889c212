/**
 * The text step of `Session.replace`, on values: the tree under a `<text>`
 * element, the last text node with visible text (`#findLastTextNode`),
 * whitespace collapsing and trimming per text node (`#processTextNode`, after
 * section 10.15 of SVG 1.1), the order of font requests, and the grouping of
 * consecutive characters with the same font (`#makeTextGroups`).
 */
module SessionText {
  import opened Wrappers
  import opened FontStyle
  import opened FontResolution
  import SessionStyle
  import FontResolutionLemmas
  import FontFactory

  /** A DOM node: text nodes carry an identity, elements their computed style and attributes. */
  datatype Node =
    | Text(id: nat, content: string)
    | Element(name: string, props: SessionStyle.CssProps, attrs: map<string, string>, children: seq<Node>)
    | Other

  /** A text node in document order, with the computed style of its parent element. */
  datatype TextItem = TextItem(id: nat, content: string, parent: SessionStyle.CssProps)

  /** The text nodes under `n` in document order. */
  function TextNodes(n: Node, parent: SessionStyle.CssProps): seq<TextItem>
    decreases n, 1
  {
    match n
    case Text(id, content) => [TextItem(id, content, parent)]
    case Element(_, _, _, cs) => ChildTexts(n, |cs|)
    case Other => []
  }

  /** The text nodes under the first `k` children of element `n`. */
  function ChildTexts(n: Node, k: nat): seq<TextItem>
    requires n.Element? && k <= |n.children|
    decreases n, 0, k
  {
    if k == 0 then [] else ChildTexts(n, k - 1) + TextNodes(n.children[k - 1], n.props)
  }

  /** The characters `[\t\n\r ]` that collapse into one space. */
  predicate Collapsible(c: char) {
    c == ' ' || c == '\t' || c == '\n' || c == '\r'
  }

  /** `/[^\t\n\r ]/.test(s)`. */
  predicate HasText(s: string) {
    exists i :: 0 <= i < |s| && !Collapsible(s[i])
  }

  /** The identity of the last text node, in order, that has visible text. */
  function LastWithText(items: seq<TextItem>): (r: Option<nat>)
    ensures r.Some? ==> exists i :: 0 <= i < |items| && items[i].id == r.value && HasText(items[i].content)
    ensures r.None? ==> forall i :: 0 <= i < |items| ==> !HasText(items[i].content)
  {
    if items == [] then None
    else if HasText(items[|items| - 1].content) then Some(items[|items| - 1].id)
    else LastWithText(items[..|items| - 1])
  }

  lemma {:induction false} LastWithTextAppend(a: seq<TextItem>, b: seq<TextItem>)
    ensures LastWithText(a + b) == if LastWithText(b).Some? then LastWithText(b) else LastWithText(a)
    decreases |b|
  {
    if b == [] {
      assert a + b == a;
    } else {
      var n := |b| - 1;
      assert (a + b)[..|a + b| - 1] == a + b[..n];
      assert (a + b)[|a + b| - 1] == b[n];
      LastWithTextAppend(a, b[..n]);
    }
  }

  /** `#findLastTextNode`: the last text node, in document order, with visible text. */
  method FindLastTextNode(n: Node, parent: SessionStyle.CssProps) returns (r: Option<nat>)
    ensures r == LastWithText(TextNodes(n, parent))
    decreases n
  {
    match n
    case Text(id, content) =>
      r := if HasText(content) then Some(id) else None;
    case Element(_, props, _, cs) =>
      r := None;
      var i := 0;
      while i < |cs|
        invariant 0 <= i <= |cs|
        invariant r == LastWithText(ChildTexts(n, i))
      {
        var found := FindLastTextNode(cs[i], props);
        LastWithTextAppend(ChildTexts(n, i), TextNodes(cs[i], props));
        if found.Some? {
          r := found;
        }
        i := i + 1;
      }
    case Other =>
      r := None;
  }

  // ---------------------------------------------------------------- whitespace

  /** Length of the leading run of collapsible characters. */
  function CollapsibleRun(s: string): (n: nat)
    ensures n <= |s|
    ensures forall i :: 0 <= i < n ==> Collapsible(s[i])
    ensures n < |s| ==> !Collapsible(s[n])
  {
    if s == [] || !Collapsible(s[0]) then 0 else 1 + CollapsibleRun(s[1..])
  }

  /** `s.replace(/[\t\n\r ]+/g, ' ')`. */
  function Collapse(s: string): string
    decreases |s|
  {
    if s == [] then []
    else if Collapsible(s[0]) then [' '] + Collapse(s[CollapsibleRun(s)..])
    else [s[0]] + Collapse(s[1..])
  }

  /** Text already collapsed: no tab or line break, no two spaces in a row. */
  predicate Collapsed(s: string) {
    (forall i :: 0 <= i < |s| ==> s[i] != '\t' && s[i] != '\n' && s[i] != '\r') &&
    (forall i :: 0 <= i < |s| - 1 ==> !(s[i] == ' ' && s[i + 1] == ' '))
  }

  /** Collapsing yields collapsed text whose first character is a space only if `s` began with whitespace. */
  lemma {:induction false} CollapseCollapsed(s: string)
    ensures Collapsed(Collapse(s))
    ensures Collapse(s) != [] ==> (Collapse(s)[0] == ' ' <==> Collapsible(s[0]))
    ensures Collapse(s) == [] <==> s == []
    decreases |s|
  {
    if s != [] {
      if Collapsible(s[0]) {
        var t := s[CollapsibleRun(s)..];
        CollapseCollapsed(t);
        if t != [] {
          assert !Collapsible(t[0]);
        }
      } else {
        CollapseCollapsed(s[1..]);
      }
    }
  }

  /** Collapsing leaves collapsed text as it is, so it is idempotent. */
  lemma {:induction false} CollapseIdempotent(s: string)
    requires Collapsed(s)
    ensures Collapse(s) == s
    decreases |s|
  {
    if s != [] {
      assert Collapsed(s[1..]);
      if Collapsible(s[0]) {
        assert s[0] == ' ';
        assert CollapsibleRun(s) == 1 by {
          if |s| > 1 {
            assert !Collapsible(s[1]);
          }
        }
      }
      CollapseIdempotent(s[1..]);
    }
  }

  /** Visible characters survive collapsing. */
  lemma {:induction false} CollapseKeepsText(s: string)
    ensures HasText(Collapse(s)) <==> HasText(s)
    decreases |s|
  {
    if s != [] {
      if Collapsible(s[0]) {
        var n := CollapsibleRun(s);
        CollapseKeepsText(s[n..]);
        assert HasText(s) <==> HasText(s[n..]) by {
          if HasText(s) {
            var i :| 0 <= i < |s| && !Collapsible(s[i]);
            assert s[n..][i - n] == s[i];
          }
          if HasText(s[n..]) {
            var i :| 0 <= i < |s[n..]| && !Collapsible(s[n..][i]);
            assert s[n + i] == s[n..][i];
          }
        }
        var c := Collapse(s[n..]);
        assert HasText([' '] + c) <==> HasText(c) by {
          if HasText([' '] + c) {
            var i :| 0 <= i < |[' '] + c| && !Collapsible(([' '] + c)[i]);
            assert c[i - 1] == ([' '] + c)[i];
          }
          if HasText(c) {
            var i :| 0 <= i < |c| && !Collapsible(c[i]);
            assert ([' '] + c)[i + 1] == c[i];
          }
        }
      } else {
        assert !Collapsible(Collapse(s)[0]);
      }
    }
  }

  /** A text node's characters and the new `lastChar`. */
  datatype NodeText = NodeText(chars: string, lastChar: char)

  /** Drops the leading space of collapsed text that follows a space. */
  function AfterSpace(c0: string, lastChar: char): string {
    if |c0| > 0 && c0[0] == ' ' && lastChar == ' ' then c0[1..] else c0
  }

  /** On the last text node, drops one trailing space. */
  function TrimLastSpace(c1: string, isLast: bool): string {
    if isLast && |c1| > 0 && c1[|c1| - 1] == ' ' then c1[..|c1| - 1] else c1
  }

  function LastOr(s: string, d: char): char {
    if s == [] then d else s[|s| - 1]
  }

  /**
   * `#processTextNode` up to the font requests: collapse, drop a leading
   * space after a space, remember the last character, and on the last text
   * node drop one trailing space.
   */
  function NodeChars(content: string, lastChar: char, isLast: bool): NodeText {
    var c1 := AfterSpace(Collapse(content), lastChar);
    NodeText(TrimLastSpace(c1, isLast), LastOr(c1, lastChar))
  }

  /** The state `#processTextNode` threads through the text nodes of one `<text>`. */
  datatype Emitted = Emitted(chars: seq<string>, lastChar: char, ignore: bool)

  /** The characters of every text node in order; nodes after the last one with text give none. */
  function Emit(items: seq<TextItem>, lastText: Option<nat>): (e: Emitted)
    ensures |e.chars| == |items|
  {
    if items == [] then Emitted([], ' ', false)
    else
      var e := Emit(items[..|items| - 1], lastText);
      var it := items[|items| - 1];
      if e.ignore then Emitted(e.chars + [[]], e.lastChar, true)
      else
        var t := NodeChars(it.content, e.lastChar, Some(it.id) == lastText);
        Emitted(e.chars + [t.chars], t.lastChar, Some(it.id) == lastText)
  }

  function Concat(ss: seq<string>): string {
    if ss == [] then [] else Concat(ss[..|ss| - 1]) + ss[|ss| - 1]
  }

  /** The invariant `Emit` keeps over a prefix of the text nodes. */
  predicate EmitInv(items: seq<TextItem>, lastText: Option<nat>, e: Emitted) {
    var flat := Concat(e.chars);
    Collapsed(flat) && (flat != [] ==> flat[0] != ' ') &&
    (!e.ignore ==> LastOr(flat, ' ') == e.lastChar && forall i :: 0 <= i < |items| ==> Some(items[i].id) != lastText) &&
    (e.ignore ==> flat != [] && flat[|flat| - 1] != ' ') &&
    ((forall i :: 0 <= i < |items| ==> !HasText(items[i].content)) && !e.ignore ==> flat == [])
  }

  lemma CollapsedJoin(a: string, b: string)
    requires Collapsed(a) && Collapsed(b)
    requires a == [] || b == [] || !(a[|a| - 1] == ' ' && b[0] == ' ')
    ensures Collapsed(a + b)
  {
    var s := a + b;
    forall i | 0 <= i < |s| - 1 ensures !(s[i] == ' ' && s[i + 1] == ' ') {
      if i < |a| - 1 {
        assert s[i] == a[i] && s[i + 1] == a[i + 1];
      } else if i == |a| - 1 {
        assert s[i] == a[|a| - 1] && s[i + 1] == b[0];
      } else {
        assert s[i] == b[i - |a|] && s[i + 1] == b[i - |a| + 1];
      }
    }
  }

  lemma CollapsedSlice(s: string, i: nat, j: nat)
    requires Collapsed(s) && i <= j <= |s|
    ensures Collapsed(s[i..j])
  {
    var t := s[i..j];
    forall k | 0 <= k < |t| - 1 ensures !(t[k] == ' ' && t[k + 1] == ' ') {
      assert t[k] == s[i + k] && t[k + 1] == s[i + k + 1];
    }
  }

  /** Dropping a leading space keeps text collapsed and avoids a double space at the seam. */
  lemma AfterSpaceCollapsed(flat: string, lastChar: char, c0: string)
    requires Collapsed(flat) && (flat != [] ==> flat[0] != ' ') && LastOr(flat, ' ') == lastChar
    requires Collapsed(c0)
    ensures var c1 := AfterSpace(c0, lastChar);
      Collapsed(c1) && Collapsed(flat + c1) && (flat + c1 != [] ==> (flat + c1)[0] != ' ') &&
      LastOr(flat + c1, ' ') == LastOr(c1, lastChar)
  {
    var c1 := AfterSpace(c0, lastChar);
    if c1 != c0 {
      CollapsedSlice(c0, 1, |c0|);
      assert c1 == c0[1..|c0|];
      if c1 != [] {
        assert c1[0] == c0[1];
      }
    }
    CollapsedJoin(flat, c1);
    if flat == [] {
      assert flat + c1 == c1;
    } else if c1 == [] {
      assert flat + c1 == flat;
    } else {
      assert (flat + c1)[|flat + c1| - 1] == c1[|c1| - 1];
    }
  }

  /** Dropping the trailing space keeps the join collapsed. */
  lemma TrimLastSpaceCollapsed(flat: string, c1: string, isLast: bool)
    requires Collapsed(flat + c1) && (flat + c1 != [] ==> (flat + c1)[0] != ' ')
    ensures var flat' := flat + TrimLastSpace(c1, isLast);
      Collapsed(flat') && (flat' != [] ==> flat'[0] != ' ')
  {
    var c2 := TrimLastSpace(c1, isLast);
    if c2 != c1 {
      assert flat + c2 == (flat + c1)[..|flat + c1| - 1];
      CollapsedSlice(flat + c1, 0, |flat + c1| - 1);
    }
  }

  /** Collapsed text with a visible character still ends with one once a leading and a trailing space are dropped. */
  lemma TrimmedEnds(c0: string, lastChar: char)
    requires Collapsed(c0) && HasText(c0)
    ensures var c2 := TrimLastSpace(AfterSpace(c0, lastChar), true);
      c2 != [] && c2[|c2| - 1] != ' '
  {
    var c1 := AfterSpace(c0, lastChar);
    var k :| 0 <= k < |c0| && !Collapsible(c0[k]);
    if c1 != c0 {
      assert k >= 1 && c1[k - 1] == c0[k];
      k := k - 1;
    }
    assert !Collapsible(c1[k]);
    if c1[|c1| - 1] == ' ' {
      assert k < |c1| - 1;
      assert c0[|c0| - 2] == c1[|c1| - 2] && c0[|c0| - 1] == c1[|c1| - 1];
    }
  }

  /** On the last text node with visible text, the emitted text ends with a visible character. */
  lemma TrimLastSpaceEnds(lastChar: char, content: string)
    requires HasText(content)
    ensures var c1 := AfterSpace(Collapse(content), lastChar);
      var c2 := TrimLastSpace(c1, true);
      c2 != [] && c2[|c2| - 1] != ' '
  {
    CollapseCollapsed(content);
    CollapseKeepsText(content);
    TrimmedEnds(Collapse(content), lastChar);
  }

  /** A text node without visible text adds nothing at the start of the text. */
  lemma BlankAtStart(content: string)
    requires !HasText(content)
    ensures AfterSpace(Collapse(content), ' ') == []
  {
    var c0 := Collapse(content);
    CollapseCollapsed(content);
    CollapseKeepsText(content);
    if c0 != [] {
      assert !Collapsible(c0[0]) ==> HasText(c0);
      if |c0| > 1 {
        assert !Collapsible(c0[1]) ==> HasText(c0);
      }
    }
  }

  lemma NodeCharsStep(flat: string, lastChar: char, content: string, isLast: bool)
    requires Collapsed(flat) && (flat != [] ==> flat[0] != ' ') && LastOr(flat, ' ') == lastChar
    requires isLast ==> HasText(content)
    ensures var t := NodeChars(content, lastChar, isLast);
      var flat' := flat + t.chars;
      Collapsed(flat') && (flat' != [] ==> flat'[0] != ' ') &&
      (!isLast ==> LastOr(flat', ' ') == t.lastChar) &&
      (isLast ==> flat' != [] && flat'[|flat'| - 1] != ' ') &&
      (!HasText(content) && flat == [] ==> flat' == [] && t.lastChar == lastChar)
  {
    var c0 := Collapse(content);
    CollapseCollapsed(content);
    AfterSpaceCollapsed(flat, lastChar, c0);
    var c1 := AfterSpace(c0, lastChar);
    TrimLastSpaceCollapsed(flat, c1, isLast);
    if isLast {
      TrimLastSpaceEnds(lastChar, content);
      var c2 := TrimLastSpace(c1, true);
      assert (flat + c2)[|flat + c2| - 1] == c2[|c2| - 1];
    }
    if !HasText(content) && flat == [] {
      BlankAtStart(content);
      assert flat + c1 == [];
    }
  }

  lemma NotLastSnoc(items: seq<TextItem>, lastText: Option<nat>)
    requires items != [] && Some(items[|items| - 1].id) != lastText
    requires var p := items[..|items| - 1]; forall j :: 0 <= j < |p| ==> Some(p[j].id) != lastText
    ensures forall i :: 0 <= i < |items| ==> Some(items[i].id) != lastText
  {
    var p := items[..|items| - 1];
    assert forall i :: 0 <= i < |p| ==> items[i] == p[i];
  }

  /** One more text node keeps the invariant. */
  lemma EmitStep(items: seq<TextItem>, lastText: Option<nat>)
    requires items != [] && (Some(items[|items| - 1].id) == lastText ==> HasText(items[|items| - 1].content))
    requires EmitInv(items[..|items| - 1], lastText, Emit(items[..|items| - 1], lastText))
    ensures EmitInv(items, lastText, Emit(items, lastText))
  {
    var n := |items| - 1;
    var p, it := items[..n], items[n];
    var e, e' := Emit(p, lastText), Emit(items, lastText);
    var flat := Concat(e.chars);
    EmitSnoc(items, lastText);
    assert Concat(e'.chars) == flat + e'.chars[n];
    assert forall i :: 0 <= i < n ==> items[i] == p[i];
    var flat' := Concat(e'.chars);
    if e.ignore {
      assert flat' == flat by {
        assert flat + e'.chars[n] == flat;
      }
    } else {
      var isLast := Some(it.id) == lastText;
      if !isLast {
        NotLastSnoc(items, lastText);
      }
      var t := NodeChars(it.content, e.lastChar, isLast);
      assert flat' == flat + t.chars;
      NodeCharsStep(flat, e.lastChar, it.content, isLast);
    }
  }

  lemma {:induction false} EmitKeeps(items: seq<TextItem>, lastText: Option<nat>)
    requires lastText.Some? ==> forall i :: 0 <= i < |items| && items[i].id == lastText.value ==> HasText(items[i].content)
    ensures EmitInv(items, lastText, Emit(items, lastText))
    decreases |items|
  {
    if items != [] {
      var n := |items| - 1;
      var p := items[..n];
      assert forall i :: 0 <= i < |p| ==> p[i] == items[i];
      EmitKeeps(p, lastText);
      EmitStep(items, lastText);
    }
  }

  /** Collapsed text with no space at either end. */
  predicate Trimmed(s: string) {
    Collapsed(s) && (s != [] ==> s[0] != ' ' && s[|s| - 1] != ' ')
  }

  /**
   * Across all text nodes of a `<text>` element, when the last text node is
   * the one `#findLastTextNode` picks: the emitted characters are collapsed
   * and neither start nor end with a space.
   */
  lemma EmitCollapsesWhitespace(items: seq<TextItem>)
    requires forall i, j :: 0 <= i < j < |items| ==> items[i].id != items[j].id
    ensures Trimmed(Concat(Emit(items, LastWithText(items)).chars))
  {
    var lastText := LastWithText(items);
    if lastText.Some? {
      var i :| 0 <= i < |items| && items[i].id == lastText.value && HasText(items[i].content);
      forall j | 0 <= j < |items| && items[j].id == lastText.value ensures HasText(items[j].content) {
        assert j == i;
      }
      EmitKeeps(items, lastText);
      assert Emit(items, lastText).ignore;
    } else {
      EmitKeeps(items, lastText);
    }
  }

  // ---------------------------------------------------------- font requests

  /** The fonts asked for the characters of one text node, in request order. */
  datatype Requests = Requests(fonts: map<char, Outcome>, order: seq<char>, memo: Memo, rec: Option<Records>)

  /** One request: a character seen before is not asked again. */
  function RequestOne(env: Env, r: Requests, style: Style, c: char): Requests
    requires Ranked(env)
  {
    if c in r.fonts then r
    else
      var run := Resolve(env, r.memo, r.rec, c, style, None, false);
      Requests(r.fonts[c := run.out], r.order + [c], run.memo, run.rec)
  }

  /**
   * The request loop of `#processTextNode`: one `getFontForChar` per
   * distinct character, in order of first appearance, all with the shared
   * processing state.
   */
  function RequestFonts(env: Env, memo: Memo, rec: Option<Records>, style: Style, cs: string): Requests
    requires Ranked(env)
  {
    if cs == [] then Requests(map[], [], memo, rec)
    else RequestOne(env, RequestFonts(env, memo, rec, style, cs[..|cs| - 1]), style, cs[|cs| - 1])
  }

  /** The requests made so far are exactly the distinct characters seen so far, each once. */
  predicate RequestedOnce(r: Requests, cs: string) {
    FontFactory.NoDup(r.order) &&
    (forall c :: c in r.order <==> c in cs) &&
    (forall c :: c in r.fonts <==> c in cs)
  }

  lemma RequestOneOnce(env: Env, r: Requests, style: Style, cs: string, c: char)
    requires Ranked(env) && RequestedOnce(r, cs)
    ensures RequestedOnce(RequestOne(env, r, style, c), cs + [c])
  {
  }

  /** Every distinct character is requested exactly once. */
  lemma {:induction false} RequestFontsOnce(env: Env, memo: Memo, rec: Option<Records>, style: Style, cs: string)
    requires Ranked(env)
    ensures RequestedOnce(RequestFonts(env, memo, rec, style, cs), cs)
  {
    if cs != [] {
      var p := cs[..|cs| - 1];
      RequestFontsOnce(env, memo, rec, style, p);
      assert cs == p + [cs[|cs| - 1]];
      RequestOneOnce(env, RequestFonts(env, memo, rec, style, p), style, p, cs[|cs| - 1]);
    }
  }

  /**
   * What one resolved character guarantees when the processing state is
   * passed along: a TypeError is the one `getBestVariant` throws, or comes
   * from a family class that is not handed the state.
   */
  predicate CharOk(env: Env, c: char, o: Outcome) {
    var glyph := env.params.fallbackGlyph;
    (o.Found? && o.result.font.Some? ==> o.result.font.value.HasGlyph(o.result.ch)) &&
    (o.Found? ==> o.result.ch == c || (glyph.Some? && GlyphOf(glyph.value.1) == Some(o.result.ch))) &&
    (o.Found? && o.result.isFallback ==> glyph.Some? && GlyphOf(glyph.value.1) == Some(o.result.ch)) &&
    (o.RangeError? ==> glyph.Some? && GlyphOf(glyph.value.1).None?) &&
    (o.NoFontError? ==> glyph.None? && env.params.noFontAction != Ignore &&
                        o.skipNode == (env.params.noFontAction == SkipNode)) &&
    (o.TypeError? ==> o.cause.EmptyPass? || !env.classesShareState)
  }

  lemma {:induction false} RequestFontsOk(env: Env, memo: Memo, rec: Option<Records>, style: Style, cs: string)
    requires Ranked(env) && rec.Some?
    ensures var r := RequestFonts(env, memo, rec, style, cs);
      r.rec.Some? && forall c :: c in r.fonts ==> CharOk(env, c, r.fonts[c])
  {
    if cs != [] {
      var p := cs[..|cs| - 1];
      RequestFontsOk(env, memo, rec, style, p);
      var r := RequestFonts(env, memo, rec, style, p);
      assert RequestFonts(env, memo, rec, style, cs) == RequestOne(env, r, style, cs[|cs| - 1]);
      FontResolutionLemmas.ResolveOk(env, r.memo, r.rec, cs[|cs| - 1], style, None, false);
    }
  }

  /** The first request, in order, that did not find a font (the rejection `applyPromiseMap` reports). */
  function FirstFailure(fonts: map<char, Outcome>, order: seq<char>): (r: Option<Outcome>)
    requires forall c :: c in order ==> c in fonts
    ensures r.None? <==> forall i :: 0 <= i < |order| ==> fonts[order[i]].Found?
    ensures r.Some? ==> !r.value.Found? && exists i :: 0 <= i < |order| && fonts[order[i]] == r.value
  {
    if order == [] then None
    else if !fonts[order[0]].Found? then Some(fonts[order[0]])
    else
      var r := FirstFailure(fonts, order[1..]);
      assert forall i :: 1 <= i < |order| ==> order[i] == order[1..][i - 1];
      r
  }

  /** The first request that failed is the one the loop over the request order stops at. */
  lemma {:induction false} FirstFailureAt(fonts: map<char, Outcome>, order: seq<char>, j: nat)
    requires forall c :: c in order ==> c in fonts
    requires j < |order| && !fonts[order[j]].Found?
    requires forall k :: 0 <= k < j ==> fonts[order[k]].Found?
    ensures FirstFailure(fonts, order) == Some(fonts[order[j]])
  {
    if j > 0 {
      assert forall k :: 0 <= k < |order| - 1 ==> order[1..][k] == order[k + 1];
      FirstFailureAt(fonts, order[1..], j - 1);
    }
  }

  /** The resolved font of each character, once every request found one. */
  function Resolved(fonts: map<char, Outcome>, cs: string): (rs: seq<FontForChar>)
    requires forall i :: 0 <= i < |cs| ==> cs[i] in fonts && fonts[cs[i]].Found?
    ensures |rs| == |cs|
  {
    seq(|cs|, i requires 0 <= i < |cs| => fonts[cs[i]].result)
  }

  // --------------------------------------------------------------- grouping

  /** A run of consecutive characters drawn with the same font. */
  datatype TextGroup = TextGroup(text: string, font: Option<Font>, style: Style, isFallback: bool)

  /** Appends one character: it joins the last group when that has the same font. */
  function AddChar(gs: seq<TextGroup>, r: FontForChar): (gs': seq<TextGroup>)
    ensures gs' != [] && gs'[|gs'| - 1].font == r.font
  {
    if gs != [] && gs[|gs| - 1].font == r.font then
      gs[..|gs| - 1] + [TextGroup(gs[|gs| - 1].text + [r.ch], r.font, r.style, r.isFallback)]
    else gs + [TextGroup([r.ch], r.font, r.style, r.isFallback)]
  }

  /**
   * `#makeTextGroups` as evidently intended: consecutive characters with the
   * same font form one group, which carries the style and fallback flag of
   * its own last character.
   */
  function Grouped(rs: seq<FontForChar>): (gs: seq<TextGroup>)
    ensures gs == [] <==> rs == []
  {
    if rs == [] then [] else AddChar(Grouped(rs[..|rs| - 1]), rs[|rs| - 1])
  }

  function Chars(rs: seq<FontForChar>): string {
    seq(|rs|, i requires 0 <= i < |rs| => rs[i].ch)
  }

  function Texts(gs: seq<TextGroup>): seq<string> {
    seq(|gs|, i requires 0 <= i < |gs| => gs[i].text)
  }

  /** The font each character is drawn with, group by group. */
  function GroupFonts(gs: seq<TextGroup>): seq<Option<Font>> {
    if gs == [] then []
    else GroupFonts(gs[..|gs| - 1]) + seq(|gs[|gs| - 1].text|, _ => gs[|gs| - 1].font)
  }

  function Fonts(rs: seq<FontForChar>): seq<Option<Font>> {
    seq(|rs|, i requires 0 <= i < |rs| => rs[i].font)
  }

  /** Groups are non-empty, and neighbouring groups have different fonts. */
  predicate Maximal(gs: seq<TextGroup>) {
    (forall k :: 0 <= k < |gs| ==> gs[k].text != []) &&
    (forall k :: 0 <= k < |gs| - 1 ==> gs[k].font != gs[k + 1].font)
  }

  lemma ConcatSnoc(ss: seq<string>, s: string)
    ensures Concat(ss + [s]) == Concat(ss) + s
  {
    assert (ss + [s])[..|ss|] == ss;
  }

  lemma ConcatReplaceLast(ss: seq<string>, s: string)
    requires ss != []
    ensures Concat(ss[..|ss| - 1] + [ss[|ss| - 1] + s]) == Concat(ss) + s
  {
    var p := ss[..|ss| - 1];
    var last := ss[|ss| - 1];
    var q := p + [last + s];
    assert q[..|q| - 1] == p;
    assert Concat(q) == Concat(p) + (last + s);
    assert Concat(ss) == Concat(p) + last;
    AppendAssoc(Concat(p), last, s);
  }

  lemma AppendAssoc(a: string, b: string, c: string)
    ensures a + (b + c) == (a + b) + c
  {
  }

  lemma GroupFontsSnoc(gs: seq<TextGroup>, g: TextGroup)
    ensures GroupFonts(gs + [g]) == GroupFonts(gs) + seq(|g.text|, _ => g.font)
  {
    assert (gs + [g])[..|gs|] == gs;
  }

  lemma AddCharTexts(gs: seq<TextGroup>, r: FontForChar)
    ensures Concat(Texts(AddChar(gs, r))) == Concat(Texts(gs)) + [r.ch]
  {
    if gs != [] && gs[|gs| - 1].font == r.font {
      var p := gs[..|gs| - 1];
      var g := TextGroup(gs[|gs| - 1].text + [r.ch], r.font, r.style, r.isFallback);
      assert Texts(p + [g]) == Texts(gs)[..|gs| - 1] + [Texts(gs)[|gs| - 1] + [r.ch]];
      ConcatReplaceLast(Texts(gs), [r.ch]);
    } else {
      var g := TextGroup([r.ch], r.font, r.style, r.isFallback);
      assert Texts(gs + [g]) == Texts(gs) + [[r.ch]];
      ConcatSnoc(Texts(gs), [r.ch]);
    }
  }

  lemma AddCharFonts(gs: seq<TextGroup>, r: FontForChar)
    ensures GroupFonts(AddChar(gs, r)) == GroupFonts(gs) + [r.font]
  {
    if gs != [] && gs[|gs| - 1].font == r.font {
      var p := gs[..|gs| - 1];
      var last := gs[|gs| - 1];
      var g := TextGroup(last.text + [r.ch], r.font, r.style, r.isFallback);
      GroupFontsSnoc(p, g);
      GroupFontsSnoc(p, last);
      assert gs == p + [last];
      assert seq(|g.text|, _ => g.font) == seq(|last.text|, _ => last.font) + [r.font];
    } else {
      GroupFontsSnoc(gs, TextGroup([r.ch], r.font, r.style, r.isFallback));
    }
  }

  lemma AddCharMaximal(gs: seq<TextGroup>, r: FontForChar)
    requires Maximal(gs)
    ensures Maximal(AddChar(gs, r))
  {
  }

  /**
   * Grouping loses and reorders nothing: the groups' texts spell the
   * characters, each character keeps its own font, and the groups are
   * maximal runs.
   */
  lemma {:induction false} GroupedSpellsChars(rs: seq<FontForChar>)
    ensures var gs := Grouped(rs);
      Concat(Texts(gs)) == Chars(rs) && GroupFonts(gs) == Fonts(rs) && Maximal(gs)
  {
    GroupedTexts(rs);
    GroupedFonts(rs);
    GroupedMaximal(rs);
  }

  lemma {:induction false} GroupedTexts(rs: seq<FontForChar>)
    ensures Concat(Texts(Grouped(rs))) == Chars(rs)
  {
    if rs != [] {
      var p := rs[..|rs| - 1];
      var r := rs[|rs| - 1];
      GroupedTexts(p);
      AddCharTexts(Grouped(p), r);
      assert Chars(rs) == Chars(p) + [r.ch];
    }
  }

  lemma {:induction false} GroupedFonts(rs: seq<FontForChar>)
    ensures GroupFonts(Grouped(rs)) == Fonts(rs)
  {
    if rs != [] {
      var p := rs[..|rs| - 1];
      var r := rs[|rs| - 1];
      GroupedFonts(p);
      AddCharFonts(Grouped(p), r);
      assert Fonts(rs) == Fonts(p) + [r.font];
    }
  }

  lemma {:induction false} GroupedMaximal(rs: seq<FontForChar>)
    ensures Maximal(Grouped(rs))
  {
    if rs != [] {
      var p := rs[..|rs| - 1];
      GroupedMaximal(p);
      AddCharMaximal(Grouped(p), rs[|rs| - 1]);
    }
  }

  /** A group drawn as this character is: same font, style and fallback flag. */
  predicate SameLook(r: FontForChar, g: TextGroup) {
    r.font == g.font && r.style == g.style && r.isFallback == g.isFallback
  }

  /** Every group looks like one of the characters. */
  predicate Honest(rs: seq<FontForChar>, gs: seq<TextGroup>) {
    forall k :: 0 <= k < |gs| ==> exists i :: 0 <= i < |rs| && SameLook(rs[i], gs[k])
  }

  /** Each group's style and fallback flag are those of one of its characters with that font. */
  lemma {:induction false} GroupedHonest(rs: seq<FontForChar>)
    ensures Honest(rs, Grouped(rs))
  {
    if rs != [] {
      var p := rs[..|rs| - 1];
      var r := rs[|rs| - 1];
      GroupedHonest(p);
      var gs := Grouped(p);
      var gs' := AddChar(gs, r);
      assert SameLook(r, gs'[|gs'| - 1]);
      forall k | 0 <= k < |gs'| ensures exists i :: 0 <= i < |rs| && SameLook(rs[i], gs'[k]) {
        if k < |gs'| - 1 {
          assert k < |gs| && gs'[k] == gs[k];
          assert exists i :: 0 <= i < |p| && SameLook(p[i], gs[k]);
          var i :| 0 <= i < |p| && SameLook(p[i], gs[k]);
          assert rs[i] == p[i];
        } else {
          assert SameLook(rs[|rs| - 1], gs'[k]);
        }
      }
    }
  }

  /** All characters of groups with a font are glyphs of that font. */
  predicate GlyphsCovered(gs: seq<TextGroup>) {
    forall k, j :: 0 <= k < |gs| && gs[k].font.Some? && 0 <= j < |gs[k].text| ==> gs[k].font.value.HasGlyph(gs[k].text[j])
  }

  lemma AddCharGlyphs(gs: seq<TextGroup>, r: FontForChar)
    requires GlyphsCovered(gs)
    requires r.font.Some? ==> r.font.value.HasGlyph(r.ch)
    ensures GlyphsCovered(AddChar(gs, r))
  {
    var gs' := AddChar(gs, r);
    forall k, j | 0 <= k < |gs'| && gs'[k].font.Some? && 0 <= j < |gs'[k].text|
      ensures gs'[k].font.value.HasGlyph(gs'[k].text[j])
    {
      if k < |gs'| - 1 {
        assert gs'[k] == gs[k];
      } else if gs != [] && gs[|gs| - 1].font == r.font && j < |gs'[k].text| - 1 {
        assert gs'[k].text[j] == gs[|gs| - 1].text[j];
      }
    }
  }

  /** Every character of a group with a font is a glyph of that font when each resolved character is. */
  lemma {:induction false} GroupedGlyphs(rs: seq<FontForChar>)
    requires forall i :: 0 <= i < |rs| && rs[i].font.Some? ==> rs[i].font.value.HasGlyph(rs[i].ch)
    ensures GlyphsCovered(Grouped(rs))
  {
    if rs != [] {
      var p := rs[..|rs| - 1];
      assert forall i :: 0 <= i < |p| ==> p[i] == rs[i];
      GroupedGlyphs(p);
      AddCharGlyphs(Grouped(p), rs[|rs| - 1]);
    }
  }

  /**
   * `#makeTextGroups` with the closing of a group fixed: the loop of the
   * source over the characters and the map of their resolved fonts.
   */
  method MakeTextGroups(chars: string, fonts: map<char, Outcome>) returns (groups: seq<TextGroup>)
    requires forall i :: 0 <= i < |chars| ==> chars[i] in fonts && fonts[chars[i]].Found?
    ensures groups == Grouped(Resolved(fonts, chars))
  {
    ghost var rs := Resolved(fonts, chars);
    groups := [];
    var text: string := [];
    var prev: Option<FontForChar> := None;
    var i := 0;
    while i < |chars|
      invariant 0 <= i <= |chars|
      invariant i == 0 ==> groups == [] && text == [] && prev.None?
      invariant 0 < i ==> prev == Some(rs[i - 1])
      invariant 0 < i < |rs| ==> groups + [TextGroup(text, prev.value.font, prev.value.style, prev.value.isFallback)] == Grouped(rs[..i])
      invariant 0 < i == |rs| ==> groups == Grouped(rs)
    {
      var r := fonts[chars[i]].result;
      assert r == rs[i];
      assert rs[..i + 1][..i] == rs[..i];
      assert Grouped(rs[..i + 1]) == AddChar(Grouped(rs[..i]), r);
      ghost var next := TextGroup(text + [r.ch], r.font, r.style, r.isFallback);
      if i == 0 {
        assert rs[..i] == [];
        assert Grouped(rs[..i + 1]) == [TextGroup([r.ch], r.font, r.style, r.isFallback)];
      } else {
        var open := TextGroup(text, prev.value.font, prev.value.style, prev.value.isFallback);
        assert (groups + [open])[..|groups|] == groups;
        assert (groups + [open])[|groups|] == open;
        if prev.value.font == r.font {
          assert Grouped(rs[..i + 1]) == groups + [next];
        } else {
          assert Grouped(rs[..i + 1]) == groups + [open] + [TextGroup([r.ch], r.font, r.style, r.isFallback)];
        }
      }
      if i > 0 && prev.value.font != r.font {
        groups := groups + [TextGroup(text, prev.value.font, prev.value.style, prev.value.isFallback)];
        text := [];
      }
      assert text == [] || (prev.Some? && prev.value.font == r.font);
      text := text + [r.ch];
      assert text == [r.ch] || text == next.text;
      prev := Some(r);
      assert groups + [TextGroup(text, r.font, r.style, r.isFallback)] == Grouped(rs[..i + 1]);
      if i == |chars| - 1 {
        groups := groups + [TextGroup(text, r.font, r.style, r.isFallback)];
        assert rs[..i + 1] == rs;
      }
      i := i + 1;
    }
  }

  /** The loop of `#makeTextGroups` as written: a closed group takes the style and flag of the next character. */
  function GroupsAsWritten(rs: seq<FontForChar>): seq<TextGroup> {
    AsWrittenFrom(rs, 0, [], [], None)
  }

  function AsWrittenFrom(rs: seq<FontForChar>, i: nat, groups: seq<TextGroup>, text: string,
                         prev: Option<Font>): seq<TextGroup>
    decreases |rs| - i
  {
    if i >= |rs| then groups
    else
      var r := rs[i];
      var close := i > 0 && prev != r.font;
      var groups1 := if close then groups + [TextGroup(text, prev, r.style, r.isFallback)] else groups;
      var text1 := (if close then [] else text) + [r.ch];
      var groups2 := if i == |rs| - 1 then groups1 + [TextGroup(text1, r.font, r.style, r.isFallback)] else groups1;
      AsWrittenFrom(rs, i + 1, groups2, text1, r.font)
  }

  /**
   * A character drawn with its own font, followed by a fallback glyph in
   * another font: as written, the first group is marked as a fallback and
   * takes the second character's style; the intended grouping keeps its own.
   */
  lemma MakeTextGroupsMislabels(f: Font, g: Font, s1: Style, s2: Style)
    requires f != g
    ensures var rs := [FontForChar(Some(f), 'a', s1, false), FontForChar(Some(g), '?', s2, true)];
      GroupsAsWritten(rs) == [TextGroup("a", Some(f), s2, true), TextGroup("?", Some(g), s2, true)] &&
      Grouped(rs) == [TextGroup("a", Some(f), s1, false), TextGroup("?", Some(g), s2, true)]
  {
    var rs := [FontForChar(Some(f), 'a', s1, false), FontForChar(Some(g), '?', s2, true)];
    var none: seq<TextGroup> := [];
    var empty: string := [];
    assert empty + ['a'] == "a" && empty + ['?'] == "?";
    var g1 := [TextGroup("a", Some(f), s2, true)];
    var g2 := g1 + [TextGroup("?", Some(g), s2, true)];
    assert AsWrittenFrom(rs, 2, g2, "?", Some(g)) == g2;
    assert AsWrittenFrom(rs, 1, none, "a", Some(f)) == AsWrittenFrom(rs, 2, g2, "?", Some(g));
    assert AsWrittenFrom(rs, 0, none, empty, None) == AsWrittenFrom(rs, 1, none, "a", Some(f));
    assert rs[..1] == [rs[0]];
    assert Grouped([rs[0]]) == [TextGroup("a", Some(f), s1, false)];
  }

  // ------------------------------------------------------------ the walk

  /** What the walk leaves in the text map for one text node. */
  datatype NodeOut = Groups(groups: seq<TextGroup>) | Failed(error: Outcome)

  /**
   * The state `#processChildNodes` threads: the text map in insertion order,
   * `lastChar` and `ignore` of the processing state, the font factory's memo
   * and the recorded missed families, load errors and warnings.
   */
  datatype Walk = Walk(textMap: seq<(nat, NodeOut)>, lastChar: char, ignore: bool, memo: Memo, rec: Option<Records>)

  /** The requests and the groups of one text node's characters. */
  function CharsOut(env: Env, memo: Memo, rec: Option<Records>, style: Style, cs: string): (NodeOut, Memo, Option<Records>)
    requires Ranked(env)
  {
    var q := RequestFonts(env, memo, rec, style, cs);
    RequestFontsOnce(env, memo, rec, style, cs);
    match FirstFailure(q.fonts, q.order)
    case Some(o) => (Failed(o), q.memo, q.rec)
    case None =>
      AllFound(q, cs);
      (Groups(Grouped(Resolved(q.fonts, cs))), q.memo, q.rec)
  }

  lemma AllFound(q: Requests, cs: string)
    requires RequestedOnce(q, cs) && forall i :: 0 <= i < |q.order| ==> q.fonts[q.order[i]].Found?
    ensures forall i :: 0 <= i < |cs| ==> cs[i] in q.fonts && q.fonts[cs[i]].Found?
  {
    forall i | 0 <= i < |cs| ensures cs[i] in q.fonts && q.fonts[cs[i]].Found? {
      assert cs[i] in q.order;
      var j :| 0 <= j < |q.order| && q.order[j] == cs[i];
    }
  }

  /** `#processTextNode` for one text node, on values. */
  function ProcessText(env: Env, w: Walk, lastText: Option<nat>, it: TextItem): Walk
    requires Ranked(env)
  {
    if w.ignore then w.(textMap := w.textMap + [(it.id, Groups([]))])
    else
      var isLast := Some(it.id) == lastText;
      var t := NodeChars(it.content, w.lastChar, isLast);
      var (out, memo, rec) := CharsOut(env, w.memo, w.rec, SessionStyle.FontStyleForNode(it.parent), t.chars);
      Walk(w.textMap + [(it.id, out)], t.lastChar, isLast, memo, rec)
  }

  /** `#processChildNodes`: every text node in document order. */
  function ProcessAll(env: Env, w: Walk, lastText: Option<nat>, items: seq<TextItem>): Walk
    requires Ranked(env)
  {
    if items == [] then w
    else ProcessText(env, ProcessAll(env, w, lastText, items[..|items| - 1]), lastText, items[|items| - 1])
  }

  lemma {:induction false} ProcessAllAppend(env: Env, w: Walk, lastText: Option<nat>, a: seq<TextItem>, b: seq<TextItem>)
    requires Ranked(env)
    ensures ProcessAll(env, w, lastText, a + b) == ProcessAll(env, ProcessAll(env, w, lastText, a), lastText, b)
    decreases |b|
  {
    if b == [] {
      assert a + b == a;
    } else {
      assert (a + b)[..|a + b| - 1] == a + b[..|b| - 1];
      assert (a + b)[|a + b| - 1] == b[|b| - 1];
      ProcessAllAppend(env, w, lastText, a, b[..|b| - 1]);
    }
  }

  /** A failed request: no font, and only for the reasons `getFontForChar` allows. */
  predicate FailureOk(env: Env, o: Outcome) {
    !o.Found? && CharOk(env, ' ', o)
  }

  /** The per-node characters of the walk are those `Emit` describes. */
  predicate FollowsEmit(w: Walk, items: seq<TextItem>, lastText: Option<nat>, env: Env) {
    var e := Emit(items, lastText);
    |w.textMap| == |items| && w.lastChar == e.lastChar && w.ignore == e.ignore && w.rec.Some? &&
    (forall i :: 0 <= i < |items| ==> w.textMap[i].1.Failed? ==> FailureOk(env, w.textMap[i].1.error)) &&
    forall i :: 0 <= i < |items| ==>
      (w.textMap[i].0 == items[i].id &&
       (env.params.fallbackGlyph.None? && w.textMap[i].1.Groups? ==> Concat(Texts(w.textMap[i].1.groups)) == e.chars[i]))
  }

  /** Without a fallback glyph every resolved character is the requested one, so the groups spell the node's text. */
  lemma CharsOutSpells(env: Env, memo: Memo, rec: Option<Records>, style: Style, cs: string)
    requires Ranked(env) && rec.Some?
    ensures var (out, _, rec') := CharsOut(env, memo, rec, style, cs);
      rec'.Some? && (env.params.fallbackGlyph.None? && out.Groups? ==> Concat(Texts(out.groups)) == cs) &&
      (out.Failed? ==> FailureOk(env, out.error))
  {
    var q := RequestFonts(env, memo, rec, style, cs);
    RequestFontsOnce(env, memo, rec, style, cs);
    RequestFontsOk(env, memo, rec, style, cs);
    if env.params.fallbackGlyph.None? && FirstFailure(q.fonts, q.order).None? {
      var rs := Resolved(q.fonts, cs);
      GroupedSpellsChars(rs);
      assert Chars(rs) == cs;
    }
  }

  /** `Emit` over one more text node: the earlier nodes keep their characters. */
  lemma EmitSnoc(items: seq<TextItem>, lastText: Option<nat>)
    requires items != []
    ensures var n := |items| - 1;
      var e, e' := Emit(items[..n], lastText), Emit(items, lastText);
      e'.chars[..n] == e.chars &&
      (e.ignore ==> e'.chars[n] == [] && e'.lastChar == e.lastChar && e'.ignore) &&
      (!e.ignore ==>
        var t := NodeChars(items[n].content, e.lastChar, Some(items[n].id) == lastText);
        e'.chars[n] == t.chars && e'.lastChar == t.lastChar && e'.ignore == (Some(items[n].id) == lastText))
  {
    var e := Emit(items[..|items| - 1], lastText);
    var x := if e.ignore then [] else NodeChars(items[|items| - 1].content, e.lastChar, Some(items[|items| - 1].id) == lastText).chars;
    assert (e.chars + [x])[..|e.chars|] == e.chars;
  }

  /** How one processed text node changes the walk, stated without the fonts it asks for. */
  predicate StepsTo(env: Env, w: Walk, w': Walk, lastText: Option<nat>, it: TextItem) {
    var k := |w.textMap|;
    |w'.textMap| == k + 1 && w'.textMap[..k] == w.textMap && w'.textMap[k].0 == it.id && w'.rec.Some? &&
    (w'.textMap[k].1.Failed? ==> FailureOk(env, w'.textMap[k].1.error)) &&
    (w.ignore ==> w'.textMap[k].1 == Groups([]) && w'.lastChar == w.lastChar && w'.ignore) &&
    (!w.ignore ==>
      var t := NodeChars(it.content, w.lastChar, Some(it.id) == lastText);
      (env.params.fallbackGlyph.None? && w'.textMap[k].1.Groups? ==> Concat(Texts(w'.textMap[k].1.groups)) == t.chars) &&
      w'.lastChar == t.lastChar && w'.ignore == (Some(it.id) == lastText))
  }

  /** One processed text node appends one entry to the text map. */
  lemma ProcessTextStep(env: Env, w: Walk, lastText: Option<nat>, it: TextItem)
    requires Ranked(env) && w.rec.Some?
    ensures StepsTo(env, w, ProcessText(env, w, lastText, it), lastText, it)
  {
    if !w.ignore {
      var t := NodeChars(it.content, w.lastChar, Some(it.id) == lastText);
      CharsOutSpells(env, w.memo, w.rec, SessionStyle.FontStyleForNode(it.parent), t.chars);
    }
  }

  /** A step that follows `Emit` over the earlier nodes follows it over one more. */
  lemma FollowsEmitStep(env: Env, w: Walk, w': Walk, lastText: Option<nat>, items: seq<TextItem>)
    requires items != [] && FollowsEmit(w, items[..|items| - 1], lastText, env)
    requires StepsTo(env, w, w', lastText, items[|items| - 1])
    ensures FollowsEmit(w', items, lastText, env)
  {
    var n := |items| - 1;
    var p, it := items[..n], items[n];
    var e, e' := Emit(p, lastText), Emit(items, lastText);
    EmitSnoc(items, lastText);
    assert |w.textMap| == n;
    var last := w'.textMap[n].1;
    assert w'.textMap[n].0 == it.id && (last.Failed? ==> FailureOk(env, last.error));
    assert env.params.fallbackGlyph.None? && last.Groups? ==> Concat(Texts(last.groups)) == e'.chars[n] by {
      if w.ignore {
        assert Texts([]) == [];
      }
    }
    assert w'.lastChar == e'.lastChar && w'.ignore == e'.ignore;
    forall i | 0 <= i < |items|
      ensures w'.textMap[i].1.Failed? ==> FailureOk(env, w'.textMap[i].1.error)
      ensures w'.textMap[i].0 == items[i].id &&
        (env.params.fallbackGlyph.None? && w'.textMap[i].1.Groups? ==> Concat(Texts(w'.textMap[i].1.groups)) == e'.chars[i])
    {
      if i < n {
        assert items[i] == p[i] && w'.textMap[i] == w.textMap[i] && e'.chars[i] == e.chars[i];
      } else {
        assert i == n && items[i] == it && w'.textMap[i].1 == last;
      }
    }
  }

  lemma ProcessTextEmit(env: Env, w: Walk, lastText: Option<nat>, items: seq<TextItem>)
    requires Ranked(env) && items != [] && FollowsEmit(w, items[..|items| - 1], lastText, env)
    ensures FollowsEmit(ProcessText(env, w, lastText, items[|items| - 1]), items, lastText, env)
  {
    ProcessTextStep(env, w, lastText, items[|items| - 1]);
    FollowsEmitStep(env, w, ProcessText(env, w, lastText, items[|items| - 1]), lastText, items);
  }

  lemma {:induction false} ProcessAllEmit(env: Env, memo: Memo, rec: Records, lastText: Option<nat>, items: seq<TextItem>)
    requires Ranked(env)
    ensures FollowsEmit(ProcessAll(env, Walk([], ' ', false, memo, Some(rec)), lastText, items), items, lastText, env)
  {
    if items != [] {
      var p := items[..|items| - 1];
      ProcessAllEmit(env, memo, rec, lastText, p);
      ProcessTextEmit(env, ProcessAll(env, Walk([], ' ', false, memo, Some(rec)), lastText, p), lastText, items);
    }
  }

  /** A `<text>` element with no text and no computed style above it. */
  const NoProps := SessionStyle.CssProps(None, None, None, None, None, None, None, None, None, None, None, None)

  /** What `replace` returns: its stat, nothing for a skipped node, or the error it throws. */
  datatype ReplaceOut =
    | Replaced(textMap: seq<(nat, seq<TextGroup>)>, rec: Records)
    | Skipped
    | Thrown(error: Outcome)

  /** The first failed text node of the map, in order. */
  function FirstFailed(tm: seq<(nat, NodeOut)>): (r: Option<Outcome>)
    ensures r.None? <==> forall i :: 0 <= i < |tm| ==> tm[i].1.Groups?
    ensures r.Some? ==> exists i :: 0 <= i < |tm| && tm[i].1 == Failed(r.value)
  {
    if tm == [] then None
    else if tm[0].1.Failed? then Some(tm[0].1.error)
    else
      var r := FirstFailed(tm[1..]);
      assert forall i :: 1 <= i < |tm| ==> tm[i] == tm[1..][i - 1];
      r
  }

  /** The text map without the nodes that produced no group. */
  function NonEmpty(tm: seq<(nat, NodeOut)>): (r: seq<(nat, seq<TextGroup>)>)
    requires forall i :: 0 <= i < |tm| ==> tm[i].1.Groups?
    ensures forall i :: 0 <= i < |r| ==> r[i].1 != []
    ensures forall i :: 0 <= i < |tm| && tm[i].1.groups != [] ==> (tm[i].0, tm[i].1.groups) in r
    ensures forall e :: e in r ==> exists i :: 0 <= i < |tm| && tm[i].0 == e.0 && tm[i].1.groups == e.1
  {
    if tm == [] then []
    else
      var rest := NonEmpty(tm[..|tm| - 1]);
      var last := tm[|tm| - 1];
      assert forall i :: 0 <= i < |tm| - 1 ==> tm[..|tm| - 1][i] == tm[i];
      if last.1.groups == [] then rest else rest + [(last.0, last.1.groups)]
  }

  lemma ProcessAllRec(env: Env, memo: Memo, rec: Records, lastText: Option<nat>, items: seq<TextItem>)
    requires Ranked(env)
    ensures ProcessAll(env, Walk([], ' ', false, memo, Some(rec)), lastText, items).rec.Some?
  {
    ProcessAllEmit(env, memo, rec, lastText, items);
  }

  /** `replace` up to the layout step, on values: the walk, the failure check and the clean-up of the text map. */
  function Replace(env: Env, memo: Memo, n: Node): (ReplaceOut, Memo)
    requires Ranked(env)
  {
    var items := TextNodes(n, NoProps);
    var rec := Records([], [], []);
    var w := ProcessAll(env, Walk([], ' ', false, memo, Some(rec)), LastWithText(items), items);
    ProcessAllRec(env, memo, rec, LastWithText(items), items);
    match FirstFailed(w.textMap)
    case Some(o) => (if o.NoFontError? && o.skipNode then Skipped else Thrown(o), w.memo)
    case None => (Replaced(NonEmpty(w.textMap), w.rec.value), w.memo)
  }

  /**
   * `replace` throws only a `NoFontError` of the `error` action, a TypeError
   * (the one `getBestVariant` throws, or one from a family class not handed
   * the state), or the RangeError of a fallback glyph that is no code point.
   * It skips only under `skipNode`.
   */
  lemma ReplaceErrors(env: Env, memo: Memo, n: Node)
    requires Ranked(env)
    ensures var out := Replace(env, memo, n).0;
      (out.Thrown? ==>
        (out.error.NoFontError? && !out.error.skipNode &&
         env.params.noFontAction == Error && env.params.fallbackGlyph.None?) ||
        (out.error.TypeError? && (out.error.cause.EmptyPass? || !env.classesShareState)) ||
        (out.error.RangeError? && env.params.fallbackGlyph.Some? && GlyphOf(env.params.fallbackGlyph.value.1).None?)) &&
      (out.Skipped? ==> env.params.noFontAction == SkipNode && env.params.fallbackGlyph.None?)
  {
    var items := TextNodes(n, NoProps);
    var rec := Records([], [], []);
    var w := ProcessAll(env, Walk([], ' ', false, memo, Some(rec)), LastWithText(items), items);
    ProcessAllEmit(env, memo, rec, LastWithText(items), items);
    FirstFailedOk(env, w, items, LastWithText(items));
    var f := FirstFailed(w.textMap);
    if f.Some? {
      assert Replace(env, memo, n).0 == if f.value.NoFontError? && f.value.skipNode then Skipped else Thrown(f.value);
    }
  }

  lemma FirstFailedOk(env: Env, w: Walk, items: seq<TextItem>, lastText: Option<nat>)
    requires FollowsEmit(w, items, lastText, env)
    ensures FirstFailed(w.textMap).Some? ==> FailureOk(env, FirstFailed(w.textMap).value)
  {
    var f := FirstFailed(w.textMap);
    if f.Some? {
      var i :| 0 <= i < |w.textMap| && w.textMap[i].1 == Failed(f.value);
      assert w.textMap[i].1.Failed?;
    }
  }

  /** Every text of the replaced text map, in document order. */
  function AllText(tm: seq<(nat, seq<TextGroup>)>): string {
    if tm == [] then [] else AllText(tm[..|tm| - 1]) + Concat(Texts(tm[|tm| - 1].1))
  }

  /** Every text of the walk's text map, in document order. */
  function WalkText(tm: seq<(nat, NodeOut)>): string
    requires forall i :: 0 <= i < |tm| ==> tm[i].1.Groups?
  {
    if tm == [] then [] else WalkText(tm[..|tm| - 1]) + Concat(Texts(tm[|tm| - 1].1.groups))
  }

  lemma {:induction false} NonEmptyText(tm: seq<(nat, NodeOut)>)
    requires forall i :: 0 <= i < |tm| ==> tm[i].1.Groups?
    ensures AllText(NonEmpty(tm)) == WalkText(tm)
  {
    if tm != [] {
      var p := tm[..|tm| - 1];
      var last := tm[|tm| - 1];
      NonEmptyText(p);
      if last.1.groups == [] {
        assert Texts(last.1.groups) == [];
        assert WalkText(tm) == WalkText(p) + [];
      } else {
        var r := NonEmpty(p) + [(last.0, last.1.groups)];
        assert r[..|r| - 1] == NonEmpty(p);
      }
    }
  }

  lemma {:induction false} WalkTextEmit(tm: seq<(nat, NodeOut)>, chars: seq<string>)
    requires |tm| == |chars|
    requires forall i :: 0 <= i < |tm| ==> tm[i].1.Groups? && Concat(Texts(tm[i].1.groups)) == chars[i]
    ensures WalkText(tm) == Concat(chars)
  {
    if tm != [] {
      var n := |tm| - 1;
      assert forall i :: 0 <= i < n ==> tm[..n][i] == tm[i] && chars[..n][i] == chars[i];
      WalkTextEmit(tm[..n], chars[..n]);
    }
  }

  /**
   * Without a fallback glyph, the text `replace` draws for a `<text>`
   * element whose text nodes are distinct is its text with whitespace
   * collapsed and trimmed at both ends (section 10.15 of SVG 1.1, `xml:space`
   * default).
   */
  lemma ReplaceCollapsesWhitespace(env: Env, memo: Memo, n: Node)
    requires Ranked(env) && env.params.fallbackGlyph.None?
    requires var items := TextNodes(n, NoProps);
      forall i, j :: 0 <= i < j < |items| ==> items[i].id != items[j].id
    ensures var out := Replace(env, memo, n).0;
      out.Replaced? ==>
        var items := TextNodes(n, NoProps);
        AllText(out.textMap) == Concat(Emit(items, LastWithText(items)).chars) && Trimmed(AllText(out.textMap))
  {
    var items := TextNodes(n, NoProps);
    var rec := Records([], [], []);
    var lastText := LastWithText(items);
    ProcessAllEmit(env, memo, rec, lastText, items);
    var w := ProcessAll(env, Walk([], ' ', false, memo, Some(rec)), lastText, items);
    ReplaceOfWalk(env, memo, n, w);
    if FirstFailed(w.textMap).None? {
      WalkTextEmit(w.textMap, Emit(items, lastText).chars);
      NonEmptyText(w.textMap);
      EmitCollapsesWhitespace(items);
    }
  }

  /** `Replace` read off the walk it makes. */
  lemma ReplaceOfWalk(env: Env, memo: Memo, n: Node, w: Walk)
    requires Ranked(env)
    requires w == ProcessAll(env, Walk([], ' ', false, memo, Some(Records([], [], []))), LastWithText(TextNodes(n, NoProps)), TextNodes(n, NoProps))
    ensures w.rec.Some?
    ensures Replace(env, memo, n) ==
      match FirstFailed(w.textMap)
      case Some(o) => (if o.NoFontError? && o.skipNode then Skipped else Thrown(o), w.memo)
      case None => (Replaced(NonEmpty(w.textMap), w.rec.value), w.memo)
  {
    ProcessAllRec(env, memo, Records([], [], []), LastWithText(TextNodes(n, NoProps)), TextNodes(n, NoProps));
  }
}
