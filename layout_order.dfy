/**
 * Every glyph the layout step shapes is rendered once, in document order:
 * the glyphs already rendered followed by the glyphs still on the stack
 * only ever grow by the glyphs of the text nodes walked, and closing the
 * `<text>` element renders the whole stack.
 */
module LayoutOrder {
  import opened Wrappers
  import opened SessionLayout
  import SessionLayoutLemmas

  /** The (text node, glyph) pairs of the stack. */
  function ItemIds(s: seq<Item>): (r: seq<(nat, nat)>)
    ensures |r| == |s|
  {
    seq(|s|, i requires 0 <= i < |s| => (s[i].node, s[i].glyph))
  }

  /** The (text node, glyph) pairs of the rendered glyphs. */
  function PlacedIds(s: seq<Placed>): (r: seq<(nat, nat)>)
    ensures |r| == |s|
  {
    seq(|s|, i requires 0 <= i < |s| => (s[i].node, s[i].glyph))
  }

  /** What is rendered, then what waits on the stack. */
  function Tokens(l: Layout): seq<(nat, nat)> {
    PlacedIds(l.out) + ItemIds(l.stack)
  }

  /** The glyphs one group of text node `node` shapes to. */
  function GlyphIds(node: nat, gs: seq<GlyphPos>): (r: seq<(nat, nat)>)
    ensures |r| == |gs|
  {
    seq(|gs|, i requires 0 <= i < |gs| => (node, gs[i].glyph))
  }

  function GroupIds(node: nat, groups: seq<ShapedGroup>): seq<(nat, nat)>
    decreases |groups|
  {
    if groups == [] then []
    else GroupIds(node, groups[..|groups| - 1]) + GlyphIds(node, groups[|groups| - 1].glyphs)
  }

  /** The glyphs of the text nodes under `n`, in document order. */
  function NodeIds(n: LNode): seq<(nat, nat)>
    decreases n, 1
  {
    match n
    case LText(id, _, groups) => if groups.Some? then GroupIds(id, groups.value) else []
    case LElement(_, _, _, _, children) => ChildIds(n, |children|)
    case LOther => []
  }

  function ChildIds(n: LNode, k: nat): seq<(nat, nat)>
    requires n.LElement? && k <= |n.children|
    decreases n, 0, k
  {
    if k == 0 then [] else ChildIds(n, k - 1) + NodeIds(n.children[k - 1])
  }

  /** Placing keeps each glyph's node and id, in order. */
  lemma PlaceIds(stack: seq<Item>, shift: real)
    ensures PlacedIds(Place(stack, shift)) == ItemIds(stack)
  {
  }

  lemma ItemIdsAppend(a: seq<Item>, b: seq<Item>)
    ensures ItemIds(a + b) == ItemIds(a) + ItemIds(b)
  {
  }

  lemma PlacedIdsAppend(a: seq<Placed>, b: seq<Placed>)
    ensures PlacedIds(a + b) == PlacedIds(a) + PlacedIds(b)
  {
  }

  /** `#renderStack` moves the whole stack, in order, to the rendered glyphs. */
  lemma RenderKeeps(l: Layout)
    ensures Render(l).stack == []
    ensures Tokens(Render(l)) == Tokens(l)
  {
    PlacedIdsAppend(l.out, Place(l.stack, RenderShift(l)));
    PlaceIds(l.stack, RenderShift(l));
  }

  /** One glyph step pushes exactly that glyph after everything before it. */
  lemma GlyphStepKeeps(l: Layout, p: Props, node: nat, style: TextStyle, m: Metrics, g: GlyphPos)
    ensures Tokens(GlyphStep(l, p, node, style, m, g).0) == Tokens(l) + [(node, g.glyph)]
  {
    var c := l.chars;
    var l1 := if l.stack != [] && Absolute(p, c) then Render(l).(style := Some(style)) else l;
    RenderKeeps(l);
    assert Tokens(l1) == Tokens(l);
    var l' := GlyphStep(l, p, node, style, m, g).0;
    assert l'.out == l1.out;
    assert |l'.stack| == |l1.stack| + 1 && l'.stack[..|l1.stack|] == l1.stack;
    assert l'.stack == l1.stack + [l'.stack[|l1.stack|]];
    ItemIdsAppend(l1.stack, [l'.stack[|l1.stack|]]);
  }

  lemma {:induction false} LayoutGlyphsKeeps(l: Layout, p: Props, node: nat, style: TextStyle, m: Metrics,
                                             gs: seq<GlyphPos>)
    ensures Tokens(LayoutGlyphs(l, p, node, style, m, gs).0) == Tokens(l) + GlyphIds(node, gs)
    decreases |gs|
  {
    if gs != [] {
      var init := gs[..|gs| - 1];
      var x := (node, gs[|gs| - 1].glyph);
      var prev := LayoutGlyphs(l, p, node, style, m, init);
      LayoutGlyphsKeeps(l, p, node, style, m, init);
      assert LayoutGlyphs(l, p, node, style, m, gs) == GlyphStep(prev.0, prev.1, node, style, m, gs[|gs| - 1]);
      GlyphStepKeeps(prev.0, prev.1, node, style, m, gs[|gs| - 1]);
      GlyphIdsSnoc(node, gs);
      SnocAssoc(Tokens(l), GlyphIds(node, init), x);
    }
  }

  lemma GlyphIdsSnoc(node: nat, gs: seq<GlyphPos>)
    requires gs != []
    ensures GlyphIds(node, gs) == GlyphIds(node, gs[..|gs| - 1]) + [(node, gs[|gs| - 1].glyph)]
  {
  }

  lemma SnocAssoc<T>(a: seq<T>, b: seq<T>, x: T)
    ensures (a + b) + [x] == a + (b + [x])
  {
  }

  lemma {:induction false} LayoutGroupsKeeps(l: Layout, p: Props, node: nat, style: TextStyle,
                                             groups: seq<ShapedGroup>)
    ensures Tokens(LayoutGroups(l, p, node, style, groups).0) == Tokens(l) + GroupIds(node, groups)
    decreases |groups|
  {
    if groups != [] {
      var init := groups[..|groups| - 1];
      LayoutGroupsKeeps(l, p, node, style, init);
      var (l1, p1) := LayoutGroups(l, p, node, style, init);
      LayoutGroupKeeps(l1, p1, node, style, groups[|groups| - 1]);
    }
  }

  lemma LayoutGroupKeeps(l: Layout, p: Props, node: nat, style: TextStyle, g: ShapedGroup)
    ensures Tokens(LayoutGroup(l, p, node, style, g).0) == Tokens(l) + GlyphIds(node, g.glyphs)
  {
    var l1 := l.(style := if l.style.Some? then l.style else Some(style));
    assert Tokens(l1) == Tokens(l);
    LayoutGlyphsKeeps(l1, p, node, style, g.metrics, g.glyphs);
  }

  /** The adjusting loop changes positions and widths, never which glyph sits where. */
  lemma AdjustRunIds(a: Adjust, r: Run, i: nat)
    requires a.start <= i <= |r.stack| && a.scale != 0.0
    ensures ItemIds(AdjustRun(a, r, i).stack) == ItemIds(r.stack)
  {
    SessionLayoutLemmas.AdjustKeeps(a, r, i);
  }

  /** `#correctLength` renders nothing and keeps the stack's glyphs. */
  lemma CorrectLengthKeeps(l: Layout, textLength: Option<real>, scaling: bool)
    ensures CorrectLength(l, textLength, scaling).out == l.out
    ensures Tokens(CorrectLength(l, textLength, scaling)) == Tokens(l)
  {
    var l1 := l.(tagStart := Pop(l.tagStart));
    if l.tagStart != [] && textLength.Some? {
      var start := l.tagStart[|l.tagStart| - 1];
      if start < |l.stack| {
        var length := textLength.value;
        var ms := MeasureRun(l1.stack, start, |l1.stack|);
        if !(ms.items == 0 || (scaling && ScaleOf(length, ms).None?)) {
          AdjustRunIds(AdjustFor(l1.stack, start, length, scaling), Run(l1.stack, 0.0, l1.xMin, l1.xMax, l1.cx),
                       |l1.stack|);
        }
      }
    }
  }

  /** Closing an element keeps the glyphs in order; closing `<text>` leaves the stack empty. */
  lemma CloseKeeps(l: Layout, isText: bool, textLength: Option<real>, scaling: bool)
    ensures Tokens(CloseElement(l, isText, textLength, scaling)) == Tokens(l)
    ensures isText ==> CloseElement(l, isText, textLength, scaling).stack == []
  {
    CorrectLengthKeeps(l, textLength, scaling);
    var l1 := CorrectLength(l, textLength, scaling);
    RenderKeeps(l1.(pos := PopAll(l1.pos)));
  }

  /**
   * The walk of a node appends the node's glyphs, in document order, to
   * what was rendered or stacked before.
   */
  lemma {:induction false} WalkKeeps(l: Layout, n: LNode)
    ensures Tokens(Walk(l, n)) == Tokens(l) + NodeIds(n)
    decreases n, 1
  {
    match n
    case LText(id, style, groups) =>
      if groups.Some? {
        LayoutGroupsKeeps(l, Normalize(l.pos), id, style, groups.value);
      }
    case LElement(isText, attrs, textLength, scaling, children) =>
      var l1 := OpenElement(l, attrs);
      assert Tokens(l1) == Tokens(l);
      WalkChildrenKeeps(l1, n, |children|);
      CloseKeeps(WalkChildren(l1, n, |children|), isText, textLength, scaling);
    case LOther =>
  }

  lemma {:induction false} WalkChildrenKeeps(l: Layout, n: LNode, k: nat)
    requires n.LElement? && k <= |n.children|
    ensures Tokens(WalkChildren(l, n, k)) == Tokens(l) + ChildIds(n, k)
    decreases n, 0, k
  {
    if k > 0 {
      WalkChildrenKeeps(l, n, k - 1);
      WalkKeeps(WalkChildren(l, n, k - 1), n.children[k - 1]);
    }
  }

  /**
   * A `<text>` element laid out from the initial state renders every glyph
   * of its text nodes exactly once, in document order, and leaves nothing
   * on the stack.
   */
  lemma TextRendersAllGlyphs(n: LNode)
    requires n.LElement? && n.isText
    ensures Walk(Initial, n).stack == []
    ensures PlacedIds(Walk(Initial, n).out) == NodeIds(n)
  {
    WalkKeeps(Initial, n);
    var l1 := WalkChildren(OpenElement(Initial, n.attrs), n, |n.children|);
    CloseKeeps(l1, true, n.textLength, n.scaling);
    assert Tokens(Walk(Initial, n)) == PlacedIds(Walk(Initial, n).out);
  }
}
