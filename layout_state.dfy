/**
 * `SessionLayoutState` as an object the layout step updates in place: each
 * method changes the fields as the corresponding step of `Session` does and
 * is proved to leave the state its function in SessionLayout describes.
 */
module LayoutMachine {
  import opened Wrappers
  import opened SessionLayout

  /** `#normalizePosProps` on one attribute: each list's entries written over the result, index by index. */
  method NormalizeList(lists: seq<seq<real>>) returns (r: seq<real>)
    ensures r == Overlay(lists)
  {
    r := [];
    var k := 0;
    while k < |lists|
      invariant 0 <= k <= |lists|
      invariant r == Overlay(lists[..k])
    {
      r := WriteOver(r, lists[k]);
      assert lists[..k + 1][..k] == lists[..k];
      k := k + 1;
    }
    assert lists[..k] == lists;
  }

  /** The inner loop of `#normalizePosProps`: one list's entries written over `acc`, index by index. */
  method WriteOver(acc: seq<real>, values: seq<real>) returns (r: seq<real>)
    ensures r == Over(acc, values)
  {
    r := acc;
    var i := 0;
    while i < |values|
      invariant 0 <= i <= |values|
      invariant r == Over(acc, values[..i])
    {
      if i < |r| {
        r := r[i := values[i]];
      } else {
        r := r + [values[i]];
      }
      i := i + 1;
    }
    assert values[..i] == values;
  }

  /** The `splice(0, chars)` loop of `#removePosForUsedChars` over the lists of one attribute. */
  method SpliceAll(lists: seq<seq<real>>, chars: nat) returns (r: seq<seq<real>>)
    ensures r == DropAll(lists, chars)
  {
    r := lists;
    var k := 0;
    while k < |r|
      invariant 0 <= k <= |r| == |lists|
      invariant forall j :: 0 <= j < k ==> r[j] == Drop(lists[j], chars)
      invariant forall j :: k <= j < |r| ==> r[j] == lists[j]
    {
      r := r[k := Drop(r[k], chars)];
      k := k + 1;
    }
  }

  /** The glyph fold over one more glyph is one more glyph step. */
  lemma GlyphsSnoc(l: Layout, p: Props, node: nat, style: TextStyle, m: Metrics, gs: seq<GlyphPos>, i: nat)
    requires i < |gs|
    ensures var (l1, p1) := LayoutGlyphs(l, p, node, style, m, gs[..i]);
      LayoutGlyphs(l, p, node, style, m, gs[..i + 1]) == GlyphStep(l1, p1, node, style, m, gs[i])
  {
    assert gs[..i + 1][..i] == gs[..i];
  }

  /** The group fold over one more group is one more group. */
  lemma GroupsSnoc(l: Layout, p: Props, node: nat, style: TextStyle, groups: seq<ShapedGroup>, k: nat)
    requires k < |groups|
    ensures var (l1, p1) := LayoutGroups(l, p, node, style, groups[..k]);
      LayoutGroups(l, p, node, style, groups[..k + 1]) == LayoutGroup(l1, p1, node, style, groups[k])
  {
    assert groups[..k + 1][..k] == groups[..k];
  }

  class LayoutState {
    var stack: seq<Item>
    var tagStart: seq<nat>
    var chars: nat
    var cx: Option<real>
    var cy: Option<real>
    var sx: Option<real>
    var xMin: Option<real>
    var xMax: Option<real>
    var style: Option<TextStyle>
    var pos: PosStacks
    /** The glyphs `#renderStack` has passed to `font.getPath`, in order. */
    var out: seq<Placed>

    /** The whole state as a value. */
    function Snap(): Layout
      reads this
    {
      Layout(stack, tagStart, chars, cx, cy, sx, xMin, xMax, style, pos, out)
    }

    /** The state once the first element has created the stacks. */
    constructor ()
      ensures Snap() == Initial
    {
      stack, tagStart, chars := [], [], 0;
      cx, cy, sx, xMin, xMax, style := None, None, None, None, None, None;
      pos := PosStacks([], [], [], []);
      out := [];
    }

    /** `#normalizePosProps`: the lists the glyphs of a text node consume, on a copy. */
    method NormalizePosProps() returns (p: Props)
      ensures p == Normalize(pos)
    {
      var x := NormalizeList(pos.x);
      var y := NormalizeList(pos.y);
      var dx := NormalizeList(pos.dx);
      var dy := NormalizeList(pos.dy);
      p := Props(x, y, dx, dy);
    }

    /** `#removePosForUsedChars`. */
    method RemovePosForUsedChars()
      modifies this
      ensures Snap() == RemoveUsed(old(Snap()))
    {
      if chars > 0 {
        var x := SpliceAll(pos.x, chars);
        var y := SpliceAll(pos.y, chars);
        var dx := SpliceAll(pos.dx, chars);
        var dy := SpliceAll(pos.dy, chars);
        pos := PosStacks(x, y, dx, dy);
      }
      chars := 0;
    }

    /** `#layoutOpenElementNode`, with the element's parsed position attributes. */
    method OpenElementNode(attrs: Props)
      modifies this
      ensures Snap() == OpenElement(old(Snap()), attrs)
    {
      RemovePosForUsedChars();
      pos := Push(pos, attrs);
      tagStart := tagStart + [|stack|];
    }

    /** `#renderStack`: every stacked glyph goes out with the anchor shift, then the run is cleared. */
    method RenderStack()
      modifies this
      ensures Snap() == Render(old(Snap()))
    {
      var shift := 0.0;
      if stack != [] {
        sx := Some(sx.GetOr(0.0));
        shift := AnchorShift(if style.Some? then style.value.alignX.GetOr("") else "", sx.value,
                             xMin.GetOr(0.0), xMax.GetOr(0.0));
      }
      var placed := out;
      var i := 0;
      while i < |stack|
        invariant 0 <= i <= |stack|
        invariant placed == out + Place(stack[..i], shift)
      {
        var it := stack[i];
        assert stack[..i + 1] == stack[..i] + [it];
        placed := placed + [Placed(it.node, it.glyph, it.size, it.x + shift, it.y, it.scale.GetOr(1.0))];
        i := i + 1;
      }
      assert stack[..i] == stack;
      out := placed;
      xMin, xMax, style := None, None, None;
      stack := [];
    }

    /** Before the glyph at character `c`: an absolute position renders the pending stack. */
    method FlushRun(p: Props, c: nat, textStyle: TextStyle)
      modifies this
      ensures Snap() == FlushChunk(old(Snap()), p, c, textStyle)
    {
      if stack != [] && (c < |p.x| || c < |p.y|) {
        RenderStack();
        style := Some(textStyle);
      }
    }

    /** At an absolute position: the pen and the chunk start are reset, and the `dx`/`dy` used are zeroed. */
    method ResetPenAt(p: Props, c: nat) returns (p': Props)
      modifies this
      ensures (Snap(), p') == ResetPen(old(Snap()), p, c)
    {
      p' := p;
      if c < |p'.x| || c < |p'.y| {
        if c < |p'.x| {
          cx := Some(p'.x[c]);
        }
        if c < |p'.dx| {
          cx := Some(cx.GetOr(0.0) + p'.dx[c]);
          p' := p'.(dx := p'.dx[c := 0.0]);
        }
        sx := cx;
      }
      if c < |p'.y| {
        cy := Some(p'.y[c]);
        if c < |p'.dy| {
          cy := Some(cy.value + p'.dy[c]);
          p' := p'.(dy := p'.dy[c := 0.0]);
        }
      }
    }

    /** The start of one glyph: count it, flush the run at an absolute position, reset the pen. */
    method StartGlyphChunk(p: Props, textStyle: TextStyle) returns (p': Props)
      modifies this
      ensures (Snap(), p') == StartGlyph(old(Snap()), p, textStyle)
    {
      var c := chars;
      chars := chars + 1;
      FlushRun(p, c, textStyle);
      p' := ResetPenAt(p, c);
    }

    /** The rest of the glyph at character `c`: its item goes on the stack and the pen advances. */
    method PushGlyphItem(p: Props, c: nat, node: nat, textStyle: TextStyle, m: Metrics, g: GlyphPos)
      modifies this
      ensures Snap() == PushGlyph(old(Snap()), p, c, node, textStyle, m, g)
    {
      var x := cx.GetOr(0.0) + At(p.dx, c);
      var y := cy.GetOr(0.0) + At(p.dy, c);
      var shiftY := BaselineShift(textStyle.alignY.GetOr(""), m, textStyle.size);
      stack := stack + [Item(node, g.glyph, textStyle.size, x + g.dx, y + g.dy + shiftY, g.advance,
                             textStyle.spacing, 0, None)];
      xMin := Some(MinOr(xMin, x));
      cx := Some(x + g.advance + textStyle.spacing);
      cy := Some(y + g.advanceY);
      xMax := Some(MaxOr(xMax, cx.value));
    }

    /** One glyph of `#layoutTextNode`, consuming its entries of the position lists. */
    method LayoutGlyph(p: Props, node: nat, textStyle: TextStyle, m: Metrics, g: GlyphPos) returns (p': Props)
      modifies this
      ensures (Snap(), p') == GlyphStep(old(Snap()), p, node, textStyle, m, g)
    {
      var c := chars;
      p' := StartGlyphChunk(p, textStyle);
      PushGlyphItem(p', c, node, textStyle, m, g);
    }

    /** The glyphs of one group, in order. */
    method LayoutGlyphRun(p: Props, node: nat, textStyle: TextStyle, g: ShapedGroup) returns (p': Props)
      modifies this
      ensures (Snap(), p') == LayoutGroup(old(Snap()), p, node, textStyle, g)
    {
      style := if style.Some? then style else Some(textStyle);
      ghost var l0 := Snap();
      p' := p;
      var i := 0;
      while i < |g.glyphs|
        invariant 0 <= i <= |g.glyphs|
        invariant (Snap(), p') == LayoutGlyphs(l0, p, node, textStyle, g.metrics, g.glyphs[..i])
      {
        GlyphsSnoc(l0, p, node, textStyle, g.metrics, g.glyphs, i);
        p' := LayoutGlyph(p', node, textStyle, g.metrics, g.glyphs[i]);
        i := i + 1;
      }
      assert g.glyphs[..i] == g.glyphs;
    }

    /** `#layoutTextNode`, given the node's shaped groups and its parsed style. */
    method LayoutTextNode(node: nat, textStyle: TextStyle, groups: seq<ShapedGroup>)
      modifies this
      ensures Snap() == LayoutText(old(Snap()), node, textStyle, groups)
    {
      var p := NormalizePosProps();
      ghost var l0 := Snap();
      ghost var p0 := p;
      var k := 0;
      while k < |groups|
        invariant 0 <= k <= |groups|
        invariant (Snap(), p) == LayoutGroups(l0, p0, node, textStyle, groups[..k])
      {
        GroupsSnoc(l0, p0, node, textStyle, groups, k);
        p := LayoutGlyphRun(p, node, textStyle, groups[k]);
        k := k + 1;
      }
      assert groups[..k] == groups;
    }

    /** The measuring loop of `#correctLength` over `stack[start..]`. */
    method MeasureLoop(start: nat) returns (ms: Measure)
      requires start <= |stack|
      ensures ms == MeasureRun(stack, start, |stack|)
    {
      var min, max: Option<real> := None, None;
      var fixed := 0.0;
      var items, prev: nat := 0, 0;
      var i := start;
      while i < |stack|
        invariant start <= i <= |stack|
        invariant Measure(min, max, fixed, items, prev) == MeasureRun(stack, start, i)
      {
        var it := stack[i];
        min := Some(MinOr(min, it.x));
        max := Some(MaxOr(max, it.x + it.w));
        if it.fix != 0 && (i == |stack| - 1 || it.fix != stack[i + 1].fix) {
          fixed := fixed + it.x + it.w - FixStartX(stack, it);
        }
        if it.fix == 0 || it.fix != prev {
          items := items + 1;
          prev := it.fix;
        }
        i := i + 1;
      }
      ms := Measure(min, max, fixed, items, prev);
    }

    /** One turn of the adjusting loop: item `i` moves, scales, and fixes; the bounds and the delta follow. */
    method AdjustItem(a: Adjust, i: nat, delta: real) returns (delta': real)
      requires i < |stack| && a.scale != 0.0
      modifies this
      ensures Run(stack, delta', xMin, xMax, cx) == AdjustStep(a, i, old(Run(stack, delta, xMin, xMax, cx)))
      ensures tagStart == old(tagStart) && chars == old(chars) && cy == old(cy) && sx == old(sx)
      ensures style == old(style) && pos == old(pos) && out == old(out)
    {
      var it := stack[i];
      var x := it.x + delta;
      var w, spacing, scale := it.w, it.spacing, it.scale;
      if a.scaling && it.fix == 0 {
        scale := Some(a.scale);
        w := w * a.scale;
        spacing := spacing * a.scale;
      }
      var width := w + spacing;
      xMin := Some(MinOr(xMin, x));
      xMax := Some(MaxOr(xMax, x + width));
      delta' := delta;
      if a.scaling && it.fix == 0 {
        delta' := delta' + (width - width / a.scale);
      }
      if !a.scaling && EndsGap(stack, i) {
        delta' := delta' + (if i == a.end - 1 then a.last else a.dx);
      }
      if i == |stack| - 1 {
        cx := Some(x + width);
      }
      stack := stack[i := it.(x := x, w := w, spacing := spacing, scale := scale,
                               fix := if it.fix == 0 then a.start + 1 else it.fix)];
    }

    /**
     * `#correctLength`, given the element's parsed `textLength` and whether
     * `lengthAdjust` is `spacingAndGlyphs`.
     */
    method CorrectLength(textLength: Option<real>, scaling: bool)
      modifies this
      ensures Snap() == SessionLayout.CorrectLength(old(Snap()), textLength, scaling)
    {
      if tagStart == [] || textLength.None? {
        tagStart := Pop(tagStart);
        return;
      }
      var start := tagStart[|tagStart| - 1];
      tagStart := tagStart[..|tagStart| - 1];
      var length := textLength.value;
      if |stack| <= start {
        return;
      }
      var ms := MeasureLoop(start);
      if ms.items == 0 || (scaling && ScaleOf(length, ms).None?) {
        return;
      }
      var a := AdjustFor(stack, start, length, scaling);
      ghost var r0 := Run(stack, 0.0, xMin, xMax, cx);
      ghost var l1 := Snap();
      var delta := 0.0;
      var i := start;
      while i < |stack|
        invariant start <= i <= |stack| == |r0.stack|
        invariant Run(stack, delta, xMin, xMax, cx) == AdjustRun(a, r0, i)
        invariant tagStart == l1.tagStart && chars == l1.chars && cy == l1.cy && sx == l1.sx
        invariant style == l1.style && pos == l1.pos && out == l1.out
      {
        delta := AdjustItem(a, i, delta);
        i := i + 1;
      }
    }

    /** `#layoutCloseElementNode` without the DOM replacement. */
    method CloseElementNode(isText: bool, textLength: Option<real>, scaling: bool)
      modifies this
      ensures Snap() == CloseElement(old(Snap()), isText, textLength, scaling)
    {
      CorrectLength(textLength, scaling);
      pos := PopAll(pos);
      if isText {
        RenderStack();
      }
    }

    /** `#layoutChildNodes`. */
    method LayoutChildNodes(n: LNode)
      modifies this
      ensures Snap() == Walk(old(Snap()), n)
      decreases n, 1
    {
      match n {
        case LText(id, textStyle, groups) =>
          if groups.Some? {
            LayoutTextNode(id, textStyle, groups.value);
          }
        case LElement(isText, attrs, textLength, scaling, children) =>
          OpenElementNode(attrs);
          LayoutChildren(n);
          CloseElementNode(isText, textLength, scaling);
        case LOther =>
      }
    }

    /** The loop over an element's children. */
    method LayoutChildren(n: LNode)
      requires n.LElement?
      modifies this
      ensures Snap() == WalkChildren(old(Snap()), n, |n.children|)
      decreases n, 0
    {
      ghost var l0 := Snap();
      var k := 0;
      while k < |n.children|
        invariant 0 <= k <= |n.children|
        invariant Snap() == WalkChildren(l0, n, k)
      {
        LayoutChildNodes(n.children[k]);
        k := k + 1;
      }
    }
  }
}
