/** What the layout step promises, proved about the functions of SessionLayout. */
module SessionLayoutLemmas {
  import opened Wrappers
  import opened Numbers
  import opened SessionLayout

  /* ---------- position lists ---------- */

  /** The normalised list is as long as the longest list of the stack. */
  lemma {:induction false} OverlayLength(lists: seq<seq<real>>)
    ensures |Overlay(lists)| == MaxLen(lists)
    decreases |lists|
  {
    if lists != [] {
      OverlayLength(lists[..|lists| - 1]);
    }
  }

  /** Every normalised entry comes from the innermost list that defines that index. */
  lemma {:induction false} OverlayAt(lists: seq<seq<real>>, i: nat)
    requires i < MaxLen(lists)
    ensures i < |Overlay(lists)| && Overlay(lists)[i] == lists[Innermost(lists, i)][i]
    decreases |lists|
  {
    OverlayLength(lists);
    var init := lists[..|lists| - 1];
    if i >= |lists[|lists| - 1]| {
      OverlayLength(init);
      OverlayAt(init, i);
    }
  }

  lemma OverDrop(acc: seq<real>, l: seq<real>, n: nat)
    ensures Over(Drop(acc, n), Drop(l, n)) == Drop(Over(acc, l), n)
  {
    var a := Over(Drop(acc, n), Drop(l, n));
    var b := Drop(Over(acc, l), n);
    assert |a| == |b|;
    forall i | 0 <= i < |a| ensures a[i] == b[i] {
      if i < |Drop(l, n)| {
        assert a[i] == l[n + i];
      } else {
        assert a[i] == acc[n + i];
      }
    }
  }

  /**
   * Dropping the entries already used from every list of the stack, as
   * `#removePosForUsedChars` does, drops them from the normalised list: an
   * element opened after `n` glyphs sees entry `n + c` at index `c`.
   */
  lemma {:induction false} OverlayDrop(lists: seq<seq<real>>, n: nat)
    ensures Overlay(DropAll(lists, n)) == Drop(Overlay(lists), n)
    decreases |lists|
  {
    if lists != [] {
      var init := lists[..|lists| - 1];
      assert DropAll(lists, n)[..|lists| - 1] == DropAll(init, n);
      OverlayDrop(init, n);
      OverDrop(Overlay(init), lists[|lists| - 1], n);
    }
  }

  /** `#removePosForUsedChars` then `#normalizePosProps` drops the used entries of each normalised list. */
  lemma NormalizeAfterRemove(l: Layout)
    ensures var p := Normalize(l.pos);
      Normalize(RemoveUsed(l).pos) ==
        Props(Drop(p.x, l.chars), Drop(p.y, l.chars), Drop(p.dx, l.chars), Drop(p.dy, l.chars))
  {
    OverlayDrop(l.pos.x, l.chars);
    OverlayDrop(l.pos.y, l.chars);
    OverlayDrop(l.pos.dx, l.chars);
    OverlayDrop(l.pos.dy, l.chars);
  }

  /* ---------- the pen ---------- */

  /**
   * Inside a chunk, a glyph is placed at the pen (plus the pending `dx` and
   * its own offset) and the pen advances by the glyph's advance plus the
   * letter spacing; the position lists are not touched.
   */
  lemma PenAdvance(l: Layout, p: Props, node: nat, style: TextStyle, m: Metrics, g: GlyphPos)
    requires !Absolute(p, l.chars)
    ensures var (l', p') := GlyphStep(l, p, node, style, m, g);
      var pen := l.cx.GetOr(0.0) + At(p.dx, l.chars);
      p' == p && l'.chars == l.chars + 1 &&
      l'.stack == l.stack + [Item(node, g.glyph, style.size, pen + g.dx,
                                  l.cy.GetOr(0.0) + At(p.dy, l.chars) + g.dy + BaselineShift(style.alignY.GetOr(""), m, style.size),
                                  g.advance, style.spacing, 0, None)] &&
      l'.cx == Some(pen + g.advance + style.spacing) && l'.out == l.out
  {
  }

  /**
   * A glyph with an `x` entry renders the pending stack and starts a new
   * chunk at `x + dx`; its `dx` entry is used up.
   */
  lemma AbsoluteX(l: Layout, p: Props, node: nat, style: TextStyle, m: Metrics, g: GlyphPos)
    requires l.chars < |p.x|
    ensures var (l', p') := GlyphStep(l, p, node, style, m, g);
      var start := p.x[l.chars] + At(p.dx, l.chars);
      l'.sx == Some(start) && l'.stack[|l'.stack| - 1].x == start + g.dx &&
      l'.cx == Some(start + g.advance + style.spacing) &&
      p'.dx == Used(p.dx, l.chars) &&
      (l.stack != [] ==> l'.out == l.out + Place(l.stack, RenderShift(l)) && |l'.stack| == 1)
  {
  }

  /** Without an `x` entry the chunk still starts at the pen; the pen reads as 0 before any glyph. */
  lemma AbsoluteYOnly(l: Layout, p: Props, node: nat, style: TextStyle, m: Metrics, g: GlyphPos)
    requires |p.x| <= l.chars < |p.y|
    ensures var (l', p') := GlyphStep(l, p, node, style, m, g);
      var start := l.cx.GetOr(0.0) + At(p.dx, l.chars);
      l'.sx.GetOr(0.0) == start && l'.stack[|l'.stack| - 1].x == start + g.dx &&
      l'.cx == Some(start + g.advance + style.spacing)
  {
  }

  /**
   * As written, a `dx` entry added to a pen that was never set gives `NaN`:
   * `<text y="20" dx="5">` places its first glyph at `NaN`.
   */
  lemma PenNaNAsWritten()
    ensures ResetPenXAsWritten(None, Props([], [20.0], [5.0], []), 0) == Some(NaN)
    ensures ResetPenX(None, Props([], [20.0], [5.0], []), 0) == Some(5.0)
  {
  }

  /** The corrected pen agrees with the code as written wherever that gives a number. */
  lemma ResetPenXAgrees(cx: Option<real>, p: Props, c: nat)
    ensures ResetPenXAsWritten(cx, p, c) != Some(NaN) ==>
      ResetPenXAsWritten(cx, p, c) == (if ResetPenX(cx, p, c).None? then None else Some(Num(ResetPenX(cx, p, c).value)))
    ensures ResetPenXAsWritten(cx, p, c) == Some(NaN) <==> c < |p.dx| && c >= |p.x| && cx.None?
  {
  }

  /* ---------- rendering ---------- */

  /**
   * The anchor shift puts the chunk's anchor point on the chunk's start
   * position: its left end for `start`, its middle for `middle`, its right
   * end for `end`.
   */
  lemma AnchorLands(alignX: string, sx: real, xMin: real, xMax: real)
    ensures var d := AnchorShift(alignX, sx, xMin, xMax);
      (alignX == "middle" ==> (xMin + xMax) / 2.0 + d == sx) &&
      (alignX == "end" ==> xMax + d == sx) &&
      (alignX != "middle" && alignX != "end" ==> xMin + d == sx)
  {
  }

  /** Rendering moves the whole stack, in order and shifted alike, to the output. */
  lemma RenderMoves(l: Layout)
    ensures var l' := Render(l);
      l'.stack == [] && |l'.out| == |l.out| + |l.stack| && l'.out[..|l.out|] == l.out &&
      (forall i :: 0 <= i < |l.stack| ==>
         l'.out[|l.out| + i].x == l.stack[i].x + RenderShift(l) && l'.out[|l.out| + i].y == l.stack[i].y) &&
      l'.pos == l.pos && l'.chars == l.chars
  {
  }

  /* ---------- `#correctLength` ---------- */

  /** Without `textLength`, or with nothing laid out since the tag opened, only the tag start is popped. */
  lemma CorrectLengthNoop(l: Layout, textLength: Option<real>, scaling: bool)
    requires textLength.None? || l.tagStart == [] || |l.stack| <= l.tagStart[|l.tagStart| - 1]
    ensures CorrectLength(l, textLength, scaling) == l.(tagStart := Pop(l.tagStart))
  {
  }

  /**
   * As written, the spacing test of the adjusting loop throws exactly when a
   * fixed item is the last one on the stack (an inner element with
   * `textLength` at the end of an outer one with `textLength`); elsewhere it
   * agrees with the corrected test.
   */
  lemma EndsGapThrows(stack: seq<Item>, i: nat)
    requires i < |stack|
    ensures EndsGapAsWritten(stack, i).None? <==> stack[i].fix != 0 && i == |stack| - 1
    ensures EndsGapAsWritten(stack, i).Some? ==> EndsGapAsWritten(stack, i).value == EndsGap(stack, i)
  {
  }

  /** The nested `textLength` input: one glyph fixed by an inner element, then the outer one corrects. */
  lemma NestedTextLengthThrows()
    ensures var it := Item(0, 0, 16.0, 0.0, 0.0, 10.0, 0.0, 1, None);
      EndsGapAsWritten([it], 0).None? && EndsGap([it], 0)
  {
  }

  /** Every item of the run from `start` on is free (no inner `textLength` fixed it). */
  predicate FreeFrom(stack: seq<Item>, start: nat) {
    forall j :: start <= j < |stack| ==> stack[j].fix == 0
  }

  /** On a free run, every item counts once and no width is fixed. */
  lemma {:induction false} MeasureFree(stack: seq<Item>, start: nat, i: nat)
    requires start <= i <= |stack| && FreeFrom(stack, start)
    ensures var ms := MeasureRun(stack, start, i);
      ms.items == i - start && ms.fixed == 0.0 && ms.prev == 0 &&
      (i > start ==> ms.min.Some? && ms.max.Some?)
    decreases i
  {
    if i > start {
      MeasureFree(stack, start, i - 1);
    }
  }

  /** The adjusting loop changes no glyph's identity and only touches the run. */
  lemma {:induction false} AdjustKeeps(a: Adjust, r: Run, i: nat)
    requires a.start <= i <= |r.stack| && a.scale != 0.0
    ensures var r' := AdjustRun(a, r, i);
      forall j :: 0 <= j < |r.stack| ==>
        r'.stack[j].node == r.stack[j].node && r'.stack[j].glyph == r.stack[j].glyph &&
        (j < a.start || i <= j ==> r'.stack[j] == r.stack[j])
    decreases i
  {
    if i > a.start {
      AdjustKeeps(a, r, i - 1);
    }
  }

  /** `k` gaps of width `dx`, added one at a time as the loop does. */
  function Gaps(k: nat, dx: real): real {
    if k == 0 then 0.0 else Gaps(k - 1, dx) + dx
  }

  lemma {:induction false} GapsProduct(k: nat, dx: real)
    ensures Gaps(k, dx) == (k as real) * dx
  {
    if k > 0 {
      GapsProduct(k - 1, dx);
    }
  }

  /** In spacing mode over a free run, the `k`-th glyph moves right by `k` gaps. */
  lemma {:induction false} AdjustSpacing(a: Adjust, r: Run, i: nat)
    requires a.start <= i <= |r.stack| && a.scale != 0.0
    requires !a.scaling && a.end == |r.stack| && FreeFrom(r.stack, a.start) && r.delta == 0.0
    ensures var r' := AdjustRun(a, r, i);
      (i < a.end ==> r'.delta == Gaps(i - a.start, a.dx)) &&
      forall j :: a.start <= j < i ==> r'.stack[j].x == r.stack[j].x + Gaps(j - a.start, a.dx)
    decreases i
  {
    if i > a.start {
      AdjustSpacing(a, r, i - 1);
      AdjustKeeps(a, r, i - 1);
      var r1 := AdjustRun(a, r, i - 1);
      SpacingStep(a, i - 1, r1);
    }
  }

  /** One turn of the spacing loop on a free glyph: it moves by the delta so far, then the delta grows. */
  lemma SpacingStep(a: Adjust, i: nat, r: Run)
    requires i < |r.stack| && a.scale != 0.0 && !a.scaling && r.stack[i].fix == 0
    ensures var r' := AdjustStep(a, i, r);
      |r'.stack| == |r.stack| && r'.stack[i].x == r.stack[i].x + r.delta &&
      r'.delta == r.delta + (if i == a.end - 1 then a.last else a.dx) &&
      forall j :: 0 <= j < |r.stack| && j != i ==> r'.stack[j] == r.stack[j]
  {
    ScaledAdvance(r.stack[i].w, r.stack[i].spacing, a.scale);
  }

  /**
   * `lengthAdjust="spacing"` on a run of free glyphs (section 10.4 of
   * SVG 1.1): the `k`-th glyph of the run moves right by `k` equal gaps of
   * `(textLength - (max - min)) / (n - 1)`, and no glyph changes width.
   */
  lemma SpacingMoves(l: Layout, start: nat, length: real)
    requires start + 1 < |l.stack| && FreeFrom(l.stack, start)
    ensures var ms := MeasureRun(l.stack, start, |l.stack|);
      var n := |l.stack| - start;
      var gap := (length - (ms.max.value - ms.min.value)) / ((n - 1) as real);
      var l' := CorrectRun(l, start, length, false);
      |l'.stack| == |l.stack| &&
      (forall j :: start <= j < |l.stack| ==> l'.stack[j].x == l.stack[j].x + Gaps(j - start, gap)) &&
      (forall j :: start <= j < |l.stack| ==> l'.stack[j].w == l.stack[j].w)
  {
    var ms := MeasureRun(l.stack, start, |l.stack|);
    MeasureFree(l.stack, start, |l.stack|);
    var a := AdjustFor(l.stack, start, length, false);
    assert a.dx == (length - (ms.max.value - ms.min.value)) / (((|l.stack| - start) - 1) as real);
    var r0 := Run(l.stack, 0.0, l.xMin, l.xMax, l.cx);
    AdjustSpacing(a, r0, |l.stack|);
    AdjustWidths(a, r0, |l.stack|);
  }

  /**
   * When the run's first glyph starts at its left end and its last glyph
   * ends at its right end, the corrected run spans exactly `textLength`.
   */
  lemma SpacingSpansLength(l: Layout, start: nat, length: real)
    requires start + 1 < |l.stack| && FreeFrom(l.stack, start)
    requires var ms := MeasureRun(l.stack, start, |l.stack|);
      ms.min.Some? && ms.max.Some? &&
      l.stack[start].x == ms.min.value && l.stack[|l.stack| - 1].x + l.stack[|l.stack| - 1].w == ms.max.value
    ensures var l' := CorrectRun(l, start, length, false);
      var e := |l.stack| - 1;
      |l'.stack| == |l.stack| && l'.stack[e].x + l'.stack[e].w - l'.stack[start].x == length
  {
    var ms := MeasureRun(l.stack, start, |l.stack|);
    var n := |l.stack| - start;
    var total := length - (ms.max.value - ms.min.value);
    var dx := total / ((n - 1) as real);
    SpacingMoves(l, start, length);
    GapsFill(n, total);
    var l' := CorrectRun(l, start, length, false);
    var e := |l.stack| - 1;
    assert l'.stack[e].x == l.stack[e].x + Gaps(n - 1, dx);
    assert l'.stack[start].x == l.stack[start].x + Gaps(0, dx);
  }

  /** `n - 1` gaps of `total / (n - 1)` add up to `total`. */
  lemma GapsFill(n: nat, total: real)
    requires n > 1
    ensures Gaps(n - 1, total / ((n - 1) as real)) == total
  {
    var dx := total / ((n - 1) as real);
    GapsProduct(n - 1, dx);
    assert ((n - 1) as real) * dx == total;
  }

  /** In spacing mode the adjusting loop keeps every width. */
  lemma {:induction false} AdjustWidths(a: Adjust, r: Run, i: nat)
    requires a.start <= i <= |r.stack| && a.scale != 0.0 && !a.scaling
    ensures forall j :: 0 <= j < |r.stack| ==> AdjustRun(a, r, i).stack[j].w == r.stack[j].w
    decreases i
  {
    if i > a.start {
      AdjustWidths(a, r, i - 1);
    }
  }

  /** In scaling mode every free glyph of the run is scaled by the same factor. */
  lemma {:induction false} AdjustScaling(a: Adjust, r: Run, i: nat)
    requires a.start <= i <= |r.stack| && a.scale != 0.0 && a.scaling && FreeFrom(r.stack, a.start)
    ensures forall j :: a.start <= j < i ==>
      AdjustRun(a, r, i).stack[j].scale == Some(a.scale) &&
      AdjustRun(a, r, i).stack[j].w == r.stack[j].w * a.scale
    decreases i
  {
    if i > a.start {
      AdjustScaling(a, r, i - 1);
      AdjustKeeps(a, r, i - 1);
    }
  }

  /**
   * `lengthAdjust="spacingAndGlyphs"` on a run of free glyphs: every glyph
   * is scaled by `textLength / (max - min)`, the factor that stretches the
   * run's extent to `textLength`.
   */
  lemma ScalingStretchesRun(l: Layout, start: nat, length: real)
    requires start < |l.stack| && FreeFrom(l.stack, start)
    requires var ms := MeasureRun(l.stack, start, |l.stack|);
      ms.max.Some? && ms.min.Some? && ms.max.value - ms.min.value != 0.0 && length != 0.0
    ensures var ms := MeasureRun(l.stack, start, |l.stack|);
      var s := length / (ms.max.value - ms.min.value);
      var l' := CorrectRun(l, start, length, true);
      |l'.stack| == |l.stack| &&
      forall j :: start <= j < |l.stack| ==> l'.stack[j].scale == Some(s) && l'.stack[j].w == l.stack[j].w * s
  {
    var ms := MeasureRun(l.stack, start, |l.stack|);
    MeasureFree(l.stack, start, |l.stack|);
    assert ms.fixed == 0.0 && ms.items > 0;
    var sc := ScaleOf(length, ms);
    assert sc == Some(length / (ms.max.value - ms.min.value));
    var a := AdjustFor(l.stack, start, length, true);
    assert a.scale == sc.value;
    var r0 := Run(l.stack, 0.0, l.xMin, l.xMax, l.cx);
    assert CorrectRun(l, start, length, true).stack == AdjustRun(a, r0, |l.stack|).stack;
    AdjustScaling(a, r0, |l.stack|);
  }

  /**
   * The corrected degenerate case: when `(textLength - fixed) / (max - min - fixed)`
   * is not a finite non-zero factor (no extent to stretch, or a zero
   * `textLength`), scaling leaves the run as it is.
   */
  lemma ScalingDegenerate(l: Layout, start: nat, length: real)
    requires start < |l.stack| && FreeFrom(l.stack, start)
    requires var ms := MeasureRun(l.stack, start, |l.stack|);
      ms.max.GetOr(0.0) - ms.min.GetOr(0.0) == 0.0 || length == 0.0
    ensures CorrectRun(l, start, length, true) == l
  {
    MeasureFree(l.stack, start, |l.stack|);
  }

  /** Where an item's advance ends: its position plus its width and spacing. */
  function AdvanceEnd(it: Item): real {
    it.x + it.w + it.spacing
  }

  /** Each glyph of the run from `start` starts where the previous glyph's advance ends. */
  predicate Tight(stack: seq<Item>, start: nat) {
    forall j {:trigger AdvanceEnd(stack[j])} :: start <= j && j + 1 < |stack| ==> stack[j + 1].x == AdvanceEnd(stack[j])
  }

  /** One turn of the scaling loop on a free glyph: it moves by the delta so far and its advance is scaled. */
  lemma ScalingStep(a: Adjust, i: nat, r: Run)
    requires i < |r.stack| && a.scale != 0.0 && a.scaling && r.stack[i].fix == 0
    ensures var r' := AdjustStep(a, i, r);
      var it := r.stack[i];
      |r'.stack| == |r.stack| && r'.stack[i].x == it.x + r.delta && r'.stack[i].w == it.w * a.scale &&
      r'.delta == r.delta + Shift(it.w, it.spacing, a.scale) &&
      forall j :: 0 <= j < |r.stack| && j != i ==> r'.stack[j] == r.stack[j]
  {
  }

  lemma ScaledAdvance(w: real, spacing: real, s: real)
    requires s != 0.0
    ensures var width := w * s + spacing * s;
      width - width / s == Shift(w, spacing, s)
  {
    var width := w * s + spacing * s;
    assert width == (w + spacing) * s;
    assert width / s == w + spacing;
  }

  /** What one scaled glyph of width `w` and spacing `spacing` adds to `delta`. */
  function Shift(w: real, spacing: real, s: real): real {
    (w + spacing) * (s - 1.0)
  }

  /** The advances `w + spacing` of `stack[start..i]`. */
  function Advance(stack: seq<Item>, start: nat, i: nat): real
    requires start <= i <= |stack|
    decreases i
  {
    if i == start then 0.0 else Advance(stack, start, i - 1) + stack[i - 1].w + stack[i - 1].spacing
  }

  /** What the scaling turns over `stack[start..i]` add to `delta`. */
  function ScaledShift(stack: seq<Item>, start: nat, i: nat, s: real): real
    requires start <= i <= |stack|
    decreases i
  {
    if i == start then 0.0 else ScaledShift(stack, start, i - 1, s) + Shift(stack[i - 1].w, stack[i - 1].spacing, s)
  }

  /** One more scaled glyph adds its shift to the shifts before it. */
  lemma ShiftAdds(s: real, adv: real, w: real, spacing: real, adv': real, d: real, d': real)
    requires adv' == adv + w + spacing && d == (s - 1.0) * adv && d' == d + Shift(w, spacing, s)
    ensures d' == (s - 1.0) * adv'
  {
  }

  /** The shifts of `stack[start..i]` are `scale - 1` times their advances. */
  lemma {:induction false} ShiftIsScaledAdvance(stack: seq<Item>, start: nat, i: nat, s: real)
    requires start <= i <= |stack|
    ensures ScaledShift(stack, start, i, s) == (s - 1.0) * Advance(stack, start, i)
    decreases i
  {
    if i > start {
      ShiftIsScaledAdvance(stack, start, i - 1, s);
      ShiftAdds(s, Advance(stack, start, i - 1), stack[i - 1].w, stack[i - 1].spacing, Advance(stack, start, i),
                ScaledShift(stack, start, i - 1, s), ScaledShift(stack, start, i, s));
    } else {
      Unmoved(s);
    }
  }

  lemma Unmoved(s: real)
    ensures (s - 1.0) * 0.0 == 0.0
  {
  }

  /** In scaling mode over a free run, each glyph moves right by the shifts of the glyphs before it. */
  lemma {:induction false} AdjustScalingShifts(a: Adjust, r: Run, i: nat)
    requires a.start <= i <= |r.stack| && a.scale != 0.0 && a.scaling
    requires FreeFrom(r.stack, a.start) && r.delta == 0.0
    ensures var r' := AdjustRun(a, r, i);
      r'.delta == ScaledShift(r.stack, a.start, i, a.scale) &&
      forall j :: a.start <= j < i ==> r'.stack[j].x == r.stack[j].x + ScaledShift(r.stack, a.start, j, a.scale)
    decreases i
  {
    if i > a.start {
      AdjustScalingShifts(a, r, i - 1);
      AdjustKeeps(a, r, i - 1);
      var r1 := AdjustRun(a, r, i - 1);
      assert r1.stack[i - 1] == r.stack[i - 1];
      ScalingStep(a, i - 1, r1);
    }
  }

  /** On a tight run the advances before glyph `i` add up to its distance from the run's first glyph. */
  lemma {:induction false} AdvanceIsDistance(stack: seq<Item>, start: nat, i: nat)
    requires start <= i < |stack| && Tight(stack, start)
    ensures Advance(stack, start, i) == stack[i].x - stack[start].x
    decreases i
  {
    if i > start {
      AdvanceIsDistance(stack, start, i - 1);
      assert stack[i].x == AdvanceEnd(stack[i - 1]);
    }
  }

  /** The arithmetic of one scaled span: shifted end plus scaled width, less the unmoved start. */
  lemma SpanScale(s: real, xe: real, x0: real, we: real, adv: real, d: real, xe': real, we': real, span: real)
    requires adv == xe - x0 && d == (s - 1.0) * adv && xe' == xe + d && we' == we * s && span == xe + we - x0
    ensures xe' + we' - x0 == s * span
  {
  }

  /**
   * `lengthAdjust="spacingAndGlyphs"` on a run of free glyphs: each glyph
   * moves right by what the scaled glyphs before it added to `delta`.
   */
  lemma ScalingShiftsRun(l: Layout, start: nat, length: real)
    requires start < |l.stack| && FreeFrom(l.stack, start)
    requires var ms := MeasureRun(l.stack, start, |l.stack|);
      ms.max.Some? && ms.min.Some? && ms.max.value - ms.min.value != 0.0 && length != 0.0
    ensures var ms := MeasureRun(l.stack, start, |l.stack|);
      var s := length / (ms.max.value - ms.min.value);
      var l' := CorrectRun(l, start, length, true);
      |l'.stack| == |l.stack| &&
      forall j :: start <= j < |l.stack| ==> l'.stack[j].x == l.stack[j].x + ScaledShift(l.stack, start, j, s)
  {
    var ms := MeasureRun(l.stack, start, |l.stack|);
    MeasureFree(l.stack, start, |l.stack|);
    assert ms.fixed == 0.0 && ms.items > 0;
    var s := length / (ms.max.value - ms.min.value);
    assert ScaleOf(length, ms) == Some(s);
    var a := AdjustFor(l.stack, start, length, true);
    assert a.scale == s;
    var r0 := Run(l.stack, 0.0, l.xMin, l.xMax, l.cx);
    assert CorrectRun(l, start, length, true).stack == AdjustRun(a, r0, |l.stack|).stack;
    AdjustKeeps(a, r0, |l.stack|);
    AdjustScalingShifts(a, r0, |l.stack|);
  }

  /**
   * On a tight run of span `span`, shifting each glyph by the scaled turns
   * before it and scaling each width by `length / span` makes the span `length`.
   */
  lemma SpanOfRun(stack: seq<Item>, stack': seq<Item>, start: nat, s: real, length: real, span: real)
    requires start < |stack| == |stack'| && Tight(stack, start)
    requires var e := |stack| - 1;
      span == stack[e].x + stack[e].w - stack[start].x && s * span == length
    requires var e := |stack| - 1;
      stack'[start].x == stack[start].x && stack'[e].x == stack[e].x + ScaledShift(stack, start, e, s) &&
      stack'[e].w == stack[e].w * s
    ensures var e := |stack| - 1;
      stack'[e].x + stack'[e].w - stack'[start].x == length
  {
    var e := |stack| - 1;
    AdvanceIsDistance(stack, start, e);
    ShiftIsScaledAdvance(stack, start, e, s);
    SpanScale(s, stack[e].x, stack[start].x, stack[e].w, Advance(stack, start, e), ScaledShift(stack, start, e, s),
              stack'[e].x, stack'[e].w, span);
  }

  /**
   * The span of a scaled run. Its two per-glyph requirements are what
   * `ScalingShiftsRun` and `ScalingStretchesRun` ensure of
   * `CorrectRun(l, start, length, true).stack` with `s == length / extent`;
   * when the measured extent is the span of the tight run, `s * span == length`
   * and the scaled run spans exactly `textLength`.
   */
  lemma SpanOfScaledRun(stack: seq<Item>, stack': seq<Item>, start: nat, s: real, length: real, span: real)
    requires start < |stack| == |stack'| && Tight(stack, start)
    requires var e := |stack| - 1;
      span == stack[e].x + stack[e].w - stack[start].x && s * span == length
    requires forall j :: start <= j < |stack| ==> stack'[j].x == stack[j].x + ScaledShift(stack, start, j, s)
    requires forall j :: start <= j < |stack| ==> stack'[j].w == stack[j].w * s
    ensures var e := |stack| - 1;
      stack'[e].x + stack'[e].w - stack'[start].x == length
  {
    var e := |stack| - 1;
    assert stack'[start].x == stack[start].x + ScaledShift(stack, start, start, s);
    assert stack'[e].x == stack[e].x + ScaledShift(stack, start, e, s);
    assert stack'[e].w == stack[e].w * s;
    SpanOfRun(stack, stack', start, s, length, span);
  }

  /* ---------- degenerate scaling, as written ---------- */

  /** A JavaScript number as the scaling arithmetic can leave it: finite, an infinity, or `NaN`. */
  datatype XNum = Fin(v: real) | Inf(neg: bool) | XNaN

  /** `a / b` for two finite numbers; a zero divisor counts as `+0`. */
  function XDiv(a: real, b: real): XNum {
    if b != 0.0 then Fin(a / b)
    else if a > 0.0 then Inf(false)
    else if a < 0.0 then Inf(true)
    else XNaN
  }

  /** `a * s` for a finite `a`: `0 * Infinity` is `NaN`. */
  function XScale(a: real, s: XNum): XNum {
    match s
    case Fin(v) => Fin(a * v)
    case Inf(neg) => if a == 0.0 then XNaN else Inf(neg != (a < 0.0))
    case XNaN => XNaN
  }

  /** `a + b`: `Infinity + -Infinity` is `NaN`. */
  function XAdd(a: XNum, b: XNum): XNum {
    match (a, b)
    case (Fin(x), Fin(y)) => Fin(x + y)
    case (XNaN, _) => XNaN
    case (_, XNaN) => XNaN
    case (Inf(n), Inf(m)) => if n == m then a else XNaN
    case (Inf(_), Fin(_)) => a
    case (Fin(_), Inf(_)) => b
  }

  function XNeg(a: XNum): XNum {
    match a
    case Fin(x) => Fin(-x)
    case Inf(n) => Inf(!n)
    case XNaN => XNaN
  }

  /** `a / b`: `Infinity / Infinity` is `NaN`, a finite number over an infinity is `0`. */
  function XQuot(a: XNum, b: XNum): XNum {
    match (a, b)
    case (Fin(x), Fin(y)) => XDiv(x, y)
    case (Fin(_), Inf(_)) => Fin(0.0)
    case (Inf(n), Fin(y)) => Inf(n != (y < 0.0))
    case _ => XNaN
  }

  /** `scale = (length - fixed) / (max - min - fixed)`, as written. */
  function ScaleAsWritten(length: real, ms: Measure): XNum {
    XDiv(length - ms.fixed, ms.max.GetOr(0.0) - ms.min.GetOr(0.0) - ms.fixed)
  }

  /** The model's scale is the source's exactly when the source's is a finite non-zero number. */
  lemma ScaleOfAsWritten(length: real, ms: Measure)
    ensures ScaleOf(length, ms).Some? <==> ScaleAsWritten(length, ms).Fin? && ScaleAsWritten(length, ms).v != 0.0
    ensures ScaleOf(length, ms).Some? ==> ScaleAsWritten(length, ms) == Fin(ScaleOf(length, ms).value)
  {
    var den := ms.max.GetOr(0.0) - ms.min.GetOr(0.0) - ms.fixed;
    if den != 0.0 && length != ms.fixed {
      assert (length - ms.fixed) / den != 0.0;
    }
  }

  /** What a free glyph adds to `delta` in scaling mode, as written: `width - width / scale`. */
  function ScaledDeltaAsWritten(w: real, spacing: real, s: XNum): XNum {
    var width := XAdd(XScale(w, s), XScale(spacing, s));
    XSub(width, XQuot(width, s))
  }

  function XSub(a: XNum, b: XNum): XNum {
    XAdd(a, XNeg(b))
  }

  /** With a zero, infinite or `NaN` scale, every scaled glyph adds `NaN` to `delta`. */
  lemma DegenerateStepNaN(w: real, spacing: real, s: XNum)
    requires !(s.Fin? && s.v != 0.0)
    ensures ScaledDeltaAsWritten(w, spacing, s) == XNaN
  {
  }

  /** `delta` before item `i` of a free run in scaling mode, as written. */
  function DeltaAsWritten(stack: seq<Item>, start: nat, i: nat, s: XNum): XNum
    requires start <= i <= |stack|
    decreases i
  {
    if i == start then Fin(0.0)
    else XAdd(DeltaAsWritten(stack, start, i - 1, s), ScaledDeltaAsWritten(stack[i - 1].w, stack[i - 1].spacing, s))
  }

  /** `item.x += delta` for item `i`, as written. */
  function XAsWritten(stack: seq<Item>, start: nat, i: nat, s: XNum): XNum
    requires start <= i < |stack|
  {
    XAdd(Fin(stack[i].x), DeltaAsWritten(stack, start, i, s))
  }

  lemma {:induction false} DeltaNaN(stack: seq<Item>, start: nat, i: nat, s: XNum)
    requires start < i <= |stack| && !(s.Fin? && s.v != 0.0)
    ensures DeltaAsWritten(stack, start, i, s) == XNaN
    decreases i
  {
    DegenerateStepNaN(stack[i - 1].w, stack[i - 1].spacing, s);
    if i - 1 > start {
      DeltaNaN(stack, start, i - 1, s);
    }
  }

  /**
   * As written, a free run that cannot be scaled by a finite non-zero factor
   * places every glyph after its first at `x = NaN`.
   */
  lemma DegenerateScalingNaN(stack: seq<Item>, start: nat, length: real, i: nat)
    requires start < i < |stack| && FreeFrom(stack, start)
    requires ScaleOf(length, MeasureRun(stack, start, |stack|)).None?
    ensures XAsWritten(stack, start, i, ScaleAsWritten(length, MeasureRun(stack, start, |stack|))) == XNaN
  {
    var ms := MeasureRun(stack, start, |stack|);
    ScaleOfAsWritten(length, ms);
    DeltaNaN(stack, start, i, ScaleAsWritten(length, ms));
  }

  /** `<text textLength="0" lengthAdjust="spacingAndGlyphs">ab</text>`: the second glyph lands at `NaN`. */
  lemma ZeroTextLengthNaN()
    ensures var a := Item(0, 0, 16.0, 0.0, 0.0, 5.0, 0.0, 0, None);
      var b := Item(0, 1, 16.0, 5.0, 0.0, 5.0, 0.0, 0, None);
      XAsWritten([a, b], 0, 1, ScaleAsWritten(0.0, MeasureRun([a, b], 0, 2))) == XNaN
  {
    var a := Item(0, 0, 16.0, 0.0, 0.0, 5.0, 0.0, 0, None);
    var b := Item(0, 1, 16.0, 5.0, 0.0, 5.0, 0.0, 0, None);
    MeasureFree([a, b], 0, 2);
    DegenerateScalingNaN([a, b], 0, 0.0, 1);
  }

  /** With a finite non-zero scale, a scaled glyph adds what the model adds. */
  lemma FiniteStep(w: real, spacing: real, s: real)
    requires s != 0.0
    ensures ScaledDeltaAsWritten(w, spacing, Fin(s)) == Fin(Shift(w, spacing, s))
  {
    var width := w * s + spacing * s;
    assert XAdd(XScale(w, Fin(s)), XScale(spacing, Fin(s))) == Fin(width);
    assert XQuot(Fin(width), Fin(s)) == Fin(width / s);
    ScaledAdvance(w, spacing, s);
  }

  /** With a finite non-zero scale, the source's `delta` is a finite number: the model's shifts. */
  lemma {:induction false} DeltaAsWrittenFinite(stack: seq<Item>, start: nat, i: nat, s: real)
    requires start <= i <= |stack| && s != 0.0
    ensures DeltaAsWritten(stack, start, i, Fin(s)) == Fin(ScaledShift(stack, start, i, s))
    decreases i
  {
    if i > start {
      DeltaAsWrittenFinite(stack, start, i - 1, s);
      FiniteStep(stack[i - 1].w, stack[i - 1].spacing, s);
    }
  }

  /**
   * Where the source's scale is a finite non-zero number, its `delta` and
   * positions are the model's.
   */
  lemma ScalingAgreesAsWritten(a: Adjust, r: Run, i: nat)
    requires a.start <= i <= |r.stack| && a.scale != 0.0 && a.scaling
    requires FreeFrom(r.stack, a.start) && r.delta == 0.0
    ensures var r' := AdjustRun(a, r, i);
      DeltaAsWritten(r.stack, a.start, i, Fin(a.scale)) == Fin(r'.delta) &&
      forall j :: a.start <= j < i ==> XAsWritten(r.stack, a.start, j, Fin(a.scale)) == Fin(r'.stack[j].x)
  {
    AdjustScalingShifts(a, r, i);
    DeltaAsWrittenFinite(r.stack, a.start, i, a.scale);
    forall j | a.start <= j < i
      ensures XAsWritten(r.stack, a.start, j, Fin(a.scale)) == Fin(AdjustRun(a, r, i).stack[j].x)
    {
      DeltaAsWrittenFinite(r.stack, a.start, j, a.scale);
    }
  }
}
