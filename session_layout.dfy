/**
 * The layout step of `Session.replace` as functions on a snapshot of the
 * layout state: the stacks of `x`/`y`/`dx`/`dy` lists, the pen, the glyph
 * stack with its `textLength` correction, and the rendering of the stack
 * with the `text-anchor` shift (sections 10.4 and 10.9 of SVG 1.1).
 *
 * Glyph shaping is an input: each text group arrives with the glyphs and
 * advances its font produced, and the font's vertical metrics.  Rendering
 * produces the placed glyphs (font size, position, scale) in the order the
 * paths would be written; the path data itself is not modelled.
 */
module SessionLayout {
  import opened Wrappers
  import opened Numbers
  import SessionStyle

  /** `SessionTextStyle`, as `#parseStyle` (`SessionStyle.ParseStyle`) builds it. */
  type TextStyle = SessionStyle.TextStyle

  /* ---------- position lists (`#normalizePosProps`, `#removePosForUsedChars`) ---------- */

  /** One value list written over another: its own entries, then the rest of the older one. */
  function Over(acc: seq<real>, l: seq<real>): (r: seq<real>)
    ensures |r| == if |l| >= |acc| then |l| else |acc|
    ensures forall i :: 0 <= i < |l| ==> r[i] == l[i]
    ensures forall i :: |l| <= i < |r| ==> r[i] == acc[i]
  {
    if |l| >= |acc| then l else l + acc[|l|..]
  }

  /** The lists of one position attribute, outermost first, written over each other in order. */
  function Overlay(lists: seq<seq<real>>): seq<real>
    decreases |lists|
  {
    if lists == [] then [] else Over(Overlay(lists[..|lists| - 1]), lists[|lists| - 1])
  }

  /** The length of the longest list. */
  function MaxLen(lists: seq<seq<real>>): (n: nat)
    ensures forall k :: 0 <= k < |lists| ==> |lists[k]| <= n
    ensures lists == [] ==> n == 0
    ensures lists != [] ==> exists k :: 0 <= k < |lists| && |lists[k]| == n
    decreases |lists|
  {
    if lists == [] then 0
    else
      var m := MaxLen(lists[..|lists| - 1]);
      var l := |lists[|lists| - 1]|;
      var n := if l >= m then l else m;
      assert forall k :: 0 <= k < |lists| - 1 ==> lists[k] == lists[..|lists| - 1][k];
      n
  }

  /** The innermost list that has an entry at index `i`. */
  function Innermost(lists: seq<seq<real>>, i: nat): (k: nat)
    requires i < MaxLen(lists)
    ensures k < |lists| && i < |lists[k]|
    ensures forall k' :: k < k' < |lists| ==> |lists[k']| <= i
    decreases |lists|
  {
    if i < |lists[|lists| - 1]| then |lists| - 1
    else
      var init := lists[..|lists| - 1];
      assert forall k :: 0 <= k < |init| ==> init[k] == lists[k];
      Innermost(init, i)
  }

  /** `values.splice(0, n)` on one list: its first `n` entries are gone. */
  function Drop(l: seq<real>, n: nat): seq<real> {
    if n <= |l| then l[n..] else []
  }

  /** `#removePosForUsedChars` on the lists of one attribute. */
  function DropAll(lists: seq<seq<real>>, n: nat): (r: seq<seq<real>>)
    ensures |r| == |lists|
    ensures forall k :: 0 <= k < |lists| ==> r[k] == Drop(lists[k], n)
  {
    seq(|lists|, k requires 0 <= k < |lists| => Drop(lists[k], n))
  }

  /** The `x`, `y`, `dx` and `dy` list stacks (`state.x` …), one list per open element. */
  datatype PosStacks = PosStacks(x: seq<seq<real>>, y: seq<seq<real>>, dx: seq<seq<real>>, dy: seq<seq<real>>)

  /** The parsed `x`, `y`, `dx` and `dy` of one element, or the normalised lists of a text node. */
  datatype Props = Props(x: seq<real>, y: seq<real>, dx: seq<real>, dy: seq<real>)

  /** `#normalizePosProps`. */
  function Normalize(pos: PosStacks): Props {
    Props(Overlay(pos.x), Overlay(pos.y), Overlay(pos.dx), Overlay(pos.dy))
  }

  function DropUsed(pos: PosStacks, n: nat): PosStacks {
    PosStacks(DropAll(pos.x, n), DropAll(pos.y, n), DropAll(pos.dx, n), DropAll(pos.dy, n))
  }

  function Push(pos: PosStacks, p: Props): PosStacks {
    PosStacks(pos.x + [p.x], pos.y + [p.y], pos.dx + [p.dx], pos.dy + [p.dy])
  }

  /** `Array.prototype.pop` without its result (an empty list stays empty). */
  function Pop<T>(s: seq<T>): seq<T> {
    if s == [] then [] else s[..|s| - 1]
  }

  function PopAll(pos: PosStacks): PosStacks {
    PosStacks(Pop(pos.x), Pop(pos.y), Pop(pos.dx), Pop(pos.dy))
  }

  /* ---------- the layout state ---------- */

  /** One glyph of `font.getGlyphsAndPos`: its id, advance (`x`, `y`) and offset (`dx`, `dy`). */
  datatype GlyphPos = GlyphPos(glyph: nat, advance: real, advanceY: real, dx: real, dy: real)

  /** The font's vertical metrics (`font.getMetrics()`), in units of the font size. */
  datatype Metrics = Metrics(ascent: real, descent: real, xHeight: real)

  /** A text group after shaping: the glyphs of its text and its font's metrics (no glyphs without a font). */
  datatype ShapedGroup = ShapedGroup(glyphs: seq<GlyphPos>, metrics: Metrics)

  /**
   * A stack entry.  `fix` is 0 while the glyph is free and otherwise one more
   * than the start of the `textLength` run that fixed it; `scale` is set when
   * `lengthAdjust="spacingAndGlyphs"` scaled it.
   */
  datatype Item = Item(node: nat, glyph: nat, size: real, x: real, y: real, w: real, spacing: real,
                       fix: nat, scale: Option<real>)

  /** A rendered glyph: what `font.getPath` is called with. */
  datatype Placed = Placed(node: nat, glyph: nat, size: real, x: real, y: real, scale: real)

  /** `SessionLayoutState`, with the rendered glyphs in `out`. */
  datatype Layout = Layout(stack: seq<Item>, tagStart: seq<nat>, chars: nat,
                           cx: Option<real>, cy: Option<real>, sx: Option<real>,
                           xMin: Option<real>, xMax: Option<real>, style: Option<TextStyle>,
                           pos: PosStacks, out: seq<Placed>)

  /** The state after `#layoutOpenElementNode` has created the stacks. */
  const Initial: Layout := Layout([], [], 0, None, None, None, None, None, None,
                                  PosStacks([], [], [], []), [])

  /** `Math.min(a ?? Infinity, b)`. */
  function MinOr(a: Option<real>, b: real): real {
    if a.Some? && a.value < b then a.value else b
  }

  /** `Math.max(a ?? -Infinity, b)`. */
  function MaxOr(a: Option<real>, b: real): real {
    if a.Some? && a.value > b then a.value else b
  }

  /* ---------- `#renderStack` ---------- */

  /** The horizontal shift of a run for `text-anchor` (`start` and anything else, `middle`, `end`). */
  function AnchorShift(alignX: string, sx: real, xMin: real, xMax: real): real {
    var dx := sx - xMin;
    if alignX == "middle" then dx + (xMin - xMax) / 2.0
    else if alignX == "end" then sx - xMax
    else dx
  }

  function Place(stack: seq<Item>, shift: real): (r: seq<Placed>)
    ensures |r| == |stack|
    ensures forall i :: 0 <= i < |stack| ==>
      r[i] == Placed(stack[i].node, stack[i].glyph, stack[i].size, stack[i].x + shift, stack[i].y,
                     stack[i].scale.GetOr(1.0))
  {
    seq(|stack|, i requires 0 <= i < |stack| =>
      Placed(stack[i].node, stack[i].glyph, stack[i].size, stack[i].x + shift, stack[i].y,
             stack[i].scale.GetOr(1.0)))
  }

  /** The alignment of the run in the stack (the run's style is always set when the stack is not empty). */
  function RunAlignX(l: Layout): string {
    if l.style.Some? then l.style.value.alignX.GetOr("") else ""
  }

  /** The shift `#renderStack` applies to the stack. */
  function RenderShift(l: Layout): real {
    if l.stack == [] then 0.0
    else AnchorShift(RunAlignX(l), l.sx.GetOr(0.0), l.xMin.GetOr(0.0), l.xMax.GetOr(0.0))
  }

  /** `#renderStack`: the stack is placed with the anchor shift, then emptied. */
  function Render(l: Layout): Layout {
    l.(sx := if l.stack == [] then l.sx else Some(l.sx.GetOr(0.0)),
       out := l.out + Place(l.stack, RenderShift(l)),
       stack := [], xMin := None, xMax := None, style := None)
  }

  /* ---------- `#layoutTextNode` ---------- */

  /** The vertical shift of `dominant-baseline`/`alignment-baseline`. */
  function BaselineShift(alignY: string, m: Metrics, size: real): real {
    match alignY
    case "middle" => m.xHeight * size / 2.0
    case "ideographic" => m.descent * size
    case "text-after-edge" => m.descent * size
    case "text-before-edge" => m.ascent * size
    case "central" => (m.ascent + m.descent) * size / 2.0
    case "mathematical" => m.ascent * size / 2.0
    case "hanging" => m.ascent * size * 0.8
    case _ => 0.0
  }

  /**
   * The pen's `x` after an absolute position is reached, as written: an
   * `x` entry sets it, then a `dx` entry is added, to the undefined pen
   * when no `x` was ever given, which is `NaN`.
   */
  function ResetPenXAsWritten(cx: Option<real>, p: Props, c: nat): Option<JsNum> {
    var a := if c < |p.x| then Some(p.x[c]) else cx;
    if c < |p.dx| then
      (if a.None? then Some(NaN) else Some(Num(a.value + p.dx[c])))
    else if a.None? then None else Some(Num(a.value))
  }

  /**
   * The pen's `x` after an absolute position, the undefined pen counting as
   * 0 as it does elsewhere: a `dx` entry always gives a position, and without
   * one the pen is the `x` entry or else unchanged.
   */
  function ResetPenX(cx: Option<real>, p: Props, c: nat): (r: Option<real>)
    ensures c < |p.dx| ==> r.Some?
    ensures c >= |p.dx| ==> r == (if c < |p.x| then Some(p.x[c]) else cx)
  {
    var a := if c < |p.x| then Some(p.x[c]) else cx;
    if c < |p.dx| then Some(a.GetOr(0.0) + p.dx[c]) else a
  }

  /** Entry `c` of a list, or 0 past its end (`props.dx[char] ?? 0`). */
  function At(s: seq<real>, c: nat): real {
    if c < |s| then s[c] else 0.0
  }

  /** Entry `c` set to 0 where there is one (`props.dx[char] = 0`). */
  function Used(s: seq<real>, c: nat): seq<real> {
    if c < |s| then s[c := 0.0] else s
  }

  /** Whether glyph `c` starts a new absolutely positioned chunk. */
  predicate Absolute(p: Props, c: nat) {
    c < |p.x| || c < |p.y|
  }

  /** Before the glyph at character `c`: an absolute position renders the pending stack and restarts the style. */
  function FlushChunk(l: Layout, p: Props, c: nat, style: TextStyle): Layout {
    if l.stack != [] && Absolute(p, c) then Render(l).(style := Some(style)) else l
  }

  /**
   * At an absolute position the pen and the chunk start are reset,
   * consuming the `dx`/`dy` entries used.
   */
  function ResetPen(l: Layout, p: Props, c: nat): (Layout, Props) {
    var cxReset := if Absolute(p, c) then ResetPenX(l.cx, p, c) else l.cx;
    var p1 := if Absolute(p, c) then p.(dx := Used(p.dx, c)) else p;
    var sx := if Absolute(p, c) then cxReset else l.sx;
    var cyReset := if c < |p1.y| then Some(p1.y[c] + At(p1.dy, c)) else l.cy;
    var p2 := if c < |p1.y| then p1.(dy := Used(p1.dy, c)) else p1;
    (l.(cx := cxReset, cy := cyReset, sx := sx), p2)
  }

  /** The start of one glyph of `#layoutTextNode`: the character is counted, then the chunk is flushed and the pen reset. */
  function StartGlyph(l: Layout, p: Props, style: TextStyle): (Layout, Props) {
    var c := l.chars;
    ResetPen(FlushChunk(l.(chars := c + 1), p, c, style), p, c)
  }

  /** The rest of the glyph at character `c`: relative offsets, baseline shift, push, advance. */
  function PushGlyph(l: Layout, p: Props, c: nat, node: nat, style: TextStyle, m: Metrics, g: GlyphPos): Layout {
    var cx := l.cx.GetOr(0.0) + At(p.dx, c);
    var cy := l.cy.GetOr(0.0) + At(p.dy, c);
    var item := Item(node, g.glyph, style.size, cx + g.dx, cy + g.dy + BaselineShift(style.alignY.GetOr(""), m, style.size),
                     g.advance, style.spacing, 0, None);
    var cx' := cx + g.advance + style.spacing;
    l.(stack := l.stack + [item], cx := Some(cx'), cy := Some(cy + g.advanceY),
       xMin := Some(MinOr(l.xMin, cx)), xMax := Some(MaxOr(l.xMax, cx')))
  }

  /** One glyph of `#layoutTextNode`. */
  function GlyphStep(l: Layout, p: Props, node: nat, style: TextStyle, m: Metrics, g: GlyphPos): (Layout, Props) {
    var (l1, p1) := StartGlyph(l, p, style);
    (PushGlyph(l1, p1, l.chars, node, style, m, g), p1)
  }

  /** The glyphs of one group, in order. */
  function LayoutGlyphs(l: Layout, p: Props, node: nat, style: TextStyle, m: Metrics, gs: seq<GlyphPos>): (Layout, Props)
    decreases |gs|
  {
    if gs == [] then (l, p)
    else
      var (l1, p1) := LayoutGlyphs(l, p, node, style, m, gs[..|gs| - 1]);
      GlyphStep(l1, p1, node, style, m, gs[|gs| - 1])
  }

  /** `state.style = state.style || style`, then the group's glyphs. */
  function LayoutGroup(l: Layout, p: Props, node: nat, style: TextStyle, g: ShapedGroup): (Layout, Props) {
    var l1 := l.(style := if l.style.Some? then l.style else Some(style));
    LayoutGlyphs(l1, p, node, style, g.metrics, g.glyphs)
  }

  function LayoutGroups(l: Layout, p: Props, node: nat, style: TextStyle, groups: seq<ShapedGroup>): (Layout, Props)
    decreases |groups|
  {
    if groups == [] then (l, p)
    else
      var (l1, p1) := LayoutGroups(l, p, node, style, groups[..|groups| - 1]);
      LayoutGroup(l1, p1, node, style, groups[|groups| - 1])
  }

  /** `#layoutTextNode`: the normalised position lists are a copy the glyphs consume. */
  function LayoutText(l: Layout, node: nat, style: TextStyle, groups: seq<ShapedGroup>): Layout {
    LayoutGroups(l, Normalize(l.pos), node, style, groups).0
  }

  /* ---------- `#correctLength` ---------- */

  /** The running values of the measuring loop. */
  datatype Measure = Measure(min: Option<real>, max: Option<real>, fixed: real, items: nat, prev: nat)

  /** The `x` where the fixed run of an item starts (a fix always points into the stack). */
  function FixStartX(stack: seq<Item>, it: Item): real {
    if 0 < it.fix <= |stack| then stack[it.fix - 1].x else 0.0
  }

  /** One turn of the measuring loop at index `i`. */
  function MeasureStep(stack: seq<Item>, i: nat, ms: Measure): Measure
    requires i < |stack|
  {
    var it := stack[i];
    var endsFixedRun := it.fix != 0 && (i == |stack| - 1 || it.fix != stack[i + 1].fix);
    var counts := it.fix == 0 || it.fix != ms.prev;
    Measure(Some(MinOr(ms.min, it.x)), Some(MaxOr(ms.max, it.x + it.w)),
            if endsFixedRun then ms.fixed + it.x + it.w - FixStartX(stack, it) else ms.fixed,
            if counts then ms.items + 1 else ms.items,
            if counts then it.fix else ms.prev)
  }

  /** The measuring loop over `stack[start..i]`. */
  function MeasureRun(stack: seq<Item>, start: nat, i: nat): Measure
    requires start <= i <= |stack|
    decreases i
  {
    if i == start then Measure(None, None, 0.0, 0, 0)
    else MeasureStep(stack, i - 1, MeasureRun(stack, start, i - 1))
  }

  /**
   * Whether item `i` ends a spacing gap, as written: the test reads
   * `stack[i + 1].fix`, which throws (`None`) when a fixed item is the last
   * one on the stack.
   */
  function EndsGapAsWritten(stack: seq<Item>, i: nat): Option<bool>
    requires i < |stack|
  {
    if stack[i].fix == 0 then Some(true)
    else if i + 1 >= |stack| then None
    else Some(stack[i].fix != stack[i + 1].fix)
  }

  /**
   * Whether item `i` ends a spacing gap: a free item, or the last item of a
   * fixed run; it agrees with the code as written wherever that does not throw.
   */
  function EndsGap(stack: seq<Item>, i: nat): (b: bool)
    requires i < |stack|
    ensures EndsGapAsWritten(stack, i).Some? ==> b == EndsGapAsWritten(stack, i).value
    ensures i == |stack| - 1 ==> b
  {
    stack[i].fix == 0 || i == |stack| - 1 || stack[i].fix != stack[i + 1].fix
  }

  /** What the adjusting loop reads besides the stack. */
  datatype Adjust = Adjust(start: nat, end: nat, scaling: bool, scale: real, dx: real, last: real)

  /** The running values of the adjusting loop. */
  datatype Run = Run(stack: seq<Item>, delta: real, xMin: Option<real>, xMax: Option<real>, cx: Option<real>)

  /** One turn of the adjusting loop at index `i`: shift, scale, bounds, next delta, fix. */
  function AdjustStep(a: Adjust, i: nat, r: Run): Run
    requires i < |r.stack| && a.scale != 0.0
  {
    var it := r.stack[i];
    var scaled := a.scaling && it.fix == 0;
    var w := if scaled then it.w * a.scale else it.w;
    var spacing := if scaled then it.spacing * a.scale else it.spacing;
    var x := it.x + r.delta;
    var width := w + spacing;
    var gap := if !a.scaling && EndsGap(r.stack, i) then (if i == a.end - 1 then a.last else a.dx) else 0.0;
    var delta := r.delta + (if scaled then width - width / a.scale else 0.0) + gap;
    var it' := it.(x := x, w := w, spacing := spacing,
                   scale := if scaled then Some(a.scale) else it.scale,
                   fix := if it.fix == 0 then a.start + 1 else it.fix);
    Run(r.stack[i := it'], delta, Some(MinOr(r.xMin, x)), Some(MaxOr(r.xMax, x + width)),
        if i == |r.stack| - 1 then Some(x + width) else r.cx)
  }

  /** The adjusting loop over `stack[a.start..i]`. */
  function AdjustRun(a: Adjust, r: Run, i: nat): (r': Run)
    requires a.start <= i <= |r.stack| && a.scale != 0.0
    ensures |r'.stack| == |r.stack|
    decreases i
  {
    if i == a.start then r
    else AdjustStep(a, i - 1, AdjustRun(a, r, i - 1))
  }

  /** `(length - fixed) / (max - min - fixed)`, when it is a finite non-zero number. */
  function ScaleOf(length: real, ms: Measure): (r: Option<real>)
    ensures r.Some? ==> r.value != 0.0
  {
    var den := ms.max.GetOr(0.0) - ms.min.GetOr(0.0) - ms.fixed;
    if den == 0.0 || length == ms.fixed then None else Some((length - ms.fixed) / den)
  }

  /** The gap, the last gap and the scale the measured run gives the adjusting loop. */
  function AdjustFor(stack: seq<Item>, start: nat, length: real, scaling: bool): (a: Adjust)
    requires start <= |stack|
    ensures a.start == start && a.end == |stack| && a.scaling == scaling && a.scale != 0.0
  {
    var ms := MeasureRun(stack, start, |stack|);
    var last0 := length - ms.max.GetOr(0.0) + ms.min.GetOr(0.0);
    var dx := if ms.items > 1 then last0 / ((ms.items - 1) as real) else 0.0;
    var last := if ms.items > 1 then 0.0 else last0;
    Adjust(start, |stack|, scaling, ScaleOf(length, ms).GetOr(1.0), dx, last)
  }

  /** `#correctLength` once the run is known to be non-empty. */
  function CorrectRun(l: Layout, start: nat, length: real, scaling: bool): Layout
    requires start < |l.stack|
  {
    var ms := MeasureRun(l.stack, start, |l.stack|);
    if ms.items == 0 || (scaling && ScaleOf(length, ms).None?) then l
    else
      var r := AdjustRun(AdjustFor(l.stack, start, length, scaling), Run(l.stack, 0.0, l.xMin, l.xMax, l.cx), |l.stack|);
      l.(stack := r.stack, xMin := r.xMin, xMax := r.xMax, cx := r.cx)
  }

  /**
   * `#correctLength`: the element's run starts where its tag opened; nothing
   * changes without a `textLength` or for an empty run.
   */
  function CorrectLength(l: Layout, textLength: Option<real>, scaling: bool): Layout {
    var l1 := l.(tagStart := Pop(l.tagStart));
    if l.tagStart == [] || textLength.None? then l1
    else
      var start := l.tagStart[|l.tagStart| - 1];
      if |l.stack| <= start then l1
      else CorrectRun(l1, start, textLength.value, scaling)
  }

  /* ---------- elements and the walk ---------- */

  /** `#removePosForUsedChars`. */
  function RemoveUsed(l: Layout): Layout {
    l.(pos := if l.chars > 0 then DropUsed(l.pos, l.chars) else l.pos, chars := 0)
  }

  /** `#layoutOpenElementNode`, given the element's parsed `x`, `y`, `dx` and `dy`. */
  function OpenElement(l: Layout, attrs: Props): Layout {
    var l1 := RemoveUsed(l);
    l1.(pos := Push(l1.pos, attrs), tagStart := l1.tagStart + [|l1.stack|])
  }

  /** `#layoutCloseElementNode` without the DOM replacement: correct, pop, and render at `</text>`. */
  function CloseElement(l: Layout, isText: bool, textLength: Option<real>, scaling: bool): Layout {
    var l1 := CorrectLength(l, textLength, scaling);
    var l2 := l1.(pos := PopAll(l1.pos));
    if isText then Render(l2) else l2
  }

  /**
   * The layout view of a node: a text node with its shaped groups (none when
   * the text map has no entry for it), an element with its parsed position
   * attributes and `textLength`/`lengthAdjust`, or anything else.
   */
  datatype LNode =
    | LText(id: nat, style: TextStyle, groups: Option<seq<ShapedGroup>>)
    | LElement(isText: bool, attrs: Props, textLength: Option<real>, scaling: bool, children: seq<LNode>)
    | LOther

  /** `#layoutChildNodes`. */
  function Walk(l: Layout, n: LNode): Layout
    decreases n, 1
  {
    match n
    case LText(id, style, groups) => if groups.Some? then LayoutText(l, id, style, groups.value) else l
    case LElement(isText, attrs, textLength, scaling, children) =>
      CloseElement(WalkChildren(OpenElement(l, attrs), n, |children|), isText, textLength, scaling)
    case LOther => l
  }

  /** The walk over the first `k` children of element `n`. */
  function WalkChildren(l: Layout, n: LNode, k: nat): Layout
    requires n.LElement? && k <= |n.children|
    decreases n, 0, k
  {
    if k == 0 then l else Walk(WalkChildren(l, n, k - 1), n.children[k - 1])
  }
}
