/**
 * The requested font style and the variant matcher of src/FontStyle.js.
 *
 * A variant (a font source descriptor) gives, per axis, a value or an
 * inclusive range; a style gives the requested axis values.  The matcher
 * runs sort-and-filter passes over width, then italic/slant, then weight,
 * after the font matching algorithm of CSS Fonts Module Level 4, section 5.2.
 * `Array.prototype.sort` is modelled as a stable insertion sort that moves
 * an element before its left neighbour while the comparator says the
 * neighbour is greater (returns a positive number).
 */
module FontStyle {
  import opened Wrappers

  /** The four axes with a default value (`axisDefault`, in key order). */
  datatype Axis = Wdth | Wght | Ital | Slnt {
    function Name(): string {
      match this
      case Wdth => "wdth"
      case Wght => "wght"
      case Ital => "ital"
      case Slnt => "slnt"
    }

    function Default(): real {
      match this
      case Wdth => 100.0
      case Wght => 400.0
      case Ital => 0.0
      case Slnt => 0.0
    }
  }

  const DefaultAxes: seq<Axis> := [Wdth, Wght, Ital, Slnt]

  /** A variant's axis: a single value or an inclusive range `[from, to]`. */
  datatype AxisValue = Point(v: real) | Range(from: real, to: real)

  /** A font source descriptor: its location and its axes (custom axes included). */
  datatype Variant = Variant(source: string, axes: map<string, AxisValue>)

  /** Requested axis values; an absent key is `undefined`. */
  type Axes = map<string, real>

  datatype Style = Style(families: seq<string>, axes: Axes, features: map<string, int>)

  /** `axes[name] ?? default`. */
  function AxisOr(axes: Axes, name: string, default: real): real {
    if name in axes then axes[name] else default
  }

  /** `normalizeVariantAxis`: the variant's range on `a`, the default when absent. */
  function NormalizeVariantAxis(v: Variant, a: Axis): (r: (real, real))
    ensures a.Name() !in v.axes ==> r == (a.Default(), a.Default())
    ensures a.Name() in v.axes && v.axes[a.Name()].Point? ==> r.0 == r.1 == v.axes[a.Name()].v
    ensures a.Name() in v.axes && v.axes[a.Name()].Range? ==>
      r == (v.axes[a.Name()].from, v.axes[a.Name()].to)
  {
    if a.Name() !in v.axes then (a.Default(), a.Default())
    else match v.axes[a.Name()]
      case Point(x) => (x, x)
      case Range(f, t) => (f, t)
  }

  /** The range on `a` contains `t`. */
  predicate InRange(v: Variant, a: Axis, t: real) {
    NormalizeVariantAxis(v, a).0 <= t <= NormalizeVariantAxis(v, a).1
  }

  /** Every default axis of `v` is a non-empty range (`from <= to`). */
  predicate WellFormed(v: Variant) {
    forall a: Axis :: NormalizeVariantAxis(v, a).0 <= NormalizeVariantAxis(v, a).1
  }

  /** `variantMatchAxis`: the target (the axis default when undefined) lies in the range. */
  function VariantMatchAxis(v: Variant, a: Axis, target: Option<real>): (b: bool)
    ensures b <==> InRange(v, a, target.GetOr(a.Default()))
  {
    var t := target.GetOr(a.Default());
    var (from, to) := NormalizeVariantAxis(v, a);
    from <= t && t <= to
  }

  function Requested(axes: Axes, a: Axis): Option<real> {
    if a.Name() in axes then Some(axes[a.Name()]) else None
  }

  /** `FontStyle.matchAxis`. */
  predicate MatchAxis(axes: Axes, v: Variant, a: Axis) {
    VariantMatchAxis(v, a, Requested(axes, a))
  }

  /** What `FontStyle.match` decides: every default axis matches (custom axes are not looked at). */
  predicate Matches(axes: Axes, v: Variant) {
    forall i :: 0 <= i < |DefaultAxes| ==> MatchAxis(axes, v, DefaultAxes[i])
  }

  /** `FontStyle.match`: a loop over the default axes that stops at the first mismatch. */
  method Match(style: Style, v: Variant) returns (b: bool)
    ensures b <==> forall a: Axis :: InRange(v, a, AxisOr(style.axes, a.Name(), a.Default()))
    ensures b == Matches(style.axes, v)
  {
    var i := 0;
    while i < |DefaultAxes|
      invariant 0 <= i <= |DefaultAxes|
      invariant forall j :: 0 <= j < i ==> MatchAxis(style.axes, v, DefaultAxes[j])
    {
      if !MatchAxis(style.axes, v, DefaultAxes[i]) {
        assert !InRange(v, DefaultAxes[i], AxisOr(style.axes, DefaultAxes[i].Name(), DefaultAxes[i].Default()));
        return false;
      }
      i := i + 1;
    }
    forall a: Axis ensures InRange(v, a, AxisOr(style.axes, a.Name(), a.Default())) {
      assert a == DefaultAxes[0] || a == DefaultAxes[1] || a == DefaultAxes[2] || a == DefaultAxes[3];
    }
    return true;
  }

  /** The `normalize` closure of `getBestVariant`: `target` clamped into the variant's range. */
  function Clamp(v: Variant, a: Axis, target: real): (c: real)
    ensures c == target <==> InRange(v, a, target)
    ensures NormalizeVariantAxis(v, a).0 <= NormalizeVariantAxis(v, a).1 ==> InRange(v, a, c)
  {
    var (from, to) := NormalizeVariantAxis(v, a);
    if target < from then from else if target > to then to else target
  }

  /** One sort-and-filter pass: the axis, the target, the `inv` flag and the optional threshold. */
  datatype Pass = Pass(axis: Axis, target: real, inv: bool, thr: Option<real>)

  /** The comparator given to `sort`; positive means `x` sorts after `y`. */
  function Cmp(p: Pass, x: Variant, y: Variant): real {
    var a := Clamp(x, p.axis, p.target);
    var b := Clamp(y, p.axis, p.target);
    var t := p.target;
    if p.inv then (if a > t || b > t then a - b else b - a)
    else if p.thr.Some? && t <= p.thr.value && (a > p.thr.value || b > p.thr.value) then a - b
    else if a < t || b < t then b - a
    else a - b
  }

  /** One insertion step: `x` enters at the back and moves left past every greater neighbour. */
  function Insert(p: Pass, t: seq<Variant>, x: Variant): seq<Variant>
    decreases |t|
  {
    if t == [] || Cmp(p, t[|t| - 1], x) <= 0.0 then t + [x]
    else Insert(p, t[..|t| - 1], x) + [t[|t| - 1]]
  }

  /** `variants.sort(comparator)` as an insertion sort. */
  function SortBy(p: Pass, s: seq<Variant>): seq<Variant>
    decreases |s|
  {
    if s == [] then [] else Insert(p, SortBy(p, s[..|s| - 1]), s[|s| - 1])
  }

  /** `variants.filter(v => variantMatchAxis(v, axis, t))`. */
  function Keep(s: seq<Variant>, a: Axis, t: real): (r: seq<Variant>)
    ensures |r| <= |s|
    ensures forall x :: x in r <==> x in s && InRange(x, a, t)
    ensures s != [] && InRange(s[0], a, t) ==> r != [] && r[0] == s[0]
  {
    if s == [] then []
    else if InRange(s[0], a, t) then [s[0]] + Keep(s[1..], a, t)
    else Keep(s[1..], a, t)
  }

  /**
   * `filterEq`: keep the variants whose range contains the first variant's
   * clamped target.  The source reads `variants[0]` unguarded and throws on
   * an empty list; the empty list gives the empty list here, and
   * `BestThrows` names the inputs of `getBestVariant` that reach that case.
   */
  function FilterEq(p: Pass, s: seq<Variant>): seq<Variant> {
    if s == [] then [] else Keep(s, p.axis, Clamp(s[0], p.axis, p.target))
  }

  function SortAndFilter(p: Pass, s: seq<Variant>): seq<Variant> {
    FilterEq(p, SortBy(p, s))
  }

  function WidthPass(axes: Axes): Pass {
    var w := AxisOr(axes, "wdth", 100.0);
    Pass(Wdth, w, w <= 100.0, None)
  }

  function WeightPass(axes: Axes): Pass {
    var w := AxisOr(axes, "wght", 400.0);
    Pass(Wght, w, w < 400.0, Some(500.0))
  }

  /** Some variant supports a positive italic value. */
  predicate AnyItalic(s: seq<Variant>) {
    exists i :: 0 <= i < |s| && Clamp(s[i], Ital, 1.0) > 0.0
  }

  /** Some variant can slant in the requested direction (the threshold is 11 degrees). */
  predicate AnySlantTowards(s: seq<Variant>, ital: real, slnt: real) {
    exists i :: 0 <= i < |s| &&
      var val := Clamp(s[i], Slnt, if ital <= 0.0 && slnt > 0.0 then 11.0 else -11.0);
      if slnt > 0.0 then val > 0.0 else val < 0.0
  }

  function Abs(x: real): real {
    if x < 0.0 then -x else x
  }

  /** Neither italic nor slant is requested: the source then runs a slant pass and an italic pass. */
  predicate UprightRequested(axes: Axes) {
    AxisOr(axes, "slnt", 0.0) == 0.0 && AxisOr(axes, "ital", 0.0) == 0.0
  }

  const UprightSlntPass := Pass(Slnt, 0.0, true, None)
  const UprightItalPass := Pass(Ital, 0.0, false, None)

  /** The single italic/slant pass run when italic or slant is requested. */
  function ObliquePass(axes: Axes, s: seq<Variant>): Pass {
    var ital := AxisOr(axes, "ital", 0.0);
    var slnt := AxisOr(axes, "slnt", 0.0);
    if ital > 0.0 && AnyItalic(s) then Pass(Ital, ital, false, None)
    else if AnySlantTowards(s, ital, slnt) then
      if ital > 0.0 then Pass(Slnt, -11.0, true, None)
      else Pass(Slnt, slnt, slnt <= -11.0 || (slnt >= 0.0 && slnt < 11.0), None)
    else if AnyItalic(s) then Pass(Ital, 1.0, Abs(slnt) < 11.0, None)
    else Pass(Slnt, 0.0, slnt > 0.0, None)
  }

  /** The italic/slant passes, chosen by what the style requests and what the variants offer. */
  function ItalSlntPasses(axes: Axes, s: seq<Variant>): seq<Variant> {
    if UprightRequested(axes) then
      SortAndFilter(UprightItalPass, SortAndFilter(UprightSlntPass, s))
    else SortAndFilter(ObliquePass(axes, s), s)
  }

  /**
   * The inputs on which `getBestVariant` throws: a pass before the last one
   * leaves no variant, and the next pass's `filterEq` reads `variants[0]`,
   * which is `undefined`, so `normalizeVariantAxis` fails on it.
   */
  predicate BestThrows(axes: Axes, s: seq<Variant>) {
    s != [] &&
    var w := SortAndFilter(WidthPass(axes), s);
    w == [] || (UprightRequested(axes) && SortAndFilter(UprightSlntPass, w) == []) || ItalSlntPasses(axes, w) == []
  }

  /** What `getBestVariant` returns: `null` for no variants, else the first survivor of all passes. */
  function BestVariant(axes: Axes, s: seq<Variant>): Option<Variant> {
    if s == [] then None
    else
      var r := SortAndFilter(WeightPass(axes), ItalSlntPasses(axes, SortAndFilter(WidthPass(axes), s)));
      if r == [] then None else Some(r[0])
  }

  /** One step of the in-place sort: `a[i]` moves left past every greater neighbour. */
  method InsertInPlace(a: array<Variant>, p: Pass, i: int)
    requires 0 <= i < a.Length
    modifies a
    ensures a[..i + 1] == Insert(p, old(a[..i]), old(a[i]))
    ensures a[i + 1..] == old(a[i + 1..])
  {
    ghost var t := a[..i];
    ghost var x := a[i];
    ghost var rest := a[i + 1..];
    assert t[..i] == t && t[i..] == [];
    assert a[..] == t[..i] + [x] + t[i..] + rest;
    var j := i;
    while j > 0 && Cmp(p, a[j - 1], a[j]) > 0.0
      invariant 0 <= j <= i
      invariant a[..] == t[..j] + [x] + t[j..] + rest
      invariant Insert(p, t, x) == Insert(p, t[..j], x) + t[j..]
    {
      SwapStep(a[..], t, j, x, rest);
      InsertMoves(p, t, j, x);
      a[j - 1], a[j] := a[j], a[j - 1];
      j := j - 1;
    }
    InsertStops(p, t, j, x);
    assert a[..i + 1] == t[..j] + [x] + t[j..];
  }

  /** Swapping `x` with its left neighbour moves it one place along `t`. */
  lemma SwapStep(u: seq<Variant>, t: seq<Variant>, j: int, x: Variant, rest: seq<Variant>)
    requires 0 < j <= |t|
    requires u == t[..j] + [x] + t[j..] + rest
    ensures u[j - 1] == t[j - 1] && u[j] == x
    ensures u[j - 1 := x][j := t[j - 1]] == t[..j - 1] + [x] + t[j - 1..] + rest
  {
  }

  /** While the left neighbour is greater, `x` passes it. */
  lemma InsertMoves(p: Pass, t: seq<Variant>, j: int, x: Variant)
    requires 0 < j <= |t|
    requires Cmp(p, t[j - 1], x) > 0.0
    ensures Insert(p, t[..j], x) + t[j..] == Insert(p, t[..j - 1], x) + t[j - 1..]
  {
    assert t[..j][..j - 1] == t[..j - 1];
    assert t[j - 1..] == [t[j - 1]] + t[j..];
  }

  /** Where the left neighbour is not greater (or there is none), `x` stays. */
  lemma InsertStops(p: Pass, t: seq<Variant>, j: int, x: Variant)
    requires 0 <= j <= |t|
    requires j > 0 ==> Cmp(p, t[j - 1], x) <= 0.0
    ensures Insert(p, t[..j], x) == t[..j] + [x]
  {
    if j > 0 {
      assert t[..j][j - 1] == t[j - 1];
    }
  }

  /** The in-place `sort` of one pass. */
  method SortInPlace(a: array<Variant>, p: Pass)
    modifies a
    ensures a[..] == SortBy(p, old(a[..]))
  {
    ghost var s := a[..];
    var i := 0;
    while i < a.Length
      invariant 0 <= i <= a.Length
      invariant a[..i] == SortBy(p, s[..i])
      invariant a[i..] == s[i..]
    {
      assert s[..i + 1][..i] == s[..i];
      assert a[i] == s[i];
      InsertInPlace(a, p, i);
      assert a[i + 1..] == s[i + 1..];
      i := i + 1;
    }
    assert s[..a.Length] == s;
  }

  /** One pass on a fresh copy (the arrays `filter` returns), as `sortAndFilter` does. */
  method SortAndFilterCopy(p: Pass, s: seq<Variant>) returns (r: seq<Variant>)
    ensures r == SortAndFilter(p, s)
  {
    var b := new Variant[|s|](i requires 0 <= i < |s| => s[i]);
    assert b[..] == s;
    SortInPlace(b, p);
    r := FilterEq(p, b[..]);
  }

  /**
   * `FontStyle.getBestVariant`: sorts the caller's array in place by the
   * width pass, then narrows by the italic/slant and weight passes.
   * `throws` is set where a pass before the last one leaves no variant, so
   * that the source's next `filterEq` throws; the array is sorted by then.
   */
  method GetBestVariant(style: Style, a: array<Variant>) returns (r: Option<Variant>, throws: bool)
    modifies a
    ensures r == BestVariant(style.axes, old(a[..]))
    ensures throws == BestThrows(style.axes, old(a[..]))
    ensures a.Length > 0 ==> a[..] == SortBy(WidthPass(style.axes), old(a[..]))
    ensures a.Length == 0 ==> r.None? && !throws
  {
    if a.Length == 0 {
      return None, false;
    }
    var axes := style.axes;
    SortInPlace(a, WidthPass(axes));
    var s := FilterEq(WidthPass(axes), a[..]);
    var emptied := s == [];
    if UprightRequested(axes) {
      s := SortAndFilterCopy(UprightSlntPass, s);
      emptied := emptied || s == [];
      s := SortAndFilterCopy(UprightItalPass, s);
    } else {
      s := SortAndFilterCopy(ObliquePass(axes, s), s);
    }
    throws := emptied || s == [];
    s := SortAndFilterCopy(WeightPass(axes), s);
    r := if s == [] then None else Some(s[0]);
  }

  /** `FontStyle.getKey`: the family and the four default axes, defaults filled in (a JSON string in the source). */
  datatype StyleKey = StyleKey(family: string, wdth: real, wght: real, ital: real, slnt: real)

  function GetKey(family: string, axes: Axes): StyleKey {
    StyleKey(family, AxisOr(axes, "wdth", 100.0), AxisOr(axes, "wght", 400.0),
             AxisOr(axes, "ital", 0.0), AxisOr(axes, "slnt", 0.0))
  }

  /** The axis defaults as a request. */
  const DefaultRequest: Axes := map["wdth" := 100.0, "wght" := 400.0, "ital" := 0.0, "slnt" := 0.0]
}
