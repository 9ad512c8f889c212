/**
 * `Session.getFontStyleForNode` and `Session.#parseStyle`: the computed CSS
 * properties of a node, given as strings (`None` where the lookup yields
 * nothing), are turned into a font request (`Style`) and a layout style.
 */
module SessionStyle {
  import opened Wrappers
  import opened Strings
  import opened Numbers
  import opened FontStyle

  /** The computed properties `getStyleProp` returns for one node. */
  datatype CssProps = CssProps(
    fontFamily: Option<string>,
    fontWeight: Option<string>,
    fontStyle: Option<string>,
    fontStretch: Option<string>,
    fontVariationSettings: Option<string>,
    fontKerning: Option<string>,
    fontFeatureSettings: Option<string>,
    fontSize: Option<string>,
    letterSpacing: Option<string>,
    textAnchor: Option<string>,
    dominantBaseline: Option<string>,
    alignmentBaseline: Option<string>)

  /** JavaScript truthiness of an optional string: present and non-empty. */
  predicate Truthy(v: Option<string>) {
    v.Some? && v.value != []
  }

  // ---------------------------------------------------------------- families

  /** One entry of `font-family`: trimmed, then one leading and one trailing quote removed. */
  function FamilyName(part: string): string {
    StripQuotes(Trim(part))
  }

  /** `font-family` split on commas, each entry cleaned; an absent value reads as `''`. */
  function Families(val: Option<string>): (r: seq<string>)
    ensures var parts := Split(val.GetOr(""), ',');
      |r| == |parts| && forall i :: 0 <= i < |r| ==> r[i] == FamilyName(parts[i])
  {
    var parts := Split(val.GetOr(""), ',');
    seq(|parts|, i requires 0 <= i < |parts| => FamilyName(parts[i]))
  }

  /** A name that survives cleaning: no comma, no surrounding space, no surrounding quote. */
  predicate PlainName(n: string) {
    ',' !in n && (n != [] ==> !IsSpace(n[0]) && !IsSpace(n[|n| - 1]) && !IsQuote(n[0]) && !IsQuote(n[|n| - 1]))
  }

  /** Quoting every name and joining with commas gives the names back. */
  lemma FamiliesRoundTrip(names: seq<string>, quote: char)
    requires |names| >= 1 && IsQuote(quote)
    requires forall i :: 0 <= i < |names| ==> PlainName(names[i])
    ensures Families(Some(Join(Quoted(names, quote), ','))) == names
  {
    var q := Quoted(names, quote);
    forall i | 0 <= i < |q| ensures ',' !in q[i] {
      assert q[i] == [quote] + names[i] + [quote];
    }
    JoinSplit(q, ',');
    forall i | 0 <= i < |names| ensures FamilyName(q[i]) == names[i] {
      QuotedName(names[i], quote);
    }
  }

  /** A plain name in quotes cleans back to the name. */
  lemma QuotedName(name: string, quote: char)
    requires PlainName(name) && IsQuote(quote)
    ensures FamilyName([quote] + name + [quote]) == name
  {
    var s := [quote] + name + [quote];
    assert !IsSpace(s[0]) && !IsSpace(s[|s| - 1]);
    assert LeadingSpaces(s) == 0;
    assert s[0..] == s;
    assert TrailingSpaces(s) == 0;
    StripQuotesWrapped(name, quote, quote);
  }

  function Quoted(names: seq<string>, quote: char): (r: seq<string>)
    ensures |r| == |names| && forall i :: 0 <= i < |r| ==> r[i] == [quote] + names[i] + [quote]
  {
    seq(|names|, i requires 0 <= i < |names| => [quote] + names[i] + [quote])
  }

  // ---------------------------------------------------------------- axes

  /** `wghtMap[val] || parseInt(val) || 400`. */
  function Weight(val: Option<string>): real {
    if val == Some("normal") then 400.0
    else if val == Some("bold") then 700.0
    else
      var n := ParseInt(val.GetOr(""));
      if n.Truthy() then n.r else 400.0
  }

  /** A numeric weight other than 0 is taken as it is written. */
  lemma WeightOfNumber(n: int)
    requires n != 0
    ensures Weight(Some(IntToString(n))) == n as real
  {
    ParseIntRoundTrip(n);
    assert IntToString(n) != "normal" && IntToString(n) != "bold" by {
      assert IsDigit(IntToString(n)[|IntToString(n)| - 1]);
    }
  }

  /** A weight is never 0: keywords, a non-zero integer, or the default 400. */
  lemma WeightNonZero(val: Option<string>)
    ensures Weight(val) != 0.0
    ensures val == Some("normal") || val == Some("bold") || !ParseInt(val.GetOr("")).Truthy() ==>
      Weight(val) in {400.0, 700.0}
  {
  }

  /** `italMap[val] || 0`. */
  function Ital(val: Option<string>): real {
    if val == Some("italic") then 1.0 else 0.0
  }

  predicate IsOblique(val: Option<string>) {
    val.Some? && |val.value| >= 7 && val.value[..7] == "oblique"
  }

  /** `val.slice(8) ? -parseFloat(val.slice(8)) || 0 : -14` for an `oblique` value. */
  function Slant(v: string): real {
    var rest := if |v| > 8 then v[8..] else "";
    if rest == [] then -14.0
    else
      var f := ParseFloat(rest);
      if f.Truthy() then -f.r else 0.0
  }

  /** `oblique <n>deg` leans by `-n`. */
  lemma SlantOfAngle(n: nat)
    ensures Slant("oblique " + NatToString(n) + "deg") == -(n as real)
  {
    var d := NatToString(n);
    var v := "oblique " + d + "deg";
    assert v[8..] == d + "deg";
    ParseFloatNat(n, "deg");
    SlantOf(v, n as real);
  }

  /** `Slant` on a value whose number after `oblique ` parses to `x`. */
  lemma SlantOf(v: string, x: real)
    requires |v| > 8 && ParseFloat(v[8..]) == Num(x)
    ensures Slant(v) == if x != 0.0 then -x else 0.0
  {
  }

  /** `oblique` alone leans by the default `-14`. */
  lemma SlantDefault()
    ensures Slant("oblique") == -14.0
  {
    assert |"oblique"| == 7;
  }

  /** The `font-stretch` keywords. */
  function WdthKeyword(val: string): Option<real> {
    match val
    case "ultra-condensed" => Some(50.0)
    case "extra-condensed" => Some(62.5)
    case "condensed" => Some(75.0)
    case "semi-condensed" => Some(87.5)
    case "normal" => Some(100.0)
    case "semi-expanded" => Some(112.5)
    case "expanded" => Some(125.0)
    case "extra-expanded" => Some(150.0)
    case "ultra-expanded" => Some(200.0)
    case _ => None
  }

  /** Whether `wdth` is set: any value but `normal` and `100%`. */
  predicate SetsWidth(val: Option<string>) {
    Truthy(val) && val.value != "normal" && val.value != "100%"
  }

  /** `wdthMap[val] || parseInt(val) || 100`. */
  function Width(v: string): real {
    match WdthKeyword(v)
    case Some(w) => w
    case None =>
      var n := ParseInt(v);
      if n.Truthy() then n.r else 100.0
  }

  /** `condensed` is 75 and `semi-expanded` 112.5. */
  lemma WidthKeywords()
    ensures Width("condensed") == 75.0
    ensures Width("semi-expanded") == 112.5
  {
    assert WdthKeyword("condensed") == Some(75.0);
    assert WdthKeyword("semi-expanded") == Some(112.5);
  }

  /** A percentage is read by its integer part. */
  lemma WidthPercent(n: nat)
    requires n != 0
    ensures Width(NatToString(n) + "%") == n as real
  {
    var d := NatToString(n);
    var v := d + "%";
    assert IsDigit(v[0]);
    assert WdthKeyword(v) == None by {
      assert IsDigit(v[0]);
    }
    DigitRunPrefix(d, "%");
    NatToStringValue(n);
    assert LeadingSpaces(v) == 0;
    assert v[LeadingSpaces(v)..] == v;
    assert v[0] != '-' && v[0] != '+';
    assert v[0] == d[0] && d[0] != '0';
    assert v[..DigitRun(v)] == d;
  }

  // ---------------------------------------------------------------- quoted tags

  /** `["']([a-zA-Z]{4})["']` at index `i`. */
  predicate QuotedTagAt(s: string, i: nat) {
    i + 6 <= |s| && IsQuote(s[i]) && IsQuote(s[i + 5]) &&
    IsLetter(s[i + 1]) && IsLetter(s[i + 2]) && IsLetter(s[i + 3]) && IsLetter(s[i + 4])
  }

  /**
   * `/["']([a-zA-Z]{4})["']\s+(-?[\d.]+)/` tried at index `i`: the tag and
   * the number text.  The minus sign is taken only when a digit or dot follows.
   */
  function VariationAt(s: string, i: nat): (r: Option<(string, string)>)
    ensures r.Some? ==> QuotedTagAt(s, i) && r.value.0 == s[i + 1..i + 5]
  {
    if !QuotedTagAt(s, i) then None
    else
      var j := i + 6;
      var w := LeadingSpaces(s[j..]);
      if w == 0 then None
      else
        var k := j + w;
        var neg := k + 1 < |s| && s[k] == '-' && IsDigitOrDot(s[k + 1]);
        var start := if neg then k + 1 else k;
        var n := DigitDotRun(s[start..]);
        if n == 0 then None
        else Some((s[i + 1..i + 5], (if neg then "-" else "") + s[start..start + n]))
  }

  /** The leftmost match of the variation pattern at or after `i`. */
  function FindVariation(s: string, i: nat): (r: Option<(string, string)>)
    ensures r.Some? ==> exists k :: i <= k < |s| && VariationAt(s, k) == r
    ensures r.None? ==> forall k :: i <= k < |s| ==> VariationAt(s, k).None?
    decreases |s| - i
  {
    if i >= |s| then None
    else match VariationAt(s, i)
      case Some(m) => Some(m)
      case None => FindVariation(s, i + 1)
  }

  /**
   * `font-variation-settings`: each comma-separated item that matches sets
   * its axis to `parseFloat` of the number; later items win.  An item whose
   * number has no digit (`NaN` in the source) is dropped.
   */
  function ApplyVariations(axes: Axes, items: seq<string>): (r: Axes)
    ensures forall a :: a in axes ==> a in r
    decreases |items|
  {
    if items == [] then axes
    else ApplyVariations(ApplyVariation(axes, items[0]), items[1..])
  }

  /** One item of `font-variation-settings`: a match with a number sets its axis. */
  function ApplyVariation(axes: Axes, item: string): (r: Axes)
    ensures forall a :: a in axes ==> a in r
  {
    match FindVariation(item, 0)
    case Some((tag, num)) =>
      (match ParseFloat(num)
       case Num(v) => axes[tag := v]
       case NaN => axes)
    case None => axes
  }

  /** `(?:\s+(on|off|\d+))?` after a tag ending at `j`: the captured value, if any. */
  function FeatureValueAt(s: string, j: nat): Option<string>
    requires j <= |s|
  {
    var w := LeadingSpaces(s[j..]);
    if w == 0 then None
    else
      var rest := s[j + w..];
      if StartsWith(rest, "on") then Some("on")
      else if StartsWith(rest, "off") then Some("off")
      else
        var d := DigitRun(rest);
        if d == 0 then None else Some(rest[..d])
  }

  /** The leftmost `["']([a-zA-Z]{4})["']` at or after `i`, with its optional value. */
  function FindFeature(s: string, i: nat): (r: Option<(string, Option<string>)>)
    ensures r.Some? ==> exists k :: i <= k < |s| && QuotedTagAt(s, k) && r.value.0 == s[k + 1..k + 5]
    ensures r.None? ==> forall k :: i <= k < |s| ==> !QuotedTagAt(s, k)
    decreases |s| - i
  {
    if i >= |s| then None
    else if QuotedTagAt(s, i) then Some((s[i + 1..i + 5], FeatureValueAt(s, i + 6)))
    else FindFeature(s, i + 1)
  }

  /** `['off', 'on'].indexOf(v ?? 'on')`, or `parseInt(v)` for digits. */
  function FeatureValue(v: Option<string>): int {
    match v
    case None => 1
    case Some("on") => 1
    case Some("off") => 0
    case Some(d) =>
      if forall i :: 0 <= i < |d| ==> IsDigit(d[i]) then DecValue(d) else 0
  }

  /** `font-feature-settings`: each matching item sets its feature; later items win. */
  function ApplyFeatures(features: map<string, int>, items: seq<string>): (r: map<string, int>)
    ensures forall f :: f in features ==> f in r
    decreases |items|
  {
    if items == [] then features
    else
      var features' := match FindFeature(items[0], 0)
        case Some((tag, v)) => features[tag := FeatureValue(v)]
        case None => features;
      ApplyFeatures(features', items[1..])
  }

  // ---------------------------------------------------------------- the request

  /** The axes set before `font-variation-settings` is read. */
  function BaseAxes(p: CssProps): (axes: Axes)
    ensures "wght" in axes && "ital" in axes
  {
    var a0 := map["wght" := Weight(p.fontWeight), "ital" := Ital(p.fontStyle)];
    var a1 := if IsOblique(p.fontStyle) then a0["slnt" := Slant(p.fontStyle.value)] else a0;
    if SetsWidth(p.fontStretch) then a1["wdth" := Width(p.fontStretch.value)] else a1
  }

  /** `getFontStyleForNode`. */
  function FontStyleForNode(p: CssProps): (s: Style)
    ensures "wght" in s.axes && "ital" in s.axes
    ensures |s.families| >= 1
  {
    var axes := BaseAxes(p);
    var axes' := if Truthy(p.fontVariationSettings) && p.fontVariationSettings.value != "normal"
      then ApplyVariations(axes, Split(p.fontVariationSettings.value, ','))
      else axes;
    var f0: map<string, int> := if p.fontKerning == Some("none") then map["kern" := 0] else map[];
    var f1 := if Truthy(p.fontFeatureSettings) && p.fontFeatureSettings.value != "normal"
      then ApplyFeatures(f0, Split(p.fontFeatureSettings.value, ','))
      else f0;
    Style(Families(p.fontFamily), axes', f1)
  }

  /** No variation settings: the request holds the keyword-derived axes and nothing else. */
  lemma RequestedAxes(p: CssProps)
    requires !Truthy(p.fontVariationSettings)
    ensures var a := FontStyleForNode(p).axes;
      a["wght"] == Weight(p.fontWeight) && a["ital"] == Ital(p.fontStyle) &&
      ("slnt" in a <==> IsOblique(p.fontStyle)) &&
      (IsOblique(p.fontStyle) ==> a["slnt"] == Slant(p.fontStyle.value)) &&
      ("wdth" in a <==> SetsWidth(p.fontStretch)) &&
      (SetsWidth(p.fontStretch) ==> a["wdth"] == Width(p.fontStretch.value)) &&
      a.Keys <= {"wght", "ital", "slnt", "wdth"}
  {
  }

  /** With no properties at all: one empty family, weight 400, upright, no features. */
  lemma EmptyRequest()
    ensures FontStyleForNode(CssProps(None, None, None, None, None, None, None, None, None, None, None, None)) ==
      Style([""], map["wght" := 400.0, "ital" := 0.0], map[])
  {
    assert Split("", ',') == [""];
    assert ParseInt("") == NaN;
  }

  /** `'wght' 650` overrides the weight keyword. */
  lemma VariationOverridesWeight(axes: Axes)
    ensures ApplyVariations(axes, ["'wght' 650"]) == axes["wght" := 650.0]
  {
    WghtVariationMatches();
    ParseFloat650();
    ApplyOne(axes, "'wght' 650", "wght", "650", 650.0);
  }

  lemma WghtVariationMatches()
    ensures FindVariation("'wght' 650", 0) == Some(("wght", "650"))
  {
    var s := "'wght' 650";
    assert VariationAt(s, 0) == Some(("wght", "650")) by {
      assert QuotedTagAt(s, 0);
      assert LeadingSpaces(s[6..]) == 1 by {
        assert s[6..] == " 650";
        assert LeadingSpaces(s[6..][1..]) == 0;
      }
      assert s[7..] == "650";
      assert DigitDotRun(s[7..]) == 3 by {
        assert s[7..][1..] == "50";
        assert s[7..][1..][1..] == "0";
        assert s[7..][1..][1..][1..] == [];
      }
      assert s[1..5] == "wght";
      assert s[7..10] == "650";
      assert s[7] == '6' && IsDigitOrDot(s[7]);
      assert "" + s[7..10] == "650";
    }
  }

  lemma ParseFloat650()
    ensures ParseFloat("650") == Num(650.0)
  {
    assert NatToString(6) == ['6'];
    assert NatToString(65) == ['6', '5'];
    assert NatToString(650) == ['6', '5', '0'];
    ParseFloatNat(650, []);
    assert NatToString(650) + [] == "650";
  }

  /** One matching item with a number sets its axis. */
  lemma ApplyOne(axes: Axes, item: string, tag: string, num: string, v: real)
    requires FindVariation(item, 0) == Some((tag, num)) && ParseFloat(num) == Num(v)
    ensures ApplyVariations(axes, [item]) == axes[tag := v]
  {
    ApplySingle(axes, item);
  }

  lemma ApplySingle(axes: Axes, item: string)
    ensures ApplyVariations(axes, [item]) == ApplyVariation(axes, item)
  {
    assert [item][1..] == [];
  }

  /** `"liga" off` switches a feature off, a bare `"smcp"` switches one on. */
  lemma FeatureExamples()
    ensures ApplyFeatures(map[], ["\"liga\" off", "\"smcp\""]) == map["liga" := 0, "smcp" := 1]
  {
    var s := "\"liga\" off";
    assert QuotedTagAt(s, 0);
    assert s[1..5] == "liga";
    assert LeadingSpaces(s[6..]) == 1 by {
      assert s[6..] == " off";
      assert LeadingSpaces(s[6..][1..]) == 0;
    }
    assert s[7..] == "off";
    assert "off"[..2] != "on" by {
      assert "off"[..2][1] == 'f';
    }
    assert !StartsWith("off", "on") && StartsWith("off", "off");
    assert FeatureValueAt(s, 6) == Some("off");
    var t := "\"smcp\"";
    assert QuotedTagAt(t, 0);
    assert t[1..5] == "smcp";
    assert t[6..] == [];
    assert FeatureValueAt(t, 6) == None;
    assert ["\"liga\" off", "\"smcp\""][1..] == ["\"smcp\""];
  }

  // ---------------------------------------------------------------- layout style

  /** `SessionTextStyle`: font size, letter spacing and the two alignments (`undefined` as `None`). */
  datatype TextStyle = TextStyle(size: real, spacing: real, alignX: Option<string>, alignY: Option<string>)

  /** `parseFloat(v) || 0`. */
  function NumberOr0(v: Option<string>): real {
    var f := ParseFloat(v.GetOr(""));
    if f.Truthy() then f.r else 0.0
  }

  /** `#parseStyle`: `alignment-baseline` stands in for an `auto` `dominant-baseline`. */
  function ParseStyle(p: CssProps): TextStyle {
    var alignY := if p.alignmentBaseline != Some("auto") && p.dominantBaseline == Some("auto")
      then p.alignmentBaseline else p.dominantBaseline;
    TextStyle(NumberOr0(p.fontSize), NumberOr0(p.letterSpacing), p.textAnchor, alignY)
  }

  /** The vertical alignment differs from `dominant-baseline` exactly when that is `auto` and `alignment-baseline` is not. */
  lemma ParseStyleBaseline(p: CssProps)
    ensures ParseStyle(p).alignY != p.dominantBaseline <==>
      p.dominantBaseline == Some("auto") && p.alignmentBaseline != Some("auto")
    ensures ParseStyle(p).alignY != p.dominantBaseline ==> ParseStyle(p).alignY == p.alignmentBaseline
  {
  }

  /** A font size of `12px` reads as 12; a missing one as 0. */
  lemma ParseStyleSize(p: CssProps, n: nat)
    requires p.fontSize == Some(NatToString(n) + "px")
    ensures ParseStyle(p).size == n as real
  {
    ParseFloatNat(n, "px");
  }
}
