/**
 * SVG length attributes and CSS font sizes (src/shims/node.js).
 *
 * `parseSvgLength` reads a list attribute such as `x="10 2em 5%"`: the value is
 * trimmed, split on runs of whitespace and commas, and every token must be a
 * number followed by a known unit; one bad token empties the whole result.
 * `normalizeFontSize` reads one font-size value into an absolute size, a size
 * relative to the parent (or root) font size, or nothing.
 *
 * The owner SVG element's `viewBox` attribute and the node's computed font
 * size are inputs: the DOM lookups that produce them are not part of this model.
 */
module SvgLength {
  import opened Wrappers
  import opened Strings
  import opened Numbers

  /** Characters the source's separator class `[\s,]` matches. */
  predicate IsSep(c: char) {
    IsSpace(c) || c == ','
  }

  predicate NoSep(s: string) {
    forall k :: 0 <= k < |s| ==> !IsSep(s[k])
  }

  /** Index of the first separator, if any. */
  function FirstSep(s: string): (r: Option<nat>)
    ensures r.Some? ==> r.value < |s| && IsSep(s[r.value]) && NoSep(s[..r.value])
    ensures r.None? ==> NoSep(s)
  {
    if s == [] then None
    else if IsSep(s[0]) then Some(0)
    else match FirstSep(s[1..])
      case None => None
      case Some(i) =>
        assert s[..i + 1] == [s[0]] + s[1..][..i];
        Some(i + 1)
  }

  /** Length of the separator run at the start of `s`. */
  function SepRun(s: string): (n: nat)
    ensures n <= |s|
    ensures forall k :: 0 <= k < n ==> IsSep(s[k])
    ensures n < |s| ==> !IsSep(s[n])
  {
    if s == [] || !IsSep(s[0]) then 0 else 1 + SepRun(s[1..])
  }

  /** `s.split(/[\s,]+/)`: the pieces between maximal runs of separators. */
  function Tokens(s: string): (ts: seq<string>)
    ensures |ts| >= 1
    ensures forall i :: 0 <= i < |ts| ==> NoSep(ts[i])
    decreases |s|
  {
    match FirstSep(s)
    case None => [s]
    case Some(i) =>
      var j := i + SepRun(s[i..]);
      [s[..i]] + Tokens(s[j..])
  }

  function Concat(ts: seq<string>): string {
    if ts == [] then [] else Concat(ts[..|ts| - 1]) + ts[|ts| - 1]
  }

  /** `s` with every separator removed. */
  function Squeeze(s: string): (r: string)
    ensures NoSep(r)
  {
    if s == [] then []
    else if IsSep(s[0]) then Squeeze(s[1..])
    else [s[0]] + Squeeze(s[1..])
  }

  lemma {:induction false} ConcatCons(t: string, ts: seq<string>)
    ensures Concat([t] + ts) == t + Concat(ts)
    decreases |ts|
  {
    if ts != [] {
      assert ([t] + ts)[..|ts|] == [t] + ts[..|ts| - 1];
      ConcatCons(t, ts[..|ts| - 1]);
    }
  }

  lemma {:induction false} SqueezeNoSep(s: string)
    requires NoSep(s)
    ensures Squeeze(s) == s
    decreases |s|
  {
    if s != [] {
      SqueezeNoSep(s[1..]);
    }
  }

  /** The tokens hold every non-separator character of `s`, in order, and nothing else. */
  lemma {:induction false} TokensKeepText(s: string)
    ensures Concat(Tokens(s)) == Squeeze(s)
    decreases |s|
  {
    match FirstSep(s)
    case None =>
      SqueezeNoSep(s);
      assert Concat([s]) == Concat([]) + s;
    case Some(i) =>
      var j := i + SepRun(s[i..]);
      assert Tokens(s) == [s[..i]] + Tokens(s[j..]);
      TokensKeepText(s[j..]);
      ConcatCons(s[..i], Tokens(s[j..]));
      SqueezeAtSep(s, i, j);
  }

  /** Squeezing a string that has a run of separators at `i..j` keeps the text before and after it. */
  lemma {:induction false} SqueezeAtSep(s: string, i: nat, j: nat)
    requires i <= j <= |s|
    requires NoSep(s[..i])
    requires forall k :: i <= k < j ==> IsSep(s[k])
    ensures Squeeze(s) == s[..i] + Squeeze(s[j..])
    decreases |s|
  {
    if i > 0 {
      assert !IsSep(s[0]) by { assert s[..i][0] == s[0]; }
      var t := s[1..];
      assert t[..i - 1] == s[1..i];
      var u, h := t[..i - 1], s[..i];
      forall k | 0 <= k < |u|
        ensures !IsSep(u[k])
      {
        assert u[k] == h[k + 1];
      }
      assert forall k :: i - 1 <= k < j - 1 ==> t[k] == s[k + 1];
      SqueezeAtSep(t, i - 1, j - 1);
      assert t[j - 1..] == s[j..];
      assert s[..i] == [s[0]] + s[1..i];
      AppendAssoc([s[0]], s[1..i], Squeeze(s[j..]));
    } else if j > 0 {
      var t := s[1..];
      assert forall k :: 0 <= k < j - 1 ==> t[k] == s[k + 1];
      SqueezeAtSep(t, 0, j - 1);
      assert t[j - 1..] == s[j..];
    } else {
      assert s[j..] == s;
    }
  }

  lemma AppendAssoc(a: string, b: string, c: string)
    ensures a + (b + c) == (a + b) + c
  {
  }

  /** Characters of the number pattern `[\d.-]`. */
  predicate IsNumChar(c: char) {
    IsDigit(c) || c == '.' || c == '-'
  }

  function NumRun(s: string): (n: nat)
    ensures n <= |s|
    ensures forall k :: 0 <= k < n ==> IsNumChar(s[k])
    ensures n < |s| ==> !IsNumChar(s[n])
  {
    if s == [] || !IsNumChar(s[0]) then 0 else 1 + NumRun(s[1..])
  }

  /**
   * `s.trim().match(/^([\d.-]+)(.*)$/)` followed by `parseFloat` of the first
   * group: the number and the unit, or `None` when `s` does not start with a
   * number character.
   */
  function Lexeme(s: string): Option<(JsNum, string)> {
    var t := Trim(s);
    var n := NumRun(t);
    if n == 0 then None else Some((ParseFloat(t[..n]), t[n..]))
  }

  /** What a unit does to a length. */
  datatype Unit =
    | Absolute(factor: real)   // a fixed number of pixels per unit
    | Percent                  // a percentage of the viewBox width or height
    | FontRelative(factor: real)  // a multiple of the font size
    | Unknown

  /** The unit table: CSS pixels at 96 per inch, `ex` taken as half an `em`. */
  function UnitOf(dim: string): (u: Unit)
    ensures u.Absolute? ==> u.factor > 0.0
    ensures u.FontRelative? ==> u.factor > 0.0
  {
    match dim
    case "" => Absolute(1.0)
    case "px" => Absolute(1.0)
    case "%" => Percent
    case "em" => FontRelative(1.0)
    case "ex" => FontRelative(0.5)
    case "in" => Absolute(96.0)
    case "mm" => Absolute(96.0 / 25.4)
    case "cm" => Absolute(96.0 / 2.54)
    case "pt" => Absolute(4.0 / 3.0)
    case "pc" => Absolute(16.0)
    case _ => Unknown
  }

  /** `viewBox.split(' ').map(parseFloat)`. */
  function ViewBoxNumbers(viewBox: string): seq<JsNum> {
    var parts := Split(viewBox, ' ');
    seq(|parts|, k requires 0 <= k < |parts| => ParseFloat(parts[k]))
  }

  /** The viewBox entry a percentage refers to: the height (index 3) for `y` and `dy`, else the width (index 2). */
  function PercentIndex(prop: string): (k: nat)
    ensures k == 3 <==> prop == "y" || prop == "dy"
    ensures k == 2 <==> !(prop == "y" || prop == "dy")
  {
    if prop == "y" || prop == "dy" then 3 else 2
  }

  /** `viewBox[k] || 0`: a missing, zero or unparsable entry counts as 0. */
  function ViewBoxEntry(vb: seq<JsNum>, k: nat): (r: real)
    ensures k < |vb| && vb[k].Num? ==> r == vb[k].r
    ensures k >= |vb| || vb[k].NaN? ==> r == 0.0
  {
    if k < |vb| then vb[k].OrZero() else 0.0
  }

  /** One token's outcome: a value, a rejection (`return []`) or a thrown `TypeError`. */
  datatype TokenOut = Value(v: JsNum) | Bad | Throws

  /**
   * One token of a length list. A percentage needs the owner SVG's viewBox;
   * without one, reading it throws (`null.split`).
   */
  function TokenValue(tok: string, prop: string, viewBox: Option<string>, fontSize: JsNum): TokenOut {
    match Lexeme(tok)
    case None => Bad
    case Some((val, dim)) => TokenOf(val, dim, prop, viewBox, fontSize)
  }

  /** A number with its unit, converted to pixels. */
  function TokenOf(val: JsNum, dim: string, prop: string, viewBox: Option<string>, fontSize: JsNum): TokenOut {
    TokenByUnit(UnitOf(dim), val, prop, viewBox, fontSize)
  }

  /** The conversion of a matched number by its unit. */
  function TokenByUnit(unit: Unit, val: JsNum, prop: string, viewBox: Option<string>, fontSize: JsNum): TokenOut {
    match unit
    case Absolute(f) => Value(val.Times(f))
    case Percent =>
      if viewBox.None? then Throws
      else Value(PercentOf(val, ViewBoxNumbers(viewBox.value), prop))
    case FontRelative(f) => Value(val.Mul(fontSize).Times(f))
    case Unknown => Bad
  }

  /** A percentage of the viewBox width or height. */
  function PercentOf(val: JsNum, vb: seq<JsNum>, prop: string): JsNum {
    val.Times(ViewBoxEntry(vb, PercentIndex(prop)) / 100.0)
  }

  datatype Scan = Values(vs: seq<JsNum>) | Rejected | Thrown

  /** The outcome of every token, in order. */
  function TokenOuts(ts: seq<string>, prop: string, viewBox: Option<string>, fontSize: JsNum): (outs: seq<TokenOut>)
    ensures |outs| == |ts|
  {
    if ts == [] then [] else [TokenValue(ts[0], prop, viewBox, fontSize)] + TokenOuts(ts[1..], prop, viewBox, fontSize)
  }

  lemma {:induction false} TokenOutsAt(ts: seq<string>, prop: string, viewBox: Option<string>, fontSize: JsNum)
    ensures forall i :: 0 <= i < |ts| ==> TokenOuts(ts, prop, viewBox, fontSize)[i] == TokenValue(ts[i], prop, viewBox, fontSize)
    decreases |ts|
  {
    if ts != [] {
      TokenOutsAt(ts[1..], prop, viewBox, fontSize);
      assert forall i :: 1 <= i < |ts| ==> ts[1..][i - 1] == ts[i];
    }
  }

  /** The token loop: values in order until the first token that is not a value decides. */
  function ScanTokens(outs: seq<TokenOut>): Scan {
    if outs == [] then Values([])
    else match outs[0]
      case Bad => Rejected
      case Throws => Thrown
      case Value(v) =>
        match ScanTokens(outs[1..])
        case Values(vs) => Values([v] + vs)
        case other => other
  }

  /** Result of `parseSvgLength`: the numbers, or the `TypeError` it throws. */
  datatype Lengths = Ok(values: seq<JsNum>) | TypeError

  /** `parseSvgLength(node, prop)` with the attribute's value (`None` when absent) as input. */
  function SvgLengths(attr: Option<string>, prop: string, viewBox: Option<string>, fontSize: JsNum): (r: Lengths)
    ensures attr.None? ==> r == Ok([])
  {
    match attr
    case None => Ok([])
    case Some(s) =>
      match ScanTokens(TokenOuts(Tokens(Trim(s)), prop, viewBox, fontSize))
      case Values(vs) => Ok(vs)
      case Rejected => Ok([])
      case Thrown => TypeError
  }

  /** `Values` exactly when every token is a value, and then it carries those values in order. */
  lemma {:induction false} ScanValues(outs: seq<TokenOut>)
    ensures ScanTokens(outs).Values? <==> forall i :: 0 <= i < |outs| ==> outs[i].Value?
    ensures ScanTokens(outs).Values? ==>
      |ScanTokens(outs).vs| == |outs| &&
      forall i :: 0 <= i < |outs| ==> outs[i] == Value(ScanTokens(outs).vs[i])
    decreases |outs|
  {
    if outs != [] {
      ScanValues(outs[1..]);
      if ScanTokens(outs).Values? {
        assert forall i :: 1 <= i < |outs| ==> outs[i] == outs[1..][i - 1];
      } else if outs[0].Value? {
        var i :| 0 <= i < |outs[1..]| && !outs[1..][i].Value?;
        assert outs[1..][i] == outs[i + 1];
      }
    }
  }

  /** The first token that is not a value decides between `[]` and a thrown error. */
  lemma {:induction false} ScanFirstFailure(outs: seq<TokenOut>, j: nat)
    requires j < |outs|
    requires forall i :: 0 <= i < j ==> outs[i].Value?
    ensures outs[j] == Bad ==> ScanTokens(outs) == Rejected
    ensures outs[j] == Throws ==> ScanTokens(outs) == Thrown
    decreases j
  {
    if j > 0 {
      assert outs[1..][j - 1] == outs[j];
      assert forall i :: 0 <= i < j - 1 ==> outs[1..][i] == outs[i + 1];
      ScanFirstFailure(outs[1..], j - 1);
    }
  }

  /**
   * A parsed list has one number per token, in order; a bad token before any
   * throwing one empties the whole list.
   */
  lemma SvgLengthTokens(s: string, prop: string, viewBox: Option<string>, fontSize: JsNum)
    ensures var ts := Tokens(Trim(s));
      (forall i :: 0 <= i < |ts| ==> TokenValue(ts[i], prop, viewBox, fontSize).Value?) ==>
        var r := SvgLengths(Some(s), prop, viewBox, fontSize);
        r.Ok? && |r.values| == |ts| &&
        forall i :: 0 <= i < |ts| ==> TokenValue(ts[i], prop, viewBox, fontSize) == Value(r.values[i])
    ensures var ts := Tokens(Trim(s));
      forall j :: (0 <= j < |ts| && TokenValue(ts[j], prop, viewBox, fontSize) == Bad &&
        (forall i :: 0 <= i < j ==> TokenValue(ts[i], prop, viewBox, fontSize).Value?)) ==>
        SvgLengths(Some(s), prop, viewBox, fontSize) == Ok([])
  {
    AllTokensValues(s, prop, viewBox, fontSize);
    FirstBadToken(s, prop, viewBox, fontSize);
  }

  lemma AllTokensValues(s: string, prop: string, viewBox: Option<string>, fontSize: JsNum)
    ensures var ts := Tokens(Trim(s));
      (forall i :: 0 <= i < |ts| ==> TokenValue(ts[i], prop, viewBox, fontSize).Value?) ==>
        var r := SvgLengths(Some(s), prop, viewBox, fontSize);
        r.Ok? && |r.values| == |ts| &&
        forall i :: 0 <= i < |ts| ==> TokenValue(ts[i], prop, viewBox, fontSize) == Value(r.values[i])
  {
    var ts := Tokens(Trim(s));
    TokenOutsAt(ts, prop, viewBox, fontSize);
    ScanValues(TokenOuts(ts, prop, viewBox, fontSize));
  }

  lemma FirstBadToken(s: string, prop: string, viewBox: Option<string>, fontSize: JsNum)
    ensures var ts := Tokens(Trim(s));
      forall j :: (0 <= j < |ts| && TokenValue(ts[j], prop, viewBox, fontSize) == Bad &&
        (forall i :: 0 <= i < j ==> TokenValue(ts[i], prop, viewBox, fontSize).Value?)) ==>
        SvgLengths(Some(s), prop, viewBox, fontSize) == Ok([])
  {
    var ts := Tokens(Trim(s));
    var outs := TokenOuts(ts, prop, viewBox, fontSize);
    TokenOutsAt(ts, prop, viewBox, fontSize);
    forall j | 0 <= j < |ts| && TokenValue(ts[j], prop, viewBox, fontSize) == Bad &&
        (forall i :: 0 <= i < j ==> TokenValue(ts[i], prop, viewBox, fontSize).Value?)
      ensures SvgLengths(Some(s), prop, viewBox, fontSize) == Ok([])
    {
      ScanFirstFailure(outs, j);
    }
  }

  lemma {:induction false} NumRunPrefix(d: string, rest: string)
    requires forall k :: 0 <= k < |d| ==> IsDigit(d[k])
    requires rest == [] || !IsNumChar(rest[0])
    ensures NumRun(d + rest) == |d|
    decreases |d|
  {
    if d != [] {
      assert (d + rest)[1..] == d[1..] + rest;
      NumRunPrefix(d[1..], rest);
    }
  }

  /** A unit name: no separator, not starting with a number character. */
  predicate UnitName(dim: string) {
    NoSep(dim) && (dim == [] || !IsNumChar(dim[0]))
  }

  /** `s` is one trimmed token, without separators, that lexes as `val` with unit `dim`. */
  predicate Reads(s: string, val: JsNum, dim: string) {
    NoSep(s) && Trim(s) == s && Lexeme(s) == Some((val, dim))
  }

  /** A whole number followed by a unit name is such a token, and reads back as that number and unit. */
  lemma NumberToken(n: nat, dim: string)
    requires UnitName(dim)
    ensures Reads(NatToString(n) + dim, Num(n as real), dim)
  {
    var d := NatToString(n);
    var s := d + dim;
    DigitsNoSep(d, dim);
    TrimNoSep(s);
    NumRunPrefix(d, dim);
    assert s[..|d|] == d && s[|d|..] == dim;
    ParseFloatNat(n, []);
    assert d + [] == d;
  }

  lemma DigitsNoSep(d: string, dim: string)
    requires forall k :: 0 <= k < |d| ==> IsDigit(d[k])
    requires NoSep(dim)
    ensures NoSep(d + dim)
  {
    var s := d + dim;
    forall k | 0 <= k < |s|
      ensures !IsSep(s[k])
    {
      if k >= |d| {
        assert s[k] == dim[k - |d|];
      }
    }
  }

  /** A text without separators has no whitespace to trim. */
  lemma TrimNoSep(s: string)
    requires NoSep(s)
    ensures Trim(s) == s
  {
    assert LeadingSpaces(s) == 0 by {
      if s != [] { assert !IsSpace(s[0]); }
    }
    assert s[0..] == s;
    assert TrailingSpaces(s) == 0 by {
      if s != [] { assert !IsSpace(s[|s| - 1]); }
    }
  }

  /** The result of an attribute made of one token. */
  function Single(t: TokenOut): Lengths {
    match t
    case Value(v) => Ok([v])
    case Bad => Ok([])
    case Throws => TypeError
  }

  /** An attribute with no separator is a single token: its value, `[]` or the thrown error. */
  lemma SingleTokenLength(s: string, prop: string, viewBox: Option<string>, fontSize: JsNum)
    requires NoSep(s) && Trim(s) == s
    ensures SvgLengths(Some(s), prop, viewBox, fontSize) == Single(TokenValue(s, prop, viewBox, fontSize))
  {
    assert Tokens(Trim(s)) == [s];
    var t := TokenValue(s, prop, viewBox, fontSize);
    assert TokenOuts([s], prop, viewBox, fontSize) == [t] by {
      assert [s][1..] == [];
    }
    ScanSingle(t);
  }

  lemma ScanSingle(t: TokenOut)
    ensures t.Value? ==> ScanTokens([t]) == Values([t.v])
    ensures t == Bad ==> ScanTokens([t]) == Rejected
    ensures t == Throws ==> ScanTokens([t]) == Thrown
  {
    assert [t][1..] == [];
    if t.Value? {
      assert [t.v] + [] == [t.v];
    }
  }

  /** The pixel factors of the units. */
  lemma UnitTable()
    ensures UnitOf("") == Absolute(1.0) && UnitOf("px") == Absolute(1.0)
    ensures UnitOf("in") == Absolute(96.0)
    ensures UnitOf("mm") == Absolute(96.0 / 25.4)
    ensures UnitOf("cm") == Absolute(96.0 / 2.54)
    ensures UnitOf("pt") == Absolute(4.0 / 3.0)
    ensures UnitOf("pc") == Absolute(16.0)
    ensures UnitOf("em") == FontRelative(1.0) && UnitOf("ex") == FontRelative(0.5)
    ensures UnitOf("%") == Percent
    ensures UnitOf("vw") == Unknown && UnitOf("rem") == Unknown
  {
  }

  /** A length in an absolute unit is the number times the unit's pixel factor, whatever the attribute. */
  lemma AbsoluteLength(s: string, val: JsNum, dim: string, f: real, prop: string, viewBox: Option<string>, fontSize: JsNum)
    requires Reads(s, val, dim) && UnitOf(dim) == Absolute(f)
    ensures SvgLengths(Some(s), prop, viewBox, fontSize) == Ok([val.Times(f)])
  {
    SingleTokenLength(s, prop, viewBox, fontSize);
  }

  /**
   * A percentage is hundredths of the viewBox height for `y` and `dy`, of its
   * width otherwise; without an owner viewBox it throws.
   */
  lemma PercentLength(s: string, val: JsNum, prop: string, viewBox: Option<string>, fontSize: JsNum)
    requires Reads(s, val, "%")
    ensures viewBox.None? ==> SvgLengths(Some(s), prop, viewBox, fontSize) == TypeError
    ensures viewBox.Some? ==>
      var vb := ViewBoxNumbers(viewBox.value);
      SvgLengths(Some(s), prop, viewBox, fontSize) == Ok([PercentOf(val, vb, prop)])
  {
    SingleTokenLength(s, prop, viewBox, fontSize);
    assert UnitOf("%") == Percent;
    assert TokenValue(s, prop, viewBox, fontSize) == TokenByUnit(Percent, val, prop, viewBox, fontSize);
  }

  /** `em` and `ex` multiply by the font size times their factor (1 and 0.5 in the unit table). */
  lemma FontRelativeLength(s: string, val: JsNum, dim: string, f: real, prop: string, viewBox: Option<string>, fontSize: JsNum)
    requires Reads(s, val, dim) && UnitOf(dim) == FontRelative(f)
    ensures SvgLengths(Some(s), prop, viewBox, fontSize) == Ok([val.Mul(fontSize).Times(f)])
  {
    SingleTokenLength(s, prop, viewBox, fontSize);
  }

  /** An unknown unit empties the list. */
  lemma UnknownUnit(s: string, val: JsNum, dim: string, prop: string, viewBox: Option<string>, fontSize: JsNum)
    requires Reads(s, val, dim) && UnitOf(dim) == Unknown
    ensures SvgLengths(Some(s), prop, viewBox, fontSize) == Ok([])
  {
    SingleTokenLength(s, prop, viewBox, fontSize);
  }

  /** `vs` followed by the scan of the remaining tokens. */
  function Prepend(vs: seq<JsNum>, sc: Scan): Scan {
    match sc
    case Values(ws) => Values(vs + ws)
    case other => other
  }

  /**
   * The unit switch of `parseSvgLength` for one matched token. The viewBox is
   * read on the first percentage and kept for the later ones.
   */
  method ConvertLength(val: JsNum, dim: string, prop: string, viewBoxAttr: Option<string>, fontSize: JsNum,
                       viewBox: Option<seq<JsNum>>)
    returns (out: TokenOut, viewBox': Option<seq<JsNum>>)
    requires viewBox.Some? ==> viewBoxAttr.Some? && viewBox.value == ViewBoxNumbers(viewBoxAttr.value)
    ensures out == TokenOf(val, dim, prop, viewBoxAttr, fontSize)
    ensures viewBox'.Some? ==> viewBoxAttr.Some? && viewBox'.value == ViewBoxNumbers(viewBoxAttr.value)
  {
    out, viewBox' := ConvertByUnit(UnitOf(dim), val, prop, viewBoxAttr, fontSize, viewBox);
  }

  /** The switch itself, on the unit already looked up. */
  method ConvertByUnit(unit: Unit, val: JsNum, prop: string, viewBoxAttr: Option<string>, fontSize: JsNum,
                       viewBox: Option<seq<JsNum>>)
    returns (out: TokenOut, viewBox': Option<seq<JsNum>>)
    requires viewBox.Some? ==> viewBoxAttr.Some? && viewBox.value == ViewBoxNumbers(viewBoxAttr.value)
    ensures out == TokenByUnit(unit, val, prop, viewBoxAttr, fontSize)
    ensures viewBox'.Some? ==> viewBoxAttr.Some? && viewBox'.value == ViewBoxNumbers(viewBoxAttr.value)
  {
    viewBox' := viewBox;
    match unit {
      case Absolute(f) =>
        out := Value(val.Times(f));
      case Percent =>
        if viewBox'.None? {
          if viewBoxAttr.None? {
            return Throws, viewBox';
          }
          viewBox' := Some(ViewBoxNumbers(viewBoxAttr.value));
        }
        out := Value(PercentOf(val, viewBox'.value, prop));
      case FontRelative(f) =>
        out := Value(val.Mul(fontSize).Times(f));
      case Unknown =>
        out := Bad;
    }
  }

  lemma TokenOutsCons(tokens: seq<string>, i: nat, prop: string, viewBox: Option<string>, fontSize: JsNum)
    requires i < |tokens|
    ensures TokenOuts(tokens[i..], prop, viewBox, fontSize)
      == [TokenValue(tokens[i], prop, viewBox, fontSize)] + TokenOuts(tokens[i + 1..], prop, viewBox, fontSize)
  {
    assert tokens[i..][1..] == tokens[i + 1..];
  }

  lemma ScanStep(outs: seq<TokenOut>, i: nat, result: seq<JsNum>)
    requires i < |outs|
    ensures outs[i].Value? ==> Prepend(result, ScanTokens(outs[i..])) == Prepend(result + [outs[i].v], ScanTokens(outs[i + 1..]))
    ensures outs[i] == Bad ==> ScanTokens(outs[i..]) == Rejected
    ensures outs[i] == Throws ==> ScanTokens(outs[i..]) == Thrown
  {
    assert outs[i..][0] == outs[i] && outs[i..][1..] == outs[i + 1..];
  }

  /** One iteration of the token loop: match the token, then convert it by its unit. */
  method ReadToken(tok: string, prop: string, viewBoxAttr: Option<string>, fontSize: JsNum,
                   viewBox: Option<seq<JsNum>>)
    returns (out: TokenOut, viewBox': Option<seq<JsNum>>)
    requires viewBox.Some? ==> viewBoxAttr.Some? && viewBox.value == ViewBoxNumbers(viewBoxAttr.value)
    ensures out == TokenValue(tok, prop, viewBoxAttr, fontSize)
    ensures viewBox'.Some? ==> viewBoxAttr.Some? && viewBox'.value == ViewBoxNumbers(viewBoxAttr.value)
  {
    var lex := Lexeme(tok);
    if lex.None? {
      return Bad, viewBox;
    }
    out, viewBox' := ConvertLength(lex.value.0, lex.value.1, prop, viewBoxAttr, fontSize, viewBox);
  }

  lemma TokenOutAt(ts: seq<string>, i: nat, prop: string, viewBox: Option<string>, fontSize: JsNum)
    requires i < |ts|
    ensures TokenOuts(ts, prop, viewBox, fontSize)[i] == TokenValue(ts[i], prop, viewBox, fontSize)
  {
    TokenOutsAt(ts, prop, viewBox, fontSize);
  }

  /** `ReadToken` on the `i`th token: the `i`th of `TokenOuts`. */
  method ReadTokenAt(tokens: seq<string>, i: nat, prop: string, viewBoxAttr: Option<string>, fontSize: JsNum,
                     viewBox: Option<seq<JsNum>>)
    returns (out: TokenOut, viewBox': Option<seq<JsNum>>)
    requires i < |tokens|
    requires viewBox.Some? ==> viewBoxAttr.Some? && viewBox.value == ViewBoxNumbers(viewBoxAttr.value)
    ensures out == TokenOuts(tokens, prop, viewBoxAttr, fontSize)[i]
    ensures viewBox'.Some? ==> viewBoxAttr.Some? && viewBox'.value == ViewBoxNumbers(viewBoxAttr.value)
  {
    out, viewBox' := ReadToken(tokens[i], prop, viewBoxAttr, fontSize, viewBox);
    TokenOutAt(tokens, i, prop, viewBoxAttr, fontSize);
  }

  /** The token loop of `parseSvgLength`, stopping at the first bad or throwing token. */
  method ScanLengths(tokens: seq<string>, prop: string, viewBoxAttr: Option<string>, fontSize: JsNum)
    returns (sc: Scan)
    ensures sc == ScanTokens(TokenOuts(tokens, prop, viewBoxAttr, fontSize))
  {
    ghost var outs := TokenOuts(tokens, prop, viewBoxAttr, fontSize);
    var viewBox: Option<seq<JsNum>> := None;
    var result: seq<JsNum> := [];
    var i := 0;
    while i < |tokens|
      invariant 0 <= i <= |tokens|
      invariant viewBox.Some? ==> viewBoxAttr.Some? && viewBox.value == ViewBoxNumbers(viewBoxAttr.value)
      invariant ScanTokens(outs) == Prepend(result, ScanTokens(outs[i..]))
    {
      var out;
      out, viewBox := ReadTokenAt(tokens, i, prop, viewBoxAttr, fontSize, viewBox);
      ScanStep(outs, i, result);
      match out {
        case Bad => return Rejected;
        case Throws => return Thrown;
        case Value(v) =>
          result := result + [v];
      }
      i := i + 1;
    }
    assert outs[i..] == [];
    assert result + [] == result;
    return Values(result);
  }

  /** `parseSvgLength`: an absent attribute is `[]`; otherwise the trimmed value's tokens are scanned. */
  method ParseSvgLength(attr: Option<string>, prop: string, viewBoxAttr: Option<string>, fontSize: JsNum)
    returns (r: Lengths)
    ensures r == SvgLengths(attr, prop, viewBoxAttr, fontSize)
  {
    if attr.None? {
      return Ok([]);
    }
    var tokens := Tokens(Trim(attr.value));
    var sc := ScanLengths(tokens, prop, viewBoxAttr, fontSize);
    match sc {
      case Values(vs) => r := Ok(vs);
      case Rejected => r := Ok([]);
      case Thrown => r := TypeError;
    }
  }

  /** What `normalizeFontSize` yields: a size in pixels, a fraction of the parent's (or root's) size, or `null`. */
  datatype FontSize = Pixels(v: JsNum) | Relative(v: JsNum, root: bool) | Null

  /**
   * `normalizeFontSize(value, isAttr)`. A bare number is a pixel size only in a
   * `font-size` attribute; in a style it is ignored. `%`, `em` and `ex` are
   * relative to the parent's size, `rem` to the root's.
   */
  function NormalizeFontSize(value: string, isAttr: bool): FontSize {
    match Lexeme(value)
    case None => Null
    case Some((val, dim)) => FontSizeOf(val, dim, isAttr)
  }

  /** The unit switch of `normalizeFontSize`. */
  function FontSizeOf(val: JsNum, dim: string, isAttr: bool): FontSize {
    match dim
    case "" => if isAttr then Pixels(val) else Null
    case "px" => Pixels(val)
    case "%" => Relative(val.Times(1.0 / 100.0), false)
    case "rem" => Relative(val, true)
    case "em" => Relative(val, false)
    case "ex" => Relative(val.Times(1.0 / 2.0), false)
    case "in" => Pixels(val.Times(96.0))
    case "mm" => Pixels(val.Times(96.0 / 25.4))
    case "cm" => Pixels(val.Times(96.0 / 2.54))
    case "pt" => Pixels(val.Times(4.0 / 3.0))
    case "pc" => Pixels(val.Times(16.0))
    case _ => Null
  }

  /**
   * A font size and a length agree on every absolute unit: both are the number
   * of pixels from the same unit table (a bare number only in an attribute).
   */
  lemma FontSizeAgreesWithLength(s: string, val: JsNum, dim: string, isAttr: bool,
                                 prop: string, viewBox: Option<string>, fontSize: JsNum)
    requires Reads(s, val, dim)
    requires (dim == "" && isAttr) || dim == "px" || dim == "in" || dim == "mm" || dim == "cm" || dim == "pt" || dim == "pc"
    ensures UnitOf(dim).Absolute?
    ensures NormalizeFontSize(s, isAttr) == Pixels(val.Times(UnitOf(dim).factor))
    ensures SvgLengths(Some(s), prop, viewBox, fontSize) == Ok([NormalizeFontSize(s, isAttr).v])
  {
    FontSizePixels(val, dim, isAttr);
    AbsoluteLength(s, val, dim, UnitOf(dim).factor, prop, viewBox, fontSize);
  }

  lemma FontSizePixels(val: JsNum, dim: string, isAttr: bool)
    requires (dim == "" && isAttr) || dim == "px" || dim == "in" || dim == "mm" || dim == "cm" || dim == "pt" || dim == "pc"
    ensures UnitOf(dim).Absolute?
    ensures FontSizeOf(val, dim, isAttr) == Pixels(val.Times(UnitOf(dim).factor))
  {
    if dim == "" || dim == "px" {
      assert UnitOf(dim) == Absolute(1.0);
      assert val.Times(1.0) == val;
    } else if dim == "in" {
      assert UnitOf(dim) == Absolute(96.0);
    } else if dim == "mm" {
      assert UnitOf(dim) == Absolute(96.0 / 25.4);
    } else if dim == "cm" {
      assert UnitOf(dim) == Absolute(96.0 / 2.54);
    } else if dim == "pt" {
      assert UnitOf(dim) == Absolute(4.0 / 3.0);
    } else {
      assert UnitOf(dim) == Absolute(16.0);
    }
  }

  /**
   * `em` and `ex` give the multiple of the parent's size that the length
   * parser applies to the font size; `%` gives hundredths of it; `rem` is
   * relative to the root; a bare number counts only in an attribute.
   */
  lemma FontSizeRelative(val: JsNum, dim: string, isAttr: bool)
    ensures UnitOf(dim).FontRelative? ==> FontSizeOf(val, dim, isAttr) == Relative(val.Times(UnitOf(dim).factor), false)
    ensures dim == "%" ==> FontSizeOf(val, dim, isAttr) == Relative(val.Times(1.0 / 100.0), false)
    ensures dim == "rem" ==> FontSizeOf(val, dim, isAttr) == Relative(val, true)
    ensures dim == "" ==> (FontSizeOf(val, dim, isAttr) == Null <==> !isAttr)
  {
    if dim == "em" {
      assert val.Times(1.0) == val;
    }
  }

  /** Exactly a bare number outside an attribute and an unknown unit (other than `rem`) give no font size. */
  lemma FontSizeNull(val: JsNum, dim: string, isAttr: bool)
    ensures FontSizeOf(val, dim, isAttr) == Null <==>
      (dim == "" && !isAttr) || (UnitOf(dim) == Unknown && dim != "rem")
  {
    if UnitOf(dim) == Unknown && dim != "rem" {
      assert dim !in {"", "px", "%", "em", "ex", "in", "mm", "cm", "pt", "pc", "rem"};
    }
  }
}
