/**
 * providers/font-face/FontFaceSessionProvider.js: variants read from the
 * `@font-face` rules of the document's style sheets, parsed once, on the
 * first request, into a list per family in rule order.
 *
 * A rule's descriptors arrive as the strings `getPropertyValue` returns
 * (`""` when absent).  The regular expressions are written out as
 * functions; where one can start its match at several places in an item,
 * the match at the first `url(` of the item is the one modelled.
 */
module FontFace {
  import opened Wrappers
  import opened Strings
  import opened Numbers
  import opened FontStyle

  /** The descriptors `#parseFontFace` reads. */
  datatype FaceProps = FaceProps(family: string, src: string, weight: string, style: string)

  /** A style sheet: its rules, an `@import` rule carrying the imported sheet. */
  datatype Sheet = Sheet(rules: seq<Rule>)
  datatype Rule = Import(sheet: Sheet) | Face(props: FaceProps) | Other

  /* ---------- descriptors ---------- */

  /** The family name: trimmed, then one leading and one trailing quote removed. */
  function FamilyName(p: FaceProps): string {
    StripQuotes(Trim(p.family))
  }

  /** Length of the longest prefix without whitespace (`\S*`). */
  function NonSpaceRun(s: string): (n: nat)
    ensures n <= |s|
    ensures forall i :: 0 <= i < n ==> !IsSpace(s[i])
    ensures n < |s| ==> IsSpace(s[n])
  {
    if s == [] || IsSpace(s[0]) then 0 else 1 + NonSpaceRun(s[1..])
  }

  predicate IsFormatChar(c: char) {
    ('a' <= c <= 'z') || ('0' <= c <= '9')
  }

  /** Length of the longest prefix of `[a-z0-9]` characters. */
  function FormatRun(s: string): (n: nat)
    ensures n <= |s|
    ensures forall i :: 0 <= i < n ==> IsFormatChar(s[i])
    ensures n < |s| ==> !IsFormatChar(s[n])
  {
    if s == [] || !IsFormatChar(s[0]) then 0 else 1 + FormatRun(s[1..])
  }

  /** A quote character at the head of `s`, if any, skipped (`['"]?`). */
  function SkipQuote(s: string): string {
    if |s| > 0 && IsQuote(s[0]) then s[1..] else s
  }

  /** `\s+format\(['"]?([a-z0-9]+)['"]?\)` at the head of `s`: the format name. */
  function FormatPart(s: string): Option<string> {
    var ws := LeadingSpaces(s);
    var f := s[ws..];
    if ws == 0 || !StartsWith(f, "format(") then None
    else
      var h := SkipQuote(f[7..]);
      var k := FormatRun(h);
      var t := SkipQuote(h[k..]);
      if k > 0 && |t| > 0 && t[0] == ')' then Some(h[..k]) else None
  }

  /**
   * `url\(['"]?([\S^)]+)['"]?\)` from the first `url(` of an item: the URL
   * captured, as written.  `[\S^)]` is any non-space character, so the
   * capture runs up to the `)` that ends the non-space run and keeps a
   * closing quote: `url("a.ttf")` captures `a.ttf"`.
   */
  function UrlPart(item: string): Option<(string, string)> {
    match IndexOf(item, "url(")
    case None => None
    case Some(i) =>
      var rest := item[i + 4..];
      var n := NonSpaceRun(rest);
      var r := rest[..n];
      var q := n > 0 && IsQuote(r[0]);
      if n < 2 || r[n - 1] != ')' then None
      else if q && n >= 3 then Some((r[1..n - 1], rest[n..]))
      else Some((r[..n - 1], rest[n..]))
  }

  /** The URL and the format of one `src` item, the URL as captured. */
  function SrcItem(item: string): Option<(string, string)> {
    match UrlPart(item)
    case None => None
    case Some((url, after)) =>
      match FormatPart(after)
      case None => None
      case Some(format) => Some((url, format))
  }

  predicate Supported(format: string) {
    format == "truetype" || format == "opentype" || format == "woff" || format == "woff2"
  }

  /** An item matched the pattern and names a supported format. */
  predicate Usable(m: Option<(string, string)>) {
    m.Some? && Supported(m.value.1)
  }

  /** The match of each `src` item, in order. */
  function Matches(items: seq<string>): (ms: seq<Option<(string, string)>>)
    ensures |ms| == |items|
    ensures forall i :: 0 <= i < |items| ==> ms[i] == SrcItem(items[i])
  {
    seq(|items|, i requires 0 <= i < |items| => SrcItem(items[i]))
  }

  /** The URL of the first usable match; the loop stops at it. */
  function FirstUsable(ms: seq<Option<(string, string)>>): (r: Option<string>)
    ensures r.Some? ==> exists i :: 0 <= i < |ms| && Usable(ms[i]) && ms[i].value.0 == r.value &&
                                    forall j :: 0 <= j < i ==> !Usable(ms[j])
    ensures r.None? ==> forall i :: 0 <= i < |ms| ==> !Usable(ms[i])
  {
    if ms == [] then None
    else if Usable(ms[0]) then Some(ms[0].value.0)
    else
      var r := FirstUsable(ms[1..]);
      assert forall i :: 1 <= i < |ms| ==> ms[i] == ms[1..][i - 1];
      r
  }

  /** The URL of the first item with a supported format, as captured. */
  function FirstSupported(items: seq<string>): (r: Option<string>)
    ensures r.Some? ==> (exists i :: 0 <= i < |items| && SrcItem(items[i]).Some? &&
                                     SrcItem(items[i]).value.0 == r.value && Supported(SrcItem(items[i]).value.1))
    ensures r.None? ==> forall i :: 0 <= i < |items| ==> SrcItem(items[i]).None? || !Supported(SrcItem(items[i]).value.1)
  {
    FirstUsable(Matches(items))
  }

  /** The source of a rule as written: a quoted URL keeps its closing quote. */
  function SourceAsWritten(src: string): Option<string> {
    FirstSupported(Split(src, ','))
  }

  /** A captured URL without the closing quote the capture kept. */
  function Unquoted(url: string): (r: string)
    ensures |url| > 1 && IsQuote(url[|url| - 1]) ==> r == url[..|url| - 1]
    ensures !(|url| > 1 && IsQuote(url[|url| - 1])) ==> r == url
  {
    if |url| > 1 && IsQuote(url[|url| - 1]) then url[..|url| - 1] else url
  }

  /**
   * The source of a rule, corrected: the URL between the quotes. It is the
   * capture of the code as written, less at most one closing quote.
   */
  function Source(src: string): (r: Option<string>)
    ensures r.Some? <==> SourceAsWritten(src).Some?
    ensures r.Some? ==> r.value <= SourceAsWritten(src).value && |SourceAsWritten(src).value| <= |r.value| + 1
  {
    match SourceAsWritten(src)
    case Some(url) => Some(Unquoted(url))
    case None => None
  }

  /** `parseFloat` of a matched number, `None` for one without a digit (`NaN` in the source). */
  function Float(s: string): Option<real> {
    match ParseFloat(s)
    case Num(v) => Some(v)
    case NaN => None
  }

  /** `font-weight` against `/^([\d.]+)(?:\s+([\d.]+))?$/`: one weight or a range. */
  function WeightOf(s: string): Option<AxisValue> {
    var a := DigitDotRun(s);
    var rest := s[a..];
    if a == 0 then None
    else if rest == [] then
      (match Float(s) case Some(w) => Some(Point(w)) case None => None)
    else
      var ws := LeadingSpaces(rest);
      var r2 := rest[ws..];
      if ws == 0 || r2 == [] || DigitDotRun(r2) != |r2| then None
      else match (Float(s[..a]), Float(r2))
        case (Some(lo), Some(hi)) => Some(Range(lo, hi))
        case _ => None
  }

  predicate IsAngleChar(c: char) {
    IsDigit(c) || c == '.' || c == '-'
  }

  /** Length of the longest prefix of `[\d.-]` characters. */
  function AngleRun(s: string): (n: nat)
    ensures n <= |s|
    ensures forall i :: 0 <= i < n ==> IsAngleChar(s[i])
    ensures n < |s| ==> !IsAngleChar(s[n])
  {
    if s == [] || !IsAngleChar(s[0]) then 0 else 1 + AngleRun(s[1..])
  }

  /** `\s+([\d.-]+)deg` at the head of `s`: the angle and what follows it. */
  function AnglePart(s: string): Option<(string, string)> {
    var ws := LeadingSpaces(s);
    var t := s[ws..];
    var n := AngleRun(t);
    if ws == 0 || n == 0 || !StartsWith(t[n..], "deg") then None
    else Some((t[..n], t[n + 3..]))
  }

  /** The angles after `oblique`: one angle, or two, and nothing after them. */
  function ObliqueAngles(s: string): Option<(string, Option<string>)> {
    if !StartsWith(s, "oblique") then None
    else match AnglePart(s[7..])
      case None => None
      case Some((a, rest)) =>
        if rest == [] then Some((a, None))
        else match AnglePart(rest)
          case Some((b, rest2)) => if rest2 == [] then Some((a, Some(b))) else None
          case None => None
  }

  /** `-parseFloat` of each angle, reversed: `oblique a b` leans over `[-b, -a]`. */
  function Lean(a: string, b: Option<string>): Option<AxisValue> {
    match (Float(a), b)
    case (Some(x), None) => Some(Point(-x))
    case (Some(x), Some(bs)) => (match Float(bs) case Some(y) => Some(Range(-y, -x)) case None => None)
    case _ => None
  }

  /**
   * `font-style` against `/^oblique\s+([\d.-]+)deg(?:\s+([\d.-]+)deg)$/`
   * as written: the second angle is not optional, so `oblique 10deg` leaves
   * the slant unset.
   */
  function ObliqueAsWritten(s: string): Option<AxisValue> {
    match ObliqueAngles(s)
    case Some((a, Some(b))) => Lean(a, Some(b))
    case _ => None
  }

  /**
   * `font-style` with the second angle optional, as the `match.length > 1`
   * test that follows expects; it agrees with the code as written wherever
   * that matches.
   */
  function Oblique(s: string): (r: Option<AxisValue>)
    ensures ObliqueAsWritten(s).Some? ==> r == ObliqueAsWritten(s)
    ensures r.Some? ==> StartsWith(s, "oblique")
  {
    match ObliqueAngles(s)
    case Some((a, b)) => Lean(a, b)
    case None => None
  }

  /** The axes of a rule: `wght` from `font-weight`, `ital` or `slnt` from `font-style`. */
  function FaceAxes(p: FaceProps): (r: map<string, AxisValue>)
    ensures forall k :: k in r ==> k == "wght" || k == "ital" || k == "slnt"
    ensures "wght" in r <==> WeightOf(p.weight).Some?
    ensures "wght" in r ==> r["wght"] == WeightOf(p.weight).value
    ensures "ital" in r <==> p.style == "italic"
    ensures "ital" in r ==> r["ital"] == Point(1.0) && "slnt" !in r
    ensures p.style == "oblique" ==> "slnt" in r && r["slnt"] == Point(-14.0)
  {
    var w: map<string, AxisValue> := match WeightOf(p.weight)
      case Some(v) => map["wght" := v]
      case None => map[];
    if p.style == "italic" then w["ital" := Point(1.0)]
    else if p.style == "oblique" then w["slnt" := Point(-14.0)]
    else match Oblique(p.style)
      case Some(v) => w["slnt" := v]
      case None => w
  }

  /** `#parseFontFace`: the family and the variant of a rule, none without a supported source. */
  function FaceVariant(p: FaceProps): (r: Option<(string, Variant)>)
    ensures r.Some? <==> Source(p.src).Some?
    ensures r.Some? ==> r.value.0 == FamilyName(p) && r.value.1.source == Source(p.src).value
  {
    match Source(p.src)
    case Some(url) => Some((FamilyName(p), Variant(url, FaceAxes(p))))
    case None => None
  }

  /* ---------- sheets ---------- */

  /** The (family, variant) pairs of a sheet, imports first where they stand. */
  function SheetEntries(s: Sheet): seq<(string, Variant)>
    decreases s, 1
  {
    RulesEntries(s, |s.rules|)
  }

  function RulesEntries(s: Sheet, k: nat): seq<(string, Variant)>
    requires k <= |s.rules|
    decreases s, 0, k
  {
    if k == 0 then []
    else
      RulesEntries(s, k - 1) + RuleEntries(s.rules[k - 1])
  }

  /** The pairs one rule contributes: an imported sheet's, or a face rule's own. */
  function RuleEntries(rule: Rule): seq<(string, Variant)>
    decreases rule
  {
    match rule
    case Import(inner) => SheetEntries(inner)
    case Face(p) => (match FaceVariant(p) case Some(e) => [e] case None => [])
    case Other => []
  }

  function AllEntries(sheets: seq<Sheet>): seq<(string, Variant)>
    decreases |sheets|
  {
    if sheets == [] then [] else AllEntries(sheets[..|sheets| - 1]) + SheetEntries(sheets[|sheets| - 1])
  }

  /** `variants.push(variant)` on the family's list, created when missing. */
  function AddEntry(data: map<string, seq<Variant>>, e: (string, Variant)): map<string, seq<Variant>> {
    data[e.0 := (if e.0 in data then data[e.0] else []) + [e.1]]
  }

  function AddAll(data: map<string, seq<Variant>>, es: seq<(string, Variant)>): map<string, seq<Variant>>
    decreases |es|
  {
    if es == [] then data else AddEntry(AddAll(data, es[..|es| - 1]), es[|es| - 1])
  }

  /** The variants of `family` among the pairs, in order. */
  function Of(es: seq<(string, Variant)>, family: string): seq<Variant>
    decreases |es|
  {
    if es == [] then []
    else Of(es[..|es| - 1], family) + (if es[|es| - 1].0 == family then [es[|es| - 1].1] else [])
  }

  /** `this.#data[family] || []`. */
  function ListOf(data: map<string, seq<Variant>>, family: string): seq<Variant> {
    if family in data then data[family] else []
  }

  class FontFaceSessionProvider {
    /** The document's style sheets. */
    const sheets: seq<Sheet>
    /** `#data`, `None` until the first request parses the sheets. */
    var data: Option<map<string, seq<Variant>>>

    constructor(sheets: seq<Sheet>)
      ensures this.sheets == sheets && data == None
    {
      this.sheets := sheets;
      data := None;
    }

    /** `getVariants`: the sheets are parsed on the first request only. */
    method GetVariants(family: string) returns (r: seq<Variant>)
      modifies this
      ensures old(data).Some? ==> data == old(data)
      ensures old(data).None? ==> data == Some(AddAll(map[], AllEntries(sheets)))
      ensures r == ListOf(data.value, family)
    {
      if data.None? {
        Parse();
      }
      r := ListOf(data.value, family);
    }

    /** `#parse`: every sheet, in order. */
    method Parse()
      modifies this
      ensures data == Some(AddAll(map[], AllEntries(sheets)))
    {
      data := Some(map[]);
      var i := 0;
      while i < |sheets|
        invariant 0 <= i <= |sheets|
        invariant data == Some(AddAll(map[], AllEntries(sheets[..i])))
      {
        ParseStyleSheet(sheets[i]);
        assert sheets[..i + 1][..i] == sheets[..i];
        AddAllAppend(map[], AllEntries(sheets[..i]), SheetEntries(sheets[i]));
        i := i + 1;
      }
      assert sheets[..i] == sheets;
    }

    /** `#parseStyleSheet`: an imported sheet is parsed where its rule stands. */
    method ParseStyleSheet(s: Sheet)
      requires data.Some?
      modifies this
      ensures data == Some(AddAll(old(data.value), SheetEntries(s)))
      decreases s, 1
    {
      ghost var d0 := data.value;
      var k := 0;
      while k < |s.rules|
        invariant 0 <= k <= |s.rules|
        invariant data == Some(AddAll(d0, RulesEntries(s, k)))
      {
        ParseRule(s, k, d0);
        k := k + 1;
      }
    }

    /** One rule of a sheet. */
    method ParseRule(s: Sheet, k: nat, ghost d0: map<string, seq<Variant>>)
      requires k < |s.rules| && data == Some(AddAll(d0, RulesEntries(s, k)))
      modifies this
      ensures data == Some(AddAll(d0, RulesEntries(s, k + 1)))
      decreases s, 0
    {
      var rule := s.rules[k];
      ghost var here := RuleEntries(rule);
      ghost var before := data.value;
      assert RulesEntries(s, k + 1) == RulesEntries(s, k) + here;
      AddAllAppend(d0, RulesEntries(s, k), here);
      match rule {
        case Import(inner) =>
          ParseStyleSheet(inner);
        case Face(p) =>
          var e := FaceVariant(p);
          if e.Some? {
            data := Some(AddEntry(data.value, e.value));
            AddAllOne(before, e.value);
          }
        case Other =>
      }
    }
  }

  /* ---------- properties ---------- */

  lemma AddAllOne(data: map<string, seq<Variant>>, e: (string, Variant))
    ensures AddAll(data, [e]) == AddEntry(data, e)
  {
    assert [e][..0] == [];
  }

  lemma {:induction false} AddAllAppend(data: map<string, seq<Variant>>, a: seq<(string, Variant)>, b: seq<(string, Variant)>)
    ensures AddAll(data, a + b) == AddAll(AddAll(data, a), b)
    decreases |b|
  {
    if b == [] {
      assert a + b == a;
    } else {
      assert (a + b)[..|a + b| - 1] == a + b[..|b| - 1];
      AddAllAppend(data, a, b[..|b| - 1]);
    }
  }

  /** Each family's list holds its variants in rule order, after whatever it held. */
  lemma {:induction false} AddAllOf(data: map<string, seq<Variant>>, es: seq<(string, Variant)>, family: string)
    ensures ListOf(AddAll(data, es), family) == ListOf(data, family) + Of(es, family)
    decreases |es|
  {
    if es != [] {
      AddAllOf(data, es[..|es| - 1], family);
    }
  }

  /** After parsing, a family's variants are the variants of its rules, in sheet and rule order. */
  lemma ParsedFamily(sheets: seq<Sheet>, family: string)
    ensures ListOf(AddAll(map[], AllEntries(sheets)), family) == Of(AllEntries(sheets), family)
  {
    AddAllOf(map[], AllEntries(sheets), family);
  }

  /** A family with no rule gets no variants. */
  lemma {:induction false} UnknownFamily(es: seq<(string, Variant)>, family: string)
    requires forall i :: 0 <= i < |es| ==> es[i].0 != family
    ensures Of(es, family) == []
    decreases |es|
  {
    if es != [] {
      UnknownFamily(es[..|es| - 1], family);
    }
  }

  /** The pairs of a sheet are those of its first rules followed by those of the rest. */
  lemma {:induction false} SheetAppend(a: seq<Rule>, b: seq<Rule>)
    ensures SheetEntries(Sheet(a + b)) == SheetEntries(Sheet(a)) + SheetEntries(Sheet(b))
    decreases |b|
  {
    if b == [] {
      assert a + b == a;
      assert RulesEntries(Sheet(b), 0) == [];
    } else {
      var b' := b[..|b| - 1];
      SheetAppend(a, b');
      assert (a + b)[..|a + b| - 1] == a + b';
      RulesPrefix(Sheet(a + b), Sheet(a + b'), |a + b'|);
      RulesPrefix(Sheet(b), Sheet(b'), |b'|);
      assert (a + b)[|a + b| - 1] == b[|b| - 1];
    }
  }

  /** An imported sheet's rules count where the `@import` stands. */
  lemma ImportInPlace(before: seq<Rule>, inner: Sheet, after: seq<Rule>)
    ensures SheetEntries(Sheet(before + [Import(inner)] + after)) ==
      SheetEntries(Sheet(before)) + SheetEntries(inner) + SheetEntries(Sheet(after))
  {
    SheetAppend(before + [Import(inner)], after);
    SheetAppend(before, [Import(inner)]);
    var one := Sheet([Import(inner)]);
    assert SheetEntries(one) == RulesEntries(one, 0) + RuleEntries(one.rules[0]);
    assert SheetEntries(one) == SheetEntries(inner);
  }

  /** The entries of the first `k` rules depend on those rules alone. */
  lemma {:induction false} RulesPrefix(s: Sheet, t: Sheet, k: nat)
    requires k <= |s.rules| && k <= |t.rules| && s.rules[..k] == t.rules[..k]
    ensures RulesEntries(s, k) == RulesEntries(t, k)
    decreases k
  {
    if k > 0 {
      assert s.rules[k - 1] == s.rules[..k][k - 1] == t.rules[k - 1];
      assert s.rules[..k - 1] == s.rules[..k][..k - 1];
      assert t.rules[..k - 1] == t.rules[..k][..k - 1];
      RulesPrefix(s, t, k - 1);
    }
  }

  /** A quoted family name loses its quotes and the spaces around it. */
  lemma QuotedFamily(name: string, q: char, src: string, weight: string, style: string)
    requires IsQuote(q) && name != [] && !IsQuote(name[0]) && !IsQuote(name[|name| - 1])
    ensures FamilyName(FaceProps([q] + name + [q], src, weight, style)) == name
  {
    var s := [q] + name + [q];
    assert LeadingSpaces(s) == 0;
    assert TrailingSpaces(s) == 0;
    assert Trim(s) == s;
    StripQuotesWrapped(name, q, q);
  }

  /** The first item with a supported format wins; an unsupported or unmatched one before it is skipped. */
  lemma {:induction false} FirstUsableSkips(ms: seq<Option<(string, string)>>, i: nat)
    requires i < |ms| && Usable(ms[i])
    requires forall j :: 0 <= j < i ==> !Usable(ms[j])
    ensures FirstUsable(ms) == Some(ms[i].value.0)
    decreases i
  {
    if i > 0 {
      var tail := ms[1..];
      assert !Usable(ms[0]);
      assert forall j :: 0 <= j <= i - 1 ==> tail[j] == ms[j + 1];
      FirstUsableSkips(tail, i - 1);
    }
  }

  /** The first item with a supported format wins; an unsupported or unmatched one before it is skipped. */
  lemma FirstSupportedSkips(items: seq<string>, i: nat)
    requires i < |items| && SrcItem(items[i]).Some? && Supported(SrcItem(items[i]).value.1)
    requires forall j :: 0 <= j < i ==> SrcItem(items[j]).None? || !Supported(SrcItem(items[j]).value.1)
    ensures FirstSupported(items) == Some(SrcItem(items[i]).value.0)
  {
    var ms := Matches(items);
    FirstUsableSkips(ms, i);
  }

  /** `\S*` stops at the first whitespace character. */
  lemma {:induction false} NonSpaceRunOf(a: string, b: string)
    requires forall i :: 0 <= i < |a| ==> !IsSpace(a[i])
    requires b == [] || IsSpace(b[0])
    ensures NonSpaceRun(a + b) == |a|
    decreases |a|
  {
    if a != [] {
      assert (a + b)[1..] == a[1..] + b;
      NonSpaceRunOf(a[1..], b);
    }
  }

  /** An item that opens with `url(`: the pattern's search starts right after it. */
  lemma UrlOpening(item: string, run: string, after: string)
    requires item == "url(" + run + after
    ensures StartsWith(item, "url(") && item[4..] == run + after
  {
    assert item[..4] == "url(";
  }

  /** A URL without whitespace, between quotes: the capture keeps the closing quote. */
  lemma UrlPartQuoted(q: char, u: string, after: string)
    requires IsQuote(q) && u != [] && forall i :: 0 <= i < |u| ==> !IsSpace(u[i])
    requires after == [] || IsSpace(after[0])
    ensures UrlPart("url(" + [q] + u + [q] + ")" + after) == Some((u + [q], after))
  {
    var item := "url(" + [q] + u + [q] + ")" + after;
    var run := [q] + u + [q] + ")";
    UrlOpening(item, run, after);
    var rest := item[4..];
    NonSpaceRunOf(run, after);
    assert rest[..|run|] == run;
    assert run[1..|run| - 1] == u + [q];
  }

  /** A URL without whitespace or quotes, unquoted: the capture is the URL. */
  lemma UrlPartBare(u: string, after: string)
    requires u != [] && forall i :: 0 <= i < |u| ==> !IsSpace(u[i]) && !IsQuote(u[i])
    requires after == [] || IsSpace(after[0])
    ensures UrlPart("url(" + u + ")" + after) == Some((u, after))
  {
    var item := "url(" + u + ")" + after;
    var run := u + ")";
    UrlOpening(item, run, after);
    var rest := item[4..];
    NonSpaceRunOf(run, after);
    assert rest[..|run|] == run;
    assert run[..|run| - 1] == u;
  }

  lemma {:induction false} FormatRunOf(f: string, rest: string)
    requires forall i :: 0 <= i < |f| ==> IsFormatChar(f[i])
    requires rest != [] && !IsFormatChar(rest[0])
    ensures FormatRun(f + rest) == |f|
    decreases |f|
  {
    if f != [] {
      assert (f + rest)[1..] == f[1..] + rest;
      FormatRunOf(f[1..], rest);
    }
  }

  /** ` format("f")` names the format `f`. */
  lemma FormatPartOf(f: string, tail: string)
    requires f != [] && forall i :: 0 <= i < |f| ==> IsFormatChar(f[i])
    ensures FormatPart(" format(\"" + f + "\")" + tail) == Some(f)
  {
    var s := " format(\"" + f + "\")" + tail;
    var rest := f + ("\")" + tail);
    assert s == " format(\"" + rest;
    FormatOpening(s, rest);
    var h := SkipQuote(s[1..][7..]);
    assert h == rest;
    FormatClosing(f, "\")" + tail);
    FormatPartAt(s, h);
  }

  /** The format name and what follows it. */
  lemma FormatClosing(f: string, rest: string)
    requires f != [] && forall i :: 0 <= i < |f| ==> IsFormatChar(f[i])
    requires |rest| >= 2 && rest[0] == '"' && rest[1] == ')'
    ensures var h := f + rest;
      FormatRun(h) == |f| && h[..|f|] == f && SkipQuote(h[|f|..]) == rest[1..]
  {
    FormatRunOf(f, rest);
    assert (f + rest)[..|f|] == f;
    assert (f + rest)[|f|..] == rest;
  }

  /** `FormatPart` read off its pieces. */
  lemma FormatPartAt(s: string, h: string)
    requires LeadingSpaces(s) == 1 && StartsWith(s[1..], "format(") && SkipQuote(s[1..][7..]) == h
    requires var k := FormatRun(h); var t := SkipQuote(h[k..]); k > 0 && |t| > 0 && t[0] == ')'
    ensures FormatPart(s) == Some(h[..FormatRun(h)])
  {
  }

  /** ` format("` opens the text: one leading space, the keyword, a quote. */
  lemma FormatOpening(s: string, rest: string)
    requires s == " format(\"" + rest
    ensures LeadingSpaces(s) == 1 && StartsWith(s[1..], "format(") && s[1..][7..] == "\"" + rest
  {
    assert s[1] == 'f';
    assert s[1..][..7] == "format(";
    assert s[1..][7..] == "\"" + rest;
  }

  lemma SplitSingle(item: string)
    requires ',' !in item
    ensures Split(item, ',') == [item]
  {
  }

  lemma SupportedFormat(f: string)
    requires Supported(f)
    ensures f != [] && forall i :: 0 <= i < |f| ==> IsFormatChar(f[i])
  {
  }

  /** The item `url(<q>u<q>) format("f")`, and its unquoted form when `q` is `None`. */
  function SrcText(q: Option<char>, u: string, f: string): string {
    var quote := if q.Some? then [q.value] else [];
    "url(" + quote + u + quote + ")" + " format(\"" + f + "\")"
  }

  lemma SrcTextNoComma(q: Option<char>, u: string, f: string)
    requires q.Some? ==> IsQuote(q.value)
    requires ',' !in u && Supported(f)
    ensures ',' !in SrcText(q, u, f)
  {
    assert ',' !in f;
    var quote := if q.Some? then [q.value] else [];
    assert ',' !in quote;
    assert ',' !in "url(" && ',' !in ")" && ',' !in " format(\"" && ',' !in "\")";
  }

  /** A source list of one item takes that item's URL when its format is supported. */
  lemma SourceOfItem(item: string, url: string, f: string)
    requires ',' !in item && SrcItem(item) == Some((url, f)) && Supported(f)
    ensures SourceAsWritten(item) == Some(url)
  {
    SplitSingle(item);
    FirstSupportedSkips([item], 0);
  }

  /** A quoted URL is captured with its closing quote. */
  lemma SrcTextQuoted(q: char, u: string, f: string)
    ensures SrcText(Some(q), u, f) == ("url(" + [q] + u + [q] + ")") + (" format(\"" + f + "\")")
  {
    var v, w := "url(" + [q] + u + [q] + ")", " format(\"" + f + "\")";
    assert SrcText(Some(q), u, f) == v + w by {
      assert SrcText(Some(q), u, f) == "url(" + [q] + u + [q] + ")" + " format(\"" + f + "\")";
    }
  }

  lemma QuotedItem(q: char, u: string, f: string)
    requires IsQuote(q) && u != [] && forall i :: 0 <= i < |u| ==> !IsSpace(u[i])
    requires Supported(f)
    ensures SrcItem(SrcText(Some(q), u, f)) == Some((u + [q], f))
  {
    var after := " format(\"" + f + "\")";
    var item := "url(" + [q] + u + [q] + ")" + after;
    SrcTextQuoted(q, u, f);
    assert UrlPart(item) == Some((u + [q], after)) by {
      UrlPartQuoted(q, u, after);
    }
    assert FormatPart(after) == Some(f) by {
      SupportedFormat(f);
      FormatPartOf(f, "");
      assert after + "" == after;
    }
  }

  lemma QuotedUrlAsWritten(q: char, u: string, f: string)
    requires IsQuote(q) && u != [] && ',' !in u && forall i :: 0 <= i < |u| ==> !IsSpace(u[i])
    requires Supported(f)
    ensures SourceAsWritten(SrcText(Some(q), u, f)) == Some(u + [q])
  {
    var item := SrcText(Some(q), u, f);
    QuotedItem(q, u, f);
    SrcTextNoComma(Some(q), u, f);
    SourceOfItem(item, u + [q], f);
  }

  /** Corrected, the source is the URL itself, quoted or not. */
  lemma QuotedUrl(q: char, u: string, f: string)
    requires IsQuote(q) && u != [] && ',' !in u && forall i :: 0 <= i < |u| ==> !IsSpace(u[i]) && !IsQuote(u[i])
    requires Supported(f)
    ensures Source(SrcText(Some(q), u, f)) == Some(u)
    ensures Source(SrcText(None, u, f)) == Some(u)
  {
    QuotedUrlAsWritten(q, u, f);
    assert (u + [q])[..|u|] == u;
    BareUrl(u, f);
  }

  /** An unquoted URL is captured whole. */
  lemma SrcTextBare(u: string, f: string)
    ensures SrcText(None, u, f) == ("url(" + u + ")") + (" format(\"" + f + "\")")
  {
    var v, w := "url(" + u + ")", " format(\"" + f + "\")";
    assert SrcText(None, u, f) == v + w by {
      assert SrcText(None, u, f) == "url(" + u + ")" + " format(\"" + f + "\")";
    }
  }

  lemma BareItem(u: string, f: string)
    requires u != [] && ',' !in u && forall i :: 0 <= i < |u| ==> !IsSpace(u[i]) && !IsQuote(u[i])
    requires Supported(f)
    ensures SrcItem(SrcText(None, u, f)) == Some((u, f))
  {
    var after := " format(\"" + f + "\")";
    var item := "url(" + u + ")" + after;
    SrcTextBare(u, f);
    assert UrlPart(item) == Some((u, after)) by {
      UrlPartBare(u, after);
    }
    assert FormatPart(after) == Some(f) by {
      SupportedFormat(f);
      FormatPartOf(f, "");
      assert after + "" == after;
    }
  }

  lemma BareUrl(u: string, f: string)
    requires u != [] && ',' !in u && forall i :: 0 <= i < |u| ==> !IsSpace(u[i]) && !IsQuote(u[i])
    requires Supported(f)
    ensures SourceAsWritten(SrcText(None, u, f)) == Some(u)
    ensures Source(SrcText(None, u, f)) == Some(u)
  {
    var item := SrcText(None, u, f);
    BareItem(u, f);
    SrcTextNoComma(None, u, f);
    SourceOfItem(item, u, f);
    assert !IsQuote(u[|u| - 1]);
  }

  /** `parseFloat` of a decimal numeral is its value. */
  lemma FloatNat(n: nat)
    ensures Float(NatToString(n)) == Some(n as real)
  {
    ParseFloatNat(n, "");
    assert NatToString(n) + "" == NatToString(n);
  }

  /** `font-weight: n` is the weight `n`. */
  lemma WeightPoint(a: nat)
    ensures WeightOf(NatToString(a)) == Some(Point(a as real))
  {
    AllNum(NatToString(a));
    FloatNat(a);
  }

  /** `font-weight: a b` is the range `[a, b]`. */
  lemma WeightRange(a: nat, b: nat)
    ensures WeightOf(NatToString(a) + " " + NatToString(b)) == Some(Range(a as real, b as real))
  {
    var sa := NatToString(a);
    var sb := NatToString(b);
    var rest := " " + sb;
    var s := sa + rest;
    assert sa + " " + sb == s;
    NumRunStops(sa, rest);
    assert s[..|sa|] == sa;
    assert s[|sa|..] == rest;
    SpaceThen(sb);
    AllNum(sb);
    FloatNat(a);
    FloatNat(b);
    assert WeightOf(s) == Some(Range(a as real, b as real));
  }

  /** One space, then a non-space character. */
  lemma SpaceThen(t: string)
    requires t != [] && !IsSpace(t[0])
    ensures LeadingSpaces(" " + t) == 1 && (" " + t)[1..] == t
  {
    assert (" " + t)[1..] == t;
  }

  lemma {:induction false} AllNum(s: string)
    requires forall i :: 0 <= i < |s| ==> IsDigit(s[i])
    ensures DigitDotRun(s) == |s|
    decreases |s|
  {
    if s != [] {
      AllNum(s[1..]);
    }
  }

  lemma {:induction false} NumRunStops(d: string, rest: string)
    requires forall i :: 0 <= i < |d| ==> IsDigit(d[i])
    requires rest != [] && !IsDigitOrDot(rest[0])
    ensures DigitDotRun(d + rest) == |d|
    decreases |d|
  {
    if d != [] {
      assert (d + rest)[1..] == d[1..] + rest;
      NumRunStops(d[1..], rest);
    }
  }

  /** `italic` sets `ital` to 1 and `oblique` alone sets `slnt` to -14, whatever the weight. */
  lemma StyleKeywords(p: FaceProps)
    ensures p.style == "italic" ==> "ital" in FaceAxes(p) && FaceAxes(p)["ital"] == Point(1.0)
    ensures p.style == "oblique" ==> "slnt" in FaceAxes(p) && FaceAxes(p)["slnt"] == Point(-14.0)
    ensures p.style == "italic" ==> "slnt" !in FaceAxes(p)
  {
  }

  /** `oblique <a>deg`, followed by ` <b>deg` when there is a second angle. */
  function ObliqueText(a: string, b: Option<string>): string {
    "oblique" + (" " + a + "deg" + if b.Some? then " " + b.value + "deg" else "")
  }

  /** `oblique a b` leans over `[-b, -a]`, as written and corrected alike. */
  lemma ObliqueRange(a: nat, b: nat)
    ensures ObliqueAsWritten(ObliqueText(NatToString(a), Some(NatToString(b)))) == Some(Range(-(b as real), -(a as real)))
    ensures Oblique(ObliqueText(NatToString(a), Some(NatToString(b)))) == Some(Range(-(b as real), -(a as real)))
  {
    var sa := NatToString(a);
    var sb := NatToString(b);
    var s := ObliqueText(sa, Some(sb));
    TwoAngles(sa, sb);
    LeanNat(a, b);
    assert ObliqueAsWritten(s) == Lean(sa, Some(sb));
    assert Oblique(s) == Lean(sa, Some(sb));
  }

  lemma LeanNat(a: nat, b: nat)
    ensures Lean(NatToString(a), Some(NatToString(b))) == Some(Range(-(b as real), -(a as real)))
  {
    FloatNat(a);
    FloatNat(b);
  }

  lemma TwoAngles(sa: string, sb: string)
    requires sa != [] && forall i :: 0 <= i < |sa| ==> IsDigit(sa[i])
    requires sb != [] && forall i :: 0 <= i < |sb| ==> IsDigit(sb[i])
    ensures ObliqueAngles(ObliqueText(sa, Some(sb))) == Some((sa, Some(sb)))
  {
    var tail := " " + sb + "deg";
    var rest := " " + sa + "deg" + tail;
    var s := ObliqueText(sa, Some(sb));
    assert s == "oblique" + rest;
    assert s[..7] == "oblique";
    assert s[7..] == rest;
    AnglePartOf(sa, tail);
    AnglePartOf(sb, "");
    assert tail + "" == tail;
  }

  /** As written, a single angle does not match: `oblique 10deg` gives no slant. */
  lemma SingleAngleAsWritten(a: nat)
    ensures ObliqueAsWritten(ObliqueText(NatToString(a), None)) == None
  {
    SingleAngle(a);
  }

  /** Corrected, a single angle is the slant `-a`. */
  lemma SingleAngle(a: nat)
    ensures ObliqueAngles(ObliqueText(NatToString(a), None)) == Some((NatToString(a), None))
    ensures Oblique(ObliqueText(NatToString(a), None)) == Some(Point(-(a as real)))
  {
    var sa := NatToString(a);
    var rest := " " + sa + "deg";
    var s := ObliqueText(sa, None);
    assert rest + "" == rest;
    assert s == "oblique" + rest;
    assert s[..7] == "oblique";
    assert s[7..] == rest;
    AnglePartOf(sa, "");
    FloatNat(a);
  }

  /** `\s+<digits>deg` reads its digits and stops after `deg`. */
  lemma AnglePartOf(d: string, rest: string)
    requires d != [] && forall i :: 0 <= i < |d| ==> IsDigit(d[i])
    ensures AnglePart(" " + d + "deg" + rest) == Some((d, rest))
  {
    var s := " " + d + "deg" + rest;
    assert !IsSpace(s[1]);
    assert LeadingSpaces(s) == 1 by {
      assert s[1..][0] == d[0];
    }
    var t := s[1..];
    assert t == d + ("deg" + rest);
    AngleRunStops(d, "deg" + rest);
    assert t[|d|..] == "deg" + rest;
    assert t[..|d|] == d;
    assert t[|d| + 3..] == rest;
  }

  lemma {:induction false} AngleRunStops(d: string, rest: string)
    requires forall i :: 0 <= i < |d| ==> IsDigit(d[i])
    requires rest != [] && !IsAngleChar(rest[0])
    ensures AngleRun(d + rest) == |d|
    decreases |d|
  {
    if d != [] {
      assert (d + rest)[1..] == d[1..] + rest;
      AngleRunStops(d[1..], rest);
    }
  }
}
