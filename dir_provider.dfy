/**
 * providers/dir/DirProvider.js: the variants of a family are the font files
 * of the folder named after it.  A file is named either by weight
 * (`400.ttf`, `700i.woff2`) or by axis ranges (`wght,100..900;ital,0.ttf`).
 *
 * The folder listing is an input (`None` when the folder is missing or
 * unreadable), and so is the folder path, which the source resolves against
 * the working directory.
 */
module DirProvider {
  import opened Wrappers
  import opened Strings
  import opened Numbers
  import opened FontStyle
  import Cache

  /* ---------- file names ---------- */

  /** Index of the last `.` in `s`. */
  function LastDot(s: string): (r: Option<nat>)
    ensures r.Some? ==> r.value < |s| && s[r.value] == '.' && '.' !in s[r.value + 1..]
    ensures r.None? ==> '.' !in s
    decreases |s|
  {
    if s == [] then None
    else if s[|s| - 1] == '.' then Some(|s| - 1)
    else
      var r := LastDot(s[..|s| - 1]);
      assert s == s[..|s| - 1] + [s[|s| - 1]];
      r
  }

  /** `path.parse(file)`: the name and the extension, which starts at the last dot unless the name would be empty. */
  function ParsePath(file: string): (r: (string, string))
    ensures r.0 + r.1 == file
  {
    match LastDot(file)
    case Some(k) => if k > 0 then (file[..k], file[k..]) else (file, "")
    case None => (file, "")
  }

  predicate FontExt(ext: string) {
    ext == ".ttf" || ext == ".otf" || ext == ".woff" || ext == ".woff2"
  }

  predicate AllDigits(s: string) {
    forall i :: 0 <= i < |s| ==> IsDigit(s[i])
  }

  /** `/^(\d{3})(i?)$/`: the three weight digits and whether the name is italic. */
  function WeightName(name: string): (r: Option<(string, bool)>)
    ensures r.Some? ==> |r.value.0| == 3 && AllDigits(r.value.0)
    ensures r.Some? ==> name == r.value.0 + (if r.value.1 then "i" else "")
  {
    if |name| == 3 && AllDigits(name) then Some((name, false))
    else if |name| == 4 && AllDigits(name[..3]) && name[3] == 'i' then Some((name[..3], true))
    else None
  }

  /** `-?\d+`. */
  predicate IntLit(s: string) {
    (|s| >= 1 && AllDigits(s)) || (|s| >= 2 && s[0] == '-' && AllDigits(s[1..]))
  }

  /**
   * The number an integer literal denotes: `Number(s)`, as a comparison of
   * the literal with a number converts it.  A comparison of two such
   * literals converts neither (see `JsLess`).
   */
  function IntLitValue(s: string): int
    requires IntLit(s)
  {
    if |s| > 0 && s[0] == '-' then -(DecValue(s[1..]) as int) else DecValue(s)
  }

  /** One axis entry of an axis-spec name as matched: its `from` and, for a range, its `to`. */
  datatype DirAxis = DirAxis(from: string, to: Option<string>) {
    /** Both bounds are integer literals, as the regular expression ensures. */
    predicate Valid() {
      IntLit(from) && (to.Some? ==> IntLit(to.value))
    }
  }

  /** `/^([a-zA-Z]{4}),(-?\d+)(?:\.\.(-?\d+))?$/` on one `;`-separated part. */
  function AxisDef(def: string): (r: Option<(string, DirAxis)>)
    ensures r.Some? ==> |r.value.0| == 4 && IntLit(r.value.1.from)
    ensures r.Some? && r.value.1.to.Some? ==> IntLit(r.value.1.to.value)
  {
    if |def| < 6 || def[4] != ',' || !(forall i :: 0 <= i < 4 ==> IsLetter(def[i])) then None
    else
      var r := def[5..];
      if IntLit(r) then Some((def[..4], DirAxis(r, None)))
      else match IndexOf(r, "..")
        case Some(k) =>
          if IntLit(r[..k]) && IntLit(r[k + 2..]) then Some((def[..4], DirAxis(r[..k], Some(r[k + 2..]))))
          else None
        case None => None
  }

  predicate AllDefs(parts: seq<string>) {
    forall i :: 0 <= i < |parts| ==> AxisDef(parts[i]).Some?
  }

  /** The axes of the parts, a later entry for an axis replacing an earlier one. */
  function DefsMap(parts: seq<string>): (m: map<string, DirAxis>)
    requires AllDefs(parts)
    ensures forall k :: k in m ==> m[k].Valid()
    decreases |parts|
  {
    if parts == [] then map[]
    else
      var d := AxisDef(parts[|parts| - 1]).value;
      DefsMap(parts[..|parts| - 1])[d.0 := d.1]
  }

  /** The axes of an axis-spec name, or `None` when one of its parts does not match. */
  function AxisSpec(name: string): (r: Option<map<string, DirAxis>>)
    ensures r.Some? ==> forall k :: k in r.value ==> r.value[k].Valid()
  {
    var parts := Split(name, ';');
    if AllDefs(parts) then Some(DefsMap(parts)) else None
  }

  /**
   * The axis an entry stores, as written: always the pair `[from, to]`,
   * because the regular expression's match array always has four entries,
   * so a single value is stored as `[from, undefined]`.
   */
  function StoredAsWritten(d: DirAxis): DirAxis {
    DirAxis(d.from, d.to)
  }

  /** `variantMatchAxis` on a stored pair: `from <= t && t <= to`, which is false when `to` is undefined. */
  predicate MatchAsWritten(d: DirAxis, t: real)
    requires d.Valid()
  {
    (IntLitValue(d.from) as real) <= t && d.to.Some? && t <= (IntLitValue(d.to.value) as real)
  }

  /** The axis an entry stores, corrected: the single value itself, or the range. */
  function AxisValueOf(d: DirAxis): (v: AxisValue)
    requires d.Valid()
    ensures d.to.None? ==> v == Point(IntLitValue(d.from) as real)
    ensures d.to.Some? ==> v == Range(IntLitValue(d.from) as real, IntLitValue(d.to.value) as real)
  {
    if d.to.None? then Point(IntLitValue(d.from) as real)
    else Range(IntLitValue(d.from) as real, IntLitValue(d.to.value) as real)
  }

  function AxesOf(m: map<string, DirAxis>): map<string, AxisValue>
    requires forall k :: k in m ==> m[k].Valid()
  {
    map k | k in m :: AxisValueOf(m[k])
  }

  /** The variants one file of `folder` contributes. */
  function FileVariants(folder: string, file: string): seq<Variant> {
    var (name, ext) := ParsePath(file);
    var path := folder + "/" + file;
    if !FontExt(ext) then []
    else
      var byWeight := match WeightName(name)
        case Some((digits, italic)) =>
          [Variant(path, map["wght" := Point(DecValue(digits) as real), "ital" := Point(if italic then 1.0 else 0.0)])]
        case None => [];
      var byAxes := match AxisSpec(name)
        case Some(m) => [Variant(path, AxesOf(m))]
        case None => [];
      byWeight + byAxes
  }

  /** The variants of a folder listing, file by file (nothing for a missing folder). */
  function FolderVariants(folder: string, files: Option<seq<string>>): seq<Variant>
    decreases if files.Some? then |files.value| else 0
  {
    if files.None? || files.value == [] then []
    else
      var fs := files.value;
      FolderVariants(folder, Some(fs[..|fs| - 1])) + FileVariants(folder, fs[|fs| - 1])
  }

  /* ---------- the loops ---------- */

  /** The loop over the `;`-separated parts, which stops at the first part that does not match. */
  method ParseAxisSpec(name: string) returns (axes: Option<map<string, DirAxis>>)
    ensures axes == AxisSpec(name)
  {
    var parts := Split(name, ';');
    var m: map<string, DirAxis> := map[];
    var i := 0;
    while i < |parts|
      invariant 0 <= i <= |parts|
      invariant AllDefs(parts[..i]) && m == DefsMap(parts[..i])
    {
      var d := AxisDef(parts[i]);
      if d.None? {
        return None;
      }
      DefsSnoc(parts, i);
      m := m[d.value.0 := d.value.1];
      i := i + 1;
    }
    assert parts[..i] == parts;
    axes := Some(m);
  }

  lemma DefsSnoc(parts: seq<string>, i: nat)
    requires i < |parts| && AllDefs(parts[..i]) && AxisDef(parts[i]).Some?
    ensures AllDefs(parts[..i + 1])
    ensures var d := AxisDef(parts[i]).value; DefsMap(parts[..i + 1]) == DefsMap(parts[..i])[d.0 := d.1]
  {
    assert parts[..i + 1][..i] == parts[..i];
    assert forall j :: 0 <= j < i ==> parts[..i + 1][j] == parts[..i][j];
  }

  /** The body of the `forEach`: the variants of one file, by weight name or by axis spec. */
  method ParseFile(folder: string, file: string) returns (vs: seq<Variant>)
    ensures vs == FileVariants(folder, file)
  {
    vs := [];
    var (name, ext) := ParsePath(file);
    if FontExt(ext) {
      var path := folder + "/" + file;
      var w := WeightName(name);
      if w.Some? {
        var italic := if w.value.1 then 1.0 else 0.0;
        vs := vs + [Variant(path, map["wght" := Point(DecValue(w.value.0) as real), "ital" := Point(italic)])];
      }
      var axes := ParseAxisSpec(name);
      if axes.Some? {
        vs := vs + [Variant(path, AxesOf(axes.value))];
      }
    }
  }

  /** The `forEach` over the folder's files. */
  method ListVariants(folder: string, files: Option<seq<string>>) returns (result: seq<Variant>)
    ensures result == FolderVariants(folder, files)
  {
    result := [];
    if files.None? {
      return;
    }
    var fs := files.value;
    var i := 0;
    while i < |fs|
      invariant 0 <= i <= |fs|
      invariant result == FolderVariants(folder, Some(fs[..i]))
    {
      var vs := ParseFile(folder, fs[i]);
      result := result + vs;
      FolderSnoc(folder, fs, i);
      i := i + 1;
    }
    assert fs[..i] == fs;
  }

  lemma FolderSnoc(folder: string, fs: seq<string>, i: nat)
    requires i < |fs|
    ensures FolderVariants(folder, Some(fs[..i + 1])) == FolderVariants(folder, Some(fs[..i])) + FileVariants(folder, fs[i])
  {
    assert fs[..i + 1][..i] == fs[..i];
  }

  /** `DirProvider.create`: a provider when `fontsDir` is not empty, with the lifetime `fontsDirCache ?? 0`. */
  function Create(fontsDir: string, cacheMs: Option<int>): (r: Option<(string, int)>)
    ensures r.Some? <==> fontsDir != ""
    ensures r.Some? ==> r.value.0 == fontsDir && r.value.1 == cacheMs.GetOr(0)
  {
    if fontsDir != "" then Some((fontsDir, cacheMs.GetOr(0))) else None
  }

  /** `DirProvider`: a folder and a per-family cache (lifetime 0 unless configured). */
  class DirProvider {
    const dir: string
    const cache: Cache.Cache<string, seq<Variant>>

    constructor(dir: string, cacheMs: Option<int>)
      ensures this.dir == dir && fresh(cache) && cache.entries == map[]
      ensures cache.defaultDuration == Cache.Finite(cacheMs.GetOr(0))
    {
      this.dir := dir;
      cache := new Cache.Cache(Some(Cache.Finite(cacheMs.GetOr(0))));
    }

    /**
     * `getVariants(family)`: a cached list is returned as it is (an empty one
     * too); otherwise the folder's listing is read and the result stored.
     */
    method GetVariants(family: string, folder: string, files: Option<seq<string>>, now: int)
      returns (result: seq<Variant>)
      modifies cache
      ensures var hit := Cache.Lookup(old(cache.entries), family, now);
        var after := Cache.AfterGet(old(cache.entries), family, now);
        if hit.Some? then result == hit.value && cache.entries == after
        else result == FolderVariants(folder, files) &&
             cache.entries == Cache.Store(after, family, result, cache.defaultDuration, now)
    {
      var cached := cache.Get(family, now);
      if cached.Some? {
        return cached.value;
      }
      result := ListVariants(folder, files);
      cache.Set(family, result, None, now);
    }
  }

  /* ---------- properties ---------- */

  /** Files whose extension is not a font extension contribute nothing. */
  lemma OnlyFontFiles(folder: string, file: string)
    requires !FontExt(ParsePath(file).1)
    ensures FileVariants(folder, file) == []
  {
  }

  /** The two name patterns exclude each other: every file contributes at most one variant. */
  lemma AtMostOneVariant(folder: string, file: string)
    ensures |FileVariants(folder, file)| <= 1
  {
    var name := ParsePath(file).0;
    if WeightName(name).Some? {
      NoAxisSpecForWeight(name);
    }
  }

  /** A font file named by weight gives its weight and italic flag, with its path as the source. */
  lemma WeightFile(folder: string, digits: string, italic: bool, ext: string)
    requires |digits| == 3 && AllDigits(digits) && FontExt(ext)
    ensures var file := digits + (if italic then "i" else "") + ext;
      FileVariants(folder, file) ==
        [Variant(folder + "/" + file,
                 map["wght" := Point(DecValue(digits) as real), "ital" := Point(if italic then 1.0 else 0.0)])]
  {
    var name := digits + (if italic then "i" else "");
    ExtAfterName(name, ext);
    WeightNameOf(digits, italic);
    NoAxisSpecForWeight(name);
  }

  lemma WeightNameOf(digits: string, italic: bool)
    requires |digits| == 3 && AllDigits(digits)
    ensures WeightName(digits + (if italic then "i" else "")) == Some((digits, italic))
  {
    var name := digits + (if italic then "i" else "");
    if italic {
      assert name[..3] == digits;
    } else {
      assert name == digits;
    }
  }

  /** A weight name has no `;`, is too short for an axis part, and so is no axis spec. */
  lemma NoAxisSpecForWeight(name: string)
    requires |name| < 6 && ';' !in name
    ensures AxisSpec(name).None?
  {
    assert IndexOfChar(name, ';').None?;
    assert Split(name, ';') == [name];
    assert AxisDef(name).None?;
  }

  /** A name without dots followed by a font extension parses back into the two. */
  lemma ExtAfterName(name: string, ext: string)
    requires '.' !in name && name != [] && FontExt(ext)
    ensures ParsePath(name + ext) == (name, ext)
  {
    var file := name + ext;
    assert file[|name|] == '.';
    var k := LastDot(file).value;
    assert '.' !in ext[1..];
    assert file[..k] == name && file[k..] == ext;
  }

  /** A name is an axis spec exactly when every `;`-separated part matches; one bad part drops the variant. */
  lemma AxisSpecAllOrNothing(name: string)
    ensures AxisSpec(name).Some? <==> forall i :: 0 <= i < |Split(name, ';')| ==> AxisDef(Split(name, ';')[i]).Some?
  {
  }

  /** A range part reads back its axis and both bounds. */
  lemma AxisRangePart(tag: string, from: int, to: int)
    requires |tag| == 4 && forall i :: 0 <= i < 4 ==> IsLetter(tag[i])
    ensures AxisDef(tag + "," + IntToString(from) + ".." + IntToString(to)) ==
      Some((tag, DirAxis(IntToString(from), Some(IntToString(to)))))
    ensures IntLitValue(IntToString(from)) == from && IntLitValue(IntToString(to)) == to
  {
    var f := IntToString(from);
    var t := IntToString(to);
    IntToStringLit(from);
    IntToStringLit(to);
    var r := f + ".." + t;
    TagPrefix(tag, r);
    assert tag + "," + f + ".." + t == tag + "," + r;
    RangeRest(f, t);
  }

  /** A part `tag,r` splits at its comma into the tag and `r`. */
  lemma TagPrefix(tag: string, r: string)
    requires |tag| == 4 && forall i :: 0 <= i < 4 ==> IsLetter(tag[i])
    requires |r| >= 1
    ensures var def := tag + "," + r;
      |def| >= 6 && def[4] == ',' && def[..4] == tag && def[5..] == r &&
      forall i :: 0 <= i < 4 ==> IsLetter(def[i])
  {
    var def := tag + "," + r;
    assert def[..4] == tag && def[5..] == r;
  }

  /** The text after the comma of a range part splits at its `..` into two literals. */
  lemma RangeRest(f: string, t: string)
    requires IntLit(f) && IntLit(t)
    ensures var r := f + ".." + t;
      !IntLit(r) && IndexOf(r, "..") == Some(|f|) && r[..|f|] == f && r[|f| + 2..] == t
  {
    var r := f + ".." + t;
    assert r[|f|] == '.';
    assert !AllDigits(r) && !AllDigits(r[1..]) by {
      assert r[1..][|f| - 1] == '.';
    }
    assert '.' !in f;
    IndexOfAfter(f, t);
  }

  /** A single-value part reads back its axis and value. */
  lemma AxisValuePart(tag: string, v: int)
    requires |tag| == 4 && forall i :: 0 <= i < 4 ==> IsLetter(tag[i])
    ensures AxisDef(tag + "," + IntToString(v)) == Some((tag, DirAxis(IntToString(v), None)))
  {
    IntToStringLit(v);
    TagPrefix(tag, IntToString(v));
  }

  lemma IntToStringLit(n: int)
    ensures IntLit(IntToString(n)) && IntLitValue(IntToString(n)) == n
  {
    var m: nat := if n < 0 then -n else n;
    NatToStringValue(m);
    if n < 0 {
      assert IntToString(n)[1..] == NatToString(m);
    }
  }

  lemma IndexOfAfter(f: string, t: string)
    requires '.' !in f
    ensures IndexOf(f + ".." + t, "..") == Some(|f|)
  {
    var s := f + ".." + t;
    assert s[|f|..|f| + 2] == "..";
    assert StartsWith(s[|f|..], "..");
    var k := IndexOf(s, "..");
    assert k.Some?;
    assert k.value <= |f|;
    assert s[k.value] == '.';
    assert forall j :: 0 <= j < |f| ==> s[j] == f[j];
  }

  /**
   * As written, an axis given as a single value is stored as
   * `[value, undefined]`, and no requested value matches it: `wght,400.ttf`
   * is never a match, not even for weight 400.
   */
  lemma SingleValueNeverMatchesAsWritten(tag: string, v: int, t: real)
    requires |tag| == 4 && forall i :: 0 <= i < 4 ==> IsLetter(tag[i])
    ensures var d := AxisDef(tag + "," + IntToString(v));
      d.Some? && !MatchAsWritten(StoredAsWritten(d.value.1), t)
  {
    AxisValuePart(tag, v);
  }

  /** Corrected, a single value is stored as that value and matches exactly it. */
  lemma SingleValueMatches(tag: string, v: int, a: Axis, source: string)
    requires a.Name() == tag
    ensures var d := AxisDef(tag + "," + IntToString(v));
      d.Some? && var vr := Variant(source, map[tag := AxisValueOf(d.value.1)]);
      forall t: real :: InRange(vr, a, t) <==> t == v as real
  {
    assert |tag| == 4 && forall i :: 0 <= i < 4 ==> IsLetter(tag[i]) by {
      match a
      case Wdth => case Wght => case Ital => case Slnt =>
    }
    AxisValuePart(tag, v);
    IntToStringLit(v);
  }

  /* ---------- string bounds, as written ---------- */

  /** A value the matcher compares: a number (a requested target) or a bound string stored from a file name. */
  datatype JsVal = JNum(n: real) | JStr(s: string)

  /** A value a comparison can convert to a number: a number, or an integer literal. */
  predicate Numeric(v: JsVal) {
    v.JStr? ==> IntLit(v.s)
  }

  function ToNumber(v: JsVal): real
    requires Numeric(v)
  {
    match v
    case JNum(n) => n
    case JStr(s) => IntLitValue(s) as real
  }

  /** JavaScript's `<` on two strings: code unit order, a proper prefix first. */
  predicate LexLess(a: string, b: string)
    decreases |a|
  {
    if b == [] then false
    else if a == [] then true
    else if a[0] != b[0] then a[0] < b[0]
    else LexLess(a[1..], b[1..])
  }

  /** JavaScript's `a < b`: two strings compare as strings, anything else as numbers. */
  predicate JsLess(a: JsVal, b: JsVal)
    requires Numeric(a) && Numeric(b)
  {
    if a.JStr? && b.JStr? then LexLess(a.s, b.s) else ToNumber(a) < ToNumber(b)
  }

  /** The `normalize` closure of `getBestVariant` on a stored `[from, to]`, as written: a bound is returned as stored. */
  function ClampAsWritten(from: JsVal, to: JsVal, target: real): (c: JsVal)
    requires Numeric(from) && Numeric(to)
    ensures Numeric(c)
    ensures c == from || c == to || c == JNum(target)
  {
    if JsLess(JNum(target), from) then from
    else if JsLess(to, JNum(target)) then to
    else JNum(target)
  }

  /** `variantMatchAxis` on a stored `[from, to]`, as written: `from <= t && t <= to`, each `<=` being `!(>)`. */
  predicate MatchJsAsWritten(from: JsVal, to: JsVal, t: JsVal)
    requires Numeric(from) && Numeric(to) && Numeric(t)
  {
    !JsLess(t, from) && !JsLess(to, t)
  }

  /**
   * As written, `wdth,75..125.ttf` with `font-stretch: extra-expanded` (150):
   * the target is clamped to the string `"125"`, and `"75" <= "125"` is false
   * as strings, so `filterEq` keeps no variant at all.  With the bounds as
   * numbers the clamped target is 125 and the variant matches it.
   */
  lemma StringBoundsAsWritten()
    ensures ClampAsWritten(JStr("75"), JStr("125"), 150.0) == JStr("125")
    ensures !MatchJsAsWritten(JStr("75"), JStr("125"), JStr("125"))
    ensures var v := Variant("wdth,75..125.ttf", map["wdth" := AxisValueOf(DirAxis("75", Some("125")))]);
      Clamp(v, Wdth, 150.0) == 125.0 && InRange(v, Wdth, 125.0)
  {
    assert IntLit("75") && IntLit("125");
    assert DecValue("75") == 75 by {
      assert "75"[..1] == "7";
      assert "7"[..0] == [];
    }
    assert DecValue("125") == 125 by {
      assert "125"[..2] == "12";
      assert "12"[..1] == "1";
      assert "1"[..0] == [];
    }
    assert LexLess("125", "75");
  }

  /** Where the target lies between the bounds as numbers, the code as written keeps it and matches it. */
  lemma InRangeAgreesAsWritten(from: string, to: string, t: real)
    requires IntLit(from) && IntLit(to)
    requires IntLitValue(from) as real <= t <= IntLitValue(to) as real
    ensures ClampAsWritten(JStr(from), JStr(to), t) == JNum(t)
    ensures MatchJsAsWritten(JStr(from), JStr(to), JNum(t))
  {
  }

  /**
   * Corrected: with the bounds of a range part stored as numbers, the target
   * clamped to a variant's non-empty range always lies in that range, so the
   * pass keeps at least that variant.
   */
  lemma NumericBoundsMatch(d: DirAxis, a: Axis, source: string, t: real)
    requires d.Valid() && d.to.Some? && IntLitValue(d.from) <= IntLitValue(d.to.value)
    ensures var v := Variant(source, map[a.Name() := AxisValueOf(d)]);
      InRange(v, a, Clamp(v, a, t))
  {
    var v := Variant(source, map[a.Name() := AxisValueOf(d)]);
    assert NormalizeVariantAxis(v, a) == (IntLitValue(d.from) as real, IntLitValue(d.to.value) as real);
  }
}
