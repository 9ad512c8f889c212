/**
 * src/FontFactory.js: per-character font resolution.
 *
 * Providers, the font loader (`getBufferFromSource` followed by the
 * renderer's `fontParse`, null on any exception) and glyph coverage are
 * oracles held in an `Env`.  Promises are modelled as sequential calls: an
 * in-flight promise stored in a memo table is the memo entry the first
 * request creates.
 *
 * `Resolve` is the reference definition of `getFontForChar` over an
 * explicit memo (the family-variant cache and the font cache) and explicit
 * records (the `missed`, `errors` and `warnings` maps of the processing
 * state; `None` is a missing state object, whose use throws a TypeError).
 * `getBestVariant` throws a TypeError too, on the lists `BestThrows` names.
 * The class `FontFactory` below computes the same thing imperatively.
 */
module FontResolution {
  import opened Wrappers
  import opened FontStyle
  import Cache
  import opened Numbers

  /** A parsed font: its family, the variant it was loaded from and the characters it has glyphs for. */
  datatype Font = Font(family: string, variant: Variant, glyphs: set<char>) {
    predicate HasGlyph(c: char) { c in glyphs }
  }

  /** `noFontAction`: `'error'`, `'skipNode'`, or anything else. */
  datatype NoFontAction = Ignore | Error | SkipNode

  /** The glyph of `fallbackGlyph`: a character, or a number to pass to `String.fromCodePoint`. */
  datatype Glyph = GlyphChar(c: char) | CodePoint(n: JsNum)

  /** The session parameters `getFontForChar` reads. */
  datatype Params = Params(
    familyClasses: Option<map<string, seq<string>>>,
    fallbackFamilies: Option<seq<string>>,
    fallbackGlyph: Option<(string, Glyph)>,
    noFontAction: NoFontAction)

  /**
   * `String.fromCodePoint(n)`: the character with that code point, or `None`
   * where it throws a RangeError (`NaN`, a fraction, a negative number, or a
   * number above `0x10FFFF`). A surrogate code point is not a `char` here and
   * gives `None` as well.
   */
  function FromCodePoint(n: JsNum): (r: Option<char>)
    ensures r.Some? ==> n.Num? && n.r == (r.value as int) as real
    ensures n.NaN? || n.r != n.r.Floor as real || n.r < 0.0 || n.r > 1114111.0 ==> r.None?
  {
    if n.NaN? || n.r != n.r.Floor as real then None
    else
      var k := n.r.Floor;
      if 0 <= k < 0xD800 || 0xE000 <= k < 0x11_0000 then Some(k as char) else None
  }

  /** The fallback character: a character as given, a number through `String.fromCodePoint`. */
  function GlyphOf(g: Glyph): (r: Option<char>)
    ensures g.GlyphChar? ==> r == Some(g.c)
    ensures g.CodePoint? ==> r == FromCodePoint(g.n)
  {
    match g
    case GlyphChar(c) => Some(c)
    case CodePoint(n) => FromCodePoint(n)
  }

  /**
   * The environment: parameters, the session providers' `getVariants`, the
   * font loader, a rank that orders family classes (the source recurses
   * without bound through a cyclic class map) and whether the recursion
   * into a family class is given the processing state.
   */
  datatype Env = Env(
    params: Params,
    providers: seq<string -> seq<Variant>>,
    loader: (string, Variant) -> Option<Font>,
    classRank: map<string, nat>,
    classesShareState: bool)

  /** `getFontKey`: the family and the four normalised default axes. */
  datatype FontKey = FontKey(family: string, wdth: (real, real), wght: (real, real), ital: (real, real), slnt: (real, real))

  function GetFontKey(family: string, v: Variant): (k: FontKey)
    ensures k.family == family
  {
    FontKey(family, NormalizeVariantAxis(v, Wdth), NormalizeVariantAxis(v, Wght),
            NormalizeVariantAxis(v, Ital), NormalizeVariantAxis(v, Slnt))
  }

  /** `FontForChar`. */
  datatype FontForChar = FontForChar(font: Option<Font>, ch: char, style: Style, isFallback: bool)

  /**
   * The `undefined` a TypeError reads a property of: a missing processing
   * state, or the `variants[0]` of a matcher pass left with no variant.
   */
  datatype Undefined = MissingState | EmptyPass

  /** A normal return, a thrown `NoFontError`, a thrown TypeError, or the RangeError of `String.fromCodePoint`. */
  datatype Outcome = Found(result: FontForChar) | NoFontError(ch: char, style: Style, skipNode: bool) | TypeError(cause: Undefined)
                   | RangeError

  datatype LoadError = LoadError(family: string, variant: Variant)
  datatype Warning = Warning(key: StyleKey, family: string, axes: Axes, variant: Variant)

  /** The three insertion-ordered maps of the processing state, as key-unique sequences. */
  datatype Records = Records(missed: seq<string>, errors: seq<LoadError>, warnings: seq<Warning>)

  /** The family-variant cache (`#cache`) and the font cache (`#fonts`). */
  datatype Memo = Memo(families: map<string, seq<Variant>>, fonts: map<FontKey, Option<Font>>)

  /** An intermediate result: `out` is `None` while resolution goes on. */
  datatype Step = Step(out: Option<Outcome>, memo: Memo, rec: Option<Records>)

  /** A final result. */
  datatype Run = Run(out: Outcome, memo: Memo, rec: Option<Records>)

  /** `loadFamilyVariants`: every provider's list, concatenated in provider order. */
  function Collected(providers: seq<string -> seq<Variant>>, family: string): seq<Variant>
    decreases |providers|
  {
    if providers == [] then []
    else Collected(providers[..|providers| - 1], family) + providers[|providers| - 1](family)
  }

  /** `getFamilyVariants`: the cached list, or the providers' list, which is then cached. */
  function FamilyVariants(env: Env, memo: Memo, family: string): (r: (seq<Variant>, Memo))
    ensures family in r.1.families && r.1.families[family] == r.0
    ensures r.1.fonts == memo.fonts
  {
    if family in memo.families then (memo.families[family], memo)
    else
      var vs := Collected(env.providers, family);
      (vs, memo.(families := memo.families[family := vs]))
  }

  /** `getBestVariant` sorts the cached array in place by the width pass (a non-empty one). */
  function AfterBest(memo: Memo, family: string, axes: Axes, vs: seq<Variant>): Memo {
    if vs == [] then memo
    else memo.(families := memo.families[family := SortBy(WidthPass(axes), vs)])
  }

  /** `getFontForVariant`: the cached font for the variant's key, or a load, which is then cached. */
  function FontFor(env: Env, memo: Memo, family: string, v: Variant): (r: (Option<Font>, Memo))
    ensures GetFontKey(family, v) in r.1.fonts && r.1.fonts[GetFontKey(family, v)] == r.0
    ensures r.1.families == memo.families
  {
    var key := GetFontKey(family, v);
    if key in memo.fonts then (memo.fonts[key], memo)
    else
      var f := env.loader(family, v);
      (f, memo.(fonts := memo.fonts[key := f]))
  }

  predicate HasError(r: Records, v: Variant) {
    exists i :: 0 <= i < |r.errors| && r.errors[i].variant == v
  }

  predicate HasWarning(r: Records, key: StyleKey) {
    exists i :: 0 <= i < |r.warnings| && r.warnings[i].key == key
  }

  /** `state.missed.set(family, true)`: a key already present keeps its place. */
  function AddMissed(r: Records, family: string): Records {
    if family in r.missed then r else r.(missed := r.missed + [family])
  }

  /** `state.errors.set(variant, …)` guarded by `!state.errors.get(variant)`. */
  function AddError(r: Records, family: string, v: Variant): Records {
    if HasError(r, v) then r else r.(errors := r.errors + [LoadError(family, v)])
  }

  /** `state.warnings.set(key, …)` guarded by `!state.warnings.get(key)`. */
  function AddWarning(r: Records, family: string, axes: Axes, v: Variant): Records {
    var key := GetKey(family, axes);
    if HasWarning(r, key) then r else r.(warnings := r.warnings + [Warning(key, family, axes, v)])
  }

  function Classes(env: Env): map<string, seq<string>> {
    env.params.familyClasses.GetOr(map[])
  }

  /** Family classes refer only to classes of lower rank. */
  predicate Ranked(env: Env) {
    var cls := Classes(env);
    forall c :: c in cls ==> (c in env.classRank &&
      forall i :: 0 <= i < |cls[c]| && cls[c][i] in cls ==>
        cls[c][i] in env.classRank && env.classRank[cls[c][i]] < env.classRank[c])
  }

  function Rank(env: Env, family: string): nat {
    if family in Classes(env) && family in env.classRank then env.classRank[family] + 1 else 0
  }

  function MaxRank(env: Env, fams: seq<string>): (r: nat)
    ensures forall i :: 0 <= i < |fams| ==> Rank(env, fams[i]) <= r
  {
    if fams == [] then 0
    else
      var rest := MaxRank(env, fams[1..]);
      var first := Rank(env, fams[0]);
      if first > rest then first else rest
  }

  lemma ClassRankDecreases(env: Env, family: string)
    requires Ranked(env) && family in Classes(env)
    ensures MaxRank(env, Classes(env)[family]) < Rank(env, family)
  {
    var members := Classes(env)[family];
    ClassMembersBelow(env, family, members);
  }

  lemma {:induction false} ClassMembersBelow(env: Env, family: string, members: seq<string>)
    requires Ranked(env) && family in Classes(env)
    requires forall i :: 0 <= i < |members| ==> members[i] in Classes(env)[family]
    ensures MaxRank(env, members) < Rank(env, family)
    decreases |members|
  {
    if members != [] {
      ClassMembersBelow(env, family, members[1..]);
      var m := members[0];
      var cls := Classes(env);
      var i :| 0 <= i < |cls[family]| && cls[family][i] == m;
    }
  }

  lemma MaxRankTail(env: Env, fams: seq<string>)
    requires fams != []
    ensures MaxRank(env, fams[1..]) <= MaxRank(env, fams)
  {
  }

  /**
   * `getFontForChar`: resolve the families (or the style's families), then,
   * only when no family list was given, the fallback chain.
   */
  function Resolve(env: Env, memo: Memo, rec: Option<Records>, c: char, style: Style,
                   families: Option<seq<string>>, isFallback: bool): (r: Run)
    requires Ranked(env)
    ensures r.out.NoFontError? ==> families.None? && env.params.fallbackGlyph.None? && env.params.noFontAction != Ignore
    ensures r.out.RangeError? ==> families.None? && env.params.fallbackGlyph.Some? && GlyphOf(env.params.fallbackGlyph.value.1).None?
    decreases if families.None? then 1 else 0, MaxRank(env, families.GetOr(style.families)),
              |families.GetOr(style.families)| + 1
  {
    var s := ResolveList(env, memo, rec, c, style, families.GetOr(style.families), isFallback);
    if s.out.Some? then Run(s.out.value, s.memo, s.rec)
    else if families.Some? then Run(Found(FontForChar(None, c, style, isFallback)), s.memo, s.rec)
    else Fallback(env, s.memo, s.rec, c, style, isFallback)
  }

  /** The fallback chain: fallback families, then the fallback glyph, then the no-font action. */
  function Fallback(env: Env, memo: Memo, rec: Option<Records>, c: char, style: Style, isFallback: bool): (r: Run)
    requires Ranked(env)
    ensures r.out.NoFontError? ==> env.params.fallbackGlyph.None? && env.params.noFontAction != Ignore
    ensures r.out.RangeError? ==> env.params.fallbackGlyph.Some? && GlyphOf(env.params.fallbackGlyph.value.1).None?
    decreases 1, 0, 0
  {
    var p := env.params;
    var tried := p.fallbackFamilies.Some? && |p.fallbackFamilies.value| > 0;
    var s := if tried then Resolve(env, memo, rec, c, style, p.fallbackFamilies, false)
             else Run(Found(FontForChar(None, c, style, isFallback)), memo, rec);
    if tried && (s.out.TypeError? || (s.out.Found? && s.out.result.font.Some?)) then s
    else if p.fallbackGlyph.Some? then
      var (family, g) := p.fallbackGlyph.value;
      match GlyphOf(g)
      case None => Run(RangeError, s.memo, s.rec)
      case Some(glyph) => Resolve(env, s.memo, s.rec, glyph, Style([family], style.axes, style.features), Some([family]), true)
    else if p.noFontAction != Ignore then Run(NoFontError(c, style, p.noFontAction == SkipNode), s.memo, s.rec)
    else Run(Found(FontForChar(None, c, style, isFallback)), s.memo, s.rec)
  }

  /** The `for` loop over families: the first family that yields an outcome ends it. */
  function ResolveList(env: Env, memo: Memo, rec: Option<Records>, c: char, style: Style,
                       fams: seq<string>, isFallback: bool): (r: Step)
    requires Ranked(env)
    ensures r.out.Some? ==> r.out.value.Found? || r.out.value.TypeError?
    ensures fams == [] ==> r.out.None?
    decreases 0, MaxRank(env, fams), |fams|
  {
    if fams == [] then Step(None, memo, rec)
    else
      MaxRankTail(env, fams);
      var s := TryFamily(env, memo, rec, c, style, fams[0], isFallback);
      if s.out.Some? then s
      else ResolveList(env, s.memo, s.rec, c, style, fams[1..], isFallback)
  }

  /** One iteration of the loop: the family class first, then the family's own best variant. */
  function TryFamily(env: Env, memo: Memo, rec: Option<Records>, c: char, style: Style,
                     family: string, isFallback: bool): (r: Step)
    requires Ranked(env)
    ensures r.out.Some? ==> r.out.value.Found? || r.out.value.TypeError?
    decreases 0, Rank(env, family), 0
  {
    if family in Classes(env) then
      ClassRankDecreases(env, family);
      var inner := Resolve(env, memo, if env.classesShareState then rec else None,
                           c, style, Some(Classes(env)[family]), false);
      if inner.out.TypeError? || (inner.out.Found? && inner.out.result.font.Some?) then
        Step(Some(inner.out), inner.memo, if env.classesShareState then inner.rec else rec)
      else OwnVariant(env, inner.memo, if env.classesShareState then inner.rec else rec, c, style, family, isFallback)
    else OwnVariant(env, memo, rec, c, style, family, isFallback)
  }

  /**
   * The family's own variants and best variant, recording the family as
   * missed when it has none; `getBestVariant` throws, after sorting the
   * cached list, where a pass before the last one leaves no variant.
   */
  function OwnVariant(env: Env, memo: Memo, rec: Option<Records>, c: char, style: Style,
                      family: string, isFallback: bool): (r: Step)
    ensures r.out.Some? && r.out.value.Found? ==> r.out.value.result.font.Some? && r.out.value.result.ch == c
    ensures r.out.Some? ==> r.out.value.Found? || r.out.value.TypeError?
  {
    var (vs, m1) := FamilyVariants(env, memo, family);
    if vs == [] && rec.None? then Step(Some(TypeError(MissingState)), m1, rec)
    else
      var rec1 := if vs == [] then Some(AddMissed(rec.value, family)) else rec;
      var best := BestVariant(style.axes, vs);
      var m2 := AfterBest(m1, family, style.axes, vs);
      if BestThrows(style.axes, vs) then Step(Some(TypeError(EmptyPass)), m2, rec1)
      else if best.None? then Step(None, m2, rec1)
      else UseVariant(env, m2, rec1, c, style, family, best.value, isFallback)
  }

  /** The best variant's font and glyph test, recording a failed load or a style mismatch. */
  function UseVariant(env: Env, memo: Memo, rec: Option<Records>, c: char, style: Style,
                      family: string, v: Variant, isFallback: bool): (r: Step)
    ensures r.out.Some? && r.out.value.Found? ==> r.out.value.result.font.Some? && r.out.value.result.font.value.HasGlyph(c) && r.out.value.result.ch == c
    ensures r.out.Some? ==> r.out.value.Found? || r.out.value.TypeError?
    ensures r.out.Some? && r.out.value.TypeError? ==> rec.None? && r.out.value.cause.MissingState?
  {
    var (font, m) := FontFor(env, memo, family, v);
    if font.None? then
      if rec.None? then Step(Some(TypeError(MissingState)), m, rec)
      else Step(None, m, Some(AddError(rec.value, family, v)))
    else if !font.value.HasGlyph(c) then Step(None, m, rec)
    else
      var found := Found(FontForChar(font, c, style, isFallback));
      if Matches(style.axes, v) then Step(Some(found), m, rec)
      else if rec.None? then Step(Some(TypeError(MissingState)), m, rec)
      else Step(Some(found), m, Some(AddWarning(rec.value, family, style.axes, v)))
  }

  /** One step of the family loop. */
  lemma ResolveListStep(env: Env, memo: Memo, rec: Option<Records>, c: char, style: Style,
                        fams: seq<string>, i: int, isFallback: bool)
    requires Ranked(env) && 0 <= i < |fams|
    ensures var s := TryFamily(env, memo, rec, c, style, fams[i], isFallback);
      ResolveList(env, memo, rec, c, style, fams[i..], isFallback) ==
      if s.out.Some? then s else ResolveList(env, s.memo, s.rec, c, style, fams[i + 1..], isFallback)
  {
    assert fams[i..][0] == fams[i] && fams[i..][1..] == fams[i + 1..];
  }
}

module FontFactory {
  import opened Wrappers
  import opened FontStyle
  import Cache
  import opened FontResolution

  /** The `missed`, `errors` and `warnings` maps of `SessionProcessState`. */
  class ProcessState {
    var missed: seq<string>
    var errors: seq<LoadError>
    var warnings: seq<Warning>

    function Recs(): Records
      reads this
    {
      Records(missed, errors, warnings)
    }

    constructor ()
      ensures Recs() == Records([], [], [])
    {
      missed, errors, warnings := [], [], [];
    }

    method RecordMissed(family: string)
      modifies this
      ensures Recs() == AddMissed(old(Recs()), family)
    {
      if family !in missed {
        missed := missed + [family];
      }
    }

    method RecordError(family: string, v: Variant)
      modifies this
      ensures Recs() == AddError(old(Recs()), family, v)
    {
      if !HasError(Recs(), v) {
        errors := errors + [LoadError(family, v)];
      }
    }

    method RecordWarning(family: string, axes: Axes, v: Variant)
      modifies this
      ensures Recs() == AddWarning(old(Recs()), family, axes, v)
    {
      var key := GetKey(family, axes);
      if !HasWarning(Recs(), key) {
        warnings := warnings + [Warning(key, family, axes, v)];
      }
    }
  }

  /** The records of a state object; `None` for a missing one. */
  function RecordsOf(state: ProcessState?): Option<Records>
    reads state
  {
    if state == null then None else Some(state.Recs())
  }

  predicate NoDup<T(==)>(s: seq<T>) {
    forall i, j :: 0 <= i < j < |s| ==> s[i] != s[j]
  }

  /** `getBestVariant` on a fresh array holding `vs`: the best variant, whether it throws, and the array's new contents. */
  method SortedBest(style: Style, vs: seq<Variant>) returns (best: Option<Variant>, throws: bool, sorted: seq<Variant>)
    ensures best == BestVariant(style.axes, vs)
    ensures throws == BestThrows(style.axes, vs)
    ensures sorted == if vs == [] then [] else SortBy(WidthPass(style.axes), vs)
  {
    var a := new Variant[|vs|](i requires 0 <= i < |vs| => vs[i]);
    assert a[..] == vs;
    best, throws := GetBestVariant(style, a);
    sorted := a[..];
  }

  class FontFactory {
    const env: Env
    /** `#cache`: family to variant list (the arrays `getBestVariant` sorts in place). */
    var familyCache: map<string, seq<Variant>>
    /** `#fonts`: font key to loaded font or null, entries kept forever. */
    const fonts: Cache.Cache<FontKey, Option<Font>>
    /** Families for which the providers were asked, in order. */
    ghost var providerCalls: seq<string>
    /** Font keys for which the loader ran, in order. */
    ghost var fontLoads: seq<FontKey>

    ghost predicate Valid()
      reads this, fonts
    {
      Ranked(env) &&
      fonts.defaultDuration == Cache.Infinite &&
      (forall k :: k in fonts.entries ==> fonts.entries[k].duration == Cache.Infinite) &&
      NoDup(providerCalls) && (forall f :: f in familyCache <==> f in providerCalls) &&
      NoDup(fontLoads) && (forall k :: k in fonts.entries <==> k in fontLoads)
    }

    ghost function MemoOf(): Memo
      reads this, fonts
    {
      Memo(familyCache, map k | k in fonts.entries :: fonts.entries[k].value)
    }

    constructor (env: Env)
      requires Ranked(env)
      ensures Valid() && this.env == env && fresh(fonts)
      ensures MemoOf() == Memo(map[], map[]) && providerCalls == [] && fontLoads == []
    {
      this.env := env;
      familyCache := map[];
      fonts := new Cache.Cache(None);
      providerCalls := [];
      fontLoads := [];
    }

    /** The `reduce` over the providers' lists in `loadFamilyVariants`. */
    method ConcatProviderResults(family: string) returns (vs: seq<Variant>)
      ensures vs == Collected(env.providers, family)
    {
      var ps := env.providers;
      vs := [];
      var i := 0;
      while i < |ps|
        invariant 0 <= i <= |ps|
        invariant vs == Collected(ps[..i], family)
      {
        assert ps[..i + 1][..i] == ps[..i];
        vs := vs + ps[i](family);
        i := i + 1;
      }
      assert ps[..|ps|] == ps;
    }

    /** `loadFamilyVariants`: ask every provider, then cache the concatenation. */
    method LoadFamilyVariants(family: string) returns (vs: seq<Variant>)
      requires Valid() && family !in familyCache
      modifies this
      ensures Valid()
      ensures vs == Collected(env.providers, family)
      ensures familyCache == old(familyCache)[family := vs]
      ensures providerCalls == old(providerCalls) + [family] && fontLoads == old(fontLoads)
    {
      vs := ConcatProviderResults(family);
      familyCache := familyCache[family := vs];
      providerCalls := providerCalls + [family];
    }

    /** `getFamilyVariants`: a cached family never reaches the providers again. */
    method GetFamilyVariants(family: string) returns (vs: seq<Variant>)
      requires Valid()
      modifies this
      ensures Valid()
      ensures (vs, MemoOf()) == FamilyVariants(env, old(MemoOf()), family)
      ensures providerCalls == if family in old(familyCache) then old(providerCalls) else old(providerCalls) + [family]
      ensures fontLoads == old(fontLoads)
    {
      if family in familyCache {
        return familyCache[family];
      }
      vs := LoadFamilyVariants(family);
    }

    /** `getFontForVariant`: a font key is loaded at most once; a failed load is cached too. */
    method GetFontForVariant(family: string, v: Variant, now: int) returns (f: Option<Font>)
      requires Valid()
      modifies this, fonts
      ensures Valid()
      ensures (f, MemoOf()) == FontFor(env, old(MemoOf()), family, v)
      ensures fontLoads == if GetFontKey(family, v) in old(fonts.entries) then old(fontLoads)
                           else old(fontLoads) + [GetFontKey(family, v)]
      ensures providerCalls == old(providerCalls)
    {
      var key := GetFontKey(family, v);
      var cached := fonts.Get(key, now);
      if cached.Some? {
        return cached.value;
      }
      f := env.loader(family, v);
      ghost var before := fonts.entries;
      fonts.Set(key, f, None, now);
      fontLoads := fontLoads + [key];
      assert (map k | k in fonts.entries :: fonts.entries[k].value) ==
             (map k | k in before :: before[k].value)[key := f];
    }

    /** `getBestVariant` on the cached array of the family, which it leaves sorted by the width pass. */
    method BestOfCached(style: Style, family: string, vs: seq<Variant>) returns (best: Option<Variant>, throws: bool)
      requires Valid() && family in familyCache && familyCache[family] == vs
      modifies this
      ensures Valid()
      ensures best == BestVariant(style.axes, vs)
      ensures throws == BestThrows(style.axes, vs)
      ensures MemoOf() == AfterBest(old(MemoOf()), family, style.axes, vs)
      ensures providerCalls == old(providerCalls) && fontLoads == old(fontLoads)
    {
      var sorted;
      best, throws, sorted := SortedBest(style, vs);
      familyCache := familyCache[family := sorted];
      if vs == [] {
        assert familyCache == old(familyCache);
      }
    }

    /** The family's own variants and best variant (the body of the `for` loop after the class). */
    method ResolveOwnVariant(c: char, style: Style, family: string, state: ProcessState?, isFallback: bool, now: int)
      returns (o: Option<Outcome>)
      requires Valid()
      modifies this, fonts, state
      ensures Valid()
      ensures var s := OwnVariant(env, old(MemoOf()), old(RecordsOf(state)), c, style, family, isFallback);
              o == s.out && MemoOf() == s.memo && RecordsOf(state) == s.rec
    {
      var vs := GetFamilyVariants(family);
      if vs == [] {
        if state == null {
          return Some(TypeError(MissingState));
        }
        state.RecordMissed(family);
      }
      var best, throws := BestOfCached(style, family, vs);
      if throws {
        return Some(TypeError(EmptyPass));
      }
      if best.None? {
        return None;
      }
      o := ResolveVariant(c, style, family, best.value, state, isFallback, now);
    }

    /** The best variant's font, glyph test and records. */
    method ResolveVariant(c: char, style: Style, family: string, v: Variant, state: ProcessState?,
                          isFallback: bool, now: int) returns (o: Option<Outcome>)
      requires Valid()
      modifies this, fonts, state
      ensures Valid()
      ensures var s := UseVariant(env, old(MemoOf()), old(RecordsOf(state)), c, style, family, v, isFallback);
              o == s.out && MemoOf() == s.memo && RecordsOf(state) == s.rec
    {
      var font := GetFontForVariant(family, v, now);
      if font.None? {
        if state == null {
          return Some(TypeError(MissingState));
        }
        state.RecordError(family, v);
        return None;
      }
      if !font.value.HasGlyph(c) {
        return None;
      }
      var matched := Match(style, v);
      if !matched {
        if state == null {
          return Some(TypeError(MissingState));
        }
        state.RecordWarning(family, style.axes, v);
      }
      return Some(Found(FontForChar(font, c, style, isFallback)));
    }

    /** One iteration of the `for` loop: the family class (if any) first, then the family itself. */
    method ResolveFamily(c: char, style: Style, fams: seq<string>, i: nat, state: ProcessState?,
                         isFallback: bool, now: int) returns (o: Option<Outcome>)
      requires Valid() && i < |fams|
      modifies this, fonts, state
      ensures Valid()
      ensures var s := ResolveList(env, old(MemoOf()), old(RecordsOf(state)), c, style, fams[i..], isFallback);
              if o.Some? then o == s.out && MemoOf() == s.memo && RecordsOf(state) == s.rec
              else s == ResolveList(env, MemoOf(), RecordsOf(state), c, style, fams[i + 1..], isFallback)
      decreases 0, Rank(env, fams[i]), 0
    {
      ResolveListStep(env, MemoOf(), RecordsOf(state), c, style, fams, i, isFallback);
      var family := fams[i];
      if family in Classes(env) {
        ClassRankDecreases(env, family);
        var inner := GetFontForChar(c, style, Some(Classes(env)[family]),
                                    if env.classesShareState then state else null, false, now);
        if inner.TypeError? || (inner.Found? && inner.result.font.Some?) {
          return Some(inner);
        }
      }
      o := ResolveOwnVariant(c, style, family, state, isFallback, now);
    }

    /** `getFontForChar`. */
    method GetFontForChar(c: char, style: Style, families: Option<seq<string>>, state: ProcessState?,
                          isFallback: bool, now: int) returns (r: Outcome)
      requires Valid()
      modifies this, fonts, state
      ensures Valid()
      ensures var run := Resolve(env, old(MemoOf()), old(RecordsOf(state)), c, style, families, isFallback);
              r == run.out && MemoOf() == run.memo && RecordsOf(state) == run.rec
      decreases if families.None? then 1 else 0, MaxRank(env, families.GetOr(style.families)),
                |families.GetOr(style.families)| + 1
    {
      var o := ResolveFamilies(c, style, families.GetOr(style.families), state, isFallback, now);
      if o.Some? {
        return o.value;
      }
      if families.Some? {
        return Found(FontForChar(None, c, style, isFallback));
      }
      r := ResolveFallback(c, style, state, isFallback, now);
    }

    /** The `for` loop over the families, left at the first family that yields an outcome. */
    method ResolveFamilies(c: char, style: Style, fams: seq<string>, state: ProcessState?,
                           isFallback: bool, now: int) returns (o: Option<Outcome>)
      requires Valid()
      modifies this, fonts, state
      ensures Valid()
      ensures var s := ResolveList(env, old(MemoOf()), old(RecordsOf(state)), c, style, fams, isFallback);
              o == s.out && MemoOf() == s.memo && RecordsOf(state) == s.rec
      decreases 0, MaxRank(env, fams), |fams|
    {
      ghost var m0, r0 := MemoOf(), RecordsOf(state);
      var i := 0;
      while i < |fams|
        invariant 0 <= i <= |fams|
        invariant Valid()
        invariant ResolveList(env, m0, r0, c, style, fams, isFallback) ==
                  ResolveList(env, MemoOf(), RecordsOf(state), c, style, fams[i..], isFallback)
      {
        ghost var s := ResolveList(env, MemoOf(), RecordsOf(state), c, style, fams[i..], isFallback);
        var step := ResolveFamily(c, style, fams, i, state, isFallback, now);
        if step.Some? {
          assert step == s.out;
          return step;
        }
        assert fams[i..][1..] == fams[i + 1..];
        i := i + 1;
      }
      assert fams[|fams|..] == [];
      return None;
    }

    /** The fallback chain run when no family list was given. */
    method ResolveFallback(c: char, style: Style, state: ProcessState?, isFallback: bool, now: int)
      returns (r: Outcome)
      requires Valid()
      modifies this, fonts, state
      ensures Valid()
      ensures var run := Fallback(env, old(MemoOf()), old(RecordsOf(state)), c, style, isFallback);
              r == run.out && MemoOf() == run.memo && RecordsOf(state) == run.rec
      decreases 1, 0, 0
    {
      var p := env.params;
      if p.fallbackFamilies.Some? && |p.fallbackFamilies.value| > 0 {
        var result := GetFontForChar(c, style, p.fallbackFamilies, state, false, now);
        if result.TypeError? || (result.Found? && result.result.font.Some?) {
          return result;
        }
      }
      if p.fallbackGlyph.Some? {
        var (family, g) := p.fallbackGlyph.value;
        var glyph := GlyphOf(g);
        if glyph.None? {
          return RangeError;
        }
        r := GetFontForChar(glyph.value, Style([family], style.axes, style.features), Some([family]), state, true, now);
        return;
      }
      if p.noFontAction != Ignore {
        return NoFontError(c, style, p.noFontAction == SkipNode);
      }
      return Found(FontForChar(None, c, style, isFallback));
    }
  }
}
