/**
 * Properties of `getFontForChar` (module FontResolution): what a returned
 * font guarantees, when `NoFontError` and TypeError can arise, how the
 * fallback chain marks its results, and that the first usable family wins.
 */
module FontResolutionLemmas {
  import opened Wrappers
  import opened FontStyle
  import opened FontResolution
  import FontStyleLemmas
  import Numbers

  /** Every variant the providers give has a non-empty range on each default axis. */
  ghost predicate ProvidersWellFormed(env: Env) {
    forall f: string :: FontStyleLemmas.AllWellFormed(Collected(env.providers, f))
  }

  /**
   * What a final result of `getFontForChar` guarantees. A TypeError comes
   * from a missing state, or from `getBestVariant` on a family list with a
   * malformed variant (the cache is sound in the sense of `MemoSound` below).
   */
  ghost predicate RunOk(env: Env, memo: Memo, rec: Option<Records>, c: char, style: Style, families: Option<seq<string>>,
                        isFallback: bool, run: Run)
  {
    var o := run.out;
    var glyph := env.params.fallbackGlyph;
    (rec.Some? ==> run.rec.Some?) &&
    (o.Found? && o.result.font.Some? ==> o.result.font.value.HasGlyph(o.result.ch)) &&
    (o.Found? ==> o.result.ch == c || (families.None? && glyph.Some? && GlyphOf(glyph.value.1) == Some(o.result.ch))) &&
    (o.Found? && o.result.isFallback && !isFallback ==>
       families.None? && glyph.Some? && GlyphOf(glyph.value.1) == Some(o.result.ch)) &&
    (o.RangeError? ==> families.None? && glyph.Some? && GlyphOf(glyph.value.1).None?) &&
    (o.NoFontError? ==>
       families.None? && glyph.None? && env.params.noFontAction != Ignore &&
       o == NoFontError(c, style, env.params.noFontAction == SkipNode)) &&
    (o.TypeError? && o.cause.MissingState? ==> rec.None? || !env.classesShareState) &&
    (o.TypeError? && o.cause.EmptyPass? ==> !(MemoSound(env, memo) && ProvidersWellFormed(env)))
  }

  /** What an early exit from the family loop guarantees: a font with the glyph, or a TypeError as in `RunOk`. */
  ghost predicate StepOk(env: Env, memo: Memo, rec: Option<Records>, c: char, isFallback: bool, s: Step) {
    (rec.Some? ==> s.rec.Some?) &&
    (s.out.Some? ==>
      (s.out.value.Found? && s.out.value.result.font.Some? && s.out.value.result.ch == c &&
       s.out.value.result.font.value.HasGlyph(c) && (s.out.value.result.isFallback ==> isFallback)) ||
      (s.out.value.TypeError? && s.out.value.cause.MissingState? && (rec.None? || !env.classesShareState)) ||
      (s.out.value.TypeError? && s.out.value.cause.EmptyPass? && !(MemoSound(env, memo) && ProvidersWellFormed(env))))
  }

  lemma {:induction false} ResolveOk(env: Env, memo: Memo, rec: Option<Records>, c: char, style: Style,
                                     families: Option<seq<string>>, isFallback: bool)
    requires Ranked(env)
    ensures RunOk(env, memo, rec, c, style, families, isFallback, Resolve(env, memo, rec, c, style, families, isFallback))
    decreases if families.None? then 1 else 0, MaxRank(env, families.GetOr(style.families)),
              |families.GetOr(style.families)| + 1
  {
    var fams := families.GetOr(style.families);
    ResolveListOk(env, memo, rec, c, style, fams, isFallback);
    var s := ResolveList(env, memo, rec, c, style, fams, isFallback);
    if s.out.None? && families.None? {
      ResolveListState(env, memo, rec, c, style, fams, isFallback);
      FallbackOk(env, s.memo, s.rec, c, style, isFallback);
    }
  }

  lemma {:induction false} FallbackOk(env: Env, memo: Memo, rec: Option<Records>, c: char, style: Style, isFallback: bool)
    requires Ranked(env)
    ensures RunOk(env, memo, rec, c, style, None, isFallback, Fallback(env, memo, rec, c, style, isFallback))
    decreases 1, 0, 0
  {
    var p := env.params;
    var tried := p.fallbackFamilies.Some? && |p.fallbackFamilies.value| > 0;
    if tried {
      ResolveOk(env, memo, rec, c, style, p.fallbackFamilies, false);
      ResolveState(env, memo, rec, c, style, p.fallbackFamilies, false);
    }
    var s := if tried then Resolve(env, memo, rec, c, style, p.fallbackFamilies, false)
             else Run(Found(FontForChar(None, c, style, isFallback)), memo, rec);
    if !(tried && (s.out.TypeError? || (s.out.Found? && s.out.result.font.Some?))) && p.fallbackGlyph.Some? {
      var (family, g) := p.fallbackGlyph.value;
      if GlyphOf(g).Some? {
        ResolveOk(env, s.memo, s.rec, GlyphOf(g).value, Style([family], style.axes, style.features), Some([family]), true);
      }
    }
  }

  lemma {:induction false} ResolveListOk(env: Env, memo: Memo, rec: Option<Records>, c: char, style: Style,
                                         fams: seq<string>, isFallback: bool)
    requires Ranked(env)
    ensures StepOk(env, memo, rec, c, isFallback, ResolveList(env, memo, rec, c, style, fams, isFallback))
    ensures ResolveList(env, memo, rec, c, style, fams, isFallback).out.Some? ==>
      !ResolveList(env, memo, rec, c, style, fams, isFallback).out.value.NoFontError?
    decreases 0, MaxRank(env, fams), |fams|
  {
    if fams != [] {
      MaxRankTail(env, fams);
      TryFamilyOk(env, memo, rec, c, style, fams[0], isFallback);
      var s := TryFamily(env, memo, rec, c, style, fams[0], isFallback);
      if s.out.None? {
        TryFamilyState(env, memo, rec, c, style, fams[0], isFallback);
        ResolveListOk(env, s.memo, s.rec, c, style, fams[1..], isFallback);
      }
    }
  }

  lemma {:induction false} TryFamilyOk(env: Env, memo: Memo, rec: Option<Records>, c: char, style: Style,
                                       family: string, isFallback: bool)
    requires Ranked(env)
    ensures StepOk(env, memo, rec, c, isFallback, TryFamily(env, memo, rec, c, style, family, isFallback))
    decreases 0, Rank(env, family), 0
  {
    if family in Classes(env) {
      ClassRankDecreases(env, family);
      var inner := Resolve(env, memo, if env.classesShareState then rec else None,
                           c, style, Some(Classes(env)[family]), false);
      ResolveOk(env, memo, if env.classesShareState then rec else None, c, style, Some(Classes(env)[family]), false);
      if !(inner.out.TypeError? || (inner.out.Found? && inner.out.result.font.Some?)) {
        ResolveState(env, memo, if env.classesShareState then rec else None, c, style, Some(Classes(env)[family]), false);
        OwnVariantOk(env, inner.memo, if env.classesShareState then inner.rec else rec, c, style, family, isFallback);
      }
    } else {
      OwnVariantOk(env, memo, rec, c, style, family, isFallback);
    }
  }

  lemma OwnVariantOk(env: Env, memo: Memo, rec: Option<Records>, c: char, style: Style,
                     family: string, isFallback: bool)
    ensures StepOk(env, memo, rec, c, isFallback, OwnVariant(env, memo, rec, c, style, family, isFallback))
  {
    var (vs, m1) := FamilyVariants(env, memo, family);
    if MemoSound(env, memo) && ProvidersWellFormed(env) {
      SoundListNeverThrows(env, memo, family, style.axes);
    }
    if !(vs == [] && rec.None?) {
      var rec1 := if vs == [] then Some(AddMissed(rec.value, family)) else rec;
      var best := BestVariant(style.axes, vs);
      if best.Some? {
        UseVariantOk(env, AfterBest(m1, family, style.axes, vs), rec1, c, style, family, best.value, isFallback);
        assert rec1.None? ==> rec.None?;
      }
    }
  }

  lemma UseVariantOk(env: Env, memo: Memo, rec: Option<Records>, c: char, style: Style,
                     family: string, v: Variant, isFallback: bool)
    ensures StepOk(env, memo, rec, c, isFallback, UseVariant(env, memo, rec, c, style, family, v, isFallback))
  {
  }

  /** Where the cache is sound and the providers' variants well-formed, no family list makes `getBestVariant` throw. */
  lemma SoundListNeverThrows(env: Env, memo: Memo, family: string, axes: Axes)
    requires MemoSound(env, memo) && ProvidersWellFormed(env)
    ensures !BestThrows(axes, FamilyVariants(env, memo, family).0)
  {
    var vs := FamilyVariants(env, memo, family).0;
    var all := Collected(env.providers, family);
    assert multiset(vs) == multiset(all);
    forall i | 0 <= i < |vs| ensures WellFormed(vs[i]) {
      assert vs[i] in multiset(all);
      var j :| 0 <= j < |all| && all[j] == vs[i];
    }
    FontStyleLemmas.WellFormedNeverThrows(axes, vs);
  }

  predicate NoDup<T(==)>(s: seq<T>) {
    forall i, j :: 0 <= i < j < |s| ==> s[i] != s[j]
  }

  /** The records are maps: one `missed` entry per family, one error per variant, one warning per style key. */
  predicate RecordsOk(r: Records) {
    NoDup(r.missed) &&
    (forall i, j :: 0 <= i < j < |r.errors| ==> r.errors[i].variant != r.errors[j].variant) &&
    (forall i, j :: 0 <= i < j < |r.warnings| ==> r.warnings[i].key != r.warnings[j].key)
  }

  /** Records are only appended to, and stay maps. */
  predicate RecordsGrow(rec: Option<Records>, rec': Option<Records>) {
    rec.Some? ==> (rec'.Some? && rec.value.missed <= rec'.value.missed &&
      rec.value.errors <= rec'.value.errors && rec.value.warnings <= rec'.value.warnings &&
      (RecordsOk(rec.value) ==> RecordsOk(rec'.value)))
  }

  /**
   * Every cached family list is a reordering of the providers' lists, and
   * every cached font is what the loader gives for some variant with that key.
   */
  ghost predicate MemoSound(env: Env, memo: Memo) {
    (forall f :: f in memo.families ==> multiset(memo.families[f]) == multiset(Collected(env.providers, f))) &&
    (forall k :: k in memo.fonts ==> exists v :: GetFontKey(k.family, v) == k && memo.fonts[k] == env.loader(k.family, v))
  }

  /** Cached families stay cached, and a cached font is never replaced. */
  predicate MemoGrows(memo: Memo, memo': Memo) {
    (forall f :: f in memo.families ==> f in memo'.families) &&
    (forall k :: k in memo.fonts ==> k in memo'.fonts && memo'.fonts[k] == memo.fonts[k])
  }

  ghost predicate StateOk(env: Env, memo: Memo, rec: Option<Records>, memo': Memo, rec': Option<Records>) {
    (MemoSound(env, memo) ==> MemoSound(env, memo')) && MemoGrows(memo, memo') && RecordsGrow(rec, rec')
  }

  lemma StateOkTrans(env: Env, m1: Memo, r1: Option<Records>, m2: Memo, r2: Option<Records>, m3: Memo, r3: Option<Records>)
    requires StateOk(env, m1, r1, m2, r2) && StateOk(env, m2, r2, m3, r3)
    ensures StateOk(env, m1, r1, m3, r3)
  {
  }

  /** Adding an error keeps one error per variant. */
  lemma AddErrorOk(r: Records, family: string, v: Variant)
    ensures RecordsGrow(Some(r), Some(AddError(r, family, v)))
  {
    if RecordsOk(r) && !HasError(r, v) {
      assert forall i :: 0 <= i < |r.errors| ==> r.errors[i].variant != v;
    }
  }

  /** Adding a warning keeps one warning per style key. */
  lemma AddWarningOk(r: Records, family: string, axes: Axes, v: Variant)
    ensures RecordsGrow(Some(r), Some(AddWarning(r, family, axes, v)))
  {
    var key := GetKey(family, axes);
    if RecordsOk(r) && !HasWarning(r, key) {
      assert forall i :: 0 <= i < |r.warnings| ==> r.warnings[i].key != key;
    }
  }

  /** A font-cache lookup or load keeps the memo sound and never replaces a cached font. */
  lemma FontForOk(env: Env, memo: Memo, family: string, v: Variant)
    ensures StateOk(env, memo, None, FontFor(env, memo, family, v).1, None)
  {
    var key := GetFontKey(family, v);
    if MemoSound(env, memo) && key !in memo.fonts {
      assert GetFontKey(key.family, v) == key;
    }
  }

  lemma UseVariantState(env: Env, memo: Memo, rec: Option<Records>, c: char, style: Style,
                        family: string, v: Variant, isFallback: bool)
    ensures var s := UseVariant(env, memo, rec, c, style, family, v, isFallback);
      StateOk(env, memo, rec, s.memo, s.rec)
  {
    FontForOk(env, memo, family, v);
    if rec.Some? {
      AddErrorOk(rec.value, family, v);
      AddWarningOk(rec.value, family, style.axes, v);
    }
  }

  lemma OwnVariantState(env: Env, memo: Memo, rec: Option<Records>, c: char, style: Style,
                        family: string, isFallback: bool)
    ensures var s := OwnVariant(env, memo, rec, c, style, family, isFallback);
      StateOk(env, memo, rec, s.memo, s.rec)
  {
    var (vs, m1) := FamilyVariants(env, memo, family);
    if !(vs == [] && rec.None?) {
      var rec1 := if vs == [] then Some(AddMissed(rec.value, family)) else rec;
      var m2 := AfterBest(m1, family, style.axes, vs);
      CachedBestState(env, memo, rec, family, style.axes);
      var best := BestVariant(style.axes, vs);
      if !BestThrows(style.axes, vs) && best.Some? {
        UseVariantState(env, m2, rec1, c, style, family, best.value, isFallback);
        var s := UseVariant(env, m2, rec1, c, style, family, best.value, isFallback);
        StateOkTrans(env, memo, rec, m2, rec1, s.memo, s.rec);
      }
    }
  }

  /** The family lookup caches the providers' list. */
  lemma FamilyVariantsOk(env: Env, memo: Memo, family: string)
    ensures StateOk(env, memo, None, FamilyVariants(env, memo, family).1, None)
  {
  }

  /** Sorting a cached list in place keeps it a reordering of the providers' list. */
  lemma AfterBestOk(env: Env, memo: Memo, family: string, axes: Axes, vs: seq<Variant>)
    requires family in memo.families && memo.families[family] == vs
    ensures StateOk(env, memo, None, AfterBest(memo, family, axes, vs), None)
  {
    if vs != [] {
      FontStyleLemmas.SortByPerm(WidthPass(axes), vs);
    }
  }

  /** Recording a missed family keeps the records. */
  lemma AddMissedOk(r: Records, family: string)
    ensures RecordsGrow(Some(r), Some(AddMissed(r, family)))
  {
  }

  /** The family lookup, a missed record and the sorted cache entry keep the state sound. */
  lemma CachedBestState(env: Env, memo: Memo, rec: Option<Records>, family: string, axes: Axes)
    ensures var (vs, m1) := FamilyVariants(env, memo, family);
      !(vs == [] && rec.None?) ==>
        StateOk(env, memo, rec, AfterBest(m1, family, axes, vs),
                if vs == [] then Some(AddMissed(rec.value, family)) else rec)
  {
    var (vs, m1) := FamilyVariants(env, memo, family);
    if !(vs == [] && rec.None?) {
      var rec1 := if vs == [] then Some(AddMissed(rec.value, family)) else rec;
      var m2 := AfterBest(m1, family, axes, vs);
      FamilyVariantsOk(env, memo, family);
      AfterBestOk(env, m1, family, axes, vs);
      StateOkTrans(env, memo, None, m1, None, m2, None);
      if vs == [] {
        AddMissedOk(rec.value, family);
      }
      assert RecordsGrow(rec, rec1);
    }
  }

  lemma {:induction false} ResolveState(env: Env, memo: Memo, rec: Option<Records>, c: char, style: Style,
                                        families: Option<seq<string>>, isFallback: bool)
    requires Ranked(env)
    ensures var run := Resolve(env, memo, rec, c, style, families, isFallback);
      StateOk(env, memo, rec, run.memo, run.rec)
    decreases if families.None? then 1 else 0, MaxRank(env, families.GetOr(style.families)),
              |families.GetOr(style.families)| + 1
  {
    var fams := families.GetOr(style.families);
    ResolveListState(env, memo, rec, c, style, fams, isFallback);
    var s := ResolveList(env, memo, rec, c, style, fams, isFallback);
    if s.out.None? && families.None? {
      FallbackState(env, s.memo, s.rec, c, style, isFallback);
      var f := Fallback(env, s.memo, s.rec, c, style, isFallback);
      StateOkTrans(env, memo, rec, s.memo, s.rec, f.memo, f.rec);
    }
  }

  lemma {:induction false} FallbackState(env: Env, memo: Memo, rec: Option<Records>, c: char, style: Style, isFallback: bool)
    requires Ranked(env)
    ensures var run := Fallback(env, memo, rec, c, style, isFallback);
      StateOk(env, memo, rec, run.memo, run.rec)
    decreases 1, 0, 0
  {
    var p := env.params;
    var tried := p.fallbackFamilies.Some? && |p.fallbackFamilies.value| > 0;
    if tried {
      ResolveState(env, memo, rec, c, style, p.fallbackFamilies, false);
    }
    var s := if tried then Resolve(env, memo, rec, c, style, p.fallbackFamilies, false)
             else Run(Found(FontForChar(None, c, style, isFallback)), memo, rec);
    assert StateOk(env, memo, rec, s.memo, s.rec);
    if !(tried && (s.out.TypeError? || (s.out.Found? && s.out.result.font.Some?))) && p.fallbackGlyph.Some? {
      var (family, gl) := p.fallbackGlyph.value;
      if GlyphOf(gl).Some? {
        var glyph := GlyphOf(gl).value;
        var st := Style([family], style.axes, style.features);
        ResolveState(env, s.memo, s.rec, glyph, st, Some([family]), true);
        var g := Resolve(env, s.memo, s.rec, glyph, st, Some([family]), true);
        StateOkTrans(env, memo, rec, s.memo, s.rec, g.memo, g.rec);
      }
    }
  }

  lemma {:induction false} ResolveListState(env: Env, memo: Memo, rec: Option<Records>, c: char, style: Style,
                                            fams: seq<string>, isFallback: bool)
    requires Ranked(env)
    ensures var s := ResolveList(env, memo, rec, c, style, fams, isFallback);
      StateOk(env, memo, rec, s.memo, s.rec)
    decreases 0, MaxRank(env, fams), |fams|
  {
    if fams != [] {
      MaxRankTail(env, fams);
      TryFamilyState(env, memo, rec, c, style, fams[0], isFallback);
      var s := TryFamily(env, memo, rec, c, style, fams[0], isFallback);
      if s.out.None? {
        ResolveListState(env, s.memo, s.rec, c, style, fams[1..], isFallback);
        var t := ResolveList(env, s.memo, s.rec, c, style, fams[1..], isFallback);
        StateOkTrans(env, memo, rec, s.memo, s.rec, t.memo, t.rec);
      }
    }
  }

  lemma {:induction false} TryFamilyState(env: Env, memo: Memo, rec: Option<Records>, c: char, style: Style,
                                          family: string, isFallback: bool)
    requires Ranked(env)
    ensures var s := TryFamily(env, memo, rec, c, style, family, isFallback);
      StateOk(env, memo, rec, s.memo, s.rec)
    decreases 0, Rank(env, family), 0
  {
    if family in Classes(env) {
      ClassRankDecreases(env, family);
      var share := env.classesShareState;
      var inner := Resolve(env, memo, if share then rec else None, c, style, Some(Classes(env)[family]), false);
      ResolveState(env, memo, if share then rec else None, c, style, Some(Classes(env)[family]), false);
      var rec1 := if share then inner.rec else rec;
      assert StateOk(env, memo, rec, inner.memo, rec1);
      if !(inner.out.TypeError? || (inner.out.Found? && inner.out.result.font.Some?)) {
        OwnVariantState(env, inner.memo, rec1, c, style, family, isFallback);
        var o := OwnVariant(env, inner.memo, rec1, c, style, family, isFallback);
        StateOkTrans(env, memo, rec, inner.memo, rec1, o.memo, o.rec);
      }
    } else {
      OwnVariantState(env, memo, rec, c, style, family, isFallback);
    }
  }

  /** The font a family yields for `c` in `memo`: its best variant's font, when it has the glyph. */
  function Usable(env: Env, memo: Memo, style: Style, c: char, family: string): Option<Font> {
    var vs := if family in memo.families then memo.families[family] else Collected(env.providers, family);
    var best := BestVariant(style.axes, vs);
    if best.None? then None
    else
      var key := GetFontKey(family, best.value);
      var f := if key in memo.fonts then memo.fonts[key] else env.loader(family, best.value);
      if f.Some? && f.value.HasGlyph(c) then f else None
  }

  /**
   * What a family's own step ends the loop with, given a state: the TypeError
   * of `getBestVariant` where its list makes it throw, else its usable font.
   */
  function OwnOutcome(env: Env, memo: Memo, style: Style, c: char, family: string, isFallback: bool): Option<Outcome> {
    if BestThrows(style.axes, FamilyVariants(env, memo, family).0) then Some(TypeError(EmptyPass))
    else
      var u := Usable(env, memo, style, c, family);
      if u.Some? then Some(Found(FontForChar(u, c, style, isFallback))) else None
  }

  /** The first family, in list order, whose best variant throws or yields a font with the glyph. */
  function FirstUsable(env: Env, memo: Memo, style: Style, c: char, fams: seq<string>, isFallback: bool): Option<Outcome> {
    if fams == [] then None
    else if OwnOutcome(env, memo, style, c, fams[0], isFallback).Some? then OwnOutcome(env, memo, style, c, fams[0], isFallback)
    else FirstUsable(env, memo, style, c, fams[1..], isFallback)
  }

  /** The memo entries that matter to `family` are the same in both memos. */
  ghost predicate SameFor(m: Memo, m': Memo, family: string) {
    (family in m.families <==> family in m'.families) &&
    (family in m.families ==> m.families[family] == m'.families[family]) &&
    (forall k: FontKey :: k.family == family ==> (k in m.fonts <==> k in m'.fonts)) &&
    (forall k: FontKey :: k.family == family && k in m.fonts ==> m.fonts[k] == m'.fonts[k])
  }

  lemma UsableFrame(env: Env, m: Memo, m': Memo, style: Style, c: char, family: string)
    requires SameFor(m, m', family)
    ensures Usable(env, m, style, c, family) == Usable(env, m', style, c, family)
  {
  }

  lemma {:induction false} FirstUsableFrame(env: Env, m: Memo, m': Memo, style: Style, c: char, fams: seq<string>, isFallback: bool)
    requires forall i :: 0 <= i < |fams| ==> SameFor(m, m', fams[i])
    ensures FirstUsable(env, m, style, c, fams, isFallback) == FirstUsable(env, m', style, c, fams, isFallback)
    decreases |fams|
  {
    if fams != [] {
      UsableFrame(env, m, m', style, c, fams[0]);
      FirstUsableFrame(env, m, m', style, c, fams[1..], isFallback);
    }
  }

  /** The font test of the best variant, with a state present; only the family's own font keys change. */
  lemma UseVariantFacts(env: Env, memo: Memo, rec: Option<Records>, c: char, style: Style,
                        family: string, v: Variant, isFallback: bool)
    requires rec.Some?
    ensures var s := UseVariant(env, memo, rec, c, style, family, v, isFallback);
      var key := GetFontKey(family, v);
      var f := if key in memo.fonts then memo.fonts[key] else env.loader(family, v);
      s.out == (if f.Some? && f.value.HasGlyph(c) then Some(Found(FontForChar(f, c, style, isFallback))) else None) &&
      s.rec.Some? && s.memo.families == memo.families &&
      forall g :: g != family ==> SameFor(memo, s.memo, g)
  {
  }

  /** With a state present, a family's own step throws where `getBestVariant` does, and otherwise finds exactly its usable font. */
  lemma OwnVariantUsable(env: Env, memo: Memo, rec: Option<Records>, c: char, style: Style,
                         family: string, isFallback: bool)
    requires rec.Some?
    ensures var s := OwnVariant(env, memo, rec, c, style, family, isFallback);
      s.out == OwnOutcome(env, memo, style, c, family, isFallback) && s.rec.Some?
  {
    var (vs, m1) := FamilyVariants(env, memo, family);
    var rec1 := if vs == [] then Some(AddMissed(rec.value, family)) else rec;
    var best := BestVariant(style.axes, vs);
    var m2 := AfterBest(m1, family, style.axes, vs);
    assert m2.fonts == memo.fonts;
    if best.Some? && !BestThrows(style.axes, vs) {
      UseVariantFacts(env, m2, rec1, c, style, family, best.value, isFallback);
    }
  }

  /** Caching a family's sorted variants leaves every other family's entries alone. */
  lemma CachedBestFrame(env: Env, memo: Memo, family: string, axes: Axes, vs: seq<Variant>, g: string)
    requires g != family
    ensures SameFor(memo, AfterBest(FamilyVariants(env, memo, family).1, family, axes, vs), g)
  {
  }

  /** A family's own step touches only that family's cache entries. */
  lemma OwnVariantFrame(env: Env, memo: Memo, rec: Option<Records>, c: char, style: Style,
                        family: string, isFallback: bool, g: string)
    requires rec.Some? && g != family
    ensures SameFor(memo, OwnVariant(env, memo, rec, c, style, family, isFallback).memo, g)
  {
    var (vs, m1) := FamilyVariants(env, memo, family);
    var rec1 := if vs == [] then Some(AddMissed(rec.value, family)) else rec;
    var best := BestVariant(style.axes, vs);
    var m2 := AfterBest(m1, family, style.axes, vs);
    CachedBestFrame(env, memo, family, style.axes, vs, g);
    if best.Some? && !BestThrows(style.axes, vs) {
      var s := UseVariant(env, m2, rec1, c, style, family, best.value, isFallback);
      assert OwnVariant(env, memo, rec, c, style, family, isFallback) == s;
      UseVariantFacts(env, m2, rec1, c, style, family, best.value, isFallback);
      SameForTrans(memo, m2, s.memo, g);
    }
  }

  lemma SameForTrans(m1: Memo, m2: Memo, m3: Memo, family: string)
    requires SameFor(m1, m2, family) && SameFor(m2, m3, family)
    ensures SameFor(m1, m3, family)
  {
  }

  /**
   * Without family classes and with a state present, the family loop ends at
   * the first family, in list order, whose best variant throws, or loads and
   * has the glyph, with that TypeError or font; it returns nothing when there
   * is none.
   */
  lemma {:induction false} FirstUsableWins(env: Env, memo: Memo, rec: Option<Records>, c: char, style: Style,
                                           fams: seq<string>, isFallback: bool)
    requires Ranked(env) && rec.Some? && NoDup(fams)
    requires forall i :: 0 <= i < |fams| ==> fams[i] !in Classes(env)
    ensures ResolveList(env, memo, rec, c, style, fams, isFallback).out == FirstUsable(env, memo, style, c, fams, isFallback)
    decreases |fams|
  {
    if fams != [] {
      var s := TryFamily(env, memo, rec, c, style, fams[0], isFallback);
      assert s == OwnVariant(env, memo, rec, c, style, fams[0], isFallback);
      OwnVariantUsable(env, memo, rec, c, style, fams[0], isFallback);
      if s.out.None? {
        var rest := fams[1..];
        forall i | 0 <= i < |rest| ensures SameFor(memo, s.memo, rest[i]) {
          assert rest[i] == fams[i + 1];
          OwnVariantFrame(env, memo, rec, c, style, fams[0], isFallback, rest[i]);
        }
        FirstUsableFrame(env, memo, s.memo, style, c, rest, isFallback);
        FirstUsableWins(env, s.memo, s.rec, c, style, rest, isFallback);
      }
    }
  }

  /** The same for a whole `getFontForChar` call with a family list: a miss is `{font: null}`. */
  lemma FirstUsableResolves(env: Env, memo: Memo, rec: Option<Records>, c: char, style: Style,
                            fams: seq<string>, isFallback: bool)
    requires Ranked(env) && rec.Some? && NoDup(fams)
    requires forall i :: 0 <= i < |fams| ==> fams[i] !in Classes(env)
    ensures Resolve(env, memo, rec, c, style, Some(fams), isFallback).out ==
      FirstUsable(env, memo, style, c, fams, isFallback).GetOr(Found(FontForChar(None, c, style, isFallback)))
  {
    FirstUsableWins(env, memo, rec, c, style, fams, isFallback);
  }

  /**
   * Handing the state to the family-class recursion rules out the TypeError
   * of a missing state; the one `getBestVariant` throws remains, and only a
   * malformed variant reaches it.
   */
  lemma SharedStateNeverThrows(env: Env, memo: Memo, rec: Option<Records>, c: char, style: Style,
                               families: Option<seq<string>>, isFallback: bool)
    requires Ranked(env) && env.classesShareState && rec.Some?
    ensures Resolve(env, memo, rec, c, style, families, isFallback).out != TypeError(MissingState)
    ensures MemoSound(env, memo) && ProvidersWellFormed(env) ==>
      !Resolve(env, memo, rec, c, style, families, isFallback).out.TypeError?
  {
    ResolveOk(env, memo, rec, c, style, families, isFallback);
  }

  /** A fallback glyph, when configured, always yields a result: `noFontAction` is never reached. */
  lemma FallbackGlyphBypassesNoFontAction(env: Env, memo: Memo, rec: Option<Records>, c: char, style: Style,
                                          families: Option<seq<string>>, isFallback: bool)
    requires Ranked(env) && env.params.fallbackGlyph.Some?
    ensures !Resolve(env, memo, rec, c, style, families, isFallback).out.NoFontError?
  {
    ResolveOk(env, memo, rec, c, style, families, isFallback);
  }

  /** A class `sans` whose one member has no variants anywhere. */
  function ClassEnv(share: bool): Env {
    Env(Params(Some(map["sans" := ["Missing"]]), None, None, Ignore), [],
        (family: string, v: Variant) => None, map["sans" := 0], share)
  }

  const EmptyMemo := Memo(map[], map[])
  const NoRecords := Records([], [], [])
  const SansStyle := Style(["sans"], map[], map[])

  /**
   * As written, the class recursion gets no state, so recording the class
   * member as missed throws a TypeError instead of resolving to no font.
   */
  lemma ClassWithoutStateThrows()
    ensures Resolve(ClassEnv(false), EmptyMemo, Some(NoRecords), 'a', SansStyle, None, false).out == TypeError(MissingState)
  {
    var env := ClassEnv(false);
    assert Ranked(env);
    assert Collected(env.providers, "Missing") == [];
    var inner := ResolveList(env, EmptyMemo, None, 'a', SansStyle, ["Missing"], false);
    assert inner.out == Some(TypeError(MissingState));
    assert TryFamily(env, EmptyMemo, Some(NoRecords), 'a', SansStyle, "sans", false).out == Some(TypeError(MissingState));
  }

  /** With the state handed on, both the member and the class are recorded as missed and no font results. */
  lemma ClassWithStateRecordsMissed()
    ensures var run := Resolve(ClassEnv(true), EmptyMemo, Some(NoRecords), 'a', SansStyle, None, false);
      run.out == Found(FontForChar(None, 'a', SansStyle, false)) &&
      run.rec == Some(Records(["Missing", "sans"], [], []))
  {
    var env := ClassEnv(true);
    assert Ranked(env);
    assert Collected(env.providers, "Missing") == [] && Collected(env.providers, "sans") == [];
    var m1 := Memo(map["Missing" := []], map[]);
    var r1 := Records(["Missing"], [], []);
    assert BestVariant(SansStyle.axes, []) == None;
    assert FamilyVariants(env, EmptyMemo, "Missing") == ([], m1);
    assert AddMissed(NoRecords, "Missing") == r1;
    assert AfterBest(m1, "Missing", SansStyle.axes, []) == m1;
    assert OwnVariant(env, EmptyMemo, Some(NoRecords), 'a', SansStyle, "Missing", false) == Step(None, m1, Some(r1));
    assert TryFamily(env, EmptyMemo, Some(NoRecords), 'a', SansStyle, "Missing", false) == Step(None, m1, Some(r1));
    assert ["Missing"][1..] == [];
    assert ResolveList(env, EmptyMemo, Some(NoRecords), 'a', SansStyle, ["Missing"], false) == Step(None, m1, Some(r1));
    var inner := Resolve(env, EmptyMemo, Some(NoRecords), 'a', SansStyle, Some(["Missing"]), false);
    assert inner.out == Found(FontForChar(None, 'a', SansStyle, false)) && inner.memo == m1 && inner.rec == Some(r1);
    var m2 := Memo(map["Missing" := [], "sans" := []], map[]);
    var r2 := Records(["Missing", "sans"], [], []);
    assert FamilyVariants(env, m1, "sans") == ([], m2);
    assert AddMissed(r1, "sans") == r2;
    assert OwnVariant(env, m1, Some(r1), 'a', SansStyle, "sans", false) == Step(None, m2, Some(r2));
    var t := TryFamily(env, EmptyMemo, Some(NoRecords), 'a', SansStyle, "sans", false);
    assert t == Step(None, m2, Some(r2));
    assert ResolveList(env, EmptyMemo, Some(NoRecords), 'a', SansStyle, ["sans"], false) == Step(None, m2, Some(r2));
  }

  /** The one face of `font-style: oblique 20deg 10deg`, whose slant range `[-10, -20]` is written backwards. */
  const BackwardsOblique := Variant("f.ttf", map["slnt" := Range(-10.0, -20.0)])

  /** One provider that offers that face for every family, with the state handed on. */
  const BackwardsEnv := Env(Params(None, None, None, Ignore), [(f: string) => [BackwardsOblique]],
                            (family: string, v: Variant) => None, map[], true)

  /**
   * Upright text in that family: the width pass keeps the face, the slant
   * pass clamps 0 to -20, which the range does not contain, and the italic
   * pass after it throws, although the state is present and shared.
   */
  lemma BackwardsObliqueThrows()
    ensures Resolve(BackwardsEnv, EmptyMemo, Some(NoRecords), 'a', Style(["F"], map[], map[]), None, false).out ==
      TypeError(EmptyPass)
  {
    var env := BackwardsEnv;
    var style := Style(["F"], map[], map[]);
    var f := BackwardsOblique;
    assert Ranked(env);
    assert Collected(env.providers, "F") == [f];
    var pw := WidthPass(map[]);
    assert [f][..0] == [];
    assert SortBy(pw, [f]) == [f];
    assert Keep([f], Wdth, Clamp(f, Wdth, pw.target)) == [f];
    assert SortBy(UprightSlntPass, [f]) == [f];
    assert Clamp(f, Slnt, 0.0) == -20.0;
    assert Keep([f], Slnt, -20.0) == [];
    assert BestThrows(style.axes, [f]);
    assert OwnVariant(env, EmptyMemo, Some(NoRecords), 'a', style, "F", false).out == Some(TypeError(EmptyPass));
    assert TryFamily(env, EmptyMemo, Some(NoRecords), 'a', style, "F", false).out == Some(TypeError(EmptyPass));
  }

  /** The parameters `--fallback-glyph Arial,x` gives: the code point `parseInt("x")`, which is `NaN`. */
  const NaNGlyphEnv := Env(Params(None, None, Some(("Arial", CodePoint(Numbers.NaN))), Ignore), [],
                           (family: string, v: Variant) => None, map[], true)

  /**
   * A character of a style with no family reaches the fallback glyph, and
   * `String.fromCodePoint(NaN)` throws a RangeError out of `getFontForChar`.
   */
  lemma NaNGlyphThrows(c: char)
    ensures Resolve(NaNGlyphEnv, EmptyMemo, Some(NoRecords), c, Style([], map[], map[]), None, false).out == RangeError
  {
    assert Ranked(NaNGlyphEnv);
  }

  /** `loadFamilyVariants` keeps provider order: the lists of more providers follow. */
  lemma {:induction false} CollectedAppend(ps: seq<string -> seq<Variant>>, qs: seq<string -> seq<Variant>>, family: string)
    ensures Collected(ps + qs, family) == Collected(ps, family) + Collected(qs, family)
    decreases |qs|
  {
    if qs == [] {
      assert ps + qs == ps;
    } else {
      var n := |qs| - 1;
      assert (ps + qs)[..|ps + qs| - 1] == ps + qs[..n];
      CollectedAppend(ps, qs[..n], family);
    }
  }

  /** A variant is in the concatenation iff some provider returned it. */
  lemma {:induction false} CollectedMember(ps: seq<string -> seq<Variant>>, family: string, v: Variant)
    ensures v in Collected(ps, family) <==> exists i :: 0 <= i < |ps| && v in ps[i](family)
    decreases |ps|
  {
    if ps != [] {
      var n := |ps| - 1;
      CollectedMember(ps[..n], family, v);
      if v in Collected(ps[..n], family) {
        var i :| 0 <= i < n && v in ps[..n][i](family);
        assert ps[i] == ps[..n][i];
      }
      if exists i :: 0 <= i < |ps| && v in ps[i](family) {
        var i :| 0 <= i < |ps| && v in ps[i](family);
        if i < n {
          assert ps[..n][i] == ps[i];
        }
      }
    }
  }

  /** Variants that differ only in source or in custom axes share a font key. */
  lemma FontKeySharing(family: string, v: Variant, w: Variant)
    ensures GetFontKey(family, v) == GetFontKey(family, w) <==>
      forall a: Axis :: NormalizeVariantAxis(v, a) == NormalizeVariantAxis(w, a)
  {
    if GetFontKey(family, v) == GetFontKey(family, w) {
      forall a: Axis ensures NormalizeVariantAxis(v, a) == NormalizeVariantAxis(w, a) {
        match a
        case Wdth =>
        case Wght =>
        case Ital =>
        case Slnt =>
      }
    }
  }
}
