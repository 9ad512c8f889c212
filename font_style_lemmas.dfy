/**
 * Properties of the variant matcher in module FontStyle: each pass
 * permutes and then narrows its input, never empties a well-formed
 * list, and puts an exactly matching variant first; so a variant that
 * matches the whole request is the one chosen.
 */
module FontStyleLemmas {
  import opened Wrappers
  import opened FontStyle

  /** Inserting adds exactly one occurrence of `x`. */
  lemma {:induction false} InsertPerm(p: Pass, t: seq<Variant>, x: Variant)
    ensures multiset(Insert(p, t, x)) == multiset(t) + multiset{x}
    ensures |Insert(p, t, x)| == |t| + 1
    decreases |t|
  {
    if t == [] || Cmp(p, t[|t| - 1], x) <= 0.0 {
    } else {
      var n := |t| - 1;
      InsertPerm(p, t[..n], x);
      SnocMultiset(t);
    }
  }

  /** The sort is a permutation of its input. */
  lemma {:induction false} SortByPerm(p: Pass, s: seq<Variant>)
    ensures multiset(SortBy(p, s)) == multiset(s)
    ensures |SortBy(p, s)| == |s|
    decreases |s|
  {
    if s != [] {
      var n := |s| - 1;
      var t := SortBy(p, s[..n]);
      SortByPerm(p, s[..n]);
      InsertPerm(p, t, s[n]);
      SnocMultiset(s);
    }
  }

  lemma SnocMultiset<T>(s: seq<T>)
    requires s != []
    ensures multiset(s) == multiset(s[..|s| - 1]) + multiset{s[|s| - 1]}
  {
    assert s == s[..|s| - 1] + [s[|s| - 1]];
  }

  lemma SortByMembers(p: Pass, s: seq<Variant>)
    ensures |SortBy(p, s)| == |s|
    ensures forall x :: x in SortBy(p, s) <==> x in s
  {
    SortByPerm(p, s);
    forall x ensures x in SortBy(p, s) <==> x in s {
      assert x in SortBy(p, s) <==> x in multiset(SortBy(p, s));
      assert x in s <==> x in multiset(s);
    }
  }

  /**
   * A pass only narrows: every survivor comes from the input and lies in
   * the range that contains the first sorted variant's clamped target.
   */
  lemma PassNarrows(p: Pass, s: seq<Variant>)
    ensures |SortAndFilter(p, s)| <= |s|
    ensures forall x :: x in SortAndFilter(p, s) ==> x in s
    ensures s != [] ==> forall x :: x in SortAndFilter(p, s) ==>
      InRange(x, p.axis, Clamp(SortBy(p, s)[0], p.axis, p.target))
  {
    SortByMembers(p, s);
  }

  predicate AllWellFormed(s: seq<Variant>) {
    forall i :: 0 <= i < |s| ==> WellFormed(s[i])
  }

  /** A pass over a non-empty well-formed list keeps its first sorted variant. */
  lemma PassKeepsFirst(p: Pass, s: seq<Variant>)
    requires s != [] && AllWellFormed(s)
    ensures SortAndFilter(p, s) != []
    ensures SortAndFilter(p, s)[0] == SortBy(p, s)[0]
    ensures AllWellFormed(SortAndFilter(p, s))
  {
    SortByMembers(p, s);
    var f := SortBy(p, s)[0];
    assert f in s;
    assert WellFormed(f);
    assert NormalizeVariantAxis(f, p.axis).0 <= NormalizeVariantAxis(f, p.axis).1;
    var r := SortAndFilter(p, s);
    forall i | 0 <= i < |r| ensures WellFormed(r[i]) {
      assert r[i] in r;
      var k :| 0 <= k < |s| && s[k] == r[i];
    }
  }

  lemma ItalSlntKeeps(axes: Axes, s: seq<Variant>)
    requires s != [] && AllWellFormed(s)
    ensures ItalSlntPasses(axes, s) != []
    ensures AllWellFormed(ItalSlntPasses(axes, s))
    ensures forall x :: x in ItalSlntPasses(axes, s) ==> x in s
  {
    if UprightRequested(axes) {
      PassKeepsFirst(UprightSlntPass, s);
      PassNarrows(UprightSlntPass, s);
      PassKeepsFirst(UprightItalPass, SortAndFilter(UprightSlntPass, s));
      PassNarrows(UprightItalPass, SortAndFilter(UprightSlntPass, s));
    } else {
      PassKeepsFirst(ObliquePass(axes, s), s);
      PassNarrows(ObliquePass(axes, s), s);
    }
  }

  /** No variants give `null`; a non-empty well-formed list gives one of its own variants. */
  lemma BestVariantFound(axes: Axes, s: seq<Variant>)
    requires AllWellFormed(s)
    ensures BestVariant(axes, s).None? <==> s == []
    ensures BestVariant(axes, s).Some? ==> BestVariant(axes, s).value in s
  {
    if s != [] {
      var s1 := SortAndFilter(WidthPass(axes), s);
      PassKeepsFirst(WidthPass(axes), s);
      PassNarrows(WidthPass(axes), s);
      var s2 := ItalSlntPasses(axes, s1);
      ItalSlntKeeps(axes, s1);
      PassKeepsFirst(WeightPass(axes), s2);
      PassNarrows(WeightPass(axes), s2);
      assert SortAndFilter(WeightPass(axes), s2)[0] in SortAndFilter(WeightPass(axes), s2);
    }
  }

  /** A variant whose range contains the target compares not-greater than any other. */
  lemma ExactNotGreater(p: Pass, x: Variant, y: Variant)
    requires InRange(x, p.axis, p.target)
    ensures Cmp(p, x, y) <= 0.0
  {
  }

  /** A variant that misses the target compares greater than one that contains it. */
  lemma MissGreater(p: Pass, y: Variant, x: Variant)
    requires !InRange(y, p.axis, p.target) && InRange(x, p.axis, p.target)
    ensures Cmp(p, y, x) > 0.0
  {
  }

  predicate Exact(p: Pass, v: Variant) {
    InRange(v, p.axis, p.target)
  }

  /** An exact variant at the front is never passed by a later one. */
  lemma {:induction false} InsertKeepsExactFront(p: Pass, t: seq<Variant>, x: Variant)
    requires t != [] && Exact(p, t[0])
    ensures Insert(p, t, x)[0] == t[0]
    decreases |t|
  {
    var n := |t| - 1;
    if Cmp(p, t[n], x) > 0.0 {
      if n == 0 {
        ExactNotGreater(p, t[0], x);
        assert false;
      }
      assert t[..n][0] == t[0];
      InsertKeepsExactFront(p, t[..n], x);
    }
  }

  /** An exact variant inserted into a list with no exact variant moves to the front. */
  lemma {:induction false} InsertExactToFront(p: Pass, t: seq<Variant>, x: Variant)
    requires Exact(p, x)
    requires forall i :: 0 <= i < |t| ==> !Exact(p, t[i])
    ensures Insert(p, t, x)[0] == x
    decreases |t|
  {
    if t != [] {
      var n := |t| - 1;
      MissGreater(p, t[n], x);
      InsertExactToFront(p, t[..n], x);
    }
  }

  /** If any variant contains the pass's target, the sort puts such a variant first. */
  lemma {:induction false} ExactSortsFirst(p: Pass, s: seq<Variant>, k: int)
    requires 0 <= k < |s| && Exact(p, s[k])
    ensures SortBy(p, s) != [] && Exact(p, SortBy(p, s)[0])
    decreases |s|
  {
    var n := |s| - 1;
    var t := SortBy(p, s[..n]);
    assert SortBy(p, s) == Insert(p, t, s[n]);
    InsertPerm(p, t, s[n]);
    if t != [] && Exact(p, t[0]) {
      InsertKeepsExactFront(p, t, s[n]);
    } else if k < n {
      assert s[..n][k] == s[k];
      ExactSortsFirst(p, s[..n], k);
      assert false;
    } else {
      forall i | 0 <= i < |t| ensures !Exact(p, t[i]) {
        SortByMembers(p, s[..n]);
        assert t[i] in t;
        var j :| 0 <= j < n && s[..n][j] == t[i];
        if Exact(p, s[..n][j]) {
          ExactSortsFirst(p, s[..n], j);
        }
      }
      InsertExactToFront(p, t, s[n]);
    }
  }

  /** Some variant of `s` contains the pass's target. */
  predicate HasExact(p: Pass, s: seq<Variant>) {
    exists i :: 0 <= i < |s| && Exact(p, s[i])
  }

  /** With an exact candidate, a pass keeps precisely the variants that contain the target. */
  lemma ExactPass(p: Pass, s: seq<Variant>)
    requires HasExact(p, s)
    ensures forall x :: x in SortAndFilter(p, s) <==> x in s && InRange(x, p.axis, p.target)
  {
    var k :| 0 <= k < |s| && Exact(p, s[k]);
    ExactSortsFirst(p, s, k);
    SortByMembers(p, s);
  }

  lemma MatchesAll(axes: Axes, v: Variant)
    ensures Matches(axes, v) <==>
      InRange(v, Wdth, AxisOr(axes, "wdth", 100.0)) && InRange(v, Wght, AxisOr(axes, "wght", 400.0)) &&
      InRange(v, Ital, AxisOr(axes, "ital", 0.0)) && InRange(v, Slnt, AxisOr(axes, "slnt", 0.0))
  {
    assert DefaultAxes[0] == Wdth && DefaultAxes[1] == Wght;
    assert DefaultAxes[2] == Ital && DefaultAxes[3] == Slnt;
    assert Wdth.Name() == "wdth" && Wght.Name() == "wght" && Ital.Name() == "ital" && Slnt.Name() == "slnt";
  }

  /**
   * When neither italic nor slant is requested and some variant matches
   * every default axis of the request, the chosen variant matches them all.
   */
  lemma ExactMatchChosen(axes: Axes, s: seq<Variant>, m: Variant)
    requires AxisOr(axes, "ital", 0.0) == 0.0 && AxisOr(axes, "slnt", 0.0) == 0.0
    requires m in s && Matches(axes, m)
    ensures BestVariant(axes, s).Some?
    ensures BestVariant(axes, s).value in s && Matches(axes, BestVariant(axes, s).value)
  {
    MatchesAll(axes, m);
    var pw := WidthPass(axes);
    var ps := UprightSlntPass;
    var pi := UprightItalPass;
    var pg := WeightPass(axes);
    ExactPass(pw, s);
    var s1 := SortAndFilter(pw, s);
    assert m in s1;
    ExactPass(ps, s1);
    var s2 := SortAndFilter(ps, s1);
    assert m in s2;
    ExactPass(pi, s2);
    var s3 := SortAndFilter(pi, s2);
    assert m in s3;
    assert ItalSlntPasses(axes, s1) == s3;
    ExactPass(pg, s3);
    var r := SortAndFilter(pg, s3);
    assert m in r;
    assert r[0] in r;
    MatchesAll(axes, r[0]);
  }

  /** Custom axes of a variant play no part in matching. */
  lemma MatchIgnoresCustomAxes(axes: Axes, v: Variant, name: string, av: AxisValue)
    requires name !in {"wdth", "wght", "ital", "slnt"}
    ensures Matches(axes, v) == Matches(axes, v.(axes := v.axes[name := av]))
  {
    MatchesAll(axes, v);
    MatchesAll(axes, v.(axes := v.axes[name := av]));
  }

  /** An absent axis and its default give the same cache key. */
  lemma GetKeyDefaults(family: string, axes: Axes, name: string, r: real)
    requires name !in {"wdth", "wght", "ital", "slnt"}
    ensures GetKey(family, map[]) == GetKey(family, DefaultRequest)
    ensures GetKey(family, axes[name := r]) == GetKey(family, axes)
  {
  }

  const Upright := Variant("upright", map[])
  const Oblique := Variant("oblique", map["slnt" := Point(-12.0)])
  const Regular := Variant("400", map["wght" := Point(400.0)])
  const Bold := Variant("700", map["wght" := Point(700.0)])
  const Condensed := Variant("75", map["wdth" := Point(75.0)])
  const Normal := Variant("100", map["wdth" := Point(100.0)])

  /** A single well-formed variant survives any pass. */
  lemma SinglePass(p: Pass, x: Variant)
    requires WellFormed(x)
    ensures SortAndFilter(p, [x]) == [x]
  {
    assert [x][..0] == [];
    assert SortBy(p, [x]) == [x];
    assert NormalizeVariantAxis(x, p.axis).0 <= NormalizeVariantAxis(x, p.axis).1;
  }

  /** A single well-formed variant survives every pass, so it is chosen. */
  lemma SingleChosen(axes: Axes, x: Variant)
    requires WellFormed(x)
    ensures BestVariant(axes, [x]) == Some(x)
  {
    SinglePass(WidthPass(axes), x);
    SinglePass(UprightSlntPass, x);
    SinglePass(UprightItalPass, x);
    SinglePass(ObliquePass(axes, [x]), x);
    SinglePass(WeightPass(axes), x);
  }

  /** Two variants that both contain the target tie: the pass keeps both, in order. */
  lemma TiePass(p: Pass, x: Variant, y: Variant)
    requires Exact(p, x) && Exact(p, y)
    ensures SortAndFilter(p, [x, y]) == [x, y]
  {
    assert [x, y][..1] == [x] && [x][..0] == [];
    assert SortBy(p, [x]) == [x];
    assert Cmp(p, x, y) == 0.0;
    assert SortBy(p, [x, y]) == [x, y];
  }

  /** Weight 450 with 700 and 400 on offer: no weight in [450, 500], so the nearest lighter one, 400. */
  lemma Weight450PicksRegular()
    ensures BestVariant(map["wght" := 450.0], [Bold, Regular]) == Some(Regular)
  {
    var axes := map["wght" := 450.0];
    var s := [Bold, Regular];
    assert WidthPass(axes) == Pass(Wdth, 100.0, true, None);
    TiePass(WidthPass(axes), Bold, Regular);
    assert UprightRequested(axes);
    TiePass(UprightSlntPass, Bold, Regular);
    TiePass(UprightItalPass, Bold, Regular);
    assert ItalSlntPasses(axes, s) == s;
    WeightSortsRegularFirst(axes);
  }

  lemma WeightSortsRegularFirst(axes: Axes)
    requires axes == map["wght" := 450.0]
    ensures SortAndFilter(WeightPass(axes), [Bold, Regular]) == [Regular]
  {
    var s := [Bold, Regular];
    var pg := WeightPass(axes);
    assert pg == Pass(Wght, 450.0, false, Some(500.0));
    assert s[..1] == [Bold] && [Bold][..0] == [];
    assert SortBy(pg, [Bold]) == [Bold];
    assert Clamp(Bold, Wght, 450.0) == 700.0 && Clamp(Regular, Wght, 450.0) == 400.0;
    assert Cmp(pg, Bold, Regular) == 300.0;
    assert Insert(pg, [], Regular) == [Regular];
    assert SortBy(pg, s) == [Regular, Bold];
    assert !InRange(Bold, Wght, 400.0);
    assert Keep([Bold], Wght, 400.0) == [];
  }

  /** Width 80 with 100 and 75 on offer: narrower widths come first, so 75. */
  lemma Width80PicksCondensed()
    ensures BestVariant(map["wdth" := 80.0], [Normal, Condensed]) == Some(Condensed)
  {
    var axes := map["wdth" := 80.0];
    var s := [Normal, Condensed];
    var pw := WidthPass(axes);
    assert pw == Pass(Wdth, 80.0, true, None);
    assert s[..1] == [Normal] && [Normal][..0] == [];
    assert SortBy(pw, [Normal]) == [Normal];
    assert Clamp(Normal, Wdth, 80.0) == 100.0 && Clamp(Condensed, Wdth, 80.0) == 75.0;
    assert Cmp(pw, Normal, Condensed) == 25.0;
    assert Insert(pw, [], Condensed) == [Condensed];
    assert SortBy(pw, s) == [Condensed, Normal];
    assert !InRange(Normal, Wdth, 75.0);
    assert Keep([Normal], Wdth, 75.0) == [];
    assert SortAndFilter(pw, s) == [Condensed];
    SingleChosenAfterFirstPass(axes, Condensed);
  }

  /** When the width pass leaves one well-formed variant, it is the result. */
  lemma SingleChosenAfterFirstPass(axes: Axes, x: Variant)
    requires WellFormed(x)
    ensures SortAndFilter(WeightPass(axes), ItalSlntPasses(axes, [x])) == [x]
  {
    SinglePass(UprightSlntPass, x);
    SinglePass(UprightItalPass, x);
    SinglePass(ObliquePass(axes, [x]), x);
    SinglePass(WeightPass(axes), x);
  }

  /** Italic requested, no italic variant: an oblique face wins over the upright one. */
  lemma ItalicFallsBackToOblique()
    ensures BestVariant(map["ital" := 1.0], [Upright, Oblique]) == Some(Oblique)
  {
    var axes := map["ital" := 1.0];
    ItalicWidthPass();
    ItalicObliquePass();
    SinglePass(WeightPass(axes), Oblique);
  }

  /** The width pass keeps both faces of `ItalicFallsBackToOblique`, in order. */
  lemma ItalicWidthPass()
    ensures SortAndFilter(WidthPass(map["ital" := 1.0]), [Upright, Oblique]) == [Upright, Oblique]
  {
    var s := [Upright, Oblique];
    var pw := WidthPass(map["ital" := 1.0]);
    assert pw == Pass(Wdth, 100.0, true, None);
    assert s[..1] == [Upright] && [Upright][..0] == [];
    assert SortBy(pw, [Upright]) == [Upright];
    assert Clamp(Upright, Wdth, 100.0) == 100.0 && Clamp(Oblique, Wdth, 100.0) == 100.0;
    assert Cmp(pw, Upright, Oblique) == 0.0;
    assert SortBy(pw, s) == s;
  }

  /** With no italic face, the slant pass of `ItalicFallsBackToOblique` keeps only the oblique one. */
  lemma ItalicObliquePass()
    ensures ItalSlntPasses(map["ital" := 1.0], [Upright, Oblique]) == [Oblique]
  {
    var axes := map["ital" := 1.0];
    var s := [Upright, Oblique];
    assert s[..1] == [Upright] && [Upright][..0] == [];
    assert !UprightRequested(axes);
    assert Clamp(Upright, Ital, 1.0) == 0.0 && Clamp(Oblique, Ital, 1.0) == 0.0;
    assert !AnyItalic(s);
    assert Clamp(s[1], Slnt, -11.0) == -12.0;
    assert AnySlantTowards(s, 1.0, 0.0);
    var p := ObliquePass(axes, s);
    assert p == Pass(Slnt, -11.0, true, None);
    assert SortBy(p, [Upright]) == [Upright];
    assert Clamp(Upright, Slnt, -11.0) == 0.0;
    assert Cmp(p, Upright, Oblique) == 12.0;
    assert Insert(p, [], Oblique) == [Oblique];
    assert SortBy(p, s) == [Oblique, Upright];
    assert !InRange(Upright, Slnt, -12.0);
    assert Keep([Upright], Slnt, -12.0) == [];
  }

  /** Well-formed variants never make `getBestVariant` throw: no pass before the last empties the list. */
  lemma WellFormedNeverThrows(axes: Axes, s: seq<Variant>)
    requires AllWellFormed(s)
    ensures !BestThrows(axes, s)
  {
    if s != [] {
      var w := SortAndFilter(WidthPass(axes), s);
      PassKeepsFirst(WidthPass(axes), s);
      ItalSlntKeeps(axes, w);
      if UprightRequested(axes) {
        PassKeepsFirst(UprightSlntPass, w);
      }
    }
  }

  /** Where the code throws, the model's result is `None`. */
  lemma ThrowsGivesNone(axes: Axes, s: seq<Variant>)
    requires BestThrows(axes, s)
    ensures BestVariant(axes, s).None?
  {
    var w := SortAndFilter(WidthPass(axes), s);
    if w == [] {
      assert SortAndFilter(UprightSlntPass, w) == [];
      assert SortAndFilter(UprightItalPass, []) == [];
      assert SortAndFilter(ObliquePass(axes, w), w) == [];
    } else if UprightRequested(axes) && SortAndFilter(UprightSlntPass, w) == [] {
      assert SortAndFilter(UprightItalPass, []) == [];
    }
    assert SortAndFilter(WeightPass(axes), []) == [];
  }

  /** A variant whose width range is written backwards, `font-stretch: 125% 75%`. */
  const Reversed := Variant("reversed", map["wdth" := Range(125.0, 75.0)])

  /**
   * With no width requested, the reversed range clamps the target to 125,
   * which the range does not contain: the width pass empties the list and
   * the slant pass after it throws.
   */
  lemma ReversedWidthThrows()
    ensures BestThrows(map[], [Reversed])
    ensures BestVariant(map[], [Reversed]).None?
  {
    var pw := WidthPass(map[]);
    assert pw == Pass(Wdth, 100.0, true, None);
    assert [Reversed][..0] == [];
    assert SortBy(pw, [Reversed]) == [Reversed];
    assert Clamp(Reversed, Wdth, 100.0) == 125.0;
    assert !InRange(Reversed, Wdth, 125.0);
    assert Keep([Reversed], Wdth, 125.0) == [];
    ThrowsGivesNone(map[], [Reversed]);
  }
}
