/**
 * The option helpers of bin/cli.js: the parsers of `--family-classes` and
 * `--fallback-glyph`, `groupBy`, the two formatters of the statistics
 * report, and the merge of the command-line parameters into the config
 * file's.  `Number.prototype.toString` is the parameter `show` of the
 * formatters.
 */
module Cli {
  import opened Wrappers
  import opened Strings
  import opened Numbers
  import opened FontStyle

  /* ---------- parseFamilyClasses ---------- */

  /** What `parseFamilyClasses` gives: `null`, the classes, or a `TypeError`. */
  datatype Classes = NoClasses | Classes(byClass: map<string, seq<string>>) | Throws

  /**
   * One `cls:families` item: the text before the first `:` and the text
   * between it and the next `:` split on `,`; `None` when there is no `:`
   * (`families` is `undefined` and `families.split` throws).
   */
  function ClassItem(item: string): (r: Option<(string, seq<string>)>)
    ensures r.None? <==> ':' !in item
  {
    var parts := Split(item, ':');
    SplitOne(item, ':');
    if |parts| < 2 then None else Some((parts[0], Split(parts[1], ',')))
  }

  /** The `reduce` over the items: a class with a name replaces an earlier one of that name. */
  function AddClasses(items: seq<string>): Option<map<string, seq<string>>>
    decreases |items|
  {
    if items == [] then Some(map[])
    else match AddClasses(items[..|items| - 1])
      case None => None
      case Some(acc) =>
        match ClassItem(items[|items| - 1])
        case None => None
        case Some((cls, families)) => Some(if cls != "" && |families| > 0 then acc[cls := families] else acc)
  }

  /** `parseFamilyClasses`: `null` exactly for an empty option. */
  function ParseFamilyClasses(input: string): (r: Classes)
    ensures r.NoClasses? <==> input == ""
  {
    if input == "" then NoClasses
    else match AddClasses(Split(input, ';'))
      case None => Throws
      case Some(m) => Classes(m)
  }

  /** The option text for a list of classes. */
  function FormatClasses(entries: seq<(string, seq<string>)>): string {
    Join(ItemTexts(entries), ';')
  }

  function ItemTexts(entries: seq<(string, seq<string>)>): (r: seq<string>)
    ensures |r| == |entries|
    ensures forall i :: 0 <= i < |entries| ==> r[i] == entries[i].0 + [':'] + Join(entries[i].1, ',')
  {
    seq(|entries|, i requires 0 <= i < |entries| => entries[i].0 + [':'] + Join(entries[i].1, ','))
  }

  /** The classes of a list, a later entry replacing an earlier one of the same name. */
  function ClassMap(entries: seq<(string, seq<string>)>): map<string, seq<string>>
    decreases |entries|
  {
    if entries == [] then map[]
    else
      var e := entries[|entries| - 1];
      ClassMap(entries[..|entries| - 1])[e.0 := e.1]
  }

  /** An entry the option syntax can carry: a non-empty class and non-empty family list, no separators. */
  predicate Writable(e: (string, seq<string>)) {
    e.0 != "" && ':' !in e.0 && ';' !in e.0 && |e.1| >= 1 &&
    forall j :: 0 <= j < |e.1| ==> ',' !in e.1[j] && ':' !in e.1[j] && ';' !in e.1[j]
  }

  /* ---------- parseFallbackGlyph ---------- */

  /** `parseFallbackGlyph`: the family and `parseInt` of the codepoint, when both are non-empty. */
  function ParseFallbackGlyph(input: string): (r: Option<(string, JsNum)>)
    ensures r.Some? ==> (r.value.0 != "" && ',' !in r.value.0 && |r.value.0| < |input| &&
                         input[..|r.value.0| + 1] == r.value.0 + [','])
  {
    if input == "" then None
    else
      var parts := Split(input, ',');
      SplitHead(input, ',');
      var family := parts[0];
      var codepoint := if |parts| >= 2 then parts[1] else "";
      if family != "" && codepoint != "" then Some((family, ParseInt(codepoint))) else None
  }

  /* ---------- lemmas on the splitting helpers ---------- */

  /** A split has one part exactly when the separator is absent. */
  lemma SplitOne(s: string, c: char)
    ensures |Split(s, c)| == 1 <==> c !in s
  {
    match IndexOfChar(s, c)
    case None =>
    case Some(i) =>
      assert Split(s, c) == [s[..i]] + Split(s[i + 1..], c);
  }

  /** With a separator present, the first part is the text before it. */
  lemma SplitHead(s: string, c: char)
    ensures c in s ==> |Split(s, c)[0]| < |s| && s[..|Split(s, c)[0]| + 1] == Split(s, c)[0] + [c]
    ensures c !in s ==> Split(s, c) == [s]
  {
    match IndexOfChar(s, c)
    case None =>
    case Some(i) =>
      assert Split(s, c)[0] == s[..i];
  }

  /* ---------- properties of the parsers ---------- */

  /** The items fail exactly when one of them has no `:`. */
  lemma {:induction false} AddClassesThrows(items: seq<string>)
    ensures AddClasses(items).None? <==> exists i :: 0 <= i < |items| && ':' !in items[i]
    decreases |items|
  {
    if items != [] {
      var init := items[..|items| - 1];
      AddClassesThrows(init);
      if exists i :: 0 <= i < |init| && ':' !in init[i] {
        var i :| 0 <= i < |init| && ':' !in init[i];
        assert items[i] == init[i];
      }
      if exists i :: 0 <= i < |items| && ':' !in items[i] {
        var i :| 0 <= i < |items| && ':' !in items[i];
        if i < |init| {
          assert init[i] == items[i];
        }
      }
    }
  }

  /** Empty input is `null`; otherwise the parse throws exactly when an item has no `:`. */
  lemma ClassesThrowIff(input: string)
    ensures ParseFamilyClasses("") == NoClasses
    ensures ParseFamilyClasses(input) == Throws <==>
      input != "" && exists i :: 0 <= i < |Split(input, ';')| && ':' !in Split(input, ';')[i]
  {
    if input != "" {
      AddClassesThrows(Split(input, ';'));
      assert ParseFamilyClasses(input) == Throws <==> AddClasses(Split(input, ';')).None?;
    }
  }

  /** The item text of a writable entry parses back to the entry. */
  lemma ClassItemOf(e: (string, seq<string>))
    requires Writable(e)
    ensures ClassItem(e.0 + [':'] + Join(e.1, ',')) == Some(e)
  {
    var f := Join(e.1, ',');
    JoinSplit(e.1, ',');
    assert ':' !in f by {
      SplitJoin(f, ',');
      JoinNoChar(e.1, ',', ':');
    }
    assert Join([e.0, f], ':') == e.0 + [':'] + f;
    JoinSplit([e.0, f], ':');
  }

  /** A character absent from every part and different from the separator is absent from the join. */
  lemma {:induction false} JoinNoChar(parts: seq<string>, sep: char, c: char)
    requires c != sep
    requires forall j :: 0 <= j < |parts| ==> c !in parts[j]
    ensures c !in Join(parts, sep)
    decreases |parts|
  {
    if |parts| > 1 {
      JoinNoChar(parts[1..], sep, c);
    }
  }

  /** Parsing the items of writable entries builds their class map. */
  lemma {:induction false} AddClassesOf(entries: seq<(string, seq<string>)>)
    requires forall i :: 0 <= i < |entries| ==> Writable(entries[i])
    ensures AddClasses(ItemTexts(entries)) == Some(ClassMap(entries))
    decreases |entries|
  {
    if entries != [] {
      var init := entries[..|entries| - 1];
      assert ItemTexts(entries)[..|entries| - 1] == ItemTexts(init);
      AddClassesOf(init);
      ClassItemOf(entries[|entries| - 1]);
    }
  }

  /**
   * `cls:a,b;cls2:c` parses to `{cls: [a, b], cls2: [c]}`: the option text
   * of writable entries parses back to their classes, untrimmed, a later
   * duplicate class replacing an earlier one.
   */
  lemma ClassesRoundTrip(entries: seq<(string, seq<string>)>)
    requires |entries| >= 1
    requires forall i :: 0 <= i < |entries| ==> Writable(entries[i])
    ensures ParseFamilyClasses(FormatClasses(entries)) == Classes(ClassMap(entries))
  {
    var items := ItemTexts(entries);
    forall i | 0 <= i < |items|
      ensures ';' !in items[i]
    {
      JoinNoChar(entries[i].1, ',', ';');
    }
    JoinSplit(items, ';');
    assert FormatClasses(entries) != "" by {
      assert |FormatClasses(entries)| >= |items[0]| by {
        JoinHead(items, ';');
      }
    }
    AddClassesOf(entries);
  }

  /** The join is at least as long as its first part. */
  lemma JoinHead(parts: seq<string>, sep: char)
    requires |parts| >= 1
    ensures |Join(parts, sep)| >= |parts[0]|
  {
  }

  /** The later of two entries of one class wins. */
  lemma DuplicateClass(cls: string, a: seq<string>, b: seq<string>)
    requires Writable((cls, a)) && Writable((cls, b))
    ensures ParseFamilyClasses(FormatClasses([(cls, a), (cls, b)])) == Classes(map[cls := b])
  {
    var es := [(cls, a), (cls, b)];
    ClassesRoundTrip(es);
    assert es[..1] == [(cls, a)];
    assert [(cls, a)][..0] == [];
    assert ClassMap([(cls, a)]) == map[cls := a];
    assert ClassMap(es) == map[cls := a][cls := b];
  }

  /** A split at a first separator: the text before it, then the split of the rest. */
  lemma SplitAfter(a: string, c: char, b: string)
    requires c !in a
    ensures Split(a + [c] + b, c) == [a] + Split(b, c)
  {
    var s := a + [c] + b;
    IndexOfCharAfter(a, c, b);
    assert s[..|a|] == a && s[|a| + 1..] == b;
  }

  /** `family,codepoint` gives the family and the number. */
  lemma FallbackGlyphOf(family: string, n: nat)
    requires family != "" && ',' !in family
    ensures ParseFallbackGlyph(family + [','] + NatToString(n)) == Some((family, Num(n as real)))
  {
    var d := NatToString(n);
    assert ',' !in d by {
      assert forall k :: 0 <= k < |d| ==> IsDigit(d[k]);
    }
    SplitAfter(family, ',', d);
    SplitHead(d, ',');
    ParseIntNat(n, []);
    assert d + [] == d;
  }

  /** A codepoint that is not a number, `--fallback-glyph Arial,x`, gives the glyph `NaN`. */
  lemma FallbackGlyphNaN()
    ensures ParseFallbackGlyph("Arial,x") == Some(("Arial", NaN))
  {
    SplitAfter("Arial", ',', "x");
    SplitHead("x", ',');
    assert "Arial" + [','] + "x" == "Arial,x";
  }

  /** Parts after the codepoint are ignored. */
  lemma FallbackExtraIgnored(family: string, codepoint: string, more: string)
    requires ',' !in family && ',' !in codepoint
    ensures ParseFallbackGlyph(family + [','] + codepoint + [','] + more) == ParseFallbackGlyph(family + [','] + codepoint)
  {
    assert family + [','] + codepoint + [','] + more == family + [','] + (codepoint + [','] + more);
    SplitAfter(family, ',', codepoint + [','] + more);
    SplitAfter(codepoint, ',', more);
    SplitAfter(family, ',', codepoint);
    SplitHead(codepoint, ',');
  }

  /** Without a comma, or with an empty family or codepoint, the result is `null`. */
  lemma FallbackGlyphNull(family: string, codepoint: string)
    requires ',' !in family
    ensures ParseFallbackGlyph(family) == None
    ensures ParseFallbackGlyph([','] + codepoint) == None
    ensures ParseFallbackGlyph(family + [',']) == None
  {
    SplitHead(family, ',');
    SplitHead([','] + codepoint, ',');
    JoinSplit([family, ""], ',');
    assert Join([family, ""], ',') == family + [','];
  }

  /* ---------- groupBy ---------- */

  /** The items of `data` whose key is `k`, in order. */
  function Having<T, K(==)>(data: seq<T>, key: T -> K, k: K): (r: seq<T>)
    ensures |r| <= |data|
    ensures forall i :: 0 <= i < |r| ==> key(r[i]) == k
    decreases |data|
  {
    if data == [] then []
    else Having(data[..|data| - 1], key, k) + (if key(data[|data| - 1]) == k then [data[|data| - 1]] else [])
  }

  /** The keys of `data` in order of first appearance. */
  function KeyOrder<T, K(==)>(data: seq<T>, key: T -> K): seq<K>
    decreases |data|
  {
    if data == [] then []
    else
      var keys := KeyOrder(data[..|data| - 1], key);
      if key(data[|data| - 1]) in keys then keys else keys + [key(data[|data| - 1])]
  }

  /** The groups `groupBy` builds, one step per item. */
  function Groups<T, K(==)>(data: seq<T>, key: T -> K): map<K, seq<T>>
    decreases |data|
  {
    if data == [] then map[]
    else
      var g := Groups(data[..|data| - 1], key);
      var x := data[|data| - 1];
      g[key(x) := (if key(x) in g then g[key(x)] else []) + [x]]
  }

  /**
   * `groupBy`: the items by key, with the keys in the order the object
   * lists them (insertion order, as for non-numeric property names).
   */
  method GroupBy<T, K(==)>(data: seq<T>, key: T -> K) returns (keys: seq<K>, groups: map<K, seq<T>>)
    ensures keys == KeyOrder(data, key) && groups == Groups(data, key)
  {
    keys, groups := [], map[];
    var i := 0;
    while i < |data|
      invariant 0 <= i <= |data|
      invariant keys == KeyOrder(data[..i], key) && groups == Groups(data[..i], key)
    {
      var k := key(data[i]);
      if k !in groups {
        keys := keys + [k];
        groups := groups[k := []];
      }
      groups := groups[k := groups[k] + [data[i]]];
      assert data[..i + 1][..i] == data[..i];
      GroupKeys(data[..i], key);
      i := i + 1;
    }
    assert data[..i] == data;
  }

  /** The key order lists each key of the groups once. */
  lemma {:induction false} GroupKeys<T, K>(data: seq<T>, key: T -> K)
    ensures forall k :: k in KeyOrder(data, key) <==> k in Groups(data, key)
    ensures forall i, j :: 0 <= i < j < |KeyOrder(data, key)| ==> KeyOrder(data, key)[i] != KeyOrder(data, key)[j]
    decreases |data|
  {
    if data != [] {
      GroupKeys(data[..|data| - 1], key);
    }
  }

  /**
   * Each group holds exactly the items of its key, in input order, and a
   * key has a group exactly when some item has it.
   */
  lemma {:induction false} GroupsKeepOrder<T, K>(data: seq<T>, key: T -> K, k: K)
    ensures k in Groups(data, key) <==> exists i :: 0 <= i < |data| && key(data[i]) == k
    ensures k in Groups(data, key) ==> Groups(data, key)[k] == Having(data, key, k)
    ensures k !in Groups(data, key) ==> Having(data, key, k) == []
    decreases |data|
  {
    if data != [] {
      var init := data[..|data| - 1];
      GroupsKeepOrder(init, key, k);
      if exists i :: 0 <= i < |init| && key(init[i]) == k {
        var i :| 0 <= i < |init| && key(init[i]) == k;
        assert data[i] == init[i];
      }
      if exists i :: 0 <= i < |data| && key(data[i]) == k {
        var i :| 0 <= i < |data| && key(data[i]) == k;
        if i < |init| {
          assert init[i] == data[i];
        }
      }
    }
  }

  /** `r` is the items of `data` at the strictly increasing indices `idx`. */
  ghost predicate Selects<T>(r: seq<T>, data: seq<T>, idx: seq<nat>) {
    |idx| == |r| &&
    (forall i :: 0 <= i < |idx| ==> idx[i] < |data| && r[i] == data[idx[i]]) &&
    (forall i, j :: 0 <= i < j < |idx| ==> idx[i] < idx[j])
  }

  /** Appending an item to `data` keeps a selection, and appending it to both selects it as well. */
  lemma SelectsGrow<T>(r: seq<T>, init: seq<T>, x: T, idx: seq<nat>)
    requires Selects(r, init, idx)
    ensures Selects(r, init + [x], idx)
    ensures Selects(r + [x], init + [x], idx + [|init|])
  {
    var d := init + [x];
    assert forall i :: 0 <= i < |idx| ==> d[idx[i]] == init[idx[i]];
  }

  /** The indices of one key in `data`, given those in all but its last item. */
  lemma KeyIndicesGrow<T, K>(data: seq<T>, key: T -> K, k: K, idx: seq<nat>)
    requires data != []
    requires forall j :: 0 <= j < |data| - 1 ==> (j in idx <==> key(data[j]) == k)
    requires forall i :: 0 <= i < |idx| ==> idx[i] < |data| - 1
    ensures var n := |data| - 1;
      var idx' := if key(data[n]) == k then idx + [n] else idx;
      forall j :: 0 <= j < |data| ==> (j in idx' <==> key(data[j]) == k)
  {
  }

  /** The selection of one key in `data`, given that in all but its last item. */
  lemma HavingSelectsStep<T, K>(data: seq<T>, key: T -> K, k: K, idx: seq<nat>)
    requires data != []
    requires var init := data[..|data| - 1];
      Selects(Having(init, key, k), init, idx) && forall j :: 0 <= j < |init| ==> (j in idx <==> key(init[j]) == k)
    ensures var n := |data| - 1;
      var idx' := if key(data[n]) == k then idx + [n] else idx;
      Selects(Having(data, key, k), data, idx') && forall j :: 0 <= j < |data| ==> (j in idx' <==> key(data[j]) == k)
  {
    var init := data[..|data| - 1];
    var x := data[|data| - 1];
    assert data == init + [x];
    SelectsGrow(Having(init, key, k), init, x, idx);
    KeyIndicesGrow(data, key, k, idx);
  }

  /** The items of one key form the subsequence of `data` at exactly the indices holding that key. */
  lemma {:induction false} HavingSelects<T, K>(data: seq<T>, key: T -> K, k: K)
    ensures exists idx :: (Selects(Having(data, key, k), data, idx) &&
                           forall j :: 0 <= j < |data| ==> (j in idx <==> key(data[j]) == k))
    decreases |data|
  {
    if data == [] {
      var idx: seq<nat> := [];
      assert Selects(Having(data, key, k), data, idx);
    } else {
      var init := data[..|data| - 1];
      HavingSelects(init, key, k);
      var idx :| Selects(Having(init, key, k), init, idx) &&
        forall j :: 0 <= j < |init| ==> (j in idx <==> key(init[j]) == k);
      HavingSelectsStep(data, key, k, idx);
    }
  }

  /** Grouping loses and adds nothing: an item is in the input exactly when it is in its key's group. */
  lemma {:induction false} HavingPartition<T, K>(data: seq<T>, key: T -> K, x: T)
    ensures x in data <==> x in Having(data, key, key(x))
    decreases |data|
  {
    if data != [] {
      var init := data[..|data| - 1];
      HavingPartition(init, key, x);
      assert data == init + [data[|data| - 1]];
    }
  }

  /* ---------- warningToString ---------- */

  /** The default table of `warningToString` as written, in its key order: `wdth` 400 and `wght` 100. */
  const TableAsWritten: seq<(string, real)> := [("wdth", 400.0), ("ital", 0.0), ("wght", 100.0), ("slnt", 0.0)]

  /** The same table with the defaults the matcher uses (`axisDefault`): `wdth` 100 and `wght` 400. */
  const Table: seq<(string, real)> := [("wdth", 100.0), ("ital", 0.0), ("wght", 400.0), ("slnt", 0.0)]

  /** The axes of the table, in its order. */
  const TableAxes: seq<Axis> := [Wdth, Ital, Wght, Slnt]

  /** `variant[axis] ?? def` as a pair `[from, to]`. */
  function Span(v: Variant, name: string, def: real): (real, real) {
    if name in v.axes then
      match v.axes[name]
      case Point(x) => (x, x)
      case Range(f, t) => (f, t)
    else (def, def)
  }

  /** The requested value is listed when it is not the default or lies outside the variant's span. */
  function RequestPart(e: (string, real), axes: Axes, v: Variant, show: real -> string): Option<string> {
    var a := AxisOr(axes, e.0, e.1);
    var span := Span(v, e.0, e.1);
    if a != e.1 || a < span.0 || a > span.1 then Some(e.0 + "=" + show(a)) else None
  }

  /** `axis=from..to` for a proper range, `axis=from` otherwise. */
  function SpanText(name: string, span: (real, real), show: real -> string): string {
    if span.1 > span.0 then name + "=" + show(span.0) + ".." + show(span.1) else name + "=" + show(span.0)
  }

  /** The variant's span is listed when it is not the default or misses the requested value. */
  function OfferPart(e: (string, real), axes: Axes, v: Variant, show: real -> string): Option<string> {
    var a := AxisOr(axes, e.0, e.1);
    var span := Span(v, e.0, e.1);
    if span.0 != e.1 || span.1 != e.1 || a < span.0 || a > span.1 then Some(SpanText(e.0, span, show)) else None
  }

  function Listed(part: Option<string>): seq<string> {
    if part.Some? then [part.value] else []
  }

  /** `aList` after the loop over `table`. */
  function RequestParts(table: seq<(string, real)>, axes: Axes, v: Variant, show: real -> string): seq<string>
    decreases |table|
  {
    if table == [] then []
    else RequestParts(table[..|table| - 1], axes, v, show) + Listed(RequestPart(table[|table| - 1], axes, v, show))
  }

  /** `vList` after the loop over `table`. */
  function OfferParts(table: seq<(string, real)>, axes: Axes, v: Variant, show: real -> string): seq<string>
    decreases |table|
  {
    if table == [] then []
    else OfferParts(table[..|table| - 1], axes, v, show) + Listed(OfferPart(table[|table| - 1], axes, v, show))
  }

  /** `requested >> variant`. */
  function WarningText(table: seq<(string, real)>, axes: Axes, v: Variant, show: real -> string): string {
    Join(RequestParts(table, axes, v, show), ',') + " >> " + Join(OfferParts(table, axes, v, show), ',')
  }

  /** `warningToString`, with the matcher's defaults. */
  method WarningToString(axes: Axes, v: Variant, show: real -> string) returns (s: string)
    ensures s == WarningText(Table, axes, v, show)
  {
    var aList: seq<string> := [];
    var vList: seq<string> := [];
    for i := 0 to |Table|
      invariant aList == RequestParts(Table[..i], axes, v, show)
      invariant vList == OfferParts(Table[..i], axes, v, show)
    {
      var (axis, def) := Table[i];
      var aVal := if axis in axes then axes[axis] else def;
      var vVal := if axis !in v.axes then (def, def)
        else match v.axes[axis]
          case Point(x) => (x, x)
          case Range(f, t) => (f, t);
      if aVal != def || aVal < vVal.0 || aVal > vVal.1 {
        aList := aList + [axis + "=" + show(aVal)];
      }
      if vVal.0 != def || vVal.1 != def || aVal < vVal.0 || aVal > vVal.1 {
        if vVal.1 > vVal.0 {
          vList := vList + [axis + "=" + show(vVal.0) + ".." + show(vVal.1)];
        } else {
          vList := vList + [axis + "=" + show(vVal.0)];
        }
      }
      assert Table[..i + 1][..i] == Table[..i];
    }
    assert Table[..|Table|] == Table;
    s := Join(aList, ',') + " >> " + Join(vList, ',');
  }

  /** A part listed for an entry of the table is in the list. */
  lemma {:induction false} PartsHave(table: seq<(string, real)>, axes: Axes, v: Variant, show: real -> string, i: nat)
    requires i < |table|
    ensures RequestPart(table[i], axes, v, show).Some? ==>
      RequestPart(table[i], axes, v, show).value in RequestParts(table, axes, v, show)
    ensures OfferPart(table[i], axes, v, show).Some? ==>
      OfferPart(table[i], axes, v, show).value in OfferParts(table, axes, v, show)
    decreases |table|
  {
    if i < |table| - 1 {
      PartsHave(table[..|table| - 1], axes, v, show, i);
    }
  }

  /** An entry of the corrected table reads the request and the variant as the matcher does. */
  lemma TableAgrees(axes: Axes, v: Variant, i: nat)
    requires i < |Table|
    ensures Table[i] == (TableAxes[i].Name(), TableAxes[i].Default())
    ensures AxisOr(axes, Table[i].0, Table[i].1) == Requested(axes, TableAxes[i]).GetOr(TableAxes[i].Default())
    ensures Span(v, Table[i].0, Table[i].1) == NormalizeVariantAxis(v, TableAxes[i])
  {
  }

  /**
   * With the matcher's defaults, an axis on which the variant does not
   * match the request is listed on both sides of the warning, and an axis
   * that is requested at its default value and that the variant leaves at
   * its default is listed on neither.
   */
  lemma MismatchListed(axes: Axes, v: Variant, show: real -> string, i: nat)
    requires i < |Table|
    ensures var a := TableAxes[i];
      !MatchAxis(axes, v, a) ==>
        a.Name() + "=" + show(AxisOr(axes, a.Name(), a.Default())) in RequestParts(Table, axes, v, show) &&
        SpanText(a.Name(), NormalizeVariantAxis(v, a), show) in OfferParts(Table, axes, v, show)
    ensures var a := TableAxes[i];
      AxisOr(axes, a.Name(), a.Default()) == a.Default() && NormalizeVariantAxis(v, a) == (a.Default(), a.Default()) ==>
        RequestPart(Table[i], axes, v, show).None? && OfferPart(Table[i], axes, v, show).None?
  {
    TableAgrees(axes, v, i);
    PartsHave(Table, axes, v, show, i);
  }

  /** The loop over a four-entry table, unrolled. */
  lemma Unroll4(t: seq<(string, real)>, axes: Axes, v: Variant, show: real -> string)
    requires |t| == 4
    ensures RequestParts(t, axes, v, show) ==
      Listed(RequestPart(t[0], axes, v, show)) + Listed(RequestPart(t[1], axes, v, show)) +
      Listed(RequestPart(t[2], axes, v, show)) + Listed(RequestPart(t[3], axes, v, show))
    ensures OfferParts(t, axes, v, show) ==
      Listed(OfferPart(t[0], axes, v, show)) + Listed(OfferPart(t[1], axes, v, show)) +
      Listed(OfferPart(t[2], axes, v, show)) + Listed(OfferPart(t[3], axes, v, show))
  {
    assert t[..1][..0] == [] && t[..2][..1] == t[..1] && t[..3][..2] == t[..2] && t[..4][..3] == t[..3] && t[..4] == t;
    var l := (e: (string, real)) => Listed(RequestPart(e, axes, v, show));
    var m := (e: (string, real)) => Listed(OfferPart(e, axes, v, show));
    assert RequestParts(t[..1], axes, v, show) == l(t[0]) && OfferParts(t[..1], axes, v, show) == m(t[0]);
    assert RequestParts(t[..2], axes, v, show) == l(t[0]) + l(t[1]) && OfferParts(t[..2], axes, v, show) == m(t[0]) + m(t[1]);
    assert RequestParts(t[..3], axes, v, show) == l(t[0]) + l(t[1]) + l(t[2]);
    assert OfferParts(t[..3], axes, v, show) == m(t[0]) + m(t[1]) + m(t[2]);
  }

  /** The request of a normal upright style: no width, weight 400, no italic, no slant. */
  const UprightRequest: Axes := map["wght" := 400.0, "ital" := 0.0, "slnt" := 0.0]

  /** A variant that only declares itself italic. */
  const ItalicOnly: Variant := Variant("italic.ttf", map["ital" := Point(1.0)])

  /**
   * As written, the table's `wght` default of 100 makes the warning for
   * an upright request against an italic-only variant report a weight
   * mismatch of 400 against 100, although the matcher reads the variant's
   * absent weight as 400 and finds the weight matching.
   */
  lemma DefaultsAsWritten(show: real -> string)
    ensures MatchAxis(UprightRequest, ItalicOnly, Wght) && NormalizeVariantAxis(ItalicOnly, Wght) == (400.0, 400.0)
    ensures RequestParts(TableAsWritten, UprightRequest, ItalicOnly, show) == ["ital=" + show(0.0), "wght=" + show(400.0)]
    ensures OfferParts(TableAsWritten, UprightRequest, ItalicOnly, show) == ["ital=" + show(1.0), "wght=" + show(100.0)]
  {
    var t := TableAsWritten;
    var (r, o) := (UprightRequest, ItalicOnly);
    Unroll4(t, r, o, show);
    assert "ital" + "=" == "ital=" && "wght" + "=" == "wght=";
    assert RequestPart(t[0], r, o, show) == None && OfferPart(t[0], r, o, show) == None;
    assert RequestPart(t[1], r, o, show) == Some("ital=" + show(0.0)) && OfferPart(t[1], r, o, show) == Some("ital=" + show(1.0));
    assert RequestPart(t[2], r, o, show) == Some("wght=" + show(400.0)) && OfferPart(t[2], r, o, show) == Some("wght=" + show(100.0));
    assert RequestPart(t[3], r, o, show) == None && OfferPart(t[3], r, o, show) == None;
  }

  /** With the matcher's defaults the same warning reports only the italic mismatch. */
  lemma DefaultsCorrected(show: real -> string)
    ensures RequestParts(Table, UprightRequest, ItalicOnly, show) == ["ital=" + show(0.0)]
    ensures OfferParts(Table, UprightRequest, ItalicOnly, show) == ["ital=" + show(1.0)]
    ensures WarningText(Table, UprightRequest, ItalicOnly, show) == "ital=" + show(0.0) + " >> ital=" + show(1.0)
  {
    var t := Table;
    var (r, o) := (UprightRequest, ItalicOnly);
    Unroll4(t, r, o, show);
    assert "ital" + "=" == "ital=";
    assert RequestPart(t[0], r, o, show) == None && OfferPart(t[0], r, o, show) == None;
    assert RequestPart(t[1], r, o, show) == Some("ital=" + show(0.0)) && OfferPart(t[1], r, o, show) == Some("ital=" + show(1.0));
    assert RequestPart(t[2], r, o, show) == None && OfferPart(t[2], r, o, show) == None;
    assert RequestPart(t[3], r, o, show) == None && OfferPart(t[3], r, o, show) == None;
  }

  /* ---------- variantToString ---------- */

  /** The axes `variantToString` reports, in its order. */
  const ReportOrder: seq<string> := ["wght", "ital", "wdth", "slnt"]

  /** `axis=value`, or `axis=from..to` for a range. */
  function AxisText(name: string, val: AxisValue, show: real -> string): string {
    match val
    case Point(x) => name + "=" + show(x)
    case Range(f, t) => name + "=" + show(f) + ".." + show(t)
  }

  /** The texts of the named axes the variant defines, in the order of `names`. */
  function AxisTexts(names: seq<string>, axes: map<string, AxisValue>, show: real -> string): seq<string>
    decreases |names|
  {
    if names == [] then []
    else
      var n := names[|names| - 1];
      AxisTexts(names[..|names| - 1], axes, show) + (if n in axes then [AxisText(n, axes[n], show)] else [])
  }

  /** `variantToString`: the text is empty exactly when the variant defines none of the reported axes. */
  function VariantToString(v: Variant, show: real -> string): (r: string)
    ensures r == "" <==> forall j :: 0 <= j < |ReportOrder| ==> ReportOrder[j] !in v.axes
  {
    var parts := AxisTexts(ReportOrder, v.axes, show);
    AxisTextsEmpty(ReportOrder, v.axes, show);
    if parts == [] then Join(parts, ',')
    else
      JoinHead(parts, ',');
      assert parts[0] in parts;
      Join(parts, ',')
  }

  /** With non-empty names, every part is non-empty, and there is none exactly when no named axis is defined. */
  lemma {:induction false} AxisTextsEmpty(names: seq<string>, axes: map<string, AxisValue>, show: real -> string)
    requires forall j :: 0 <= j < |names| ==> names[j] != ""
    ensures AxisTexts(names, axes, show) == [] <==> forall j :: 0 <= j < |names| ==> names[j] !in axes
    ensures forall t :: t in AxisTexts(names, axes, show) ==> t != ""
    decreases |names|
  {
    if names != [] {
      var init := names[..|names| - 1];
      AxisTextsEmpty(init, axes, show);
      assert forall j :: 0 <= j < |init| ==> init[j] == names[j];
    }
  }

  /** Two variants that agree on the reported axes print the same: other axes never show. */
  lemma {:induction false} OnlyReportedAxes(names: seq<string>, a: map<string, AxisValue>, b: map<string, AxisValue>, show: real -> string)
    requires forall j :: 0 <= j < |names| ==> (names[j] in a <==> names[j] in b)
    requires forall j :: 0 <= j < |names| && names[j] in a ==> a[names[j]] == b[names[j]]
    ensures AxisTexts(names, a, show) == AxisTexts(names, b, show)
    decreases |names|
  {
    if names != [] {
      OnlyReportedAxes(names[..|names| - 1], a, b, show);
    }
  }

  /** A part never holds a comma when the names and the number texts do not. */
  lemma {:induction false} AxisTextsNoComma(names: seq<string>, axes: map<string, AxisValue>, show: real -> string)
    requires forall j :: 0 <= j < |names| ==> ',' !in names[j]
    requires forall x :: ',' !in show(x)
    ensures forall j :: 0 <= j < |AxisTexts(names, axes, show)| ==> ',' !in AxisTexts(names, axes, show)[j]
    decreases |names|
  {
    if names != [] {
      AxisTextsNoComma(names[..|names| - 1], axes, show);
    }
  }

  /**
   * Splitting the text on `,` gives back one part per defined axis, so a
   * number text without commas makes the report unambiguous.
   */
  lemma ReportSplits(v: Variant, show: real -> string)
    requires forall x :: ',' !in show(x)
    requires exists j :: 0 <= j < |ReportOrder| && ReportOrder[j] in v.axes
    ensures Split(VariantToString(v, show), ',') == AxisTexts(ReportOrder, v.axes, show)
  {
    var names := ReportOrder;
    assert forall j :: 0 <= j < |names| ==> ',' !in names[j];
    AxisTextsNoComma(names, v.axes, show);
    assert AxisTexts(names, v.axes, show) != [] by {
      var j :| 0 <= j < |names| && names[j] in v.axes;
      AxisTextsHave(names, v.axes, show, j);
    }
    JoinSplit(AxisTexts(names, v.axes, show), ',');
  }

  /** A defined axis has its text in the parts. */
  lemma {:induction false} AxisTextsHave(names: seq<string>, axes: map<string, AxisValue>, show: real -> string, j: nat)
    requires j < |names| && names[j] in axes
    ensures AxisText(names[j], axes[names[j]], show) in AxisTexts(names, axes, show)
    decreases |names|
  {
    if j < |names| - 1 {
      AxisTextsHave(names[..|names| - 1], axes, show, j);
    }
  }

  /** Whatever order the map was built in, the axes print as `wght`, `ital`, `wdth`, `slnt`. */
  lemma ReportOrderFixed(w: real, i: real, from: real, to: real, s: real, show: real -> string)
    ensures var v := Variant("", map["slnt" := Point(s), "wdth" := Range(from, to), "ital" := Point(i), "wght" := Point(w)]);
      AxisTexts(ReportOrder, v.axes, show) ==
        ["wght=" + show(w), "ital=" + show(i), "wdth=" + show(from) + ".." + show(to), "slnt=" + show(s)]
  {
    var v := Variant("", map["slnt" := Point(s), "wdth" := Range(from, to), "ital" := Point(i), "wght" := Point(w)]);
    var t := ReportOrder;
    assert "wght" + "=" == "wght=" && "ital" + "=" == "ital=" && "wdth" + "=" == "wdth=" && "slnt" + "=" == "slnt=";
    assert t[..1][..0] == [] && t[..2][..1] == t[..1] && t[..3][..2] == t[..2] && t[..4][..3] == t[..3] && t[..4] == t;
    assert AxisTexts(t[..1], v.axes, show) == ["wght=" + show(w)];
    assert AxisTexts(t[..2], v.axes, show) == ["wght=" + show(w), "ital=" + show(i)];
    assert AxisTexts(t[..3], v.axes, show) == ["wght=" + show(w), "ital=" + show(i), "wdth=" + show(from) + ".." + show(to)];
  }

  /** Names the variant does not define are omitted: with none of them defined there are no parts. */
  lemma {:induction false} NoReportedAxes(names: seq<string>, axes: map<string, AxisValue>, show: real -> string)
    requires forall j :: 0 <= j < |names| ==> names[j] !in axes
    ensures AxisTexts(names, axes, show) == []
    decreases |names|
  {
    if names != [] {
      NoReportedAxes(names[..|names| - 1], axes, show);
    }
  }

  /* ---------- parameters ---------- */

  /** The entries of the command-line parameters whose value is not `null`. */
  function Kept<V>(params: map<string, Option<V>>): (r: map<string, V>)
    ensures forall k :: k in r <==> k in params && params[k].Some?
    ensures forall k :: k in r ==> r[k] == params[k].value
  {
    map k | k in params && params[k].Some? :: params[k].value
  }

  /** The session parameters: the non-null command-line values, laid over the config file's when there is one. */
  function Merge<V>(config: Option<map<string, V>>, params: map<string, Option<V>>): map<string, V> {
    var kept := Kept(params);
    if config.Some? then config.value + kept else kept
  }

  /**
   * A non-null command-line value wins; a `null` or absent one leaves the
   * config file's value, if any; nothing else appears.
   */
  lemma MergeOverrides<V>(config: Option<map<string, V>>, params: map<string, Option<V>>, k: string)
    ensures k in params && params[k].Some? ==> k in Merge(config, params) && Merge(config, params)[k] == params[k].value
    ensures !(k in params && params[k].Some?) ==>
      (k in Merge(config, params) <==> config.Some? && k in config.value)
    ensures !(k in params && params[k].Some?) && k in Merge(config, params) ==>
      Merge(config, params)[k] == config.value[k]
  {
  }
}
