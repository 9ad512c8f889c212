/**
 * The statistics `Session.replaceAll` builds from the results of `replace`:
 * characters drawn per font variant, characters skipped, and the missed
 * families, style warnings and load errors without repetition.  JavaScript
 * `Map`s keep insertion order and a `set` on an existing key keeps its
 * place; they are modelled as sequences of key/value pairs.
 */
module SessionStats {
  import opened Wrappers
  import opened FontStyle
  import opened FontResolution
  import opened SessionText

  /** The value stored under `k`, if any. */
  function Lookup<K(==), V>(es: seq<(K, V)>, k: K): (r: Option<V>)
    ensures r.Some? <==> exists i :: 0 <= i < |es| && es[i].0 == k
    ensures r.Some? ==> exists i :: 0 <= i < |es| && es[i] == (k, r.value)
  {
    if es == [] then None
    else if es[0].0 == k then Some(es[0].1)
    else
      var r := Lookup(es[1..], k);
      assert forall i :: 1 <= i < |es| ==> es[i] == es[1..][i - 1];
      r
  }

  /** `map.set(k, v)`: the value replaced in place, or a new entry at the end. */
  function Upsert<K(==), V>(es: seq<(K, V)>, k: K, v: V): (r: seq<(K, V)>)
    ensures |r| == if Lookup(es, k).Some? then |es| else |es| + 1
    ensures forall i :: 0 <= i < |es| ==> r[i] == if es[i].0 == k then (k, v) else es[i]
    ensures Lookup(es, k).None? ==> r[|es|] == (k, v)
  {
    if Lookup(es, k).Some? then seq(|es|, i requires 0 <= i < |es| => if es[i].0 == k then (k, v) else es[i])
    else es + [(k, v)]
  }

  predicate DistinctKeys<K(==), V>(es: seq<(K, V)>) {
    forall i, j :: 0 <= i < j < |es| ==> es[i].0 != es[j].0
  }

  /** A map has each key at most once, whatever is set into it. */
  lemma UpsertDistinct<K, V>(es: seq<(K, V)>, k: K, v: V)
    requires DistinctKeys(es)
    ensures DistinctKeys(Upsert(es, k, v))
    ensures Lookup(Upsert(es, k, v), k) == Some(v)
  {
    var r := Upsert(es, k, v);
    if Lookup(es, k).Some? {
      var i :| 0 <= i < |es| && es[i].0 == k;
      assert r[i] == (k, v);
      LookupDistinct(r, i);
    } else {
      LookupDistinct(r, |es|);
    }
  }

  lemma LookupDistinct<K, V>(es: seq<(K, V)>, i: nat)
    requires DistinctKeys(es) && i < |es|
    ensures Lookup(es, es[i].0) == Some(es[i].1)
  {
    if i > 0 {
      assert es[1..][i - 1] == es[i];
      LookupDistinct(es[1..], i - 1);
    }
  }

  /** One entry of `used`: a font variant and the characters drawn with it. */
  datatype UsedItem = UsedItem(family: string, variant: Variant, chars: nat)

  /** `SessionStat`. */
  datatype SessionStat = SessionStat(
    total: nat,
    replaced: nat,
    used: seq<UsedItem>,
    skipped: nat,
    missed: seq<string>,
    warnings: seq<Warning>,
    errors: seq<LoadError>)

  /** The maps `replaceAll` fills, in insertion order. */
  datatype Acc = Acc(
    replaced: nat,
    used: seq<(Variant, UsedItem)>,
    skipped: nat,
    missed: seq<(string, bool)>,
    warnings: seq<(StyleKey, Warning)>,
    errors: seq<(Variant, LoadError)>)

  const Empty := Acc(0, [], 0, [], [], [])

  /** One group: its characters count for its variant, or as skipped when it has no font or is a fallback. */
  function AddGroup(a: Acc, g: TextGroup): Acc {
    var chars := |g.text|;
    if g.font.Some? && !g.isFallback then
      var v := g.font.value.variant;
      var item := match Lookup(a.used, v)
        case Some(it) => it.(chars := it.chars + chars)
        case None => UsedItem(g.font.value.family, v, chars);
      a.(used := Upsert(a.used, v, item))
    else a.(skipped := a.skipped + chars)
  }

  function AddGroups(a: Acc, gs: seq<TextGroup>): Acc {
    if gs == [] then a else AddGroup(AddGroups(a, gs[..|gs| - 1]), gs[|gs| - 1])
  }

  function AddNodes(a: Acc, tm: seq<(nat, seq<TextGroup>)>): Acc {
    if tm == [] then a else AddGroups(AddNodes(a, tm[..|tm| - 1]), tm[|tm| - 1].1)
  }

  function AddMissed(a: Acc, ms: seq<string>): Acc {
    if ms == [] then a else AddMissed(a, ms[..|ms| - 1]).(missed := Upsert(AddMissed(a, ms[..|ms| - 1]).missed, ms[|ms| - 1], true))
  }

  function AddWarnings(a: Acc, ws: seq<Warning>): Acc {
    if ws == [] then a
    else
      var b := AddWarnings(a, ws[..|ws| - 1]);
      var w := ws[|ws| - 1];
      b.(warnings := Upsert(b.warnings, GetKey(w.family, w.axes), w))
  }

  function AddErrors(a: Acc, es: seq<LoadError>): Acc {
    if es == [] then a
    else
      var b := AddErrors(a, es[..|es| - 1]);
      b.(errors := Upsert(b.errors, es[|es| - 1].variant, es[|es| - 1]))
  }

  /** One result of `replace`: nothing for a skipped node, otherwise its groups and records. */
  function AddStat(a: Acc, out: ReplaceOut): Acc {
    if !out.Replaced? then a
    else
      var b := AddNodes(a.(replaced := a.replaced + 1), out.textMap);
      AddErrors(AddWarnings(AddMissed(b, out.rec.missed), out.rec.warnings), out.rec.errors)
  }

  function AddStats(a: Acc, outs: seq<ReplaceOut>): Acc {
    if outs == [] then a else AddStat(AddStats(a, outs[..|outs| - 1]), outs[|outs| - 1])
  }

  function Values<K, V>(es: seq<(K, V)>): (r: seq<V>)
    ensures |r| == |es|
  {
    seq(|es|, i requires 0 <= i < |es| => es[i].1)
  }

  function Keys<K, V>(es: seq<(K, V)>): (r: seq<K>)
    ensures |r| == |es|
  {
    seq(|es|, i requires 0 <= i < |es| => es[i].0)
  }

  /** The stat `replaceAll` returns for the results of `replace` on `total` nodes. */
  function Stat(outs: seq<ReplaceOut>, total: nat): SessionStat {
    var a := AddStats(Empty, outs);
    SessionStat(total, a.replaced, Values(a.used), a.skipped, Keys(a.missed), Values(a.warnings), Values(a.errors))
  }

  // ----------------------------------------------------------- properties

  function SumUsed(es: seq<(Variant, UsedItem)>): nat {
    if es == [] then 0 else SumUsed(es[..|es| - 1]) + es[|es| - 1].1.chars
  }

  function GroupChars(gs: seq<TextGroup>): nat {
    if gs == [] then 0 else GroupChars(gs[..|gs| - 1]) + |gs[|gs| - 1].text|
  }

  function NodeChars(tm: seq<(nat, seq<TextGroup>)>): nat {
    if tm == [] then 0 else NodeChars(tm[..|tm| - 1]) + GroupChars(tm[|tm| - 1].1)
  }

  function StatChars(outs: seq<ReplaceOut>): nat {
    if outs == [] then 0
    else StatChars(outs[..|outs| - 1]) + (if outs[|outs| - 1].Replaced? then NodeChars(outs[|outs| - 1].textMap) else 0)
  }

  lemma {:induction false} SumUsedSplit(es: seq<(Variant, UsedItem)>, i: nat)
    requires i < |es|
    ensures SumUsed(es) == SumUsed(es[..i]) + es[i].1.chars + SumUsedFrom(es, i + 1)
    decreases |es|
  {
    if i == |es| - 1 {
      assert es[..|es| - 1] == es[..i];
    } else {
      SumUsedSplit(es[..|es| - 1], i);
      assert es[..|es| - 1][..i] == es[..i];
      SumUsedFromDrop(es, i + 1);
    }
  }

  /** The characters of the entries from `i` on. */
  function SumUsedFrom(es: seq<(Variant, UsedItem)>, i: nat): nat
    decreases |es| - i
  {
    if i >= |es| then 0 else es[i].1.chars + SumUsedFrom(es, i + 1)
  }

  lemma {:induction false} SumUsedFromDrop(es: seq<(Variant, UsedItem)>, i: nat)
    requires 0 < i < |es|
    ensures SumUsedFrom(es, i) == SumUsedFrom(es[..|es| - 1], i) + es[|es| - 1].1.chars
    decreases |es| - i
  {
    if i < |es| - 1 {
      SumUsedFromDrop(es, i + 1);
    }
  }

  lemma {:induction false} SumUsedSame(a: seq<(Variant, UsedItem)>, b: seq<(Variant, UsedItem)>, i: nat)
    requires |a| == |b| && i <= |a|
    requires forall j :: i <= j < |a| ==> a[j].1.chars == b[j].1.chars
    ensures SumUsedFrom(a, i) == SumUsedFrom(b, i)
    decreases |a| - i
  {
    if i < |a| {
      SumUsedSame(a, b, i + 1);
    }
  }

  lemma {:induction false} SumUsedPrefixSame(a: seq<(Variant, UsedItem)>, b: seq<(Variant, UsedItem)>, i: nat)
    requires i <= |a| && i <= |b|
    requires forall j :: 0 <= j < i ==> a[j].1.chars == b[j].1.chars
    ensures SumUsed(a[..i]) == SumUsed(b[..i])
  {
    if i > 0 {
      assert a[..i][..i - 1] == a[..i - 1] && b[..i][..i - 1] == b[..i - 1];
      SumUsedPrefixSame(a, b, i - 1);
    }
  }

  /** Adding characters to one variant's entry adds them to the sum. */
  lemma UpsertSum(es: seq<(Variant, UsedItem)>, v: Variant, old_chars: nat, item: UsedItem)
    requires DistinctKeys(es)
    requires Lookup(es, v).Some? ==> Lookup(es, v).value.chars == old_chars
    requires Lookup(es, v).None? ==> old_chars == 0
    ensures SumUsed(Upsert(es, v, item)) == SumUsed(es) - old_chars + item.chars
  {
    var r := Upsert(es, v, item);
    if Lookup(es, v).Some? {
      var i :| 0 <= i < |es| && es[i].0 == v;
      LookupDistinct(es, i);
      assert r[i] == (v, item);
      ReplaceAtSum(es, r, i);
    } else {
      assert r[..|es|] == es;
    }
  }

  /** Changing one entry changes the sum by the difference. */
  lemma ReplaceAtSum(a: seq<(Variant, UsedItem)>, b: seq<(Variant, UsedItem)>, i: nat)
    requires |a| == |b| && i < |a|
    requires forall j :: 0 <= j < |a| && j != i ==> a[j].1.chars == b[j].1.chars
    ensures SumUsed(b) == SumUsed(a) - a[i].1.chars + b[i].1.chars
  {
    SumUsedSplit(a, i);
    SumUsedSplit(b, i);
    SumUsedSame(a, b, i + 1);
    SumUsedPrefixSame(a, b, i);
  }

  /** The part of the accumulator that counting characters leaves alone. */
  predicate SameRecords(a: Acc, b: Acc) {
    b.replaced == a.replaced && b.missed == a.missed && b.warnings == a.warnings && b.errors == a.errors
  }

  lemma UpsertKeyed(es: seq<(Variant, UsedItem)>, v: Variant, item: UsedItem)
    requires UsedKeyed(es) && item.variant == v
    ensures UsedKeyed(Upsert(es, v, item))
  {
  }

  lemma AddToVariant(a: Acc, g: TextGroup)
    requires DistinctKeys(a.used) && UsedKeyed(a.used)
    requires g.font.Some? && !g.isFallback
    ensures var b := AddGroup(a, g);
      DistinctKeys(b.used) && UsedKeyed(b.used) && SameRecords(a, b) &&
      SumUsed(b.used) + b.skipped == SumUsed(a.used) + a.skipped + |g.text|
  {
    var v := g.font.value.variant;
    var old_chars := match Lookup(a.used, v) case Some(it) => it.chars case None => 0;
    var item := match Lookup(a.used, v)
      case Some(it) => it.(chars := it.chars + |g.text|)
      case None => UsedItem(g.font.value.family, v, |g.text|);
    assert AddGroup(a, g) == a.(used := Upsert(a.used, v, item));
    if Lookup(a.used, v).Some? {
      var i :| 0 <= i < |a.used| && a.used[i] == (v, Lookup(a.used, v).value);
      assert item.variant == v;
    }
    UpsertSum(a.used, v, old_chars, item);
    UpsertDistinct(a.used, v, item);
    UpsertKeyed(a.used, v, item);
  }

  lemma AddGroupChars(a: Acc, g: TextGroup)
    requires DistinctKeys(a.used) && UsedKeyed(a.used)
    ensures var b := AddGroup(a, g);
      DistinctKeys(b.used) && UsedKeyed(b.used) && SameRecords(a, b) &&
      SumUsed(b.used) + b.skipped == SumUsed(a.used) + a.skipped + |g.text|
  {
    if g.font.Some? && !g.isFallback {
      AddToVariant(a, g);
    }
  }

  lemma {:induction false} AddGroupsChars(a: Acc, gs: seq<TextGroup>)
    requires DistinctKeys(a.used) && UsedKeyed(a.used)
    ensures var b := AddGroups(a, gs);
      DistinctKeys(b.used) && UsedKeyed(b.used) && SameRecords(a, b) &&
      SumUsed(b.used) + b.skipped == SumUsed(a.used) + a.skipped + GroupChars(gs)
  {
    if gs != [] {
      AddGroupsChars(a, gs[..|gs| - 1]);
      AddGroupChars(AddGroups(a, gs[..|gs| - 1]), gs[|gs| - 1]);
    }
  }

  lemma {:induction false} AddNodesChars(a: Acc, tm: seq<(nat, seq<TextGroup>)>)
    requires DistinctKeys(a.used) && UsedKeyed(a.used)
    ensures var b := AddNodes(a, tm);
      DistinctKeys(b.used) && UsedKeyed(b.used) && SameRecords(a, b) &&
      SumUsed(b.used) + b.skipped == SumUsed(a.used) + a.skipped + NodeChars(tm)
  {
    if tm != [] {
      AddNodesChars(a, tm[..|tm| - 1]);
      AddGroupsChars(AddNodes(a, tm[..|tm| - 1]), tm[|tm| - 1].1);
    }
  }

  lemma {:induction false} AddMissedKeeps(a: Acc, ms: seq<string>)
    requires DistinctKeys(a.missed)
    ensures var b := AddMissed(a, ms);
      DistinctKeys(b.missed) && b.used == a.used && b.skipped == a.skipped && b.replaced == a.replaced &&
      b.warnings == a.warnings && b.errors == a.errors
  {
    if ms != [] {
      AddMissedKeeps(a, ms[..|ms| - 1]);
      UpsertDistinct(AddMissed(a, ms[..|ms| - 1]).missed, ms[|ms| - 1], true);
    }
  }

  lemma {:induction false} AddWarningsKeeps(a: Acc, ws: seq<Warning>)
    requires DistinctKeys(a.warnings)
    ensures var b := AddWarnings(a, ws);
      DistinctKeys(b.warnings) && b.used == a.used && b.skipped == a.skipped && b.replaced == a.replaced &&
      b.missed == a.missed && b.errors == a.errors
  {
    if ws != [] {
      AddWarningsKeeps(a, ws[..|ws| - 1]);
      var w := ws[|ws| - 1];
      UpsertDistinct(AddWarnings(a, ws[..|ws| - 1]).warnings, GetKey(w.family, w.axes), w);
    }
  }

  lemma {:induction false} AddErrorsKeeps(a: Acc, es: seq<LoadError>)
    requires DistinctKeys(a.errors)
    ensures var b := AddErrors(a, es);
      DistinctKeys(b.errors) && b.used == a.used && b.skipped == a.skipped && b.replaced == a.replaced &&
      b.missed == a.missed && b.warnings == a.warnings
  {
    if es != [] {
      AddErrorsKeeps(a, es[..|es| - 1]);
      UpsertDistinct(AddErrors(a, es[..|es| - 1]).errors, es[|es| - 1].variant, es[|es| - 1]);
    }
  }

  /** Each `used` entry is stored under its own variant. */
  predicate UsedKeyed(es: seq<(Variant, UsedItem)>) {
    forall i :: 0 <= i < |es| ==> es[i].1.variant == es[i].0
  }

  predicate AccOk(a: Acc) {
    UsedKeyed(a.used) && DistinctKeys(a.used) && DistinctKeys(a.missed) && DistinctKeys(a.warnings) && DistinctKeys(a.errors)
  }

  function CountReplaced(outs: seq<ReplaceOut>): nat {
    if outs == [] then 0 else CountReplaced(outs[..|outs| - 1]) + (if outs[|outs| - 1].Replaced? then 1 else 0)
  }

  lemma {:induction false} AddStatsAccount(outs: seq<ReplaceOut>)
    ensures var a := AddStats(Empty, outs);
      AccOk(a) && SumUsed(a.used) + a.skipped == StatChars(outs) && a.replaced == CountReplaced(outs)
  {
    if outs != [] {
      var p := outs[..|outs| - 1];
      var out := outs[|outs| - 1];
      AddStatsAccount(p);
      var a := AddStats(Empty, p);
      if out.Replaced? {
        var b := AddNodes(a.(replaced := a.replaced + 1), out.textMap);
        AddNodesChars(a.(replaced := a.replaced + 1), out.textMap);
        AddMissedKeeps(b, out.rec.missed);
        var c := AddMissed(b, out.rec.missed);
        AddWarningsKeeps(c, out.rec.warnings);
        AddErrorsKeeps(AddWarnings(c, out.rec.warnings), out.rec.errors);
      }
    }
  }

  /**
   * What `replaceAll` reports: every drawn character is counted once, for
   * its variant or as skipped; `replaced` counts the nodes that were not
   * skipped; variants, missed families, warning keys and error variants are
   * each listed once.
   */
  lemma StatAccounts(outs: seq<ReplaceOut>, total: nat)
    ensures var s := Stat(outs, total);
      var a := AddStats(Empty, outs);
      SumUsed(a.used) + s.skipped == StatChars(outs) && s.replaced == CountReplaced(outs) && s.total == total &&
      (forall i, j :: 0 <= i < j < |s.used| ==> s.used[i].variant != s.used[j].variant) &&
      (forall i, j :: 0 <= i < j < |s.missed| ==> s.missed[i] != s.missed[j])
  {
    AddStatsAccount(outs);
  }

  /** Counting a node's characters by group is counting its text. */
  lemma {:induction false} GroupCharsText(gs: seq<TextGroup>)
    ensures GroupChars(gs) == |Concat(Texts(gs))|
  {
    if gs != [] {
      GroupCharsText(gs[..|gs| - 1]);
      assert Texts(gs) == Texts(gs[..|gs| - 1]) + [gs[|gs| - 1].text];
      ConcatSnoc(Texts(gs[..|gs| - 1]), gs[|gs| - 1].text);
    }
  }

  lemma {:induction false} NodeCharsText(tm: seq<(nat, seq<TextGroup>)>)
    ensures NodeChars(tm) == |AllText(tm)|
  {
    if tm != [] {
      NodeCharsText(tm[..|tm| - 1]);
      GroupCharsText(tm[|tm| - 1].1);
    }
  }

  // ------------------------------------------------------------ the loops

  /** `groups.forEach` of `replaceAll`. */
  method CountGroups(a: Acc, gs: seq<TextGroup>) returns (b: Acc)
    ensures b == AddGroups(a, gs)
  {
    b := a;
    var i := 0;
    while i < |gs|
      invariant 0 <= i <= |gs|
      invariant b == AddGroups(a, gs[..i])
    {
      assert gs[..i + 1][..i] == gs[..i];
      b := CountGroup(b, gs[i]);
      i := i + 1;
    }
    assert gs[..i] == gs;
  }

  /** The `groups.forEach` callback: a group's characters go to its variant's entry or to `skipped`. */
  method CountGroup(a: Acc, g: TextGroup) returns (b: Acc)
    ensures b == AddGroup(a, g)
  {
    b := a;
    var chars := |g.text|;
    if g.font.Some? && !g.isFallback {
      var v := g.font.value.variant;
      var item := match Lookup(b.used, v)
        case Some(it) => it
        case None => UsedItem(g.font.value.family, v, 0);
      item := item.(chars := item.chars + chars);
      b := b.(used := Upsert(b.used, v, item));
    } else {
      b := b.(skipped := b.skipped + chars);
    }
  }

  /** `stat.missed.forEach`, `stat.warnings.forEach` and `stat.errors.forEach` of `replaceAll`. */
  method CountRecords(a: Acc, r: Records) returns (b: Acc)
    ensures b == AddErrors(AddWarnings(AddMissed(a, r.missed), r.warnings), r.errors)
  {
    b := CountMissed(a, r.missed);
    b := CountWarnings(b, r.warnings);
    b := CountErrors(b, r.errors);
  }

  /** `stat.missed.forEach`: each missed family set once. */
  method CountMissed(a: Acc, ms: seq<string>) returns (b: Acc)
    ensures b == AddMissed(a, ms)
  {
    b := a;
    var i := 0;
    while i < |ms|
      invariant 0 <= i <= |ms|
      invariant b == AddMissed(a, ms[..i])
    {
      assert ms[..i + 1][..i] == ms[..i];
      b := b.(missed := Upsert(b.missed, ms[i], true));
      i := i + 1;
    }
    assert ms[..i] == ms;
  }

  /** `stat.warnings.forEach`: each warning set under its style key. */
  method CountWarnings(a: Acc, ws: seq<Warning>) returns (b: Acc)
    ensures b == AddWarnings(a, ws)
  {
    b := a;
    var i := 0;
    while i < |ws|
      invariant 0 <= i <= |ws|
      invariant b == AddWarnings(a, ws[..i])
    {
      assert ws[..i + 1][..i] == ws[..i];
      var w := ws[i];
      b := b.(warnings := Upsert(b.warnings, GetKey(w.family, w.axes), w));
      i := i + 1;
    }
    assert ws[..i] == ws;
  }

  /** `stat.errors.forEach`: each error set under its variant. */
  method CountErrors(a: Acc, es: seq<LoadError>) returns (b: Acc)
    ensures b == AddErrors(a, es)
  {
    b := a;
    var i := 0;
    while i < |es|
      invariant 0 <= i <= |es|
      invariant b == AddErrors(a, es[..i])
    {
      assert es[..i + 1][..i] == es[..i];
      b := b.(errors := Upsert(b.errors, es[i].variant, es[i]));
      i := i + 1;
    }
    assert es[..i] == es;
  }

  /** `stat.textMap.forEach` of `replaceAll`. */
  method CountNodes(a: Acc, tm: seq<(nat, seq<TextGroup>)>) returns (b: Acc)
    ensures b == AddNodes(a, tm)
  {
    b := a;
    var k := 0;
    while k < |tm|
      invariant 0 <= k <= |tm|
      invariant b == AddNodes(a, tm[..k])
    {
      assert tm[..k + 1][..k] == tm[..k];
      b := CountGroups(b, tm[k].1);
      k := k + 1;
    }
    assert tm[..k] == tm;
  }

  /** The aggregation loop of `replaceAll` over the results of `replace`. */
  method Aggregate(outs: seq<ReplaceOut>, total: nat) returns (s: SessionStat)
    ensures s == Stat(outs, total)
  {
    var acc := Empty;
    var i := 0;
    while i < |outs|
      invariant 0 <= i <= |outs|
      invariant acc == AddStats(Empty, outs[..i])
    {
      assert outs[..i + 1][..i] == outs[..i];
      assert AddStats(Empty, outs[..i + 1]) == AddStat(acc, outs[i]);
      var out := outs[i];
      if out.Replaced? {
        acc := acc.(replaced := acc.replaced + 1);
        acc := CountNodes(acc, out.textMap);
        acc := CountRecords(acc, out.rec);
      }
      i := i + 1;
    }
    assert outs[..i] == outs;
    s := SessionStat(total, acc.replaced, Values(acc.used), acc.skipped, Keys(acc.missed), Values(acc.warnings), Values(acc.errors));
  }

  // ----------------------------------------------------------- replaceAll

  /** `replace` on each node in turn, with the font factory's memo shared. */
  function ReplaceEach(env: Env, memo: Memo, nodes: seq<Node>): (seq<ReplaceOut>, Memo)
    requires Ranked(env)
  {
    if nodes == [] then ([], memo)
    else
      var (outs, m) := ReplaceEach(env, memo, nodes[..|nodes| - 1]);
      var (out, m') := Replace(env, m, nodes[|nodes| - 1]);
      (outs + [out], m')
  }

  /** The first error a `replace` threw, in node order. */
  function FirstThrown(outs: seq<ReplaceOut>): (r: Option<Outcome>)
    ensures r.None? <==> forall i :: 0 <= i < |outs| ==> !outs[i].Thrown?
    ensures r.Some? ==> exists i :: 0 <= i < |outs| && outs[i] == Thrown(r.value)
  {
    if outs == [] then None
    else if outs[0].Thrown? then Some(outs[0].error)
    else
      var r := FirstThrown(outs[1..]);
      assert forall i :: 1 <= i < |outs| ==> outs[i] == outs[1..][i - 1];
      r
  }

  /** What `replaceAll` resolves to, or the error it rejects with. */
  datatype AllOut = Stats(stat: SessionStat) | AllThrown(error: Outcome)

  function ReplaceAll(env: Env, memo: Memo, nodes: seq<Node>): (AllOut, Memo)
    requires Ranked(env)
  {
    var (outs, m) := ReplaceEach(env, memo, nodes);
    match FirstThrown(outs)
    case Some(e) => (AllThrown(e), m)
    case None => (Stats(Stat(outs, |nodes|)), m)
  }

  function TextChars(outs: seq<ReplaceOut>): nat {
    if outs == [] then 0
    else TextChars(outs[..|outs| - 1]) + (if outs[|outs| - 1].Replaced? then |AllText(outs[|outs| - 1].textMap)| else 0)
  }

  lemma {:induction false} StatCharsText(outs: seq<ReplaceOut>)
    ensures StatChars(outs) == TextChars(outs)
  {
    if outs != [] {
      StatCharsText(outs[..|outs| - 1]);
      if outs[|outs| - 1].Replaced? {
        NodeCharsText(outs[|outs| - 1].textMap);
      }
    }
  }

  /**
   * `replaceAll` accounts for every drawn character: the characters counted
   * for variants plus the skipped ones are the characters of all replaced
   * nodes; `total` is the number of nodes and `replaced` those not skipped.
   */
  lemma ReplaceAllAccounts(env: Env, memo: Memo, nodes: seq<Node>)
    requires Ranked(env)
    ensures var (out, _) := ReplaceAll(env, memo, nodes);
      var outs := ReplaceEach(env, memo, nodes).0;
      out.Stats? ==>
        SumUsed(AddStats(Empty, outs).used) + out.stat.skipped == TextChars(outs) &&
        out.stat.total == |nodes| && out.stat.replaced == CountReplaced(outs)
  {
    var outs := ReplaceEach(env, memo, nodes).0;
    StatAccounts(outs, |nodes|);
    StatCharsText(outs);
  }
}
