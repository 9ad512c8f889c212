/**
 * The text step of `Session.replace` as the source runs it: the processing
 * state object, the walk over the `<text>` element's children, the request
 * loop of `#processTextNode`, and `replace`'s failure check and clean-up of
 * the text map.  Each method is proved against its function in module
 * SessionText.
 */
module Session {
  import opened Wrappers
  import opened FontStyle
  import opened FontResolution
  import opened SessionText
  import SessionStyle
  import FF = FontFactory
  import SessionStats

  /** `SessionProcessState` of one `replace` call, with the text map it fills. */
  class TextState {
    var textMap: seq<(nat, NodeOut)>
    var lastChar: char
    var ignore: bool
    const lastText: Option<nat>
    const records: FF.ProcessState

    constructor (lastText: Option<nat>)
      ensures textMap == [] && lastChar == ' ' && !ignore && this.lastText == lastText
      ensures fresh(records) && records.Recs() == Records([], [], [])
    {
      textMap := [];
      lastChar := ' ';
      ignore := false;
      this.lastText := lastText;
      records := new FF.ProcessState();
    }
  }

  class Session {
    const factory: FF.FontFactory

    constructor (env: Env)
      requires Ranked(env)
      ensures fresh(factory) && fresh(factory.fonts) && factory.env == env && factory.Valid()
      ensures factory.MemoOf() == Memo(map[], map[])
    {
      factory := new FF.FontFactory(env);
    }

    /** The walk state a `TextState` and the font factory stand for. */
    ghost function WalkOf(state: TextState): Walk
      reads state, state.records, factory, factory.fonts
    {
      Walk(state.textMap, state.lastChar, state.ignore, factory.MemoOf(), FF.RecordsOf(state.records))
    }

    /** The request loop and `#makeTextGroups` of `#processTextNode`. */
    method RequestAndGroup(style: Style, chars: string, records: FF.ProcessState, now: int) returns (out: NodeOut)
      requires factory.Valid()
      modifies records, factory, factory.fonts
      ensures factory.Valid()
      ensures (out, factory.MemoOf(), FF.RecordsOf(records)) ==
              CharsOut(factory.env, old(factory.MemoOf()), old(FF.RecordsOf(records)), style, chars)
    {
      ghost var memo0 := factory.MemoOf();
      ghost var rec0 := FF.RecordsOf(records);
      var fonts: map<char, Outcome> := map[];
      var order: seq<char> := [];
      var i := 0;
      while i < |chars|
        invariant 0 <= i <= |chars|
        invariant factory.Valid()
        invariant RequestFonts(factory.env, memo0, rec0, style, chars[..i]) ==
                  Requests(fonts, order, factory.MemoOf(), FF.RecordsOf(records))
      {
        assert chars[..i + 1][..i] == chars[..i];
        var c := chars[i];
        if c !in fonts {
          var o := factory.GetFontForChar(c, style, None, records, false, now);
          fonts := fonts[c := o];
          order := order + [c];
        }
        i := i + 1;
      }
      assert chars[..|chars|] == chars;
      RequestFontsOnce(factory.env, memo0, rec0, style, chars);
      var j := 0;
      while j < |order|
        invariant 0 <= j <= |order|
        invariant forall k :: 0 <= k < j ==> fonts[order[k]].Found?
      {
        if !fonts[order[j]].Found? {
          FirstFailureAt(fonts, order, j);
          return Failed(fonts[order[j]]);
        }
        j := j + 1;
      }
      AllFound(Requests(fonts, order, factory.MemoOf(), FF.RecordsOf(records)), chars);
      var groups := MakeTextGroups(chars, fonts);
      out := Groups(groups);
    }

    /**
     * The character steps of `#processTextNode`: collapse whitespace, drop a
     * space that follows one, remember the last character, and drop a trailing
     * space after the last text node.
     */
    static method PrepareChars(content: string, lastChar: char, isLast: bool) returns (chars: string, last: char)
      ensures NodeText(chars, last) == NodeChars(content, lastChar, isLast)
    {
      chars := Collapse(content);
      if |chars| > 0 && chars[0] == ' ' && lastChar == ' ' {
        chars := chars[1..];
      }
      last := lastChar;
      if |chars| > 0 {
        last := chars[|chars| - 1];
      }
      if isLast && |chars| > 0 && chars[|chars| - 1] == ' ' {
        chars := chars[..|chars| - 1];
      }
    }

    /** `#processTextNode`: whitespace, `lastChar`, `ignore`, then the font requests and groups. */
    method ProcessTextNode(item: TextItem, state: TextState, now: int) returns (out: NodeOut)
      requires factory.Valid()
      modifies state, state.records, factory, factory.fonts
      ensures factory.Valid() && state.textMap == old(state.textMap)
      ensures WalkOf(state).(textMap := state.textMap + [(item.id, out)]) ==
              ProcessText(factory.env, old(WalkOf(state)), state.lastText, item)
    {
      if state.ignore {
        return Groups([]);
      }
      var fontStyle := SessionStyle.FontStyleForNode(item.parent);
      var isLast := Some(item.id) == state.lastText;
      var chars, last := PrepareChars(item.content, state.lastChar, isLast);
      state.lastChar := last;
      if isLast {
        state.ignore := true;
      }
      out := RequestAndGroup(fontStyle, chars, state.records, now);
    }

    /** `#processChildNodes`: every text node under `n`, in document order. */
    method ProcessChildNodes(n: Node, parent: SessionStyle.CssProps, state: TextState, now: int)
      requires factory.Valid()
      modifies state, state.records, factory, factory.fonts
      ensures factory.Valid()
      ensures WalkOf(state) == ProcessAll(factory.env, old(WalkOf(state)), state.lastText, TextNodes(n, parent))
      decreases n, 2
    {
      match n {
        case Text(id, content) =>
          var item := TextItem(id, content, parent);
          var out := ProcessTextNode(item, state, now);
          state.textMap := state.textMap + [(id, out)];
          assert [item][..0] == [];
        case Element(_, _, _, _) =>
          ProcessChildren(n, state, now);
        case Other =>
      }
    }

    /** The loop of `#processChildNodes` over the children of an element. */
    method ProcessChildren(n: Node, state: TextState, now: int)
      requires n.Element? && factory.Valid()
      modifies state, state.records, factory, factory.fonts
      ensures factory.Valid()
      ensures WalkOf(state) == ProcessAll(factory.env, old(WalkOf(state)), state.lastText, ChildTexts(n, |n.children|))
      decreases n, 1
    {
      ghost var w0 := WalkOf(state);
      ghost var env, lastText := factory.env, state.lastText;
      var i := 0;
      while i < |n.children|
        invariant 0 <= i <= |n.children|
        invariant factory.Valid() && Ranked(env)
        invariant WalkOf(state) == ProcessAll(env, w0, lastText, ChildTexts(n, i))
      {
        ProcessChild(n, i, state, now, w0);
        i := i + 1;
      }
    }

    /** One turn of the loop: the text nodes under child `i` follow those before it. */
    method ProcessChild(n: Node, i: nat, state: TextState, now: int, ghost w0: Walk)
      requires n.Element? && i < |n.children| && factory.Valid()
      requires WalkOf(state) == ProcessAll(factory.env, w0, state.lastText, ChildTexts(n, i))
      modifies state, state.records, factory, factory.fonts
      ensures factory.Valid()
      ensures WalkOf(state) == ProcessAll(factory.env, w0, state.lastText, ChildTexts(n, i + 1))
      decreases n, 0
    {
      ghost var before := ChildTexts(n, i);
      ghost var here := TextNodes(n.children[i], n.props);
      assert ChildTexts(n, i + 1) == before + here;
      ProcessAllAppend(factory.env, w0, state.lastText, before, here);
      ProcessChildNodes(n.children[i], n.props, state, now);
    }

    /** `replace` up to the layout step: walk, first failure, and the text map without empty nodes. */
    method Replace(n: Node, now: int) returns (r: ReplaceOut)
      requires factory.Valid()
      modifies factory, factory.fonts
      ensures factory.Valid()
      ensures (r, factory.MemoOf()) == SessionText.Replace(factory.env, old(factory.MemoOf()), n)
    {
      ghost var memo0 := factory.MemoOf();
      var lastText := FindLastTextNode(n, NoProps);
      var state := new TextState(lastText);
      ghost var w := ProcessAll(factory.env, Walk([], ' ', false, memo0, Some(Records([], [], []))), lastText, TextNodes(n, NoProps));
      ProcessChildNodes(n, NoProps, state, now);
      assert WalkOf(state) == w;
      ReplaceOfWalk(factory.env, memo0, n, w);
      match FirstFailed(state.textMap)
      case Some(o) =>
        r := if o.NoFontError? && o.skipNode then Skipped else Thrown(o);
      case None =>
        var tm := DeleteEmpty(state.textMap);
        assert FF.RecordsOf(state.records) == Some(state.records.Recs());
        r := Replaced(tm, state.records.Recs());
    }

    /** `replaceAll`: `replace` on every node, the first error thrown, otherwise the aggregated stat. */
    method ReplaceAll(nodes: seq<Node>, now: int) returns (r: SessionStats.AllOut)
      requires factory.Valid()
      modifies factory, factory.fonts
      ensures factory.Valid()
      ensures (r, factory.MemoOf()) == SessionStats.ReplaceAll(factory.env, old(factory.MemoOf()), nodes)
    {
      ghost var memo0 := factory.MemoOf();
      var outs: seq<ReplaceOut> := [];
      var i := 0;
      while i < |nodes|
        invariant 0 <= i <= |nodes|
        invariant factory.Valid()
        invariant (outs, factory.MemoOf()) == SessionStats.ReplaceEach(factory.env, memo0, nodes[..i])
      {
        assert nodes[..i + 1][..i] == nodes[..i];
        var out := Replace(nodes[i], now);
        outs := outs + [out];
        i := i + 1;
      }
      assert nodes[..i] == nodes;
      match SessionStats.FirstThrown(outs)
      case Some(e) =>
        r := SessionStats.AllThrown(e);
      case None =>
        var stat := SessionStats.Aggregate(outs, |nodes|);
        r := SessionStats.Stats(stat);
    }
  }

  /** The loop of `replace` that deletes the text nodes without groups from the text map. */
  method DeleteEmpty(textMap: seq<(nat, NodeOut)>) returns (tm: seq<(nat, seq<TextGroup>)>)
    requires forall i :: 0 <= i < |textMap| ==> textMap[i].1.Groups?
    ensures tm == NonEmpty(textMap)
  {
    tm := [];
    var k := 0;
    while k < |textMap|
      invariant 0 <= k <= |textMap|
      invariant tm == NonEmpty(textMap[..k])
    {
      assert textMap[..k + 1][..k] == textMap[..k];
      var (id, out) := textMap[k];
      if out.groups != [] {
        tm := tm + [(id, out.groups)];
      }
      k := k + 1;
    }
    assert textMap[..k] == textMap;
  }
}
