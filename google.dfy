/**
 * providers/google/GoogleProvider.js: the HTTP provider pointed at the
 * Google Fonts developer API.  One request lists every family; the
 * response is mapped to a variant list per family.
 *
 * The `files` of an item are taken in the order `Object.entries` yields
 * them, which is the order of the sequence here.
 */
module Google {
  import opened Wrappers
  import opened Strings
  import opened Numbers
  import opened FontStyle
  import Uri

  /** An entry of the response's `items`: the family and its `files` (key, URL). */
  datatype GoogleItem = GoogleItem(family: string, files: seq<(string, string)>)

  const ApiBase: string := "https://www.googleapis.com/webfonts/v1/webfonts?sort=popularity&key="

  /** `getUrl`: the same URL for every family, with the API key encoded. */
  function Url(apiKey: string): string {
    ApiBase + Uri.Encode(apiKey)
  }

  /** `wght` of a file key as written: `regular` is 400, anything else `parseInt(key)`. */
  function WeightAsWritten(key: string): JsNum {
    if key == "regular" then Num(400.0) else ParseInt(key)
  }

  /** `wght` of a file key, with the 400-weight italic key `italic` read as 400; every other key as written. */
  function Weight(key: string): (r: JsNum)
    ensures key == "italic" ==> r == Num(400.0)
    ensures key != "italic" ==> r == WeightAsWritten(key)
  {
    if key == "regular" || key == "italic" then Num(400.0) else ParseInt(key)
  }

  /** `ital`: 1 for a key ending in `italic`, otherwise 0 (`regular` included). */
  function Italic(key: string): real {
    if EndsWith(key, "italic") then 1.0 else 0.0
  }

  /** The source with its first `http://` made `https://`. */
  function Https(source: string): string {
    ReplaceFirst(source, "http://", "https://")
  }

  /** The variant of one file: `wght` (left unset when it is not a number), `ital` and the source. */
  function FileVariant(key: string, source: string): (v: Variant)
    ensures v.source == Https(source)
    ensures forall k :: k in v.axes ==> k == "ital" || k == "wght"
    ensures "ital" in v.axes && v.axes["ital"] == Point(Italic(key))
    ensures "wght" in v.axes <==> Weight(key).Num?
    ensures "wght" in v.axes ==> v.axes["wght"] == Point(Weight(key).r)
  {
    var ital := map["ital" := Point(Italic(key))];
    Variant(Https(source), match Weight(key)
      case Num(w) => ital["wght" := Point(w)]
      case NaN => ital)
  }

  /** One variant per file, in order. */
  function FilesVariants(files: seq<(string, string)>): (r: seq<Variant>)
    ensures |r| == |files|
    ensures forall i :: 0 <= i < |files| ==> r[i] == FileVariant(files[i].0, files[i].1)
  {
    seq(|files|, i requires 0 <= i < |files| => FileVariant(files[i].0, files[i].1))
  }

  /** `processData`: each item's list under its family, a later item replacing an earlier one. */
  function FamilyMap(items: seq<GoogleItem>): map<string, seq<Variant>>
    decreases |items|
  {
    if items == [] then map[]
    else
      var last := items[|items| - 1];
      FamilyMap(items[..|items| - 1])[last.family := FilesVariants(last.files)]
  }

  /** The index of the last item of `family`. */
  function LastOf(items: seq<GoogleItem>, family: string): (r: Option<nat>)
    ensures r.Some? ==> r.value < |items| && items[r.value].family == family
    ensures r.Some? ==> forall j :: r.value < j < |items| ==> items[j].family != family
    ensures r.None? ==> forall j :: 0 <= j < |items| ==> items[j].family != family
    decreases |items|
  {
    if items == [] then None
    else if items[|items| - 1].family == family then Some(|items| - 1)
    else LastOf(items[..|items| - 1], family)
  }

  /** The `forEach` over the files of one item. */
  method FileVariantsOf(files: seq<(string, string)>) returns (variants: seq<Variant>)
    ensures variants == FilesVariants(files)
  {
    variants := [];
    var i := 0;
    while i < |files|
      invariant 0 <= i <= |files|
      invariant variants == FilesVariants(files[..i])
    {
      var (key, source) := files[i];
      var wght: JsNum;
      var ital: real;
      if key == "regular" || key == "italic" {
        wght := Num(400.0);
      } else {
        wght := ParseInt(key);
      }
      ital := if EndsWith(key, "italic") then 1.0 else 0.0;
      var axes := map["ital" := Point(ital)];
      if wght.Num? {
        axes := axes["wght" := Point(wght.r)];
      }
      variants := variants + [Variant(Https(source), axes)];
      i := i + 1;
    }
    assert files[..i] == files;
  }

  /** `processData`: the `forEach` over the items. */
  method ProcessData(items: seq<GoogleItem>) returns (m: map<string, seq<Variant>>)
    ensures m == FamilyMap(items)
  {
    m := map[];
    var i := 0;
    while i < |items|
      invariant 0 <= i <= |items|
      invariant m == FamilyMap(items[..i])
    {
      var variants := FileVariantsOf(items[i].files);
      m := m[items[i].family := variants];
      assert items[..i + 1][..i] == items[..i];
      i := i + 1;
    }
    assert items[..i] == items;
  }

  /* ---------- properties ---------- */

  /** The key after the fixed prefix is the API key, encoded losslessly and without `&` or `#`. */
  lemma UrlCarriesKey(apiKey: string)
    ensures Url(apiKey)[..|ApiBase|] == ApiBase
    ensures Uri.Decode(Url(apiKey)[|ApiBase|..]) == apiKey
    ensures forall i :: |ApiBase| <= i < |Url(apiKey)| ==> Uri.Safe(Url(apiKey)[i])
  {
    var e := Uri.Encode(apiKey);
    assert Url(apiKey)[|ApiBase|..] == e;
    Uri.DecodeEncode(apiKey);
    Uri.EncodeSafe(apiKey);
    assert forall i :: |ApiBase| <= i < |Url(apiKey)| ==> Url(apiKey)[i] == e[i - |ApiBase|];
  }

  /** The key `regular` is weight 400, upright. */
  lemma RegularKey(source: string)
    ensures FileVariant("regular", source).axes == map["ital" := Point(0.0), "wght" := Point(400.0)]
  {
    assert !EndsWith("regular", "italic");
  }

  /** A key `<n>` is weight `n` upright; a key `<n>italic` is weight `n` italic. */
  lemma NumericKey(n: nat, italic: bool, source: string)
    ensures var key := NatToString(n) + (if italic then "italic" else "");
      FileVariant(key, source).axes == map["ital" := Point(if italic then 1.0 else 0.0), "wght" := Point(n as real)]
  {
    var d := NatToString(n);
    var suffix := if italic then "italic" else "";
    var key := d + suffix;
    ParseIntNat(n, suffix);
    assert key != "regular" && key != "italic" by {
      assert IsDigit(key[0]);
    }
    if italic {
      assert key[|key| - 6..] == "italic";
    } else {
      assert key == d;
      assert !EndsWith(key, "italic") by {
        if |key| >= 6 {
          assert IsDigit(key[|key| - 1]);
        }
      }
    }
  }

  /** As written, the key `italic` has no number in it, so its weight is `NaN` and matches no request. */
  lemma ItalicKeyAsWritten()
    ensures WeightAsWritten("italic") == NaN
  {
    var t := "italic";
    assert LeadingSpaces(t) == 0;
    assert DigitRun(t) == 0;
  }

  /** Corrected, the key `italic` is weight 400, italic. */
  lemma ItalicKey(source: string)
    ensures FileVariant("italic", source).axes == map["ital" := Point(1.0), "wght" := Point(400.0)]
  {
    assert EndsWith("italic", "italic");
  }

  /** A source starting with `http://` is moved to `https://`; one without `http://` is kept. */
  lemma HttpsSource(rest: string, other: string)
    requires IndexOf(other, "http://").None?
    ensures Https("http://" + rest) == "https://" + rest
    ensures Https(other) == other
  {
    var s := "http://" + rest;
    assert StartsWith(s, "http://") by {
      assert s[..7] == "http://";
    }
    assert s[7..] == rest;
  }

  /** A family maps to the files of its last item, one variant per file; other families are absent. */
  lemma {:induction false} LastItemWins(items: seq<GoogleItem>, family: string)
    ensures family in FamilyMap(items) <==> LastOf(items, family).Some?
    ensures LastOf(items, family).Some? ==>
      FamilyMap(items)[family] == FilesVariants(items[LastOf(items, family).value].files)
    decreases |items|
  {
    if items != [] {
      var init := items[..|items| - 1];
      LastItemWins(init, family);
      if items[|items| - 1].family != family {
        assert LastOf(items, family) == LastOf(init, family);
        if LastOf(init, family).Some? {
          assert items[LastOf(init, family).value] == init[LastOf(init, family).value];
        }
      }
    }
  }
}
