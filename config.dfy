/**
 * providers/config/ConfigSessionProvider.js: variants listed by family in
 * the session parameters.
 */
module Config {
  import opened Wrappers
  import opened FontStyle

  /** `getVariants`: `map?.[family] ?? []`. */
  function Variants(fonts: Option<map<string, seq<Variant>>>, family: string): (r: seq<Variant>)
    ensures fonts.Some? && family in fonts.value ==> r == fonts.value[family]
    ensures fonts.Some? && family !in fonts.value ==> r == []
    ensures fonts.None? ==> r == []
  {
    match fonts
    case Some(m) => if family in m then m[family] else []
    case None => []
  }

  /** A family has variants only if the map lists it, and then exactly those. */
  lemma VariantsListed(fonts: Option<map<string, seq<Variant>>>, family: string, v: Variant)
    requires v in Variants(fonts, family)
    ensures fonts.Some? && family in fonts.value && v in fonts.value[family]
  {
  }
}
