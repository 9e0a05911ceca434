/** The commodity alias table `CROP_ALIASES` (services.py:83-88) and the exact-match
    normalization that the bulk dataset's commodity column goes through
    (services.py:144-151). */
module Commodity {
  import opened Text

  /** `CROP_ALIASES`: each canonical crop with the alternatives of its `|`-separated
      pattern (`'rice|paddy'` is `["rice", "paddy"]`). */
  const CropAliases: map<string, seq<string>> := map[
    "rice" := ["rice", "paddy"],
    "wheat" := ["wheat"],
    "maize" := ["maize", "corn"],
    "cotton" := ["cotton"],
    "sugarcane" := ["sugarcane"],
    "potato" := ["potato"]
  ]

  /** The alternatives `re.search` tries for a queried crop in the live filter:
      the crop's alias pattern, or else the lower-cased crop name itself. A canonical
      crop's every alias is an alternative, so a "rice" query also keeps "Paddy" records. */
  function CropPattern(crop: string): (p: seq<string>)
    ensures Lower(crop) in p
    ensures Lower(crop) in CropAliases ==> forall k :: 0 <= k < |p| ==> Normalize(p[k]) == Lower(crop)
    ensures Lower(crop) !in CropAliases ==> p == [Lower(crop)]
    ensures forall a :: a in NormalizationMap && NormalizationMap[a] == Lower(crop) ==> a in p
  {
    var c := Lower(crop);
    if c in CropAliases then CropAliases[c] else [c]
  }

  /** `normalization_map`: each alias, lower-cased and stripped, to its canonical crop. */
  const NormalizationMap: map<string, string> := map[
    "rice" := "rice", "paddy" := "rice",
    "wheat" := "wheat",
    "maize" := "maize", "corn" := "maize",
    "cotton" := "cotton",
    "sugarcane" := "sugarcane",
    "potato" := "potato"
  ]

  /** `NormalizationMap` is exactly the comprehension over `CropAliases`: every alternative
      of a canonical crop maps to that crop, and nothing else is in the map. */
  lemma NormalizationMapFromAliases()
    ensures forall c, a :: c in CropAliases && a in CropAliases[c] ==>
      a in NormalizationMap && NormalizationMap[a] == c
    ensures forall a :: a in NormalizationMap ==>
      NormalizationMap[a] in CropAliases && a in CropAliases[NormalizationMap[a]]
  {
  }

  /** `Series.replace(normalization_map)` on one cell: exact matches only. */
  function Normalize(commodity: string): string {
    if commodity in NormalizationMap then NormalizationMap[commodity] else commodity
  }

  /** A commodity the normalization leaves as it is. */
  predicate IsCanonical(commodity: string) {
    Normalize(commodity) == commodity
  }

  /** Normalizing twice is normalizing once: every normalized name is canonical. */
  lemma NormalizeIdempotent(commodity: string)
    ensures IsCanonical(Normalize(commodity))
  {
  }

  /** Only exact aliases are renamed: `paddy` and `corn` are, `basmati paddy` is not. */
  lemma NormalizeRenamesExactAliasesOnly(commodity: string)
    ensures Normalize(commodity) != commodity <==> commodity == "paddy" || commodity == "corn"
  {
  }
}
