/**
 File-naming conventions of the material library: material scenes are
 recognised by their extension, and each rendered swatch is named after its
 material plus a fixed suffix, which the staleness check strips off again.
 */
module Naming {

  /** Extension that marks a directory entry as a material scene. */
  const MaterialExtension: string := ".mb"

  /** Suffix added to a material name to form the swatch name the renderer is given. */
  const SwatchSuffix: string := ".SWATCH"

  /** Number of trailing characters stripped from an output entry. */
  const SwatchSuffixLength: nat := 7

  predicate EndsWith(s: string, suffix: string)
  {
    |suffix| <= |s| && s[|s| - |suffix|..] == suffix
  }

  /** A directory entry is a material scene when its name ends in ".mb". */
  predicate IsMaterialFile(name: string)
  {
    EndsWith(name, MaterialExtension)
  }

  /**
   The material a swatch entry stands for: the entry name without its last
   seven characters. Like a negative slice end, a name of seven characters or
   fewer yields the empty string.
   */
  function SwatchIdentity(entry: string): (m: string)
    ensures |m| == if |entry| <= SwatchSuffixLength then 0 else |entry| - SwatchSuffixLength
    ensures m <= entry
  {
    if |entry| <= SwatchSuffixLength then "" else entry[..|entry| - SwatchSuffixLength]
  }

  /** The swatch name the renderer is given for a material maps back to that material. */
  lemma SwatchOfMaterial(material: string)
    ensures SwatchIdentity(material + SwatchSuffix) == material
  {
  }
}
