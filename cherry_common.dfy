/** Shared helpers of the legacy cherrydb ETL package. */
module CherryCommon {
  import opened Strings
  import EtlCommon

  /** `pathify` of the cherrydb package. */
  function Pathify(name: string): string
  {
    ReplaceAll(ReplaceAll(Lower(Strip(name)), " ", "-"), ".", "")
  }

  /** The two packages' `pathify` are the same transformation. */
  lemma PathifyMatchesGerry(name: string)
    ensures Pathify(name) == EtlCommon.Pathify(name)
  {
  }

  /**
   * The output holds neither spaces nor dots, is no longer than the input, and
   * whitespace padding is stripped before it could turn into dashes.
   */
  lemma PathifyProperties(before: string, name: string, after: string)
    requires EtlCommon.AllSpace(before) && EtlCommon.AllSpace(after)
    ensures ' ' !in Pathify(name) && '.' !in Pathify(name)
    ensures |Pathify(name)| <= |name|
    ensures Pathify(before + name + after) == Pathify(name)
  {
    EtlCommon.PathifyHasNoSpace(name);
    EtlCommon.PathifyHasNoDot(name);
    EtlCommon.PathifyNoLonger(name);
    EtlCommon.PathifyIgnoresPadding(before, name, after);
  }
}
