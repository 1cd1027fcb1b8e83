/** Global constants of the Census PL 94-171 imports. */
module PlConfig {

  /** `CENTRAL_SPINE_LEVELS`: the nested block → state hierarchy. */
  const CentralSpineLevels: seq<string> := ["block", "bg", "tract", "county", "state"]

  /** `AUXILIARY_LEVELS`: levels outside the spine. */
  const AuxiliaryLevels: seq<string> := ["vtd", "place", "cousub", "aiannh"]

  /** `LEVELS` */
  const Levels: seq<string> := CentralSpineLevels + AuxiliaryLevels

  /** `OUTLYING_TERRITORIES`: American Samoa, Guam, Northern Mariana Islands, U.S. Virgin Islands. */
  const OutlyingTerritories: seq<string> := ["60", "66", "69", "78"]

  /** `MissingDataset`, a named tuple: equality is field by field. */
  datatype MissingDataset = MissingDataset(fips: string, level: string, year: string)

  /** `MISSING_DATASETS`: (state, level, year) triples the Census does not publish. */
  const MissingDatasets: seq<MissingDataset> := [
    MissingDataset("06", "vtd", "2020"),
    MissingDataset("15", "vtd", "2020"),
    MissingDataset("21", "vtd", "2010"),
    MissingDataset("41", "vtd", "2020"),
    MissingDataset("44", "vtd", "2010"),
    MissingDataset("60", "vtd", "2010"),
    MissingDataset("60", "vtd", "2020"),
    MissingDataset("66", "vtd", "2010"),
    MissingDataset("66", "vtd", "2020"),
    MissingDataset("69", "vtd", "2010"),
    MissingDataset("69", "vtd", "2020"),
    MissingDataset("78", "vtd", "2010"),
    MissingDataset("78", "vtd", "2020")
  ]

  /** `MissingDataset(fips=..., level=..., year=...) in MISSING_DATASETS` */
  predicate IsMissing(fips: string, level: string, year: string) {
    MissingDataset(fips, level, year) in MissingDatasets
  }

  /** `LEVELS` is the spine followed by the auxiliary levels, nine in all, with no repeats. */
  lemma LevelsLayout()
    ensures |Levels| == 9
    ensures Levels[..5] == CentralSpineLevels && Levels[5..] == AuxiliaryLevels
    ensures forall i, j :: 0 <= i < j < |Levels| ==> Levels[i] != Levels[j]
  {
  }

  /** No level is both a spine level and an auxiliary level. */
  lemma SpineAndAuxiliaryDisjoint()
    ensures forall l :: l in CentralSpineLevels ==> l !in AuxiliaryLevels
  {
  }

  /** Only VTD layers of 2010 or 2020 are ever missing. */
  lemma MissingAreVtds()
    ensures forall d :: d in MissingDatasets ==> d.level == "vtd" && (d.year == "2010" || d.year == "2020")
  {
  }

  /** Every outlying territory lacks VTDs in both years. */
  lemma TerritoriesLackVtds()
    ensures forall f :: f in OutlyingTerritories ==>
      IsMissing(f, "vtd", "2010") && IsMissing(f, "vtd", "2020")
  {
  }

  /** Membership compares all three fields: another level or year of a missing state is not missing. */
  lemma MissingIsFieldwise()
    ensures IsMissing("06", "vtd", "2020") && !IsMissing("06", "vtd", "2010") && !IsMissing("06", "block", "2020")
  {
    assert MissingDatasets[0] == MissingDataset("06", "vtd", "2020");
  }
}
