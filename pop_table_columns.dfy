/**
 * The column catalogue of Census P.L. 94-171 tables P1 to P4: parsing the
 * Census variable labels, converting Census column names between their 2010
 * and 2020 formats, and planning the columns (name, aliases, description) that
 * `create_columns` creates for each table, reusing one column for the totals
 * two tables share.
 */
module PopTableColumns {
  import opened Wrappers
  import opened Strings

  /** `COL_LABELS`: short names of Census label parts. */
  const ColLabels: map<string, string> := map[
    "Asian" := "asian",
    "White" := "white",
    "Black" := "black",
    "Some Other Race" := "other",
    "Black or African American" := "black",
    "Native Hawaiian and Other Pacific Islander" := "nhpi",
    "American Indian and Alaska Native" := "amin",
    "Total" := "total",
    "Population of one race" := "one_race",
    "Population of two or more races" := "two_or_more_races",
    "Population of two races" := "two_races",
    "Population of three races" := "three_races",
    "Population of four races" := "four_races",
    "Population of five races" := "five_races",
    "Population of six races" := "six_races"]

  /** `TABLES`, in the order the tables are processed. */
  const Tables: seq<(string, string)> := [
    ("P1", "Race"),
    ("P2", "Hispanic or Latino, and Not Hispanic or Latino by Race"),
    ("P3", "Race for the Population 18 Years and Over"),
    ("P4", "Hispanic or Latino, and Not Hispanic or Latino by Race for the Population 18 Years and Over")]

  /** `COL_DESCRIPTIONS`, keyed by (table, Hispanic/Latino flag). */
  const ColDescriptions: map<(string, Option<bool>), string> := map[
    ("P1", None) := "population by race",
    ("P2", Some(true)) := "Hispanic population by race",
    ("P2", Some(false)) := "non-Hispanic or Latino population by race",
    ("P3", None) := "voting-age population by race",
    ("P4", Some(true)) := "Hispanic or Latino voting-age population by race",
    ("P4", Some(false)) := "non-Hispanic or Latino voting-age population by race"]

  /** `REDUNDANT_COLUMN_TO_CANONICAL_COLUMN`: totals shared by P1/P2 and P3/P4, 2020 and 2010 names. */
  const RedundantToCanonical: map<string, string> := map[
    "P2_001N" := "P1_001N",
    "P002001" := "P001001",
    "P4_001N" := "P3_001N",
    "P004001" := "P003001"]

  /**
   * `CANONICAL_COLUMN_TO_REDUNDANT_COLUMN`, which the source builds by
   * inverting the dict above; `RedundantMapsAreInverse` shows it is that
   * inverse.
   */
  const CanonicalToRedundant: map<string, string> := map[
    "P1_001N" := "P2_001N",
    "P001001" := "P002001",
    "P3_001N" := "P4_001N",
    "P003001" := "P004001"]

  /** The two dicts are each other's exact inverse, and no name is both a redundant total and a canonical one. */
  lemma RedundantMapsAreInverse()
    ensures forall r :: r in RedundantToCanonical ==>
      RedundantToCanonical[r] in CanonicalToRedundant && CanonicalToRedundant[RedundantToCanonical[r]] == r
    ensures forall c :: c in CanonicalToRedundant ==>
      CanonicalToRedundant[c] in RedundantToCanonical && RedundantToCanonical[CanonicalToRedundant[c]] == c
    ensures forall c :: c in CanonicalToRedundant ==> c !in RedundantToCanonical
  {
  }

  // ---------------------------------------------------------------------------
  // Labels

  /** A Census variable's metadata: its label and, when present, its predicate type. */
  datatype Variable = Variable(longLabel: string, predicateType: Option<string>)

  /** What `parse_labels` keeps for a variable: the human label, the canonical name, the Hispanic/Latino flag. */
  datatype ParsedLabel = ParsedLabel(demographic: string, canonical: string, hispanic: Option<bool>)

  /** Whether `parse_labels` keeps a variable: the "Total" row or an integer count. */
  predicate Kept(v: Variable) {
    v.longLabel == "Total" || v.predicateType == Some("int")
  }

  /**
   * The human label: the last `!!` segment of the colon-free label, with
   * "alone" removed, surrounding whitespace stripped, and the 2010 P004059
   * label typo (", Some Other Race") corrected.
   */
  function HumanLabel(text: string): string {
    TidySegment(LastSegment(text))
  }

  /** The last `!!` segment of the label without its colons. */
  function LastSegment(text: string): string {
    var segments := Split(ReplaceAll(text, ":", ""), "!!");
    segments[|segments| - 1]
  }

  /** "alone" removed, whitespace stripped, the P004059 typo corrected. */
  function TidySegment(segment: string): string {
    ReplaceAll(Strip(ReplaceAll(segment, "alone", "")), ", Some Other Race", "; Some Other Race")
  }

  /** A character absent from a text is absent from every piece `split` cuts it into. */
  lemma {:induction false} SplitKeepsAbsent(s: string, sep: string, c: char)
    requires |sep| > 0 && c !in s
    ensures forall k :: 0 <= k < |Split(s, sep)| ==> c !in Split(s, sep)[k]
    decreases |s|
  {
    if |s| >= |sep| {
      if s[..|sep|] == sep {
        assert forall i :: 0 <= i < |s[|sep|..]| ==> s[|sep|..][i] == s[|sep| + i];
        SplitKeepsAbsent(s[|sep|..], sep, c);
      } else {
        assert forall i :: 0 <= i < |s[1..]| ==> s[1..][i] == s[1 + i];
        SplitKeepsAbsent(s[1..], sep, c);
        var rest := Split(s[1..], sep);
        assert forall k :: 1 <= k < |Split(s, sep)| ==> Split(s, sep)[k] == rest[k];
      }
    }
  }

  lemma StripKeepsAbsent(s: string, c: char)
    requires c !in s
    ensures c !in Strip(s)
  {
    var l := LStrip(s);
    assert forall i :: 0 <= i < |l| ==> l[i] == s[|s| - |l| + i];
    var r := RStrip(l);
    assert forall i :: 0 <= i < |r| ==> r[i] == l[i];
  }

  /** A human label never holds a colon. */
  lemma HumanLabelHasNoColon(text: string)
    ensures ':' !in HumanLabel(text)
  {
    LastSegmentHasNoColon(text);
    TidyKeepsNoColon(LastSegment(text));
  }

  lemma LastSegmentHasNoColon(text: string)
    ensures ':' !in LastSegment(text)
  {
    var noColon := ReplaceAll(text, ":", "");
    ReplaceRemovesChar(text, ':', "");
    SplitKeepsAbsent(noColon, "!!", ':');
  }

  lemma TidyKeepsNoColon(segment: string)
    requires ':' !in segment
    ensures ':' !in TidySegment(segment)
  {
    ReplaceKeepsAbsent(segment, "alone", "", ':');
    StripKeepsAbsent(ReplaceAll(segment, "alone", ""), ':');
    ReplaceKeepsAbsent(Strip(ReplaceAll(segment, "alone", "")), ", Some Other Race", "; Some Other Race", ':');
  }

  /** A label part mapped through `COL_LABELS`, kept as it is when unmapped. */
  function ShortLabel(part: string): string {
    if part in ColLabels then ColLabels[part] else part
  }

  /** The canonical name: the label's "; "-separated parts, shortened, joined by "_". */
  function CanonicalName(human: string): (r: string)
    ensures var parts := Split(human, "; ");
      |parts| == 1 ==> r == ShortLabel(parts[0])
  {
    var parts := Split(human, "; ");
    Join(seq(|parts|, i requires 0 <= i < |parts| => ShortLabel(parts[i])), "_")
  }

  /**
   * A label glued from parts by "; " (no part holding a ';') gets the parts'
   * short labels joined by "_" as its canonical name.
   */
  lemma CanonicalNameOfParts(parts: seq<string>)
    requires |parts| >= 1
    requires forall k :: 0 <= k < |parts| ==> ';' !in parts[k]
    ensures CanonicalName(Join(parts, "; ")) == Join(seq(|parts|, i requires 0 <= i < |parts| => ShortLabel(parts[i])), "_")
  {
    SplitJoin(parts, "; ");
  }

  /** A two-part label, "White; Black or African American": both parts are shortened and joined by "_". */
  lemma CanonicalNameTwoParts(white: string, black: string)
    requires white == "White" && black == "Black or African American"
    ensures CanonicalName(white + "; " + black) == "white_black"
  {
    var parts := [white, black];
    assert ';' !in parts[0] && ';' !in parts[1];
    assert Join(parts, "; ") == white + "; " + black;
    CanonicalNameOfParts(parts);
    RaceShortLabels();
    var short := seq(|parts|, i requires 0 <= i < |parts| => ShortLabel(parts[i]));
    assert short == ["white", "black"];
  }

  lemma RaceShortLabels()
    ensures ShortLabel("White") == "white" && ShortLabel("Black or African American") == "black"
  {
  }

  /** `None` when the label does not mention Hispanic or Latino; otherwise whether it is not the "Not" group. */
  function HispanicFlag(text: string): (r: Option<bool>)
    ensures r.None? <==> !Contains(text, "Hispanic or Latino")
    ensures r == Some(false) <==> Contains(text, "Not Hispanic or Latino")
    ensures r == Some(true) <==> Contains(text, "Hispanic or Latino") && !Contains(text, "Not Hispanic or Latino")
  {
    if Contains(text, "Not Hispanic or Latino") then
      assert "Not " + "Hispanic or Latino" == "Not Hispanic or Latino";
      ContainsTail(text, "Not ", "Hispanic or Latino");
      Some(false)
    else if Contains(text, "Hispanic or Latino") then Some(true)
    else None
  }

  function ParseLabel(text: string): ParsedLabel {
    var human := HumanLabel(text);
    ParsedLabel(human, CanonicalName(human), HispanicFlag(text))
  }

  /**
   * The items of the dict `parse_labels` builds, in insertion order: each kept
   * variable's key with its parsed label (`parse` is `ParseLabel`).
   */
  function KeptItems<T>(variables: seq<(string, Variable)>, parse: string -> T): (r: seq<(string, T)>)
    decreases |variables|
  {
    if |variables| == 0 then []
    else
      var n := |variables| - 1;
      KeptItems(variables[..n], parse)
        + (if Kept(variables[n].1) then [(variables[n].0, parse(variables[n].1.longLabel))] else [])
  }

  lemma KeptItemsStep<T>(variables: seq<(string, Variable)>, i: nat, parse: string -> T)
    requires i < |variables|
    ensures KeptItems(variables[..i + 1], parse) == KeptItems(variables[..i], parse)
      + (if Kept(variables[i].1) then [(variables[i].0, parse(variables[i].1.longLabel))] else [])
  {
    assert variables[..i + 1][..i] == variables[..i];
  }

  /** `parse_labels` */
  method ParseLabels(variables: seq<(string, Variable)>) returns (mapped: seq<(string, ParsedLabel)>)
    ensures mapped == KeptItems(variables, ParseLabel)
  {
    mapped := [];
    var i := 0;
    while i < |variables|
      invariant i <= |variables|
      invariant mapped == KeptItems(variables[..i], ParseLabel)
    {
      var key := variables[i].0;
      var meta := variables[i].1;
      KeptItemsStep(variables, i, ParseLabel);
      if Kept(meta) {
        mapped := mapped + [(key, ParseLabel(meta.longLabel))];
      }
      i := i + 1;
    }
    assert variables[..i] == variables;
  }

  /**
   * `parse_labels` keeps exactly the "Total" and integer variables, each under its own key with its parsed label, and never more
   * items than it was given.
   */
  lemma {:induction false} KeptItemsExactly<T>(variables: seq<(string, Variable)>, parse: string -> T)
    ensures |KeptItems(variables, parse)| <= |variables|
    ensures forall e :: e in KeptItems(variables, parse) <==>
      exists i :: 0 <= i < |variables| && Kept(variables[i].1) && e == (variables[i].0, parse(variables[i].1.longLabel))
    decreases |variables|
  {
    if |variables| > 0 {
      var n := |variables| - 1;
      var prefix := variables[..n];
      KeptItemsExactly(prefix, parse);
      forall e ensures e in KeptItems(variables, parse) <==>
        exists i :: 0 <= i < |variables| && Kept(variables[i].1) && e == (variables[i].0, parse(variables[i].1.longLabel))
      {
        if e in KeptItems(prefix, parse) {
          var i :| 0 <= i < n && Kept(prefix[i].1) && e == (prefix[i].0, parse(prefix[i].1.longLabel));
          assert prefix[i] == variables[i];
        }
        if exists i :: 0 <= i < |variables| && Kept(variables[i].1) && e == (variables[i].0, parse(variables[i].1.longLabel)) {
          var i :| 0 <= i < |variables| && Kept(variables[i].1) && e == (variables[i].0, parse(variables[i].1.longLabel));
          if i < n {
            assert prefix[i] == variables[i];
          }
        }
      }
    }
  }

  // ---------------------------------------------------------------------------
  // Census column names

  /** What creating the columns of a table can raise. */
  datatype ColumnsError =
    | IndexOutOfRange(name: string)
    | MissingRedundant(name: string)
    | MissingDescription(table: string, hispanic: Option<bool>)
    | NoAliases(name: string)

  /** `Px_yyyN`, the 2020 format. */
  predicate Is2020Name(s: string) { |s| == 7 && s[0] == 'P' && s[2] == '_' && s[6] == 'N' }

  /** `P00xyyy`, the 2010 format. */
  predicate Is2010Name(s: string) { |s| == 7 && s[..3] == "P00" }

  /** `P00x0yyy`, the long 2010 format. */
  predicate IsLong2010Name(s: string) { |s| == 8 && s[..3] == "P00" && s[4] == '0' }

  /**
   * `column_aliases`: the three spellings of a Census column name, or `None`
   * for a name in none of the formats. Reading `name[2]` of a one- or
   * two-character name starting with "P" raises.
   */
  function ColumnAliases(name: string): (r: Result<Option<seq<string>>, ColumnsError>)
    ensures r.Failure? <==> StartsWith(name, "P") && |name| < 3
    ensures r.Success? && r.value.Some? ==> |r.value.value| == 3 && name in r.value.value
    ensures Is2020Name(name) || Is2010Name(name) || IsLong2010Name(name) ==> r.Success? && r.value.Some?
    ensures r.Success? && r.value.None? ==> !Is2020Name(name) && !Is2010Name(name) && !IsLong2010Name(name)
  {
    if StartsWith(name, "P") && |name| < 3 then Failure(IndexOutOfRange(name))
    else if StartsWith(name, "P") && name[2] == '_' && |name| == 7 then
      var table := name[1];
      var col := name[3..6];
      Success(Some([name, "P00" + [table] + col, "P00" + [table] + "0" + col]))
    else if StartsWith(name, "P00") && |name| == 7 then
      var table := name[3];
      var col := name[4..];
      Success(Some(["P" + [table] + "_" + col + "N", name, "P00" + [table] + "0" + col]))
    else if StartsWith(name, "P00") && |name| == 8 then
      var table := name[3];
      var col := name[5..];
      Success(Some(["P" + [table] + "_" + col + "N", "P00" + [table] + col, name]))
    else Success(None)
  }

  /**
   * For a name in one of the three formats, the aliases are the 2020, 2010
   * and long 2010 spellings in that order, the name among them at the place
   * of its own format, and every one of them has exactly the same aliases.
   */
  lemma ColumnAliasesStandardize(name: string)
    requires Is2020Name(name) || Is2010Name(name) || IsLong2010Name(name)
    ensures var aliases := ColumnAliases(name).value.value;
      Is2020Name(aliases[0]) && Is2010Name(aliases[1]) && IsLong2010Name(aliases[2])
      && (Is2020Name(name) ==> aliases[0] == name)
      && (Is2010Name(name) ==> aliases[1] == name)
      && (IsLong2010Name(name) ==> aliases[2] == name)
      && forall k :: 0 <= k < 3 ==> ColumnAliases(aliases[k]) == Success(Some(aliases))
  {
    var aliases := ColumnAliases(name).value.value;
    if Is2020Name(name) {
      var t := name[1];
      var c := name[3..6];
      assert aliases[1][..3] == "P00" && aliases[1][3] == t && aliases[1][4..] == c;
      assert aliases[2][..3] == "P00" && aliases[2][3] == t && aliases[2][5..] == c;
      assert name == "P" + [t] + "_" + c + "N";
    } else if Is2010Name(name) {
      var t := name[3];
      var c := name[4..];
      assert aliases[0][1] == t && aliases[0][3..6] == c;
      assert aliases[2][..3] == "P00" && aliases[2][3] == t && aliases[2][5..] == c;
      assert name == "P00" + [t] + c;
    } else {
      var t := name[3];
      var c := name[5..];
      assert aliases[0][1] == t && aliases[0][3..6] == c;
      assert aliases[1][..3] == "P00" && aliases[1][3] == t && aliases[1][4..] == c;
      assert name == "P00" + [t] + "0" + c;
    }
  }

  // ---------------------------------------------------------------------------
  // Column names

  /** The name prefix for the Hispanic/Latino flag. */
  function HispanicPrefix(hispanic: Option<bool>): (r: string)
    ensures ' ' !in r && forall i :: 0 <= i < |r| ==> !IsUpper(r[i])
  {
    match hispanic
    case None => ""
    case Some(true) => "hispanic_"
    case Some(false) => "non_hispanic_"
  }

  /** "_vap" (voting-age population) for P3 and P4, "_pop" for the others. */
  function UnitSuffix(table: string): (r: string)
    ensures |r| == 4 && ' ' !in r && forall i :: 0 <= i < |r| ==> !IsUpper(r[i])
  {
    if table == "P3" || table == "P4" then "_vap" else "_pop"
  }

  /**
   * The name assembled from a prefix, a canonical name and a unit suffix: the
   * canonical name dropped when it is the Hispanic/Latino group itself (no
   * `hispanic_hispanic_pop`), spaces turned into `_`.
   */
  function AssembleName(prefix: string, canonical: string, suffix: string): string
    requires |suffix| > 0
  {
    var name := if EndsWith(canonical, "Hispanic or Latino") then prefix + suffix[1..] else prefix + canonical + suffix;
    ReplaceAll(name, " ", "_")
  }

  /** The column name `create_columns` derives from a parsed label, before lowercasing. */
  function ColumnName(table: string, canonical: string, hispanic: Option<bool>): string {
    AssembleName(HispanicPrefix(hispanic), canonical, UnitSuffix(table))
  }

  lemma AssembleNameShape(prefix: string, canonical: string, suffix: string)
    requires |suffix| > 0 && ' ' !in prefix && ' ' !in suffix
    ensures var r := AssembleName(prefix, canonical, suffix);
      ' ' !in r && StartsWith(r, prefix) && EndsWith(r, suffix[1..])
      && (EndsWith(canonical, "Hispanic or Latino") ==> r == prefix + suffix[1..])
      && (!EndsWith(canonical, "Hispanic or Latino") ==> r == prefix + ReplaceAll(canonical, " ", "_") + suffix)
  {
    if EndsWith(canonical, "Hispanic or Latino") {
      AssembleGroupName(prefix, canonical, suffix);
    } else {
      AssembleSubgroupName(prefix, canonical, suffix);
    }
  }

  lemma AssembleGroupName(prefix: string, canonical: string, suffix: string)
    requires |suffix| > 0 && ' ' !in prefix && ' ' !in suffix && EndsWith(canonical, "Hispanic or Latino")
    ensures var r := AssembleName(prefix, canonical, suffix);
      ' ' !in r && StartsWith(r, prefix) && r == prefix + suffix[1..]
  {
    ReplaceAbsentChar(prefix, ' ', "_");
    ReplaceAbsentChar(suffix[1..], ' ', "_");
    ReplaceCharAppend(prefix, suffix[1..], ' ', "_");
    ReplaceRemovesChar(prefix + suffix[1..], ' ', "_");
    assert (prefix + suffix[1..])[..|prefix|] == prefix;
  }

  lemma AssembleSubgroupName(prefix: string, canonical: string, suffix: string)
    requires |suffix| > 0 && ' ' !in prefix && ' ' !in suffix && !EndsWith(canonical, "Hispanic or Latino")
    ensures var r := AssembleName(prefix, canonical, suffix);
      ' ' !in r && StartsWith(r, prefix) && EndsWith(r, suffix[1..])
      && r == prefix + ReplaceAll(canonical, " ", "_") + suffix
  {
    SubgroupNameParts(prefix, canonical, suffix);
    ReplaceRemovesChar(prefix + canonical + suffix, ' ', "_");
    Affixes(prefix, ReplaceAll(canonical, " ", "_"), suffix);
  }

  lemma SubgroupNameParts(prefix: string, canonical: string, suffix: string)
    requires |suffix| > 0 && ' ' !in prefix && ' ' !in suffix && !EndsWith(canonical, "Hispanic or Latino")
    ensures AssembleName(prefix, canonical, suffix) == prefix + ReplaceAll(canonical, " ", "_") + suffix
  {
    ReplaceAbsentChar(prefix, ' ', "_");
    ReplaceAbsentChar(suffix, ' ', "_");
    ReplaceCharAppend(prefix + canonical, suffix, ' ', "_");
    ReplaceCharAppend(prefix, canonical, ' ', "_");
  }

  lemma Affixes(prefix: string, mid: string, suffix: string)
    requires |suffix| > 0
    ensures StartsWith(prefix + mid + suffix, prefix) && EndsWith(prefix + mid + suffix, suffix[1..])
  {
    var r := prefix + mid + suffix;
    assert r[..|prefix|] == prefix;
    assert r[|r| - (|suffix| - 1)..] == suffix[1..];
  }

  /**
   * A column name holds no space, starts with the flag's prefix and ends with
   * "pop" or "vap"; the Hispanic/Latino group itself is named by prefix and
   * unit alone.
   */
  lemma ColumnNameShape(table: string, canonical: string, hispanic: Option<bool>)
    ensures var r := ColumnName(table, canonical, hispanic);
      var prefix := HispanicPrefix(hispanic);
      var suffix := UnitSuffix(table);
      ' ' !in r && StartsWith(r, prefix) && EndsWith(r, suffix[1..])
      && (EndsWith(canonical, "Hispanic or Latino") ==> r == prefix + suffix[1..])
      && (!EndsWith(canonical, "Hispanic or Latino") ==> r == prefix + ReplaceAll(canonical, " ", "_") + suffix)
  {
    AssembleNameShape(HispanicPrefix(hispanic), canonical, UnitSuffix(table));
  }

  lemma LowerKeepsShape(name: string, prefix: string, unit: string)
    requires ' ' !in name && StartsWith(name, prefix) && EndsWith(name, unit)
    requires forall i :: 0 <= i < |prefix| ==> !IsUpper(prefix[i])
    requires forall i :: 0 <= i < |unit| ==> !IsUpper(unit[i])
    ensures var r := Lower(name); ' ' !in r && StartsWith(r, prefix) && EndsWith(r, unit)
  {
    LowerKeepsNonLetters(name, ' ');
    var r := Lower(name);
    LowerWithoutCapitals(prefix);
    LowerWithoutCapitals(unit);
    assert r[..|prefix|] == Lower(name[..|prefix|]);
    assert r[|r| - |unit|..] == Lower(name[|name| - |unit|..]);
  }

  /** The lowercased name the column is created under keeps that shape. */
  lemma LowerColumnNameShape(table: string, canonical: string, hispanic: Option<bool>)
    ensures var r := Lower(ColumnName(table, canonical, hispanic));
      ' ' !in r && StartsWith(r, HispanicPrefix(hispanic)) && EndsWith(r, UnitSuffix(table)[1..])
  {
    ColumnNameShape(table, canonical, hispanic);
    var unit := UnitSuffix(table)[1..];
    assert forall i :: 0 <= i < |unit| ==> unit[i] == UnitSuffix(table)[i + 1];
    LowerKeepsShape(ColumnName(table, canonical, hispanic), HispanicPrefix(hispanic), unit);
  }

  // ---------------------------------------------------------------------------
  // Planning the columns of the tables

  /** A column as `create_columns` creates it (kind "count", type "int" for all). */
  datatype ColumnSpec = ColumnSpec(name: string, aliases: seq<string>, description: string, sourceUrl: string)

  /** A column set: one per table, holding the table's columns in order. */
  datatype ColumnSetSpec = ColumnSetSpec(path: string, columns: seq<ColumnSpec>, description: string)

  /** The columns and column sets of the namespace, keyed by name and path. */
  datatype Catalogue = Catalogue(columns: map<string, ColumnSpec>, sets: map<string, ColumnSetSpec>)

  /** Every column is stored under its own name. */
  predicate KeyedByName(columns: map<string, ColumnSpec>) {
    forall k :: k in columns ==> columns[k].name == k
  }

  /** The table's group URL on the Census API. */
  function TableUrl(year: string, table: string): string {
    "https://api.census.gov/data/" + year + "/dec/pl" + "/groups/" + table + "/"
  }

  function LowerAll(xs: seq<string>): (r: seq<string>)
    ensures |r| == |xs| && forall i :: 0 <= i < |xs| ==> r[i] == Lower(xs[i])
  {
    seq(|xs|, i requires 0 <= i < |xs| => Lower(xs[i]))
  }

  /**
   * The column `create_columns` asks for, for a variable that is not a
   * redundant total. Looking up the description, computing the aliases, and
   * lowercasing aliases that are `None` (the name's own, or those of the
   * redundant total a canonical total absorbs) raise.
   */
  function NewColumn(year: string, table: string, census: string, parsed: ParsedLabel): Result<ColumnSpec, ColumnsError> {
    if (table, parsed.hispanic) !in ColDescriptions then Failure(MissingDescription(table, parsed.hispanic))
    else
      var own :- ColumnAliases(census);
      var extra :- if census in CanonicalToRedundant then ColumnAliases(CanonicalToRedundant[census]) else Success(Some([]));
      if own.None? then Failure(NoAliases(census))
      else if extra.None? then Failure(NoAliases(CanonicalToRedundant[census]))
      else
        Success(ColumnSpec(
          Lower(ColumnName(table, parsed.canonical, parsed.hispanic)),
          LowerAll(own.value + extra.value),
          year + " U.S. Census " + ColDescriptions[(table, parsed.hispanic)] + ": " + parsed.demographic,
          TableUrl(year, table)))
  }

  /**
   * The column asked for is named after its label and table, is described by
   * the table's description for its flag and its human label, and carries the
   * lowercased aliases of its Census name (three of them, six for a canonical
   * total). A missing description is the first error reported; a well-formed
   * non-total name with a description always succeeds.
   */
  lemma NewColumnProperties(year: string, table: string, census: string, parsed: ParsedLabel)
    ensures var r := NewColumn(year, table, census, parsed);
      ((table, parsed.hispanic) !in ColDescriptions ==> r == Failure(MissingDescription(table, parsed.hispanic)))
      && ((table, parsed.hispanic) in ColDescriptions && Is2020Name(census) && census !in CanonicalToRedundant ==> r.Success?)
      && (r.Success? ==>
        r.value.name == Lower(ColumnName(table, parsed.canonical, parsed.hispanic))
        && r.value.description == year + " U.S. Census " + ColDescriptions[(table, parsed.hispanic)] + ": " + parsed.demographic
        && r.value.sourceUrl == TableUrl(year, table)
        && Lower(census) in r.value.aliases
        && |r.value.aliases| == (if census in CanonicalToRedundant then 6 else 3))
  {
    var r := NewColumn(year, table, census, parsed);
    if r.Success? {
      var own := ColumnAliases(census).value.value;
      assert census in own;
      var k :| 0 <= k < |own| && own[k] == census;
      if census in CanonicalToRedundant {
        var extra := ColumnAliases(CanonicalToRedundant[census]).value.value;
        assert (own + extra)[k] == census;
      } else {
        assert own + [] == own;
      }
    }
  }

  /** What one table's loop has built so far: its columns, the shared totals, the namespace's columns. */
  datatype TableState = TableState(cols: seq<ColumnSpec>, redundant: map<string, ColumnSpec>, columns: map<string, ColumnSpec>)

  /** How a table's loop builds the column of a variable that is not a redundant total. */
  type Builder = (string, ParsedLabel) -> Result<ColumnSpec, ColumnsError>

  /** `create_columns` builds with `NewColumn` for its year and the table at hand. */
  function ColumnBuilder(year: string, table: string): Builder {
    (census, parsed) => NewColumn(year, table, census, parsed)
  }

  /**
   * One variable of a table. A redundant total takes the column recorded for
   * it (a missing one raises `KeyError`); any other variable gets its column,
   * which is the namespace's existing column of that name when there is one
   * (creation fails and the column is fetched), and a canonical total
   * records its column for the redundant total it absorbs.
   */
  function PlanEntry(build: Builder, census: string, parsed: ParsedLabel, st: TableState): Result<TableState, ColumnsError> {
    if census in RedundantToCanonical then
      if census in st.redundant then Success(st.(cols := st.cols + [st.redundant[census]]))
      else Failure(MissingRedundant(census))
    else
      var spec :- build(census, parsed);
      var col := if spec.name in st.columns then st.columns[spec.name] else spec;
      Success(TableState(
        st.cols + [col],
        if census in CanonicalToRedundant then st.redundant[CanonicalToRedundant[census] := col] else st.redundant,
        st.columns[spec.name := col]))
  }

  /** The table's loop over its parsed variables, in order, stopping at the first error. */
  function PlanTableSpec(build: Builder, vars: seq<(string, ParsedLabel)>, st: TableState): Result<TableState, ColumnsError>
    decreases |vars|
  {
    if |vars| == 0 then Success(st)
    else
      var n := |vars| - 1;
      var before :- PlanTableSpec(build, vars[..n], st);
      PlanEntry(build, vars[n].0, vars[n].1, before)
  }

  lemma {:induction false} PlanFailurePersists(build: Builder, vars: seq<(string, ParsedLabel)>, st: TableState, k: nat)
    requires k <= |vars| && PlanTableSpec(build, vars[..k], st).Failure?
    ensures PlanTableSpec(build, vars, st) == PlanTableSpec(build, vars[..k], st)
    decreases |vars|
  {
    if k < |vars| {
      var n := |vars| - 1;
      assert vars[..n][..k] == vars[..k];
      PlanFailurePersists(build, vars[..n], st, k);
    } else {
      assert vars[..k] == vars;
    }
  }

  /**
   * The state the table's loop holds when it stops: after every variable
   * when it succeeds, otherwise after the variables before the one that
   * raised. Nothing undoes the columns those variables already created.
   */
  function PlanReached(build: Builder, vars: seq<(string, ParsedLabel)>, st: TableState): (r: TableState)
    ensures PlanTableSpec(build, vars, st).Success? ==> r == PlanTableSpec(build, vars, st).value
    decreases |vars|
  {
    if |vars| == 0 then st
    else
      var n := |vars| - 1;
      var before := PlanTableSpec(build, vars[..n], st);
      if before.Failure? then PlanReached(build, vars[..n], st)
      else
        var next := PlanEntry(build, vars[n].0, vars[n].1, before.value);
        if next.Failure? then before.value else next.value
  }

  /** Once a prefix of the variables has raised, the later ones change nothing the loop holds. */
  lemma {:induction false} PlanReachedPersists(build: Builder, vars: seq<(string, ParsedLabel)>, st: TableState, k: nat)
    requires k <= |vars| && PlanTableSpec(build, vars[..k], st).Failure?
    ensures PlanReached(build, vars, st) == PlanReached(build, vars[..k], st)
    decreases |vars|
  {
    if k < |vars| {
      var n := |vars| - 1;
      assert vars[..n][..k] == vars[..k];
      PlanFailurePersists(build, vars[..n], st, k);
      PlanReachedPersists(build, vars[..n], st, k);
    } else {
      assert vars[..k] == vars;
    }
  }

  /**
   * A loop that raises stops at a variable `i`: it holds what the variables
   * before `i` built, and variable `i` is the one that raised.
   */
  lemma {:induction false} PlanReachedStopsAtRaise(build: Builder, vars: seq<(string, ParsedLabel)>, st: TableState)
    requires PlanTableSpec(build, vars, st).Failure?
    ensures exists i :: (0 <= i < |vars|
      && PlanTableSpec(build, vars[..i], st) == Success(PlanReached(build, vars, st))
      && PlanTableSpec(build, vars[..i + 1], st).Failure?)
    decreases |vars|
  {
    var n := |vars| - 1;
    var before := PlanTableSpec(build, vars[..n], st);
    if before.Failure? {
      PlanReachedStopsAtRaise(build, vars[..n], st);
      var i :| 0 <= i < n
        && PlanTableSpec(build, vars[..n][..i], st) == Success(PlanReached(build, vars[..n], st))
        && PlanTableSpec(build, vars[..n][..i + 1], st).Failure?;
      assert vars[..n][..i] == vars[..i] && vars[..n][..i + 1] == vars[..i + 1];
    } else {
      assert vars[..n + 1] == vars;
    }
  }

  /** One iteration of the loop over a table's variables. */
  method PlanStep(year: string, table: string, census: string, parsed: ParsedLabel, cur: TableState)
    returns (r: Result<TableState, ColumnsError>)
    ensures r == PlanEntry(ColumnBuilder(year, table), census, parsed, cur)
  {
    if census in RedundantToCanonical {
      if census !in cur.redundant {
        return Failure(MissingRedundant(census));
      }
      return Success(cur.(cols := cur.cols + [cur.redundant[census]]));
    }
    var spec := NewColumn(year, table, census, parsed);
    if spec.Failure? {
      return Failure(spec.error);
    }
    var col := spec.value;
    if col.name in cur.columns {
      col := cur.columns[col.name];
    }
    var redundant := cur.redundant;
    if census in CanonicalToRedundant {
      redundant := redundant[CanonicalToRedundant[census] := col];
    }
    return Success(TableState(cur.cols + [col], redundant, cur.columns[spec.value.name := col]));
  }

  /**
   * The loop of `create_columns` over one table's variables: its outcome,
   * and the state it holds when it stops (the columns created before a
   * raise stay in the namespace).
   */
  method PlanTable(year: string, table: string, vars: seq<(string, ParsedLabel)>, st: TableState)
    returns (r: Result<TableState, ColumnsError>, reached: TableState)
    ensures r == PlanTableSpec(ColumnBuilder(year, table), vars, st)
    ensures reached == PlanReached(ColumnBuilder(year, table), vars, st)
  {
    var cur := st;
    var i := 0;
    while i < |vars|
      invariant i <= |vars|
      invariant PlanTableSpec(ColumnBuilder(year, table), vars[..i], st) == Success(cur)
    {
      assert vars[..i + 1][..i] == vars[..i];
      var next := PlanStep(year, table, vars[i].0, vars[i].1, cur);
      if next.Failure? {
        PlanFailurePersists(ColumnBuilder(year, table), vars, st, i + 1);
        PlanReachedPersists(ColumnBuilder(year, table), vars, st, i + 1);
        return next, cur;
      }
      cur := next.value;
      i := i + 1;
    }
    assert vars[..i] == vars;
    return Success(cur), cur;
  }

  // ---------------------------------------------------------------------------
  // What one table's loop guarantees

  predicate DistinctKeys(vars: seq<(string, ParsedLabel)>) {
    forall a, b :: 0 <= a < b < |vars| ==> vars[a].0 != vars[b].0
  }

  /** `big` holds every entry of `small`, unchanged. */
  predicate Extends(big: map<string, ColumnSpec>, small: map<string, ColumnSpec>) {
    forall k :: k in small ==> k in big && big[k] == small[k]
  }

  /** `col` is the namespace's column of its name. */
  predicate Registered(columns: map<string, ColumnSpec>, col: ColumnSpec) {
    col.name in columns && columns[col.name] == col
  }

  /** Every column the loop holds is the namespace's column of that name. */
  predicate Coherent(st: TableState) {
    KeyedByName(st.columns)
    && (forall k :: k in st.redundant ==> Registered(st.columns, st.redundant[k]))
    && (forall i :: 0 <= i < |st.cols| ==> Registered(st.columns, st.cols[i]))
  }

  /** The loop appends exactly one column per variable to the table's list. */
  lemma {:induction false} PlanTableGrows(build: Builder, vars: seq<(string, ParsedLabel)>, st: TableState)
    requires PlanTableSpec(build, vars, st).Success?
    ensures var r := PlanTableSpec(build, vars, st).value;
      |r.cols| == |st.cols| + |vars| && r.cols[..|st.cols|] == st.cols
    decreases |vars|
  {
    if |vars| > 0 {
      var n := |vars| - 1;
      PlanTableGrows(build, vars[..n], st);
      var before := PlanTableSpec(build, vars[..n], st).value;
      var r := PlanTableSpec(build, vars, st).value;
      assert r.cols == before.cols + [r.cols[|before.cols|]];
      assert r.cols[..|st.cols|] == before.cols[..|st.cols|];
    }
  }

  /**
   * The loop never changes or drops a column of the namespace, and every
   * column it lists or records is the namespace's column of that name: a
   * name is never bound to two different columns.
   */
  lemma {:induction false} PlanTableCoherent(build: Builder, vars: seq<(string, ParsedLabel)>, st: TableState)
    requires Coherent(st) && PlanTableSpec(build, vars, st).Success?
    ensures var r := PlanTableSpec(build, vars, st).value;
      Coherent(r) && Extends(r.columns, st.columns)
    decreases |vars|
  {
    if |vars| > 0 {
      var n := |vars| - 1;
      PlanTableCoherent(build, vars[..n], st);
      var before := PlanTableSpec(build, vars[..n], st).value;
      var r := PlanTableSpec(build, vars, st).value;
      assert r == PlanEntry(build, vars[n].0, vars[n].1, before).value;
      EntryCoherent(build, vars[n].0, vars[n].1, before);
    }
  }

  /** One variable keeps the loop coherent and keeps every column already in the namespace. */
  lemma EntryCoherent(build: Builder, census: string, parsed: ParsedLabel, st: TableState)
    requires Coherent(st) && PlanEntry(build, census, parsed, st).Success?
    ensures var r := PlanEntry(build, census, parsed, st).value;
      Coherent(r) && Extends(r.columns, st.columns)
  {
    var r := PlanEntry(build, census, parsed, st).value;
    assert Extends(r.columns, st.columns);
    assert forall c :: Registered(st.columns, c) ==> Registered(r.columns, c);
    assert forall i :: 0 <= i < |st.cols| ==> r.cols[i] == st.cols[i];
  }

  /**
   * A canonical total's column is recorded for the redundant total it
   * absorbs, and no later variable of the table overwrites that record.
   */
  lemma {:induction false} PlanTableRecordsCanonical(build: Builder, vars: seq<(string, ParsedLabel)>,
                                                     st: TableState, i: nat)
    requires PlanTableSpec(build, vars, st).Success?
    requires DistinctKeys(vars) && i < |vars| && vars[i].0 in CanonicalToRedundant
    ensures var r := PlanTableSpec(build, vars, st).value;
      CanonicalToRedundant[vars[i].0] in r.redundant && |st.cols| + i < |r.cols|
      && r.redundant[CanonicalToRedundant[vars[i].0]] == r.cols[|st.cols| + i]
    decreases |vars|
  {
    var n := |vars| - 1;
    var before := PlanTableSpec(build, vars[..n], st).value;
    var r := PlanTableSpec(build, vars, st).value;
    PlanTableGrows(build, vars[..n], st);
    PlanTableGrows(build, vars, st);
    RedundantMapsAreInverse();
    if i < n {
      assert vars[..n][i] == vars[i];
      assert DistinctKeys(vars[..n]);
      PlanTableRecordsCanonical(build, vars[..n], st, i);
      RedundantMapsAreInverse();
      assert r.cols[|st.cols| + i] == before.cols[|st.cols| + i];
    }
  }

  /** Variables other than the canonical total of `total` leave its record alone. */
  lemma {:induction false} PlanTableKeepsOtherTotals(build: Builder, vars: seq<(string, ParsedLabel)>,
                                                     st: TableState, total: string)
    requires PlanTableSpec(build, vars, st).Success?
    requires forall i :: 0 <= i < |vars| ==> !(vars[i].0 in CanonicalToRedundant && CanonicalToRedundant[vars[i].0] == total)
    ensures var r := PlanTableSpec(build, vars, st).value;
      (total in r.redundant <==> total in st.redundant)
      && (total in st.redundant ==> r.redundant[total] == st.redundant[total])
    decreases |vars|
  {
    if |vars| > 0 {
      var n := |vars| - 1;
      assert forall i :: 0 <= i < n ==> vars[..n][i] == vars[i];
      PlanTableKeepsOtherTotals(build, vars[..n], st, total);
    }
  }

  /**
   * A redundant total whose canonical total is not in the table takes the
   * column recorded for it before the table's loop began.
   */
  lemma {:induction false} PlanTableReusesTotal(build: Builder, vars: seq<(string, ParsedLabel)>,
                                                st: TableState, j: nat)
    requires PlanTableSpec(build, vars, st).Success?
    requires j < |vars| && vars[j].0 in RedundantToCanonical
    requires forall i :: 0 <= i < |vars| ==> vars[i].0 != RedundantToCanonical[vars[j].0]
    ensures vars[j].0 in st.redundant
    ensures var r := PlanTableSpec(build, vars, st).value;
      |st.cols| + j < |r.cols| && r.cols[|st.cols| + j] == st.redundant[vars[j].0]
    decreases |vars|
  {
    var n := |vars| - 1;
    var before := PlanTableSpec(build, vars[..n], st).value;
    var r := PlanTableSpec(build, vars, st).value;
    PlanTableGrows(build, vars[..n], st);
    PlanTableGrows(build, vars, st);
    assert forall i :: 0 <= i < n ==> vars[..n][i] == vars[i];
    if j == n {
      RedundantMapsAreInverse();
      PlanTableKeepsOtherTotals(build, vars[..n], st, vars[j].0);
    } else {
      PlanTableReusesTotal(build, vars[..n], st, j);
      assert r.cols[|st.cols| + j] == before.cols[|st.cols| + j];
    }
  }

  // ---------------------------------------------------------------------------
  // All tables

  /** The column set of a table: its columns in order, at the lowercased table name. */
  function ColumnSetFor(year: string, table: string, cols: seq<ColumnSpec>): ColumnSetSpec {
    ColumnSetSpec(Lower(table), cols, year + " U.S. Census P.L. 94-171 Table " + table)
  }

  /** Creating a column set whose path exists fails and leaves the existing one. */
  function AddColumnSet(sets: map<string, ColumnSetSpec>, cs: ColumnSetSpec): (r: map<string, ColumnSetSpec>)
    ensures cs.path in r && (cs.path !in sets ==> r[cs.path] == cs)
    ensures forall p :: p in sets ==> p in r && r[p] == sets[p]
    ensures forall p :: p in r ==> p in sets || p == cs.path
  {
    if cs.path in sets then sets else sets[cs.path := cs]
  }

  /**
   * Where a run of `create_columns` stands: the namespace, the recorded
   * shared totals, the column list of every table done, and the error that
   * stopped it. A table that raises keeps the columns its earlier variables
   * created and the totals they recorded, but gets no column set and no list.
   */
  datatype Run = Run(catalogue: Catalogue, redundant: map<string, ColumnSpec>, tables: seq<seq<ColumnSpec>>,
                     error: Option<ColumnsError>)

  /**
   * `create_columns` over the first `n` tables; `parsed[t]` is what
   * `parse_labels` gave for table `t`, in its variables' order.
   */
  function CreateTables(year: string, parsed: seq<seq<(string, ParsedLabel)>>, start: Catalogue, n: nat): (run: Run)
    requires n <= |Tables| && |parsed| == |Tables|
    ensures run.error.None? ==> |run.tables| == n
  {
    if n == 0 then Run(start, map[], [], None)
    else
      var prev := CreateTables(year, parsed, start, n - 1);
      if prev.error.Some? then prev
      else
        var table := Tables[n - 1].0;
        var planned := PlanTableSpec(ColumnBuilder(year, table), parsed[n - 1], TableState([], prev.redundant, prev.catalogue.columns));
        if planned.Failure? then
          var reached := PlanReached(ColumnBuilder(year, table), parsed[n - 1], TableState([], prev.redundant, prev.catalogue.columns));
          prev.(catalogue := prev.catalogue.(columns := reached.columns), redundant := reached.redundant,
                error := Some(planned.error))
        else
          Run(Catalogue(planned.value.columns, AddColumnSet(prev.catalogue.sets, ColumnSetFor(year, table, planned.value.cols))),
              planned.value.redundant, prev.tables + [planned.value.cols], None)
  }

  lemma {:induction false} CreateTablesStops(year: string, parsed: seq<seq<(string, ParsedLabel)>>, start: Catalogue, k: nat, n: nat)
    requires k <= n <= |Tables| && |parsed| == |Tables|
    requires CreateTables(year, parsed, start, k).error.Some?
    ensures CreateTables(year, parsed, start, n) == CreateTables(year, parsed, start, k)
    decreases n
  {
    if k < n {
      CreateTablesStops(year, parsed, start, k, n - 1);
    }
  }

  /** `create_columns`: one client context per table, in the order of `Tables`. */
  method CreateColumns(year: string, parsed: seq<seq<(string, ParsedLabel)>>, start: Catalogue) returns (run: Run)
    requires |parsed| == |Tables|
    ensures run == CreateTables(year, parsed, start, |Tables|)
  {
    run := Run(start, map[], [], None);
    var t := 0;
    while t < |Tables|
      invariant t <= |Tables|
      invariant run == CreateTables(year, parsed, start, t) && run.error.None?
    {
      var table := Tables[t].0;
      var planned, reached := PlanTable(year, table, parsed[t], TableState([], run.redundant, run.catalogue.columns));
      if planned.Failure? {
        run := run.(catalogue := run.catalogue.(columns := reached.columns), redundant := reached.redundant,
                    error := Some(planned.error));
        CreateTablesStops(year, parsed, start, t + 1, |Tables|);
        return;
      }
      var cs := ColumnSetFor(year, table, planned.value.cols);
      var sets := run.catalogue.sets;
      if cs.path !in sets {
        sets := sets[cs.path := cs];
      }
      run := Run(Catalogue(planned.value.columns, sets), planned.value.redundant, run.tables + [planned.value.cols], None);
      t := t + 1;
    }
  }

  /** The runs over fewer tables are the prefixes of a longer one that succeeds. */
  lemma {:induction false} CreateTablesPrefix(year: string, parsed: seq<seq<(string, ParsedLabel)>>, start: Catalogue, m: nat, n: nat)
    requires m <= n <= |Tables| && |parsed| == |Tables|
    requires CreateTables(year, parsed, start, n).error.None?
    ensures CreateTables(year, parsed, start, m).error.None?
    ensures CreateTables(year, parsed, start, n).tables[..m] == CreateTables(year, parsed, start, m).tables
    decreases n
  {
    if m < n {
      CreateTablesStep(year, parsed, start, n - 1);
      CreateTablesPrefix(year, parsed, start, m, n - 1);
      var prev := CreateTables(year, parsed, start, n - 1);
      var run := CreateTables(year, parsed, start, n);
      assert run.tables[..n - 1] == prev.tables;
      assert run.tables[..m] == prev.tables[..m];
    } else {
      assert CreateTables(year, parsed, start, n).tables[..m] == CreateTables(year, parsed, start, n).tables;
    }
  }

  /** The namespace's columns and the recorded totals are its columns, and every table lists only such columns. */
  predicate RunCoherent(run: Run) {
    KeyedByName(run.catalogue.columns)
    && (forall k :: k in run.redundant ==> Registered(run.catalogue.columns, run.redundant[k]))
    && (forall t, i :: 0 <= t < |run.tables| && 0 <= i < |run.tables[t]| ==> Registered(run.catalogue.columns, run.tables[t][i]))
  }

  /** One more table whose plan is coherent keeps the run coherent. */
  lemma AppendTableCoherent(prev: Run, planned: TableState, run: Run)
    requires RunCoherent(prev) && Coherent(planned) && Extends(planned.columns, prev.catalogue.columns)
    requires run.catalogue.columns == planned.columns && run.redundant == planned.redundant
    requires run.tables == prev.tables + [planned.cols]
    ensures RunCoherent(run) && Extends(run.catalogue.columns, prev.catalogue.columns)
  {
    forall t, i | 0 <= t < |run.tables| && 0 <= i < |run.tables[t]|
      ensures Registered(run.catalogue.columns, run.tables[t][i])
    {
      if t < |prev.tables| {
        assert run.tables[t] == prev.tables[t];
        assert Registered(prev.catalogue.columns, prev.tables[t][i]);
      }
    }
  }

  /**
   * A run, however far it gets, keeps every column the namespace had and
   * binds each name to one column: every column a table lists or a shared
   * total records is the namespace's column of that name.
   */
  lemma {:induction false} CreateTablesCoherent(year: string, parsed: seq<seq<(string, ParsedLabel)>>, start: Catalogue, n: nat)
    requires n <= |Tables| && |parsed| == |Tables|
    requires KeyedByName(start.columns)
    ensures var run := CreateTables(year, parsed, start, n);
      RunCoherent(run) && Extends(run.catalogue.columns, start.columns)
    decreases n
  {
    if n == 0 {
      assert CreateTables(year, parsed, start, 0) == Run(start, map[], [], None);
    } else {
      CreateTablesCoherent(year, parsed, start, n - 1);
      CoherentStep(year, parsed, start, n - 1);
    }
  }

  lemma CoherentStep(year: string, parsed: seq<seq<(string, ParsedLabel)>>, start: Catalogue, k: nat)
    requires k < |Tables| && |parsed| == |Tables|
    requires var prev := CreateTables(year, parsed, start, k);
      RunCoherent(prev) && Extends(prev.catalogue.columns, start.columns)
    ensures var run := CreateTables(year, parsed, start, k + 1);
      RunCoherent(run) && Extends(run.catalogue.columns, start.columns)
  {
    var prev := CreateTables(year, parsed, start, k);
    var run := CreateTables(year, parsed, start, k + 1);
    if run.error.None? {
      CreateTablesStep(year, parsed, start, k);
      var st := TableState([], prev.redundant, prev.catalogue.columns);
      var planned := PlanTableSpec(ColumnBuilder(year, Tables[k].0), parsed[k], st);
      assert Coherent(st);
      PlanTableCoherent(ColumnBuilder(year, Tables[k].0), parsed[k], st);
      AppendTableCoherent(prev, planned.value, run);
    } else {
      CreateTablesFailStep(year, parsed, start, k);
      if prev.error.None? {
        var st := TableState([], prev.redundant, prev.catalogue.columns);
        var build := ColumnBuilder(year, Tables[k].0);
        var i :| 0 <= i < |parsed[k]|
          && var p := PlanTableSpec(build, parsed[k][..i], st);
          p.Success? && p.value.columns == run.catalogue.columns && p.value.redundant == run.redundant;
        assert Coherent(st);
        PlanTableCoherent(build, parsed[k][..i], st);
        KeepTablesCoherent(prev, PlanTableSpec(build, parsed[k][..i], st).value, run);
      }
    }
  }

  /** A partial table whose plan is coherent keeps the run coherent. */
  lemma KeepTablesCoherent(prev: Run, planned: TableState, run: Run)
    requires RunCoherent(prev) && Coherent(planned) && Extends(planned.columns, prev.catalogue.columns)
    requires run.catalogue.columns == planned.columns && run.redundant == planned.redundant
    requires run.tables == prev.tables
    ensures RunCoherent(run) && Extends(run.catalogue.columns, prev.catalogue.columns)
  {
    forall t, i | 0 <= t < |run.tables| && 0 <= i < |run.tables[t]|
      ensures Registered(run.catalogue.columns, run.tables[t][i])
    {
      assert Registered(prev.catalogue.columns, prev.tables[t][i]);
    }
  }

  /**
   * A table that raises keeps, in the namespace and the recorded totals,
   * exactly what its variables before the raising one built, and adds no
   * column set and no column list; a table after a failure changes nothing.
   */
  lemma CreateTablesFailStep(year: string, parsed: seq<seq<(string, ParsedLabel)>>, start: Catalogue, k: nat)
    requires k < |Tables| && |parsed| == |Tables|
    requires CreateTables(year, parsed, start, k + 1).error.Some?
    ensures var prev := CreateTables(year, parsed, start, k);
      prev.error.Some? ==> CreateTables(year, parsed, start, k + 1) == prev
    ensures var prev := CreateTables(year, parsed, start, k);
      var run := CreateTables(year, parsed, start, k + 1);
      run.catalogue.sets == prev.catalogue.sets && run.tables == prev.tables
    ensures var prev := CreateTables(year, parsed, start, k);
      var run := CreateTables(year, parsed, start, k + 1);
      var st := TableState([], prev.redundant, prev.catalogue.columns);
      var build := ColumnBuilder(year, Tables[k].0);
      prev.error.None? ==> exists i :: (0 <= i < |parsed[k]|
        && (var p := PlanTableSpec(build, parsed[k][..i], st);
            p.Success? && p.value.columns == run.catalogue.columns && p.value.redundant == run.redundant)
        && PlanTableSpec(build, parsed[k][..i + 1], st).Failure?)
  {
    var prev := CreateTables(year, parsed, start, k);
    if prev.error.None? {
      PlanReachedStopsAtRaise(ColumnBuilder(year, Tables[k].0), parsed[k], TableState([], prev.redundant, prev.catalogue.columns));
    }
  }

  /** Each table's column set has a path of its own. */
  lemma TablePathsDiffer()
    ensures forall a, b :: 0 <= a < b < |Tables| ==> Lower(Tables[a].0) != Lower(Tables[b].0)
  {
    assert Lower("P1") == "p1" && Lower("P2") == "p2" && Lower("P3") == "p3" && Lower("P4") == "p4";
  }

  /** The column-set paths of the first `n` tables. */
  function TablePaths(n: nat): set<string>
    requires n <= |Tables|
  {
    set t | 0 <= t < n :: Lower(Tables[t].0)
  }

  /** Table `t`'s column set is in the namespace, holding the table's columns unless one existed before the run. */
  predicate TableSetCreated(run: Run, start: Catalogue, t: nat)
    requires t < |Tables| && t < |run.tables|
  {
    Lower(Tables[t].0) in run.catalogue.sets
    && (Lower(Tables[t].0) !in start.sets ==> run.catalogue.sets[Lower(Tables[t].0)].columns == run.tables[t])
  }

  /**
   * A run keeps every column set the namespace had, adds none but the
   * tables' own, and creates each table's column set (when none existed at
   * its path) holding exactly the table's columns.
   */
  lemma {:induction false} CreateTablesSets(year: string, parsed: seq<seq<(string, ParsedLabel)>>, start: Catalogue, n: nat)
    requires n <= |Tables| && |parsed| == |Tables|
    ensures SetsKept(CreateTables(year, parsed, start, n), start, n)
    ensures var run := CreateTables(year, parsed, start, n);
      run.error.None? ==> forall t :: 0 <= t < n ==> TableSetCreated(run, start, t)
    decreases n
  {
    if n == 0 {
      assert CreateTables(year, parsed, start, 0) == Run(start, map[], [], None);
    } else {
      CreateTablesSets(year, parsed, start, n - 1);
      SetsStep(year, parsed, start, n - 1);
    }
  }

  /** The run keeps the namespace's column sets and adds only those of its first `n` tables. */
  predicate SetsKept(run: Run, start: Catalogue, n: nat)
    requires n <= |Tables|
  {
    (forall p :: p in start.sets ==> p in run.catalogue.sets && run.catalogue.sets[p] == start.sets[p])
    && (forall p :: p in run.catalogue.sets ==> p in start.sets || p in TablePaths(n))
  }

  lemma SetsStep(year: string, parsed: seq<seq<(string, ParsedLabel)>>, start: Catalogue, k: nat)
    requires k < |Tables| && |parsed| == |Tables|
    requires SetsKept(CreateTables(year, parsed, start, k), start, k)
    requires var prev := CreateTables(year, parsed, start, k);
      prev.error.None? ==> forall t :: 0 <= t < k ==> TableSetCreated(prev, start, t)
    ensures SetsKept(CreateTables(year, parsed, start, k + 1), start, k + 1)
    ensures var run := CreateTables(year, parsed, start, k + 1);
      run.error.None? ==> forall t :: 0 <= t < k + 1 ==> TableSetCreated(run, start, t)
  {
    var prev := CreateTables(year, parsed, start, k);
    var run := CreateTables(year, parsed, start, k + 1);
    if run.error.None? {
      SetsStepOk(year, parsed, start, k);
    } else {
      CreateTablesFailStep(year, parsed, start, k);
      SetsKeptGrows(prev, run, start, k);
    }
  }

  lemma SetsKeptGrows(prev: Run, run: Run, start: Catalogue, k: nat)
    requires k < |Tables| && SetsKept(prev, start, k) && run.catalogue.sets == prev.catalogue.sets
    ensures SetsKept(run, start, k + 1)
  {
    NewTablePath(k);
  }

  lemma SetsStepOk(year: string, parsed: seq<seq<(string, ParsedLabel)>>, start: Catalogue, k: nat)
    requires k < |Tables| && |parsed| == |Tables|
    requires CreateTables(year, parsed, start, k + 1).error.None?
    requires SetsKept(CreateTables(year, parsed, start, k), start, k)
    requires var prev := CreateTables(year, parsed, start, k);
      forall t :: 0 <= t < k ==> TableSetCreated(prev, start, t)
    ensures SetsKept(CreateTables(year, parsed, start, k + 1), start, k + 1)
    ensures var run := CreateTables(year, parsed, start, k + 1);
      forall t :: 0 <= t < k + 1 ==> TableSetCreated(run, start, t)
  {
    var prev := CreateTables(year, parsed, start, k);
    var run := CreateTables(year, parsed, start, k + 1);
    NewTablePath(k);
    CreateTablesStep(year, parsed, start, k);
    var planned := PlanTableSpec(ColumnBuilder(year, Tables[k].0), parsed[k],
                                 TableState([], prev.redundant, prev.catalogue.columns));
    AddTableSet(prev, run, start, k, ColumnSetFor(year, Tables[k].0, planned.value.cols));
  }

  /** Table `k`'s path is new among the first `k + 1` tables. */
  lemma NewTablePath(k: nat)
    requires k < |Tables|
    ensures Lower(Tables[k].0) in TablePaths(k + 1) && Lower(Tables[k].0) !in TablePaths(k)
    ensures TablePaths(k) <= TablePaths(k + 1)
  {
    TablePathsDiffer();
  }

  lemma AddTableSet(prev: Run, run: Run, start: Catalogue, k: nat, cs: ColumnSetSpec)
    requires k < |Tables| && cs.path == Lower(Tables[k].0)
    requires cs.path in TablePaths(k + 1) && cs.path !in TablePaths(k) && TablePaths(k) <= TablePaths(k + 1)
    requires SetsKept(prev, start, k) && |prev.tables| == k && run.tables == prev.tables + [cs.columns]
    requires forall t :: 0 <= t < k ==> TableSetCreated(prev, start, t)
    requires run.catalogue.sets == AddColumnSet(prev.catalogue.sets, cs)
    ensures SetsKept(run, start, k + 1)
    ensures forall t :: 0 <= t < k + 1 ==> TableSetCreated(run, start, t)
  {
    forall t | 0 <= t < k + 1 ensures TableSetCreated(run, start, t) {
      if t < k {
        assert TableSetCreated(prev, start, t);
        assert run.tables[t] == prev.tables[t];
      }
    }
  }

  /**
   * The column of a canonical total is the one the next table lists for the
   * redundant total it absorbs, when that table does not hold the canonical
   * total itself: P2 reuses P1's total, P4 reuses P3's.
   */
  lemma SharedTotalReused(year: string, parsed: seq<seq<(string, ParsedLabel)>>, start: Catalogue, t: nat, i: nat, j: nat)
    requires |parsed| == |Tables| && 1 <= t < |Tables|
    requires CreateTables(year, parsed, start, |Tables|).error.None?
    requires DistinctKeys(parsed[t - 1]) && i < |parsed[t - 1]| && j < |parsed[t]|
    requires parsed[t - 1][i].0 in CanonicalToRedundant && parsed[t][j].0 == CanonicalToRedundant[parsed[t - 1][i].0]
    requires forall k :: 0 <= k < |parsed[t]| ==> parsed[t][k].0 != parsed[t - 1][i].0
    ensures var run := CreateTables(year, parsed, start, |Tables|);
      i < |run.tables[t - 1]| && j < |run.tables[t]| && run.tables[t][j] == run.tables[t - 1][i]
  {
    var run := CreateTables(year, parsed, start, |Tables|);
    CreateTablesPrefix(year, parsed, start, t + 1, |Tables|);
    CreateTablesPrefix(year, parsed, start, t, t + 1);
    var prev := CreateTables(year, parsed, start, t);
    var cur := CreateTables(year, parsed, start, t + 1);
    RecordedTotal(year, parsed, start, t, i);
    RedundantMapsAreInverse();
    ReusedTotal(year, parsed, start, t, j);
    assert run.tables[..t + 1][t] == run.tables[t];
    assert run.tables[..t + 1][t - 1] == run.tables[t - 1];
    assert cur.tables[..t][t - 1] == cur.tables[t - 1];
  }

  /** What one more table does to a run that has not failed. */
  lemma CreateTablesStep(year: string, parsed: seq<seq<(string, ParsedLabel)>>, start: Catalogue, k: nat)
    requires k < |Tables| && |parsed| == |Tables|
    requires CreateTables(year, parsed, start, k + 1).error.None?
    ensures var prev := CreateTables(year, parsed, start, k);
      var run := CreateTables(year, parsed, start, k + 1);
      var planned := PlanTableSpec(ColumnBuilder(year, Tables[k].0), parsed[k],
                                   TableState([], prev.redundant, prev.catalogue.columns));
      prev.error.None? && planned.Success?
      && run.redundant == planned.value.redundant && run.catalogue.columns == planned.value.columns
      && run.tables == prev.tables + [planned.value.cols]
      && run.catalogue.sets == AddColumnSet(prev.catalogue.sets, ColumnSetFor(year, Tables[k].0, planned.value.cols))
  {
  }

  /** Table `t - 1` records its canonical total as the column it lists. */
  lemma RecordedTotal(year: string, parsed: seq<seq<(string, ParsedLabel)>>, start: Catalogue, t: nat, i: nat)
    requires |parsed| == |Tables| && 1 <= t < |Tables|
    requires CreateTables(year, parsed, start, t).error.None?
    requires DistinctKeys(parsed[t - 1]) && i < |parsed[t - 1]| && parsed[t - 1][i].0 in CanonicalToRedundant
    ensures var prev := CreateTables(year, parsed, start, t);
      var key := CanonicalToRedundant[parsed[t - 1][i].0];
      key in prev.redundant && i < |prev.tables[t - 1]| && prev.redundant[key] == prev.tables[t - 1][i]
  {
    CreateTablesStep(year, parsed, start, t - 1);
    var pp := CreateTables(year, parsed, start, t - 1);
    var st := TableState([], pp.redundant, pp.catalogue.columns);
    PlanTableRecordsCanonical(ColumnBuilder(year, Tables[t - 1].0), parsed[t - 1], st, i);
  }

  /** Table `t` lists, for a redundant total it does not hold canonically, the recorded column. */
  lemma ReusedTotal(year: string, parsed: seq<seq<(string, ParsedLabel)>>, start: Catalogue, t: nat, j: nat)
    requires |parsed| == |Tables| && t < |Tables|
    requires CreateTables(year, parsed, start, t + 1).error.None?
    requires j < |parsed[t]| && parsed[t][j].0 in RedundantToCanonical
    requires forall k :: 0 <= k < |parsed[t]| ==> parsed[t][k].0 != RedundantToCanonical[parsed[t][j].0]
    ensures var prev := CreateTables(year, parsed, start, t);
      var cur := CreateTables(year, parsed, start, t + 1);
      parsed[t][j].0 in prev.redundant && t < |cur.tables| && j < |cur.tables[t]|
      && cur.tables[t][j] == prev.redundant[parsed[t][j].0]
  {
    CreateTablesStep(year, parsed, start, t);
    var prev := CreateTables(year, parsed, start, t);
    var st := TableState([], prev.redundant, prev.catalogue.columns);
    PlanTableReusesTotal(ColumnBuilder(year, Tables[t].0), parsed[t], st, j);
  }

  /** P2's and P4's overall totals are P1's and P3's columns. */
  lemma TotalsShareColumns()
    ensures CanonicalToRedundant["P1_001N"] == "P2_001N" && CanonicalToRedundant["P3_001N"] == "P4_001N"
    ensures CanonicalToRedundant["P001001"] == "P002001" && CanonicalToRedundant["P003001"] == "P004001"
    ensures Tables[0].0 == "P1" && Tables[1].0 == "P2" && Tables[2].0 == "P3" && Tables[3].0 == "P4"
  {
    RedundantMapsAreInverse();
  }
}
