/** Shared helpers of the gerrydb ETL package: `pathify` and the tabular import configuration. */
module EtlCommon {
  import opened Strings
  import opened Schema

  /** `COLUMN_TYPE_TO_PY_TYPE`: JSON has no fixed Python type and is left out. */
  const ColumnTypeToPyType: map<ColumnType, PyType> :=
    map[BoolType := PyBoolType, FloatType := PyFloatType, IntType := PyIntType, StrType := PyStrType]

  lemma ColumnTypeToPyTypeDomain(t: ColumnType)
    ensures t in ColumnTypeToPyType <==> t != JsonType
  {
  }

  /** `pathify`: a pretty name turned into a root-level path. */
  function Pathify(name: string): string
  {
    ReplaceAll(ReplaceAll(Lower(Strip(name)), " ", "-"), ".", "")
  }

  /** Spaces become dashes, so a path never holds a space. */
  lemma PathifyHasNoSpace(name: string)
    ensures ' ' !in Pathify(name)
  {
    var dashed := ReplaceAll(Lower(Strip(name)), " ", "-");
    ReplaceRemovesChar(Lower(Strip(name)), ' ', "-");
    ReplaceKeepsAbsent(dashed, ".", "", ' ');
  }

  /** Dots are dropped, so a path never holds a dot. */
  lemma PathifyHasNoDot(name: string)
    ensures '.' !in Pathify(name)
  {
    ReplaceRemovesChar(ReplaceAll(Lower(Strip(name)), " ", "-"), '.', "");
  }

  /** A path is never longer than the name it came from. */
  lemma PathifyNoLonger(name: string)
    ensures |Pathify(name)| <= |name|
  {
    var dashed := ReplaceAll(Lower(Strip(name)), " ", "-");
    ReplaceLength(Lower(Strip(name)), " ", "-");
    ReplaceLength(dashed, ".", "");
  }

  /** One whitespace character before or after the name changes nothing. */
  lemma PathifyIgnoresOuterSpace(s: string, c: char)
    requires IsSpace(c)
    ensures Pathify([c] + s) == Pathify(s)
    ensures Pathify(s + [c]) == Pathify(s)
  {
    StripLeadingSpace(s, c);
    StripTrailingSpace(s, c);
  }

  predicate AllSpace(w: string) {
    forall i :: 0 <= i < |w| ==> IsSpace(w[i])
  }

  /**
   * Surrounding whitespace of any length is stripped before spaces turn into
   * dashes, so padding never shows up in a path.
   */
  lemma PathifyIgnoresPadding(before: string, s: string, after: string)
    requires AllSpace(before) && AllSpace(after)
    ensures Pathify(before + s + after) == Pathify(s)
  {
    StripIgnoresPadding(before, s, after);
  }

  lemma StripIgnoresPadding(before: string, s: string, after: string)
    requires AllSpace(before) && AllSpace(after)
    ensures Strip(before + s + after) == Strip(s)
  {
    assert before + s + after == before + (s + after);
    StripIgnoresLeading(before, s + after);
    StripIgnoresTrailing(s, after);
  }

  lemma StripIgnoresLeading(before: string, t: string)
    requires AllSpace(before)
    ensures Strip(before + t) == Strip(t)
  {
    LStripAllSpace(before);
    LStripAppend(before, t);
  }

  /** Nothing survives `lstrip()` of whitespace alone. */
  lemma {:induction false} LStripAllSpace(w: string)
    requires AllSpace(w)
    ensures LStrip(w) == []
    decreases |w|
  {
    if |w| > 0 {
      assert AllSpace(w[1..]) by {
        assert forall i :: 0 <= i < |w| - 1 ==> w[1..][i] == w[i + 1];
      }
      LStripAllSpace(w[1..]);
    }
  }

  lemma {:induction false} StripIgnoresTrailing(t: string, after: string)
    requires AllSpace(after)
    ensures Strip(t + after) == Strip(t)
    decreases |after|
  {
    if |after| > 0 {
      var n := |after| - 1;
      assert t + after == (t + after[..n]) + [after[n]];
      StripTrailingSpace(t + after[..n], after[n]);
      StripIgnoresTrailing(t, after[..n]);
    } else {
      assert t + after == t;
    }
  }

  /** `ColumnConfig`: how one source column is imported. */
  datatype ColumnConfig = ColumnConfig(
    source: string,
    target: string,
    aliases: seq<string>,
    kind: string,
    ctype: ColumnType,
    description: string)

  /** A `ColumnConfig` built without `aliases` gets an empty alias list. */
  function NewColumnConfig(source: string, target: string, kind: string, ctype: ColumnType, description: string): (c: ColumnConfig)
    ensures c.aliases == []
    ensures c.source == source && c.target == target && c.kind == kind
    ensures c.ctype == ctype && c.description == description
  {
    ColumnConfig(source, target, [], kind, ctype, description)
  }

  /**
   * `TabularConfig.source_dtypes`: source column name to Python type, for the
   * columns whose type has one. Later columns overwrite earlier ones with the
   * same source, as in the dict comprehension.
   */
  function SourceDtypes(columns: seq<ColumnConfig>): (r: map<string, PyType>)
    ensures forall s :: s in r <==>
      exists i :: 0 <= i < |columns| && columns[i].source == s && columns[i].ctype in ColumnTypeToPyType
    decreases |columns|
  {
    if |columns| == 0 then map[]
    else
      var last := columns[|columns| - 1];
      var m := SourceDtypes(columns[..|columns| - 1]);
      if last.ctype in ColumnTypeToPyType then m[last.source := ColumnTypeToPyType[last.ctype]] else m
  }

  /** A source's type is that of the last column with that source and a Python type. */
  lemma {:induction false} SourceDtypesLastWins(columns: seq<ColumnConfig>, i: nat)
    requires i < |columns| && columns[i].ctype in ColumnTypeToPyType
    requires forall j :: i < j < |columns| && columns[j].source == columns[i].source ==>
      columns[j].ctype !in ColumnTypeToPyType
    ensures columns[i].source in SourceDtypes(columns)
    ensures SourceDtypes(columns)[columns[i].source] == ColumnTypeToPyType[columns[i].ctype]
    decreases |columns|
  {
    var n := |columns|;
    var prefix := columns[..n - 1];
    var last := columns[n - 1];
    var m := SourceDtypes(prefix);
    assert SourceDtypes(columns) == if last.ctype in ColumnTypeToPyType
      then m[last.source := ColumnTypeToPyType[last.ctype]] else m;
    if i < n - 1 {
      assert prefix[i] == columns[i];
      assert forall j :: i < j < |prefix| ==> prefix[j] == columns[j];
      SourceDtypesLastWins(prefix, i);
      if last.source == columns[i].source {
        assert last.ctype !in ColumnTypeToPyType;
      }
    }
  }

  /** A source whose columns are all JSON gets no type. */
  lemma SourceDtypesOmitsJson(columns: seq<ColumnConfig>, s: string)
    requires forall i :: 0 <= i < |columns| && columns[i].source == s ==> columns[i].ctype == JsonType
    ensures s !in SourceDtypes(columns)
  {
    assert JsonType !in ColumnTypeToPyType;
  }
}
