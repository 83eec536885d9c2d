/** The SQL text `Execute` builds before it touches the connection: the
    join condition over the id columns, the temp-table name and the
    `DELETE ... JOIN` statement. */
module DeleteSql {
  import opened Wrappers
  import opened Text
  import opened Builder

  /** The exceptions statement building can raise. */
  datatype BuildError =
    | IdColumnsNotSet             // `_idColumns` is null, so `Select` throws
    | UnknownColumn(name: string) // the data table has no such column, so `.DataType` throws

  /** What `string.Join` puts between two clauses. */
  const Separator: string := " AND "

  /** The collation override on one side of a clause: present exactly for
      string-typed columns. `collation` is `Constants.Collation`. */
  function CollationSuffix(isString: bool, collation: string): (r: string)
    ensures isString <==> r != ""
    ensures isString ==> r == " COLLATE " + collation
  {
    if isString then " COLLATE " + collation else ""
  }

  /** One equality of the join condition: target column of alias `a`
      against staged column of alias `b`, each followed by `suffix`. */
  function Clause(target: string, staged: string, suffix: string): string
  {
    "a.[" + target + "]" + StagedSide(staged, suffix)
  }

  /** Everything of a clause after the target name's closing `]`. */
  function StagedSide(staged: string, suffix: string): string
  {
    suffix + " = b.[" + staged + "]" + suffix
  }

  /** The three pieces a clause is made of. */
  datatype ClauseParts = ClauseParts(target: string, staged: string, suffix: string)

  /** Reads back the staged side: the suffix is what follows the last `]`,
      and the same suffix must open the text. */
  function ParseStagedSide(s: string): (r: Option<(string, string)>)
    ensures r.Some? ==> s == StagedSide(r.value.0, r.value.1)
  {
    match LastIndexOf(s, ']')
    case None => None
    case Some(j) =>
      var suffix := s[j + 1..];
      var mid := s[..j];
      var lead := suffix + " = b.[";
      if |mid| < |lead| || mid[..|lead|] != lead then None
      else
        var staged := mid[|lead|..];
        SplitAround(s, j);
        SplitAt(mid, |lead|);
        Some((staged, suffix))
  }

  /** Reads a clause back: the target name runs to the first `]`, and the
      rest must read back as a staged side. */
  function ParseClause(s: string): (r: Option<ClauseParts>)
    ensures r.Some? ==> s == Clause(r.value.target, r.value.staged, r.value.suffix)
  {
    if |s| < 3 || s[..3] != "a.[" then None
    else
      var rest := s[3..];
      match FirstIndexOf(rest, ']')
      case None => None
      case Some(i) =>
        match ParseStagedSide(rest[i + 1..])
        case None => None
        case Some(p) =>
          SplitAt(s, 3);
          SplitAround(rest, i);
          ClauseFromPieces(rest[..i], p.0, p.1, rest);
          Some(ClauseParts(rest[..i], p.0, p.1))
  }

  lemma ClauseFromPieces(target: string, staged: string, suffix: string, rest: string)
    requires rest == target + "]" + StagedSide(staged, suffix)
    ensures "a.[" + rest == Clause(target, staged, suffix)
  {
  }

  lemma SplitAt(s: string, i: nat)
    requires i <= |s|
    ensures s == s[..i] + s[i..]
  {
  }

  lemma SplitAround(s: string, i: nat)
    requires i < |s| && s[i] == ']'
    ensures s == s[..i] + "]" + s[i + 1..]
  {
  }

  lemma SplitConcat(a: string, b: string)
    ensures (a + b)[..|a|] == a && (a + b)[|a|..] == b
  {
  }

  /** A staged side whose suffix holds no `]` reads back as the staged name
      and the suffix; the staged name may hold anything. */
  lemma ParseStagedSideRoundTrip(staged: string, suffix: string)
    requires ']' !in suffix
    ensures ParseStagedSide(StagedSide(staged, suffix)) == Some((staged, suffix))
  {
    var lead := suffix + " = b.[";
    var mid := lead + staged;
    var s := StagedSide(staged, suffix);
    assert LastIndexOf(s, ']') == Some(|mid|) && s[|mid| + 1..] == suffix && s[..|mid|] == mid by {
      assert s == mid + ("]" + suffix);
      SplitConcat(mid, "]" + suffix);
      LastIndexOfIs(s, ']', |mid|);
    }
    assert mid[..|lead|] == lead && mid[|lead|..] == staged by {
      SplitConcat(lead, staged);
    }
  }

  /** A clause whose target name and suffix hold no `]` reads back as the
      pieces it was made of. */
  lemma ParseClauseRoundTrip(target: string, staged: string, suffix: string)
    requires ']' !in target && ']' !in suffix
    ensures ParseClause(Clause(target, staged, suffix)) == Some(ClauseParts(target, staged, suffix))
  {
    var tail := StagedSide(staged, suffix);
    var rest := target + "]" + tail;
    var s := Clause(target, staged, suffix);
    assert s[..3] == "a.[" && s[3..] == rest by {
      assert s == "a.[" + rest;
      SplitConcat("a.[", rest);
    }
    assert FirstIndexOf(rest, ']') == Some(|target|) && rest[..|target|] == target && rest[|target| + 1..] == tail by {
      assert rest == target + ("]" + tail);
      SplitConcat(target, "]" + tail);
      FirstIndexOfIs(rest, ']', |target|);
    }
    ParseStagedSideRoundTrip(staged, suffix);
  }

  /** The clause for one id column, as the lambda in `Execute` builds it:
      mapped name on the target side, property name on the staged side.
      `columnTypes` answers, for each column of the staged data table,
      whether its data type is `string`. */
  function ColumnClause<T, O>(b: BuilderState<T, O>, columnTypes: map<string, bool>, collation: string, column: string)
    : string
    requires column in columnTypes
  {
    var suffix := CollationSuffix(columnTypes[column], collation);
    Clause(DbColumnName(b, column), column, suffix)
  }

  /** The target side names the mapped column and the staged side the
      property; both carry the same suffix, which is the collation
      override exactly when the column is string-typed. */
  lemma ColumnClauseParts<T, O>(b: BuilderState<T, O>, columnTypes: map<string, bool>, collation: string, column: string)
    requires column in columnTypes
    requires ']' !in DbColumnName(b, column) && ']' !in collation
    ensures var p := ParseClause(ColumnClause(b, columnTypes, collation, column));
            && p.Some?
            && p.value.target == DbColumnName(b, column)
            && p.value.staged == column
            && (columnTypes[column] <==> p.value.suffix != "")
            && (columnTypes[column] ==> p.value.suffix == " COLLATE " + collation)
  {
    var suffix := CollationSuffix(columnTypes[column], collation);
    assert ']' !in " COLLATE ";
    assert columnTypes[column] ==> suffix == " COLLATE " + collation;
    assert ']' !in suffix;
    ParseClauseRoundTrip(DbColumnName(b, column), column, suffix);
  }

  /** Every id column is a column of the staged data table. */
  predicate AllKnown(columns: seq<string>, columnTypes: map<string, bool>)
  {
    forall c :: c in columns ==> c in columnTypes
  }

  /** Position of the first id column the data table lacks. */
  function FirstUnknown(columns: seq<string>, columnTypes: map<string, bool>): (i: nat)
    requires !AllKnown(columns, columnTypes)
    ensures i < |columns| && columns[i] !in columnTypes
    ensures AllKnown(columns[..i], columnTypes)
  {
    if columns[0] !in columnTypes then
      assert columns[..0] == [];
      0
    else
      assert !AllKnown(columns[1..], columnTypes) by {
        var c :| c in columns && c !in columnTypes;
        assert c != columns[0];
        assert columns == [columns[0]] + columns[1..];
      }
      var i := FirstUnknown(columns[1..], columnTypes);
      assert columns[..i + 1] == [columns[0]] + columns[1..][..i];
      i + 1
  }

  /** The clauses `_idColumns.Select(...)` yields, in id-column order, or
      the exception raised by the first id column the data table lacks. */
  function ClauseList<T, O>(b: BuilderState<T, O>, columnTypes: map<string, bool>, collation: string, columns: seq<string>)
    : (r: Result<seq<string>, BuildError>)
    ensures r.Success? <==> AllKnown(columns, columnTypes)
    ensures r.Success? ==> |r.value| == |columns|
    ensures r.Success? ==> forall i :: 0 <= i < |columns| ==>
              columns[i] in columnTypes && r.value[i] == ColumnClause(b, columnTypes, collation, columns[i])
    ensures r.Failure? ==> r.error == UnknownColumn(columns[FirstUnknown(columns, columnTypes)])
    decreases |columns|
  {
    if |columns| == 0 then Success([])
    else if columns[0] !in columnTypes then Failure(UnknownColumn(columns[0]))
    else
      assert columns == [columns[0]] + columns[1..];
      match ClauseList(b, columnTypes, collation, columns[1..])
      case Failure(e) => Failure(e)
      case Success(rest) => Success([ColumnClause(b, columnTypes, collation, columns[0])] + rest)
  }

  /** The join condition: the clauses joined with `" AND "`. */
  function JoinCondition<T, O>(b: BuilderState<T, O>, columnTypes: map<string, bool>, collation: string)
    : (r: Result<string, BuildError>)
    ensures r.Success? <==> b.idColumns.Some? && AllKnown(b.idColumns.value, columnTypes)
    ensures b.idColumns.None? ==> r == Failure(IdColumnsNotSet)
    ensures b.idColumns.Some? && !AllKnown(b.idColumns.value, columnTypes)
            ==> r == Failure(UnknownColumn(b.idColumns.value[FirstUnknown(b.idColumns.value, columnTypes)]))
  {
    match b.idColumns
    case None => Failure(IdColumnsNotSet)
    case Some(ids) =>
      match ClauseList(b, columnTypes, collation, ids)
      case Failure(e) => Failure(e)
      case Success(clauses) => Success(Join(Separator, clauses))
  }

  /** `[#<guid>]`, the name of the staging table. */
  function TempTableName(guid: string): (r: string)
    ensures |r| == |guid| + 3
    ensures r[..2] == "[#" && r[2..|r| - 1] == guid && r[|r| - 1] == ']'
  {
    "[#" + guid + "]"
  }

  /** The GUID text a staging-table name was built from. */
  function GuidOf(tempName: string): Option<string>
  {
    if |tempName| >= 3 && tempName[..2] == "[#" && tempName[|tempName| - 1] == ']'
    then Some(tempName[2..|tempName| - 1])
    else None
  }

  lemma TempTableNameRoundTrip(guid: string)
    ensures GuidOf(TempTableName(guid)) == Some(guid)
  {
  }

  /** Everything of the statement before the join condition. */
  function StatementHead(tableName: string, tempName: string): string
  {
    "DELETE a FROM " + tableName + " a JOIN " + tempName + " b ON "
  }

  /** The text C# interpolation gives for the table name: a null
      `_tableName` interpolates as the empty string. */
  function TableText<T, O>(b: BuilderState<T, O>): (r: string)
    ensures b.tableName.None? ==> r == ""
    ensures b.tableName.Some? ==> r == b.tableName.value
  {
    b.tableName.GetOr("")
  }

  /** The statement `Execute` runs after staging the ids, or the exception
      it raises while building it. `guid` is the text of the fresh GUID. */
  function RenderDelete<T, O>(b: BuilderState<T, O>, guid: string, columnTypes: map<string, bool>, collation: string)
    : (r: Result<string, BuildError>)
    ensures r.Success? <==> b.idColumns.Some? && AllKnown(b.idColumns.value, columnTypes)
    ensures r.Failure? ==> r == JoinCondition(b, columnTypes, collation)
    ensures r.Success? ==> OccursAt(r.value, 0, StatementHead(TableText(b), TempTableName(guid)))
  {
    match JoinCondition(b, columnTypes, collation)
    case Failure(e) => Failure(e)
    case Success(condition) =>
      var head := StatementHead(TableText(b), TempTableName(guid));
      SplitConcat(head, condition);
      Success(head + condition)
  }

  /** The id columns can all be rendered. */
  predicate Renderable<T, O>(b: BuilderState<T, O>, columnTypes: map<string, bool>)
  {
    b.idColumns.Some? && AllKnown(b.idColumns.value, columnTypes)
  }

  /** Where the clause for id column `i` starts in the rendered statement. */
  ghost function ClauseStart<T, O>(b: BuilderState<T, O>, guid: string, columnTypes: map<string, bool>, collation: string, i: nat)
    : nat
    requires Renderable(b, columnTypes) && i <= |b.idColumns.value|
  {
    |StatementHead(TableText(b), TempTableName(guid))|
      + Offset(Separator, ClauseList(b, columnTypes, collation, b.idColumns.value).value, i)
  }

  /** Where the clause for id column `i` ends in the rendered statement. */
  ghost function ClauseEnd<T, O>(b: BuilderState<T, O>, guid: string, columnTypes: map<string, bool>, collation: string, i: nat)
    : nat
    requires Renderable(b, columnTypes) && i < |b.idColumns.value|
  {
    ClauseStart(b, guid, columnTypes, collation, i) + |ColumnClause(b, columnTypes, collation, b.idColumns.value[i])|
  }

  /** The rendered statement is the head followed by the joined clauses. */
  lemma RenderedIsHeadAndCondition<T, O>(b: BuilderState<T, O>, guid: string, columnTypes: map<string, bool>, collation: string)
    requires Renderable(b, columnTypes)
    ensures RenderDelete(b, guid, columnTypes, collation).Success?
    ensures RenderDelete(b, guid, columnTypes, collation).value
            == StatementHead(TableText(b), TempTableName(guid))
               + Join(Separator, ClauseList(b, columnTypes, collation, b.idColumns.value).value)
  {
  }

  /** The statement is as long as its head, its clauses and one `" AND "`
      fewer than there are id columns. */
  lemma StatementLength<T, O>(b: BuilderState<T, O>, guid: string, columnTypes: map<string, bool>, collation: string)
    requires Renderable(b, columnTypes) && |b.idColumns.value| > 0
    ensures RenderDelete(b, guid, columnTypes, collation).Success?
    ensures |RenderDelete(b, guid, columnTypes, collation).value|
            == |StatementHead(TableText(b), TempTableName(guid))|
               + TotalLength(ClauseList(b, columnTypes, collation, b.idColumns.value).value)
               + (|b.idColumns.value| - 1) * |Separator|
  {
    RenderedIsHeadAndCondition(b, guid, columnTypes, collation);
    JoinLength(Separator, ClauseList(b, columnTypes, collation, b.idColumns.value).value);
  }

  /** The join condition follows the head in the rendered statement. */
  lemma ConditionFollowsHead<T, O>(b: BuilderState<T, O>, guid: string, columnTypes: map<string, bool>, collation: string)
    requires Renderable(b, columnTypes)
    ensures RenderDelete(b, guid, columnTypes, collation).Success?
    ensures var stmt := RenderDelete(b, guid, columnTypes, collation).value;
            var h := |StatementHead(TableText(b), TempTableName(guid))|;
            && h <= |stmt|
            && stmt[h..] == Join(Separator, ClauseList(b, columnTypes, collation, b.idColumns.value).value)
  {
    RenderedIsHeadAndCondition(b, guid, columnTypes, collation);
    SplitConcat(StatementHead(TableText(b), TempTableName(guid)),
                Join(Separator, ClauseList(b, columnTypes, collation, b.idColumns.value).value));
  }

  lemma ClauseStartIs<T, O>(b: BuilderState<T, O>, guid: string, columnTypes: map<string, bool>, collation: string, i: nat)
    requires Renderable(b, columnTypes) && i <= |b.idColumns.value|
    ensures ClauseStart(b, guid, columnTypes, collation, i)
            == |StatementHead(TableText(b), TempTableName(guid))|
               + Offset(Separator, ClauseList(b, columnTypes, collation, b.idColumns.value).value, i)
  {
  }

  lemma ClauseOfColumn<T, O>(b: BuilderState<T, O>, columnTypes: map<string, bool>, collation: string, i: nat)
    requires Renderable(b, columnTypes) && i < |b.idColumns.value|
    ensures ClauseList(b, columnTypes, collation, b.idColumns.value).Success?
    ensures |ClauseList(b, columnTypes, collation, b.idColumns.value).value| == |b.idColumns.value|
    ensures ClauseList(b, columnTypes, collation, b.idColumns.value).value[i]
            == ColumnClause(b, columnTypes, collation, b.idColumns.value[i])
  {
  }

  /** Clause `i` of the statement is the clause of id column `i`, and the
      clause of the last id column ends the statement. */
  lemma ClauseInStatement<T, O>(b: BuilderState<T, O>, guid: string, columnTypes: map<string, bool>, collation: string, i: nat)
    requires Renderable(b, columnTypes) && i < |b.idColumns.value|
    ensures RenderDelete(b, guid, columnTypes, collation).Success?
    ensures var stmt := RenderDelete(b, guid, columnTypes, collation).value;
            var clause := ColumnClause(b, columnTypes, collation, b.idColumns.value[i]);
            var start := ClauseStart(b, guid, columnTypes, collation, i);
            && OccursAt(stmt, start, clause)
            && (i + 1 == |b.idColumns.value| ==> start + |clause| == |stmt|)
  {
    ConditionFollowsHead(b, guid, columnTypes, collation);
    ClauseStartIs(b, guid, columnTypes, collation, i);
    ClauseOfColumn(b, columnTypes, collation, i);
    PartAfterAt(RenderDelete(b, guid, columnTypes, collation).value,
              |StatementHead(TableText(b), TempTableName(guid))|,
              Separator,
              ClauseList(b, columnTypes, collation, b.idColumns.value).value,
              i,
              ColumnClause(b, columnTypes, collation, b.idColumns.value[i]),
              ClauseStart(b, guid, columnTypes, collation, i));
  }

  /** Each id column's clause can be read back out of the statement at its
      place: the mapped name, the property name and, for a string-typed
      column, the collation override. */
  lemma StatementClauseParts<T, O>(b: BuilderState<T, O>, guid: string, columnTypes: map<string, bool>, collation: string, i: nat)
    requires Renderable(b, columnTypes) && i < |b.idColumns.value|
    requires ']' !in DbColumnName(b, b.idColumns.value[i]) && ']' !in collation
    ensures RenderDelete(b, guid, columnTypes, collation).Success?
    ensures ClauseStart(b, guid, columnTypes, collation, i) <= ClauseEnd(b, guid, columnTypes, collation, i)
              <= |RenderDelete(b, guid, columnTypes, collation).value|
    ensures var column := b.idColumns.value[i];
            var p := ParseClause(RenderDelete(b, guid, columnTypes, collation).value
                                   [ClauseStart(b, guid, columnTypes, collation, i)..ClauseEnd(b, guid, columnTypes, collation, i)]);
            && p.Some?
            && p.value.target == DbColumnName(b, column)
            && p.value.staged == column
            && (columnTypes[column] <==> p.value.suffix != "")
            && (columnTypes[column] ==> p.value.suffix == " COLLATE " + collation)
  {
    ClauseInStatement(b, guid, columnTypes, collation, i);
    ColumnClauseParts(b, columnTypes, collation, b.idColumns.value[i]);
    OccursBetween(RenderDelete(b, guid, columnTypes, collation).value,
                  ClauseStart(b, guid, columnTypes, collation, i),
                  ClauseEnd(b, guid, columnTypes, collation, i),
                  ColumnClause(b, columnTypes, collation, b.idColumns.value[i]));
  }

  /** Exactly one `" AND "` stands between the clauses of consecutive id
      columns. So the clauses appear once each, in id-column order, with one
      separator fewer than there are id columns. */
  lemma SeparatorInStatement<T, O>(b: BuilderState<T, O>, guid: string, columnTypes: map<string, bool>, collation: string, i: nat)
    requires Renderable(b, columnTypes) && i + 1 < |b.idColumns.value|
    ensures RenderDelete(b, guid, columnTypes, collation).Success?
    ensures ClauseStart(b, guid, columnTypes, collation, i + 1) == ClauseEnd(b, guid, columnTypes, collation, i) + |Separator|
    ensures OccursAt(RenderDelete(b, guid, columnTypes, collation).value, ClauseEnd(b, guid, columnTypes, collation, i), Separator)
  {
    ConditionFollowsHead(b, guid, columnTypes, collation);
    ClauseStartIs(b, guid, columnTypes, collation, i);
    ClauseStartIs(b, guid, columnTypes, collation, i + 1);
    ClauseOfColumn(b, columnTypes, collation, i);
    SeparatorAfterAt(RenderDelete(b, guid, columnTypes, collation).value,
                   |StatementHead(TableText(b), TempTableName(guid))|,
                   Separator,
                   ClauseList(b, columnTypes, collation, b.idColumns.value).value,
                   i,
                   ClauseEnd(b, guid, columnTypes, collation, i),
                   ClauseStart(b, guid, columnTypes, collation, i + 1));
  }

  /** A builder whose setter chain never calls a `WithId` overload still
      has null id columns, so `Execute` throws before any statement exists,
      whatever else was configured. */
  lemma NoWithIdCannotRender<T, O>(calls: seq<Setter<T, O>>, guid: string, columnTypes: map<string, bool>, collation: string)
    requires Untouched(calls, IdColumns)
    ensures RenderDelete(ApplyAll(Unconfigured(), calls), guid, columnTypes, collation) == Failure(IdColumnsNotSet)
  {
  }

  /** With no id columns the condition is empty and the statement ends
      right after `ON `. */
  lemma NoIdColumnsLeaveConditionEmpty<T, O>(b: BuilderState<T, O>, guid: string, columnTypes: map<string, bool>, collation: string)
    requires b.idColumns == Some([])
    ensures RenderDelete(b, guid, columnTypes, collation)
            == Success(StatementHead(TableText(b), TempTableName(guid)))
  {
    assert StatementHead(TableText(b), TempTableName(guid)) + "" == StatementHead(TableText(b), TempTableName(guid));
  }

  /** Clause lists agree when the mapped names of the listed columns agree:
      mapping entries for other columns play no part. */
  lemma {:induction false} ClauseListDependsOnlyOnListedNames<T, O>(
    b1: BuilderState<T, O>, b2: BuilderState<T, O>, columnTypes: map<string, bool>, collation: string, columns: seq<string>)
    requires forall c :: c in columns ==> DbColumnName(b1, c) == DbColumnName(b2, c)
    ensures ClauseList(b1, columnTypes, collation, columns) == ClauseList(b2, columnTypes, collation, columns)
    decreases |columns|
  {
    if |columns| > 0 && columns[0] in columnTypes {
      assert forall c :: c in columns[1..] ==> c in columns;
      ClauseListDependsOnlyOnListedNames(b1, b2, columnTypes, collation, columns[1..]);
    }
  }

  /** For given data-table column types, the statement depends on the
      table name, the id columns and the mapped names of the id columns, and
      on nothing else the builder holds (not the options, the data beyond
      those column types, or mapping entries for other columns). */
  lemma RenderDependsOnlyOnTableIdsAndMappedNames<T, O>(
    b1: BuilderState<T, O>, b2: BuilderState<T, O>, guid: string, columnTypes: map<string, bool>, collation: string)
    requires b1.tableName == b2.tableName && b1.idColumns == b2.idColumns
    requires b1.idColumns.Some? ==> forall c :: c in b1.idColumns.value ==> DbColumnName(b1, c) == DbColumnName(b2, c)
    ensures RenderDelete(b1, guid, columnTypes, collation) == RenderDelete(b2, guid, columnTypes, collation)
  {
    if b1.idColumns.Some? {
      ClauseListDependsOnlyOnListedNames(b1, b2, columnTypes, collation, b1.idColumns.value);
    }
  }

  /** A null mapping and an empty mapping render the same statement. */
  lemma EmptyMappingRendersAsNoMapping<T, O>(b: BuilderState<T, O>, guid: string, columnTypes: map<string, bool>, collation: string)
    ensures RenderDelete(WithDbColumnMappings(b, Some(map[])), guid, columnTypes, collation)
            == RenderDelete(WithDbColumnMappings(b, None), guid, columnTypes, collation)
  {
    RenderDependsOnlyOnTableIdsAndMappedNames(
      WithDbColumnMappings(b, Some(map[])), WithDbColumnMappings(b, None), guid, columnTypes, collation);
  }
}
