/** The configuration half of `BulkDeleteBuilder<T>`: the fields its fluent
    setters fill in and the column-name lookup that reads them. The setters
    mutate the builder and return it; here each one returns the updated
    state, which is the same thing for a caller that chains them. The
    arguments are stored as values, not as references the caller can still
    change. */
module Builder {
  import opened Wrappers

  /** The five configurable fields. Each is `None` until set, as the C#
      fields are null after construction, and a setter given null stores
      `None`. `T` is the row type; `O` is the options type
      (`BulkDeleteOptions`, whose members are not part of this model). */
  datatype BuilderState<T, O> = BuilderState(
    data: Option<seq<T>>,
    tableName: Option<string>,
    idColumns: Option<seq<string>>,
    dbColumnMappings: Option<map<string, string>>,
    options: Option<O>)

  /** Names of the fields, so that "every other field is unchanged" can be said once. */
  datatype Field = Data | TableName | IdColumns | DbColumnMappings | Options

  /** `b` and `r` hold the same value in field `f`. */
  ghost predicate Agree<T, O>(b: BuilderState<T, O>, r: BuilderState<T, O>, f: Field)
  {
    match f
    case Data => b.data == r.data
    case TableName => b.tableName == r.tableName
    case IdColumns => b.idColumns == r.idColumns
    case DbColumnMappings => b.dbColumnMappings == r.dbColumnMappings
    case Options => b.options == r.options
  }

  /** `r` differs from `b` at most in field `f`. */
  ghost predicate OnlyChanged<T, O>(b: BuilderState<T, O>, r: BuilderState<T, O>, f: Field)
  {
    forall g: Field :: g != f ==> Agree(b, r, g)
  }

  /** A freshly constructed builder: every field is null. */
  function Unconfigured<T, O>(): BuilderState<T, O>
  {
    BuilderState(None, None, None, None, None)
  }

  /** `WithData(data)`. */
  function WithData<T, O>(b: BuilderState<T, O>, data: Option<seq<T>>): (r: BuilderState<T, O>)
    ensures r.data == data
    ensures OnlyChanged(b, r, Data)
  {
    b.(data := data)
  }

  /** `ToTable(tableName)`. */
  function ToTable<T, O>(b: BuilderState<T, O>, tableName: Option<string>): (r: BuilderState<T, O>)
    ensures r.tableName == tableName
    ensures OnlyChanged(b, r, TableName)
  {
    b.(tableName := tableName)
  }

  /** `WithId(string idColumn)`: a one-element id list. */
  function WithIdColumn<T, O>(b: BuilderState<T, O>, idColumn: string): (r: BuilderState<T, O>)
    ensures r.idColumns.Some? && |r.idColumns.value| == 1 && r.idColumns.value[0] == idColumn
    ensures OnlyChanged(b, r, IdColumns)
  {
    b.(idColumns := Some([idColumn]))
  }

  /** `WithId(IEnumerable<string> idColumns)`: the list as given, order kept. */
  function WithIdColumns<T, O>(b: BuilderState<T, O>, idColumns: Option<seq<string>>): (r: BuilderState<T, O>)
    ensures r.idColumns == idColumns
    ensures OnlyChanged(b, r, IdColumns)
  {
    b.(idColumns := idColumns)
  }

  /** `string.IsNullOrEmpty`. */
  predicate IsNullOrEmpty(s: Option<string>)
  {
    s.None? || s.value == ""
  }

  /** `WithId(Expression idSelector)`. The expression is reflected on by
      helpers that are not part of this model; their two answers are the
      inputs: `memberName` is what `GetMemberName` returns for the selector
      body and `memberNames` what `GetMemberNames` returns. */
  function WithIdSelector<T, O>(b: BuilderState<T, O>, memberName: Option<string>, memberNames: seq<string>)
    : (r: BuilderState<T, O>)
    ensures !IsNullOrEmpty(memberName) ==> r.idColumns == Some([memberName.value])
    ensures IsNullOrEmpty(memberName) ==> r.idColumns == Some(memberNames)
    ensures OnlyChanged(b, r, IdColumns)
  {
    var ids := if IsNullOrEmpty(memberName) then memberNames else [memberName.value];
    b.(idColumns := Some(ids))
  }

  /** `WithDbColumnMappings(dbColumnMappings)`: property name to database column name. */
  function WithDbColumnMappings<T, O>(b: BuilderState<T, O>, dbColumnMappings: Option<map<string, string>>)
    : (r: BuilderState<T, O>)
    ensures r.dbColumnMappings == dbColumnMappings
    ensures OnlyChanged(b, r, DbColumnMappings)
  {
    b.(dbColumnMappings := dbColumnMappings)
  }

  /** `ConfigureBulkOptions(configureOptions)`. `defaults` is the value of a
      new `BulkDeleteOptions()`; the callback, when not null, is modelled
      as the function from the options it receives to the options it
      leaves behind. */
  function ConfigureBulkOptions<T, O>(b: BuilderState<T, O>, defaults: O, configure: Option<O -> O>)
    : (r: BuilderState<T, O>)
    ensures configure.None? ==> r.options == Some(defaults)
    ensures configure.Some? ==> r.options == Some(configure.value(defaults))
    ensures OnlyChanged(b, r, Options)
  {
    var configured := if configure.Some? then configure.value(defaults) else defaults;
    b.(options := Some(configured))
  }

  /** `GetDbColumnName(columnName)`: the mapped database column name when a
      mapping is configured and has the key, otherwise the name itself. */
  function DbColumnName<T, O>(b: BuilderState<T, O>, columnName: string): (r: string)
    ensures b.dbColumnMappings.None? ==> r == columnName
    ensures b.dbColumnMappings.Some? && columnName in b.dbColumnMappings.value
            ==> r == b.dbColumnMappings.value[columnName]
    ensures b.dbColumnMappings.Some? && columnName !in b.dbColumnMappings.value ==> r == columnName
  {
    match b.dbColumnMappings
    case None => columnName
    case Some(m) => if columnName in m then m[columnName] else columnName
  }

  /** One call of a fluent setter, with its arguments. */
  datatype Setter<T, !O> =
    | SetData(data: Option<seq<T>>)
    | SetTable(tableName: Option<string>)
    | SetIdColumn(idColumn: string)
    | SetIdColumns(idColumns: Option<seq<string>>)
    | SetIdSelector(memberName: Option<string>, memberNames: seq<string>)
    | SetDbColumnMappings(dbColumnMappings: Option<map<string, string>>)
    | SetOptions(defaults: O, configure: Option<O -> O>)
  {
    /** The field the setter writes; the three `WithId` overloads share one. */
    function Writes(): Field
    {
      match this
      case SetData(_) => Data
      case SetTable(_) => TableName
      case SetIdColumn(_) => IdColumns
      case SetIdColumns(_) => IdColumns
      case SetIdSelector(_, _) => IdColumns
      case SetDbColumnMappings(_) => DbColumnMappings
      case SetOptions(_, _) => Options
    }
  }

  /** Calls the setter `s` on `b`. */
  function Apply<T, O>(b: BuilderState<T, O>, s: Setter<T, O>): (r: BuilderState<T, O>)
    ensures OnlyChanged(b, r, s.Writes())
  {
    match s
    case SetData(data) => WithData(b, data)
    case SetTable(tableName) => ToTable(b, tableName)
    case SetIdColumn(idColumn) => WithIdColumn(b, idColumn)
    case SetIdColumns(idColumns) => WithIdColumns(b, idColumns)
    case SetIdSelector(memberName, memberNames) => WithIdSelector(b, memberName, memberNames)
    case SetDbColumnMappings(m) => WithDbColumnMappings(b, m)
    case SetOptions(defaults, configure) => ConfigureBulkOptions(b, defaults, configure)
  }

  /** A chain of setter calls, made in order on `b`. No field but the ones
      the calls write is touched. */
  function ApplyAll<T, O>(b: BuilderState<T, O>, calls: seq<Setter<T, O>>): (r: BuilderState<T, O>)
    ensures forall f: Field :: Untouched(calls, f) ==> Agree(b, r, f)
    decreases |calls|
  {
    if |calls| == 0 then b
    else
      var next := Apply(b, calls[0]);
      assert forall f: Field :: Untouched(calls, f) ==> Untouched(calls[1..], f) && Agree(b, next, f);
      ApplyAll(next, calls[1..])
  }

  /** No call in `calls` writes field `f`. */
  predicate Untouched<T, O>(calls: seq<Setter<T, O>>, f: Field)
  {
    forall i :: 0 <= i < |calls| ==> calls[i].Writes() != f
  }

  /** Calling setters of the same field twice keeps only the second call:
      this covers every setter, and mixes of the three `WithId` overloads. */
  lemma LastSetterWins<T, O>(b: BuilderState<T, O>, s1: Setter<T, O>, s2: Setter<T, O>)
    requires s1.Writes() == s2.Writes()
    ensures Apply(Apply(b, s1), s2) == Apply(b, s2)
  {
  }

  /** Setters of different fields can be called in either order. */
  lemma SettersCommute<T, O>(b: BuilderState<T, O>, s1: Setter<T, O>, s2: Setter<T, O>)
    requires s1.Writes() != s2.Writes()
    ensures Apply(Apply(b, s1), s2) == Apply(Apply(b, s2), s1)
  {
  }

  /** The selector overload agrees with the string overload when reflection
      finds one member, and with the list overload otherwise. */
  lemma SelectorMatchesOtherOverloads<T, O>(b: BuilderState<T, O>, memberName: Option<string>, memberNames: seq<string>)
    ensures !IsNullOrEmpty(memberName)
            ==> WithIdSelector(b, memberName, memberNames) == WithIdColumn(b, memberName.value)
    ensures IsNullOrEmpty(memberName)
            ==> WithIdSelector(b, memberName, memberNames) == WithIdColumns(b, Some(memberNames))
  {
  }

  /** Whatever options were configured before are discarded: the outcome
      depends only on the defaults and the callback. */
  lemma ConfigureDiscardsEarlierOptions<T, O>(b: BuilderState<T, O>, earlier: O, defaults: O, configure: Option<O -> O>)
    ensures ConfigureBulkOptions(b.(options := Some(earlier)), defaults, configure)
            == ConfigureBulkOptions(b.(options := None), defaults, configure)
  {
  }

  /** Configuring twice with the same callback is the same as configuring once. */
  lemma ConfigureIdempotent<T, O>(b: BuilderState<T, O>, defaults: O, configure: Option<O -> O>)
    ensures ConfigureBulkOptions(ConfigureBulkOptions(b, defaults, configure), defaults, configure)
            == ConfigureBulkOptions(b, defaults, configure)
  {
  }

  /** An empty mapping behaves as no mapping at all. */
  lemma EmptyMappingIsNoMapping<T, O>(b: BuilderState<T, O>, columnName: string)
    ensures DbColumnName(WithDbColumnMappings(b, Some(map[])), columnName)
            == DbColumnName(WithDbColumnMappings(b, None), columnName)
  {
  }
}
