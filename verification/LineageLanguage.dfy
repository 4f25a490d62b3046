/** Logical plans and expressions as the lineage optimizer sees them, with an
    evaluator. Everything the engine leaves to its libraries (what a component of
    a date is, what a scalar function or an aggregate computes, how values compare)
    is a parameter, so results hold for every choice of these. */
module LineageLanguage {
  import opened Common

  datatype Result<+T> = Ok(value: T) | Err {
    predicate IsFailure() { Err? }
    function PropagateFailure<U>(): Result<U> requires Err? { Err }
    function Extract(): T requires Ok? { value }
  }

  datatype Unit = Year | Month | Day | DayOfWeek

  datatype Value = Null | Boolean(b: bool) | Number(n: int) | Text(s: string) | Date(days: int)

  datatype DataType = Date32 | Timestamp | Utf8 | OtherType

  datatype ColumnKey = ColumnKey(relation: Option<string>, name: string)

  datatype Field = Field(key: ColumnKey, dataType: DataType)

  /** `Other` stands for every expression kind that the analysis treats alike:
      binary operators, CASE, IN lists, BETWEEN, sort expressions and so on. */
  datatype Expr =
    | Column(key: ColumnKey)
    | Alias(expr: Expr)
    | Literal(value: Value)
    | ScalarFunction(name: string, args: seq<Expr>)
    | Like(expr: Expr, pattern: Expr, caseInsensitive: bool, hasEscape: bool)
    | Cast(expr: Expr, target: DataType)
    | TryCast(expr: Expr, target: DataType)
    | AggregateFunction(name: string, args: seq<Expr>)
    | Other(op: string, children: seq<Expr>)

  datatype Plan =
    | TableScan(table: string, fields: seq<Field>, filters: seq<Expr>)
    | Projection(input: Plan, exprs: seq<Expr>, out: seq<Field>)
    | Filter(input: Plan, predicate_: Expr)
    | Aggregate(input: Plan, group: seq<Expr>, aggr: seq<Expr>, out: seq<Field>)
    | Join(left: Plan, right: Plan, on: seq<(Expr, Expr)>, filter: Option<Expr>, out: seq<Field>)
    | SubqueryAlias(input: Plan, out: seq<Field>)
    | Sort(input: Plan, keys: seq<Expr>)
    | Limit(input: Plan, skip: Option<Expr>, fetch: Option<Expr>)

  type Row = map<ColumnKey, Value>
  type Database = map<string, seq<Row>>

  /** The library's reading of an interval unit name, `IntervalUnit::from_str`. */
  type UnitNames = string -> Option<Unit>

  /** What the libraries compute. `part` says what the components of a date are,
      `datePart` is the function `date_part` by the name of the part. */
  datatype Semantics = Semantics(
    units: UnitNames,
    part: (Unit, Value) -> Value,
    datePart: (string, Value) -> Value,
    call: (string, seq<Value>) -> Value,
    like: (bool, bool, Value, Value) -> Value,
    cast: (bool, DataType, Value) -> Value,
    op: (string, seq<Value>) -> Value,
    aggregate: (string, seq<seq<Value>>) -> Value,
    truthy: Value -> bool,
    matches: (Value, Value) -> bool,
    before: (seq<Value>, seq<Value>) -> bool,
    rowCount: Value -> nat)

  // ----- names -----

  function Lower(c: char): char {
    if 'A' <= c <= 'Z' then c - 'A' + 'a' else c
  }

  function ToLower(s: string): string {
    seq(|s|, i requires 0 <= i < |s| => Lower(s[i]))
  }

  /** The spellings of the day of the week. */
  predicate NamesDayOfWeek(name: string) {
    ToLower(name) == "dow" || ToLower(name) == "dayofweek" || ToLower(name) == "day_of_week"
  }

  /** The component that a part name stands for in the library's `date_part`. */
  predicate Names(name: string, u: Unit, units: UnitNames) {
    if NamesDayOfWeek(name) then u == DayOfWeek else u != DayOfWeek && units(name) == Some(u)
  }

  /** `date_part` computes the component that its part name stands for. */
  ghost predicate Calendar(sem: Semantics) {
    forall name, u, v :: Names(name, u, sem.units) ==> sem.datePart(name, v) == sem.part(u, v)
  }

  /** Libraries whose `date_part` does what its names say. */
  type Library = sem: Semantics | Calendar(sem)
    ghost witness Semantics(_ => None, (_, _) => Null, (_, _) => Null, (_, _) => Null, (_, _, _, _) => Null, (_, _, _) => Null,
                            (_, _) => Null, (_, _) => Null, _ => true, (_, _) => true, (_, _) => true, _ => 0)

  function Keys(fields: seq<Field>): (keys: seq<ColumnKey>)
    ensures |keys| == |fields|
  {
    seq(|fields|, i requires 0 <= i < |fields| => fields[i].key)
  }

  function PartToUnit(e: Expr, units: UnitNames): Option<Unit> {
    if e.Literal? && e.value.Text? then
      if ToLower(e.value.s) in {"dow", "dayofweek", "day_of_week"} then Some(DayOfWeek)
      else
        match units(e.value.s)
        case Some(DayOfWeek) => None
        case other => other
    else None
  }

  /** `date_part('<part>', x)`. */
  predicate IsDatePartCall(e: Expr) {
    e.ScalarFunction? && ToLower(e.name) == "date_part" && |e.args| == 2 && IsText(e.args[0])
  }

  /** `date_part('<unit>', x)` with a supported literal unit. */
  predicate IsDatePart(e: Expr, units: UnitNames) {
    e.ScalarFunction? && ToLower(e.name) == "date_part" && |e.args| == 2 && PartToUnit(e.args[0], units).Some?
  }

  /** `variant_get(x, '<path>'[, type])` with a literal path. */
  predicate IsVariantGet(e: Expr) {
    e.ScalarFunction? && ToLower(e.name) == "variant_get" && 2 <= |e.args| <= 3 && IsText(e.args[1])
  }

  predicate IsText(e: Expr) {
    e.Literal? && e.value.Text?
  }

  function Schema(p: Plan): seq<Field> {
    match p
    case TableScan(_, fields, _) => fields
    case Projection(_, _, out) => out
    case Filter(input, _) => Schema(input)
    case Aggregate(_, _, _, out) => out
    case Join(_, _, _, _, out) => out
    case SubqueryAlias(_, out) => out
    case Sort(input, _) => Schema(input)
    case Limit(input, _, _) => Schema(input)
  }

  /** Pairs keys with values in order; a repeated key keeps its last value, and
      the longer list is cut, as when zipping into a hash map. */
  function ZipMap<V>(keys: seq<ColumnKey>, values: seq<V>): (m: map<ColumnKey, V>)
    ensures |keys| == |values| ==> m.Keys == set i | 0 <= i < |keys| :: keys[i]
  {
    if |keys| == 0 || |values| == 0 then map[]
    else if |keys| < |values| then ZipMap(keys, values[..|keys|])
    else if |keys| > |values| then ZipMap(keys[..|values|], values)
    else
      var n := |keys| - 1;
      var rest := ZipMap(keys[..n], values[..n]);
      assert (set i | 0 <= i < |keys| :: keys[i]) == (set i | 0 <= i < n :: keys[..n][i]) + {keys[n]};
      rest[keys[n] := values[n]]
  }

  // ----- evaluation -----

  function Get(row: Row, key: ColumnKey): Value {
    if key in row then row[key] else Null
  }

  function Eval(e: Expr, row: Row, sem: Semantics): Value
    decreases e, 1
  {
    match e
    case Column(key) => Get(row, key)
    case Alias(inner) => Eval(inner, row, sem)
    case Literal(v) => v
    case ScalarFunction(name, args) =>
      if IsDatePartCall(e) then sem.datePart(args[0].value.s, Eval(args[1], row, sem))
      else sem.call(name, EvalAll(args, row, sem))
    case Like(inner, pattern, ci, esc) => sem.like(ci, esc, Eval(inner, row, sem), Eval(pattern, row, sem))
    case Cast(inner, target) => sem.cast(false, target, Eval(inner, row, sem))
    case TryCast(inner, target) => sem.cast(true, target, Eval(inner, row, sem))
    case AggregateFunction(_, _) => Null
    case Other(op, children) => sem.op(op, EvalAll(children, row, sem))
  }

  function EvalAll(es: seq<Expr>, row: Row, sem: Semantics): (vs: seq<Value>)
    ensures |vs| == |es|
    ensures forall i :: 0 <= i < |es| ==> vs[i] == Eval(es[i], row, sem)
    decreases es, 0
  {
    if es == [] then [] else [Eval(es[0], row, sem)] + EvalAll(es[1..], row, sem)
  }

  /** An aggregate expression over the rows of one group. */
  function EvalAggregate(e: Expr, rows: seq<Row>, sem: Semantics): Value {
    match e
    case Alias(inner) => EvalAggregate(inner, rows, sem)
    case AggregateFunction(name, args) =>
      sem.aggregate(name, seq(|rows|, i requires 0 <= i < |rows| => EvalAll(args, rows[i], sem)))
    case _ => Null
  }

  function EvalAggregates(es: seq<Expr>, rows: seq<Row>, sem: Semantics): (vs: seq<Value>)
    ensures |vs| == |es|
  {
    seq(|es|, i requires 0 <= i < |es| => EvalAggregate(es[i], rows, sem))
  }

  /** All of `es` hold on the row. */
  predicate Holds(es: seq<Expr>, row: Row, sem: Semantics) {
    forall i :: 0 <= i < |es| ==> sem.truthy(Eval(es[i], row, sem))
  }

  function Keep(rows: seq<Row>, es: seq<Expr>, sem: Semantics): seq<Row> {
    if rows == [] then []
    else (if Holds(es, rows[0], sem) then [rows[0]] else []) + Keep(rows[1..], es, sem)
  }

  function Pick(row: Row, keys: seq<ColumnKey>): (vs: seq<Value>)
    ensures |vs| == |keys|
  {
    seq(|keys|, i requires 0 <= i < |keys| => Get(row, keys[i]))
  }

  predicate JoinMatches(l: Row, r: Row, on: seq<(Expr, Expr)>, filter: Option<Expr>, sem: Semantics) {
    (forall i :: 0 <= i < |on| ==> sem.matches(Eval(on[i].0, l, sem), Eval(on[i].1, r, sem))) &&
    (filter.Some? ==> sem.truthy(Eval(filter.value, l + r, sem)))
  }

  /** The output row of a matching pair. */
  function JoinedRow(l: Row, r: Row, j: Plan): Row
    requires j.Join?
  {
    ZipMap(Keys(j.out), Pick(l, Keys(Schema(j.left))) + Pick(r, Keys(Schema(j.right))))
  }

  function JoinOne(l: Row, rs: seq<Row>, j: Plan, sem: Semantics): seq<Row>
    requires j.Join?
  {
    if rs == [] then []
    else
      (if JoinMatches(l, rs[0], j.on, j.filter, sem) then [JoinedRow(l, rs[0], j)] else []) + JoinOne(l, rs[1..], j, sem)
  }

  function JoinRows(ls: seq<Row>, rs: seq<Row>, j: Plan, sem: Semantics): seq<Row>
    requires j.Join?
  {
    if ls == [] then [] else JoinOne(ls[0], rs, j, sem) + JoinRows(ls[1..], rs, j, sem)
  }

  /** Distinct group keys in order of first appearance. */
  function DistinctKeys(keys: seq<seq<Value>>): seq<seq<Value>> {
    if keys == [] then []
    else
      var n := |keys| - 1;
      var before := DistinctKeys(keys[..n]);
      if keys[n] in before then before else before + [keys[n]]
  }

  function Members(rows: seq<Row>, keys: seq<seq<Value>>, key: seq<Value>): seq<Row>
    requires |rows| == |keys|
  {
    if rows == [] then []
    else (if keys[0] == key then [rows[0]] else []) + Members(rows[1..], keys[1..], key)
  }

  function GroupKeys(rows: seq<Row>, group: seq<Expr>, sem: Semantics): (keys: seq<seq<Value>>)
    ensures |keys| == |rows|
  {
    seq(|rows|, i requires 0 <= i < |rows| => EvalAll(group, rows[i], sem))
  }

  /** One output row per group; without grouping expressions there is one group. */
  function AggregateRows(rows: seq<Row>, group: seq<Expr>, aggr: seq<Expr>, out: seq<Field>, sem: Semantics): seq<Row> {
    var keys := GroupKeys(rows, group, sem);
    var groups := if group == [] then [[]] else DistinctKeys(keys);
    seq(|groups|, i requires 0 <= i < |groups| =>
      ZipMap(Keys(out), groups[i] + EvalAggregates(aggr, Members(rows, keys, groups[i]), sem)))
  }

  /** Stable insertion by sort key. */
  function InsertSorted(key: seq<Value>, row: Row, sorted: seq<(seq<Value>, Row)>, sem: Semantics): seq<(seq<Value>, Row)> {
    if sorted == [] then [(key, row)]
    else if sem.before(sorted[0].0, key) then [sorted[0]] + InsertSorted(key, row, sorted[1..], sem)
    else [(key, row)] + sorted
  }

  function SortRows(rows: seq<Row>, keys: seq<Expr>, sem: Semantics): seq<(seq<Value>, Row)> {
    if rows == [] then []
    else InsertSorted(EvalAll(keys, rows[0], sem), rows[0], SortRows(rows[1..], keys, sem), sem)
  }

  function Bounded(rows: seq<Row>, skip: Option<Expr>, fetch: Option<Expr>, sem: Semantics): seq<Row> {
    var s := if skip.Some? then sem.rowCount(Eval(skip.value, map[], sem)) else 0;
    var rest := if s <= |rows| then rows[s..] else [];
    if fetch.None? then rest
    else
      var f := sem.rowCount(Eval(fetch.value, map[], sem));
      if f <= |rest| then rest[..f] else rest
  }

  function EvalPlan(p: Plan, db: Database, sem: Semantics): seq<Row> {
    match p
    case TableScan(table, fields, filters) =>
      var stored := if table in db then db[table] else [];
      Keep(seq(|stored|, i requires 0 <= i < |stored| => ZipMap(Keys(fields), Pick(stored[i], Keys(fields)))), filters, sem)
    case Projection(input, exprs, out) =>
      var rows := EvalPlan(input, db, sem);
      seq(|rows|, i requires 0 <= i < |rows| => ZipMap(Keys(out), EvalAll(exprs, rows[i], sem)))
    case Filter(input, predicate_) => Keep(EvalPlan(input, db, sem), [predicate_], sem)
    case Aggregate(input, group, aggr, out) => AggregateRows(EvalPlan(input, db, sem), group, aggr, out, sem)
    case Join(left, right, _, _, _) => JoinRows(EvalPlan(left, db, sem), EvalPlan(right, db, sem), p, sem)
    case SubqueryAlias(input, out) =>
      var rows := EvalPlan(input, db, sem);
      seq(|rows|, i requires 0 <= i < |rows| => ZipMap(Keys(out), Pick(rows[i], Keys(Schema(input)))))
    case Sort(input, keys) =>
      var sorted := SortRows(EvalPlan(input, db, sem), keys, sem);
      seq(|sorted|, i requires 0 <= i < |sorted| => sorted[i].1)
    case Limit(input, skip, fetch) => Bounded(EvalPlan(input, db, sem), skip, fetch, sem)
  }
}
