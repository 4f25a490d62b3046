/** The exact condition for noninterference, for a given date library and given values
    of the column: the answer of an annotated plan is insensitive to the hidden parts
    of the dates if and only if no output column is the raw column, or the annotated
    components determine the date. The "only if" is about plans that can return a row
    at all; OFFSET and LIMIT together can keep a plan from doing so. */
module NoninterferenceExact {
  import opened Common
  import opened LineageLanguage
  import opened LineageAnalysis
  import opened Noninterference

  function Tables(p: Plan): set<string> {
    match p
    case TableScan(table, _, _) => {table}
    case Projection(input, _, _) => Tables(input)
    case Aggregate(input, _, _, _) => Tables(input)
    case Filter(input, _) => Tables(input)
    case SubqueryAlias(input, _) => Tables(input)
    case Sort(input, _) => Tables(input)
    case Limit(input, _, _) => Tables(input)
    case Join(left, right, _, _, _) => Tables(left) + Tables(right)
  }

  type RowCounts = Value -> nat

  /** What the component of a date is. */
  type DateParts = (Unit, Value) -> Value

  /** `date_part` for given components. */
  function PartByName(units: UnitNames, part: DateParts, name: string, v: Value): Value {
    if NamesDayOfWeek(name) then part(DayOfWeek, v) else if units(name).Some? then part(units(name).value, v) else Null
  }

  /** Libraries with the given dates under which every predicate holds; how many rows
      an OFFSET or LIMIT value means is up to `counts`. */
  function Accepting(units: UnitNames, part: DateParts, counts: RowCounts): Library {
    Semantics(units, part, (name, v) => PartByName(units, part, name, v), (_, _) => Null, (_, _, _, _) => Null, (_, _, _) => Null, (_, _) => Null,
              (_, _) => Null, _ => true, (_, _) => true, (_, _) => false, counts)
  }

  ghost predicate Accepts(sem: Library) {
    && (forall v :: sem.truthy(v)) && (forall v, w :: sem.matches(v, w)) && (forall a, b :: !sem.before(a, b))
  }

  /** n equal rows per table, holding only the annotated column. */
  function EqualRows(tables: set<string>, column: ColumnKey, x: Value, n: nat): Database {
    map t | t in tables :: seq(n, _ => map[column := x])
  }

  /** Rows left by OFFSET and LIMIT. */
  function Left(n: nat, skip: Option<Expr>, fetch: Option<Expr>, sem: Library): nat {
    var s := if skip.Some? then sem.rowCount(Eval(skip.value, map[], sem)) else 0;
    var rest := if s <= n then n - s else 0;
    if fetch.None? then rest
    else
      var f := sem.rowCount(Eval(fetch.value, map[], sem));
      if f <= rest then f else rest
  }

  /** How many rows a plan returns on n equal rows per table under accepting libraries. */
  function Yield(p: Plan, n: nat, sem: Library): nat {
    match p
    case TableScan(_, _, _) => n
    case Projection(input, _, _) => Yield(input, n, sem)
    case Aggregate(input, group, _, _) => if group == [] || Yield(input, n, sem) > 0 then 1 else 0
    case Filter(input, _) => Yield(input, n, sem)
    case SubqueryAlias(input, _) => Yield(input, n, sem)
    case Sort(input, _) => Yield(input, n, sem)
    case Limit(input, skip, fetch) => Left(Yield(input, n, sem), skip, fetch, sem)
    case Join(left, right, _, _, _) => Yield(left, n, sem) * Yield(right, n, sem)
  }

  /** The plan can return a row, on tables of equal rows. */
  ghost predicate CanYield(p: Plan, units: UnitNames, part: DateParts) {
    exists n: nat, counts: RowCounts :: Yield(p, n, Accepting(units, part, counts)) > 0
  }

  /** A column that still is the raw secret holds x. */
  ghost predicate Reveals(s: Secret, m: LineageMap, row: Row, x: Value) {
    row.Keys == m.Keys && forall k :: k in m && Bare(s, m[k]) ==> row[k] == x
  }

  /** n equal rows, whose raw columns hold x. */
  ghost predicate EqualRevealing(s: Secret, m: LineageMap, rows: seq<Row>, n: nat, x: Value) {
    |rows| == n && forall i :: 0 <= i < n ==> rows[i] == rows[0] && Reveals(s, m, rows[i], x)
  }

  lemma {:induction false} ZipReveals(s: Secret, keys: seq<ColumnKey>, uss: seq<seq<ColumnUsage>>, vs: seq<Value>, x: Value)
    requires |keys| == |uss| == |vs|
    requires forall i :: 0 <= i < |uss| && Bare(s, uss[i]) ==> vs[i] == x
    ensures Reveals(s, ZipMap(keys, uss), ZipMap(keys, vs), x)
  {
    if keys != [] {
      var n := |keys| - 1;
      ZipReveals(s, keys[..n], uss[..n], vs[..n], x);
    }
  }

  lemma PickReveals(s: Secret, m: LineageMap, keys: seq<ColumnKey>, row: Row, x: Value)
    requires Reveals(s, m, row, x)
    ensures forall i :: 0 <= i < |keys| && Bare(s, LookUp(m, keys)[i]) ==> Pick(row, keys)[i] == x
  {
  }

  lemma {:induction false} KeepAccepts(rows: seq<Row>, es: seq<Expr>, sem: Library)
    requires forall v :: sem.truthy(v)
    ensures Keep(rows, es, sem) == rows
  {
    if rows != [] {
      KeepAccepts(rows[1..], es, sem);
    }
  }

  ghost predicate Stored(s: Secret, p: Plan, db: Database, n: nat, x: Value) {
    forall t :: t in Tables(p) ==> t in db && db[t] == seq(n, _ => map[s.column := x])
  }

  /** With accepting libraries equal rows stay equal, raw secrets included, and
      their number is as computed. */
  lemma {:induction false} RowsSurvive(s: Secret, p: Plan, db: Database, n: nat, x: Value)
    requires Resolved(p) && Accepts(s.sem) && Analyze(p, s.sem.units).Ok?
    requires AllThrough(s, Analyze(p, s.sem.units).value.recorded) && Stored(s, p, db, n, x)
    ensures EqualRevealing(s, Analyze(p, s.sem.units).value.output, EvalPlan(p, db, s.sem), Yield(p, n, s.sem), x)
    decreases p, 1
  {
    match p
    case TableScan(_, _, _) => ScanSurvives(s, p, db, n, x);
    case Projection(_, _, _) => ProjectionSurvives(s, p, db, n, x);
    case Aggregate(_, _, _, _) => AggregateSurvives(s, p, db, n, x);
    case Filter(_, _) => FilterSurvives(s, p, db, n, x);
    case Sort(_, _) => SortPlanSurvives(s, p, db, n, x);
    case Limit(_, _, _) => LimitSurvives(s, p, db, n, x);
    case SubqueryAlias(_, _) => AliasSurvives(s, p, db, n, x);
    case Join(_, _, _, _, _) => JoinSurvives(s, p, db, n, x);
  }

  lemma {:induction false} FilterSurvives(s: Secret, p: Plan, db: Database, n: nat, x: Value)
    requires p.Filter? && Resolved(p) && Accepts(s.sem) && Analyze(p, s.sem.units).Ok?
    requires AllThrough(s, Analyze(p, s.sem.units).value.recorded) && Stored(s, p, db, n, x)
    ensures EqualRevealing(s, Analyze(p, s.sem.units).value.output, EvalPlan(p, db, s.sem), Yield(p, n, s.sem), x)
    decreases p, 0
  {
    InputSurvives(s, p.input, [p.predicate_], db, n, x);
    KeepAccepts(EvalPlan(p.input, db, s.sem), [p.predicate_], s.sem);
  }

  lemma {:induction false} SortPlanSurvives(s: Secret, p: Plan, db: Database, n: nat, x: Value)
    requires p.Sort? && Resolved(p) && Accepts(s.sem) && Analyze(p, s.sem.units).Ok?
    requires AllThrough(s, Analyze(p, s.sem.units).value.recorded) && Stored(s, p, db, n, x)
    ensures EqualRevealing(s, Analyze(p, s.sem.units).value.output, EvalPlan(p, db, s.sem), Yield(p, n, s.sem), x)
    decreases p, 0
  {
    InputSurvives(s, p.input, p.keys, db, n, x);
    SortSurvives(EvalPlan(p.input, db, s.sem), p.keys, s.sem);
  }

  lemma {:induction false} LimitSurvives(s: Secret, p: Plan, db: Database, n: nat, x: Value)
    requires p.Limit? && Resolved(p) && Accepts(s.sem) && Analyze(p, s.sem.units).Ok?
    requires AllThrough(s, Analyze(p, s.sem.units).value.recorded) && Stored(s, p, db, n, x)
    ensures EqualRevealing(s, Analyze(p, s.sem.units).value.output, EvalPlan(p, db, s.sem), Yield(p, n, s.sem), x)
    decreases p, 0
  {
    InputSurvives(s, p.input, OptionList(p.skip) + OptionList(p.fetch), db, n, x);
    var m := Analyze(p.input, s.sem.units).value.output;
    BoundedSurvives(s, m, EvalPlan(p.input, db, s.sem), p.skip, p.fetch, x);
  }

  /** Cutting equal rows at both ends. */
  lemma BoundedSurvives(s: Secret, m: LineageMap, rows: seq<Row>, skip: Option<Expr>, fetch: Option<Expr>, x: Value)
    requires EqualRevealing(s, m, rows, |rows|, x)
    ensures EqualRevealing(s, m, Bounded(rows, skip, fetch, s.sem), Left(|rows|, skip, fetch, s.sem), x)
  {
    var cut := Bounded(rows, skip, fetch, s.sem);
    forall i | 0 <= i < |cut| ensures cut[i] == rows[0] && Reveals(s, m, cut[i], x) {
      var from := if skip.Some? then s.sem.rowCount(Eval(skip.value, map[], s.sem)) else 0;
      assert cut[i] == rows[from + i];
    }
  }

  lemma {:induction false} AliasSurvives(s: Secret, p: Plan, db: Database, n: nat, x: Value)
    requires p.SubqueryAlias? && Resolved(p) && Accepts(s.sem) && Analyze(p, s.sem.units).Ok?
    requires AllThrough(s, Analyze(p, s.sem.units).value.recorded) && Stored(s, p, db, n, x)
    ensures EqualRevealing(s, Analyze(p, s.sem.units).value.output, EvalPlan(p, db, s.sem), Yield(p, n, s.sem), x)
    decreases p, 0
  {
    RowsSurvive(s, p.input, db, n, x);
    var m, rows := Analyze(p.input, s.sem.units).value.output, EvalPlan(p.input, db, s.sem);
    if rows != [] {
      var keys := Keys(Schema(p.input));
      PickReveals(s, m, keys, rows[0], x);
      ZipReveals(s, Keys(p.out), LookUp(m, keys), Pick(rows[0], keys), x);
    }
  }

  lemma {:induction false} InsertFirst(key: seq<Value>, row: Row, sorted: seq<(seq<Value>, Row)>, sem: Library)
    requires Accepts(sem)
    ensures InsertSorted(key, row, sorted, sem) == [(key, row)] + sorted
  {
  }

  lemma {:induction false} SortSurvives(rows: seq<Row>, keys: seq<Expr>, sem: Library)
    requires Accepts(sem)
    ensures |SortRows(rows, keys, sem)| == |rows|
    ensures forall i :: 0 <= i < |rows| ==> SortRows(rows, keys, sem)[i].1 == rows[i]
  {
    if rows != [] {
      SortSurvives(rows[1..], keys, sem);
      InsertFirst(EvalAll(keys, rows[0], sem), rows[0], SortRows(rows[1..], keys, sem), sem);
    }
  }

  lemma {:induction false} InputSurvives(s: Secret, input: Plan, es: seq<Expr>, db: Database, n: nat, x: Value)
    requires Resolved(input) && Accepts(s.sem) && Analyze(input, s.sem.units).Ok?
    requires UsagesOf(es, Analyze(input, s.sem.units).value.output, Schema(input), s.sem.units).Ok?
    requires AllThrough(s, Analyze(input, s.sem.units).value.recorded +
      Flatten(UsagesOf(es, Analyze(input, s.sem.units).value.output, Schema(input), s.sem.units).value))
    requires Stored(s, input, db, n, x)
    ensures EqualRevealing(s, Analyze(input, s.sem.units).value.output, EvalPlan(input, db, s.sem), Yield(input, n, s.sem), x)
    decreases input, 2
  {
    var m := Analyze(input, s.sem.units).value;
    AllThroughParts(s, m.recorded, Flatten(UsagesOf(es, m.output, Schema(input), s.sem.units).value));
    RowsSurvive(s, input, db, n, x);
  }

  lemma ScanSurvives(s: Secret, p: Plan, db: Database, n: nat, x: Value)
    requires p.TableScan? && Accepts(s.sem) && Analyze(p, s.sem.units).Ok? && Stored(s, p, db, n, x)
    ensures EqualRevealing(s, Analyze(p, s.sem.units).value.output, EvalPlan(p, db, s.sem), n, x)
  {
    var keys := Keys(p.fields);
    var stored: Row := map[s.column := x];
    var row := ZipMap(keys, Pick(stored, keys));
    assert p.table in Tables(p);
    var rows := seq(|db[p.table]|, i requires 0 <= i < |db[p.table]| => ZipMap(keys, Pick(db[p.table][i], keys)));
    assert forall i :: 0 <= i < n ==> rows[i] == row;
    KeepAccepts(rows, p.filters, s.sem);
    var uss := BaseUsages(p.fields);
    forall i | 0 <= i < |uss| && Bare(s, uss[i]) ensures Pick(stored, keys)[i] == x {
      assert IsBare(s, uss[i][0]);
    }
    ZipReveals(s, keys, uss, Pick(stored, keys), x);
  }

  lemma {:induction false} ProjectionSurvives(s: Secret, p: Plan, db: Database, n: nat, x: Value)
    requires p.Projection? && Resolved(p) && Accepts(s.sem) && Analyze(p, s.sem.units).Ok?
    requires AllThrough(s, Analyze(p, s.sem.units).value.recorded) && Stored(s, p, db, n, x)
    ensures EqualRevealing(s, Analyze(p, s.sem.units).value.output, EvalPlan(p, db, s.sem), Yield(p, n, s.sem), x)
    decreases p, 0
  {
    InputSurvives(s, p.input, p.exprs, db, n, x);
    var m, rows := Analyze(p.input, s.sem.units).value, EvalPlan(p.input, db, s.sem);
    var uss := UsagesOf(p.exprs, m.output, Schema(p.input), s.sem.units).value;
    FlattenNothingBare(s, m.recorded, uss);
    if rows != [] {
      ZipReveals(s, Keys(p.out), uss, EvalAll(p.exprs, rows[0], s.sem), x);
    }
  }

  lemma {:induction false} EqualKeysOnce(keys: seq<seq<Value>>)
    requires forall i :: 0 <= i < |keys| ==> keys[i] == keys[0]
    ensures DistinctKeys(keys) == if keys == [] then [] else [keys[0]]
  {
    if |keys| > 1 {
      EqualKeysOnce(keys[..|keys| - 1]);
    }
  }

  /** Equal rows are one group. */
  lemma OneGroup(rows: seq<Row>, group: seq<Expr>, aggr: seq<Expr>, out: seq<Field>, sem: Library) returns (vs: seq<Value>)
    requires forall i :: 0 <= i < |rows| ==> rows[i] == rows[0]
    ensures |vs| == |group| + |aggr|
    ensures AggregateRows(rows, group, aggr, out, sem) == if group == [] || rows != [] then [ZipMap(Keys(out), vs)] else []
  {
    var keys := GroupKeys(rows, group, sem);
    EqualKeysOnce(keys);
    var key := if group == [] then [] else if rows != [] then keys[0] else seq(|group|, _ => Null);
    vs := key + EvalAggregates(aggr, Members(rows, keys, key), sem);
  }

  lemma {:induction false} AggregateSurvives(s: Secret, p: Plan, db: Database, n: nat, x: Value)
    requires p.Aggregate? && Resolved(p) && Accepts(s.sem) && Analyze(p, s.sem.units).Ok?
    requires AllThrough(s, Analyze(p, s.sem.units).value.recorded) && Stored(s, p, db, n, x)
    ensures EqualRevealing(s, Analyze(p, s.sem.units).value.output, EvalPlan(p, db, s.sem), Yield(p, n, s.sem), x)
    decreases p, 0
  {
    var m := Analyze(p.input, s.sem.units).value;
    InputSurvives(s, p.input, p.group + p.aggr, db, n, x);
    var rows := EvalPlan(p.input, db, s.sem);
    var uss := UsagesOf(p.group + p.aggr, m.output, Schema(p.input), s.sem.units).value;
    FlattenNothingBare(s, m.recorded, uss);
    assert uss + seq(0, _ => []) == uss;
    var vs := OneGroup(rows, p.group, p.aggr, p.out, s.sem);
    ZipReveals(s, Keys(p.out), uss, vs, x);
  }

  lemma {:induction false} JoinSurvives(s: Secret, p: Plan, db: Database, n: nat, x: Value)
    requires p.Join? && Resolved(p) && Accepts(s.sem) && Analyze(p, s.sem.units).Ok?
    requires AllThrough(s, Analyze(p, s.sem.units).value.recorded) && Stored(s, p, db, n, x)
    ensures EqualRevealing(s, Analyze(p, s.sem.units).value.output, EvalPlan(p, db, s.sem), Yield(p, n, s.sem), x)
    decreases p, 0
  {
    var l, r := Analyze(p.left, s.sem.units).value, Analyze(p.right, s.sem.units).value;
    var on := OnUsages(p.on, p, l.output, r.output, s.sem.units).value;
    AllThroughParts(s, l.recorded + r.recorded + on,
                    Flatten(UsagesOf(OptionList(p.filter), MergeMaps(l.output, r.output), p.out, s.sem.units).value));
    AllThroughParts(s, l.recorded + r.recorded, on);
    AllThroughParts(s, l.recorded, r.recorded);
    RowsSurvive(s, p.left, db, n, x);
    RowsSurvive(s, p.right, db, n, x);
    JoinReveals(s, p, l.output, r.output, EvalPlan(p.left, db, s.sem), EvalPlan(p.right, db, s.sem), x);
  }

  /** The product of equal rows with equal rows. */
  lemma JoinReveals(s: Secret, j: Plan, l: LineageMap, r: LineageMap, ls: seq<Row>, rs: seq<Row>, x: Value)
    requires j.Join? && |j.out| == |Schema(j.left)| + |Schema(j.right)| && Accepts(s.sem)
    requires EqualRevealing(s, l, ls, |ls|, x) && EqualRevealing(s, r, rs, |rs|, x)
    ensures EqualRevealing(s, JoinOutput(j, l, r), JoinRows(ls, rs, j, s.sem), |ls| * |rs|, x)
  {
    var left: Row := if ls == [] then map[] else ls[0];
    var right: Row := if rs == [] then map[] else rs[0];
    JoinAccepts(j, ls, rs, s.sem, left, right);
    if ls != [] && rs != [] {
      JoinedReveals(s, j, l, r, left, right, x);
      var rows := JoinRows(ls, rs, j, s.sem);
      assert forall i :: 0 <= i < |rows| ==> rows[i] in rows;
    }
  }

  lemma {:induction false} JoinOneAccepts(j: Plan, l: Row, rs: seq<Row>, sem: Library, r: Row)
    requires j.Join? && Accepts(sem) && forall i :: 0 <= i < |rs| ==> rs[i] == r
    ensures |JoinOne(l, rs, j, sem)| == |rs| && forall row :: row in JoinOne(l, rs, j, sem) ==> row == JoinedRow(l, r, j)
  {
    if rs != [] {
      assert JoinMatches(l, rs[0], j.on, j.filter, sem);
      JoinOneAccepts(j, l, rs[1..], sem, r);
    }
  }

  lemma {:induction false} JoinAccepts(j: Plan, ls: seq<Row>, rs: seq<Row>, sem: Library, l: Row, r: Row)
    requires j.Join? && Accepts(sem)
    requires forall i :: 0 <= i < |ls| ==> ls[i] == l
    requires forall i :: 0 <= i < |rs| ==> rs[i] == r
    ensures |JoinRows(ls, rs, j, sem)| == |ls| * |rs|
    ensures forall row :: row in JoinRows(ls, rs, j, sem) ==> row == JoinedRow(l, r, j)
  {
    if ls != [] {
      JoinOneAccepts(j, ls[0], rs, sem, r);
      JoinAccepts(j, ls[1..], rs, sem, l, r);
      OneMoreTimes(|ls| - 1, |rs|);
    }
  }

  lemma OneMoreTimes(n: nat, m: nat)
    ensures (n + 1) * m == m + n * m
  {
  }

  lemma JoinedReveals(s: Secret, j: Plan, l: LineageMap, r: LineageMap, lr: Row, rr: Row, x: Value)
    requires j.Join? && |j.out| == |Schema(j.left)| + |Schema(j.right)|
    requires Reveals(s, l, lr, x) && Reveals(s, r, rr, x)
    ensures Reveals(s, JoinOutput(j, l, r), JoinedRow(lr, rr, j), x)
  {
    var lk, rk := Keys(Schema(j.left)), Keys(Schema(j.right));
    PickReveals(s, l, lk, lr, x);
    PickReveals(s, r, rk, rr, x);
    var uss, vs := LookUp(l, lk) + LookUp(r, rk), Pick(lr, lk) + Pick(rr, rk);
    forall i | 0 <= i < |uss| && Bare(s, uss[i]) ensures vs[i] == x {
      if i >= |lk| {
        assert uss[i] == LookUp(r, rk)[i - |lk|] && vs[i] == Pick(rr, rk)[i - |lk|];
      }
    }
    ZipReveals(s, Keys(j.out), uss, vs, x);
  }

  // ----- the exact condition -----

  /** What a query may depend on: the names of units, the date library, the column,
      its annotated components and the values that it may hold. */
  datatype Setting = Setting(units: UnitNames, part: DateParts, column: ColumnKey, parts: set<Unit>, domain: iset<Value>)

  function SecretOf(t: Setting, sem: Library): Secret {
    Secret(t.column, t.parts, t.domain, sem)
  }

  /** The query answers alike on any two databases that agree up to the annotated
      parts, whatever functions, aggregates and comparisons compute. */
  ghost predicate Insensitive(p: Plan, t: Setting) {
    forall sem: Library, a: Database, b: Database ::
      sem.units == t.units && sem.part == t.part && DatabasesAgree(SecretOf(t, sem), a, b) ==>
        EvalPlan(p, a, sem) == EvalPlan(p, b, sem)
  }

  /** No output column is the raw column. */
  ghost predicate NoRawOutput(p: Plan, t: Setting)
    requires Analyze(p, t.units).Ok?
  {
    var m := Analyze(p, t.units).value.output;
    forall k, i :: k in m && 0 <= i < |m[k]| ==> m[k][i].base != t.column || m[k][i].operations != []
  }

  /** The annotated components tell the column's values apart. */
  ghost predicate Determined(t: Setting) {
    forall x, y :: x in t.domain && y in t.domain && (forall u :: u in t.parts ==> t.part(u, x) == t.part(u, y)) ==> x == y
  }

  lemma RawMeansBare(p: Plan, t: Setting, sem: Library)
    requires Analyze(p, t.units).Ok?
    ensures NoRawOutput(p, t) <==> NothingBare(SecretOf(t, sem), Analyze(p, t.units).value.output)
  {
    var s, m := SecretOf(t, sem), Analyze(p, t.units).value.output;
    if NothingBare(s, m) {
      forall k, i | k in m && 0 <= i < |m[k]| ensures m[k][i].base != t.column || m[k][i].operations != [] {
        assert !Bare(s, m[k]) && !IsBare(s, m[k][i]);
      }
    }
  }

  lemma EqualRowsAgree(s: Secret, tables: set<string>, x: Value, y: Value, n: nat)
    requires SameParts(s, x, y)
    ensures DatabasesAgree(s, EqualRows(tables, s.column, x, n), EqualRows(tables, s.column, y, n))
  {
    var rx: Row, ry: Row := map[s.column := x], map[s.column := y];
    assert StoredRowAgrees(s, rx, ry);
    assert StoredAgree(s, seq(n, _ => rx), seq(n, _ => ry));
  }

  /** A raw output column tells apart two values with equal annotated parts. */
  lemma RawOutputIsSensitive(s: Secret, p: Plan, n: nat, k: ColumnKey, x: Value, y: Value)
    requires Resolved(p) && Accepts(s.sem) && Analyze(p, s.sem.units).Ok? && Yield(p, n, s.sem) > 0
    requires DateAnnotation(p, s.sem.units, s.column) == Some(s.units)
    requires k in Analyze(p, s.sem.units).value.output && Bare(s, Analyze(p, s.sem.units).value.output[k])
    requires x != y && SameParts(s, x, y)
    ensures var a, b := EqualRows(Tables(p), s.column, x, n), EqualRows(Tables(p), s.column, y, n);
      DatabasesAgree(s, a, b) && EvalPlan(p, a, s.sem) != EvalPlan(p, b, s.sem)
  {
    AnnotatedIsThrough(s, p);
    var a, b := EqualRows(Tables(p), s.column, x, n), EqualRows(Tables(p), s.column, y, n);
    RowsSurvive(s, p, a, n, x);
    RowsSurvive(s, p, b, n, y);
    assert EvalPlan(p, a, s.sem)[0][k] != EvalPlan(p, b, s.sem)[0][k];
    EqualRowsAgree(s, Tables(p), x, y, n);
  }

  /** Databases that agree in components that determine the date are equal. */
  lemma DeterminedIsSame(t: Setting, sem: Library, a: Database, b: Database)
    requires Determined(t) && sem.part == t.part && DatabasesAgree(SecretOf(t, sem), a, b)
    ensures a == b
  {
    var s := SecretOf(t, sem);
    forall table | table in a ensures a[table] == b[table] {
      assert StoredAgree(s, a[table], b[table]);
      forall i | 0 <= i < |a[table]| ensures a[table][i] == b[table][i] {
        assert StoredRowAgrees(s, a[table][i], b[table][i]);
        SameRow(t, sem, a[table][i], b[table][i]);
      }
    }
  }

  lemma SameRow(t: Setting, sem: Library, a: Row, b: Row)
    requires Determined(t) && sem.part == t.part && StoredRowAgrees(SecretOf(t, sem), a, b)
    ensures a == b
  {
  }

  lemma NoRawIsInsensitive(p: Plan, t: Setting)
    requires Resolved(p) && Analyze(p, t.units).Ok? && DateAnnotation(p, t.units, t.column) == Some(t.parts)
    requires NoRawOutput(p, t)
    ensures Insensitive(p, t)
  {
    forall sem: Library, a: Database, b: Database |
      sem.units == t.units && sem.part == t.part && DatabasesAgree(SecretOf(t, sem), a, b)
      ensures EvalPlan(p, a, sem) == EvalPlan(p, b, sem)
    {
      RawMeansBare(p, t, sem);
      AgreedAnswersEqual(SecretOf(t, sem), p, a, b);
    }
  }

  lemma DeterminedIsInsensitive(p: Plan, t: Setting)
    requires Determined(t)
    ensures Insensitive(p, t)
  {
    forall sem: Library, a: Database, b: Database |
      sem.units == t.units && sem.part == t.part && DatabasesAgree(SecretOf(t, sem), a, b)
      ensures EvalPlan(p, a, sem) == EvalPlan(p, b, sem)
    {
      DeterminedIsSame(t, sem, a, b);
    }
  }

  lemma RawIsSensitive(p: Plan, t: Setting)
    requires Resolved(p) && Analyze(p, t.units).Ok? && CanYield(p, t.units, t.part)
    requires DateAnnotation(p, t.units, t.column) == Some(t.parts)
    requires !NoRawOutput(p, t) && !Determined(t)
    ensures !Insensitive(p, t)
  {
    var n: nat, counts: RowCounts :| Yield(p, n, Accepting(t.units, t.part, counts)) > 0;
    var sem := Accepting(t.units, t.part, counts);
    RawMeansBare(p, t, sem);
    var s, m := SecretOf(t, sem), Analyze(p, t.units).value.output;
    var k :| k in m && Bare(s, m[k]);
    var x, y :| x in t.domain && y in t.domain && (forall u :: u in t.parts ==> t.part(u, x) == t.part(u, y)) && x != y;
    assert SameParts(s, x, y);
    RawOutputIsSensitive(s, p, n, k, x, y);
  }

  /** Exactness: an annotated plan that can return a row is insensitive to everything
      but the annotated parts if and only if no output column is the raw column or the
      annotated parts determine the column's values. */
  lemma NoninterferenceExactly(p: Plan, t: Setting)
    requires Resolved(p) && Analyze(p, t.units).Ok? && CanYield(p, t.units, t.part)
    requires DateAnnotation(p, t.units, t.column) == Some(t.parts)
    ensures Insensitive(p, t) <==> NoRawOutput(p, t) || Determined(t)
  {
    if NoRawOutput(p, t) {
      NoRawIsInsensitive(p, t);
    } else if Determined(t) {
      DeterminedIsInsensitive(p, t);
    } else {
      RawIsSensitive(p, t);
    }
  }

  // ----- which plans can return a row -----

  /** The OFFSET expressions of a plan. */
  function Skips(p: Plan): seq<Expr> {
    match p
    case TableScan(_, _, _) => []
    case Projection(input, _, _) => Skips(input)
    case Aggregate(input, _, _, _) => Skips(input)
    case Filter(input, _) => Skips(input)
    case SubqueryAlias(input, _) => Skips(input)
    case Sort(input, _) => Skips(input)
    case Limit(input, skip, _) => Skips(input) + OptionList(skip)
    case Join(left, right, _, _, _) => Skips(left) + Skips(right)
  }

  /** The LIMIT expressions of a plan. */
  function Fetches(p: Plan): seq<Expr> {
    match p
    case TableScan(_, _, _) => []
    case Projection(input, _, _) => Fetches(input)
    case Aggregate(input, _, _, _) => Fetches(input)
    case Filter(input, _) => Fetches(input)
    case SubqueryAlias(input, _) => Fetches(input)
    case Sort(input, _) => Fetches(input)
    case Limit(input, _, fetch) => Fetches(input) + OptionList(fetch)
    case Join(left, right, _, _, _) => Fetches(left) + Fetches(right)
  }

  /** The value of an OFFSET or LIMIT expression under accepting libraries. */
  function CountValue(e: Expr, units: UnitNames, part: DateParts): Value {
    Eval(e, map[], Accepting(units, part, _ => 0))
  }

  lemma {:induction false} CountValueIs(e: Expr, units: UnitNames, part: DateParts, counts: RowCounts)
    ensures Eval(e, map[], Accepting(units, part, counts)) == CountValue(e, units, part)
  {
    match e
    case Alias(inner) => CountValueIs(inner, units, part, counts);
    case ScalarFunction(_, args) =>
      if IsDatePartCall(e) {
        CountValueIs(args[1], units, part, counts);
      }
    case _ =>
  }

  /** No OFFSET has the value of a LIMIT. */
  ghost predicate Apart(skips: seq<Expr>, fetches: seq<Expr>, units: UnitNames, part: DateParts) {
    forall e, f :: e in skips && f in fetches ==> CountValue(e, units, part) != CountValue(f, units, part)
  }

  /** The values of OFFSET expressions mean no row, all others one. */
  ghost function OneUnlessSkip(skips: seq<Expr>, units: UnitNames, part: DateParts): RowCounts {
    v => if exists e :: e in skips && CountValue(e, units, part) == v then 0 else 1
  }

  lemma {:induction false} OneRowComesThrough(p: Plan, units: UnitNames, part: DateParts, skips: seq<Expr>)
    requires Apart(skips, Fetches(p), units, part) && forall e :: e in Skips(p) ==> e in skips
    ensures Yield(p, 1, Accepting(units, part, OneUnlessSkip(skips, units, part))) == 1
    decreases p, 1
  {
    match p
    case TableScan(_, _, _) =>
    case Projection(input, _, _) => OneRowComesThrough(input, units, part, skips);
    case Aggregate(input, _, _, _) => OneRowComesThrough(input, units, part, skips);
    case Filter(input, _) => OneRowComesThrough(input, units, part, skips);
    case SubqueryAlias(input, _) => OneRowComesThrough(input, units, part, skips);
    case Sort(input, _) => OneRowComesThrough(input, units, part, skips);
    case Limit(_, _, _) => LimitLetsThrough(p, units, part, skips);
    case Join(left, right, _, _, _) =>
      OneRowComesThrough(left, units, part, skips);
      OneRowComesThrough(right, units, part, skips);
  }

  lemma {:induction false} LimitLetsThrough(p: Plan, units: UnitNames, part: DateParts, skips: seq<Expr>)
    requires p.Limit? && Apart(skips, Fetches(p), units, part) && forall e :: e in Skips(p) ==> e in skips
    ensures Yield(p, 1, Accepting(units, part, OneUnlessSkip(skips, units, part))) == 1
    decreases p, 0
  {
    var counts := OneUnlessSkip(skips, units, part);
    OneRowComesThrough(p.input, units, part, skips);
    if p.skip.Some? {
      CountValueIs(p.skip.value, units, part, counts);
      assert p.skip.value in OptionList(p.skip) && p.skip.value in skips;
    }
    if p.fetch.Some? {
      CountValueIs(p.fetch.value, units, part, counts);
      assert p.fetch.value in OptionList(p.fetch) && p.fetch.value in Fetches(p);
    }
  }

  /** A plan in which no OFFSET has the value of a LIMIT can return a row; in
      particular every plan without OFFSET and every plan without LIMIT. */
  lemma ApartCanYield(p: Plan, units: UnitNames, part: DateParts)
    requires Apart(Skips(p), Fetches(p), units, part)
    ensures CanYield(p, units, part)
  {
    OneRowComesThrough(p, units, part, Skips(p));
    assert Yield(p, 1, Accepting(units, part, OneUnlessSkip(Skips(p), units, part))) > 0;
  }

  /** The remaining plans may be empty for good: OFFSET over a LIMIT of the same
      value never returns a row, so it reveals nothing although its column is raw. */
  lemma OffsetPastLimitIsEmpty(input: Plan, e: Expr, db: Database, sem: Library)
    ensures EvalPlan(Limit(Limit(input, None, Some(e)), Some(e), None), db, sem) == []
  {
  }
}
