/** What a date annotation promises: a query cannot tell a date from another
    date that has the same annotated components. */
module Noninterference {
  import opened Common
  import opened LineageLanguage
  import opened LineageAnalysis

  /** The annotated column, its components, the values that it may hold, and what the
      engine's libraries do. */
  datatype Secret = Secret(column: ColumnKey, units: set<Unit>, domain: iset<Value>, sem: Library)

  /** Values of the column that are equal in every annotated component. */
  ghost predicate SameParts(s: Secret, a: Value, b: Value) {
    a in s.domain && b in s.domain && forall u :: u in s.units ==> s.sem.part(u, a) == s.sem.part(u, b)
  }

  /** The usage passes the secret column through unchanged. */
  predicate IsBare(s: Secret, u: ColumnUsage) {
    u.base == s.column && u.operations == []
  }

  predicate Bare(s: Secret, us: seq<ColumnUsage>) {
    exists i :: 0 <= i < |us| && IsBare(s, us[i])
  }

  /** A usage of the secret that sees it only through an annotated component. */
  predicate Through(s: Secret, u: ColumnUsage) {
    u.base == s.column ==> u.operations != [] && u.operations[0].Extract? && u.operations[0].unit in s.units
  }

  predicate AllThrough(s: Secret, us: seq<ColumnUsage>) {
    forall i :: 0 <= i < |us| ==> Through(s, us[i])
  }

  predicate Admissible(s: Secret, us: seq<ColumnUsage>) {
    forall i :: 0 <= i < |us| ==> Through(s, us[i]) || IsBare(s, us[i])
  }

  /** Values of a column with the given lineage in two runs: equal, unless the
      column still is the raw secret, which then agrees in the components. */
  ghost predicate Related(s: Secret, us: seq<ColumnUsage>, a: Value, b: Value) {
    a == b || (Bare(s, us) && SameParts(s, a, b))
  }

  ghost predicate RowsAgree(s: Secret, m: LineageMap, a: Row, b: Row) {
    a.Keys == b.Keys == m.Keys && forall k :: k in m ==> Related(s, m[k], a[k], b[k])
  }

  ghost predicate TablesAgree(s: Secret, m: LineageMap, as_: seq<Row>, bs: seq<Row>) {
    |as_| == |bs| && forall i :: 0 <= i < |as_| ==> RowsAgree(s, m, as_[i], bs[i])
  }

  /** Two databases that differ at most in the secret column, row by row equal
      in its annotated components. */
  ghost predicate DatabasesAgree(s: Secret, a: Database, b: Database) {
    a.Keys == b.Keys &&
    forall t :: t in a ==> StoredAgree(s, a[t], b[t])
  }

  ghost predicate StoredAgree(s: Secret, a: seq<Row>, b: seq<Row>) {
    |a| == |b| && forall i :: 0 <= i < |a| ==> StoredRowAgrees(s, a[i], b[i])
  }

  ghost predicate StoredRowAgrees(s: Secret, a: Row, b: Row) {
    a.Keys == b.Keys &&
    forall k :: k in a ==> a[k] == b[k] || (k == s.column && SameParts(s, a[k], b[k]))
  }

  // ----- well-resolved plans -----

  /** Every column is one of `keys`. The type argument of `variant_get` is a literal:
      the function refuses any other when the schema of the plan is derived. */
  predicate ResolvedExpr(e: Expr, keys: set<ColumnKey>)
    decreases e, 1
  {
    match e
    case Column(key) => key in keys
    case Alias(inner) => ResolvedExpr(inner, keys)
    case Literal(_) => true
    case ScalarFunction(_, args) =>
      ResolvedAll(args, keys) && (IsVariantGet(e) && |args| == 3 ==> args[2].Literal?)
    case Like(inner, pattern, _, _) => ResolvedExpr(inner, keys) && ResolvedExpr(pattern, keys)
    case Cast(inner, _) => ResolvedExpr(inner, keys)
    case TryCast(inner, _) => ResolvedExpr(inner, keys)
    case AggregateFunction(_, args) => ResolvedAll(args, keys)
    case Other(_, children) => ResolvedAll(children, keys)
  }

  predicate ResolvedAll(es: seq<Expr>, keys: set<ColumnKey>)
    ensures ResolvedAll(es, keys) ==> forall i :: 0 <= i < |es| ==> ResolvedExpr(es[i], keys)
    decreases es, 0
  {
    es == [] || (ResolvedExpr(es[0], keys) && ResolvedAll(es[1..], keys))
  }

  function KeySet(p: Plan): set<ColumnKey> {
    var keys := Keys(Schema(p));
    set i | 0 <= i < |keys| :: keys[i]
  }

  predicate IsAggregateExpr(e: Expr) {
    match e
    case Alias(inner) => IsAggregateExpr(inner)
    case AggregateFunction(_, _) => true
    case _ => false
  }

  predicate Resolved(p: Plan) {
    match p
    case TableScan(_, _, filters) => ResolvedAll(filters, KeySet(p))
    case Projection(input, exprs, out) => Resolved(input) && |exprs| == |out| && ResolvedAll(exprs, KeySet(input))
    case Filter(input, predicate_) => Resolved(input) && ResolvedExpr(predicate_, KeySet(input))
    case Aggregate(input, group, aggr, out) =>
      Resolved(input) && |group| + |aggr| == |out| &&
      ResolvedAll(group, KeySet(input)) && ResolvedAll(aggr, KeySet(input)) &&
      forall i :: 0 <= i < |aggr| ==> IsAggregateExpr(aggr[i])
    case Join(left, right, on, filter, out) =>
      Resolved(left) && Resolved(right) && |out| == |Schema(left)| + |Schema(right)| &&
      (forall i :: 0 <= i < |on| ==> ResolvedExpr(on[i].0, KeySet(left)) && ResolvedExpr(on[i].1, KeySet(right))) &&
      (filter.Some? ==> ResolvedExpr(filter.value, KeySet(left) + KeySet(right)))
    case SubqueryAlias(input, out) => Resolved(input) && |out| == |Schema(input)|
    case Sort(input, keys) => Resolved(input) && ResolvedAll(keys, KeySet(input))
    case Limit(input, _, _) => Resolved(input)
  }

  // ----- expressions -----

  lemma RelatedMonotone(s: Secret, small: seq<ColumnUsage>, big: seq<ColumnUsage>, a: Value, b: Value)
    requires Related(s, small, a, b)
    requires forall i :: 0 <= i < |small| ==> small[i] in big
    ensures Related(s, big, a, b)
  {
    if a != b {
      var i :| 0 <= i < |small| && IsBare(s, small[i]);
      var j :| 0 <= j < |big| && big[j] == small[i];
    }
  }

  /** A pushed operation makes every usage non-bare, so if the result is
      admissible the operand was, and unless the operation is an annotated
      extraction the operand was already equal in both runs. */
  lemma PushedOperand(s: Secret, us: seq<ColumnUsage>, op: Operation)
    requires Admissible(s, PushOp(us, op))
    ensures Admissible(s, us) && AllThrough(s, PushOp(us, op))
    ensures Bare(s, us) ==> op.Extract? && op.unit in s.units
    ensures !op.Extract? ==> AllThrough(s, us)
  {
    var pushed := PushOp(us, op);
    forall i | 0 <= i < |us|
      ensures Through(s, us[i]) || (IsBare(s, us[i]) && op.Extract? && op.unit in s.units)
      ensures Through(s, pushed[i])
    {
      assert pushed[i].base == us[i].base && pushed[i].operations == us[i].operations + [op];
      assert Through(s, pushed[i]) || IsBare(s, pushed[i]);
    }
  }

  lemma ThroughIsNotBare(s: Secret, us: seq<ColumnUsage>)
    requires AllThrough(s, us)
    ensures !Bare(s, us) && Admissible(s, us)
  {
  }

  /** Expressions respect the relation whenever their lineage is admissible. */
  lemma {:induction false} ExprRelated(s: Secret, e: Expr, m: LineageMap, schema: seq<Field>, a: Row, b: Row)
    requires ResolvedExpr(e, m.Keys) && RowsAgree(s, m, a, b)
    requires LineageForExpr(e, m, schema, s.sem.units).Ok?
    requires Admissible(s, LineageForExpr(e, m, schema, s.sem.units).value)
    ensures Related(s, LineageForExpr(e, m, schema, s.sem.units).value, Eval(e, a, s.sem), Eval(e, b, s.sem))
    decreases e, 1
  {
    match e
    case Column(key) =>
    case Literal(_) =>
    case AggregateFunction(_, _) =>
    case Alias(inner) => ExprRelated(s, inner, m, schema, a, b);
    case Cast(inner, _) => OperandEqual(s, inner, OtherOp, m, schema, a, b);
    case TryCast(inner, _) => OperandEqual(s, inner, OtherOp, m, schema, a, b);
    case Other(_, children) => ChildrenEqual(s, children, m, schema, a, b);
    case Like(inner, pattern, ci, esc) =>
      if !ci && !esc && IsText(pattern) && IsSubstringPattern(pattern.value.s) {
        OperandEqual(s, inner, SubstringSearch, m, schema, a, b);
      } else {
        var us := LineageForExpr(inner, m, schema, s.sem.units).value;
        var vs := LineageForExpr(pattern, m, schema, s.sem.units).value;
        AdmissibleParts(s, PushOp(us, OtherOp), PushOp(vs, OtherOp));
        OperandEqual(s, inner, OtherOp, m, schema, a, b);
        OperandEqual(s, pattern, OtherOp, m, schema, a, b);
      }
    case ScalarFunction(_, args) =>
      if IsDatePart(e, s.sem.units) {
        DatePartRelated(s, e, m, schema, a, b);
      } else if IsVariantGet(e) {
        VariantGetRelated(s, e, m, schema, a, b);
      } else {
        ChildrenEqual(s, args, m, schema, a, b);
      }
  }

  /** Path and type arguments are literals, so only the first argument matters. */
  lemma {:induction false} VariantGetRelated(s: Secret, e: Expr, m: LineageMap, schema: seq<Field>, a: Row, b: Row)
    requires IsVariantGet(e) && !IsDatePart(e, s.sem.units) && ResolvedExpr(e, m.Keys) && RowsAgree(s, m, a, b)
    requires LineageForExpr(e, m, schema, s.sem.units).Ok?
    requires Admissible(s, LineageForExpr(e, m, schema, s.sem.units).value)
    ensures Eval(e, a, s.sem) == Eval(e, b, s.sem)
    decreases e, 0
  {
    OperandEqual(s, e.args[0], VariantGet(e.args[1].value.s), m, schema, a, b);
    assert EvalAll(e.args, a, s.sem) == EvalAll(e.args, b, s.sem);
  }

  lemma AdmissibleParts(s: Secret, us: seq<ColumnUsage>, vs: seq<ColumnUsage>)
    requires Admissible(s, us + vs)
    ensures Admissible(s, us) && Admissible(s, vs)
  {
    assert forall i :: 0 <= i < |us| ==> us[i] == (us + vs)[i];
    assert forall i :: 0 <= i < |vs| ==> vs[i] == (us + vs)[|us| + i];
  }

  lemma AllThroughParts(s: Secret, us: seq<ColumnUsage>, vs: seq<ColumnUsage>)
    requires AllThrough(s, us + vs)
    ensures AllThrough(s, us) && AllThrough(s, vs)
  {
    assert forall i :: 0 <= i < |us| ==> us[i] == (us + vs)[i];
    assert forall i :: 0 <= i < |vs| ==> vs[i] == (us + vs)[|us| + i];
  }

  /** An operand under any operation other than an extraction is equal in both runs. */
  lemma {:induction false} OperandEqual(s: Secret, e: Expr, op: Operation, m: LineageMap, schema: seq<Field>, a: Row, b: Row)
    requires ResolvedExpr(e, m.Keys) && RowsAgree(s, m, a, b) && !op.Extract?
    requires LineageForExpr(e, m, schema, s.sem.units).Ok?
    requires Admissible(s, PushOp(LineageForExpr(e, m, schema, s.sem.units).value, op))
    ensures Eval(e, a, s.sem) == Eval(e, b, s.sem)
    decreases e, 2
  {
    PushedOperand(s, LineageForExpr(e, m, schema, s.sem.units).value, op);
    ThroughIsNotBare(s, LineageForExpr(e, m, schema, s.sem.units).value);
    ExprRelated(s, e, m, schema, a, b);
  }

  lemma {:induction false} ChildrenEqual(s: Secret, es: seq<Expr>, m: LineageMap, schema: seq<Field>, a: Row, b: Row)
    requires ResolvedAll(es, m.Keys) && RowsAgree(s, m, a, b)
    requires PropagateOther(es, m, schema, s.sem.units).Ok?
    requires Admissible(s, PropagateOther(es, m, schema, s.sem.units).value)
    ensures EvalAll(es, a, s.sem) == EvalAll(es, b, s.sem)
    decreases es, 0
  {
    if es != [] {
      var us := LineageForExpr(es[0], m, schema, s.sem.units).value;
      var rest := PropagateOther(es[1..], m, schema, s.sem.units).value;
      AdmissibleParts(s, PushOp(us, OtherOp), rest);
      OperandEqual(s, es[0], OtherOp, m, schema, a, b);
      ChildrenEqual(s, es[1..], m, schema, a, b);
    }
  }

  /** The one place where a raw secret may be looked at: an extraction of an
      annotated component gives the same value in both runs. */
  lemma {:induction false} DatePartRelated(s: Secret, e: Expr, m: LineageMap, schema: seq<Field>, a: Row, b: Row)
    requires IsDatePart(e, s.sem.units) && ResolvedExpr(e, m.Keys) && RowsAgree(s, m, a, b)
    requires LineageForExpr(e, m, schema, s.sem.units).Ok?
    requires Admissible(s, LineageForExpr(e, m, schema, s.sem.units).value)
    ensures Eval(e, a, s.sem) == Eval(e, b, s.sem)
    decreases e, 0
  {
    var unit := PartToUnit(e.args[0], s.sem.units).value;
    var us := LineageForExpr(e.args[1], m, schema, s.sem.units).value;
    PushedOperand(s, us, Extract(unit));
    ExprRelated(s, e.args[1], m, schema, a, b);
  }

  /** A recorded expression has the same value in both runs. */
  lemma RecordedEqual(s: Secret, e: Expr, m: LineageMap, schema: seq<Field>, a: Row, b: Row)
    requires ResolvedExpr(e, m.Keys) && RowsAgree(s, m, a, b)
    requires LineageForExpr(e, m, schema, s.sem.units).Ok?
    requires AllThrough(s, LineageForExpr(e, m, schema, s.sem.units).value)
    ensures Eval(e, a, s.sem) == Eval(e, b, s.sem)
  {
    ThroughIsNotBare(s, LineageForExpr(e, m, schema, s.sem.units).value);
    ExprRelated(s, e, m, schema, a, b);
  }

  lemma {:induction false} FlattenThrough(s: Secret, uss: seq<seq<ColumnUsage>>, i: nat)
    requires AllThrough(s, Flatten(uss)) && i < |uss|
    ensures AllThrough(s, uss[i])
  {
    var n := |uss| - 1;
    var before, last := Flatten(uss[..n]), uss[n];
    assert forall j :: 0 <= j < |before| ==> before[j] == (before + last)[j];
    assert forall j :: 0 <= j < |last| ==> last[j] == (before + last)[|before| + j];
    if i < n {
      FlattenThrough(s, uss[..n], i);
    }
  }

  /** A recorded expression list has the same values in both runs. */
  lemma RecordedAllEqual(s: Secret, es: seq<Expr>, m: LineageMap, schema: seq<Field>, a: Row, b: Row)
    requires ResolvedAll(es, m.Keys) && RowsAgree(s, m, a, b)
    requires UsagesOf(es, m, schema, s.sem.units).Ok?
    requires AllThrough(s, Flatten(UsagesOf(es, m, schema, s.sem.units).value))
    ensures EvalAll(es, a, s.sem) == EvalAll(es, b, s.sem)
  {
    forall i | 0 <= i < |es| ensures Eval(es[i], a, s.sem) == Eval(es[i], b, s.sem) {
      FlattenThrough(s, UsagesOf(es, m, schema, s.sem.units).value, i);
      RecordedEqual(s, es[i], m, schema, a, b);
    }
  }

  // ----- rows -----

  /** Zipping related values under the same names gives rows that agree. */
  lemma {:induction false} ZipAgree(s: Secret, keys: seq<ColumnKey>, uss: seq<seq<ColumnUsage>>, a: seq<Value>, b: seq<Value>)
    requires |keys| == |uss| == |a| == |b|
    requires forall i :: 0 <= i < |uss| ==> Related(s, uss[i], a[i], b[i])
    ensures RowsAgree(s, ZipMap(keys, uss), ZipMap(keys, a), ZipMap(keys, b))
  {
    if keys != [] {
      var n := |keys| - 1;
      ZipAgree(s, keys[..n], uss[..n], a[..n], b[..n]);
    }
  }

  lemma PickRelated(s: Secret, m: LineageMap, keys: seq<ColumnKey>, a: Row, b: Row)
    requires RowsAgree(s, m, a, b)
    ensures forall i :: 0 <= i < |keys| ==> Related(s, LookUp(m, keys)[i], Pick(a, keys)[i], Pick(b, keys)[i])
  {
  }

  lemma ConsAgree(s: Secret, m: LineageMap, keep: bool, a: Row, b: Row, as_: seq<Row>, bs: seq<Row>)
    requires RowsAgree(s, m, a, b) && TablesAgree(s, m, as_, bs)
    ensures TablesAgree(s, m, (if keep then [a] else []) + as_, (if keep then [b] else []) + bs)
  {
  }

  lemma {:induction false} KeepAgree(s: Secret, m: LineageMap, es: seq<Expr>, schema: seq<Field>, a: seq<Row>, b: seq<Row>)
    requires TablesAgree(s, m, a, b) && ResolvedAll(es, m.Keys)
    requires UsagesOf(es, m, schema, s.sem.units).Ok?
    requires AllThrough(s, Flatten(UsagesOf(es, m, schema, s.sem.units).value))
    ensures TablesAgree(s, m, Keep(a, es, s.sem), Keep(b, es, s.sem))
  {
    if a != [] {
      RecordedAllEqual(s, es, m, schema, a[0], b[0]);
      SameValuesHold(es, a[0], b[0], s.sem);
      KeepAgree(s, m, es, schema, a[1..], b[1..]);
      ConsAgree(s, m, Holds(es, a[0], s.sem), a[0], b[0], Keep(a[1..], es, s.sem), Keep(b[1..], es, s.sem));
    }
  }

  lemma SameValuesHold(es: seq<Expr>, a: Row, b: Row, sem: Semantics)
    requires EvalAll(es, a, sem) == EvalAll(es, b, sem)
    ensures Holds(es, a, sem) == Holds(es, b, sem)
  {
    assert forall i :: 0 <= i < |es| ==> Eval(es[i], a, sem) == EvalAll(es, a, sem)[i];
    assert forall i :: 0 <= i < |es| ==> Eval(es[i], b, sem) == EvalAll(es, b, sem)[i];
  }

  // ----- joins -----

  /** What the analysis of a join knows and what the induction has for its sides. */
  ghost predicate JoinContext(s: Secret, j: Plan, l: LineageMap, r: LineageMap) {
    && j.Join? && Resolved(j) && l.Keys == KeySet(j.left) && r.Keys == KeySet(j.right)
    && OnUsages(j.on, j, l, r, s.sem.units).Ok?
    && AllThrough(s, OnUsages(j.on, j, l, r, s.sem.units).value)
    && UsagesOf(OptionList(j.filter), MergeMaps(l, r), j.out, s.sem.units).Ok?
    && AllThrough(s, Flatten(UsagesOf(OptionList(j.filter), MergeMaps(l, r), j.out, s.sem.units).value))
  }

  function JoinOutput(j: Plan, l: LineageMap, r: LineageMap): LineageMap
    requires j.Join?
  {
    ZipMap(Keys(j.out), LookUp(l, Keys(Schema(j.left))) + LookUp(r, Keys(Schema(j.right))))
  }

  lemma {:induction false} OnThrough(s: Secret, on: seq<(Expr, Expr)>, j: Plan, l: LineageMap, r: LineageMap, i: nat)
    requires j.Join? && i < |on| && OnUsages(on, j, l, r, s.sem.units).Ok?
    requires AllThrough(s, OnUsages(on, j, l, r, s.sem.units).value)
    ensures LineageForExpr(on[i].0, l, Schema(j.left), s.sem.units).Ok?
    ensures LineageForExpr(on[i].1, r, Schema(j.right), s.sem.units).Ok?
    ensures AllThrough(s, LineageForExpr(on[i].0, l, Schema(j.left), s.sem.units).value)
    ensures AllThrough(s, LineageForExpr(on[i].1, r, Schema(j.right), s.sem.units).value)
  {
    var n := |on| - 1;
    var before := OnUsages(on[..n], j, l, r, s.sem.units).value;
    var lu := LineageForExpr(on[n].0, l, Schema(j.left), s.sem.units).value;
    var ru := LineageForExpr(on[n].1, r, Schema(j.right), s.sem.units).value;
    AllThroughParts(s, before + lu, ru);
    AllThroughParts(s, before, lu);
    if i < n {
      OnThrough(s, on[..n], j, l, r, i);
    }
  }

  /** The merged row agrees under the merged lineage that the join filter sees. */
  lemma MergedAgree(s: Secret, l: LineageMap, r: LineageMap, la: Row, lb: Row, ra: Row, rb: Row)
    requires RowsAgree(s, l, la, lb) && RowsAgree(s, r, ra, rb)
    ensures RowsAgree(s, MergeMaps(l, r), la + ra, lb + rb)
  {
    var m := MergeMaps(l, r);
    forall k | k in m ensures Related(s, m[k], (la + ra)[k], (lb + rb)[k]) {
      if k in r {
        RelatedMonotone(s, r[k], m[k], ra[k], rb[k]);
      } else {
        RelatedMonotone(s, l[k], m[k], la[k], lb[k]);
      }
    }
  }

  lemma MatchEqual(s: Secret, j: Plan, l: LineageMap, r: LineageMap, la: Row, lb: Row, ra: Row, rb: Row)
    requires JoinContext(s, j, l, r) && RowsAgree(s, l, la, lb) && RowsAgree(s, r, ra, rb)
    ensures JoinMatches(la, ra, j.on, j.filter, s.sem) == JoinMatches(lb, rb, j.on, j.filter, s.sem)
  {
    forall i | 0 <= i < |j.on|
      ensures Eval(j.on[i].0, la, s.sem) == Eval(j.on[i].0, lb, s.sem)
      ensures Eval(j.on[i].1, ra, s.sem) == Eval(j.on[i].1, rb, s.sem)
    {
      OnThrough(s, j.on, j, l, r, i);
      RecordedEqual(s, j.on[i].0, l, Schema(j.left), la, lb);
      RecordedEqual(s, j.on[i].1, r, Schema(j.right), ra, rb);
    }
    if j.filter.Some? {
      MergedAgree(s, l, r, la, lb, ra, rb);
      FlattenThrough(s, UsagesOf([j.filter.value], MergeMaps(l, r), j.out, s.sem.units).value, 0);
      RecordedEqual(s, j.filter.value, MergeMaps(l, r), j.out, la + ra, lb + rb);
    }
  }

  lemma JoinedAgree(s: Secret, j: Plan, l: LineageMap, r: LineageMap, la: Row, lb: Row, ra: Row, rb: Row)
    requires j.Join? && |j.out| == |Schema(j.left)| + |Schema(j.right)|
    requires RowsAgree(s, l, la, lb) && RowsAgree(s, r, ra, rb)
    ensures RowsAgree(s, JoinOutput(j, l, r), JoinedRow(la, ra, j), JoinedRow(lb, rb, j))
  {
    var lk, rk := Keys(Schema(j.left)), Keys(Schema(j.right));
    PickRelated(s, l, lk, la, lb);
    PickRelated(s, r, rk, ra, rb);
    RelatedAppend(s, LookUp(l, lk), Pick(la, lk), Pick(lb, lk), LookUp(r, rk), Pick(ra, rk), Pick(rb, rk));
    ZipAgree(s, Keys(j.out), LookUp(l, lk) + LookUp(r, rk), Pick(la, lk) + Pick(ra, rk), Pick(lb, lk) + Pick(rb, rk));
  }

  lemma RelatedAppend(s: Secret, u: seq<seq<ColumnUsage>>, a: seq<Value>, b: seq<Value>,
                      v: seq<seq<ColumnUsage>>, c: seq<Value>, d: seq<Value>)
    requires |u| == |a| == |b| && |v| == |c| == |d|
    requires forall i :: 0 <= i < |u| ==> Related(s, u[i], a[i], b[i])
    requires forall i :: 0 <= i < |v| ==> Related(s, v[i], c[i], d[i])
    ensures forall i :: 0 <= i < |u + v| ==> Related(s, (u + v)[i], (a + c)[i], (b + d)[i])
  {
    forall i | 0 <= i < |u + v| ensures Related(s, (u + v)[i], (a + c)[i], (b + d)[i]) {
      if i >= |u| {
        assert Related(s, v[i - |u|], c[i - |u|], d[i - |u|]);
      }
    }
  }

  lemma TablesAppend(s: Secret, m: LineageMap, a: seq<Row>, b: seq<Row>, c: seq<Row>, d: seq<Row>)
    requires TablesAgree(s, m, a, b) && TablesAgree(s, m, c, d)
    ensures TablesAgree(s, m, a + c, b + d)
  {
  }

  lemma {:induction false} JoinOneAgree(s: Secret, j: Plan, l: LineageMap, r: LineageMap, la: Row, lb: Row, ra: seq<Row>, rb: seq<Row>)
    requires JoinContext(s, j, l, r) && RowsAgree(s, l, la, lb) && TablesAgree(s, r, ra, rb)
    ensures TablesAgree(s, JoinOutput(j, l, r), JoinOne(la, ra, j, s.sem), JoinOne(lb, rb, j, s.sem))
  {
    if ra != [] {
      var m := JoinOutput(j, l, r);
      MatchEqual(s, j, l, r, la, lb, ra[0], rb[0]);
      JoinedAgree(s, j, l, r, la, lb, ra[0], rb[0]);
      JoinOneAgree(s, j, l, r, la, lb, ra[1..], rb[1..]);
      if JoinMatches(la, ra[0], j.on, j.filter, s.sem) {
        TablesAppend(s, m, [JoinedRow(la, ra[0], j)], [JoinedRow(lb, rb[0], j)],
                     JoinOne(la, ra[1..], j, s.sem), JoinOne(lb, rb[1..], j, s.sem));
      } else {
        TablesAppend(s, m, [], [], JoinOne(la, ra[1..], j, s.sem), JoinOne(lb, rb[1..], j, s.sem));
      }
    }
  }

  lemma {:induction false} JoinRowsAgree(s: Secret, j: Plan, l: LineageMap, r: LineageMap, la: seq<Row>, lb: seq<Row>, ra: seq<Row>, rb: seq<Row>)
    requires JoinContext(s, j, l, r) && TablesAgree(s, l, la, lb) && TablesAgree(s, r, ra, rb)
    ensures TablesAgree(s, JoinOutput(j, l, r), JoinRows(la, ra, j, s.sem), JoinRows(lb, rb, j, s.sem))
  {
    if la != [] {
      JoinOneAgree(s, j, l, r, la[0], lb[0], ra, rb);
      JoinRowsAgree(s, j, l, r, la[1..], lb[1..], ra, rb);
      TablesAppend(s, JoinOutput(j, l, r), JoinOne(la[0], ra, j, s.sem), JoinOne(lb[0], rb, j, s.sem),
                   JoinRows(la[1..], ra, j, s.sem), JoinRows(lb[1..], rb, j, s.sem));
    }
  }

  // ----- aggregation -----

  lemma {:induction false} MembersAgree(s: Secret, m: LineageMap, keys: seq<seq<Value>>, key: seq<Value>, a: seq<Row>, b: seq<Row>)
    requires TablesAgree(s, m, a, b) && |keys| == |a|
    ensures TablesAgree(s, m, Members(a, keys, key), Members(b, keys, key))
  {
    if a != [] {
      MembersAgree(s, m, keys[1..], key, a[1..], b[1..]);
      ConsAgree(s, m, keys[0] == key, a[0], b[0], Members(a[1..], keys[1..], key), Members(b[1..], keys[1..], key));
    }
  }

  /** An aggregate over agreeing groups is equal, since its arguments are. */
  lemma {:induction false} AggregateEqual(s: Secret, e: Expr, m: LineageMap, schema: seq<Field>, a: seq<Row>, b: seq<Row>)
    requires TablesAgree(s, m, a, b) && ResolvedExpr(e, m.Keys)
    requires LineageForExpr(e, m, schema, s.sem.units).Ok?
    requires AllThrough(s, LineageForExpr(e, m, schema, s.sem.units).value)
    ensures EvalAggregate(e, a, s.sem) == EvalAggregate(e, b, s.sem)
  {
    match e
    case Alias(inner) => AggregateEqual(s, inner, m, schema, a, b);
    case AggregateFunction(_, args) =>
      ThroughIsNotBare(s, PropagateOther(args, m, schema, s.sem.units).value);
      forall i | 0 <= i < |a| ensures EvalAll(args, a[i], s.sem) == EvalAll(args, b[i], s.sem) {
        ChildrenEqual(s, args, m, schema, a[i], b[i]);
      }
      assert seq(|a|, i requires 0 <= i < |a| => EvalAll(args, a[i], s.sem)) ==
             seq(|b|, i requires 0 <= i < |b| => EvalAll(args, b[i], s.sem));
    case _ =>
  }

  /** Grouping and aggregation give identical rows. */
  lemma AggregateRowsEqual(s: Secret, p: Plan, m: LineageMap, a: seq<Row>, b: seq<Row>)
    requires p.Aggregate? && Resolved(p) && m.Keys == KeySet(p.input) && TablesAgree(s, m, a, b)
    requires UsagesOf(p.group + p.aggr, m, Schema(p.input), s.sem.units).Ok?
    requires AllThrough(s, Flatten(UsagesOf(p.group + p.aggr, m, Schema(p.input), s.sem.units).value))
    ensures AggregateRows(a, p.group, p.aggr, p.out, s.sem) == AggregateRows(b, p.group, p.aggr, p.out, s.sem)
  {
    var schema := Schema(p.input);
    var uss := UsagesOf(p.group + p.aggr, m, schema, s.sem.units).value;
    forall i | 0 <= i < |a| ensures EvalAll(p.group, a[i], s.sem) == EvalAll(p.group, b[i], s.sem) {
      forall g | 0 <= g < |p.group| ensures Eval(p.group[g], a[i], s.sem) == Eval(p.group[g], b[i], s.sem) {
        FlattenThrough(s, uss, g);
        assert (p.group + p.aggr)[g] == p.group[g];
        RecordedEqual(s, p.group[g], m, schema, a[i], b[i]);
      }
    }
    var keys := GroupKeys(a, p.group, s.sem);
    assert keys == GroupKeys(b, p.group, s.sem);
    forall key ensures EvalAggregates(p.aggr, Members(a, keys, key), s.sem) == EvalAggregates(p.aggr, Members(b, keys, key), s.sem) {
      MembersAgree(s, m, keys, key, a, b);
      forall g | 0 <= g < |p.aggr|
        ensures EvalAggregate(p.aggr[g], Members(a, keys, key), s.sem) == EvalAggregate(p.aggr[g], Members(b, keys, key), s.sem)
      {
        FlattenThrough(s, uss, |p.group| + g);
        assert (p.group + p.aggr)[|p.group| + g] == p.aggr[g];
        AggregateEqual(s, p.aggr[g], m, schema, Members(a, keys, key), Members(b, keys, key));
      }
    }
  }

  // ----- sorting -----

  ghost predicate KeyedAgree(s: Secret, m: LineageMap, a: seq<(seq<Value>, Row)>, b: seq<(seq<Value>, Row)>) {
    |a| == |b| && forall i :: 0 <= i < |a| ==> a[i].0 == b[i].0 && RowsAgree(s, m, a[i].1, b[i].1)
  }

  lemma {:induction false} InsertAgree(s: Secret, m: LineageMap, key: seq<Value>, ra: Row, rb: Row, a: seq<(seq<Value>, Row)>, b: seq<(seq<Value>, Row)>)
    requires RowsAgree(s, m, ra, rb) && KeyedAgree(s, m, a, b)
    ensures KeyedAgree(s, m, InsertSorted(key, ra, a, s.sem), InsertSorted(key, rb, b, s.sem))
  {
    var sem := s.sem;
    if a == [] {
      assert InsertSorted(key, ra, a, sem) == [(key, ra)] && InsertSorted(key, rb, b, sem) == [(key, rb)];
    } else if sem.before(a[0].0, key) {
      InsertAgree(s, m, key, ra, rb, a[1..], b[1..]);
      KeyedCons(s, m, a[0], b[0], InsertSorted(key, ra, a[1..], sem), InsertSorted(key, rb, b[1..], sem));
    } else {
      KeyedCons(s, m, (key, ra), (key, rb), a, b);
    }
  }

  lemma KeyedCons(s: Secret, m: LineageMap, x: (seq<Value>, Row), y: (seq<Value>, Row), a: seq<(seq<Value>, Row)>, b: seq<(seq<Value>, Row)>)
    requires x.0 == y.0 && RowsAgree(s, m, x.1, y.1) && KeyedAgree(s, m, a, b)
    ensures KeyedAgree(s, m, [x] + a, [y] + b)
  {
  }

  lemma {:induction false} SortAgree(s: Secret, m: LineageMap, keys: seq<Expr>, schema: seq<Field>, a: seq<Row>, b: seq<Row>)
    requires TablesAgree(s, m, a, b) && ResolvedAll(keys, m.Keys)
    requires UsagesOf(keys, m, schema, s.sem.units).Ok?
    requires AllThrough(s, Flatten(UsagesOf(keys, m, schema, s.sem.units).value))
    ensures KeyedAgree(s, m, SortRows(a, keys, s.sem), SortRows(b, keys, s.sem))
  {
    if a != [] {
      RecordedAllEqual(s, keys, m, schema, a[0], b[0]);
      SortAgree(s, m, keys, schema, a[1..], b[1..]);
      InsertAgree(s, m, EvalAll(keys, a[0], s.sem), a[0], b[0],
                  SortRows(a[1..], keys, s.sem), SortRows(b[1..], keys, s.sem));
    }
  }

  // ----- plans -----

  /** The output lineage has exactly the columns of the schema. */
  lemma {:induction false} OutputKeys(p: Plan, units: UnitNames)
    requires Resolved(p) && Analyze(p, units).Ok?
    ensures Analyze(p, units).value.output.Keys == KeySet(p)
  {
    match p
    case TableScan(_, _, _) =>
    case Projection(_, _, _) =>
    case Aggregate(_, _, _, _) =>
    case Join(_, _, _, _, _) =>
    case SubqueryAlias(_, _) =>
    case Filter(input, _) => OutputKeys(input, units);
    case Sort(input, _) => OutputKeys(input, units);
    case Limit(input, _, _) => OutputKeys(input, units);
  }

  lemma ScanAgrees(s: Secret, p: Plan, a: Database, b: Database)
    requires p.TableScan? && Resolved(p) && Analyze(p, s.sem.units).Ok? && DatabasesAgree(s, a, b)
    requires AllThrough(s, Analyze(p, s.sem.units).value.recorded)
    ensures TablesAgree(s, Analyze(p, s.sem.units).value.output, EvalPlan(p, a, s.sem), EvalPlan(p, b, s.sem))
  {
    var m := Analyze(p, s.sem.units).value.output;
    var keys := Keys(p.fields);
    var sa := if p.table in a then a[p.table] else [];
    var sb := if p.table in b then b[p.table] else [];
    assert StoredAgree(s, sa, sb);
    var ra := seq(|sa|, i requires 0 <= i < |sa| => ZipMap(keys, Pick(sa[i], keys)));
    var rb := seq(|sb|, i requires 0 <= i < |sb| => ZipMap(keys, Pick(sb[i], keys)));
    forall i | 0 <= i < |sa| ensures RowsAgree(s, m, ra[i], rb[i]) {
      assert StoredRowAgrees(s, sa[i], sb[i]);
      var uss := BaseUsages(p.fields);
      forall k | 0 <= k < |keys| ensures Related(s, uss[k], Pick(sa[i], keys)[k], Pick(sb[i], keys)[k]) {
        assert keys[k] == s.column ==> IsBare(s, uss[k][0]);
      }
      ZipAgree(s, keys, uss, Pick(sa[i], keys), Pick(sb[i], keys));
    }
    OutputKeys(p, s.sem.units);
    KeepAgree(s, m, p.filters, p.fields, ra, rb);
  }

  lemma ProjectionAgrees(s: Secret, p: Plan, m: LineageMap, a: seq<Row>, b: seq<Row>)
    requires p.Projection? && Resolved(p) && m.Keys == KeySet(p.input) && TablesAgree(s, m, a, b)
    requires UsagesOf(p.exprs, m, Schema(p.input), s.sem.units).Ok?
    requires AllThrough(s, Flatten(UsagesOf(p.exprs, m, Schema(p.input), s.sem.units).value))
    ensures TablesAgree(s, ZipMap(Keys(p.out), UsagesOf(p.exprs, m, Schema(p.input), s.sem.units).value),
                        seq(|a|, i requires 0 <= i < |a| => ZipMap(Keys(p.out), EvalAll(p.exprs, a[i], s.sem))),
                        seq(|b|, i requires 0 <= i < |b| => ZipMap(Keys(p.out), EvalAll(p.exprs, b[i], s.sem))))
  {
    var uss := UsagesOf(p.exprs, m, Schema(p.input), s.sem.units).value;
    forall i | 0 <= i < |a|
      ensures RowsAgree(s, ZipMap(Keys(p.out), uss), ZipMap(Keys(p.out), EvalAll(p.exprs, a[i], s.sem)), ZipMap(Keys(p.out), EvalAll(p.exprs, b[i], s.sem)))
    {
      RecordedAllEqual(s, p.exprs, m, Schema(p.input), a[i], b[i]);
      ZipAgree(s, Keys(p.out), uss, EvalAll(p.exprs, a[i], s.sem), EvalAll(p.exprs, b[i], s.sem));
    }
  }

  lemma AliasAgrees(s: Secret, p: Plan, m: LineageMap, a: seq<Row>, b: seq<Row>)
    requires p.SubqueryAlias? && Resolved(p) && TablesAgree(s, m, a, b)
    ensures TablesAgree(s, ZipMap(Keys(p.out), LookUp(m, Keys(Schema(p.input)))),
                        seq(|a|, i requires 0 <= i < |a| => ZipMap(Keys(p.out), Pick(a[i], Keys(Schema(p.input))))),
                        seq(|b|, i requires 0 <= i < |b| => ZipMap(Keys(p.out), Pick(b[i], Keys(Schema(p.input))))))
  {
    var keys := Keys(Schema(p.input));
    forall i | 0 <= i < |a|
      ensures RowsAgree(s, ZipMap(Keys(p.out), LookUp(m, keys)), ZipMap(Keys(p.out), Pick(a[i], keys)), ZipMap(Keys(p.out), Pick(b[i], keys)))
    {
      PickRelated(s, m, keys, a[i], b[i]);
      ZipAgree(s, Keys(p.out), LookUp(m, keys), Pick(a[i], keys), Pick(b[i], keys));
    }
  }

  lemma JoinAgrees(s: Secret, p: Plan, l: LineageMap, r: LineageMap, la: seq<Row>, lb: seq<Row>, ra: seq<Row>, rb: seq<Row>)
    requires p.Join? && Resolved(p) && Analyze(p, s.sem.units).Ok?
    requires AllThrough(s, Analyze(p, s.sem.units).value.recorded)
    requires Analyze(p.left, s.sem.units).value.output == l && Analyze(p.right, s.sem.units).value.output == r
    requires TablesAgree(s, l, la, lb) && TablesAgree(s, r, ra, rb)
    ensures TablesAgree(s, Analyze(p, s.sem.units).value.output, JoinRows(la, ra, p, s.sem), JoinRows(lb, rb, p, s.sem))
  {
    OutputKeys(p.left, s.sem.units);
    OutputKeys(p.right, s.sem.units);
    var both := Analyze(p.left, s.sem.units).value.recorded + Analyze(p.right, s.sem.units).value.recorded;
    var on := OnUsages(p.on, p, l, r, s.sem.units).value;
    AllThroughParts(s, both + on, Flatten(UsagesOf(OptionList(p.filter), MergeMaps(l, r), p.out, s.sem.units).value));
    AllThroughParts(s, both, on);
    JoinRowsAgree(s, p, l, r, la, lb, ra, rb);
  }

  /** Every plan keeps the relation between the two runs. */
  lemma {:induction false} PlanAgrees(s: Secret, p: Plan, a: Database, b: Database)
    requires Resolved(p) && Analyze(p, s.sem.units).Ok? && DatabasesAgree(s, a, b)
    requires AllThrough(s, Analyze(p, s.sem.units).value.recorded)
    ensures TablesAgree(s, Analyze(p, s.sem.units).value.output, EvalPlan(p, a, s.sem), EvalPlan(p, b, s.sem))
    decreases p, 1
  {
    match p
    case TableScan(_, _, _) => ScanAgrees(s, p, a, b);
    case Projection(_, _, _) => ProjectionPlanAgrees(s, p, a, b);
    case Filter(_, _) => FilterPlanAgrees(s, p, a, b);
    case Aggregate(_, _, _, _) => AggregateAgrees(s, p, a, b);
    case Join(_, _, _, _, _) => JoinPlanAgrees(s, p, a, b);
    case SubqueryAlias(_, _) => AliasPlanAgrees(s, p, a, b);
    case Sort(_, _) => SortPlanAgrees(s, p, a, b);
    case Limit(_, _, _) => LimitPlanAgrees(s, p, a, b);
  }

  lemma {:induction false} ProjectionPlanAgrees(s: Secret, p: Plan, a: Database, b: Database)
    requires p.Projection? && Resolved(p) && Analyze(p, s.sem.units).Ok? && DatabasesAgree(s, a, b)
    requires AllThrough(s, Analyze(p, s.sem.units).value.recorded)
    ensures TablesAgree(s, Analyze(p, s.sem.units).value.output, EvalPlan(p, a, s.sem), EvalPlan(p, b, s.sem))
    decreases p, 0
  {
    var m := Analyze(p.input, s.sem.units).value.output;
    InputAgrees(s, p.input, UsagesOf(p.exprs, m, Schema(p.input), s.sem.units).value, a, b);
    ProjectionAgrees(s, p, m, EvalPlan(p.input, a, s.sem), EvalPlan(p.input, b, s.sem));
  }

  lemma {:induction false} FilterPlanAgrees(s: Secret, p: Plan, a: Database, b: Database)
    requires p.Filter? && Resolved(p) && Analyze(p, s.sem.units).Ok? && DatabasesAgree(s, a, b)
    requires AllThrough(s, Analyze(p, s.sem.units).value.recorded)
    ensures TablesAgree(s, Analyze(p, s.sem.units).value.output, EvalPlan(p, a, s.sem), EvalPlan(p, b, s.sem))
    decreases p, 0
  {
    var m := Analyze(p.input, s.sem.units).value.output;
    InputAgrees(s, p.input, UsagesOf([p.predicate_], m, Schema(p.input), s.sem.units).value, a, b);
    KeepAgree(s, m, [p.predicate_], Schema(p.input), EvalPlan(p.input, a, s.sem), EvalPlan(p.input, b, s.sem));
  }

  lemma {:induction false} AliasPlanAgrees(s: Secret, p: Plan, a: Database, b: Database)
    requires p.SubqueryAlias? && Resolved(p) && Analyze(p, s.sem.units).Ok? && DatabasesAgree(s, a, b)
    requires AllThrough(s, Analyze(p, s.sem.units).value.recorded)
    ensures TablesAgree(s, Analyze(p, s.sem.units).value.output, EvalPlan(p, a, s.sem), EvalPlan(p, b, s.sem))
    decreases p, 0
  {
    PlanAgrees(s, p.input, a, b);
    AliasAgrees(s, p, Analyze(p.input, s.sem.units).value.output, EvalPlan(p.input, a, s.sem), EvalPlan(p.input, b, s.sem));
  }

  lemma {:induction false} SortPlanAgrees(s: Secret, p: Plan, a: Database, b: Database)
    requires p.Sort? && Resolved(p) && Analyze(p, s.sem.units).Ok? && DatabasesAgree(s, a, b)
    requires AllThrough(s, Analyze(p, s.sem.units).value.recorded)
    ensures TablesAgree(s, Analyze(p, s.sem.units).value.output, EvalPlan(p, a, s.sem), EvalPlan(p, b, s.sem))
    decreases p, 0
  {
    var m := Analyze(p.input, s.sem.units).value.output;
    InputAgrees(s, p.input, UsagesOf(p.keys, m, Schema(p.input), s.sem.units).value, a, b);
    SortAgree(s, m, p.keys, Schema(p.input), EvalPlan(p.input, a, s.sem), EvalPlan(p.input, b, s.sem));
  }

  lemma {:induction false} LimitPlanAgrees(s: Secret, p: Plan, a: Database, b: Database)
    requires p.Limit? && Resolved(p) && Analyze(p, s.sem.units).Ok? && DatabasesAgree(s, a, b)
    requires AllThrough(s, Analyze(p, s.sem.units).value.recorded)
    ensures TablesAgree(s, Analyze(p, s.sem.units).value.output, EvalPlan(p, a, s.sem), EvalPlan(p, b, s.sem))
    decreases p, 0
  {
    var m := Analyze(p.input, s.sem.units).value.output;
    InputAgrees(s, p.input, UsagesOf(OptionList(p.skip) + OptionList(p.fetch), m, Schema(p.input), s.sem.units).value, a, b);
  }

  lemma {:induction false} JoinPlanAgrees(s: Secret, p: Plan, a: Database, b: Database)
    requires p.Join? && Resolved(p) && Analyze(p, s.sem.units).Ok? && DatabasesAgree(s, a, b)
    requires AllThrough(s, Analyze(p, s.sem.units).value.recorded)
    ensures TablesAgree(s, Analyze(p, s.sem.units).value.output, EvalPlan(p, a, s.sem), EvalPlan(p, b, s.sem))
    decreases p, 0
  {
    var units := s.sem.units;
    var l, r := Analyze(p.left, units).value, Analyze(p.right, units).value;
    var conditions := OnUsages(p.on, p, l.output, r.output, units).value;
    var filters := Flatten(UsagesOf(OptionList(p.filter), MergeMaps(l.output, r.output), p.out, units).value);
    AllThroughParts(s, l.recorded + r.recorded + conditions, filters);
    AllThroughParts(s, l.recorded + r.recorded, conditions);
    AllThroughParts(s, l.recorded, r.recorded);
    PlanAgrees(s, p.left, a, b);
    PlanAgrees(s, p.right, a, b);
    JoinAgrees(s, p, l.output, r.output, EvalPlan(p.left, a, s.sem), EvalPlan(p.left, b, s.sem),
               EvalPlan(p.right, a, s.sem), EvalPlan(p.right, b, s.sem));
  }

  /** The induction hypothesis for the input of a node that records `uss`. */
  lemma {:induction false} InputAgrees(s: Secret, input: Plan, uss: seq<seq<ColumnUsage>>, a: Database, b: Database)
    requires Resolved(input) && Analyze(input, s.sem.units).Ok? && DatabasesAgree(s, a, b)
    requires AllThrough(s, Analyze(input, s.sem.units).value.recorded + Flatten(uss))
    ensures AllThrough(s, Flatten(uss)) && Analyze(input, s.sem.units).value.output.Keys == KeySet(input)
    ensures TablesAgree(s, Analyze(input, s.sem.units).value.output, EvalPlan(input, a, s.sem), EvalPlan(input, b, s.sem))
    decreases input, 2
  {
    AllThroughParts(s, Analyze(input, s.sem.units).value.recorded, Flatten(uss));
    OutputKeys(input, s.sem.units);
    PlanAgrees(s, input, a, b);
  }

  lemma {:induction false} AggregateAgrees(s: Secret, p: Plan, a: Database, b: Database)
    requires p.Aggregate? && Resolved(p) && Analyze(p, s.sem.units).Ok? && DatabasesAgree(s, a, b)
    requires AllThrough(s, Analyze(p, s.sem.units).value.recorded)
    ensures TablesAgree(s, Analyze(p, s.sem.units).value.output, EvalPlan(p, a, s.sem), EvalPlan(p, b, s.sem))
    decreases p, 0
  {
    var m := Analyze(p.input, s.sem.units).value.output;
    InputAgrees(s, p.input, UsagesOf(p.group + p.aggr, m, Schema(p.input), s.sem.units).value, a, b);
    AggregateRowsEqual(s, p, m, EvalPlan(p.input, a, s.sem), EvalPlan(p.input, b, s.sem));
    OutputKeys(p, s.sem.units);
    AggregateRowKeys(s, p, Analyze(p, s.sem.units).value.output, EvalPlan(p.input, a, s.sem));
  }

  /** Aggregated rows carry exactly the output columns, so they agree with themselves. */
  lemma AggregateRowKeys(s: Secret, p: Plan, m: LineageMap, rows: seq<Row>)
    requires p.Aggregate? && |p.group| + |p.aggr| == |p.out| && m.Keys == KeySet(p)
    ensures var r := AggregateRows(rows, p.group, p.aggr, p.out, s.sem); TablesAgree(s, m, r, r)
  {
    var keys := GroupKeys(rows, p.group, s.sem);
    DistinctLengths(keys, |p.group|);
    var r := AggregateRows(rows, p.group, p.aggr, p.out, s.sem);
    forall i | 0 <= i < |r| ensures r[i].Keys == m.Keys {
      var groups := if p.group == [] then [[]] else DistinctKeys(keys);
      assert r[i] == ZipMap(Keys(p.out), groups[i] + EvalAggregates(p.aggr, Members(rows, keys, groups[i]), s.sem));
    }
  }

  lemma {:induction false} DistinctLengths(keys: seq<seq<Value>>, n: nat)
    requires forall i :: 0 <= i < |keys| ==> |keys[i]| == n
    ensures forall i :: 0 <= i < |DistinctKeys(keys)| ==> |DistinctKeys(keys)[i]| == n
  {
    if keys != [] {
      DistinctLengths(keys[..|keys| - 1], n);
    }
  }

  // ----- the promise of an annotation -----

  /** Every output column comes out of a projection or an aggregation. */
  predicate LeavesThroughExprs(p: Plan) {
    match p
    case TableScan(_, _, _) => false
    case Projection(_, _, _) => true
    case Aggregate(_, _, _, _) => true
    case Filter(input, _) => LeavesThroughExprs(input)
    case SubqueryAlias(input, _) => LeavesThroughExprs(input)
    case Sort(input, _) => LeavesThroughExprs(input)
    case Limit(input, _, _) => LeavesThroughExprs(input)
    case Join(left, right, _, _, _) => LeavesThroughExprs(left) && LeavesThroughExprs(right)
  }

  /** An annotated column was recorded only through annotated components. */
  lemma AnnotatedIsThrough(s: Secret, p: Plan)
    requires Analyze(p, s.sem.units).Ok? && DateAnnotation(p, s.sem.units, s.column) == Some(s.units)
    ensures AllThrough(s, Analyze(p, s.sem.units).value.recorded)
  {
    var us := Analyze(p, s.sem.units).value.recorded;
    forall i | 0 <= i < |us| ensures Through(s, us[i]) {
      if us[i].base == s.column {
        RecordedIsKept(us, i);
        var usages := RecordAll(map[], us)[s.column].usages;
        var j :| 0 <= j < |usages| && usages[j] == us[i].operations;
        UnionContains(usages, j);
      }
    }
  }

  lemma {:induction false} ZipMember<V>(keys: seq<ColumnKey>, values: seq<V>, k: ColumnKey) returns (i: nat)
    requires |keys| == |values| && k in ZipMap(keys, values)
    ensures i < |keys| && ZipMap(keys, values)[k] == values[i]
  {
    var n := |keys| - 1;
    if k == keys[n] {
      i := n;
    } else {
      i := ZipMember(keys[..n], values[..n], k);
    }
  }

  ghost predicate NothingBare(s: Secret, m: LineageMap) {
    forall k :: k in m ==> !Bare(s, m[k])
  }

  lemma ZipNothingBare(s: Secret, keys: seq<ColumnKey>, uss: seq<seq<ColumnUsage>>)
    requires |keys| == |uss| && forall i :: 0 <= i < |uss| ==> !Bare(s, uss[i])
    ensures NothingBare(s, ZipMap(keys, uss))
  {
    forall k | k in ZipMap(keys, uss) ensures !Bare(s, ZipMap(keys, uss)[k]) {
      var i := ZipMember(keys, uss, k);
    }
  }

  lemma FlattenNothingBare(s: Secret, recorded: seq<ColumnUsage>, uss: seq<seq<ColumnUsage>>)
    requires AllThrough(s, recorded + Flatten(uss))
    ensures AllThrough(s, recorded) && forall i :: 0 <= i < |uss| ==> !Bare(s, uss[i])
  {
    AllThroughParts(s, recorded, Flatten(uss));
    forall i | 0 <= i < |uss| ensures !Bare(s, uss[i]) {
      FlattenThrough(s, uss, i);
      ThroughIsNotBare(s, uss[i]);
    }
  }

  lemma LookUpNothingBare(s: Secret, m: LineageMap, keys: seq<ColumnKey>)
    requires NothingBare(s, m)
    ensures forall i :: 0 <= i < |keys| ==> !Bare(s, LookUp(m, keys)[i])
  {
  }

  /** Then no output column is the raw secret. */
  lemma {:induction false} OutputNothingBare(s: Secret, p: Plan)
    requires Resolved(p) && LeavesThroughExprs(p) && Analyze(p, s.sem.units).Ok?
    requires AllThrough(s, Analyze(p, s.sem.units).value.recorded)
    ensures NothingBare(s, Analyze(p, s.sem.units).value.output)
    decreases p, 1
  {
    var units := s.sem.units;
    match p
    case Projection(input, exprs, out) =>
      var m := Analyze(input, units).value;
      var uss := UsagesOf(exprs, m.output, Schema(input), units).value;
      FlattenNothingBare(s, m.recorded, uss);
      ZipNothingBare(s, Keys(out), uss);
    case Aggregate(input, group, aggr, out) =>
      var m := Analyze(input, units).value;
      var uss := UsagesOf(group + aggr, m.output, Schema(input), units).value;
      FlattenNothingBare(s, m.recorded, uss);
      assert uss + seq(0, _ => []) == uss;
      ZipNothingBare(s, Keys(out), uss);
    case Filter(input, e) => InputNothingBare(s, input, [e]);
    case Sort(input, keys) => InputNothingBare(s, input, keys);
    case Limit(input, skip, fetch) => InputNothingBare(s, input, OptionList(skip) + OptionList(fetch));
    case SubqueryAlias(input, out) =>
      OutputNothingBare(s, input);
      LookUpNothingBare(s, Analyze(input, units).value.output, Keys(Schema(input)));
      ZipNothingBare(s, Keys(out), LookUp(Analyze(input, units).value.output, Keys(Schema(input))));
    case Join(_, _, _, _, _) => JoinNothingBare(s, p);
  }

  lemma {:induction false} InputNothingBare(s: Secret, input: Plan, es: seq<Expr>)
    requires Resolved(input) && LeavesThroughExprs(input) && Analyze(input, s.sem.units).Ok?
    requires UsagesOf(es, Analyze(input, s.sem.units).value.output, Schema(input), s.sem.units).Ok?
    requires AllThrough(s, Analyze(input, s.sem.units).value.recorded +
      Flatten(UsagesOf(es, Analyze(input, s.sem.units).value.output, Schema(input), s.sem.units).value))
    ensures NothingBare(s, Analyze(input, s.sem.units).value.output)
    decreases input, 2
  {
    var m := Analyze(input, s.sem.units).value;
    AllThroughParts(s, m.recorded, Flatten(UsagesOf(es, m.output, Schema(input), s.sem.units).value));
    OutputNothingBare(s, input);
  }

  lemma {:induction false} JoinNothingBare(s: Secret, p: Plan)
    requires p.Join? && Resolved(p) && LeavesThroughExprs(p) && Analyze(p, s.sem.units).Ok?
    requires AllThrough(s, Analyze(p, s.sem.units).value.recorded)
    ensures NothingBare(s, Analyze(p, s.sem.units).value.output)
    decreases p, 0
  {
    var l, r := Analyze(p.left, s.sem.units).value, Analyze(p.right, s.sem.units).value;
    var on := OnUsages(p.on, p, l.output, r.output, s.sem.units).value;
    var filters := Flatten(UsagesOf(OptionList(p.filter), MergeMaps(l.output, r.output), p.out, s.sem.units).value);
    AllThroughParts(s, l.recorded + r.recorded + on, filters);
    AllThroughParts(s, l.recorded + r.recorded, on);
    AllThroughParts(s, l.recorded, r.recorded);
    OutputNothingBare(s, p.left);
    OutputNothingBare(s, p.right);
    JoinOutputNothingBare(s, p, l.output, r.output);
  }

  lemma JoinOutputNothingBare(s: Secret, p: Plan, l: LineageMap, r: LineageMap)
    requires p.Join? && |p.out| == |Schema(p.left)| + |Schema(p.right)|
    requires NothingBare(s, l) && NothingBare(s, r)
    ensures NothingBare(s, JoinOutput(p, l, r))
  {
    LookUpNothingBare(s, l, Keys(Schema(p.left)));
    LookUpNothingBare(s, r, Keys(Schema(p.right)));
    ZipNothingBare(s, Keys(p.out), LookUp(l, Keys(Schema(p.left))) + LookUp(r, Keys(Schema(p.right))));
  }

  /** An annotation is sound for every plan: the two runs produce the same rows,
      except that a column which still is the raw secret agrees only in the
      annotated components. */
  lemma AnnotationSound(s: Secret, p: Plan, a: Database, b: Database)
    requires Resolved(p) && Analyze(p, s.sem.units).Ok? && DatabasesAgree(s, a, b)
    requires DateAnnotation(p, s.sem.units, s.column) == Some(s.units)
    ensures TablesAgree(s, Analyze(p, s.sem.units).value.output, EvalPlan(p, a, s.sem), EvalPlan(p, b, s.sem))
  {
    AnnotatedIsThrough(s, p);
    PlanAgrees(s, p, a, b);
  }

  /** If no output column is the raw secret, the answers are equal. */
  lemma AgreedAnswersEqual(s: Secret, p: Plan, a: Database, b: Database)
    requires Resolved(p) && Analyze(p, s.sem.units).Ok? && DatabasesAgree(s, a, b)
    requires DateAnnotation(p, s.sem.units, s.column) == Some(s.units)
    requires NothingBare(s, Analyze(p, s.sem.units).value.output)
    ensures EvalPlan(p, a, s.sem) == EvalPlan(p, b, s.sem)
  {
    AnnotationSound(s, p, a, b);
    var m := Analyze(p, s.sem.units).value.output;
    var ra, rb := EvalPlan(p, a, s.sem), EvalPlan(p, b, s.sem);
    forall i | 0 <= i < |ra| ensures ra[i] == rb[i] {
      assert RowsAgree(s, m, ra[i], rb[i]);
      assert forall k :: k in m ==> Related(s, m[k], ra[i][k], rb[i][k]) && !Bare(s, m[k]);
    }
  }

  /** Noninterference: when all outputs leave through expressions, replacing dates
      by dates with the same annotated components does not change the answer. */
  lemma DateNoninterference(s: Secret, p: Plan, a: Database, b: Database)
    requires Resolved(p) && LeavesThroughExprs(p) && Analyze(p, s.sem.units).Ok?
    requires DateAnnotation(p, s.sem.units, s.column) == Some(s.units)
    requires DatabasesAgree(s, a, b)
    ensures EvalPlan(p, a, s.sem) == EvalPlan(p, b, s.sem)
  {
    AnnotatedIsThrough(s, p);
    OutputNothingBare(s, p);
    AgreedAnswersEqual(s, p, a, b);
  }

  // ----- where the premises matter -----

  const DAY := ColumnKey(Some("t"), "day")

  function YearOf(column: ColumnKey): Expr {
    ScalarFunction("date_part", [Literal(Text("year")), Column(column)])
  }

  /** `date_part('year', day) = 2020` */
  function Is2020(): Expr {
    Other("=", [YearOf(DAY), Literal(Number(2020))])
  }

  /** `SELECT * FROM t WHERE date_part('year', day) = 2020`: no projection above the filter. */
  function UnprojectedFilter(): Plan {
    Filter(TableScan("t", [Field(DAY, Date32)], []), Is2020())
  }

  /** How the filter uses the column: the year, and something of it. */
  function YearCompared(): ColumnUsage {
    ColumnUsage(DAY, Date32, [Extract(Year), OtherOp])
  }

  lemma YearLineage(m: LineageMap, schema: seq<Field>, units: UnitNames)
    requires units("year") == Some(Year) && DAY in m && m[DAY] == [ColumnUsage(DAY, Date32, [])]
    ensures LineageForExpr(YearOf(DAY), m, schema, units) == Ok([ColumnUsage(DAY, Date32, [Extract(Year)])])
  {
    var base, used := ColumnUsage(DAY, Date32, []), ColumnUsage(DAY, Date32, [Extract(Year)]);
    assert ToLower("year") == "year" && ToLower("date_part") == "date_part";
    assert base.(operations := base.operations + [Extract(Year)]) == used;
    assert PushOp([base], Extract(Year)) == [used];
    assert LineageForExpr(Column(DAY), m, schema, units) == Ok([base]);
  }

  /** Lineage of the filter. */
  lemma OneExtraction(m: LineageMap, schema: seq<Field>, units: UnitNames)
    requires units("year") == Some(Year) && DAY in m && m[DAY] == [ColumnUsage(DAY, Date32, [])]
    ensures UsagesOf([Is2020()], m, schema, units) == Ok([[YearCompared()]])
  {
    YearLineage(m, schema, units);
    var used := ColumnUsage(DAY, Date32, [Extract(Year)]);
    assert used.(operations := used.operations + [OtherOp]) == YearCompared();
    assert PushOp([used], OtherOp) == [YearCompared()];
    var year, literal := YearOf(DAY), Literal(Number(2020));
    assert [literal][1..] == [] && [year, literal][1..] == [literal];
    assert PushOp([], OtherOp) + [] == [];
    assert PropagateOther([literal], m, schema, units) == Ok([]);
    assert [YearCompared()] + [] == [YearCompared()];
    assert LineageForExpr(Is2020(), m, schema, units) == Ok([YearCompared()]);
    var r := UsagesOf([Is2020()], m, schema, units);
    assert [Is2020()][0] == Is2020();
    assert r.Ok? && r.value[0] == [YearCompared()];
    assert r.value == [[YearCompared()]];
  }

  lemma OneExtractionStats()
    ensures Flatten([[YearCompared()]]) == [YearCompared()]
    ensures RecordAll(map[], [YearCompared()]) == map[DAY := UsageStats(Date32, [[Extract(Year), OtherOp]])]
  {
    var used := YearCompared();
    assert [[used]][..0] == [] && [used][..0] == [];
    assert Flatten([[used]]) == [] + [used];
    assert [] + [used.operations] == [[Extract(Year), OtherOp]];
    assert RecordAll(map[], [used]) == RecordOne(map[], used);
  }

  lemma OneExtractionUnits()
    ensures DateUnits(UsageStats(Date32, [[Extract(Year), OtherOp]])) == Some({Year})
  {
    var ops: seq<Operation> := [Extract(Year), OtherOp];
    assert [ops][..0] == [] && ops[1..] == [OtherOp];
    assert LeadingUnits(ops) == {Year};
    assert UnionUnits([ops]) == {Year};
  }

  lemma UnprojectedFilterAnalysis(units: UnitNames)
    requires units("year") == Some(Year)
    ensures Analyze(UnprojectedFilter(), units).Ok?
    ensures DateAnnotation(UnprojectedFilter(), units, DAY) == Some({Year})
  {
    var p := UnprojectedFilter();
    var scan := p.input;
    var base := ColumnUsage(DAY, Date32, []);
    var used := YearCompared();
    assert Keys(scan.fields) == [DAY] && BaseUsages(scan.fields) == [[base]];
    var m := ZipMap([DAY], [[base]]);
    assert m[DAY] == [base];
    assert UsagesOf([], m, scan.fields, units) == Ok([]);
    assert Analyze(scan, units) == Ok(Analysis(m, []));
    OneExtraction(m, scan.fields, units);
    OneExtractionStats();
    OneExtractionUnits();
    assert [] + Flatten([[used]]) == [used];
    assert Analyze(p, units) == Ok(Analysis(m, [used]));
  }

  lemma OneRowDatabasesAgree(sem: Library, x: Value, y: Value)
    requires sem.part(Year, x) == sem.part(Year, y)
    ensures DatabasesAgree(Secret(DAY, {Year}, iset{x, y}, sem), map["t" := [map[DAY := x]]], map["t" := [map[DAY := y]]])
  {
    var s := Secret(DAY, {Year}, iset{x, y}, sem);
    assert SameParts(s, x, y);
    assert StoredRowAgrees(s, map[DAY := x], map[DAY := y]);
  }

  /** Without a projection on top the raw dates reach the output: the column is
      annotated with YEAR alone, yet two dates of one year give different answers. */
  lemma UnprojectedFilterLeaks(sem: Library, x: Value, y: Value)
    requires sem.units("year") == Some(Year)
    requires x != y && sem.part(Year, x) == sem.part(Year, y) && sem.truthy(sem.op("=", [sem.part(Year, x), Number(2020)]))
    ensures DatabasesAgree(Secret(DAY, {Year}, iset{x, y}, sem), map["t" := [map[DAY := x]]], map["t" := [map[DAY := y]]])
    ensures Analyze(UnprojectedFilter(), sem.units).Ok?
    ensures DateAnnotation(UnprojectedFilter(), sem.units, DAY) == Some({Year})
    ensures EvalPlan(UnprojectedFilter(), map["t" := [map[DAY := x]]], sem) !=
            EvalPlan(UnprojectedFilter(), map["t" := [map[DAY := y]]], sem)
  {
    UnprojectedFilterAnalysis(sem.units);
    OneRowDatabasesAgree(sem, x, y);
    UnprojectedFilterAnswer(sem, x);
    UnprojectedFilterAnswer(sem, y);
    var rx: Row, ry: Row := map[DAY := x], map[DAY := y];
    assert rx[DAY] != ry[DAY];
    assert [rx][0] != [ry][0];
  }

  lemma ScanOfDays(sem: Library, x: Value)
    ensures EvalPlan(UnprojectedFilter().input, map["t" := [map[DAY := x]]], sem) == [map[DAY := x]]
  {
    var row: Row, fields := map[DAY := x], [Field(DAY, Date32)];
    assert Pick(row, Keys(fields)) == [x];
    assert ZipMap(Keys(fields), [x]) == row;
    assert seq(1, i requires 0 <= i < 1 => ZipMap(Keys(fields), Pick([row][i], Keys(fields)))) == [row];
    assert Keep([row], [], sem) == [row] by {
      assert Keep([row][1..], [], sem) == [];
    }
  }

  lemma Is2020Value(sem: Library, x: Value)
    requires sem.units("year") == Some(Year)
    ensures Eval(Is2020(), map[DAY := x], sem) == sem.op("=", [sem.part(Year, x), Number(2020)])
  {
    var row: Row := map[DAY := x];
    assert ToLower("year") == "year" && ToLower("date_part") == "date_part";
    assert Eval(Column(DAY), row, sem) == x;
    assert Names("year", Year, sem.units);
    assert Eval(YearOf(DAY), row, sem) == sem.part(Year, x);
    assert EvalAll([YearOf(DAY), Literal(Number(2020))], row, sem) == [sem.part(Year, x), Number(2020)];
  }

  lemma UnprojectedFilterAnswer(sem: Library, x: Value)
    requires sem.units("year") == Some(Year) && sem.truthy(sem.op("=", [sem.part(Year, x), Number(2020)]))
    ensures EvalPlan(UnprojectedFilter(), map["t" := [map[DAY := x]]], sem) == [map[DAY := x]]
  {
    var row: Row := map[DAY := x];
    ScanOfDays(sem, x);
    Is2020Value(sem, x);
    assert Keep([row], [Is2020()], sem) == [row] by {
      assert Keep([row][1..], [Is2020()], sem) == [];
    }
  }
}
