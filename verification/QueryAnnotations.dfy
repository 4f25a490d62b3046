/** Which columns a query gets annotated, told from its text: every expression
    is read with its columns replaced by what they were computed from, down to the
    tables, and what counts is how the column occurs in it. */
module QueryAnnotations {
  import opened Common
  import opened LineageLanguage
  import opened LineageAnalysis
  import opened AnnotationExact

  // ----- occurrences of a column in an expression -----

  /** What an expression works on. The path and the type of `variant_get` are not values. */
  function Operands(e: Expr): (es: seq<Expr>)
    ensures forall i :: 0 <= i < |es| ==> es[i] < e
  {
    match e
    case Column(_) => []
    case Literal(_) => []
    case Alias(x) => [x]
    case ScalarFunction(_, args) => if IsVariantGet(e) then [args[0]] else args
    case Like(x, pattern, _, _) => [x, pattern]
    case Cast(x, _) => [x]
    case TryCast(x, _) => [x]
    case AggregateFunction(_, args) => args
    case Other(_, children) => children
  }

  predicate Mentions(e: Expr, c: ColumnKey) {
    e == Column(c) || exists i :: 0 <= i < |Operands(e)| && Mentions(Operands(e)[i], c)
  }

  /** The column itself, under any number of aliases. */
  predicate IsColumn(e: Expr, c: ColumnKey) {
    e == Column(c) || (e.Alias? && IsColumn(e.expr, c))
  }

  /** `date_part('<name>', x)` whose name stands for the unit. */
  predicate Extracts(e: Expr, unit: Unit, units: UnitNames) {
    IsDatePartCall(e) && Names(e.args[0].value.s, unit, units)
  }

  predicate IsExtractCall(e: Expr, units: UnitNames) {
    exists unit :: Extracts(e, unit, units)
  }

  /** Somewhere the column is used by something else than a component extraction. */
  predicate Exposed(e: Expr, c: ColumnKey, units: UnitNames) {
    e == Column(c) ||
    exists i :: 0 <= i < |Operands(e)| && Exposed(Operands(e)[i], c, units) &&
      !(IsExtractCall(e, units) && IsColumn(Operands(e)[i], c))
  }

  /** Nothing but extractions and aliases around the column. */
  predicate Tower(e: Expr, c: ColumnKey, units: UnitNames) {
    e == Column(c) ||
    ((e.Alias? || IsExtractCall(e, units)) && exists i :: 0 <= i < |Operands(e)| && Tower(Operands(e)[i], c, units))
  }

  /** Somewhere the unit is extracted from the column, or from other components of it. */
  predicate Asks(e: Expr, c: ColumnKey, unit: Unit, units: UnitNames) {
    exists i :: 0 <= i < |Operands(e)| &&
      (Asks(Operands(e)[i], c, unit, units) || (Extracts(e, unit, units) && Tower(Operands(e)[i], c, units)))
  }

  // ----- what a query computes, down to the tables -----

  type Origins = map<ColumnKey, Expr>

  /** The expression with every known column replaced by its origin. */
  function Inline(e: Expr, o: Origins): Expr {
    match e
    case Column(key) => if key in o then Alias(o[key]) else e
    case Literal(_) => e
    case Alias(x) => Alias(Inline(x, o))
    case ScalarFunction(name, args) => ScalarFunction(name, seq(|args|, i requires 0 <= i < |args| => Inline(args[i], o)))
    case Like(x, pattern, ci, esc) => Like(Inline(x, o), Inline(pattern, o), ci, esc)
    case Cast(x, t) => Cast(Inline(x, o), t)
    case TryCast(x, t) => TryCast(Inline(x, o), t)
    case AggregateFunction(name, args) => AggregateFunction(name, seq(|args|, i requires 0 <= i < |args| => Inline(args[i], o)))
    case Other(op, children) => Other(op, seq(|children|, i requires 0 <= i < |children| => Inline(children[i], o)))
  }

  function InlineAll(es: seq<Expr>, o: Origins): (r: seq<Expr>)
    ensures |r| == |es|
  {
    seq(|es|, i requires 0 <= i < |es| => Inline(es[i], o))
  }

  function OriginList(o: Origins, keys: seq<ColumnKey>): (r: seq<Expr>)
    ensures |r| == |keys|
  {
    seq(|keys|, i requires 0 <= i < |keys| => if keys[i] in o then o[keys[i]] else Literal(Null))
  }

  function ColumnList(keys: seq<ColumnKey>): (r: seq<Expr>)
    ensures |r| == |keys|
  {
    seq(|keys|, i requires 0 <= i < |keys| => Column(keys[i]))
  }

  /** Where each output column of a plan comes from. */
  function OriginsOf(p: Plan): Origins {
    match p
    case TableScan(_, fields, _) => ZipMap(Keys(fields), ColumnList(Keys(fields)))
    case Projection(input, exprs, out) => ZipMap(Keys(out), InlineAll(Consumed(exprs, |out|), OriginsOf(input)))
    case Aggregate(input, group, aggr, out) =>
      var es := InlineAll(Consumed(group + aggr, |out|), OriginsOf(input));
      ZipMap(Keys(out), es + seq(|out| - |es|, _ => Literal(Null)))
    case Join(left, right, _, _, out) =>
      ZipMap(Keys(out), OriginList(OriginsOf(left), Keys(Schema(left))) + OriginList(OriginsOf(right), Keys(Schema(right))))
    case SubqueryAlias(input, out) => ZipMap(Keys(out), OriginList(OriginsOf(input), Keys(Schema(input))))
    case Filter(input, _) => OriginsOf(input)
    case Sort(input, _) => OriginsOf(input)
    case Limit(input, _, _) => OriginsOf(input)
  }

  /** Both sides of join conditions, down to the tables. */
  function InlineOn(on: seq<(Expr, Expr)>, l: Origins, r: Origins): seq<Expr> {
    if on == [] then []
    else
      var n := |on| - 1;
      InlineOn(on[..n], l, r) + [Inline(on[n].0, l), Inline(on[n].1, r)]
  }

  /** Every expression of a plan, down to the tables. */
  function Expressions(p: Plan): seq<Expr> {
    match p
    case TableScan(_, _, filters) => InlineAll(filters, OriginsOf(p))
    case Projection(input, exprs, out) => Expressions(input) + InlineAll(Consumed(exprs, |out|), OriginsOf(input))
    case Aggregate(input, group, aggr, out) =>
      Expressions(input) + InlineAll(Consumed(group + aggr, |out|), OriginsOf(input))
    case Join(left, right, on, filter, _) =>
      Expressions(left) + Expressions(right) + InlineOn(on, OriginsOf(left), OriginsOf(right)) +
      InlineAll(OptionList(filter), OriginsOf(left) + OriginsOf(right))
    case SubqueryAlias(input, _) => Expressions(input)
    case Filter(input, predicate_) => Expressions(input) + InlineAll([predicate_], OriginsOf(input))
    case Sort(input, keys) => Expressions(input) + InlineAll(keys, OriginsOf(input))
    case Limit(input, skip, fetch) => Expressions(input) + InlineAll(OptionList(skip) + OptionList(fetch), OriginsOf(input))
  }

  // ----- usages and occurrences, aspect by aspect -----

  datatype Watch = Watch(column: ColumnKey, dataType: DataType, units: UnitNames)

  /** What can be said of a usage that an operation pushed onto it does not hide. */
  datatype Aspect = Used | Raw | Spoiled | OnlyParts | Part(unit: Unit) | Mistyped

  ghost predicate Has(u: ColumnUsage, w: Watch, a: Aspect) {
    match a
    case Used => true
    case Raw => u.operations == []
    case Spoiled => u.operations != [] && !u.operations[0].Extract?
    case OnlyParts => forall k :: 0 <= k < |u.operations| ==> IsExtraction(u, k)
    case Part(unit) => Leads(u, unit)
    case Mistyped => u.dataType != w.dataType
  }

  ghost predicate Any(us: seq<ColumnUsage>, w: Watch, a: Aspect) {
    exists i :: 0 <= i < |us| && us[i].base == w.column && Has(us[i], w, a)
  }

  predicate Shows(e: Expr, w: Watch, a: Aspect) {
    match a
    case Used => Mentions(e, w.column)
    case Raw => IsColumn(e, w.column)
    case Spoiled => Exposed(e, w.column, w.units) && !IsColumn(e, w.column)
    case OnlyParts => Tower(e, w.column, w.units)
    case Part(unit) => Asks(e, w.column, unit, w.units)
    case Mistyped => false
  }

  /** What pushing `op` leaves of the aspects of a list of usages. */
  ghost predicate AnyPushed(us: seq<ColumnUsage>, w: Watch, op: Operation, a: Aspect) {
    match a
    case Used => Any(us, w, Used)
    case Raw => false
    case Spoiled => Any(us, w, Spoiled) || (!op.Extract? && Any(us, w, Raw))
    case OnlyParts => op.Extract? && Any(us, w, OnlyParts)
    case Part(unit) => Any(us, w, a) || (op == Extract(unit) && Any(us, w, OnlyParts))
    case Mistyped => Any(us, w, Mistyped)
  }

  /** The same for an operand. */
  predicate ShowsPushed(e: Expr, w: Watch, op: Operation, a: Aspect) {
    match a
    case Used => Shows(e, w, Used)
    case Raw => false
    case Spoiled => Shows(e, w, Spoiled) || (!op.Extract? && Shows(e, w, Raw))
    case OnlyParts => op.Extract? && Shows(e, w, OnlyParts)
    case Part(unit) => Shows(e, w, a) || (op == Extract(unit) && Shows(e, w, OnlyParts))
    case Mistyped => false
  }

  lemma LeadsPushed(u: ColumnUsage, op: Operation, unit: Unit)
    ensures var v := u.(operations := u.operations + [op]);
      Leads(v, unit) <==> Leads(u, unit) || (op == Extract(unit) && forall k :: 0 <= k < |u.operations| ==> IsExtraction(u, k))
  {
    var v := u.(operations := u.operations + [op]);
    var n := |u.operations|;
    assert forall k :: 0 <= k < n ==> v.operations[k] == u.operations[k];
    assert forall k :: 0 <= k < n ==> (IsExtraction(v, k) <==> IsExtraction(u, k));
    if k :| 0 <= k < n && u.operations[k] == Extract(unit) && forall l :: 0 <= l < k ==> IsExtraction(u, l) {
      assert v.operations[k] == Extract(unit);
    }
    if op == Extract(unit) && forall k :: 0 <= k < n ==> IsExtraction(u, k) {
      assert v.operations[n] == Extract(unit);
    }
  }

  /** One usage after a push. */
  lemma HasPushed(u: ColumnUsage, w: Watch, op: Operation, a: Aspect)
    ensures var v := u.(operations := u.operations + [op]);
      Has(v, w, a) <==>
        match a
        case Used => true
        case Raw => false
        case Spoiled => Has(u, w, Spoiled) || (!op.Extract? && Has(u, w, Raw))
        case OnlyParts => op.Extract? && Has(u, w, OnlyParts)
        case Part(unit) => Has(u, w, a) || (op == Extract(unit) && Has(u, w, OnlyParts))
        case Mistyped => Has(u, w, Mistyped)
  {
    var v := u.(operations := u.operations + [op]);
    var n := |u.operations|;
    match a
    case OnlyParts =>
      assert v.operations[n] == op;
      assert forall k :: 0 <= k < n ==> (IsExtraction(v, k) <==> IsExtraction(u, k));
      assert IsExtraction(v, n) <==> op.Extract?;
    case Part(unit) => LeadsPushed(u, op, unit);
    case _ =>
  }

  lemma PushAny(us: seq<ColumnUsage>, w: Watch, op: Operation, a: Aspect)
    ensures Any(PushOp(us, op), w, a) <==> AnyPushed(us, w, op, a)
  {
    var vs := PushOp(us, op);
    forall i | 0 <= i < |us|
      ensures vs[i].base == us[i].base && vs[i] == us[i].(operations := us[i].operations + [op])
    {
    }
    if i :| 0 <= i < |vs| && vs[i].base == w.column && Has(vs[i], w, a) {
      HasPushed(us[i], w, op, a);
      assert AnyPushed(us, w, op, a);
    }
    if AnyPushed(us, w, op, a) {
      var i := PushedWitness(us, w, op, a);
      HasPushed(us[i], w, op, a);
      assert Has(vs[i], w, a);
    }
  }

  /** A usage that has the aspect once the operation is pushed. */
  lemma PushedWitness(us: seq<ColumnUsage>, w: Watch, op: Operation, a: Aspect) returns (i: nat)
    requires AnyPushed(us, w, op, a)
    ensures i < |us| && us[i].base == w.column && Has(us[i].(operations := us[i].operations + [op]), w, a)
  {
    if Any(us, w, a) && !a.OnlyParts? {
      i :| 0 <= i < |us| && us[i].base == w.column && Has(us[i], w, a);
    } else if a.Spoiled? {
      i :| 0 <= i < |us| && us[i].base == w.column && Has(us[i], w, Raw);
    } else {
      i :| 0 <= i < |us| && us[i].base == w.column && Has(us[i], w, OnlyParts);
    }
    HasPushed(us[i], w, op, a);
  }

  lemma AppendAny(xs: seq<ColumnUsage>, ys: seq<ColumnUsage>, w: Watch, a: Aspect)
    ensures Any(xs + ys, w, a) <==> Any(xs, w, a) || Any(ys, w, a)
  {
    var zs := xs + ys;
    if i :| 0 <= i < |xs| && xs[i].base == w.column && Has(xs[i], w, a) {
      assert zs[i] == xs[i];
    }
    if i :| 0 <= i < |ys| && ys[i].base == w.column && Has(ys[i], w, a) {
      assert zs[|xs| + i] == ys[i];
    }
  }

  // ----- expressions -----

  /** What the analysis pushes for an expression that is neither a column nor an alias. */
  function OpOf(e: Expr, units: UnitNames): Operation {
    if IsDatePart(e, units) then Extract(PartToUnit(e.args[0], units).value)
    else if IsVariantGet(e) then VariantGet(e.args[1].value.s)
    else if e.Like? && !e.caseInsensitive && !e.hasEscape && IsText(e.pattern) && IsSubstringPattern(e.pattern.value.s)
    then SubstringSearch
    else OtherOp
  }

  predicate Compound(e: Expr) {
    !e.Column? && !e.Literal? && !e.Alias?
  }

  lemma OpExtracts(e: Expr, unit: Unit, units: UnitNames)
    ensures OpOf(e, units) == Extract(unit) <==> Extracts(e, unit, units)
    ensures OpOf(e, units).Extract? <==> IsExtractCall(e, units)
  {
    if OpOf(e, units).Extract? {
      assert Extracts(e, OpOf(e, units).unit, units);
    }
  }

  ghost predicate SomeOperand(e: Expr, w: Watch, op: Operation, a: Aspect) {
    exists i :: 0 <= i < |Operands(e)| && ShowsPushed(Operands(e)[i], w, op, a)
  }

  lemma ShowsOperands(e: Expr, w: Watch, a: Aspect)
    requires Compound(e)
    ensures Shows(e, w, a) <==> SomeOperand(e, w, OpOf(e, w.units), a)
  {
    var op := OpOf(e, w.units);
    OpExtracts(e, Year, w.units);
    match a
    case Used =>
      assert forall i :: 0 <= i < |Operands(e)| ==> (ShowsPushed(Operands(e)[i], w, op, a) <==> Mentions(Operands(e)[i], w.column));
    case Raw =>
    case Spoiled =>
      forall i | 0 <= i < |Operands(e)|
        ensures ShowsPushed(Operands(e)[i], w, op, a) <==>
          Exposed(Operands(e)[i], w.column, w.units) && !(IsExtractCall(e, w.units) && IsColumn(Operands(e)[i], w.column))
      {
        if IsColumn(Operands(e)[i], w.column) {
          ColumnIsExposed(Operands(e)[i], w.column, w.units);
        }
      }
    case OnlyParts =>
      assert forall i :: 0 <= i < |Operands(e)| ==>
        (ShowsPushed(Operands(e)[i], w, op, a) <==> op.Extract? && Tower(Operands(e)[i], w.column, w.units));
    case Part(unit) =>
      OpExtracts(e, unit, w.units);
      assert forall i :: 0 <= i < |Operands(e)| ==>
        (ShowsPushed(Operands(e)[i], w, op, a) <==>
         Asks(Operands(e)[i], w.column, unit, w.units) || (op == Extract(unit) && Tower(Operands(e)[i], w.column, w.units)));
    case Mistyped =>
  }

  lemma {:induction false} ColumnIsExposed(e: Expr, c: ColumnKey, units: UnitNames)
    requires IsColumn(e, c)
    ensures Exposed(e, c, units)
  {
    if e.Alias? {
      ColumnIsExposed(e.expr, c, units);
      assert Operands(e)[0] == e.expr;
      assert !IsDatePartCall(e);
    }
  }

  lemma AliasShows(e: Expr, w: Watch, a: Aspect)
    ensures Shows(Alias(e), w, a) <==> Shows(e, w, a)
  {
    var alias := Alias(e);
    assert Operands(alias) == [e];
    assert !IsDatePartCall(alias);
    assert !IsExtractCall(alias, w.units);
    assert Operands(alias)[0] == e;
  }

  ghost predicate SomePushed(es: seq<Expr>, m: LineageMap, schema: seq<Field>, w: Watch, op: Operation, a: Aspect) {
    exists i :: 0 <= i < |es| && PushedHere(es[i], m, schema, w, op, a)
  }

  ghost predicate PushedHere(e: Expr, m: LineageMap, schema: seq<Field>, w: Watch, op: Operation, a: Aspect) {
    LineageForExpr(e, m, schema, w.units).Ok? && Any(PushOp(LineageForExpr(e, m, schema, w.units).value, op), w, a)
  }

  ghost predicate AllOk(es: seq<Expr>, m: LineageMap, schema: seq<Field>, units: UnitNames) {
    forall i :: 0 <= i < |es| ==> LineageForExpr(es[i], m, schema, units).Ok?
  }

  lemma {:induction false} PropagatedAny(es: seq<Expr>, m: LineageMap, schema: seq<Field>, w: Watch, a: Aspect)
    requires PropagateOther(es, m, schema, w.units).Ok?
    ensures AllOk(es, m, schema, w.units)
    ensures Any(PropagateOther(es, m, schema, w.units).value, w, a) <==> SomePushed(es, m, schema, w, OtherOp, a)
  {
    if es != [] {
      var rest := es[1..];
      PropagatedAny(rest, m, schema, w, a);
      assert forall i :: 0 < i < |es| ==> es[i] == rest[i - 1];
      AppendAny(PushOp(LineageForExpr(es[0], m, schema, w.units).value, OtherOp),
                PropagateOther(rest, m, schema, w.units).value, w, a);
      if i :| 0 <= i < |rest| && PushedHere(rest[i], m, schema, w, OtherOp, a) {
        assert PushedHere(es[i + 1], m, schema, w, OtherOp, a);
      }
    }
  }

  /** The usages of an expression are those of its operands, with its operation pushed. */
  lemma LineageOfOperands(e: Expr, m: LineageMap, schema: seq<Field>, w: Watch, a: Aspect)
    requires Compound(e) && LineageForExpr(e, m, schema, w.units).Ok?
    ensures AllOk(Operands(e), m, schema, w.units)
    ensures Any(LineageForExpr(e, m, schema, w.units).value, w, a) <==>
            SomePushed(Operands(e), m, schema, w, OpOf(e, w.units), a)
  {
    match e
    case ScalarFunction(_, args) => CallOperands(e, m, schema, w, a);
    case Like(x, pattern, _, _) => LikeOperands(e, m, schema, w, a);
    case Cast(x, _) => assert Operands(e)[0] == x;
    case TryCast(x, _) => assert Operands(e)[0] == x;
    case AggregateFunction(_, args) => PropagatedAny(args, m, schema, w, a);
    case Other(_, children) => PropagatedAny(children, m, schema, w, a);
  }

  lemma PairPushed(x: Expr, y: Expr, m: LineageMap, schema: seq<Field>, w: Watch, op: Operation, a: Aspect)
    ensures SomePushed([x, y], m, schema, w, op, a) <==> PushedHere(x, m, schema, w, op, a) || PushedHere(y, m, schema, w, op, a)
  {
    assert [x, y][0] == x && [x, y][1] == y;
  }

  lemma LiteralNotPushed(e: Expr, m: LineageMap, schema: seq<Field>, w: Watch, op: Operation, a: Aspect)
    requires e.Literal?
    ensures !PushedHere(e, m, schema, w, op, a)
  {
    assert LineageForExpr(e, m, schema, w.units) == Ok([]);
  }

  lemma CallOperands(e: Expr, m: LineageMap, schema: seq<Field>, w: Watch, a: Aspect)
    requires e.ScalarFunction? && LineageForExpr(e, m, schema, w.units).Ok?
    ensures AllOk(Operands(e), m, schema, w.units)
    ensures Any(LineageForExpr(e, m, schema, w.units).value, w, a) <==>
            SomePushed(Operands(e), m, schema, w, OpOf(e, w.units), a)
  {
    if IsDatePart(e, w.units) {
      assert "date_part"[0] != "variant_get"[0];
      assert !IsVariantGet(e);
      assert Operands(e) == [e.args[0], e.args[1]];
      PairPushed(e.args[0], e.args[1], m, schema, w, OpOf(e, w.units), a);
      LiteralNotPushed(e.args[0], m, schema, w, OpOf(e, w.units), a);
    } else if IsVariantGet(e) {
      assert Operands(e)[0] == e.args[0];
    } else {
      PropagatedAny(e.args, m, schema, w, a);
    }
  }

  lemma LikeOperands(e: Expr, m: LineageMap, schema: seq<Field>, w: Watch, a: Aspect)
    requires e.Like? && LineageForExpr(e, m, schema, w.units).Ok?
    ensures AllOk(Operands(e), m, schema, w.units)
    ensures Any(LineageForExpr(e, m, schema, w.units).value, w, a) <==>
            SomePushed(Operands(e), m, schema, w, OpOf(e, w.units), a)
  {
    var op := OpOf(e, w.units);
    assert Operands(e) == [e.expr, e.pattern];
    PairPushed(e.expr, e.pattern, m, schema, w, op, a);
    if op.SubstringSearch? {
      LiteralNotPushed(e.pattern, m, schema, w, op, a);
    } else {
      AppendAny(PushOp(LineageForExpr(e.expr, m, schema, w.units).value, op),
                PushOp(LineageForExpr(e.pattern, m, schema, w.units).value, op), w, a);
    }
  }

  /** The lineage map says of each column what its origin shows. */
  ghost predicate Reflects(m: LineageMap, o: Origins, w: Watch) {
    m.Keys == o.Keys && forall k, a :: k in m ==> (Any(m[k], w, a) <==> Shows(o[k], w, a))
  }

  /** Where a schema has the column, it gives it the watched type. */
  predicate Typed(schema: seq<Field>, w: Watch) {
    forall i :: 0 <= i < |schema| && (schema[i].key == w.column || (w.column.relation.None? && schema[i].key.name == w.column.name)) ==>
      schema[i].dataType == w.dataType
  }

  lemma {:induction false} FieldTyped(schema: seq<Field>, w: Watch)
    requires Typed(schema, w) && FieldType(schema, w.column).Ok?
    ensures FieldType(schema, w.column).value == w.dataType
  {
    if !(schema[0].key == w.column || (w.column.relation.None? && schema[0].key.name == w.column.name)) {
      FieldTyped(schema[1..], w);
    }
  }

  lemma BaseShows(k: ColumnKey, t: DataType, w: Watch, a: Aspect)
    requires k == w.column ==> t == w.dataType
    ensures Any([ColumnUsage(k, t, [])], w, a) <==> Shows(Column(k), w, a)
  {
    var us := [ColumnUsage(k, t, [])];
    assert us[0].base == k && us[0].operations == [];
    assert Operands(Column(k)) == [];
    assert Any(us, w, a) <==> k == w.column && Has(us[0], w, a);
  }

  lemma InlineCompound(e: Expr, o: Origins, units: UnitNames)
    requires Compound(e)
    ensures Compound(Inline(e, o)) && |Operands(Inline(e, o))| == |Operands(e)|
    ensures forall i :: 0 <= i < |Operands(e)| ==> Operands(Inline(e, o))[i] == Inline(Operands(e)[i], o)
    ensures OpOf(Inline(e, o), units) == OpOf(e, units)
  {
    assert e.ScalarFunction? ==> forall i :: 0 <= i < |e.args| ==> InlinedText(e.args[i], o);
    assert e.Like? ==> InlinedText(e.pattern, o);
  }

  predicate InlinedText(e: Expr, o: Origins)
    ensures InlinedText(e, o)
  {
    IsText(Inline(e, o)) == IsText(e) && (IsText(e) ==> Inline(e, o) == e)
  }

  /** An expression's usages of the column are its occurrences, down to the tables. */
  lemma {:induction false} ExprShows(e: Expr, m: LineageMap, o: Origins, schema: seq<Field>, w: Watch, a: Aspect)
    requires Reflects(m, o, w) && Typed(schema, w) && LineageForExpr(e, m, schema, w.units).Ok?
    ensures Any(LineageForExpr(e, m, schema, w.units).value, w, a) <==> Shows(Inline(e, o), w, a)
    decreases e, 1
  {
    if e.Column? {
      if e.key in m {
        AliasShows(o[e.key], w, a);
      } else {
        if e.key == w.column {
          FieldTyped(schema, w);
        }
        BaseShows(e.key, FieldType(schema, e.key).value, w, a);
      }
    } else if e.Alias? {
      ExprShows(e.expr, m, o, schema, w, a);
      AliasShows(Inline(e.expr, o), w, a);
    } else if e.Literal? {
      assert Operands(e) == [];
    } else {
      CompoundShows(e, m, o, schema, w, a);
    }
  }

  lemma {:induction false} CompoundShows(e: Expr, m: LineageMap, o: Origins, schema: seq<Field>, w: Watch, a: Aspect)
    requires Compound(e) && Reflects(m, o, w) && Typed(schema, w) && LineageForExpr(e, m, schema, w.units).Ok?
    ensures Any(LineageForExpr(e, m, schema, w.units).value, w, a) <==> Shows(Inline(e, o), w, a)
    decreases e, 0
  {
    var e', op := Inline(e, o), OpOf(e, w.units);
    LineageOfOperands(e, m, schema, w, a);
    InlineCompound(e, o, w.units);
    ShowsOperands(e', w, a);
    forall i | 0 <= i < |Operands(e)|
      ensures PushedHere(Operands(e)[i], m, schema, w, op, a) <==> ShowsPushed(Operands(e')[i], w, op, a)
    {
      OperandShows(Operands(e)[i], m, o, schema, w, op, a);
    }
  }

  lemma {:induction false} OperandShows(e: Expr, m: LineageMap, o: Origins, schema: seq<Field>, w: Watch, op: Operation, a: Aspect)
    requires Reflects(m, o, w) && Typed(schema, w) && LineageForExpr(e, m, schema, w.units).Ok?
    ensures PushedHere(e, m, schema, w, op, a) <==> ShowsPushed(Inline(e, o), w, op, a)
    decreases e, 2
  {
    PushAny(LineageForExpr(e, m, schema, w.units).value, w, op, a);
    ExprShows(e, m, o, schema, w, a);
    ExprShows(e, m, o, schema, w, Raw);
    ExprShows(e, m, o, schema, w, OnlyParts);
  }

  // ----- plans -----

  ghost predicate ListReflects(uss: seq<seq<ColumnUsage>>, es: seq<Expr>, w: Watch) {
    |uss| == |es| && forall i, a :: 0 <= i < |uss| ==> (Any(uss[i], w, a) <==> Shows(es[i], w, a))
  }

  predicate AnyShows(es: seq<Expr>, w: Watch, a: Aspect) {
    exists i :: 0 <= i < |es| && Shows(es[i], w, a)
  }

  /** The recorded usages are the occurrences in the expressions. */
  ghost predicate Told(us: seq<ColumnUsage>, es: seq<Expr>, w: Watch) {
    forall a :: Any(us, w, a) <==> AnyShows(es, w, a)
  }

  lemma {:induction false} ZipReflects(keys: seq<ColumnKey>, uss: seq<seq<ColumnUsage>>, es: seq<Expr>, w: Watch)
    requires ListReflects(uss, es, w)
    ensures Reflects(ZipMap(keys, uss), ZipMap(keys, es), w)
    decreases |keys| + |uss|
  {
    if |keys| == 0 || |uss| == 0 {
    } else if |keys| < |uss| {
      assert ListReflects(uss[..|keys|], es[..|keys|], w);
      ZipReflects(keys, uss[..|keys|], es[..|keys|], w);
    } else if |keys| > |uss| {
      ZipReflects(keys[..|uss|], uss, es, w);
    } else {
      var n := |keys| - 1;
      assert ListReflects(uss[..n], es[..n], w);
      ZipReflects(keys[..n], uss[..n], es[..n], w);
    }
  }

  lemma UsagesReflect(es: seq<Expr>, m: LineageMap, o: Origins, schema: seq<Field>, w: Watch)
    requires Reflects(m, o, w) && Typed(schema, w) && UsagesOf(es, m, schema, w.units).Ok?
    ensures ListReflects(UsagesOf(es, m, schema, w.units).value, InlineAll(es, o), w)
    ensures Told(Flatten(UsagesOf(es, m, schema, w.units).value), InlineAll(es, o), w)
  {
    var uss := UsagesOf(es, m, schema, w.units).value;
    forall i, a | 0 <= i < |es| ensures Any(uss[i], w, a) <==> Shows(InlineAll(es, o)[i], w, a) {
      ExprShows(es[i], m, o, schema, w, a);
    }
    FlattenTold(uss, InlineAll(es, o), w);
  }

  lemma AnyShowsAppend(es: seq<Expr>, fs: seq<Expr>, w: Watch, a: Aspect)
    ensures AnyShows(es + fs, w, a) <==> AnyShows(es, w, a) || AnyShows(fs, w, a)
  {
    var gs := es + fs;
    if i :| 0 <= i < |es| && Shows(es[i], w, a) {
      assert gs[i] == es[i];
    }
    if i :| 0 <= i < |fs| && Shows(fs[i], w, a) {
      assert gs[|es| + i] == fs[i];
    }
  }

  lemma AppendTold(us: seq<ColumnUsage>, es: seq<Expr>, vs: seq<ColumnUsage>, fs: seq<Expr>, w: Watch)
    requires Told(us, es, w) && Told(vs, fs, w)
    ensures Told(us + vs, es + fs, w)
  {
    forall a ensures Any(us + vs, w, a) <==> AnyShows(es + fs, w, a) {
      AppendAny(us, vs, w, a);
      AnyShowsAppend(es, fs, w, a);
    }
  }

  lemma OneTold(us: seq<ColumnUsage>, e: Expr, w: Watch)
    requires forall a :: Any(us, w, a) <==> Shows(e, w, a)
    ensures Told(us, [e], w)
  {
    assert [e][0] == e;
  }

  lemma {:induction false} FlattenTold(uss: seq<seq<ColumnUsage>>, es: seq<Expr>, w: Watch)
    requires ListReflects(uss, es, w)
    ensures Told(Flatten(uss), es, w)
  {
    if uss != [] {
      var n := |uss| - 1;
      assert ListReflects(uss[..n], es[..n], w);
      FlattenTold(uss[..n], es[..n], w);
      OneTold(uss[n], es[n], w);
      AppendTold(Flatten(uss[..n]), es[..n], uss[n], [es[n]], w);
      assert es[..n] + [es[n]] == es;
    }
  }

  /** Every schema of the plan that has the column gives it the watched type. */
  predicate PlanTyped(p: Plan, w: Watch) {
    Typed(Schema(p), w) &&
    match p
    case TableScan(_, _, _) => true
    case Join(left, right, _, _, _) => PlanTyped(left, w) && PlanTyped(right, w)
    case Projection(input, _, _) => PlanTyped(input, w)
    case Aggregate(input, _, _, _) => PlanTyped(input, w)
    case SubqueryAlias(input, _) => PlanTyped(input, w)
    case Filter(input, _) => PlanTyped(input, w)
    case Sort(input, _) => PlanTyped(input, w)
    case Limit(input, _, _) => PlanTyped(input, w)
  }

  /** No column name belongs to both sides of a join. */
  predicate Unambiguous(p: Plan) {
    match p
    case TableScan(_, _, _) => true
    case Join(left, right, _, _, _) => Unambiguous(left) && Unambiguous(right) && OriginsOf(left).Keys !! OriginsOf(right).Keys
    case Projection(input, _, _) => Unambiguous(input)
    case Aggregate(input, _, _, _) => Unambiguous(input)
    case SubqueryAlias(input, _) => Unambiguous(input)
    case Filter(input, _) => Unambiguous(input)
    case Sort(input, _) => Unambiguous(input)
    case Limit(input, _, _) => Unambiguous(input)
  }

  ghost predicate PlanReflects(p: Plan, w: Watch) {
    && Analyze(p, w.units).Ok?
    && Reflects(Analyze(p, w.units).value.output, OriginsOf(p), w)
    && Told(Analyze(p, w.units).value.recorded, Expressions(p), w)
  }

  lemma ScanReflects(p: Plan, w: Watch)
    requires p.TableScan? && Analyze(p, w.units).Ok? && PlanTyped(p, w)
    ensures PlanReflects(p, w)
  {
    var keys, us := Keys(p.fields), BaseUsages(p.fields);
    forall i, a | 0 <= i < |us| ensures Any(us[i], w, a) <==> Shows(ColumnList(keys)[i], w, a) {
      BaseShows(keys[i], p.fields[i].dataType, w, a);
    }
    ZipReflects(keys, us, ColumnList(keys), w);
    UsagesReflect(p.filters, ZipMap(keys, us), OriginsOf(p), p.fields, w);
  }

  /** Recording some expressions over an analysed input. */
  lemma InputTold(input: Plan, es: seq<Expr>, w: Watch)
    requires PlanReflects(input, w) && Typed(Schema(input), w)
    requires UsagesOf(es, Analyze(input, w.units).value.output, Schema(input), w.units).Ok?
    ensures var a := Analyze(input, w.units).value;
      var uss := UsagesOf(es, a.output, Schema(input), w.units).value;
      ListReflects(uss, InlineAll(es, OriginsOf(input)), w) &&
      Told(a.recorded + Flatten(uss), Expressions(input) + InlineAll(es, OriginsOf(input)), w)
  {
    var a := Analyze(input, w.units).value;
    UsagesReflect(es, a.output, OriginsOf(input), Schema(input), w);
    AppendTold(a.recorded, Expressions(input), Flatten(UsagesOf(es, a.output, Schema(input), w.units).value),
               InlineAll(es, OriginsOf(input)), w);
  }

  lemma LookUpReflects(m: LineageMap, o: Origins, keys: seq<ColumnKey>, w: Watch)
    requires Reflects(m, o, w)
    ensures ListReflects(LookUp(m, keys), OriginList(o, keys), w)
  {
    assert Operands(Literal(Null)) == [];
  }

  lemma AppendReflects(uss: seq<seq<ColumnUsage>>, es: seq<Expr>, vss: seq<seq<ColumnUsage>>, fs: seq<Expr>, w: Watch)
    requires ListReflects(uss, es, w) && ListReflects(vss, fs, w)
    ensures ListReflects(uss + vss, es + fs, w)
  {
  }

  lemma PaddedReflects(uss: seq<seq<ColumnUsage>>, es: seq<Expr>, n: nat, w: Watch)
    requires ListReflects(uss, es, w)
    ensures ListReflects(uss + seq(n, _ => []), es + seq(n, _ => Literal(Null)), w)
  {
    assert Operands(Literal(Null)) == [];
    assert forall a :: !Shows(Literal(Null), w, a) && !Any([], w, a);
    AppendReflects(uss, es, seq(n, _ => []), seq(n, _ => Literal(Null)), w);
  }

  /** Over every plan: the output lineage and the recorded usages say what the
      expressions, read down to the tables, say. */
  lemma {:induction false} PlanTells(p: Plan, w: Watch)
    requires Analyze(p, w.units).Ok? && PlanTyped(p, w) && Unambiguous(p)
    ensures PlanReflects(p, w)
    decreases p, 1
  {
    match p
    case TableScan(_, _, _) => ScanReflects(p, w);
    case Projection(input, exprs, out) =>
      PlanTells(input, w);
      InputTold(input, Consumed(exprs, |out|), w);
      ZipReflects(Keys(out), UsagesOf(Consumed(exprs, |out|), Analyze(input, w.units).value.output, Schema(input), w.units).value,
                  InlineAll(Consumed(exprs, |out|), OriginsOf(input)), w);
    case Aggregate(input, group, aggr, out) =>
      PlanTells(input, w);
      AggregateTells(p, w);
    case Filter(input, predicate_) =>
      PlanTells(input, w);
      InputTold(input, [predicate_], w);
    case Sort(input, keys) =>
      PlanTells(input, w);
      InputTold(input, keys, w);
    case Limit(input, skip, fetch) =>
      PlanTells(input, w);
      InputTold(input, OptionList(skip) + OptionList(fetch), w);
    case SubqueryAlias(input, out) =>
      PlanTells(input, w);
      var m, keys := Analyze(input, w.units).value.output, Keys(Schema(input));
      LookUpReflects(m, OriginsOf(input), keys, w);
      ZipReflects(Keys(out), LookUp(m, keys), OriginList(OriginsOf(input), keys), w);
    case Join(left, right, _, _, _) =>
      PlanTells(left, w);
      PlanTells(right, w);
      JoinTells(p, w);
  }

  lemma AggregateTells(p: Plan, w: Watch)
    requires p.Aggregate? && PlanReflects(p.input, w) && Analyze(p, w.units).Ok? && PlanTyped(p, w)
    ensures PlanReflects(p, w)
  {
    var es := Consumed(p.group + p.aggr, |p.out|);
    InputTold(p.input, es, w);
    var uss := UsagesOf(es, Analyze(p.input, w.units).value.output, Schema(p.input), w.units).value;
    var inlined := InlineAll(es, OriginsOf(p.input));
    PaddedReflects(uss, inlined, |p.out| - |uss|, w);
    ZipReflects(Keys(p.out), uss + seq(|p.out| - |uss|, _ => []), inlined + seq(|p.out| - |uss|, _ => Literal(Null)), w);
  }

  lemma {:induction false} OnTold(on: seq<(Expr, Expr)>, j: Plan, l: LineageMap, r: LineageMap, w: Watch)
    requires j.Join? && OnUsages(on, j, l, r, w.units).Ok?
    requires Reflects(l, OriginsOf(j.left), w) && Reflects(r, OriginsOf(j.right), w) && PlanTyped(j, w)
    ensures Told(OnUsages(on, j, l, r, w.units).value, InlineOn(on, OriginsOf(j.left), OriginsOf(j.right)), w)
  {
    if on != [] {
      var n := |on| - 1;
      OnTold(on[..n], j, l, r, w);
      var before := OnUsages(on[..n], j, l, r, w.units).value;
      var x, y := Inline(on[n].0, OriginsOf(j.left)), Inline(on[n].1, OriginsOf(j.right));
      var xs := LineageForExpr(on[n].0, l, Schema(j.left), w.units).value;
      var ys := LineageForExpr(on[n].1, r, Schema(j.right), w.units).value;
      forall a ensures (Any(xs, w, a) <==> Shows(x, w, a)) && (Any(ys, w, a) <==> Shows(y, w, a)) {
        ExprShows(on[n].0, l, OriginsOf(j.left), Schema(j.left), w, a);
        ExprShows(on[n].1, r, OriginsOf(j.right), Schema(j.right), w, a);
      }
      OneTold(xs, x, w);
      OneTold(ys, y, w);
      var es := InlineOn(on[..n], OriginsOf(j.left), OriginsOf(j.right));
      AppendTold(before, es, xs, [x], w);
      AppendTold(before + xs, es + [x], ys, [y], w);
      assert es + [x] + [y] == es + [x, y];
    }
  }

  lemma MergeReflects(l: LineageMap, r: LineageMap, o: Origins, q: Origins, w: Watch)
    requires Reflects(l, o, w) && Reflects(r, q, w) && o.Keys !! q.Keys
    ensures Reflects(MergeMaps(l, r), o + q, w)
  {
    var m := MergeMaps(l, r);
    forall k, a | k in m ensures Any(m[k], w, a) <==> Shows((o + q)[k], w, a) {
      assert m[k] == if k in l then l[k] else r[k];
      assert k in l ==> k !in q;
    }
  }

  lemma JoinTells(p: Plan, w: Watch)
    requires p.Join? && PlanReflects(p.left, w) && PlanReflects(p.right, w)
    requires Analyze(p, w.units).Ok? && PlanTyped(p, w) && Unambiguous(p)
    ensures PlanReflects(p, w)
  {
    var a, b := Analyze(p.left, w.units).value, Analyze(p.right, w.units).value;
    var o, q := OriginsOf(p.left), OriginsOf(p.right);
    var on := OnUsages(p.on, p, a.output, b.output, w.units).value;
    MergeReflects(a.output, b.output, o, q, w);
    UsagesReflect(OptionList(p.filter), MergeMaps(a.output, b.output), o + q, p.out, w);
    var filters := Flatten(UsagesOf(OptionList(p.filter), MergeMaps(a.output, b.output), p.out, w.units).value);
    OnTold(p.on, p, a.output, b.output, w);
    AppendTold(a.recorded, Expressions(p.left), b.recorded, Expressions(p.right), w);
    AppendTold(a.recorded + b.recorded, Expressions(p.left) + Expressions(p.right), on, InlineOn(p.on, o, q), w);
    AppendTold(a.recorded + b.recorded + on, Expressions(p.left) + Expressions(p.right) + InlineOn(p.on, o, q),
               filters, InlineAll(OptionList(p.filter), o + q), w);
    var left, right := Keys(Schema(p.left)), Keys(Schema(p.right));
    LookUpReflects(a.output, o, left, w);
    LookUpReflects(b.output, q, right, w);
    AppendReflects(LookUp(a.output, left), OriginList(o, left), LookUp(b.output, right), OriginList(q, right), w);
    ZipReflects(Keys(p.out), LookUp(a.output, left) + LookUp(b.output, right), OriginList(o, left) + OriginList(q, right), w);
  }

  // ----- the annotation -----

  predicate MentionedIn(es: seq<Expr>, c: ColumnKey) {
    exists i :: 0 <= i < |es| && Mentions(es[i], c)
  }

  predicate ExposedIn(es: seq<Expr>, c: ColumnKey, units: UnitNames) {
    exists i :: 0 <= i < |es| && Exposed(es[i], c, units)
  }

  predicate AskedIn(es: seq<Expr>, c: ColumnKey, unit: Unit, units: UnitNames) {
    exists i :: 0 <= i < |es| && Asks(es[i], c, unit, units)
  }

  /** A column is annotated exactly when it is a date or timestamp, some expression
      mentions it, and none uses it but through a component extraction. The annotation
      holds exactly the components that expressions extract. */
  lemma AnnotatedExactly(p: Plan, w: Watch)
    requires Analyze(p, w.units).Ok? && PlanTyped(p, w) && Unambiguous(p)
    ensures DateAnnotation(p, w.units, w.column).Some? <==>
      (w.dataType == Date32 || w.dataType == Timestamp) &&
      MentionedIn(Expressions(p), w.column) && !ExposedIn(Expressions(p), w.column, w.units)
    ensures DateAnnotation(p, w.units, w.column).Some? ==>
      forall unit :: unit in DateAnnotation(p, w.units, w.column).value <==> AskedIn(Expressions(p), w.column, unit, w.units)
  {
    PlanTells(p, w);
    AnnotationFromUsages(p, w.units, w.column);
    var us := Analyze(p, w.units).value.recorded;
    UsedExactly(us, Expressions(p), w);
    GuardedExactly(us, Expressions(p), w);
    forall unit ensures Asked(us, w.column, unit) <==> AskedIn(Expressions(p), w.column, unit, w.units) {
      AskedExactly(us, Expressions(p), w, unit);
    }
  }

  /** The findings of the pass, told from the query: the column is among them exactly
      under that condition, and with exactly those components. */
  lemma FindingsExactly(found: seq<DateExtraction>, p: Plan, w: Watch)
    requires Analyze(p, w.units).Ok? && PlanTyped(p, w) && Unambiguous(p) && AreFindings(found, p, w.units)
    ensures (exists i :: 0 <= i < |found| && found[i].column == w.column) <==>
      (w.dataType == Date32 || w.dataType == Timestamp) &&
      MentionedIn(Expressions(p), w.column) && !ExposedIn(Expressions(p), w.column, w.units)
    ensures forall i :: 0 <= i < |found| && found[i].column == w.column ==>
      forall unit :: unit in found[i].components <==> AskedIn(Expressions(p), w.column, unit, w.units)
  {
    AnnotatedExactly(p, w);
    if DateAnnotation(p, w.units, w.column).Some? {
      var finding := DateExtraction(w.column, DateAnnotation(p, w.units, w.column).value);
      assert finding in found;
      var i :| 0 <= i < |found| && found[i] == finding;
      assert found[i].column == w.column;
    }
  }

  lemma FirstUseExists(us: seq<ColumnUsage>, c: ColumnKey, n: nat) returns (i: nat)
    requires n < |us| && us[n].base == c
    ensures FirstUse(us, c, i)
  {
    if j: nat :| j < n && us[j].base == c {
      i := FirstUseExists(us, c, j);
    } else {
      i := n;
    }
  }

  lemma UsedExactly(us: seq<ColumnUsage>, es: seq<Expr>, w: Watch)
    requires Told(us, es, w)
    ensures FirstUsedAsDate(us, w.column) <==> (w.dataType == Date32 || w.dataType == Timestamp) && MentionedIn(es, w.column)
  {
    assert !AnyShows(es, w, Mistyped);
    assert !Any(us, w, Mistyped);
    assert forall i :: 0 <= i < |us| && us[i].base == w.column ==> Has(us[i], w, Used) && !Has(us[i], w, Mistyped);
    if MentionedIn(es, w.column) {
      var k :| 0 <= k < |es| && Mentions(es[k], w.column);
      assert Shows(es[k], w, Used);
      assert AnyShows(es, w, Used);
      var n :| 0 <= n < |us| && us[n].base == w.column && Has(us[n], w, Used);
      var first := FirstUseExists(us, w.column, n);
    }
    if i: nat :| FirstUse(us, w.column, i) {
      assert Any(us, w, Used);
      var k :| 0 <= k < |es| && Shows(es[k], w, Used);
      assert Mentions(es[k], w.column);
    }
  }

  lemma GuardedExactly(us: seq<ColumnUsage>, es: seq<Expr>, w: Watch)
    requires Told(us, es, w)
    ensures OnlyExtracted(us, w.column) <==> !ExposedIn(es, w.column, w.units)
  {
    if ExposedIn(es, w.column, w.units) {
      var k :| 0 <= k < |es| && Exposed(es[k], w.column, w.units);
      var a := if IsColumn(es[k], w.column) then Raw else Spoiled;
      assert Shows(es[k], w, a);
      assert AnyShows(es, w, a);
      var i :| 0 <= i < |us| && us[i].base == w.column && Has(us[i], w, a);
      assert !IsExtraction(us[i], 0);
    }
    if i :| 0 <= i < |us| && us[i].base == w.column && !IsExtraction(us[i], 0) {
      var a := if us[i].operations == [] then Raw else Spoiled;
      assert Has(us[i], w, a);
      assert Any(us, w, a);
      var k :| 0 <= k < |es| && Shows(es[k], w, a);
      if IsColumn(es[k], w.column) {
        ColumnIsExposed(es[k], w.column, w.units);
      }
      assert Exposed(es[k], w.column, w.units);
    }
  }

  lemma AskedExactly(us: seq<ColumnUsage>, es: seq<Expr>, w: Watch, unit: Unit)
    requires Told(us, es, w)
    ensures Asked(us, w.column, unit) <==> AskedIn(es, w.column, unit, w.units)
  {
    assert Any(us, w, Part(unit)) <==> AnyShows(es, w, Part(unit));
    if i :| 0 <= i < |us| && us[i].base == w.column && Leads(us[i], unit) {
      assert Has(us[i], w, Part(unit));
      var k :| 0 <= k < |es| && Shows(es[k], w, Part(unit));
      assert Asks(es[k], w.column, unit, w.units);
    }
    if k :| 0 <= k < |es| && Asks(es[k], w.column, unit, w.units) {
      assert Shows(es[k], w, Part(unit));
      var i :| 0 <= i < |us| && us[i].base == w.column && Has(us[i], w, Part(unit));
      assert Leads(us[i], unit);
    }
  }
}
