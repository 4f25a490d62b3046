/** The lineage analyzer: which operations lie between each base column and
    each place where the plan looks at it. */
module LineageAnalysis {
  import opened Common
  import opened LineageLanguage

  datatype Operation =
    | Extract(unit: Unit)
    | VariantGet(path: string)
    | SubstringSearch
    | OtherOp

  datatype ColumnUsage = ColumnUsage(base: ColumnKey, dataType: DataType, operations: seq<Operation>)

  datatype UsageStats = UsageStats(dataType: DataType, usages: seq<seq<Operation>>)

  datatype DateExtraction = DateExtraction(column: ColumnKey, components: set<Unit>)

  type LineageMap = map<ColumnKey, seq<ColumnUsage>>
  type Stats = map<ColumnKey, UsageStats>

  /** What the analysis of a plan produces: lineage of the output columns and,
      in order, every usage it recorded. */
  datatype Analysis = Analysis(output: LineageMap, recorded: seq<ColumnUsage>)

  function PushOp(usages: seq<ColumnUsage>, op: Operation): (r: seq<ColumnUsage>)
    ensures |r| == |usages|
  {
    seq(|usages|, i requires 0 <= i < |usages| => usages[i].(operations := usages[i].operations + [op]))
  }

  /** The schema's answer for a column that the lineage map does not know. */
  function FieldType(schema: seq<Field>, key: ColumnKey): Result<DataType> {
    if schema == [] then Err
    else if schema[0].key == key || (key.relation.None? && schema[0].key.name == key.name) then Ok(schema[0].dataType)
    else FieldType(schema[1..], key)
  }

  predicate IsSubstringPattern(pattern: string) {
    && |pattern| > 2
    && pattern[0] == '%' && pattern[|pattern| - 1] == '%'
    && forall i :: 0 < i < |pattern| - 1 ==> pattern[i] != '%' && pattern[i] != '_'
  }

  function LineageForExpr(e: Expr, lineage: LineageMap, schema: seq<Field>, units: UnitNames): Result<seq<ColumnUsage>>
    decreases e, 1
  {
    match e
    case Column(key) =>
      if key in lineage then Ok(lineage[key])
      else
        var t :- FieldType(schema, key);
        Ok([ColumnUsage(key, t, [])])
    case Alias(inner) => LineageForExpr(inner, lineage, schema, units)
    case ScalarFunction(_, args) =>
      if IsDatePart(e, units) then
        var us :- LineageForExpr(args[1], lineage, schema, units);
        Ok(PushOp(us, Extract(PartToUnit(args[0], units).value)))
      else if IsVariantGet(e) then
        var us :- LineageForExpr(args[0], lineage, schema, units);
        Ok(PushOp(us, VariantGet(args[1].value.s)))
      else PropagateOther(args, lineage, schema, units)
    case Like(inner, pattern, ci, esc) =>
      if !ci && !esc && IsText(pattern) && IsSubstringPattern(pattern.value.s) then
        var us :- LineageForExpr(inner, lineage, schema, units);
        Ok(PushOp(us, SubstringSearch))
      else
        var a :- LineageForExpr(inner, lineage, schema, units);
        var b :- LineageForExpr(pattern, lineage, schema, units);
        Ok(PushOp(a, OtherOp) + PushOp(b, OtherOp))
    case Cast(inner, _) =>
      var us :- LineageForExpr(inner, lineage, schema, units);
      Ok(PushOp(us, OtherOp))
    case TryCast(inner, _) =>
      var us :- LineageForExpr(inner, lineage, schema, units);
      Ok(PushOp(us, OtherOp))
    case Literal(_) => Ok([])
    case AggregateFunction(_, args) => PropagateOther(args, lineage, schema, units)
    case Other(_, children) => PropagateOther(children, lineage, schema, units)
  }

  function PropagateOther(es: seq<Expr>, lineage: LineageMap, schema: seq<Field>, units: UnitNames): Result<seq<ColumnUsage>>
    decreases es, 0
  {
    if es == [] then Ok([])
    else
      var us :- LineageForExpr(es[0], lineage, schema, units);
      var rest :- PropagateOther(es[1..], lineage, schema, units);
      Ok(PushOp(us, OtherOp) + rest)
  }

  /** The lineage of each expression of a list, or an error if one has none. */
  function UsagesOf(es: seq<Expr>, lineage: LineageMap, schema: seq<Field>, units: UnitNames): (r: Result<seq<seq<ColumnUsage>>>)
    ensures r.Ok? ==> |r.value| == |es|
  {
    if forall i :: 0 <= i < |es| ==> LineageForExpr(es[i], lineage, schema, units).Ok? then
      Ok(seq(|es|, i requires 0 <= i < |es| && LineageForExpr(es[i], lineage, schema, units).Ok? =>
               LineageForExpr(es[i], lineage, schema, units).value))
    else Err
  }

  function OptionList<T>(o: Option<T>): seq<T> {
    if o.Some? then [o.value] else []
  }

  function LookUp(m: LineageMap, keys: seq<ColumnKey>): (r: seq<seq<ColumnUsage>>)
    ensures |r| == |keys|
  {
    seq(|keys|, i requires 0 <= i < |keys| => if keys[i] in m then m[keys[i]] else [])
  }

  function BaseUsages(fields: seq<Field>): (r: seq<seq<ColumnUsage>>)
    ensures |r| == |fields|
  {
    seq(|fields|, i requires 0 <= i < |fields| => [ColumnUsage(fields[i].key, fields[i].dataType, [])])
  }

  function MergeMaps(a: LineageMap, b: LineageMap): LineageMap {
    map k | k in a.Keys + b.Keys :: (if k in a then a[k] else []) + (if k in b then b[k] else [])
  }

  /** The sides of the join conditions: left and right alternate, as recorded. */
  function OnUsages(on: seq<(Expr, Expr)>, j: Plan, l: LineageMap, r: LineageMap, units: UnitNames): Result<seq<ColumnUsage>>
    requires j.Join?
  {
    if on == [] then Ok([])
    else
      var n := |on| - 1;
      var before :- OnUsages(on[..n], j, l, r, units);
      var lu :- LineageForExpr(on[n].0, l, Schema(j.left), units);
      var ru :- LineageForExpr(on[n].1, r, Schema(j.right), units);
      Ok(before + lu + ru)
  }

  /** The expressions that an output schema of `n` columns consumes. */
  function Consumed(es: seq<Expr>, n: nat): seq<Expr> {
    if |es| <= n then es else es[..n]
  }

  function Analyze(p: Plan, units: UnitNames): Result<Analysis> {
    match p
    case TableScan(_, fields, filters) =>
      var m := ZipMap(Keys(fields), BaseUsages(fields));
      var us :- UsagesOf(filters, m, fields, units);
      Ok(Analysis(m, Flatten(us)))
    case Projection(input, exprs, out) =>
      var a :- Analyze(input, units);
      var us :- UsagesOf(Consumed(exprs, |out|), a.output, Schema(input), units);
      Ok(Analysis(ZipMap(Keys(out), us), a.recorded + Flatten(us)))
    case Filter(input, predicate_) =>
      var a :- Analyze(input, units);
      var us :- UsagesOf([predicate_], a.output, Schema(input), units);
      Ok(Analysis(a.output, a.recorded + Flatten(us)))
    case Aggregate(input, group, aggr, out) =>
      var a :- Analyze(input, units);
      var us :- UsagesOf(Consumed(group + aggr, |out|), a.output, Schema(input), units);
      Ok(Analysis(ZipMap(Keys(out), us + seq(|out| - |us|, _ => [])), a.recorded + Flatten(us)))
    case Join(left, right, on, filter, out) =>
      var a :- Analyze(left, units);
      var b :- Analyze(right, units);
      var conditions :- OnUsages(on, p, a.output, b.output, units);
      var us :- UsagesOf(OptionList(filter), MergeMaps(a.output, b.output), out, units);
      var columns := LookUp(a.output, Keys(Schema(left))) + LookUp(b.output, Keys(Schema(right)));
      Ok(Analysis(ZipMap(Keys(out), columns), a.recorded + b.recorded + conditions + Flatten(us)))
    case SubqueryAlias(input, out) =>
      var a :- Analyze(input, units);
      Ok(Analysis(ZipMap(Keys(out), LookUp(a.output, Keys(Schema(input)))), a.recorded))
    case Sort(input, keys) =>
      var a :- Analyze(input, units);
      var us :- UsagesOf(keys, a.output, Schema(input), units);
      Ok(Analysis(a.output, a.recorded + Flatten(us)))
    case Limit(input, skip, fetch) =>
      var a :- Analyze(input, units);
      var us :- UsagesOf(OptionList(skip) + OptionList(fetch), a.output, Schema(input), units);
      Ok(Analysis(a.output, a.recorded + Flatten(us)))
  }

  // ----- recorded usages and their verdict -----

  function RecordOne(stats: Stats, u: ColumnUsage): Stats {
    var entry := if u.base in stats then stats[u.base] else UsageStats(u.dataType, []);
    stats[u.base := entry.(usages := entry.usages + [u.operations])]
  }

  function RecordAll(stats: Stats, us: seq<ColumnUsage>): Stats {
    if us == [] then stats else RecordOne(RecordAll(stats, us[..|us| - 1]), us[|us| - 1])
  }

  lemma {:induction false} RecordAllAppend(stats: Stats, a: seq<ColumnUsage>, b: seq<ColumnUsage>)
    ensures RecordAll(RecordAll(stats, a), b) == RecordAll(stats, a + b)
  {
    if b == [] {
      assert a + b == a;
    } else {
      RecordAllAppend(stats, a, b[..|b| - 1]);
      assert (a + b)[..|a + b| - 1] == a + b[..|b| - 1];
    }
  }

  lemma RecordAllTwice(stats: Stats, a: seq<ColumnUsage>, b: seq<ColumnUsage>, c: seq<ColumnUsage>)
    ensures RecordAll(RecordAll(RecordAll(stats, a), b), c) == RecordAll(stats, a + b + c)
  {
    RecordAllAppend(stats, a, b);
    RecordAllAppend(stats, a + b, c);
  }

  /** Nothing that was recorded is forgotten. */
  lemma {:induction false} RecordedIsKept(us: seq<ColumnUsage>, i: nat)
    requires i < |us|
    ensures us[i].base in RecordAll(map[], us)
    ensures us[i].operations in RecordAll(map[], us)[us[i].base].usages
  {
    if i < |us| - 1 {
      RecordedIsKept(us[..|us| - 1], i);
    }
  }

  function LeadingUnits(ops: seq<Operation>): set<Unit> {
    if ops != [] && ops[0].Extract? then {ops[0].unit} + LeadingUnits(ops[1..]) else {}
  }

  function UnionUnits(usages: seq<seq<Operation>>): set<Unit> {
    if usages == [] then {} else UnionUnits(usages[..|usages| - 1]) + LeadingUnits(usages[|usages| - 1])
  }

  predicate IsDatePartType(t: DataType) {
    t.Date32? || t.Timestamp?
  }

  /** The components that an annotation would keep, if the column gets one. */
  function DateUnits(s: UsageStats): Option<set<Unit>> {
    if IsDatePartType(s.dataType) && s.usages != [] &&
       forall i :: 0 <= i < |s.usages| ==> LeadingUnits(s.usages[i]) != {}
    then Some(UnionUnits(s.usages))
    else None
  }

  lemma {:induction false} UnionContains(usages: seq<seq<Operation>>, i: nat)
    requires i < |usages|
    ensures LeadingUnits(usages[i]) <= UnionUnits(usages)
  {
    if i < |usages| - 1 {
      UnionContains(usages[..|usages| - 1], i);
    }
  }

  /** The date annotation the optimizer derives for a base column of a plan. */
  function DateAnnotation(p: Plan, units: UnitNames, column: ColumnKey): Option<set<Unit>>
    requires Analyze(p, units).Ok?
  {
    var stats := RecordAll(map[], Analyze(p, units).value.recorded);
    if column in stats then DateUnits(stats[column]) else None
  }

  /** The findings list every annotated column with its annotation, and nothing else. */
  ghost predicate AreFindings(found: seq<DateExtraction>, p: Plan, units: UnitNames)
    requires Analyze(p, units).Ok?
  {
    && (forall i :: 0 <= i < |found| ==> DateAnnotation(p, units, found[i].column) == Some(found[i].components))
    && (forall c :: DateAnnotation(p, units, c).Some? ==> DateExtraction(c, DateAnnotation(p, units, c).value) in found)
  }

  // ----- the analyzer object -----

  class LineageAnalyzer {
    var stats: Stats
    const units: UnitNames

    constructor (units: UnitNames)
      ensures stats == map[] && this.units == units
    {
      this.units := units;
      stats := map[];
    }

    method Record(usages: seq<ColumnUsage>)
      modifies this`stats
      ensures stats == RecordAll(old(stats), usages)
    {
      for i := 0 to |usages|
        invariant stats == RecordAll(old(stats), usages[..i])
      {
        var usage := usages[i];
        if usage.base !in stats {
          stats := stats[usage.base := UsageStats(usage.dataType, [])];
        }
        var entry := stats[usage.base];
        stats := stats[usage.base := entry.(usages := entry.usages + [usage.operations])];
        assert usages[..i + 1][..i] == usages[..i];
      }
      assert usages[..|usages|] == usages;
    }

    /** Computes and records the lineage of each expression in turn. */
    method RecordExprs(es: seq<Expr>, lineage: LineageMap, schema: seq<Field>) returns (r: Result<seq<seq<ColumnUsage>>>)
      modifies this`stats
      ensures r == UsagesOf(es, lineage, schema, units)
      ensures r.Ok? ==> stats == RecordAll(old(stats), Flatten(r.value))
    {
      var all: seq<seq<ColumnUsage>> := [];
      for i := 0 to |es|
        invariant |all| == i
        invariant forall j :: 0 <= j < i ==> LineageForExpr(es[j], lineage, schema, units) == Ok(all[j])
        invariant stats == RecordAll(old(stats), Flatten(all))
      {
        var us := LineageForExpr(es[i], lineage, schema, units);
        if us.Err? {
          return Err;
        }
        Record(us.value);
        RecordAllAppend(old(stats), Flatten(all), us.value);
        assert (all + [us.value])[..i] == all;
        all := all + [us.value];
      }
      r := Ok(all);
      assert all == UsagesOf(es, lineage, schema, units).value;
    }

    method RecordOn(j: Plan, l: LineageMap, r: LineageMap) returns (out: Result<seq<ColumnUsage>>)
      requires j.Join?
      modifies this`stats
      ensures out.Ok? ==> out == OnUsages(j.on, j, l, r, units)
      ensures out.Err? ==> OnUsages(j.on, j, l, r, units).Err?
      ensures out.Ok? ==> stats == RecordAll(old(stats), out.value)
    {
      var all: seq<ColumnUsage> := [];
      for i := 0 to |j.on|
        invariant OnUsages(j.on[..i], j, l, r, units) == Ok(all)
        invariant stats == RecordAll(old(stats), all)
      {
        var lu := LineageForExpr(j.on[i].0, l, Schema(j.left), units);
        var ru := LineageForExpr(j.on[i].1, r, Schema(j.right), units);
        if lu.Err? || ru.Err? {
          OnPrefixError(j.on, j, l, r, units, i);
          return Err;
        }
        Record(lu.value);
        Record(ru.value);
        RecordAllTwice(old(stats), all, lu.value, ru.value);
        OnUsagesStep(j.on, j, l, r, units, i);
        all := all + lu.value + ru.value;
      }
      assert j.on[..|j.on|] == j.on;
      out := Ok(all);
    }

    /** Analyzing a plan adds exactly the usages of `Analyze` to the statistics. */
    method AnalyzePlan(p: Plan) returns (r: Result<LineageMap>)
      modifies this`stats
      ensures r.Ok? <==> Analyze(p, units).Ok?
      ensures r.Ok? ==> r.value == Analyze(p, units).value.output
      ensures r.Ok? ==> stats == RecordAll(old(stats), Analyze(p, units).value.recorded)
      decreases p
    {
      match p {
        case TableScan(_, fields, filters) =>
          var m := ZipMap(Keys(fields), BaseUsages(fields));
          var us :- RecordExprs(filters, m, fields);
          r := Ok(m);
        case Projection(input, exprs, out) =>
          var m :- AnalyzePlan(input);
          var us :- RecordExprs(Consumed(exprs, |out|), m, Schema(input));
          RecordAllAppend(old(stats), Analyze(input, units).value.recorded, Flatten(us));
          r := Ok(ZipMap(Keys(out), us));
        case Filter(input, predicate_) =>
          var m :- AnalyzePlan(input);
          var us :- RecordExprs([predicate_], m, Schema(input));
          RecordAllAppend(old(stats), Analyze(input, units).value.recorded, Flatten(us));
          r := Ok(m);
        case Aggregate(input, group, aggr, out) =>
          var m :- AnalyzePlan(input);
          var us :- RecordExprs(Consumed(group + aggr, |out|), m, Schema(input));
          RecordAllAppend(old(stats), Analyze(input, units).value.recorded, Flatten(us));
          r := Ok(ZipMap(Keys(out), us + seq(|out| - |us|, _ => [])));
        case Join(_, _, _, _, _) =>
          r := AnalyzeJoin(p);
        case SubqueryAlias(input, out) =>
          var m :- AnalyzePlan(input);
          r := Ok(ZipMap(Keys(out), LookUp(m, Keys(Schema(input)))));
        case Sort(input, keys) =>
          var m :- AnalyzePlan(input);
          var us :- RecordExprs(keys, m, Schema(input));
          RecordAllAppend(old(stats), Analyze(input, units).value.recorded, Flatten(us));
          r := Ok(m);
        case Limit(input, skip, fetch) =>
          var m :- AnalyzePlan(input);
          var us :- RecordExprs(OptionList(skip) + OptionList(fetch), m, Schema(input));
          RecordAllAppend(old(stats), Analyze(input, units).value.recorded, Flatten(us));
          r := Ok(m);
      }
    }

    method AnalyzeJoin(p: Plan) returns (r: Result<LineageMap>)
      requires p.Join?
      modifies this`stats
      ensures r.Ok? <==> Analyze(p, units).Ok?
      ensures r.Ok? ==> r.value == Analyze(p, units).value.output
      ensures r.Ok? ==> stats == RecordAll(old(stats), Analyze(p, units).value.recorded)
      decreases p, 0
    {
      var l :- AnalyzePlan(p.left);
      var m :- AnalyzePlan(p.right);
      ghost var a, b := Analyze(p.left, units).value.recorded, Analyze(p.right, units).value.recorded;
      RecordAllAppend(old(stats), a, b);
      var on :- RecordOn(p, l, m);
      RecordAllAppend(old(stats), a + b, on);
      var us :- RecordExprs(OptionList(p.filter), MergeMaps(l, m), p.out);
      RecordAllAppend(old(stats), a + b + on, Flatten(us));
      r := Ok(ZipMap(Keys(p.out), LookUp(l, Keys(Schema(p.left))) + LookUp(m, Keys(Schema(p.right)))));
    }
  }

  lemma OnUsagesStep(on: seq<(Expr, Expr)>, j: Plan, l: LineageMap, r: LineageMap, units: UnitNames, i: nat)
    requires j.Join? && i < |on| && OnUsages(on[..i], j, l, r, units).Ok?
    requires LineageForExpr(on[i].0, l, Schema(j.left), units).Ok? && LineageForExpr(on[i].1, r, Schema(j.right), units).Ok?
    ensures OnUsages(on[..i + 1], j, l, r, units) ==
      Ok(OnUsages(on[..i], j, l, r, units).value + LineageForExpr(on[i].0, l, Schema(j.left), units).value +
         LineageForExpr(on[i].1, r, Schema(j.right), units).value)
  {
    assert on[..i + 1][..i] == on[..i];
  }

  lemma {:induction false} OnPrefixError(on: seq<(Expr, Expr)>, j: Plan, l: LineageMap, r: LineageMap, units: UnitNames, i: nat)
    requires j.Join? && i < |on|
    requires LineageForExpr(on[i].0, l, Schema(j.left), units).Err? ||
             LineageForExpr(on[i].1, r, Schema(j.right), units).Err?
    ensures OnUsages(on, j, l, r, units).Err?
  {
    if i < |on| - 1 {
      OnPrefixError(on[..|on| - 1], j, l, r, units, i);
    }
  }

  /** The units of the leading run of extractions of one usage. */
  method CollectLeading(usage: seq<Operation>) returns (units: set<Unit>)
    ensures units == LeadingUnits(usage)
  {
    units := {};
    var i := 0;
    while i < |usage| && usage[i].Extract?
      invariant 0 <= i <= |usage|
      invariant units + LeadingUnits(usage[i..]) == LeadingUnits(usage)
    {
      units := units + {usage[i].unit};
      i := i + 1;
    }
  }

  /** Units of one column, scanning its usages and stopping at the first usage
      that does not start with an extraction. */
  method ColumnDateUnits(s: UsageStats) returns (units: Option<set<Unit>>)
    ensures units == DateUnits(s)
  {
    if !IsDatePartType(s.dataType) {
      return None;
    }
    var all: set<Unit> := {};
    for i := 0 to |s.usages|
      invariant all == UnionUnits(s.usages[..i])
      invariant i > 0 ==> all != {}
      invariant forall j :: 0 <= j < i ==> LeadingUnits(s.usages[j]) != {}
    {
      var path := CollectLeading(s.usages[i]);
      if path == {} {
        return None;
      }
      assert s.usages[..i + 1][..i] == s.usages[..i];
      all := all + path;
    }
    assert s.usages[..|s.usages|] == s.usages;
    units := if all != {} then Some(all) else None;
  }

  /** All date annotations, one per annotated base column. */
  method FindDate32Extractions(stats: Stats) returns (found: seq<DateExtraction>)
    ensures forall i :: 0 <= i < |found| ==>
      found[i].column in stats && DateUnits(stats[found[i].column]) == Some(found[i].components)
    ensures forall k :: k in stats && DateUnits(stats[k]).Some? ==> DateExtraction(k, DateUnits(stats[k]).value) in found
    ensures forall i, j :: 0 <= i < j < |found| ==> found[i].column != found[j].column
  {
    found := [];
    var todo := stats.Keys;
    while todo != {}
      invariant todo <= stats.Keys
      invariant forall i :: 0 <= i < |found| ==>
        found[i].column in stats.Keys - todo && DateUnits(stats[found[i].column]) == Some(found[i].components)
      invariant forall k :: k in stats.Keys - todo && DateUnits(stats[k]).Some? ==>
        DateExtraction(k, DateUnits(stats[k]).value) in found
      invariant forall i, j :: 0 <= i < j < |found| ==> found[i].column != found[j].column
    {
      var key :| key in todo;
      var units := ColumnDateUnits(stats[key]);
      if units.Some? {
        found := found + [DateExtraction(key, units.value)];
      }
      todo := todo - {key};
    }
  }

  /** The optimizer pass up to its date findings. */
  method DateFindings(p: Plan, units: UnitNames) returns (r: Result<seq<DateExtraction>>)
    ensures r.Ok? <==> Analyze(p, units).Ok?
    ensures r.Ok? ==> AreFindings(r.value, p, units)
  {
    var analyzer := new LineageAnalyzer(units);
    var _ :- analyzer.AnalyzePlan(p);
    var found := FindDate32Extractions(analyzer.stats);
    r := Ok(found);
  }
}
