/** Which columns get a date annotation, and which one, said in terms of the query. */
module AnnotationExact {
  import opened Common
  import opened LineageLanguage
  import opened LineageAnalysis

  // ----- from the recorded usages -----

  /** The first recorded usage of a column. */
  predicate FirstUse(us: seq<ColumnUsage>, c: ColumnKey, i: nat) {
    i < |us| && us[i].base == c && forall j :: 0 <= j < i ==> us[j].base != c
  }

  predicate IsExtraction(u: ColumnUsage, k: nat) {
    k < |u.operations| && u.operations[k].Extract?
  }

  /** The unit is extracted in the leading run of extractions of a usage. */
  ghost predicate Leads(u: ColumnUsage, unit: Unit) {
    exists k :: 0 <= k < |u.operations| && u.operations[k] == Extract(unit) && forall l :: 0 <= l < k ==> IsExtraction(u, l)
  }

  ghost predicate Asked(us: seq<ColumnUsage>, c: ColumnKey, unit: Unit) {
    exists i :: 0 <= i < |us| && us[i].base == c && Leads(us[i], unit)
  }

  /** Every usage of the column begins with an extraction. */
  predicate OnlyExtracted(us: seq<ColumnUsage>, c: ColumnKey) {
    forall i :: 0 <= i < |us| && us[i].base == c ==> IsExtraction(us[i], 0)
  }

  lemma {:induction false} LeadingUnitsExactly(u: ColumnUsage, unit: Unit)
    ensures unit in LeadingUnits(u.operations) <==> Leads(u, unit)
    decreases |u.operations|
  {
    var ops := u.operations;
    if IsExtraction(u, 0) {
      var rest := u.(operations := ops[1..]);
      LeadingUnitsExactly(rest, unit);
      if Leads(rest, unit) {
        LeadsLater(u, rest, unit);
      }
      if k :| 0 < k < |ops| && ops[k] == Extract(unit) && forall l :: 0 <= l < k ==> IsExtraction(u, l) {
        forall l | 0 <= l < k - 1 ensures IsExtraction(rest, l) {
          assert IsExtraction(u, l + 1);
        }
        assert rest.operations[k - 1] == Extract(unit);
      }
    }
  }

  lemma LeadsLater(u: ColumnUsage, rest: ColumnUsage, unit: Unit)
    requires IsExtraction(u, 0) && rest.operations == u.operations[1..] && Leads(rest, unit)
    ensures Leads(u, unit)
  {
    var k :| 0 <= k < |rest.operations| && rest.operations[k] == Extract(unit) && forall l :: 0 <= l < k ==> IsExtraction(rest, l);
    forall l | 0 <= l < k + 1 ensures IsExtraction(u, l) {
      assert l > 0 ==> IsExtraction(rest, l - 1);
    }
    assert u.operations[k + 1] == Extract(unit);
  }

  lemma {:induction false} UnionExactly(usages: seq<seq<Operation>>, unit: Unit)
    ensures unit in UnionUnits(usages) <==> exists ops :: ops in usages && unit in LeadingUnits(ops)
  {
    if usages != [] {
      var n := |usages| - 1;
      UnionExactly(usages[..n], unit);
      assert usages[n] in usages;
      if ops :| ops in usages[..n] && unit in LeadingUnits(ops) {
        assert ops in usages;
      }
      if ops :| ops in usages && unit in LeadingUnits(ops) {
        assert ops in usages[..n] || ops == usages[n];
      }
    }
  }

  ghost predicate UsedAs(us: seq<ColumnUsage>, c: ColumnKey, ops: seq<Operation>) {
    exists i :: 0 <= i < |us| && us[i].base == c && us[i].operations == ops
  }

  lemma {:induction false} StatsUsages(us: seq<ColumnUsage>, c: ColumnKey, ops: seq<Operation>)
    ensures UsedAs(us, c, ops) <==> c in RecordAll(map[], us) && ops in RecordAll(map[], us)[c].usages
  {
    if us != [] {
      var n := |us| - 1;
      var init := us[..n];
      StatsUsages(init, c, ops);
      if i :| 0 <= i < n && init[i].base == c && init[i].operations == ops {
        assert us[i] == init[i];
      }
      if i :| 0 <= i < n && us[i].base == c && us[i].operations == ops {
        assert us[i] == init[i];
      }
    }
  }

  lemma {:induction false} StatsType(us: seq<ColumnUsage>, c: ColumnKey) returns (i: nat)
    requires c in RecordAll(map[], us)
    ensures FirstUse(us, c, i) && RecordAll(map[], us)[c].dataType == us[i].dataType
    ensures RecordAll(map[], us)[c].usages != []
  {
    var n := |us| - 1;
    if c in RecordAll(map[], us[..n]) {
      i := StatsType(us[..n], c);
      assert us[..n][i] == us[i];
    } else {
      forall j | 0 <= j < n ensures us[j].base != c {
        if us[j].base == c {
          RecordedIsKept(us[..n], j);
        }
      }
      i := n;
    }
  }

  /** The type the schema gave the column where it was first used is a date or a timestamp. */
  ghost predicate FirstUsedAsDate(us: seq<ColumnUsage>, c: ColumnKey) {
    exists i: nat :: FirstUse(us, c, i) && (us[i].dataType == Date32 || us[i].dataType == Timestamp)
  }

  /** A column is annotated exactly when it is a date or timestamp, was used, and every
      recorded usage begins with an extraction; the annotation holds exactly the units
      of the leading extractions. */
  lemma AnnotationFromUsages(p: Plan, units: UnitNames, c: ColumnKey)
    requires Analyze(p, units).Ok?
    ensures var us := Analyze(p, units).value.recorded;
      DateAnnotation(p, units, c).Some? <==> FirstUsedAsDate(us, c) && OnlyExtracted(us, c)
    ensures var us := Analyze(p, units).value.recorded;
      DateAnnotation(p, units, c).Some? ==> forall unit :: unit in DateAnnotation(p, units, c).value <==> Asked(us, c, unit)
  {
    var us := Analyze(p, units).value.recorded;
    if c in RecordAll(map[], us) {
      TypeExactly(us, c);
      LeadersExactly(us, c);
      if DateAnnotation(p, units, c).Some? {
        forall unit ensures unit in DateAnnotation(p, units, c).value <==> Asked(us, c, unit) {
          UnionIsAsked(us, c, unit);
        }
      }
    } else if i: nat :| FirstUse(us, c, i) {
      RecordedIsKept(us, i);
    }
  }

  lemma TypeExactly(us: seq<ColumnUsage>, c: ColumnKey)
    requires c in RecordAll(map[], us)
    ensures var st := RecordAll(map[], us)[c];
      st.usages != [] && (FirstUsedAsDate(us, c) <==> st.dataType == Date32 || st.dataType == Timestamp)
  {
    var first := StatsType(us, c);
    forall i: nat | FirstUse(us, c, i) ensures i == first {
      assert us[i].base == c && us[first].base == c;
    }
  }

  lemma LeadersExactly(us: seq<ColumnUsage>, c: ColumnKey)
    requires c in RecordAll(map[], us)
    ensures var usages := RecordAll(map[], us)[c].usages;
      (forall i :: 0 <= i < |usages| ==> LeadingUnits(usages[i]) != {}) <==> OnlyExtracted(us, c)
  {
    var usages := RecordAll(map[], us)[c].usages;
    if forall i :: 0 <= i < |usages| ==> LeadingUnits(usages[i]) != {} {
      forall i | 0 <= i < |us| && us[i].base == c ensures IsExtraction(us[i], 0) {
        StatsUsages(us, c, us[i].operations);
      }
    }
    if OnlyExtracted(us, c) {
      forall j | 0 <= j < |usages| ensures LeadingUnits(usages[j]) != {} {
        StatsUsages(us, c, usages[j]);
        var i :| 0 <= i < |us| && us[i].base == c && us[i].operations == usages[j];
        assert IsExtraction(us[i], 0);
        assert us[i].operations[0].unit in LeadingUnits(us[i].operations);
      }
    }
  }

  lemma UnionIsAsked(us: seq<ColumnUsage>, c: ColumnKey, unit: Unit)
    requires c in RecordAll(map[], us)
    ensures unit in UnionUnits(RecordAll(map[], us)[c].usages) <==> Asked(us, c, unit)
  {
    var usages := RecordAll(map[], us)[c].usages;
    UnionExactly(usages, unit);
    if ops :| ops in usages && unit in LeadingUnits(ops) {
      StatsUsages(us, c, ops);
      var i :| 0 <= i < |us| && us[i].base == c && us[i].operations == ops;
      LeadingUnitsExactly(us[i], unit);
    }
    if i :| 0 <= i < |us| && us[i].base == c && Leads(us[i], unit) {
      LeadingUnitsExactly(us[i], unit);
      StatsUsages(us, c, us[i].operations);
    }
  }

  // ----- the day of the week -----

  /** `SELECT date_part('<name>', column) FROM table`. */
  function SelectPart(name: string, table: string, column: Field, out: Field): Plan {
    Projection(TableScan(table, [column], []),
               [ScalarFunction("date_part", [Literal(Text(name)), Column(column.key)])], [out])
  }

  lemma DayOfWeekLineage(name: string, column: Field, m: LineageMap, schema: seq<Field>, units: UnitNames)
    requires ToLower(name) == "dow" || ToLower(name) == "dayofweek" || ToLower(name) == "day_of_week"
    requires column.key in m && m[column.key] == [ColumnUsage(column.key, column.dataType, [])]
    ensures UsagesOf([ScalarFunction("date_part", [Literal(Text(name)), Column(column.key)])], m, schema, units) ==
      Ok([[ColumnUsage(column.key, column.dataType, [Extract(DayOfWeek)])]])
  {
    var base, used := ColumnUsage(column.key, column.dataType, []), ColumnUsage(column.key, column.dataType, [Extract(DayOfWeek)]);
    var e := ScalarFunction("date_part", [Literal(Text(name)), Column(column.key)]);
    assert ToLower("date_part") == "date_part";
    assert base.(operations := base.operations + [Extract(DayOfWeek)]) == used;
    assert PushOp([base], Extract(DayOfWeek)) == [used];
    assert LineageForExpr(e.args[1], m, schema, units) == Ok([base]);
    assert LineageForExpr(e, m, schema, units) == Ok([used]);
    assert [e][0] == e;
    assert UsagesOf([e], m, schema, units).value == [[used]];
  }

  /** Each of the three spellings, in any case and whatever the unit parser says of them,
      asks for the day of the week. */
  lemma DayOfWeekQuery(name: string, table: string, column: Field, out: Field, units: UnitNames)
    requires ToLower(name) == "dow" || ToLower(name) == "dayofweek" || ToLower(name) == "day_of_week"
    requires column.dataType == Date32 || column.dataType == Timestamp
    ensures Analyze(SelectPart(name, table, column, out), units).Ok?
    ensures DateAnnotation(SelectPart(name, table, column, out), units, column.key) == Some({DayOfWeek})
  {
    var p := SelectPart(name, table, column, out);
    var scan, base := p.input, ColumnUsage(column.key, column.dataType, []);
    assert Keys([column]) == [column.key] && BaseUsages([column]) == [[base]];
    var m := ZipMap([column.key], [[base]]);
    assert m[column.key] == [base];
    assert UsagesOf([], m, [column], units) == Ok([]);
    assert Analyze(scan, units) == Ok(Analysis(m, []));
    DayOfWeekLineage(name, column, m, [column], units);
    var used := ColumnUsage(column.key, column.dataType, [Extract(DayOfWeek)]);
    assert [[used]][..0] == [] && [] + Flatten([[used]]) == [used];
    assert Analyze(p, units).value.recorded == [used];
    OnlyDayOfWeek(p, units, used);
  }

  lemma OnlyDayOfWeek(p: Plan, units: UnitNames, used: ColumnUsage)
    requires Analyze(p, units).Ok? && Analyze(p, units).value.recorded == [used]
    requires used.operations == [Extract(DayOfWeek)] && (used.dataType == Date32 || used.dataType == Timestamp)
    ensures DateAnnotation(p, units, used.base) == Some({DayOfWeek})
  {
    var ops: seq<Operation> := [Extract(DayOfWeek)];
    assert [used][..0] == [] && [] + [ops] == [ops];
    assert RecordAll(map[], [used]) == map[used.base := UsageStats(used.dataType, [ops])];
    assert [ops][..0] == [] && ops[1..] == [];
    assert LeadingUnits(ops) == {DayOfWeek};
    assert UnionUnits([ops]) == {DayOfWeek};
  }
}
