/** `validate_sql_against_schema` once the metadata is in hand: build the set
    of known table names, extract the names after `FROM`/`JOIN`, and report
    every name that is not known. Metadata that is empty lets every query
    pass. */
module Validation {
  import opened Values
  import opened Schema
  import opened SqlScan

  /** `t.get(key, default).lower()`: raises `AttributeError` on `null`. */
  function LowerSlot(s: Slot<string>, default: string): (r: Outcome<string>)
    ensures r.Raised? <==> s.Null?
  {
    match s
    case Absent => Returned(Lower(default))
    case Null => Raised
    case Has(v) => Returned(Lower(v))
  }

  /** The lowered column names `[f.get('name', '').lower() for f in fields]`. */
  function ColumnNames(fs: seq<Field>): Outcome<seq<string>> {
    if fs == [] then Returned([])
    else match (ColumnNames(fs[..|fs| - 1]), LowerSlot(fs[|fs| - 1].name, ""))
      case (Returned(front), Returned(last)) => Returned(front + [last])
      case _ => Raised
  }

  /** A table the lookup cannot be built from: a `null` name, schema or
      fields list, or a field whose name is `null`. */
  predicate TableUnreadable(t: Table) {
    t.name.Null? || t.schema.Null? || t.fields.Null? ||
    exists f | f in FieldsOf(t) :: f.name.Null?
  }

  /** The bare lookup key of a table: its lowered name, `''` when missing. */
  function BareName(t: Table): string {
    Lower(if t.name.Has? then t.name.value else "")
  }

  /** The qualified lookup key: lowered schema (`public` when missing), a dot,
      then the bare key. */
  function QualifiedName(t: Table): string {
    Lower(if t.schema.Has? then t.schema.value else "public") + "." + BareName(t)
  }

  /** One table's contribution to `valid_tables` (lines 263-269). */
  datatype Entry = Entry(bare: string, qualified: string, columns: seq<string>)

  function EntryOf(t: Table): Outcome<Entry> {
    match (LowerSlot(t.name, ""), LowerSlot(t.schema, "public"))
    case (Returned(name), Returned(schema)) =>
      if t.fields.Null? then Raised
      else (match ColumnNames(FieldsOf(t))
        case Returned(columns) => Returned(Entry(name, schema + "." + name, columns))
        case Raised => Raised)
    case _ => Raised
  }

  /** `valid_tables` after the loop over `ts`: each table writes its bare and
      its qualified key, later tables overwriting earlier ones. */
  function LookupOf(ts: seq<Table>): Outcome<map<string, seq<string>>> {
    if ts == [] then Returned(map[])
    else match (LookupOf(ts[..|ts| - 1]), EntryOf(ts[|ts| - 1]))
      case (Returned(m), Returned(e)) => Returned(m[e.bare := e.columns][e.qualified := e.columns])
      case _ => Raised
  }

  const IssuePrefix := "Table not found: "

  /** The issues for the names `found`, in order: one per name not in `valid`. */
  function Issues(found: seq<string>, valid: set<string>): seq<string> {
    if found == [] then []
    else Issues(found[..|found| - 1], valid) +
         (if found[|found| - 1] in valid then [] else [IssuePrefix + found[|found| - 1]])
  }

  /** The boolean `validate_sql_against_schema` returns, with the issues it
      prints. */
  datatype Verdict = Verdict(passed: bool, issues: seq<string>)

  /** Lines 256-291 for metadata `md` and query `sql`. */
  function Validate(md: Metadata, sql: string): Outcome<Verdict> {
    if IsEmpty(md) then Returned(Verdict(true, []))
    else if md.tables.Null? then Raised
    else match LookupOf(TablesOf(md))
      case Raised => Raised
      case Returned(valid) =>
        var issues := Issues(FindTables(sql), valid.Keys);
        Returned(Verdict(issues == [], issues))
  }

  /** The column names raise exactly when some field's name is `null`, and
      otherwise there is one per field. */
  lemma {:induction false} ColumnNamesRaises(fs: seq<Field>)
    ensures ColumnNames(fs).Raised? <==> exists f | f in fs :: f.name.Null?
    ensures ColumnNames(fs).Returned? ==> |ColumnNames(fs).value| == |fs|
    decreases |fs|
  {
    if fs != [] {
      var front, last := fs[..|fs| - 1], fs[|fs| - 1];
      assert fs == front + [last];
      ColumnNamesRaises(front);
      if ColumnNames(front).Raised? {
        var f :| f in front && f.name.Null?;
        assert f in fs;
      } else if last.name.Null? {
        assert last in fs;
      }
    }
  }

  /** A table's entry raises exactly when the table is unreadable; otherwise
      its keys are the table's bare and qualified names. */
  lemma EntryOfRaises(t: Table)
    ensures EntryOf(t).Raised? <==> TableUnreadable(t)
    ensures EntryOf(t).Returned? ==>
      EntryOf(t).value.bare == BareName(t) && EntryOf(t).value.qualified == QualifiedName(t)
  {
    ColumnNamesRaises(FieldsOf(t));
  }

  /** Building the lookup raises exactly when some table is unreadable. */
  lemma {:induction false} LookupRaises(ts: seq<Table>)
    ensures LookupOf(ts).Raised? <==> exists t | t in ts :: TableUnreadable(t)
    decreases |ts|
  {
    if ts != [] {
      var front, last := ts[..|ts| - 1], ts[|ts| - 1];
      assert ts == front + [last];
      LookupRaises(front);
      EntryOfRaises(last);
      if LookupOf(front).Raised? {
        var t :| t in front && TableUnreadable(t);
        assert t in ts;
      } else if TableUnreadable(last) {
        assert last in ts;
      }
    }
  }

  /** One step of the lookup loop adds exactly the last table's two keys. */
  lemma LookupStep(ts: seq<Table>)
    requires ts != [] && LookupOf(ts).Returned?
    ensures LookupOf(ts[..|ts| - 1]).Returned?
    ensures LookupOf(ts).value.Keys ==
      LookupOf(ts[..|ts| - 1]).value.Keys + {BareName(ts[|ts| - 1]), QualifiedName(ts[|ts| - 1])}
  {
    EntryOfRaises(ts[|ts| - 1]);
  }

  /** The names a list of tables contributes: each table's bare and
      qualified name. */
  function NamesOf(ts: seq<Table>): set<string> {
    if ts == [] then {}
    else NamesOf(ts[..|ts| - 1]) + {BareName(ts[|ts| - 1]), QualifiedName(ts[|ts| - 1])}
  }

  /** The lookup's keys are the names of its tables. */
  lemma {:induction false} LookupKeySet(ts: seq<Table>)
    requires LookupOf(ts).Returned?
    ensures LookupOf(ts).value.Keys == NamesOf(ts)
    decreases |ts|
  {
    if ts != [] {
      LookupStep(ts);
      LookupKeySet(ts[..|ts| - 1]);
    }
  }

  /** Every table's bare and qualified name belongs to `NamesOf(ts)`. */
  lemma {:induction false} NamesOfContains(ts: seq<Table>)
    ensures forall i :: 0 <= i < |ts| ==> BareName(ts[i]) in NamesOf(ts) && QualifiedName(ts[i]) in NamesOf(ts)
    decreases |ts|
  {
    if ts != [] {
      var front := ts[..|ts| - 1];
      NamesOfContains(front);
      forall i | 0 <= i < |ts| - 1
        ensures BareName(ts[i]) in NamesOf(ts) && QualifiedName(ts[i]) in NamesOf(ts)
      {
        assert ts[i] == front[i];
      }
    }
  }

  /** Every name in `NamesOf(ts)` is some table's bare or qualified name. */
  lemma {:induction false} NamesOfOnly(ts: seq<Table>)
    ensures forall key :: key in NamesOf(ts) ==>
      exists i :: 0 <= i < |ts| && (key == BareName(ts[i]) || key == QualifiedName(ts[i]))
    decreases |ts|
  {
    if ts != [] {
      var front := ts[..|ts| - 1];
      NamesOfOnly(front);
      forall key | key in NamesOf(ts)
        ensures exists i :: 0 <= i < |ts| && (key == BareName(ts[i]) || key == QualifiedName(ts[i]))
      {
        if key in NamesOf(front) {
          var i :| 0 <= i < |front| && (key == BareName(front[i]) || key == QualifiedName(front[i]));
          assert ts[i] == front[i];
        } else {
          assert key == BareName(ts[|ts| - 1]) || key == QualifiedName(ts[|ts| - 1]);
        }
      }
    }
  }

  /** The lookup holds, for every table, its bare name and its qualified name
      (schema defaulting to `public`), and no other key. */
  lemma LookupKeys(ts: seq<Table>)
    requires LookupOf(ts).Returned?
    ensures forall i :: 0 <= i < |ts| ==>
      BareName(ts[i]) in LookupOf(ts).value && QualifiedName(ts[i]) in LookupOf(ts).value
    ensures forall key :: key in LookupOf(ts).value ==>
      exists i :: 0 <= i < |ts| && (key == BareName(ts[i]) || key == QualifiedName(ts[i]))
  {
    LookupKeySet(ts);
    NamesOfContains(ts);
    NamesOfOnly(ts);
  }

  /** The issues are made one name at a time: the issues for `a + b` are
      those for `a` followed by those for `b`. */
  lemma {:induction false} IssuesAppend(a: seq<string>, b: seq<string>, valid: set<string>)
    ensures Issues(a + b, valid) == Issues(a, valid) + Issues(b, valid)
    decreases |b|
  {
    if b == [] {
      assert a + b == a;
    } else {
      var b' := b[..|b| - 1];
      assert (a + b)[..|a + b| - 1] == a + b';
      assert (a + b)[|a + b| - 1] == b[|b| - 1];
      IssuesAppend(a, b', valid);
    }
  }

  /** One name gives one issue when it is unknown and none when it is known. */
  lemma IssuesSingle(t: string, valid: set<string>)
    ensures Issues([t], valid) == if t in valid then [] else [IssuePrefix + t]
  {
    assert [t][..0] == [];
  }

  /** There is no issue exactly when every extracted name is known, and no
      more issues than names. */
  lemma {:induction false} IssuesEmpty(found: seq<string>, valid: set<string>)
    ensures Issues(found, valid) == [] <==> forall t | t in found :: t in valid
    ensures |Issues(found, valid)| <= |found|
    decreases |found|
  {
    if found != [] {
      var front, last := found[..|found| - 1], found[|found| - 1];
      assert found == front + [last];
      IssuesEmpty(front, valid);
      if !(forall t | t in front :: t in valid) {
        var t :| t in front && t !in valid;
        assert t in found;
      }
    }
  }

  /** Fail-open: empty metadata lets every query pass with no issue. */
  lemma FailOpen(md: Metadata, sql: string)
    requires IsEmpty(md)
    ensures Validate(md, sql) == Returned(Verdict(true, []))
  {
  }

  /** On non-empty metadata validation raises exactly when the tables list
      is `null` or some table is unreadable; otherwise it passes exactly
      when every name after `FROM`/`JOIN` is a known bare or qualified table
      name, and it lists one issue per unknown occurrence. */
  lemma ValidateSpec(md: Metadata, sql: string)
    requires !IsEmpty(md)
    ensures Validate(md, sql).Raised? <==>
      md.tables.Null? || exists t | t in TablesOf(md) :: TableUnreadable(t)
    ensures Validate(md, sql).Returned? ==>
      var v := Validate(md, sql).value;
      && (v.passed <==> forall t | t in FindTables(sql) ::
            exists i :: 0 <= i < |TablesOf(md)| &&
              (t == BareName(TablesOf(md)[i]) || t == QualifiedName(TablesOf(md)[i])))
      && v.issues == Issues(FindTables(sql), LookupOf(TablesOf(md)).value.Keys)
  {
    var ts := TablesOf(md);
    LookupRaises(ts);
    if Validate(md, sql).Returned? {
      var valid := LookupOf(ts).value;
      LookupKeys(ts);
      IssuesEmpty(FindTables(sql), valid.Keys);
    }
  }

  /** The list comprehension of line 267, as a loop. */
  method LowerColumnNames(fs: seq<Field>) returns (r: Outcome<seq<string>>)
    ensures r == ColumnNames(fs)
  {
    var columns: seq<string> := [];
    var j := 0;
    while j < |fs|
      invariant 0 <= j <= |fs|
      invariant ColumnNames(fs[..j]) == Returned(columns)
    {
      assert fs[..j + 1][..j] == fs[..j];
      if fs[j].name.Null? {
        ColumnNamesRaises(fs);
        assert fs[j] in fs;
        return Raised;
      }
      columns := columns + [Lower(if fs[j].name.Has? then fs[j].name.value else "")];
      j := j + 1;
    }
    assert fs[..j] == fs;
    r := Returned(columns);
  }

  /** The loop of lines 261-269 filling `valid_tables`. */
  method BuildLookup(ts: seq<Table>) returns (r: Outcome<map<string, seq<string>>>)
    ensures r == LookupOf(ts)
  {
    var valid: map<string, seq<string>> := map[];
    var i := 0;
    while i < |ts|
      invariant 0 <= i <= |ts|
      invariant LookupOf(ts[..i]) == Returned(valid)
    {
      var t := ts[i];
      assert ts[..i + 1][..i] == ts[..i];
      if t.name.Null? || t.schema.Null? || t.fields.Null? {
        LookupRaises(ts);
        assert t in ts;
        return Raised;
      }
      var tableName := Lower(if t.name.Has? then t.name.value else "");
      var schema := Lower(if t.schema.Has? then t.schema.value else "public");
      var columns := LowerColumnNames(FieldsOf(t));
      if columns.Raised? {
        ColumnNamesRaises(FieldsOf(t));
        LookupRaises(ts);
        assert t in ts;
        return Raised;
      }
      valid := valid[tableName := columns.value][schema + "." + tableName := columns.value];
      i := i + 1;
    }
    assert ts[..i] == ts;
    r := Returned(valid);
  }

  /** The loop of lines 280-282. */
  method CollectIssues(found: seq<string>, valid: set<string>) returns (issues: seq<string>)
    ensures issues == Issues(found, valid)
  {
    issues := [];
    var k := 0;
    while k < |found|
      invariant 0 <= k <= |found|
      invariant issues == Issues(found[..k], valid)
    {
      assert found[..k + 1][..k] == found[..k];
      if found[k] !in valid {
        issues := issues + [IssuePrefix + found[k]];
      }
      k := k + 1;
    }
    assert found[..k] == found;
  }

  /** The procedure itself: lines 256-291 with the loops above. */
  method CheckSql(md: Metadata, sql: string) returns (v: Outcome<Verdict>)
    ensures v == Validate(md, sql)
  {
    if IsEmpty(md) {
      return Returned(Verdict(true, []));
    }
    if md.tables.Null? {
      return Raised;
    }
    var valid := BuildLookup(TablesOf(md));
    if valid.Raised? {
      return Raised;
    }
    var issues := CollectIssues(FindTables(sql), valid.value.Keys);
    v := Returned(Verdict(|issues| == 0, issues));
  }

  /** Two tables in the `public` schema. */
  const Orders := Table(Has(1), Has("orders"), Has("public"), Has("Orders"), Has([]))
  const Customers := Table(Has(2), Has("customers"), Has("public"), Has("Customers"), Has([]))
  const SampleMetadata := Metadata(Has("Sample"), Has([Orders, Customers]), 0)

  lemma SampleLookup()
    ensures LookupOf([Orders, Customers]).Returned?
    ensures LookupOf([Orders, Customers]).value.Keys
         == {"orders", "public.orders", "customers", "public.customers"}
  {
    assert Lower("orders") == "orders" && Lower("customers") == "customers";
    assert Lower("public") == "public";
    assert ColumnNames([]) == Returned([]);
    assert FieldsOf(Orders) == [] && FieldsOf(Customers) == [];
    assert "public" + "." + "orders" == "public.orders";
    assert "public" + "." + "customers" == "public.customers";
    assert EntryOf(Orders) == Returned(Entry("orders", "public.orders", []));
    assert EntryOf(Customers) == Returned(Entry("customers", "public.customers", []));
    assert [Orders, Customers][..1] == [Orders];
    assert [Orders][..0] == [];
    assert LookupOf([Orders]) == Returned(map["orders" := [], "public.orders" := []]);
  }

  /** A join on a table the schema does not have yields exactly one issue. */
  lemma MissingTableReported()
    ensures Validate(SampleMetadata, "SELECT * " + "FROM orders " + "JOIN " + "missing_table" + " ON 1=1")
         == Returned(Verdict(false, [IssuePrefix + "missing_table"]))
  {
    SampleLookup();
    JoinExampleTables();
    var valid := LookupOf([Orders, Customers]).value.Keys;
    assert "missing_table"[0] == 'm';
    assert "missing_table" !in valid;
    IssuesAppend(["orders"], ["missing_table"], valid);
    IssuesSingle("orders", valid);
    IssuesSingle("missing_table", valid);
    assert ["orders"] + ["missing_table"] == ["orders", "missing_table"];
  }

  /** A schema-qualified name is found through its qualified key. */
  lemma QualifiedTableAccepted()
    ensures Validate(SampleMetadata, "SELECT * " + "FROM " + "public" + "." + "orders" + " o")
         == Returned(Verdict(true, []))
  {
    SampleLookup();
    QualifiedExampleTables();
    IssuesSingle("public.orders", LookupOf([Orders, Customers]).value.Keys);
  }

  /** Metadata with a tables list but no table rejects every named table. */
  lemma NoTablesRejectsEveryName(md: Metadata, sql: string)
    requires md.tables == Has([])
    ensures Validate(md, sql) == Returned(Verdict(FindTables(sql) == [], Issues(FindTables(sql), {})))
    ensures |Validate(md, sql).value.issues| == |FindTables(sql)|
  {
    assert TablesOf(md) == [];
    assert LookupOf([]).value.Keys == {};
    AllUnknown(FindTables(sql));
  }

  lemma {:induction false} AllUnknown(found: seq<string>)
    ensures |Issues(found, {})| == |found|
    ensures Issues(found, {}) == [] <==> found == []
    decreases |found|
  {
    if found != [] {
      var front, last := found[..|found| - 1], found[|found| - 1];
      AllUnknown(front);
      assert last !in {};
      assert Issues(found, {}) == Issues(front, {}) + [IssuePrefix + last];
    }
  }
}
