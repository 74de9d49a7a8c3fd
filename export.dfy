/** The document that `export_schema_to_json` writes: the metadata reshaped
    into a fixed layout of database identity, tables and columns. */
module Export {
  import opened Values
  import opened Schema

  /** A column entry; `None` is written as JSON `null`. */
  datatype ColumnDoc = ColumnDoc(
    id: Option<int>,
    name: Option<string>,
    displayName: Option<string>,
    baseType: Option<string>,
    semanticType: Option<string>,
    description: Option<string>)

  /** A table entry. */
  datatype TableDoc = TableDoc(
    id: Option<int>,
    name: Option<string>,
    schema: Option<string>,
    displayName: Option<string>,
    columns: seq<ColumnDoc>)

  /** The whole document. */
  datatype SchemaDoc = SchemaDoc(
    databaseId: int,
    databaseName: Option<string>,
    tables: seq<TableDoc>)

  /** One column: every key read with `.get`, `description` defaulting to `''`. */
  function ColumnOf(f: Field): ColumnDoc {
    ColumnDoc(Get(f.id), Get(f.name), Get(f.displayName), Get(f.baseType),
              Get(f.semanticType), GetOr(f.description, ""))
  }

  /** The inner loop: one column appended per field, in order. */
  function ColumnsOf(fs: seq<Field>): seq<ColumnDoc> {
    if fs == [] then [] else ColumnsOf(fs[..|fs| - 1]) + [ColumnOf(fs[|fs| - 1])]
  }

  /** One table; iterating a `null` fields list raises `TypeError`. */
  function TableOf(t: Table): Outcome<TableDoc> {
    if t.fields.Null? then Raised
    else Returned(TableDoc(Get(t.id), Get(t.name), Get(t.schema), Get(t.displayName),
                           ColumnsOf(FieldsOf(t))))
  }

  /** The outer loop: one table appended per table, in order; the first table
      that raises ends the export. */
  function TablesDoc(ts: seq<Table>): Outcome<seq<TableDoc>> {
    if ts == [] then Returned([])
    else match (TablesDoc(ts[..|ts| - 1]), TableOf(ts[|ts| - 1]))
      case (Returned(front), Returned(last)) => Returned(front + [last])
      case _ => Raised
  }

  /** Lines 126-152: the document for `database_id` built from a truthy
      metadata object. */
  function BuildExport(databaseId: int, md: Metadata): Outcome<SchemaDoc> {
    if md.tables.Null? then Raised
    else match TablesDoc(TablesOf(md))
      case Returned(docs) => Returned(SchemaDoc(databaseId, GetOr(md.name, "Unknown"), docs))
      case Raised => Raised
  }

  /** The columns are the fields, one for one and in order. */
  lemma {:induction false} ColumnsOfPointwise(fs: seq<Field>)
    ensures |ColumnsOf(fs)| == |fs|
    ensures forall j :: 0 <= j < |fs| ==> ColumnsOf(fs)[j] == ColumnOf(fs[j])
    decreases |fs|
  {
    if fs != [] {
      ColumnsOfPointwise(fs[..|fs| - 1]);
    }
  }

  /** A table entry keeps the table's keys (missing or `null` become `None`),
      and its columns mirror the fields: same count, same order, each key kept,
      `description` `''` when missing. */
  predicate TableMirrors(t: Table, d: TableDoc) {
    && d.id == Get(t.id) && d.name == Get(t.name) && d.schema == Get(t.schema)
    && d.displayName == Get(t.displayName)
    && |d.columns| == |FieldsOf(t)|
    && forall j :: 0 <= j < |d.columns| ==>
         var f := FieldsOf(t)[j];
         && d.columns[j].id == Get(f.id) && d.columns[j].name == Get(f.name)
         && d.columns[j].displayName == Get(f.displayName)
         && d.columns[j].baseType == Get(f.baseType)
         && d.columns[j].semanticType == Get(f.semanticType)
         && d.columns[j].description == GetOr(f.description, "")
  }

  /** The table loop raises exactly when some table's fields are `null`;
      otherwise it yields one mirroring entry per table, in order. */
  lemma {:induction false} TablesDocPointwise(ts: seq<Table>)
    ensures TablesDoc(ts).Raised? <==> exists t | t in ts :: FieldsUnreadable(t)
    ensures TablesDoc(ts).Returned? ==>
      && |TablesDoc(ts).value| == |ts|
      && forall i :: 0 <= i < |ts| ==> TableMirrors(ts[i], TablesDoc(ts).value[i])
    decreases |ts|
  {
    if ts != [] {
      var front := ts[..|ts| - 1];
      var last := ts[|ts| - 1];
      assert ts == front + [last];
      assert forall t :: t in ts <==> t in front || t == last;
      TablesDocPointwise(front);
      ColumnsOfPointwise(FieldsOf(last));
      if TablesDoc(front).Raised? {
        var t :| t in front && FieldsUnreadable(t);
        assert t in ts;
      } else if FieldsUnreadable(last) {
        assert last in ts;
      }
      if TablesDoc(ts).Returned? {
        var docs := TablesDoc(ts).value;
        forall i | 0 <= i < |ts| ensures TableMirrors(ts[i], docs[i]) {
          if i < |ts| - 1 {
            assert ts[i] == front[i];
          }
        }
      }
    }
  }

  /** The export raises exactly when the fetch summary does (a `null` tables
      list or a `null` fields list). Otherwise the document carries the
      requested id, the database name defaulting to `'Unknown'`, and one
      mirroring entry per table, in order. */
  lemma ExportStructure(databaseId: int, md: Metadata)
    ensures BuildExport(databaseId, md).Raised? <==> SummaryRaises(md)
    ensures BuildExport(databaseId, md).Returned? ==>
      var doc := BuildExport(databaseId, md).value;
      && doc.databaseId == databaseId
      && doc.databaseName == GetOr(md.name, "Unknown")
      && |doc.tables| == |TablesOf(md)|
      && forall i :: 0 <= i < |doc.tables| ==> TableMirrors(TablesOf(md)[i], doc.tables[i])
  {
    TablesDocPointwise(TablesOf(md));
  }

  /** Number of columns in a document's tables. */
  function ColumnCount(docs: seq<TableDoc>): nat {
    if docs == [] then 0 else ColumnCount(docs[..|docs| - 1]) + |docs[|docs| - 1].columns|
  }

  /** The export's column total equals the summary's "Total columns". */
  lemma {:induction false} ExportColumnTotal(databaseId: int, md: Metadata)
    requires BuildExport(databaseId, md).Returned?
    ensures ColumnCount(BuildExport(databaseId, md).value.tables) == TotalColumns(md)
  {
    TablesDocTotal(TablesOf(md));
  }

  lemma {:induction false} TablesDocTotal(ts: seq<Table>)
    requires TablesDoc(ts).Returned?
    ensures ColumnCount(TablesDoc(ts).value) == FieldCount(ts)
    decreases |ts|
  {
    if ts != [] {
      var front := ts[..|ts| - 1];
      TablesDocTotal(front);
      ColumnsOfPointwise(FieldsOf(ts[|ts| - 1]));
      var docs := TablesDoc(ts).value;
      assert docs[..|docs| - 1] == TablesDoc(front).value;
    }
  }
}
