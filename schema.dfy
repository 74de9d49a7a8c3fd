/** The schema metadata a Metabase server returns for one database, as the
    client sees it after decoding the JSON body. Every key the client reads
    is a `Slot`, because the client treats a missing key and a `null` value
    differently. */
module Schema {
  import opened Values

  /** One column of a table. */
  datatype Field = Field(
    id: Slot<int>,
    name: Slot<string>,
    displayName: Slot<string>,
    baseType: Slot<string>,
    semanticType: Slot<string>,
    description: Slot<string>)

  /** One table; `schema` is the namespace the table lives in. */
  datatype Table = Table(
    id: Slot<int>,
    name: Slot<string>,
    schema: Slot<string>,
    displayName: Slot<string>,
    fields: Slot<seq<Field>>)

  /** The metadata object. `extraKeys` counts the keys the client never reads
      (`id`, `engine`, `features`, ...); they matter only for truthiness. */
  datatype Metadata = Metadata(
    name: Slot<string>,
    tables: Slot<seq<Table>>,
    extraKeys: nat)

  /** The empty dict `{}` the client returns on every failure path. */
  const EmptyMetadata := Metadata(Absent, Absent, 0)

  /** `not metadata`: a dict is falsy exactly when it has no key at all. */
  predicate IsEmpty(md: Metadata) {
    md.name.Absent? && md.tables.Absent? && md.extraKeys == 0
  }

  lemma EmptyIsFalsy(md: Metadata)
    ensures IsEmpty(md) <==> md == EmptyMetadata
  {
  }

  /** `t.get('fields', [])` is `None` for a table whose `fields` key holds `null`,
      and `len(None)` or `for f in None` raises `TypeError`. */
  predicate FieldsUnreadable(t: Table) {
    t.fields.Null?
  }

  /** The list `table.get('fields', [])` when it is a list. */
  function FieldsOf(t: Table): seq<Field>
  {
    if t.fields.Has? then t.fields.value else []
  }

  /** The list `metadata.get('tables', [])` when it is a list. */
  function TablesOf(md: Metadata): seq<Table>
  {
    if md.tables.Has? then md.tables.value else []
  }

  /** The summary printed after a fetch (`len(tables)` and the sum of
      `len(t.get('fields', []))`) raises exactly when the tables list or some
      table's fields list is `null`. */
  predicate SummaryRaises(md: Metadata) {
    md.tables.Null? || exists t | t in TablesOf(md) :: FieldsUnreadable(t)
  }

  /** Number of columns over a sequence of tables. */
  function FieldCount(ts: seq<Table>): nat {
    if ts == [] then 0 else FieldCount(ts[..|ts| - 1]) + |FieldsOf(ts[|ts| - 1])|
  }

  /** Counting is additive over concatenation. */
  lemma {:induction false} FieldCountAppend(a: seq<Table>, b: seq<Table>)
    ensures FieldCount(a + b) == FieldCount(a) + FieldCount(b)
    decreases |b|
  {
    if b == [] {
      assert a + b == a;
    } else {
      var b' := b[..|b| - 1];
      assert (a + b)[..|a + b| - 1] == a + b';
      FieldCountAppend(a, b');
    }
  }

  /** The "Total columns" figure of the summary. */
  function TotalColumns(md: Metadata): nat {
    FieldCount(TablesOf(md))
  }

  /** The generator `sum(len(t.get('fields', [])) for t in tables)` run as a loop:
      it raises on a `null` tables list or on the first `null` fields list, and
      otherwise yields the column total. */
  method CountColumns(md: Metadata) returns (r: Outcome<nat>)
    ensures r.Raised? <==> SummaryRaises(md)
    ensures r.Returned? ==> r.value == TotalColumns(md)
  {
    if md.tables.Null? {
      return Raised;
    }
    var ts := TablesOf(md);
    var total := 0;
    var i := 0;
    while i < |ts|
      invariant 0 <= i <= |ts|
      invariant forall k :: 0 <= k < i ==> !FieldsUnreadable(ts[k])
      invariant total == FieldCount(ts[..i])
    {
      if FieldsUnreadable(ts[i]) {
        return Raised;
      }
      assert ts[..i + 1][..i] == ts[..i];
      total := total + |FieldsOf(ts[i])|;
      i := i + 1;
    }
    assert ts[..i] == ts;
    r := Returned(total);
  }
}
