/** The ordered reload of `PostgreSQLRecoveryAdapter._insert_payload` into a
    database with the integrity triggers of migrations 20260824_05 and
    20260828_13, in the transaction of `restore`. */
module Reload {
  import opened Records

  datatype TablePayload = TablePayload(table: Table, columns: seq<Column>, rows: seq<Row>)

  /** A column that refers to the id of another table. */
  datatype Reference = Reference(table: Table, column: Column, target: Table)

  datatype Outcome = Restored | Incompatible | Refused | TimedOut

  const GATE_ROWS: seq<Row> := [map[Id := Number(1)]]

  // ---------------------------------------------------------------------
  // What the database accepts

  /** The row's id is new and everything it refers to is there; a version belongs
      to the owner of its template and is restored from a version of it. */
  predicate Supported(references: set<Reference>, tables: Tables, table: Table, row: Row) {
    && (Id in row ==> row[Id] != Null && forall each :: each in RowsOf(tables, table) ==> Cell(each, Id) != row[Id])
    && (forall reference ::
        reference in references && reference.table == table && Cell(row, reference.column) != Null ==>
          exists each :: each in RowsOf(tables, reference.target) && Same(Cell(each, Id), Cell(row, reference.column)))
    && (table == TemplateVersions ==>
          && (exists each :: each in RowsOf(tables, Templates)
                && Same(Cell(each, Id), Cell(row, TemplateId)) && Same(Cell(each, OwnerId), Cell(row, ObjectOwnerId)))
          && (Cell(row, RestoredFromVersionId) != Null ==>
                exists each :: each in RowsOf(tables, TemplateVersions)
                  && Same(Cell(each, Id), Cell(row, RestoredFromVersionId))
                     && Same(Cell(each, TemplateId), Cell(row, TemplateId))))
  }

  /** A template points to no version, or to a published version of its own. */
  predicate PointerHolds(versions: seq<Row>, template: Value, pointer: Value) {
    pointer == Null || exists each :: (each in versions
      && Same(Cell(each, Id), pointer) && Same(Cell(each, TemplateId), template)
         && Cell(each, PublicationState) == PUBLISHED)
  }

  /** A conversion names no template, or the current published version of an
      active, published template. */
  predicate PairHolds(templates: seq<Row>, versions: seq<Row>, row: Row) {
    var template, version := Cell(row, TemplateId), Cell(row, TemplateVersionId);
    (template == Null && version == Null) || exists each ::
      each in templates && CurrentPair(versions, each, template, version)
  }

  predicate CurrentPair(versions: seq<Row>, each: Row, template: Value, version: Value) {
    && Same(Cell(each, Id), template) && Cell(each, Status) == ACTIVE && Cell(each, PublicationState) == PUBLISHED
    && Same(Cell(each, CurrentVersionId), version)
    && exists other :: other in versions
         && Same(Cell(other, Id), version) && Same(Cell(other, TemplateId), template)
            && Cell(other, PublicationState) == PUBLISHED
  }

  predicate TriggersAllow(tables: Tables, table: Table, row: Row) {
    match table
    case Templates => PointerHolds(RowsOf(tables, TemplateVersions), Cell(row, Id), Cell(row, CurrentVersionId))
    case ConversionJobs => PairHolds(RowsOf(tables, Templates), RowsOf(tables, TemplateVersions), row)
    case _ => true
  }

  predicate Accepts(references: set<Reference>, columns: set<Column>, tables: Tables, table: Table, row: Row) {
    row.Keys == columns && Supported(references, tables, table, row) && TriggersAllow(tables, table, row)
  }

  function Appended(tables: Tables, table: Table, row: Row): Tables {
    tables[table := RowsOf(tables, table) + [row]]
  }

  /** `UPDATE ... SET current_version_id = value WHERE id = identifier`. */
  function Pointed(rows: seq<Row>, identifier: Value, value: Value): (pointed: seq<Row>)
    ensures |pointed| == |rows|
  {
    seq(|rows|, i requires 0 <= i < |rows| =>
      if Same(Cell(rows[i], Id), identifier) then rows[i][CurrentVersionId := value] else rows[i])
  }

  // ---------------------------------------------------------------------
  // What the payload must be

  predicate UniqueTables(payload: seq<TablePayload>) {
    forall i, j :: 0 <= i < j < |payload| ==> payload[i].table != payload[j].table
  }

  function ColumnSet(columns: seq<Column>): set<Column> {
    set column | column in columns
  }

  predicate ColumnsMatch(observed: seq<Column>, expected: seq<Column>, exact: bool) {
    if exact then observed == expected else multiset(observed) == multiset(expected)
  }

  /** The payload has exactly the tables and columns of the target, and the
      seeded gate row. */
  predicate Fits(payload: seq<TablePayload>, schema: map<Table, seq<Column>>, exact: bool) {
    TablesOf(payload, |payload|) == schema.Keys && FitUpTo(payload, schema, exact, |payload|)
  }

  predicate FitUpTo(payload: seq<TablePayload>, schema: map<Table, seq<Column>>, exact: bool, items: nat)
    requires items <= |payload|
  {
    forall i :: 0 <= i < items ==> ItemFits(payload[i], schema, exact)
  }

  function TablesOf(payload: seq<TablePayload>, items: nat): set<Table>
    requires items <= |payload|
  {
    if items == 0 then {} else TablesOf(payload, items - 1) + {payload[items - 1].table}
  }

  lemma {:induction false} ItemOf(payload: seq<TablePayload>, items: nat, table: Table) returns (k: nat)
    requires items <= |payload| && table in TablesOf(payload, items)
    ensures k < items && payload[k].table == table
  {
    if payload[items - 1].table == table {
      k := items - 1;
    } else {
      k := ItemOf(payload, items - 1, table);
    }
  }

  lemma {:induction false} ItemsListed(payload: seq<TablePayload>, items: nat)
    requires items <= |payload|
    ensures forall i :: 0 <= i < items ==> payload[i].table in TablesOf(payload, items)
  {
    if items > 0 {
      ItemsListed(payload, items - 1);
    }
  }

  predicate ItemFits(item: TablePayload, schema: map<Table, seq<Column>>, exact: bool) {
    && item.table in schema && ColumnsMatch(item.columns, schema[item.table], exact)
    && (item.table == StepGate ==> item.rows == GATE_ROWS)
  }

  predicate Inserted(table: Table) {
    table != StepGate && table != ConversionJobs
  }

  /** A template row before its pointer is set. */
  function Unpointed(table: Table, columns: set<Column>, row: Row): Row {
    if table == Templates && CurrentVersionId in columns then row[CurrentVersionId := Null] else row
  }

  function UnpointedRows(item: TablePayload, columns: set<Column>): (rows: seq<Row>)
    ensures |rows| == |item.rows|
  {
    seq(|item.rows|, i requires 0 <= i < |item.rows| => Unpointed(item.table, columns, item.rows[i]))
  }

  /** The row as the reload leaves it: a template row without a pointer gets none. */
  function Complete(table: Table, columns: set<Column>, row: Row): Row {
    if table == Templates && CurrentVersionId in columns && CurrentVersionId !in row then row[CurrentVersionId := Null]
    else row
  }

  /** The rows of one table among the first items of a payload. */
  function PayloadRows(payload: seq<TablePayload>, items: nat, table: Table): seq<Row>
    requires items <= |payload|
  {
    if items == 0 then []
    else if payload[items - 1].table == table then payload[items - 1].rows
    else PayloadRows(payload, items - 1, table)
  }

  /** The tables after the first items of the payload were inserted. */
  function Loaded(payload: seq<TablePayload>, schema: map<Table, seq<Column>>, items: nat): Tables
    requires items <= |payload|
    requires forall i :: 0 <= i < items ==> payload[i].table in schema
  {
    if items == 0 then map table | table in schema :: if table == StepGate then GATE_ROWS else []
    else
      var item, before := payload[items - 1], Loaded(payload, schema, items - 1);
      if Inserted(item.table) then before[item.table := UnpointedRows(item, ColumnSet(schema[item.table]))] else before
  }

  /** The rows that the reload leaves in a table. */
  function FinalRows(payload: seq<TablePayload>, schema: map<Table, seq<Column>>, table: Table): seq<Row> {
    var rows := PayloadRows(payload, |payload|, table);
    if table in schema then CompleteRows(table, ColumnSet(schema[table]), rows) else rows
  }

  function CompleteRows(table: Table, columns: set<Column>, rows: seq<Row>): (complete: seq<Row>)
    ensures |complete| == |rows|
    ensures table != Templates ==> complete == rows
  {
    seq(|rows|, i requires 0 <= i < |rows| => Complete(table, columns, rows[i]))
  }

  /** Everything but the conversions, and some of those. */
  function Finished(payload: seq<TablePayload>, schema: map<Table, seq<Column>>, jobs: seq<Row>): Tables {
    map table | table in schema :: if table == ConversionJobs then jobs else FinalRows(payload, schema, table)
  }

  /** The rows that find something they refer to neither in an earlier table nor
      in an earlier row. */
  function Misplaced(references: set<Reference>, columns: set<Column>, before: Tables, item: TablePayload): set<int> {
    set j | 0 <= j < |item.rows| && !RowOrdered(references, columns, before, item, j)
  }

  /** Every row finds what it refers to among earlier tables and earlier rows. */
  predicate ItemOrdered(references: set<Reference>, columns: set<Column>, before: Tables, item: TablePayload) {
    Misplaced(references, columns, before, item) == {}
  }

  predicate Ordered(references: set<Reference>, schema: map<Table, seq<Column>>, payload: seq<TablePayload>)
    requires forall i :: 0 <= i < |payload| ==> payload[i].table in schema
  {
    OrderedUpTo(references, schema, payload, |payload|)
  }

  predicate OrderedUpTo(references: set<Reference>, schema: map<Table, seq<Column>>, payload: seq<TablePayload>,
                        items: nat)
    requires items <= |payload| && forall i :: 0 <= i < items ==> payload[i].table in schema
  {
    forall i :: 0 <= i < items && Inserted(payload[i].table) ==> OrderedAt(references, schema, payload, i)
  }

  predicate OrderedAt(references: set<Reference>, schema: map<Table, seq<Column>>, payload: seq<TablePayload>, i: nat)
    requires i < |payload| && forall j :: 0 <= j <= i ==> payload[j].table in schema
  {
    ItemOrdered(references, ColumnSet(schema[payload[i].table]), Loaded(payload, schema, i), payload[i])
  }

  /** Every conversion finds what it refers to in the finished tables. */
  predicate JobsOrdered(references: set<Reference>, schema: map<Table, seq<Column>>, payload: seq<TablePayload>) {
    var jobs := FinalRows(payload, schema, ConversionJobs);
    forall j :: 0 <= j < |jobs| ==> JobOrdered(references, schema, payload, jobs, j)
  }

  predicate JobOrdered(references: set<Reference>, schema: map<Table, seq<Column>>, payload: seq<TablePayload>,
                       jobs: seq<Row>, j: nat)
    requires j < |jobs|
  {
    && ConversionJobs in schema && jobs[j].Keys == ColumnSet(schema[ConversionJobs])
    && Supported(references, Finished(payload, schema, jobs[..j]), ConversionJobs, jobs[j])
  }

  /** The final rows satisfy the pointer constraint. */
  predicate PointersHold(payload: seq<TablePayload>, schema: map<Table, seq<Column>>) {
    forall row :: row in FinalRows(payload, schema, Templates) ==>
      PointerHolds(FinalRows(payload, schema, TemplateVersions), Cell(row, Id), Cell(row, CurrentVersionId))
  }

  /** The final rows satisfy the conversion constraint. */
  predicate PairsHold(payload: seq<TablePayload>, schema: map<Table, seq<Column>>) {
    forall row :: row in FinalRows(payload, schema, ConversionJobs) ==>
      PairHolds(FinalRows(payload, schema, Templates), FinalRows(payload, schema, TemplateVersions), row)
  }

  /** What the three loops need, one insert or update after the other. */
  predicate Loadable(references: set<Reference>, schema: map<Table, seq<Column>>, payload: seq<TablePayload>,
                     exact: bool) {
    && Fits(payload, schema, exact)
    && Ordered(references, schema, payload) && JobsOrdered(references, schema, payload)
    && PointersHold(payload, schema) && PairsHold(payload, schema)
  }

  // ---------------------------------------------------------------------
  // The pointers

  function PointersOf(rows: seq<Row>): seq<(Value, Value)> {
    if rows == [] then []
    else
      var last := rows[|rows| - 1];
      PointersOf(rows[..|rows| - 1])
        + if Cell(last, CurrentVersionId) != Null then [(Cell(last, Id), Cell(last, CurrentVersionId))] else []
  }

  predicate NamesRow(rows: seq<Row>, pointer: (Value, Value)) {
    exists row :: row in rows && pointer == (Cell(row, Id), Cell(row, CurrentVersionId))
  }

  lemma {:induction false} PointersOfRows(rows: seq<Row>)
    ensures forall row :: row in rows && Cell(row, CurrentVersionId) != Null ==>
              (Cell(row, Id), Cell(row, CurrentVersionId)) in PointersOf(rows)
    ensures forall pointer :: pointer in PointersOf(rows) ==> NamesRow(rows, pointer) && pointer.1 != Null
  {
    if rows != [] {
      var last := |rows| - 1;
      PointersOfRows(rows[..last]);
      assert rows == rows[..last] + [rows[last]];
    }
  }

  /** The template rows once the first pointers are set. */
  function PointedSoFar(rows: seq<Row>, pointers: seq<(Value, Value)>): (pointed: seq<Row>)
    ensures |pointed| == |rows|
  {
    if pointers == [] then rows
    else
      var last := |pointers| - 1;
      Pointed(PointedSoFar(rows, pointers[..last]), pointers[last].0, pointers[last].1)
  }

  predicate PointerSet(pointers: seq<(Value, Value)>, identifier: Value) {
    exists pointer :: pointer in pointers && pointer.0 == identifier
  }

  /** Every row is in its final form once its pointer is set, and not before. */
  lemma {:induction false} PointedRow(item: TablePayload, columns: set<Column>, pointers: seq<(Value, Value)>, i: nat)
    requires item.table == Templates && CurrentVersionId in columns && Id in columns && i < |item.rows|
    requires UniqueIds(item.rows) && Cell(item.rows[i], Id) != Null
    requires forall pointer :: pointer in pointers ==> NamesRow(item.rows, pointer) && pointer.1 != Null
    ensures var row := item.rows[i];
            PointedSoFar(UnpointedRows(item, columns), pointers)[i]
            == if PointerSet(pointers, Cell(row, Id)) then row else Unpointed(Templates, columns, row)
  {
    if pointers != [] {
      var last := |pointers| - 1;
      assert pointers == pointers[..last] + [pointers[last]];
      PointedRow(item, columns, pointers[..last], i);
      var row := item.rows[i];
      if pointers[last].0 == Cell(row, Id) {
        assert pointers[last] in pointers;
        var named :| named in item.rows && pointers[last] == (Cell(named, Id), Cell(named, CurrentVersionId));
        var k :| 0 <= k < |item.rows| && item.rows[k] == named;
        assert k == i;
        assert PointerSet(pointers, Cell(row, Id));
      } else {
        assert PointerSet(pointers, Cell(row, Id)) == PointerSet(pointers[..last], Cell(row, Id));
      }
    }
  }

  /** After all updates the template rows are those of the payload. */
  lemma PointersRestore(item: TablePayload, columns: set<Column>)
    requires item.table == Templates && CurrentVersionId in columns && Id in columns && UniqueIds(item.rows)
    requires forall row :: row in item.rows ==> Cell(row, Id) != Null
    ensures var pointed := PointedSoFar(UnpointedRows(item, columns), PointersOf(item.rows));
            forall i :: 0 <= i < |item.rows| ==> pointed[i] == Complete(Templates, columns, item.rows[i])
  {
    var pointed := PointedSoFar(UnpointedRows(item, columns), PointersOf(item.rows));
    PointersOfRows(item.rows);
    forall i | 0 <= i < |item.rows|
      ensures pointed[i] == Complete(Templates, columns, item.rows[i])
    {
      var row := item.rows[i];
      PointedRow(item, columns, PointersOf(item.rows), i);
      if Cell(row, CurrentVersionId) == Null {
        assert Unpointed(Templates, columns, row) == Complete(Templates, columns, row);
      } else {
        assert PointerSet(PointersOf(item.rows), Cell(row, Id));
      }
    }
  }

  // ---------------------------------------------------------------------
  // The items

  predicate RowsAccepted(references: set<Reference>, columns: set<Column>, tables: Tables, table: Table,
                         rows: seq<Row>) {
    forall j :: 0 <= j < |rows| ==>
      Accepts(references, columns, Extended(tables, table, rows[..j]), table, rows[j])
  }

  function Extended(tables: Tables, table: Table, rows: seq<Row>): Tables {
    tables[table := RowsOf(tables, table) + rows]
  }

  lemma NothingAppended(tables: Tables, table: Table, rows: seq<Row>)
    requires table in tables
    ensures Extended(tables, table, rows[..0]) == tables
  {
    assert tables[table] + rows[..0] == tables[table];
  }

  lemma OneAppended(tables: Tables, table: Table, rows: seq<Row>, next: nat)
    requires next < |rows|
    ensures Appended(Extended(tables, table, rows[..next]), table, rows[next])
            == Extended(tables, table, rows[..next + 1])
  {
    assert RowsOf(tables, table) + rows[..next] + [rows[next]] == RowsOf(tables, table) + rows[..next + 1];
  }

  lemma {:induction false} NotYetLoaded(payload: seq<TablePayload>, schema: map<Table, seq<Column>>, items: nat,
                                        table: Table)
    requires items <= |payload| && forall i :: 0 <= i < items ==>
              payload[i].table in schema && payload[i].table != table
    requires table in schema && table != StepGate
    ensures table in Loaded(payload, schema, items) && Loaded(payload, schema, items)[table] == []
  {
    if items > 0 {
      NotYetLoaded(payload, schema, items - 1, table);
    }
  }

  predicate RowOrdered(references: set<Reference>, columns: set<Column>, before: Tables, item: TablePayload, j: nat)
    requires j < |item.rows|
  {
    && Unpointed(item.table, columns, item.rows[j]).Keys == columns
    && Supported(references, before[item.table := UnpointedRows(item, columns)[..j]], item.table,
                 Unpointed(item.table, columns, item.rows[j]))
  }

  /** A row without a pointer is accepted exactly when it finds its support. */
  lemma RowAccepted(references: set<Reference>, columns: set<Column>, before: Tables, item: TablePayload, j: nat)
    requires j < |item.rows| && Inserted(item.table) && RowsOf(before, item.table) == []
    ensures var rows := UnpointedRows(item, columns);
            Accepts(references, columns, before[item.table := RowsOf(before, item.table) + rows[..j]], item.table,
                    rows[j])
            <==> RowOrdered(references, columns, before, item, j)
  {
    var rows := UnpointedRows(item, columns);
    assert [] + rows[..j] == rows[..j];
    assert rows[j] == Unpointed(item.table, columns, item.rows[j]);
    if rows[j].Keys == columns && item.table == Templates {
      assert Cell(rows[j], CurrentVersionId) == Null;
    }
  }

  lemma ItemAccepted(references: set<Reference>, columns: set<Column>, before: Tables, item: TablePayload)
    requires Inserted(item.table) && RowsOf(before, item.table) == []
    ensures RowsAccepted(references, columns, before, item.table, UnpointedRows(item, columns))
            <==> ItemOrdered(references, columns, before, item)
  {
    var rows := UnpointedRows(item, columns);
    if ItemOrdered(references, columns, before, item) {
      forall j: nat | j < |rows|
        ensures Accepts(references, columns, Extended(before, item.table, rows[..j]), item.table, rows[j])
      {
        assert j !in Misplaced(references, columns, before, item);
        RowAccepted(references, columns, before, item, j);
      }
    } else {
      var j :| j in Misplaced(references, columns, before, item);
      RowAccepted(references, columns, before, item, j);
    }
  }

  function CollectedPointers(payload: seq<TablePayload>, schema: map<Table, seq<Column>>, items: nat)
    : seq<(Value, Value)>
    requires items <= |payload| && forall i :: 0 <= i < items ==> payload[i].table in schema
  {
    if items == 0 then []
    else
      var item := payload[items - 1];
      var before := CollectedPointers(payload, schema, items - 1);
      if item.table == Templates && CurrentVersionId in ColumnSet(schema[Templates]) then before + PointersOf(item.rows)
      else before
  }

  function DeferredItems(payload: seq<TablePayload>, items: nat): seq<TablePayload>
    requires items <= |payload|
  {
    if items == 0 then []
    else
      var item, before := payload[items - 1], DeferredItems(payload, items - 1);
      if item.table == ConversionJobs then before + [item] else before
  }

  lemma NextItem(payload: seq<TablePayload>, schema: map<Table, seq<Column>>, k: nat)
    requires k < |payload| && forall i :: 0 <= i <= k ==> payload[i].table in schema
    ensures var item, before, columns := payload[k], Loaded(payload, schema, k), ColumnSet(schema[payload[k].table]);
            && Loaded(payload, schema, k + 1)
               == (if Inserted(item.table) then before[item.table := UnpointedRows(item, columns)] else before)
            && CollectedPointers(payload, schema, k + 1)
               == (if item.table == Templates && CurrentVersionId in columns
                   then CollectedPointers(payload, schema, k) + PointersOf(item.rows)
                     else CollectedPointers(payload, schema, k))
            && DeferredItems(payload, k + 1)
               == (if item.table == ConversionJobs then DeferredItems(payload, k) + [item]
                   else DeferredItems(payload, k))
  {
  }

  /** What holds after the first rounds of the first loop. */
  predicate SoFar(references: set<Reference>, payload: seq<TablePayload>, schema: map<Table, seq<Column>>, exact: bool,
                  items: nat, tables: Tables, pointers: seq<(Value, Value)>, deferred: seq<TablePayload>)
    requires items <= |payload| && forall i :: 0 <= i < |payload| ==> payload[i].table in schema
  {
    && tables == Loaded(payload, schema, items)
    && FitUpTo(payload, schema, exact, items) && OrderedUpTo(references, schema, payload, items)
    && pointers == CollectedPointers(payload, schema, items) && deferred == DeferredItems(payload, items)
  }

  lemma SoFarStart(references: set<Reference>, payload: seq<TablePayload>, schema: map<Table, seq<Column>>, exact: bool)
    requires forall i :: 0 <= i < |payload| ==> payload[i].table in schema
    ensures SoFar(references, payload, schema, exact, 0, Loaded(payload, schema, 0), [], [])
  {
  }

  function PointersAfter(item: TablePayload, columns: set<Column>, pointers: seq<(Value, Value)>): seq<(Value, Value)> {
    if item.table == Templates && CurrentVersionId in columns then pointers + PointersOf(item.rows) else pointers
  }

  function DeferredAfter(item: TablePayload, deferred: seq<TablePayload>): seq<TablePayload> {
    if item.table == ConversionJobs then deferred + [item] else deferred
  }

  lemma SoFarNext(references: set<Reference>, payload: seq<TablePayload>, schema: map<Table, seq<Column>>, exact: bool,
                  k: nat, pointers: seq<(Value, Value)>, deferred: seq<TablePayload>)
    requires k < |payload| && forall i :: 0 <= i < |payload| ==> payload[i].table in schema
    requires SoFar(references, payload, schema, exact, k, Loaded(payload, schema, k), pointers, deferred)
    requires ItemFits(payload[k], schema, exact)
    requires Inserted(payload[k].table) ==> OrderedAt(references, schema, payload, k)
    ensures SoFar(references, payload, schema, exact, k + 1, Loaded(payload, schema, k + 1),
                  PointersAfter(payload[k], ColumnSet(schema[payload[k].table]), pointers),
                    DeferredAfter(payload[k], deferred))
  {
    NextItem(payload, schema, k);
  }

  /** A table's item is the only one that adds to what was collected for it. */
  lemma {:induction false} OneItem(payload: seq<TablePayload>, schema: map<Table, seq<Column>>, items: nat, k: nat)
    requires UniqueTables(payload) && items <= |payload| && k < |payload|
    requires forall i :: 0 <= i < |payload| ==> payload[i].table in schema
    ensures k < items ==> PayloadRows(payload, items, payload[k].table) == payload[k].rows
    ensures payload[k].table == Templates ==>
              CollectedPointers(payload, schema, items)
              == if k < items && CurrentVersionId in ColumnSet(schema[Templates]) then PointersOf(payload[k].rows)
                 else []
    ensures payload[k].table == ConversionJobs ==>
              DeferredItems(payload, items) == if k < items then [payload[k]] else []
    ensures k < items && Inserted(payload[k].table) ==>
              var item := payload[k];
              item.table in Loaded(payload, schema, items)
              && Loaded(payload, schema, items)[item.table] == UnpointedRows(item, ColumnSet(schema[item.table]))
  {
    if items > 0 {
      OneItem(payload, schema, items - 1, k);
    }
  }

  /** A table the payload does not hold stays as it was. */
  lemma {:induction false} NoItem(payload: seq<TablePayload>, schema: map<Table, seq<Column>>, items: nat, table: Table)
    requires items <= |payload|
    requires forall i :: 0 <= i < items ==> payload[i].table in schema && payload[i].table != table
    ensures PayloadRows(payload, items, table) == []
    ensures table == Templates ==> CollectedPointers(payload, schema, items) == []
    ensures table == ConversionJobs ==> DeferredItems(payload, items) == []
  {
    if items > 0 {
      NoItem(payload, schema, items - 1, table);
    }
  }

  lemma {:induction false} GateStays(payload: seq<TablePayload>, schema: map<Table, seq<Column>>, items: nat)
    requires items <= |payload| && forall i :: 0 <= i < items ==> payload[i].table in schema
    ensures Loaded(payload, schema, items).Keys == schema.Keys
    ensures StepGate in schema ==> Loaded(payload, schema, items)[StepGate] == GATE_ROWS
    ensures ConversionJobs in schema ==> Loaded(payload, schema, items)[ConversionJobs] == []
  {
    if items > 0 {
      GateStays(payload, schema, items - 1);
    }
  }

  /** The trigger of one pointer update, for the template it names. */
  predicate PointerAccepted(tables: Tables, pointer: (Value, Value)) {
    (exists row :: row in RowsOf(tables, Templates) && Same(Cell(row, Id), pointer.0)) ==>
      PointerHolds(RowsOf(tables, TemplateVersions), pointer.0, pointer.1)
  }

  lemma {:induction false} PointedId(rows: seq<Row>, pointers: seq<(Value, Value)>, i: nat)
    requires i < |rows|
    ensures Cell(PointedSoFar(rows, pointers)[i], Id) == Cell(rows[i], Id)
  {
    if pointers != [] {
      PointedId(rows, pointers[..|pointers| - 1], i);
    }
  }

  lemma PointedIds(rows: seq<Row>, pointers: seq<(Value, Value)>, identifier: Value)
    ensures (exists row :: row in PointedSoFar(rows, pointers) && Same(Cell(row, Id), identifier))
            <==> exists row :: row in rows && Same(Cell(row, Id), identifier)
  {
    var pointed := PointedSoFar(rows, pointers);
    forall i: nat | i < |rows| {
      PointedId(rows, pointers, i);
    }
    if row :| row in pointed && Same(Cell(row, Id), identifier) {
      var i :| 0 <= i < |pointed| && pointed[i] == row;
      PointedId(rows, pointers, i);
      assert rows[i] in rows;
    }
    if row :| row in rows && Same(Cell(row, Id), identifier) {
      var i :| 0 <= i < |rows| && rows[i] == row;
      PointedId(rows, pointers, i);
      assert pointed[i] in pointed;
    }
  }

  // ---------------------------------------------------------------------
  // The three loops together

  /** Ids are columns, so an ordered item has no id twice. */
  lemma OrderedIds(references: set<Reference>, columns: set<Column>, before: Tables, item: TablePayload)
    requires ItemOrdered(references, columns, before, item) && Id in columns
    ensures UniqueIds(item.rows) && forall row :: row in item.rows ==> Cell(row, Id) != Null
  {
    var rows := UnpointedRows(item, columns);
    forall j | 0 <= j < |item.rows|
      ensures Id in item.rows[j] && Cell(item.rows[j], Id) != Null
      ensures forall i :: 0 <= i < j ==> Cell(item.rows[i], Id) != Cell(item.rows[j], Id)
    {
      assert j !in Misplaced(references, columns, before, item);
      assert RowOrdered(references, columns, before, item, j);
      forall i | 0 <= i < j
        ensures Cell(item.rows[i], Id) != Cell(item.rows[j], Id)
      {
        assert rows[..j][i] in rows[..j];
      }
    }
  }

  predicate SchemaHasIds(schema: map<Table, seq<Column>>) {
    Templates in schema ==> Id in ColumnSet(schema[Templates])
  }

  /** The tables after the second loop. */
  function AfterPointers(payload: seq<TablePayload>, schema: map<Table, seq<Column>>): Tables
    requires forall i :: 0 <= i < |payload| ==> payload[i].table in schema
  {
    var tables, pointers := Loaded(payload, schema, |payload|), CollectedPointers(payload, schema, |payload|);
    if pointers == [] || Templates !in tables then tables
    else tables[Templates := PointedSoFar(tables[Templates], pointers)]
  }

  lemma TableFinished(references: set<Reference>, payload: seq<TablePayload>, schema: map<Table, seq<Column>>,
                      exact: bool, k: nat)
    requires k < |payload| && UniqueTables(payload) && Fits(payload, schema, exact) && SchemaHasIds(schema)
    requires Ordered(references, schema, payload)
    ensures var table := payload[k].table;
            table in AfterPointers(payload, schema)
              && AfterPointers(payload, schema)[table] == Finished(payload, schema, [])[table]
  {
    var item, columns := payload[k], ColumnSet(schema[payload[k].table]);
    OneItem(payload, schema, |payload|, k);
    GateStays(payload, schema, |payload|);
    if item.table == Templates {
      assert OrderedAt(references, schema, payload, k);
      if CurrentVersionId in columns {
        OrderedIds(references, columns, Loaded(payload, schema, k), item);
        PointersRestore(item, columns);
        assert PointedSoFar(UnpointedRows(item, columns), PointersOf(item.rows))
               == CompleteRows(Templates, columns, item.rows);
      } else {
        assert UnpointedRows(item, columns) == item.rows == CompleteRows(Templates, columns, item.rows);
      }
    } else {
      assert UnpointedRows(item, columns) == item.rows;
    }
  }

  /** Once the pointers are set, everything but the conversions is final. */
  lemma AllFinished(references: set<Reference>, payload: seq<TablePayload>, schema: map<Table, seq<Column>>,
                    exact: bool)
    requires UniqueTables(payload) && Fits(payload, schema, exact) && SchemaHasIds(schema)
    requires Ordered(references, schema, payload)
    ensures AfterPointers(payload, schema) == Finished(payload, schema, [])
  {
    GateStays(payload, schema, |payload|);
    forall table | table in schema
      ensures AfterPointers(payload, schema)[table] == Finished(payload, schema, [])[table]
    {
      var k := ItemOf(payload, |payload|, table);
      TableFinished(references, payload, schema, exact, k);
    }
  }

  lemma FinalOfItem(payload: seq<TablePayload>, schema: map<Table, seq<Column>>, k: nat)
    requires k < |payload| && UniqueTables(payload) && forall i :: 0 <= i < |payload| ==> payload[i].table in schema
    ensures var table := payload[k].table;
            FinalRows(payload, schema, table) == CompleteRows(table, ColumnSet(schema[table]), payload[k].rows)
  {
    OneItem(payload, schema, |payload|, k);
  }

  lemma FinalOfNone(payload: seq<TablePayload>, schema: map<Table, seq<Column>>, table: Table)
    requires TablesOf(payload, |payload|) == schema.Keys && table !in schema
    requires forall i :: 0 <= i < |payload| ==> payload[i].table in schema
    ensures FinalRows(payload, schema, table) == []
    ensures table == Templates ==> CollectedPointers(payload, schema, |payload|) == []
    ensures table == ConversionJobs ==> DeferredItems(payload, |payload|) == []
  {
    NoItem(payload, schema, |payload|, table);
  }

  /** The triggers of the second loop see the final version rows. */
  lemma VersionsLoaded(references: set<Reference>, payload: seq<TablePayload>, schema: map<Table, seq<Column>>,
                       exact: bool)
    requires UniqueTables(payload) && Fits(payload, schema, exact) && SchemaHasIds(schema)
    requires Ordered(references, schema, payload)
    ensures RowsOf(Loaded(payload, schema, |payload|), TemplateVersions) == FinalRows(payload, schema, TemplateVersions)
  {
    GateStays(payload, schema, |payload|);
    if TemplateVersions in schema {
      AllFinished(references, payload, schema, exact);
      assert AfterPointers(payload, schema)[TemplateVersions] == Loaded(payload, schema, |payload|)[TemplateVersions];
    } else {
      FinalOfNone(payload, schema, TemplateVersions);
    }
  }

  lemma PointerAgrees(versions: seq<Row>, tables: Tables, item: TablePayload, columns: set<Column>, row: Row)
    requires item.table == Templates && RowsOf(tables, Templates) == UnpointedRows(item, columns)
    requires RowsOf(tables, TemplateVersions) == versions && row in item.rows && Cell(row, Id) != Null
    ensures PointerAccepted(tables, (Cell(row, Id), Cell(row, CurrentVersionId)))
            <==> PointerHolds(versions, Cell(row, Id), Cell(row, CurrentVersionId))
  {
    var k :| 0 <= k < |item.rows| && item.rows[k] == row;
    var unpointed := UnpointedRows(item, columns)[k];
    assert unpointed in RowsOf(tables, Templates) && Same(Cell(unpointed, Id), Cell(row, Id));
  }

  /** The pointer updates are all accepted exactly when the final rows satisfy
      the pointer constraint. */
  lemma PointersAgree(references: set<Reference>, payload: seq<TablePayload>, schema: map<Table, seq<Column>>,
                      exact: bool)
    requires UniqueTables(payload) && Fits(payload, schema, exact) && SchemaHasIds(schema)
    requires Ordered(references, schema, payload)
    ensures (forall p :: p in CollectedPointers(payload, schema, |payload|) ==>
               PointerAccepted(Loaded(payload, schema, |payload|), p))
            <==> PointersHold(payload, schema)
  {
    if Templates !in schema {
      FinalOfNone(payload, schema, Templates);
    } else {
      var k := ItemOf(payload, |payload|, Templates);
      OneItem(payload, schema, |payload|, k);
      FinalOfItem(payload, schema, k);
      VersionsLoaded(references, payload, schema, exact);
      TemplatePointersAgree(references, payload, schema, k);
    }
  }

  lemma TemplatePointersAgree(references: set<Reference>, payload: seq<TablePayload>, schema: map<Table, seq<Column>>,
                              k: nat)
    requires k < |payload| && UniqueTables(payload) && forall i :: 0 <= i < |payload| ==> payload[i].table in schema
    requires payload[k].table == Templates && SchemaHasIds(schema) && OrderedAt(references, schema, payload, k)
    requires FinalRows(payload, schema, Templates)
             == CompleteRows(Templates, ColumnSet(schema[Templates]), payload[k].rows)
    requires RowsOf(Loaded(payload, schema, |payload|), TemplateVersions)
             == FinalRows(payload, schema, TemplateVersions)
    ensures (forall p :: p in CollectedPointers(payload, schema, |payload|) ==>
               PointerAccepted(Loaded(payload, schema, |payload|), p))
            <==> PointersHold(payload, schema)
  {
    var item, columns := payload[k], ColumnSet(schema[Templates]);
    OneItem(payload, schema, |payload|, k);
    OrderedIds(references, columns, Loaded(payload, schema, k), item);
    if CurrentVersionId !in columns {
      NoPointers(references, columns, Loaded(payload, schema, k), item);
    } else {
      ItemPointersAgree(FinalRows(payload, schema, TemplateVersions), Loaded(payload, schema, |payload|), item,
                        columns);
    }
  }

  lemma ItemPointersAgree(versions: seq<Row>, tables: Tables, item: TablePayload, columns: set<Column>)
    requires item.table == Templates && RowsOf(tables, Templates) == UnpointedRows(item, columns)
    requires RowsOf(tables, TemplateVersions) == versions && forall row :: row in item.rows ==> Cell(row, Id) != Null
    ensures (forall p :: p in PointersOf(item.rows) ==> PointerAccepted(tables, p))
            <==> forall row :: row in CompleteRows(Templates, columns, item.rows) ==>
                   PointerHolds(versions, Cell(row, Id), Cell(row, CurrentVersionId))
  {
    var complete := CompleteRows(Templates, columns, item.rows);
    PointersOfRows(item.rows);
    if forall p :: p in PointersOf(item.rows) ==> PointerAccepted(tables, p) {
      forall row | row in complete
        ensures PointerHolds(versions, Cell(row, Id), Cell(row, CurrentVersionId))
      {
        var j :| 0 <= j < |complete| && complete[j] == row;
        PointerAgrees(versions, tables, item, columns, item.rows[j]);
      }
    } else {
      var p :| p in PointersOf(item.rows) && !PointerAccepted(tables, p);
      var row :| row in item.rows && p == (Cell(row, Id), Cell(row, CurrentVersionId));
      var j :| 0 <= j < |item.rows| && item.rows[j] == row;
      PointerAgrees(versions, tables, item, columns, row);
      assert complete[j] in complete;
    }
  }

  lemma NoPointers(references: set<Reference>, columns: set<Column>, before: Tables, item: TablePayload)
    requires ItemOrdered(references, columns, before, item) && CurrentVersionId !in columns
    ensures forall row :: row in item.rows ==> Cell(row, CurrentVersionId) == Null
    ensures CompleteRows(item.table, columns, item.rows) == item.rows
  {
    forall j | 0 <= j < |item.rows|
      ensures Cell(item.rows[j], CurrentVersionId) == Null
    {
      assert j !in Misplaced(references, columns, before, item);
    }
  }

  lemma FinishedRows(payload: seq<TablePayload>, schema: map<Table, seq<Column>>, jobs: seq<Row>)
    requires TablesOf(payload, |payload|) == schema.Keys && forall i :: 0 <= i < |payload| ==>
              payload[i].table in schema
    ensures RowsOf(Finished(payload, schema, jobs), Templates) == FinalRows(payload, schema, Templates)
    ensures RowsOf(Finished(payload, schema, jobs), TemplateVersions) == FinalRows(payload, schema, TemplateVersions)
  {
    if Templates !in schema {
      FinalOfNone(payload, schema, Templates);
    }
    if TemplateVersions !in schema {
      FinalOfNone(payload, schema, TemplateVersions);
    }
  }

  lemma FinishedJobs(payload: seq<TablePayload>, schema: map<Table, seq<Column>>, jobs: seq<Row>)
    requires ConversionJobs in schema
    ensures Extended(Finished(payload, schema, []), ConversionJobs, jobs) == Finished(payload, schema, jobs)
  {
    assert [] + jobs == jobs;
  }

  lemma JobAccepted(references: set<Reference>, columns: set<Column>, tables: Tables, row: Row)
    ensures Accepts(references, columns, tables, ConversionJobs, row)
            == (row.Keys == columns && Supported(references, tables, ConversionJobs, row)
                && PairHolds(RowsOf(tables, Templates), RowsOf(tables, TemplateVersions), row))
  {
  }

  /** The triggers of the third loop see the final rows. */
  lemma JobAgrees(references: set<Reference>, payload: seq<TablePayload>, schema: map<Table, seq<Column>>,
                  jobs: seq<Row>, j: nat)
    requires TablesOf(payload, |payload|) == schema.Keys && forall i :: 0 <= i < |payload| ==>
              payload[i].table in schema
    requires ConversionJobs in schema && j < |jobs|
    ensures Accepts(references, ColumnSet(schema[ConversionJobs]),
                    Extended(Finished(payload, schema, []), ConversionJobs, jobs[..j]),
                    ConversionJobs, jobs[j])
            == (JobOrdered(references, schema, payload, jobs, j)
                && PairHolds(FinalRows(payload, schema, Templates), FinalRows(payload, schema, TemplateVersions),
                             jobs[j]))
  {
    FinishedJobs(payload, schema, jobs[..j]);
    FinishedRows(payload, schema, jobs[..j]);
    JobAccepted(references, ColumnSet(schema[ConversionJobs]), Finished(payload, schema, jobs[..j]), jobs[j]);
  }

  /** The conversions are all accepted exactly when each finds what it refers to
      and the final rows satisfy the conversion constraint. */
  lemma JobsAgree(references: set<Reference>, payload: seq<TablePayload>, schema: map<Table, seq<Column>>)
    requires TablesOf(payload, |payload|) == schema.Keys && forall i :: 0 <= i < |payload| ==>
              payload[i].table in schema
    requires ConversionJobs in schema
    ensures RowsAccepted(references, ColumnSet(schema[ConversionJobs]), Finished(payload, schema, []), ConversionJobs,
                         FinalRows(payload, schema, ConversionJobs))
            <==> JobsOrdered(references, schema, payload) && PairsHold(payload, schema)
  {
    var jobs, columns := FinalRows(payload, schema, ConversionJobs), ColumnSet(schema[ConversionJobs]);
    var templates, versions := FinalRows(payload, schema, Templates), FinalRows(payload, schema, TemplateVersions);
    if JobsOrdered(references, schema, payload) && PairsHold(payload, schema) {
      forall j | 0 <= j < |jobs|
        ensures Accepts(references, columns, Extended(Finished(payload, schema, []), ConversionJobs, jobs[..j]),
                        ConversionJobs, jobs[j])
      {
        assert jobs[j] in jobs && JobOrdered(references, schema, payload, jobs, j);
        JobAgrees(references, payload, schema, jobs, j);
      }
    }
    if RowsAccepted(references, columns, Finished(payload, schema, []), ConversionJobs, jobs) {
      forall j: nat | j < |jobs| {
        JobAgrees(references, payload, schema, jobs, j);
      }
      forall row | row in jobs
        ensures PairHolds(templates, versions, row)
      {
        var j :| 0 <= j < |jobs| && jobs[j] == row;
        JobAgrees(references, payload, schema, jobs, j);
      }
    }
  }

  /** Rows with all their columns come back as they were. */
  lemma CompleteRowsReturn(payload: seq<TablePayload>, schema: map<Table, seq<Column>>, k: nat)
    requires k < |payload| && UniqueTables(payload) && forall i :: 0 <= i < |payload| ==> payload[i].table in schema
    requires forall row :: row in payload[k].rows ==> row.Keys == ColumnSet(schema[payload[k].table])
    ensures FinalRows(payload, schema, payload[k].table) == payload[k].rows
  {
    FinalOfItem(payload, schema, k);
    assert CompleteRows(payload[k].table, ColumnSet(schema[payload[k].table]), payload[k].rows) == payload[k].rows;
  }

  /** A conversion satisfies the constraint exactly when it names no template, or
      its template is active and published and points to the version it names. */
  lemma PairNeedsCurrent(templates: seq<Row>, versions: seq<Row>, template: Row, job: Row)
    requires template in templates && UniqueIds(templates) && Same(Cell(template, Id), Cell(job, TemplateId))
    ensures PairHolds(templates, versions, job) <==>
              CurrentPair(versions, template, Cell(job, TemplateId), Cell(job, TemplateVersionId))
  {
    if each :| each in templates && CurrentPair(versions, each, Cell(job, TemplateId), Cell(job, TemplateVersionId)) {
      var i :| 0 <= i < |templates| && templates[i] == each;
      var j :| 0 <= j < |templates| && templates[j] == template;
      assert i == j;
    }
  }

  /** What the database allowed it may not take back: when a template moves on to
      another version, each conversion that used the former version stays in the
      table and satisfies the constraint no more, so no backup of it reloads. */
  lemma MovingOnStrandsJobs(templates: seq<Row>, versions: seq<Row>, template: Row, job: Row, version: Value)
    requires template in templates && UniqueIds(templates) && Same(Cell(template, Id), Cell(job, TemplateId))
    requires PairHolds(templates, versions, job)
    requires version != Cell(job, TemplateVersionId)
    ensures !PairHolds(Pointed(templates, Cell(template, Id), version), versions, job)
  {
    var moved := Pointed(templates, Cell(template, Id), version);
    var i :| 0 <= i < |templates| && templates[i] == template;
    assert moved[i] in moved && Cell(moved[i], Id) == Cell(template, Id);
    assert forall k :: 0 <= k < |moved| ==> Cell(moved[k], Id) == Cell(templates[k], Id);
    PairNeedsCurrent(moved, versions, moved[i], job);
  }
}
