/** What a payload has to be for the reload to accept it, said of the payload
    alone: what its final rows satisfy, and the order in which it lists them. */
module ReloadOrder {
  import opened Records
  import opened Reload

  // ---------------------------------------------------------------------
  // What a row needs

  /** A row of the target table with this id and this other cell. */
  datatype Need = Need(target: Table, id: Value, other: Column, value: Value)

  predicate Meets(need: Need, row: Row) {
    Same(Cell(row, Id), need.id) && Same(Cell(row, need.other), need.value)
  }

  /** What foreign keys and the version trigger want to find. */
  ghost predicate IsNeed(references: set<Reference>, table: Table, row: Row, need: Need) {
    || (exists reference :: reference in references && IsReferenceNeed(reference, table, row, need))
    || (table == TemplateVersions && need == Need(Templates, Cell(row, TemplateId), OwnerId, Cell(row, ObjectOwnerId)))
    || (table == TemplateVersions && Cell(row, RestoredFromVersionId) != Null
        && need == Need(TemplateVersions, Cell(row, RestoredFromVersionId), TemplateId, Cell(row, TemplateId)))
  }

  predicate IsReferenceNeed(reference: Reference, table: Table, row: Row, need: Need) {
    && reference.table == table && Cell(row, reference.column) != Null
    && need == Need(reference.target, Cell(row, reference.column), Id, Cell(row, reference.column))
  }

  predicate IdFree(tables: Tables, table: Table, row: Row) {
    Id in row ==> row[Id] != Null && forall each :: each in RowsOf(tables, table) ==> Cell(each, Id) != row[Id]
  }

  ghost predicate Found(tables: Tables, need: Need) {
    exists each :: each in RowsOf(tables, need.target) && Meets(need, each)
  }

  /** The insert of a row succeeds when its id is free and its needs are met. */
  lemma SupportedIs(references: set<Reference>, tables: Tables, table: Table, row: Row)
    ensures Supported(references, tables, table, row) <==>
              IdFree(tables, table, row) && forall need :: IsNeed(references, table, row, need) ==> Found(tables, need)
  {
    forall reference | reference in references && reference.table == table && Cell(row, reference.column) != Null
      ensures var need := Need(reference.target, Cell(row, reference.column), Id, Cell(row, reference.column));
              IsNeed(references, table, row, need)
              && (Found(tables, need) <==> exists each ::
                  each in RowsOf(tables, reference.target) && Same(Cell(each, Id), Cell(row, reference.column)))
    {
      assert IsReferenceNeed(reference, table, row,
                             Need(reference.target, Cell(row, reference.column), Id, Cell(row, reference.column)));
    }
    if table == TemplateVersions {
      var owner := Need(Templates, Cell(row, TemplateId), OwnerId, Cell(row, ObjectOwnerId));
      var source := Need(TemplateVersions, Cell(row, RestoredFromVersionId), TemplateId, Cell(row, TemplateId));
      assert IsNeed(references, table, row, owner);
      assert Cell(row, RestoredFromVersionId) != Null ==> IsNeed(references, table, row, source);
    }
  }

  // ---------------------------------------------------------------------
  // Places in the payload and when their rows are inserted

  datatype Place = Place(item: int, row: int)

  predicate At(payload: seq<TablePayload>, place: Place) {
    0 <= place.item < |payload| && 0 <= place.row < |payload[place.item].rows|
  }

  function TableAt(payload: seq<TablePayload>, place: Place): Table
    requires At(payload, place)
  {
    payload[place.item].table
  }

  function RowAt(payload: seq<TablePayload>, place: Place): Row
    requires At(payload, place)
  {
    payload[place.item].rows[place.row]
  }

  /** The gate row is there from the start; conversions come last. */
  function Turn(payload: seq<TablePayload>, item: int): int
    requires 0 <= item < |payload|
  {
    match payload[item].table
    case StepGate => -1
    case ConversionJobs => |payload|
    case _ => item
  }

  predicate Before(payload: seq<TablePayload>, one: Place, other: Place)
    requires At(payload, one) && At(payload, other)
  {
    Turn(payload, one.item) < Turn(payload, other.item) || (one.item == other.item && one.row < other.row)
  }

  /** A row as the reload inserts it: a template without its pointer. */
  function Entered(payload: seq<TablePayload>, schema: map<Table, seq<Column>>, place: Place): Row
    requires At(payload, place) && TableAt(payload, place) in schema
  {
    Unpointed(TableAt(payload, place), ColumnSet(schema[TableAt(payload, place)]), RowAt(payload, place))
  }

  predicate Suits(payload: seq<TablePayload>, schema: map<Table, seq<Column>>, exact: bool) {
    UniqueTables(payload) && Fits(payload, schema, exact)
  }

  /** A row that the reload inserts. */
  predicate Inserts(payload: seq<TablePayload>, place: Place) {
    At(payload, place) && TableAt(payload, place) != StepGate
  }

  /** The tables when the turn of a row comes. */
  function TablesAt(payload: seq<TablePayload>, schema: map<Table, seq<Column>>, place: Place): Tables
    requires At(payload, place) && forall i :: 0 <= i < |payload| ==> payload[i].table in schema
  {
    var item := payload[place.item];
    if item.table == ConversionJobs then Finished(payload, schema, item.rows[..place.row])
    else Loaded(payload, schema, place.item)[item.table :=
                                             UnpointedRows(item, ColumnSet(schema[item.table]))[..place.row]]
  }

  ghost predicate SameButPointer(one: Row, other: Row) {
    forall column :: column != CurrentVersionId ==> Cell(one, column) == Cell(other, column)
  }

  /** A list that holds the rows of an item up to some row, pointers aside. */
  ghost predicate Lists(rows: seq<Row>, item: TablePayload, end: int) {
    |rows| == end <= |item.rows| && forall i :: 0 <= i < end ==> SameButPointer(rows[i], item.rows[i])
  }

  lemma UnpointedLists(item: TablePayload, columns: set<Column>, end: nat)
    requires end <= |item.rows|
    ensures Lists(UnpointedRows(item, columns)[..end], item, end)
            && Lists(UnpointedRows(item, columns), item, |item.rows|)
  {
  }

  lemma CompleteLists(item: TablePayload, columns: set<Column>)
    ensures Lists(CompleteRows(item.table, columns, item.rows), item, |item.rows|)
  {
  }

  /** How many rows of an item are there when the turn of a row comes. */
  function Ready(payload: seq<TablePayload>, item: int, place: Place): int
    requires 0 <= item < |payload| && At(payload, place)
  {
    if item == place.item then place.row
    else if Turn(payload, item) < Turn(payload, place.item) then |payload[item].rows| else 0
  }

  /** The rows of a table at that moment are the rows of its item that are ready. */
  lemma RowsReady(payload: seq<TablePayload>, schema: map<Table, seq<Column>>, exact: bool, item: nat, place: Place)
    requires Suits(payload, schema, exact) && Inserts(payload, place) && item < |payload|
    requires forall i :: 0 <= i < |payload| ==> payload[i].table in schema
    ensures Lists(RowsOf(TablesAt(payload, schema, place), payload[item].table), payload[item],
                  Ready(payload, item, place))
  {
    var other, columns := payload[item], ColumnSet(schema[payload[item].table]);
    var k: nat := place.item;
    UnpointedLists(other, columns, |other.rows|);
    if item == k {
      UnpointedLists(other, columns, place.row);
    } else if payload[k].table == ConversionJobs {
      FinalOfItem(payload, schema, item);
      CompleteLists(other, columns);
    } else {
      GateStays(payload, schema, k);
      if other.table == StepGate {
        assert ItemFits(other, schema, exact);
      } else if other.table != ConversionJobs {
        OneItem(payload, schema, k, item);
        if k <= item {
          NotYetLoaded(payload, schema, k, other.table);
        }
      }
    }
  }

  // ---------------------------------------------------------------------
  // Met before its turn

  predicate IsMet(payload: seq<TablePayload>, need: Need, place: Place) {
    At(payload, place) && TableAt(payload, place) == need.target && Meets(need, RowAt(payload, place))
  }

  ghost predicate MetBefore(payload: seq<TablePayload>, need: Need, place: Place)
    requires At(payload, place)
  {
    exists support :: IsMet(payload, need, support) && Before(payload, support, place)
  }

  lemma MeetsSame(need: Need, one: Row, other: Row)
    requires need.other != CurrentVersionId && SameButPointer(one, other)
    ensures Meets(need, one) <==> Meets(need, other)
  {
    assert Cell(one, Id) == Cell(other, Id) && Cell(one, need.other) == Cell(other, need.other);
  }

  lemma FoundBefore(payload: seq<TablePayload>, schema: map<Table, seq<Column>>, exact: bool, need: Need, place: Place)
    requires Suits(payload, schema, exact) && Inserts(payload, place) && need.other != CurrentVersionId
    requires forall i :: 0 <= i < |payload| ==> payload[i].table in schema
    ensures Found(TablesAt(payload, schema, place), need) <==> MetBefore(payload, need, place)
  {
    var rows := RowsOf(TablesAt(payload, schema, place), need.target);
    if need.target !in schema {
      NotThere(payload, schema, need.target, place);
    } else {
      var item := ItemOf(payload, |payload|, need.target);
      RowsReady(payload, schema, exact, item, place);
      if each :| each in rows && Meets(need, each) {
        var i :| 0 <= i < |rows| && rows[i] == each;
        MeetsSame(need, each, payload[item].rows[i]);
        var support := Place(item, i);
        assert IsMet(payload, need, support) && Before(payload, support, place);
      }
      if support :| IsMet(payload, need, support) && Before(payload, support, place) {
        assert support.item == item;
        MeetsSame(need, rows[support.row], RowAt(payload, support));
        assert rows[support.row] in rows;
      }
    }
  }

  lemma NotThere(payload: seq<TablePayload>, schema: map<Table, seq<Column>>, table: Table, place: Place)
    requires At(payload, place) && forall i :: 0 <= i < |payload| ==> payload[i].table in schema
    requires table !in schema
    ensures RowsOf(TablesAt(payload, schema, place), table) == []
  {
    GateStays(payload, schema, place.item);
  }

  // ---------------------------------------------------------------------
  // One row after the other

  /** The insert at a place succeeds, triggers aside. */
  predicate RowLoads(references: set<Reference>, payload: seq<TablePayload>, schema: map<Table, seq<Column>>,
                     place: Place)
    requires At(payload, place) && forall i :: 0 <= i < |payload| ==> payload[i].table in schema
  {
    && Entered(payload, schema, place).Keys == ColumnSet(schema[TableAt(payload, place)])
    && Supported(references, TablesAt(payload, schema, place), TableAt(payload, place), Entered(payload, schema, place))
  }

  ghost predicate AllLoad(references: set<Reference>, payload: seq<TablePayload>, schema: map<Table, seq<Column>>)
    requires forall i :: 0 <= i < |payload| ==> payload[i].table in schema
  {
    forall place :: Inserts(payload, place) ==> RowLoads(references, payload, schema, place)
  }

  lemma ItemLoads(references: set<Reference>, payload: seq<TablePayload>, schema: map<Table, seq<Column>>, k: nat)
    requires k < |payload| && forall i :: 0 <= i < |payload| ==> payload[i].table in schema
    requires Inserted(payload[k].table)
    ensures OrderedAt(references, schema, payload, k) <==>
            forall j :: 0 <= j < |payload[k].rows| ==> RowLoads(references, payload, schema, Place(k, j))
  {
    var item, columns, before := payload[k], ColumnSet(schema[payload[k].table]), Loaded(payload, schema, k);
    forall j: nat | j < |item.rows|
      ensures RowOrdered(references, columns, before, item, j) <==> RowLoads(references, payload, schema, Place(k, j))
    {
    }
    if !OrderedAt(references, schema, payload, k) {
      var j :| j in Misplaced(references, columns, before, item);
      assert !RowLoads(references, payload, schema, Place(k, j));
    } else {
      forall j: nat | j < |item.rows|
        ensures RowLoads(references, payload, schema, Place(k, j))
      {
        assert j !in Misplaced(references, columns, before, item);
      }
    }
  }

  lemma JobsLoad(references: set<Reference>, payload: seq<TablePayload>, schema: map<Table, seq<Column>>, k: nat)
    requires k < |payload| && UniqueTables(payload) && forall i :: 0 <= i < |payload| ==> payload[i].table in schema
    requires payload[k].table == ConversionJobs
    ensures JobsOrdered(references, schema, payload) <==>
            forall j :: 0 <= j < |payload[k].rows| ==> RowLoads(references, payload, schema, Place(k, j))
  {
    var jobs := FinalRows(payload, schema, ConversionJobs);
    FinalOfItem(payload, schema, k);
    assert jobs == payload[k].rows;
    forall j: nat | j < |jobs|
      ensures JobOrdered(references, schema, payload, jobs, j) <==> RowLoads(references, payload, schema, Place(k, j))
    {
    }
  }

  lemma NoJobs(references: set<Reference>, payload: seq<TablePayload>, schema: map<Table, seq<Column>>)
    requires forall i :: 0 <= i < |payload| ==> payload[i].table in schema && payload[i].table != ConversionJobs
    ensures JobsOrdered(references, schema, payload)
  {
    NoItem(payload, schema, |payload|, ConversionJobs);
    assert FinalRows(payload, schema, ConversionJobs) == [];
  }

  ghost predicate ItemAllLoads(references: set<Reference>, payload: seq<TablePayload>, schema: map<Table, seq<Column>>,
                               k: int)
    requires 0 <= k < |payload| && forall i :: 0 <= i < |payload| ==> payload[i].table in schema
  {
    forall j :: 0 <= j < |payload[k].rows| ==> RowLoads(references, payload, schema, Place(k, j))
  }

  lemma AllLoadByItems(references: set<Reference>, payload: seq<TablePayload>, schema: map<Table, seq<Column>>)
    requires forall i :: 0 <= i < |payload| ==> payload[i].table in schema
    ensures AllLoad(references, payload, schema) <==>
            forall k :: 0 <= k < |payload| && payload[k].table != StepGate ==>
              ItemAllLoads(references, payload, schema, k)
  {
    if AllLoad(references, payload, schema) {
      forall k, j | 0 <= k < |payload| && payload[k].table != StepGate && 0 <= j < |payload[k].rows|
        ensures RowLoads(references, payload, schema, Place(k, j))
      {
        assert Inserts(payload, Place(k, j));
      }
    } else {
      var place :| Inserts(payload, place) && !RowLoads(references, payload, schema, place);
      assert place == Place(place.item, place.row);
      assert !ItemAllLoads(references, payload, schema, place.item);
    }
  }

  lemma AllLoadExactly(references: set<Reference>, payload: seq<TablePayload>, schema: map<Table, seq<Column>>,
                       exact: bool)
    requires Suits(payload, schema, exact) && forall i :: 0 <= i < |payload| ==> payload[i].table in schema
    ensures Ordered(references, schema, payload) && JobsOrdered(references, schema, payload) <==>
              AllLoad(references, payload, schema)
  {
    AllLoadByItems(references, payload, schema);
    forall k: nat | k < |payload| && Inserted(payload[k].table)
      ensures OrderedAt(references, schema, payload, k) <==> ItemAllLoads(references, payload, schema, k)
    {
      ItemLoads(references, payload, schema, k);
    }
    if k :| 0 <= k < |payload| && payload[k].table == ConversionJobs {
      JobsLoad(references, payload, schema, k);
      assert JobsOrdered(references, schema, payload) <==> ItemAllLoads(references, payload, schema, k);
    } else {
      NoJobs(references, payload, schema);
    }
  }

  // ---------------------------------------------------------------------
  // The payload alone

  /** Every row has exactly the columns of its table. */
  ghost predicate Shaped(payload: seq<TablePayload>, schema: map<Table, seq<Column>>)
    requires forall i :: 0 <= i < |payload| ==> payload[i].table in schema
  {
    forall place :: Inserts(payload, place) ==>
      Entered(payload, schema, place).Keys == ColumnSet(schema[TableAt(payload, place)])
  }

  predicate Numbered(rows: seq<Row>) {
    UniqueIds(rows) && forall row :: row in rows ==> Cell(row, Id) != Null
  }

  /** Where a table has ids, no row lacks one and no two rows share one. */
  predicate Identified(payload: seq<TablePayload>, schema: map<Table, seq<Column>>)
    requires forall i :: 0 <= i < |payload| ==> payload[i].table in schema
  {
    forall i :: 0 <= i < |payload| && payload[i].table != StepGate && Id in ColumnSet(schema[payload[i].table]) ==>
      Numbered(payload[i].rows)
  }

  /** A row of the payload needs this. */
  ghost predicate Wants(references: set<Reference>, payload: seq<TablePayload>, schema: map<Table, seq<Column>>,
                        place: Place, need: Need)
    requires forall i :: 0 <= i < |payload| ==> payload[i].table in schema
  {
    Inserts(payload, place) && IsNeed(references, TableAt(payload, place), Entered(payload, schema, place), need)
  }

  /** Everything a row needs is among the final rows. */
  ghost predicate Fulfilled(references: set<Reference>, payload: seq<TablePayload>, schema: map<Table, seq<Column>>)
    requires forall i :: 0 <= i < |payload| ==> payload[i].table in schema
  {
    forall place, need :: Wants(references, payload, schema, place, need) ==>
      exists each :: each in FinalRows(payload, schema, need.target) && Meets(need, each)
  }

  /** What a row needs is listed before it, conversions counting as last. */
  ghost predicate InOrder(references: set<Reference>, payload: seq<TablePayload>, schema: map<Table, seq<Column>>)
    requires forall i :: 0 <= i < |payload| ==> payload[i].table in schema
  {
    forall place, need, support :: Wants(references, payload, schema, place, need) && IsMet(payload, need, support) ==>
      Before(payload, support, place)
  }

  lemma FinalMet(payload: seq<TablePayload>, schema: map<Table, seq<Column>>, exact: bool, need: Need)
    requires Suits(payload, schema, exact) && need.other != CurrentVersionId
    requires forall i :: 0 <= i < |payload| ==> payload[i].table in schema
    ensures (exists each :: each in FinalRows(payload, schema, need.target) && Meets(need, each)) <==>
            exists support :: IsMet(payload, need, support)
  {
    var rows := FinalRows(payload, schema, need.target);
    if need.target !in schema {
      FinalOfNone(payload, schema, need.target);
    } else {
      var item := ItemOf(payload, |payload|, need.target);
      FinalOfItem(payload, schema, item);
      CompleteLists(payload[item], ColumnSet(schema[need.target]));
      if each :| each in rows && Meets(need, each) {
        var i :| 0 <= i < |rows| && rows[i] == each;
        MeetsSame(need, each, payload[item].rows[i]);
        assert IsMet(payload, need, Place(item, i));
      }
      if support :| IsMet(payload, need, support) {
        assert support.item == item;
        MeetsSame(need, rows[support.row], RowAt(payload, support));
        assert rows[support.row] in rows;
      }
    }
  }

  lemma GateIsNumbered()
    ensures Numbered(GATE_ROWS)
  {
  }

  /** With unique ids at most one row meets a need. */
  lemma MetOnce(payload: seq<TablePayload>, schema: map<Table, seq<Column>>, exact: bool, need: Need, one: Place,
                other: Place)
    requires Suits(payload, schema, exact) && forall i :: 0 <= i < |payload| ==> payload[i].table in schema
    requires Shaped(payload, schema) && Identified(payload, schema)
    requires IsMet(payload, need, one) && IsMet(payload, need, other)
    ensures one == other
  {
    assert one.item == other.item;
    var item := payload[one.item];
    if item.table == StepGate {
      assert ItemFits(item, schema, exact);
      GateIsNumbered();
    } else {
      assert Inserts(payload, one);
      assert Id in Entered(payload, schema, one);
      assert Numbered(item.rows);
    }
  }

  lemma IdsFree(payload: seq<TablePayload>, schema: map<Table, seq<Column>>, exact: bool, k: nat)
    requires Suits(payload, schema, exact) && forall i :: 0 <= i < |payload| ==> payload[i].table in schema
    requires Shaped(payload, schema) && k < |payload| && payload[k].table != StepGate
    ensures (Id in ColumnSet(schema[payload[k].table]) ==> Numbered(payload[k].rows)) <==>
            forall j :: 0 <= j < |payload[k].rows| ==>
              IdFree(TablesAt(payload, schema, Place(k, j)), payload[k].table, Entered(payload, schema, Place(k, j)))
  {
    var rows, table := payload[k].rows, payload[k].table;
    forall j: nat | j < |rows|
      ensures IdFree(TablesAt(payload, schema, Place(k, j)), table, Entered(payload, schema, Place(k, j))) <==>
              (Id in ColumnSet(schema[table]) ==>
                 Cell(rows[j], Id) != Null && forall i :: 0 <= i < j ==> Cell(rows[i], Id) != Cell(rows[j], Id))
    {
      IdFreeAt(payload, schema, exact, k, j);
    }
    if forall j: nat :: j < |rows| ==> Cell(rows[j], Id) != Null && forall i :: 0 <= i < j ==>
      Cell(rows[i], Id) != Cell(rows[j], Id) {
      assert Numbered(rows);
    }
  }

  lemma IdFreeAt(payload: seq<TablePayload>, schema: map<Table, seq<Column>>, exact: bool, k: nat, j: nat)
    requires Suits(payload, schema, exact) && forall i :: 0 <= i < |payload| ==> payload[i].table in schema
    requires Shaped(payload, schema) && k < |payload| && payload[k].table != StepGate && j < |payload[k].rows|
    ensures IdFree(TablesAt(payload, schema, Place(k, j)), payload[k].table, Entered(payload, schema, Place(k, j))) <==>
            (Id in ColumnSet(schema[payload[k].table]) ==>
               Cell(payload[k].rows[j], Id) != Null
               && forall i :: 0 <= i < j ==> Cell(payload[k].rows[i], Id) != Cell(payload[k].rows[j], Id))
  {
    var rows, place := payload[k].rows, Place(k, j);
    assert Inserts(payload, place);
    RowsReady(payload, schema, exact, k, place);
    var before := RowsOf(TablesAt(payload, schema, place), payload[k].table);
    var entered := Entered(payload, schema, place);
    assert Id in entered <==> Id in ColumnSet(schema[payload[k].table]);
    assert Cell(entered, Id) == Cell(rows[j], Id);
    forall i | 0 <= i < j
      ensures before[i] in before && Cell(before[i], Id) == Cell(rows[i], Id)
    {
      assert SameButPointer(before[i], rows[i]);
    }
    if Id in entered && !IdFree(TablesAt(payload, schema, place), payload[k].table, entered)
      && Cell(entered, Id) != Null {
      var each :| each in before && Cell(each, Id) == entered[Id];
      var i :| 0 <= i < |before| && before[i] == each;
      assert Cell(rows[i], Id) == Cell(rows[j], Id);
    }
  }

  lemma RowLoadsExactly(references: set<Reference>, payload: seq<TablePayload>, schema: map<Table, seq<Column>>,
                        exact: bool, place: Place)
    requires Suits(payload, schema, exact) && forall i :: 0 <= i < |payload| ==> payload[i].table in schema
    requires Shaped(payload, schema) && Inserts(payload, place)
    ensures RowLoads(references, payload, schema, place) <==>
            && IdFree(TablesAt(payload, schema, place), TableAt(payload, place), Entered(payload, schema, place))
            && forall need :: Wants(references, payload, schema, place, need) ==> MetBefore(payload, need, place)
  {
    var table, entered := TableAt(payload, place), Entered(payload, schema, place);
    SupportedIs(references, TablesAt(payload, schema, place), table, entered);
    forall need | Wants(references, payload, schema, place, need)
      ensures Found(TablesAt(payload, schema, place), need) <==> MetBefore(payload, need, place)
    {
      FoundBefore(payload, schema, exact, need, place);
    }
  }

  // ---------------------------------------------------------------------
  // Exactly what is restored

  /** The payload has the tables and columns of the target; its final rows have
      ids, find what they refer to and satisfy the pointer and conversion
      constraints; and what a row refers to is listed before it. */
  ghost predicate Reloadable(references: set<Reference>, schema: map<Table, seq<Column>>, payload: seq<TablePayload>,
                             exact: bool) {
    && Fits(payload, schema, exact)
    && Shaped(payload, schema) && Identified(payload, schema)
    && Fulfilled(references, payload, schema) && InOrder(references, payload, schema)
    && PointersHold(payload, schema) && PairsHold(payload, schema)
  }

  lemma LoadsAreShaped(references: set<Reference>, payload: seq<TablePayload>, schema: map<Table, seq<Column>>)
    requires forall i :: 0 <= i < |payload| ==> payload[i].table in schema
    requires AllLoad(references, payload, schema)
    ensures Shaped(payload, schema)
  {
    forall place | Inserts(payload, place)
      ensures Entered(payload, schema, place).Keys == ColumnSet(schema[TableAt(payload, place)])
    {
      assert RowLoads(references, payload, schema, place);
    }
  }

  lemma LoadsAreIdentified(references: set<Reference>, payload: seq<TablePayload>, schema: map<Table, seq<Column>>,
                           exact: bool)
    requires Suits(payload, schema, exact) && forall i :: 0 <= i < |payload| ==> payload[i].table in schema
    requires AllLoad(references, payload, schema) && Shaped(payload, schema)
    ensures Identified(payload, schema)
  {
    forall k: nat | k < |payload| && payload[k].table != StepGate
      ensures Id in ColumnSet(schema[payload[k].table]) ==> Numbered(payload[k].rows)
    {
      forall j: nat | j < |payload[k].rows|
        ensures IdFree(TablesAt(payload, schema, Place(k, j)), payload[k].table, Entered(payload, schema, Place(k, j)))
      {
        assert Inserts(payload, Place(k, j));
        RowLoadsExactly(references, payload, schema, exact, Place(k, j));
      }
      IdsFree(payload, schema, exact, k);
    }
  }

  lemma NeedIsNoPointer(references: set<Reference>, table: Table, row: Row, need: Need)
    requires IsNeed(references, table, row, need)
    ensures need.other != CurrentVersionId
  {
  }

  /** Inserting in payload order succeeds exactly when needs are fulfilled in order. */
  lemma LoadsExactly(references: set<Reference>, payload: seq<TablePayload>, schema: map<Table, seq<Column>>,
                     exact: bool)
    requires Suits(payload, schema, exact) && forall i :: 0 <= i < |payload| ==> payload[i].table in schema
    ensures AllLoad(references, payload, schema) <==>
            && Shaped(payload, schema) && Identified(payload, schema)
            && Fulfilled(references, payload, schema) && InOrder(references, payload, schema)
  {
    if AllLoad(references, payload, schema) {
      LoadsAreShaped(references, payload, schema);
      LoadsAreIdentified(references, payload, schema, exact);
      forall place, need | Wants(references, payload, schema, place, need)
        ensures exists each :: each in FinalRows(payload, schema, need.target) && Meets(need, each)
        ensures forall support :: IsMet(payload, need, support) ==> Before(payload, support, place)
      {
        WantedBefore(references, payload, schema, exact, place, need);
      }
    } else if Shaped(payload, schema) && Identified(payload, schema) && Fulfilled(references, payload, schema)
      && InOrder(references, payload, schema) {
      forall place | Inserts(payload, place)
        ensures RowLoads(references, payload, schema, place)
      {
        InOrderLoads(references, payload, schema, exact, place);
      }
    }
  }

  lemma WantedBefore(references: set<Reference>, payload: seq<TablePayload>, schema: map<Table, seq<Column>>,
                     exact: bool, place: Place, need: Need)
    requires Suits(payload, schema, exact) && forall i :: 0 <= i < |payload| ==> payload[i].table in schema
    requires AllLoad(references, payload, schema) && Shaped(payload, schema) && Identified(payload, schema)
    requires Wants(references, payload, schema, place, need)
    ensures exists each :: each in FinalRows(payload, schema, need.target) && Meets(need, each)
    ensures forall support :: IsMet(payload, need, support) ==> Before(payload, support, place)
  {
    NeedIsNoPointer(references, TableAt(payload, place), Entered(payload, schema, place), need);
    RowLoadsExactly(references, payload, schema, exact, place);
    var support :| IsMet(payload, need, support) && Before(payload, support, place);
    FinalMet(payload, schema, exact, need);
    forall other | IsMet(payload, need, other)
      ensures other == support
    {
      MetOnce(payload, schema, exact, need, other, support);
    }
  }

  lemma InOrderLoads(references: set<Reference>, payload: seq<TablePayload>, schema: map<Table, seq<Column>>,
                     exact: bool, place: Place)
    requires Suits(payload, schema, exact) && forall i :: 0 <= i < |payload| ==> payload[i].table in schema
    requires Shaped(payload, schema) && Identified(payload, schema)
    requires Fulfilled(references, payload, schema) && InOrder(references, payload, schema) && Inserts(payload, place)
    ensures RowLoads(references, payload, schema, place)
  {
    RowLoadsExactly(references, payload, schema, exact, place);
    IdsFree(payload, schema, exact, place.item);
    assert place == Place(place.item, place.row);
    forall need | Wants(references, payload, schema, place, need)
      ensures MetBefore(payload, need, place)
    {
      NeedIsNoPointer(references, TableAt(payload, place), Entered(payload, schema, place), need);
      FinalMet(payload, schema, exact, need);
      var support :| IsMet(payload, need, support);
    }
  }

  /** The inserts and updates all succeed exactly when the payload is reloadable. */
  lemma ReloadableExactly(references: set<Reference>, schema: map<Table, seq<Column>>, payload: seq<TablePayload>,
                          exact: bool)
    requires UniqueTables(payload)
    ensures Loadable(references, schema, payload, exact) <==> Reloadable(references, schema, payload, exact)
  {
    if Fits(payload, schema, exact) {
      assert forall i :: 0 <= i < |payload| ==> ItemFits(payload[i], schema, exact);
      AllLoadExactly(references, payload, schema, exact);
      LoadsExactly(references, payload, schema, exact);
    }
  }
}
