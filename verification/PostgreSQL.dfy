/** The reload of `PostgreSQLRecoveryAdapter.restore` as it changes the database:
    one insert or update after the other, in one transaction. */
module PostgreSQL {
  import opened Records
  import opened Reload
  import opened ReloadOrder

  class Database {
    const references: set<Reference>
    var tables: Tables

    constructor (references: set<Reference>, schema: map<Table, seq<Column>>)
      ensures this.references == references && tables == Loaded([], schema, 0)
    {
      this.references := references;
      tables := Loaded([], schema, 0);
    }

    /** One `INSERT`, with its constraints and triggers. */
    method Insert(table: Table, columns: set<Column>, row: Row) returns (accepted: bool)
      modifies this`tables
      ensures accepted == Accepts(references, columns, old(tables), table, row)
      ensures tables == if accepted then Appended(old(tables), table, row) else old(tables)
    {
      accepted := Accepts(references, columns, tables, table, row);
      if accepted {
        tables := Appended(tables, table, row);
      }
    }

    method InsertRows(table: Table, columns: set<Column>, rows: seq<Row>) returns (accepted: bool)
      requires table in tables
      modifies this`tables
      ensures accepted == RowsAccepted(references, columns, old(tables), table, rows)
      ensures accepted ==> tables == Extended(old(tables), table, rows)
    {
      var next := 0;
      ghost var before := tables;
      NothingAppended(before, table, rows);
      while next < |rows|
        invariant next <= |rows|
        invariant tables == Extended(before, table, rows[..next])
        invariant forall j :: 0 <= j < next ==>
                  Accepts(references, columns, Extended(before, table, rows[..j]), table, rows[j])
      {
        accepted := Insert(table, columns, rows[next]);
        if !accepted {
          return false;
        }
        OneAppended(before, table, rows, next);
        next := next + 1;
      }
      assert rows[..next] == rows;
      accepted := true;
    }

    /** One pointer `UPDATE`, with its trigger. */
    method SetPointer(identifier: Value, value: Value) returns (accepted: bool)
      requires Templates in tables
      modifies this`tables
      ensures accepted == forall row :: row in old(tables)[Templates] && Same(Cell(row, Id), identifier) ==>
                PointerHolds(RowsOf(old(tables), TemplateVersions), identifier, value)
      ensures tables == if accepted then old(tables)[Templates := Pointed(old(tables)[Templates], identifier, value)]
              else old(tables)
    {
      accepted := forall row :: row in tables[Templates] && Same(Cell(row, Id), identifier) ==>
        PointerHolds(RowsOf(tables, TemplateVersions), identifier, value);
      if accepted {
        tables := tables[Templates := Pointed(tables[Templates], identifier, value)];
      }
    }

    method InsertItem(item: TablePayload, columns: set<Column>) returns (accepted: bool)
      requires Inserted(item.table) && item.table in tables && tables[item.table] == []
      modifies this`tables
      ensures accepted == ItemOrdered(references, columns, old(tables), item)
      ensures accepted ==> tables == old(tables)[item.table := UnpointedRows(item, columns)]
    {
      ItemAccepted(references, columns, tables, item);
      accepted := InsertRows(item.table, columns, UnpointedRows(item, columns));
      assert [] + UnpointedRows(item, columns) == UnpointedRows(item, columns);
    }

    method LoadRows(payload: seq<TablePayload>, schema: map<Table, seq<Column>>, exact: bool, k: nat)
      returns (outcome: Outcome)
      requires k < |payload| && UniqueTables(payload) && forall i :: 0 <= i < |payload| ==> payload[i].table in schema
      requires tables == Loaded(payload, schema, k)
      modifies this`tables
      ensures outcome.Restored? ==> ItemFits(payload[k], schema, exact) && tables == Loaded(payload, schema, k + 1)
      ensures outcome.Restored? ==> (Inserted(payload[k].table) ==> OrderedAt(references, schema, payload, k))
      ensures outcome.Incompatible? ==> !ItemFits(payload[k], schema, exact)
      ensures outcome.Refused? ==> Inserted(payload[k].table) && !OrderedAt(references, schema, payload, k)
    {
      var item, columns := payload[k], ColumnSet(schema[payload[k].table]);
      var timely: bool := *;
      if !timely {
        return TimedOut;
      }
      if !ItemFits(item, schema, exact) {
        return Incompatible;
      }
      NextItem(payload, schema, k);
      if Inserted(item.table) {
        NotYetLoaded(payload, schema, k, item.table);
        var accepted := InsertItem(item, columns);
        if !accepted {
          return Refused;
        }
      }
      return Restored;
    }

    /** One round of the first loop. */
    method LoadItem(payload: seq<TablePayload>, schema: map<Table, seq<Column>>, exact: bool, k: nat,
                    pointers: seq<(Value, Value)>, deferred: seq<TablePayload>)
      returns (outcome: Outcome, morePointers: seq<(Value, Value)>, moreDeferred: seq<TablePayload>)
      requires k < |payload| && UniqueTables(payload) && forall i :: 0 <= i < |payload| ==> payload[i].table in schema
      requires SoFar(references, payload, schema, exact, k, tables, pointers, deferred)
      modifies this`tables
      ensures outcome.Restored? ==> SoFar(references, payload, schema, exact, k + 1, tables, morePointers, moreDeferred)
      ensures outcome.Incompatible? ==> !Fits(payload, schema, exact)
      ensures outcome.Refused? ==> !Ordered(references, schema, payload)
    {
      outcome := LoadRows(payload, schema, exact, k);
      morePointers := PointersAfter(payload[k], ColumnSet(schema[payload[k].table]), pointers);
      moreDeferred := DeferredAfter(payload[k], deferred);
      if outcome.Restored? {
        SoFarNext(references, payload, schema, exact, k, pointers, deferred);
      }
    }

    /** The first loop: rows in payload order, template rows without pointers,
        conversions put aside. */
    method InsertItems(payload: seq<TablePayload>, schema: map<Table, seq<Column>>, exact: bool)
      returns (outcome: Outcome, pointers: seq<(Value, Value)>, deferred: seq<TablePayload>)
      requires UniqueTables(payload) && forall i :: 0 <= i < |payload| ==> payload[i].table in schema
      requires tables == Loaded(payload, schema, 0)
      modifies this`tables
      ensures outcome.Restored? ==> SoFar(references, payload, schema, exact, |payload|, tables, pointers, deferred)
      ensures outcome.Incompatible? ==> !Fits(payload, schema, exact)
      ensures outcome.Refused? ==> !Ordered(references, schema, payload)
    {
      pointers, deferred := [], [];
      SoFarStart(references, payload, schema, exact);
      for k := 0 to |payload|
        invariant SoFar(references, payload, schema, exact, k, tables, pointers, deferred)
      {
        outcome, pointers, deferred := LoadItem(payload, schema, exact, k, pointers, deferred);
        if !outcome.Restored? {
          return;
        }
      }
      outcome := Restored;
    }

    /** The second loop: each pointer, once every version is there. */
    method SetPointers(pointers: seq<(Value, Value)>) returns (outcome: Outcome)
      requires pointers != [] ==> Templates in tables
      modifies this`tables
      ensures !outcome.Incompatible?
      ensures outcome.Restored? ==>
                && (forall p :: p in pointers ==> PointerAccepted(old(tables), p))
                && tables == if pointers == [] then old(tables)
                             else old(tables)[Templates := PointedSoFar(old(tables)[Templates], pointers)]
      ensures outcome.Refused? ==> exists p :: p in pointers && !PointerAccepted(old(tables), p)
    {
      ghost var before := tables;
      var next := 0;
      while next < |pointers|
        invariant next <= |pointers|
        invariant forall p :: p in pointers[..next] ==> PointerAccepted(before, p)
        invariant tables == if next == 0 then before
                  else before[Templates := PointedSoFar(before[Templates], pointers[..next])]
      {
        var timely: bool := *;
        if !timely {
          return TimedOut;
        }
        PointedIds(before[Templates], pointers[..next], pointers[next].0);
        assert pointers[..next + 1][..next] == pointers[..next];
        var accepted := SetPointer(pointers[next].0, pointers[next].1);
        if !accepted {
          assert !PointerAccepted(before, pointers[next]);
          return Refused;
        }
        next := next + 1;
      }
      assert pointers[..next] == pointers;
      outcome := Restored;
    }

    /** The third loop: the conversions that were put aside. */
    method InsertDeferred(deferred: seq<TablePayload>, columns: set<Column>) returns (outcome: Outcome)
      requires |deferred| <= 1 && ConversionJobs in tables
      modifies this`tables
      ensures !outcome.Incompatible?
      ensures outcome.Restored? && deferred != [] ==>
                && RowsAccepted(references, columns, old(tables), ConversionJobs, deferred[0].rows)
                && tables == Extended(old(tables), ConversionJobs, deferred[0].rows)
      ensures outcome.Restored? && deferred == [] ==> tables == old(tables)
      ensures outcome.Refused? ==>
                deferred != [] && !RowsAccepted(references, columns, old(tables), ConversionJobs, deferred[0].rows)
    {
      outcome := Restored;
      if deferred != [] {
        var timely: bool := *;
        if !timely {
          return TimedOut;
        }
        var accepted := InsertRows(ConversionJobs, columns, deferred[0].rows);
        if !accepted {
          return Refused;
        }
      }
    }

    /** The three loops. */
    method Load(payload: seq<TablePayload>, schema: map<Table, seq<Column>>, exact: bool) returns (outcome: Outcome)
      requires UniqueTables(payload) && SchemaHasIds(schema) && tables == Loaded([], schema, 0)
      modifies this`tables
      ensures outcome.Restored? ==> Loadable(references, schema, payload, exact)
      ensures outcome.Restored? ==> tables == Finished(payload, schema, FinalRows(payload, schema, ConversionJobs))
      ensures outcome.Incompatible? || outcome.Refused? ==> !Loadable(references, schema, payload, exact)
    {
      if TablesOf(payload, |payload|) != schema.Keys {
        return Incompatible;
      }
      ItemsListed(payload, |payload|);
      var pointers, deferred;
      outcome, pointers, deferred := InsertItems(payload, schema, exact);
      if !outcome.Restored? {
        return;
      }
      GateStays(payload, schema, |payload|);
      PointersAgree(references, payload, schema, exact);
      if Templates !in schema {
        FinalOfNone(payload, schema, Templates);
      }
      outcome := SetPointers(pointers);
      if !outcome.Restored? {
        return;
      }
      AllFinished(references, payload, schema, exact);
      outcome := Conclude(payload, schema, deferred);
    }

    method Conclude(payload: seq<TablePayload>, schema: map<Table, seq<Column>>, deferred: seq<TablePayload>)
      returns (outcome: Outcome)
      requires UniqueTables(payload) && TablesOf(payload, |payload|) == schema.Keys
      requires forall i :: 0 <= i < |payload| ==> payload[i].table in schema
      requires tables == Finished(payload, schema, []) && deferred == DeferredItems(payload, |payload|)
      modifies this`tables
      ensures !outcome.Incompatible?
      ensures outcome.Restored? ==> JobsOrdered(references, schema, payload) && PairsHold(payload, schema)
      ensures outcome.Restored? ==> tables == Finished(payload, schema, FinalRows(payload, schema, ConversionJobs))
      ensures outcome.Refused? ==> !(JobsOrdered(references, schema, payload) && PairsHold(payload, schema))
    {
      if ConversionJobs !in schema {
        FinalOfNone(payload, schema, ConversionJobs);
        return Restored;
      }
      ghost var k := ItemOf(payload, |payload|, ConversionJobs);
      OneItem(payload, schema, |payload|, k);
      FinalOfItem(payload, schema, k);
      JobsAgree(references, payload, schema);
      FinishedJobs(payload, schema, FinalRows(payload, schema, ConversionJobs));
      outcome := InsertDeferred(deferred, ColumnSet(schema[ConversionJobs]));
    }

    /** Restores exactly the reloadable payloads; then every table holds exactly
        the payload's rows. */
    method InsertPayload(payload: seq<TablePayload>, schema: map<Table, seq<Column>>, exact: bool)
      returns (outcome: Outcome)
      requires UniqueTables(payload) && SchemaHasIds(schema) && tables == Loaded([], schema, 0)
      modifies this`tables
      ensures outcome.Restored? ==> Reloadable(references, schema, payload, exact)
      ensures outcome.Restored? ==> tables == Finished(payload, schema, FinalRows(payload, schema, ConversionJobs))
      ensures outcome.Incompatible? || outcome.Refused? ==> !Reloadable(references, schema, payload, exact)
    {
      ReloadableExactly(references, schema, payload, exact);
      outcome := Load(payload, schema, exact);
    }

    /** One transaction: a failed restore leaves the target as it was. */
    method Restore(payload: seq<TablePayload>, schema: map<Table, seq<Column>>, exact: bool) returns (outcome: Outcome)
      requires UniqueTables(payload) && SchemaHasIds(schema) && tables == Loaded([], schema, 0)
      modifies this`tables
      ensures outcome.Restored? ==> Reloadable(references, schema, payload, exact)
      ensures tables == if outcome.Restored? then Finished(payload, schema, FinalRows(payload, schema, ConversionJobs))
              else old(tables)
      ensures Reloadable(references, schema, payload, exact) ==> outcome.Restored? || outcome.TimedOut?
    {
      var begun := tables;
      outcome := InsertPayload(payload, schema, exact);
      if !outcome.Restored? {
        tables := begun;
      }
    }
  }
}