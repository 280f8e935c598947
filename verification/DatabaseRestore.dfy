/** `PostgreSQLRecoveryAdapter.restore` as a whole: the references of the payload
    are checked before the transaction, the reload and the migration run in it,
    and the references of the database are checked before it is committed. */
module DatabaseRestore {
  import opened Records
  import opened Reload
  import opened ReloadOrder
  import opened References
  import opened PostgreSQL

  datatype Verdict = Complete | MissingObjects | Failed(reason: Outcome) | NotMigrated

  /** The tables of a payload by name. */
  function Listed(payload: seq<TablePayload>): Tables {
    map table | table in TablesOf(payload, |payload|) :: PayloadRows(payload, |payload|, table)
  }

  function Restored(payload: seq<TablePayload>, schema: map<Table, seq<Column>>): Tables {
    Finished(payload, schema, FinalRows(payload, schema, ConversionJobs))
  }

  /** All referenced keys are valid and restored objects have them. */
  predicate Resolve(tables: Tables, present: ObjectName -> bool, valid: ObjectName -> bool) {
    forall key :: key in ReferencedKeys(tables) ==> valid(key) && present(key)
  }

  method CheckReferences(tables: Tables, present: ObjectName -> bool, valid: ObjectName -> bool) returns (ok: bool)
    ensures ok <==> Resolve(tables, present, valid)
  {
    var keys, allValid := CollectReferences(tables, valid);
    ok := allValid && forall key :: key in keys ==> present(key);
  }

  method ReadColumns(rows: seq<Row>, columns: set<Column>) returns (read: seq<Row>)
    ensures ReadsBack(rows, read, columns)
  {
    read := seq(|rows|, i requires 0 <= i < |rows| => Projected(rows[i], columns));
    forall row | row in rows
      ensures Projected(row, columns) in read
    {
      var i :| 0 <= i < |rows| && rows[i] == row;
      assert read[i] == Projected(row, columns);
    }
    forall each | each in read
      ensures IsProjection(rows, each, columns)
    {
      var i :| 0 <= i < |read| && read[i] == each;
      assert rows[i] in rows;
    }
  }

  /** `read_reference_rows`, one query for each table. */
  method ReadReferences(tables: Tables, shape: map<Table, set<Column>>) returns (read: Tables)
    ensures ReadReferenceRows(tables, shape, read)
  {
    read := map[];
    var todo := REFERENCE_TABLES * shape.Keys;
    while todo != {}
      invariant todo <= REFERENCE_TABLES * shape.Keys && read.Keys == REFERENCE_TABLES * shape.Keys - todo
      invariant forall table :: table in read ==>
                ReadsBack(RowsOf(tables, table), read[table], ReferenceColumns(table) * shape[table])
    {
      var table :| table in todo;
      var rows := ReadColumns(RowsOf(tables, table), ReferenceColumns(table) * shape[table]);
      read, todo := read[table := rows], todo - {table};
    }
  }

  /** Everything the caller can know beforehand. */
  ghost predicate Restorable(references: set<Reference>, schema: map<Table, seq<Column>>, payload: seq<TablePayload>,
                             exact: bool, present: ObjectName -> bool, valid: ObjectName -> bool) {
    Reloadable(references, schema, payload, exact) && Resolve(Listed(payload), present, valid)
  }

  lemma ListedIsPayload(payload: seq<TablePayload>, schema: map<Table, seq<Column>>, exact: bool)
    requires Fits(payload, schema, exact)
    ensures Listed(payload) == PayloadTables(payload, schema)
  {
  }

  predicate HasIds(schema: map<Table, seq<Column>>) {
    forall table :: table in {Templates, ComposerDrafts, ComposerRevisions} && table in schema ==>
      Id in ColumnSet(schema[table])
  }

  /** At the head the check of the database never fails: it sees what the check
      of the payload saw. */
  lemma SecondCheckPasses(references: set<Reference>, schema: map<Table, seq<Column>>, payload: seq<TablePayload>,
                          exact: bool,
                          present: ObjectName -> bool, valid: ObjectName -> bool, shape: map<Table, set<Column>>,
                            read: Tables)
    requires UniqueTables(payload) && HasIds(schema) && ShapeHasReferences(shape)
    requires Restorable(references, schema, payload, exact, present, valid)
    requires ReadReferenceRows(Restored(payload, schema), shape, read)
    ensures Resolve(read, present, valid)
  {
    ListedIsPayload(payload, schema, exact);
    DatabaseCheckAgrees(references, schema, payload, exact, shape, Restored(payload, schema), read);
  }

  /** The ids of drafts and revisions are primary keys. */
  predicate IdsUnique(tables: Tables) {
    UniqueIds(RowsOf(tables, ComposerDrafts)) && UniqueIds(RowsOf(tables, ComposerRevisions))
  }

  /** The reload keeps these ids unique. */
  lemma RestoredIdsUnique(references: set<Reference>, schema: map<Table, seq<Column>>, payload: seq<TablePayload>,
                          exact: bool)
    requires UniqueTables(payload) && HasIds(schema) && Reloadable(references, schema, payload, exact)
    ensures IdsUnique(Restored(payload, schema))
  {
    ReloadedIds(references, schema, payload, exact, ComposerDrafts);
    ReloadedIds(references, schema, payload, exact, ComposerRevisions);
    ReloadedRows(payload, schema, ComposerDrafts);
    ReloadedRows(payload, schema, ComposerRevisions);
  }

  /** All or nothing; and at the head only the deadline can fail what is restorable. */
  method Restore(database: Database, payload: seq<TablePayload>, schema: map<Table, seq<Column>>, exact: bool,
                 present: ObjectName -> bool, valid: ObjectName -> bool, shape: map<Table, set<Column>>,
                   migrate: Tables -> Tables)
    returns (verdict: Verdict)
    requires UniqueTables(payload) && HasIds(schema) && ShapeHasReferences(shape)
    requires database.tables == Loaded([], schema, 0)
    modifies database
    ensures verdict.Complete? ==> Restorable(database.references, schema, payload, exact, present, valid)
    ensures verdict.Complete? ==> database.tables == if exact
            then Restored(payload, schema) else migrate(Restored(payload, schema))
    ensures verdict.Complete? ==> exists read ::
            ReadReferenceRows(database.tables, shape, read) && Resolve(read, present, valid)
    ensures verdict.Complete? && (exact || IdsUnique(database.tables)) ==> Resolve(database.tables, present, valid)
    ensures !verdict.Complete? ==> database.tables == old(database.tables)
    ensures exact && Restorable(database.references, schema, payload, exact, present, valid) ==>
              verdict.Complete? || verdict == Failed(TimedOut)
  {
    var resolved := CheckReferences(Listed(payload), present, valid);
    if !resolved {
      return MissingObjects;
    }
    var begun := database.tables;
    var outcome := database.Restore(payload, schema, exact);
    if !outcome.Restored? {
      return Failed(outcome);
    }
    if !exact {
      var migrated: bool := *;
      if !migrated {
        database.tables := begun;
        return NotMigrated;
      }
      database.tables := migrate(database.tables);
    }
    var timely: bool := *;
    if !timely {
      database.tables := begun;
      return Failed(TimedOut);
    }
    var read := ReadReferences(database.tables, shape);
    resolved := CheckReferences(read, present, valid);
    if exact {
      SecondCheckPasses(database.references, schema, payload, exact, present, valid, shape, read);
    }
    if !resolved {
      database.tables := begun;
      return MissingObjects;
    }
    if exact {
      RestoredIdsUnique(database.references, schema, payload, exact);
    }
    if IdsUnique(database.tables) {
      ReadKeysAgree(database.tables, shape, read);
    }
    verdict := Complete;
  }
}
