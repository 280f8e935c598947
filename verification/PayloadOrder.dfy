/** Why the order of rows matters: a backup lists the rows of a table in whatever
    order the database returns them. */
module PayloadOrder {
  import opened Records
  import opened Reload
  import opened ReloadOrder

  /** The same rows in every table, in any order, with the tables in any order. */
  predicate SameContents(one: seq<TablePayload>, other: seq<TablePayload>, schema: map<Table, seq<Column>>) {
    forall table :: table in schema ==>
      multiset(PayloadRows(one, |one|, table)) == multiset(PayloadRows(other, |other|, table))
  }

  lemma SameMembers<T>(one: seq<T>, other: seq<T>)
    requires multiset(one) == multiset(other)
    ensures forall each :: each in one <==> each in other
  {
    assert forall each :: each in one <==> each in multiset(one);
    assert forall each :: each in other <==> each in multiset(other);
  }

  lemma Twice(rows: seq<Row>, i: nat, j: nat)
    requires i < j < |rows| && rows[i] == rows[j]
    ensures multiset(rows)[rows[i]] >= 2
  {
    assert rows == rows[..j] + rows[j..];
    assert rows[i] == rows[..j][i] && rows[i] in multiset(rows[..j]);
    assert rows[j] == rows[j..][0] && rows[j] in multiset(rows[j..]);
  }

  lemma Once(rows: seq<Row>, i: nat)
    requires UniqueIds(rows) && i < |rows|
    ensures multiset(rows)[rows[i]] == 1
  {
    assert rows == rows[..i] + [rows[i]] + rows[i + 1..];
    assert rows[i] !in rows[..i] && rows[i] !in rows[i + 1..];
  }

  lemma NumberedInAnyOrder(one: seq<Row>, other: seq<Row>)
    requires multiset(one) == multiset(other) && Numbered(one)
    ensures Numbered(other)
  {
    SameMembers(one, other);
    forall i, j | 0 <= i < j < |other|
      ensures Cell(other[i], Id) != Cell(other[j], Id)
    {
      assert other[i] in one && other[j] in one;
      var k :| 0 <= k < |one| && one[k] == other[i];
      var l :| 0 <= l < |one| && one[l] == other[j];
      if k == l {
        Twice(other, i, j);
        Once(one, k);
        assert false;
      }
    }
  }

  lemma RowsOfItem(payload: seq<TablePayload>, schema: map<Table, seq<Column>>, exact: bool, table: Table)
    returns (k: nat)
    requires Suits(payload, schema, exact) && table in schema
    ensures k < |payload| && payload[k].table == table && PayloadRows(payload, |payload|, table) == payload[k].rows
  {
    k := ItemOf(payload, |payload|, table);
    assert forall i :: 0 <= i < |payload| ==> ItemFits(payload[i], schema, exact);
    OneItem(payload, schema, |payload|, k);
  }

  lemma IndexInOther(one: seq<Row>, other: seq<Row>, j: nat) returns (k: nat)
    requires multiset(one) == multiset(other) && j < |other|
    ensures k < |one| && one[k] == other[j]
  {
    SameMembers(one, other);
    assert other[j] in other && other[j] in one;
    k :| 0 <= k < |one| && one[k] == other[j];
  }

  /** The same row in the other payload. */
  lemma Counterpart(one: seq<TablePayload>, other: seq<TablePayload>, schema: map<Table, seq<Column>>, exact: bool,
                    place: Place)
    returns (there: Place)
    requires Suits(one, schema, exact) && Suits(other, schema, exact) && SameContents(one, other, schema)
             && At(other, place)
    requires TableAt(other, place) in schema
    ensures At(one, there) && TableAt(one, there) == TableAt(other, place) && RowAt(one, there) == RowAt(other, place)
  {
    var table := TableAt(other, place);
    var k := RowsOfItem(one, schema, exact, table);
    var l := RowsOfItem(other, schema, exact, table);
    assert l == place.item;
    var j := IndexInOther(one[k].rows, other[l].rows, place.row);
    there := Place(k, j);
  }

  lemma SameFinalRows(one: seq<TablePayload>, other: seq<TablePayload>, schema: map<Table, seq<Column>>, exact: bool,
                      table: Table)
    requires Suits(one, schema, exact) && Suits(other, schema, exact) && SameContents(one, other, schema)
    ensures forall each :: each in FinalRows(one, schema, table) ==> each in FinalRows(other, schema, table)
  {
    if table !in schema {
      assert forall i :: 0 <= i < |one| ==> ItemFits(one[i], schema, exact);
      FinalOfNone(one, schema, table);
    } else {
      var rows, others := PayloadRows(one, |one|, table), PayloadRows(other, |other|, table);
      SameMembers(rows, others);
      var final := FinalRows(other, schema, table);
      forall each | each in FinalRows(one, schema, table)
        ensures each in final
      {
        var i :| 0 <= i < |rows| && FinalRows(one, schema, table)[i] == each;
        assert rows[i] in rows;
        var j :| 0 <= j < |others| && others[j] == rows[i];
        assert final[j] in final;
      }
    }
  }

  lemma ShapedInAnyOrder(one: seq<TablePayload>, other: seq<TablePayload>, schema: map<Table, seq<Column>>, exact: bool)
    requires Suits(one, schema, exact) && Suits(other, schema, exact) && SameContents(one, other, schema)
    requires forall i :: 0 <= i < |one| ==> one[i].table in schema
    requires forall i :: 0 <= i < |other| ==> other[i].table in schema
    requires Shaped(one, schema) && Identified(one, schema)
    ensures Shaped(other, schema) && Identified(other, schema)
  {
    forall place | Inserts(other, place)
      ensures Entered(other, schema, place).Keys == ColumnSet(schema[TableAt(other, place)])
    {
      var there := Counterpart(one, other, schema, exact, place);
      assert Inserts(one, there) && Entered(one, schema, there) == Entered(other, schema, place);
    }
    forall i: nat | i < |other| && other[i].table != StepGate && Id in ColumnSet(schema[other[i].table])
      ensures Numbered(other[i].rows)
    {
      var k := RowsOfItem(one, schema, exact, other[i].table);
      var l := RowsOfItem(other, schema, exact, other[i].table);
      assert l == i;
      NumberedInAnyOrder(one[k].rows, other[l].rows);
    }
  }

  lemma FulfilledInAnyOrder(references: set<Reference>, one: seq<TablePayload>, other: seq<TablePayload>,
                            schema: map<Table, seq<Column>>, exact: bool)
    requires Suits(one, schema, exact) && Suits(other, schema, exact) && SameContents(one, other, schema)
    requires forall i :: 0 <= i < |one| ==> one[i].table in schema
    requires forall i :: 0 <= i < |other| ==> other[i].table in schema
    requires Fulfilled(references, one, schema)
    ensures Fulfilled(references, other, schema)
  {
    forall place, need | Wants(references, other, schema, place, need)
      ensures exists each :: each in FinalRows(other, schema, need.target) && Meets(need, each)
    {
      var there := Counterpart(one, other, schema, exact, place);
      assert Wants(references, one, schema, there, need);
      SameFinalRows(one, other, schema, exact, need.target);
    }
  }

  lemma ConstraintsInAnyOrder(one: seq<TablePayload>, other: seq<TablePayload>, schema: map<Table, seq<Column>>,
                              exact: bool)
    requires Suits(one, schema, exact) && Suits(other, schema, exact) && SameContents(one, other, schema)
    requires PointersHold(one, schema) && PairsHold(one, schema)
    ensures PointersHold(other, schema) && PairsHold(other, schema)
  {
    SameFinalRows(other, one, schema, exact, Templates);
    SameFinalRows(other, one, schema, exact, ConversionJobs);
    SameFinalRows(one, other, schema, exact, Templates);
    SameFinalRows(one, other, schema, exact, TemplateVersions);
    forall row | row in FinalRows(other, schema, ConversionJobs)
      ensures PairHolds(FinalRows(other, schema, Templates), FinalRows(other, schema, TemplateVersions), row)
    {
      PairFromMembers(FinalRows(one, schema, Templates), FinalRows(one, schema, TemplateVersions),
                      FinalRows(other, schema, Templates), FinalRows(other, schema, TemplateVersions), row);
    }
  }

  lemma PairFromMembers(templates: seq<Row>, versions: seq<Row>, otherTemplates: seq<Row>, otherVersions: seq<Row>,
                        row: Row)
    requires forall each :: each in templates ==> each in otherTemplates
    requires forall each :: each in versions ==> each in otherVersions
    requires PairHolds(templates, versions, row)
    ensures PairHolds(otherTemplates, otherVersions, row)
  {
    if each :| each in templates && CurrentPair(versions, each, Cell(row, TemplateId), Cell(row, TemplateVersionId)) {
      assert CurrentPair(otherVersions, each, Cell(row, TemplateId), Cell(row, TemplateVersionId));
    }
  }

  /** Of two payloads with the same rows one may be reloadable and the other not:
      the other is exactly when it, too, lists what a row needs before the row. */
  lemma OrderDecides(references: set<Reference>, schema: map<Table, seq<Column>>, one: seq<TablePayload>,
                     other: seq<TablePayload>, exact: bool)
    requires UniqueTables(one) && Reloadable(references, schema, one, exact)
    requires Suits(other, schema, exact) && SameContents(one, other, schema)
    requires forall i :: 0 <= i < |other| ==> other[i].table in schema
    ensures Reloadable(references, schema, other, exact) <==> InOrder(references, other, schema)
  {
    assert forall i :: 0 <= i < |one| ==> ItemFits(one[i], schema, exact);
    ShapedInAnyOrder(one, other, schema, exact);
    FulfilledInAnyOrder(references, one, other, schema, exact);
    ConstraintsInAnyOrder(one, other, schema, exact);
  }

  function Exchanged(payload: seq<TablePayload>, k: nat, i: nat, j: nat): seq<TablePayload>
    requires k < |payload| && i < j < |payload[k].rows|
  {
    var rows := payload[k].rows;
    payload[k := payload[k].(rows := rows[i := rows[j]][j := rows[i]])]
  }

  /** A version restored from another one has to come after it: exchanging the
      two makes a reloadable payload unreloadable. */
  lemma RestoredVersionFirstFails(references: set<Reference>, schema: map<Table, seq<Column>>,
                                  payload: seq<TablePayload>, exact: bool,
                                  k: nat, i: nat, j: nat)
    requires UniqueTables(payload) && Reloadable(references, schema, payload, exact)
    requires k < |payload| && payload[k].table == TemplateVersions && i < j < |payload[k].rows|
    requires Same(Cell(payload[k].rows[j], RestoredFromVersionId), Cell(payload[k].rows[i], Id))
    ensures !Reloadable(references, schema, Exchanged(payload, k, i, j), exact)
  {
    var other, rows := Exchanged(payload, k, i, j), payload[k].rows;
    assert forall l :: 0 <= l < |payload| ==> ItemFits(payload[l], schema, exact);
    var need := Need(TemplateVersions, Cell(rows[j], RestoredFromVersionId), TemplateId, Cell(rows[j], TemplateId));
    assert Wants(references, payload, schema, Place(k, j), need);
    SourceIs(references, schema, payload, exact, k, i, j, need);
    assert !Before(other, Place(k, j), Place(k, i));
    assert IsMet(other, need, Place(k, j));
    if Fits(other, schema, exact) {
      assert forall l :: 0 <= l < |other| ==> ItemFits(other[l], schema, exact);
      assert Wants(references, other, schema, Place(k, i), need);
    }
  }

  /** The row a version was restored from is the one with that id. */
  lemma SourceIs(references: set<Reference>, schema: map<Table, seq<Column>>, payload: seq<TablePayload>, exact: bool,
                 k: nat, i: nat, j: nat, need: Need)
    requires Suits(payload, schema, exact) && Reloadable(references, schema, payload, exact)
    requires forall l :: 0 <= l < |payload| ==> payload[l].table in schema
    requires k < |payload| && payload[k].table == TemplateVersions && i < |payload[k].rows| && j < |payload[k].rows|
    requires Wants(references, payload, schema, Place(k, j), need) && need.target == TemplateVersions
             && need.other == TemplateId
    requires Same(need.id, Cell(payload[k].rows[i], Id))
    ensures IsMet(payload, need, Place(k, i))
  {
    FinalMet(payload, schema, exact, need);
    var support :| IsMet(payload, need, support);
    var rows := payload[k].rows;
    assert support.item == k && Inserts(payload, Place(k, i));
    assert Id in Entered(payload, schema, Place(k, i));
    assert Numbered(rows);
    assert support.row == i;
  }
}
