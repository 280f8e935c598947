/** `RecoveryService.restore` of a distributed set: the objects, then the database
    that refers to them, and the compensation when the database fails. */
module DistributedRestore {
  import opened Basics
  import opened Records
  import opened Reload
  import opened ReloadOrder
  import opened References
  import opened PostgreSQL
  import DatabaseRestore
  import opened BucketRestore

  /** A verified recovery set: its members with their files, and the payload of
      the database member. */
  datatype RecoverySet = RecoverySet(members: seq<Member>, files: map<Key, Bytes>, payload: seq<TablePayload>)

  /** What the target knows: the schema of the set's revision and of the head, the
      migration between them, and how a reference is written as a key. */
  datatype Target = Target(
    schema: map<Table, seq<Column>>, exact: bool, shape: map<Table, set<Column>>, migrate: Tables -> Tables,
      text: ObjectName -> Key)
  {
    predicate Valid() {
      DatabaseRestore.HasIds(schema) && ShapeHasReferences(shape)
    }
  }

  /** An object member of the set is in the bucket under the key, with its digest. */
  predicate Stored(bucket: Bucket, members: seq<Member>, key: Key)
    reads bucket
  {
    exists member :: member in members && member.ObjectMember? && member.key == key && bucket.Matches(member)
  }

  lemma MemberStored(bucket: Bucket, members: seq<Member>, key: Key)
    requires key in ObjectKeys(members) && forall member :: member in members ==> bucket.Matches(member)
    ensures Stored(bucket, members, key)
  {
  }

  /** Success: every reference of the restored database is a member that is in the
      bucket with its digest, and the whole bucket was listed as exactly the
      members. Failure: the database is as it was and, when no deletion fails,
      nothing of this restore is left in the bucket but objects whose put raised
      after storing. */
  method Restore(bucket: Bucket, database: Database, source: RecoverySet, target: Target, isolated: bool,
                 supported: bool)
    returns (ok: bool, clean: bool, ghost listed: map<Key, Bytes>)
    requires bucket.Valid() && bucket.Ours() == {} && bucket.lost == {}
    requires target.Valid() && UniqueTables(source.payload) && database.tables == Loaded([], target.schema, 0)
    modifies bucket, database
    ensures bucket.Valid() && old(bucket.foreign.Keys) <= bucket.foreign.Keys
    ensures !supported ==> !ok && bucket.objects == old(bucket.objects)
    ensures ok ==>
              old(bucket.objects) == map[] && listed.Keys == ObjectKeys(source.members) && bucket.Ours() == listed.Keys
    ensures ok ==> forall key :: key in listed ==> key in bucket.objects && bucket.objects[key] == listed[key]
    ensures ok ==> forall member :: member in source.members ==> bucket.Matches(member)
    ensures ok ==> Reloadable(database.references, target.schema, source.payload, target.exact)
    ensures ok ==> database.tables == if target.exact then DatabaseRestore.Restored(source.payload, target.schema)
                                      else target.migrate(DatabaseRestore.Restored(source.payload, target.schema))
    ensures ok ==> forall name :: name in ReferencedKeys(DatabaseRestore.Listed(source.payload)) ==>
              Stored(bucket, source.members, target.text(name))
    ensures ok && (target.exact || DatabaseRestore.IdsUnique(database.tables)) ==>
              forall name :: name in ReferencedKeys(database.tables) ==>
                Stored(bucket, source.members, target.text(name))
    ensures !ok ==>
              database.tables == old(database.tables) && bucket.lost <= bucket.Ours() <= ObjectKeys(source.members)
    ensures !ok && clean ==> bucket.Ours() == bucket.lost
  {
    listed := map[];
    if !supported {
      return false, true, map[];
    }
    var result;
    result, clean := bucket.EnsureEmptyAndRestore(source.members, source.files, isolated);
    if result.Failed? {
      return false, clean, map[];
    }
    listed := bucket.objects;
    bucket.Others();
    var present := (name: ObjectName) => target.text(name) in result.keys;
    var valid := (name: ObjectName) => bucket.validKey(target.text(name));
    var verdict := DatabaseRestore.Restore(
      database, source.payload, target.schema, target.exact, present, valid, target.shape, target.migrate);
    bucket.Others();
    if !verdict.Complete? {
      clean := bucket.RemoveAll(result.keys);
      return false, clean, map[];
    }
    forall key | key in result.keys {
      MemberStored(bucket, source.members, key);
    }
    ok := true;
  }
}
