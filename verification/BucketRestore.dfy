/** `S3RecoveryAdapter.ensure_empty_and_restore` and `remove`, on a bucket that others may put objects into at any
    time. Every call to the provider may fail; a put that raises may have stored
    the object all the same. */
module BucketRestore {
  import opened Basics

  type Key = string

  /** A manifest member; only object members have a key. */
  datatype Member = ObjectMember(key: Key, size: nat, digest: string) | OtherMember

  datatype Result = Placed(keys: set<Key>) | Failed

  function ObjectKeys(members: seq<Member>): set<Key> {
    set member | member in members && member.ObjectMember? :: member.key
  }

  function KeySet(keys: seq<Key>): set<Key> {
    set key | key in keys
  }

  lemma ObjectKeysNext(members: seq<Member>, i: nat)
    requires i < |members|
    ensures ObjectKeys(members[..i + 1]) == ObjectKeys(members[..i]) + if members[i].ObjectMember? then {members[i].key}
            else {}
  {
    assert members[..i + 1] == members[..i] + [members[i]];
  }

  lemma KeySetNext(keys: seq<Key>, key: Key)
    ensures KeySet(keys + [key]) == KeySet(keys) + {key}
  {
  }

  class Bucket {
    const hash: Bytes -> string
    const validKey: Key -> bool
    var objects: map<Key, Bytes>
    /** What is there and was not put by this restore. */
    ghost var foreign: map<Key, Bytes>
    /** Keys whose put raised after it had stored the object. */
    ghost var lost: set<Key>

    ghost predicate Valid()
      reads this
    {
      && foreign.Keys <= objects.Keys && (forall key :: key in foreign ==> objects[key] == foreign[key])
      && lost <= Ours()
    }

    ghost function Ours(): set<Key>
      reads this
    {
      objects.Keys - foreign.Keys
    }

    /** The object of a member is there and matches its size and digest. */
    predicate Matches(member: Member)
      reads this
    {
      member.ObjectMember? ==>
        member.key in objects && |objects[member.key]| == member.size && hash(objects[member.key]) == member.digest
    }

    constructor (found: map<Key, Bytes>, hash: Bytes -> string, validKey: Key -> bool)
      ensures Valid() && objects == found && foreign == found && lost == {}
      ensures this.hash == hash && this.validKey == validKey
    {
      this.hash, this.validKey := hash, validKey;
      objects, foreign, lost := found, found, {};
    }

    /** Others put new objects into the bucket. */
    method Others()
      requires Valid()
      modifies this`objects, this`foreign
      ensures Valid() && Ours() == old(Ours()) && old(foreign.Keys) <= foreign.Keys
      ensures forall key :: key in old(objects) ==> key in objects && objects[key] == old(objects)[key]
    {
      var key: Key, content: Bytes := *, *;
      if key !in objects {
        objects, foreign := objects[key := content], foreign[key := content];
      }
    }

    /** `put_object` with `IfNoneMatch="*"`. */
    method Put(key: Key, content: Bytes) returns (ok: bool)
      requires Valid()
      modifies this
      ensures Valid() && foreign == old(foreign)
      ensures ok ==> key !in old(objects) && objects == old(objects)[key := content] && lost == old(lost)
      ensures !ok ==>
                || (objects == old(objects) && lost == old(lost))
                || (key !in old(objects) && objects == old(objects)[key := content] && lost == old(lost) + {key})
    {
      var stores: bool := *;
      ok := *;
      if key in objects || !stores {
        return false;
      }
      objects := objects[key := content];
      if !ok {
        lost := lost + {key};
      }
    }

    /** `delete_object` of a key this restore placed. */
    method Remove(key: Key) returns (ok: bool)
      requires Valid() && key in Ours() && key !in lost
      modifies this`objects
      ensures Valid() && objects == if ok then old(objects) - {key} else old(objects)
      ensures Ours() == if ok then old(Ours()) - {key} else old(Ours())
    {
      ok := *;
      if ok {
        objects := objects - {key};
      }
    }

    method RemoveAmidOthers(key: Key) returns (ok: bool)
      requires Valid() && key in Ours() && key !in lost
      modifies this`objects, this`foreign
      ensures Valid() && old(foreign.Keys) <= foreign.Keys
      ensures Ours() == if ok then old(Ours()) - {key} else old(Ours())
    {
      Others();
      ok := Remove(key);
    }

    /** The cleanup of a failed restore: the last object first, failures ignored. */
    method RemovePlaced(placed: seq<Key>) returns (all: bool)
      requires Valid() && Ours() == KeySet(placed) + lost && KeySet(placed) !! lost
      requires forall i, j :: 0 <= i < j < |placed| ==> placed[i] != placed[j]
      modifies this`objects, this`foreign
      ensures Valid() && old(foreign.Keys) <= foreign.Keys
      ensures lost <= Ours() <= lost + KeySet(placed)
      ensures all ==> Ours() == lost
    {
      var left := |placed|;
      all := true;
      while 0 < left
        invariant 0 <= left <= |placed| && Valid() && old(foreign.Keys) <= foreign.Keys
        invariant lost + KeySet(placed[..left]) <= Ours() <= lost + KeySet(placed)
        invariant all ==> Ours() == lost + KeySet(placed[..left])
      {
        left := left - 1;
        assert placed[..left + 1] == placed[..left] + [placed[left]];
        KeySetNext(placed[..left], placed[left]);
        var ok := RemoveAmidOthers(placed[left]);
        all := all && ok;
      }
    }

    /** Places one member and reads it back. */
    method Place(member: Member, files: map<Key, Bytes>) returns (stored: bool, ok: bool)
      requires Valid() && member.ObjectMember?
      modifies this
      ensures Valid() && old(foreign.Keys) <= foreign.Keys
      ensures forall key :: key in old(objects) ==> key in objects && objects[key] == old(objects)[key]
      ensures stored ==> member.key !in old(objects) && Ours() == old(Ours()) + {member.key} && lost == old(lost)
      ensures !stored ==> !ok && Ours() - lost == old(Ours() - lost) && old(lost) <= lost <= old(lost) + {member.key}
      ensures ok ==> Matches(member) && member.key in files && objects[member.key] == files[member.key]
    {
      var timely: bool := *;
      if !timely || !validKey(member.key) || member.key !in files {
        return false, false;
      }
      stored := Put(member.key, files[member.key]);
      if !stored {
        return false, false;
      }
      Others();
      var answers: bool := *;
      ok := answers && |objects[member.key]| == member.size && hash(objects[member.key]) == member.digest;
    }

    /** Either all object members are in the bucket, alone and with their sizes
        and digests, or what this restore placed is taken away again: all of it
        when no deletion fails, except objects whose put raised after storing.
        Objects of others are never touched. */
    method EnsureEmptyAndRestore(members: seq<Member>, files: map<Key, Bytes>, isolated: bool)
      returns (result: Result, clean: bool)
      requires Valid() && Ours() == {} && lost == {}
      modifies this
      ensures Valid() && old(foreign.Keys) <= foreign.Keys
      ensures result.Placed? ==> isolated && old(objects) == map[] && foreign == map[] && lost == {}
      ensures result.Placed? ==> result.keys == objects.Keys == ObjectKeys(members)
      ensures result.Placed? ==> forall member :: member in members ==> Matches(member)
      ensures result.Failed? ==> lost <= Ours() <= ObjectKeys(members)
      ensures result.Failed? && clean ==> Ours() == lost
    {
      clean := true;
      if !isolated || objects != map[] {
        return Failed, true;
      }
      var placed: seq<Key> := [];
      var ok := true;
      var i := 0;
      while i < |members| && ok
        invariant i <= |members| && Valid() && old(foreign.Keys) <= foreign.Keys
        invariant Ours() == KeySet(placed) + lost && KeySet(placed) !! lost && Ours() <= ObjectKeys(members)
        invariant forall a, b :: 0 <= a < b < |placed| ==> placed[a] != placed[b]
        invariant ok ==> lost == {} && KeySet(placed) == ObjectKeys(members[..i])
        invariant ok ==> forall member :: member in members[..i] ==> Matches(member)
        decreases |members| - i, if ok then 1 else 0
      {
        ObjectKeysNext(members, i);
        if members[i].ObjectMember? {
          Others();
          assert members[i].key in ObjectKeys(members);
          var stored;
          stored, ok := Place(members[i], files);
          if stored {
            KeySetNext(placed, members[i].key);
            placed := placed + [members[i].key];
          }
        }
        if ok {
          assert members[..i + 1] == members[..i] + [members[i]];
          i := i + 1;
        }
      }
      if ok {
        assert members[..i] == members;
        Others();
        var lists: bool := *;
        if lists && objects.Keys == KeySet(placed) {
          return Placed(objects.Keys), true;
        }
      }
      clean := RemovePlaced(placed);
      result := Failed;
    }

    /** `remove`: stops at the first deletion that fails. */
    method RemoveAll(keys: set<Key>) returns (ok: bool)
      requires Valid() && Ours() == keys && lost == {}
      modifies this`objects, this`foreign
      ensures Valid() && old(foreign.Keys) <= foreign.Keys && Ours() <= keys
      ensures ok ==> Ours() == {}
    {
      var todo := keys;
      while todo != {}
        invariant Valid() && old(foreign.Keys) <= foreign.Keys
        invariant Ours() == todo && todo <= keys && lost == {}
        decreases |todo|
      {
        var key :| key in todo;
        ok := RemoveAmidOthers(key);
        if !ok {
          return false;
        }
        todo := todo - {key};
      }
      ok := true;
    }
  }
}
