/**
 The blob store behind the service (GridFS): a map from id to stored object
 plus a supply of fresh ids. Ids are allocated in increasing order, so every
 id already in use is below `next`.
 */
module ObjectStore {
  import opened Wrappers
  import opened Streams

  type Id = nat

  /** An immutable stored file: the client's name and declared type, verbatim, and its bytes. */
  datatype StoredObject = StoredObject(filename: string, contentType: string, bytes: seq<byte>)

  datatype Store = Store(objects: map<Id, StoredObject>, next: Id)

  /** The id supply is fresh: no stored id has been handed out yet again. */
  ghost predicate Valid(s: Store) {
    forall id :: id in s.objects ==> id < s.next
  }

  /**
   `fs.put`: reads the stream from its current position to the end and stores
   those bytes with the given metadata under a new id; nothing already stored changes.
   */
  function Put(s: Store, st: Stream, filename: string, contentType: string): (r: (Store, Id))
    requires Valid(s)
    ensures Valid(r.0)
    ensures r.1 !in s.objects && r.1 == s.next && r.0.next == s.next + 1
    ensures r.0.objects.Keys == s.objects.Keys + {r.1}
    ensures r.0.objects[r.1] == StoredObject(filename, contentType, Remaining(st))
    ensures forall id :: id in s.objects ==> r.0.objects[id] == s.objects[id]
  {
    var id := s.next;
    (Store(s.objects[id := StoredObject(filename, contentType, Remaining(st))], id + 1), id)
  }

  /** `fs.get`: the object stored under an id, if any. */
  function Lookup(s: Store, id: Id): (r: Option<StoredObject>)
    ensures r.Some? <==> id in s.objects
    ensures r.Some? ==> r.value == s.objects[id]
  {
    if id in s.objects then Some(s.objects[id]) else None
  }

  /** The stored ids below `n`, in increasing order. */
  function IdsBelow(keys: set<Id>, n: nat): (r: seq<Id>)
    ensures forall id :: id in r ==> id < n
    decreases n
  {
    if n == 0 then []
    else
      var prefix := IdsBelow(keys, n - 1);
      if n - 1 in keys then prefix + [n - 1] else prefix
  }

  /** Exactly the stored ids below `n` are listed. */
  lemma {:induction false} IdsBelowMembers(keys: set<Id>, n: nat)
    ensures forall id :: id in IdsBelow(keys, n) <==> id in keys && id < n
    decreases n
  {
    if n > 0 {
      IdsBelowMembers(keys, n - 1);
    }
  }

  /** The listing is strictly increasing, so no id is listed twice. */
  lemma {:induction false} IdsBelowSorted(keys: set<Id>, n: nat)
    ensures forall i, j :: 0 <= i < j < |IdsBelow(keys, n)| ==> IdsBelow(keys, n)[i] < IdsBelow(keys, n)[j]
    decreases n
  {
    if n > 0 {
      IdsBelowSorted(keys, n - 1);
      var prefix := IdsBelow(keys, n - 1);
      if n - 1 in keys {
        var r := prefix + [n - 1];
        assert IdsBelow(keys, n) == r;
        forall i, j | 0 <= i < j < |r|
          ensures r[i] < r[j]
        {
          if j == |prefix| {
            assert prefix[i] in prefix;
          } else {
            assert r[i] == prefix[i] && r[j] == prefix[j];
          }
        }
      }
    }
  }

  /** The stored ids below `n`, as a set. */
  ghost function KeysBelow(keys: set<Id>, n: nat): (r: set<Id>)
    ensures forall id :: id in r ==> id < n
    decreases n
  {
    if n == 0 then {} else KeysBelow(keys, n - 1) + (if n - 1 in keys then {n - 1} else {})
  }

  lemma {:induction false} KeysBelowMembers(keys: set<Id>, n: nat)
    ensures forall id :: id in KeysBelow(keys, n) <==> id in keys && id < n
    decreases n
  {
    if n > 0 {
      KeysBelowMembers(keys, n - 1);
    }
  }

  /** `IdsBelow` lists each stored id below `n` once, so its length is their number. */
  lemma {:induction false} IdsBelowCount(keys: set<Id>, n: nat)
    ensures |IdsBelow(keys, n)| == |KeysBelow(keys, n)|
    decreases n
  {
    if n > 0 {
      IdsBelowCount(keys, n - 1);
      assert n - 1 !in KeysBelow(keys, n - 1);
    }
  }

  /** `fs.find()`: every stored id exactly once, in allocation order. */
  function Find(s: Store): (r: seq<Id>)
    requires Valid(s)
    ensures forall i, j :: 0 <= i < j < |r| ==> r[i] < r[j]
    ensures forall id :: id in r <==> id in s.objects
    ensures |r| == |s.objects|
  {
    var r := IdsBelow(s.objects.Keys, s.next);
    IdsBelowMembers(s.objects.Keys, s.next);
    IdsBelowSorted(s.objects.Keys, s.next);
    IdsBelowCount(s.objects.Keys, s.next);
    KeysBelowMembers(s.objects.Keys, s.next);
    assert KeysBelow(s.objects.Keys, s.next) == s.objects.Keys;
    r
  }
}
