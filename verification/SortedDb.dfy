/** The key-value engine underneath the cold tier, taken as a map over byte strings with its keys in order. */
module SortedDb {
  import opened Bytes
  import opened Wrappers

  datatype Db = Db(keys: seq<bytes>, vals: map<bytes, bytes>)

  ghost predicate Ascending(keys: seq<bytes>) {
    forall i, j :: 0 <= i < j < |keys| ==> Less(keys[i], keys[j])
  }

  ghost predicate Wf(db: Db) {
    Ascending(db.keys) && forall k :: k in db.keys <==> k in db.vals
  }

  /** Seek: the position of the first key that is not below k. */
  function Seek(keys: seq<bytes>, k: bytes): (n: nat)
    ensures n <= |keys|
    ensures forall i :: 0 <= i < n ==> Less(keys[i], k)
    ensures n < |keys| ==> !Less(keys[n], k)
  {
    if keys == [] || !Less(keys[0], k) then 0 else 1 + Seek(keys[1..], k)
  }

  lemma SeekSplits(keys: seq<bytes>, k: bytes, i: nat)
    requires Ascending(keys) && i < |keys|
    ensures i < Seek(keys, k) <==> Less(keys[i], k)
  {
    var n := Seek(keys, k);
    if n < i && Less(keys[i], k) {
      LessTransitive(keys[n], keys[i], k);
    }
  }

  function Put(db: Db, k: bytes, v: bytes): Db {
    var n := Seek(db.keys, k);
    Db(if k in db.vals then db.keys else db.keys[..n] + [k] + db.keys[n..], db.vals[k := v])
  }

  function Get(db: Db, k: bytes): Option<bytes> {
    if k in db.vals then Some(db.vals[k]) else None
  }

  /** The entries outside [begin, end). */
  function Outside(vals: map<bytes, bytes>, begin: bytes, end: bytes): map<bytes, bytes> {
    map k | k in vals && (Less(k, begin) || !Less(k, end)) :: vals[k]
  }

  function DeleteRange(db: Db, begin: bytes, end: bytes): Db {
    var n, m := Seek(db.keys, begin), Seek(db.keys, end);
    Db(if n <= m then db.keys[..n] + db.keys[m..] else db.keys, Outside(db.vals, begin, end))
  }

  lemma PutWf(db: Db, k: bytes, v: bytes)
    requires Wf(db)
    ensures Wf(Put(db, k, v))
  {
    if k !in db.vals {
      var n := Seek(db.keys, k);
      forall i | 0 <= i < |db.keys| ensures if i < n then Less(db.keys[i], k) else Less(k, db.keys[i]) {
        SeekSplits(db.keys, k, i);
        LessTotal(db.keys[i], k);
      }
      InsertAscending(db.keys, n, k);
    }
  }

  lemma InsertAscending(keys: seq<bytes>, n: nat, k: bytes)
    requires Ascending(keys) && n <= |keys|
    requires forall i :: 0 <= i < |keys| ==> if i < n then Less(keys[i], k) else Less(k, keys[i])
    ensures Ascending(keys[..n] + [k] + keys[n..])
    ensures forall x :: x in keys[..n] + [k] + keys[n..] <==> x in keys || x == k
  {
    assert keys == keys[..n] + keys[n..];
  }

  lemma RemoveSlice(keys: seq<bytes>, n: nat, m: nat)
    requires Ascending(keys) && n <= m <= |keys|
    ensures Ascending(keys[..n] + keys[m..])
    ensures forall i :: 0 <= i < |keys| ==> (keys[i] in keys[..n] + keys[m..] <==> i < n || m <= i)
    ensures forall x :: x in keys[..n] + keys[m..] ==> x in keys
  {
    var rest := keys[..n] + keys[m..];
    forall i | 0 <= i < |keys| ensures keys[i] in rest <==> i < n || m <= i {
      if i < n || m <= i {
        assert keys[i] == rest[if i < n then i else n + (i - m)];
      } else if keys[i] in rest {
        var j :| 0 <= j < |rest| && rest[j] == keys[i];
        LessIrreflexive(keys[i]);
      }
    }
  }

  lemma DeleteRangeWf(db: Db, begin: bytes, end: bytes)
    requires Wf(db) && Less(begin, end)
    ensures Wf(DeleteRange(db, begin, end))
  {
    var n, m, after := Seek(db.keys, begin), Seek(db.keys, end), DeleteRange(db, begin, end);
    forall i | 0 <= i < |db.keys|
      ensures i < n <==> Less(db.keys[i], begin)
      ensures i < m <==> Less(db.keys[i], end)
    {
      SeekSplits(db.keys, begin, i);
      SeekSplits(db.keys, end, i);
    }
    if m < n {
      LessTransitive(db.keys[m], begin, end);
    }
    RemoveSlice(db.keys, n, m);
  }
}
