/** What the byte store means: for each sensor a map from block ids to block images, and one metadata slot. */
module ColdTier {
  import opened Bytes
  import opened Wrappers
  import opened StorageKeys
  import opened SortedDb

  type Store = map<bytes, bytes>

  /** Only block keys and the metadata key are ever written. */
  ghost predicate Clean(vals: Store) {
    forall k :: k in vals ==> k == META_KEY || IsBlockKey(k)
  }

  ghost function Blocks(vals: Store, id: bytes): map<int, bytes> {
    map b: int | -0x8000_0000_0000_0000 <= b < 0x8000_0000_0000_0000 && Key(id, b) in vals :: vals[Key(id, b)]
  }

  ghost function Meta(vals: Store): Option<bytes> {
    if META_KEY in vals then Some(vals[META_KEY]) else None
  }

  /** Two stores that hold the same blocks for a sensor. */
  lemma BlocksAgree(vals: Store, vals': Store, id: bytes)
    requires forall b: i64 :: Key(id, b) in vals <==> Key(id, b) in vals'
    requires forall b: i64 :: Key(id, b) in vals ==> vals'[Key(id, b)] == vals[Key(id, b)]
    ensures Blocks(vals', id) == Blocks(vals, id)
  {
  }

  lemma PutSameSensor(vals: Store, id: bytes, block: i64, image: bytes)
    requires ValidId(id)
    ensures Blocks(vals[Key(id, block) := image], id) == Blocks(vals, id)[block := image]
  {
    var key := Key(id, block);
    forall b: i64 ensures Key(id, b) == key <==> b == block {
      KeyParts(id, b);
      KeyParts(id, block);
    }
  }

  lemma PutOtherSensor(vals: Store, id: bytes, block: i64, image: bytes, other: bytes)
    requires ValidId(id) && ValidId(other) && other != id
    ensures Blocks(vals[Key(id, block) := image], other) == Blocks(vals, other)
  {
    var key := Key(id, block);
    forall b: i64 ensures Key(other, b) != key {
      KeyParts(other, b);
      KeyParts(id, block);
    }
    BlocksAgree(vals, vals[key := image], other);
  }

  /** Writing a block is a map update in one sensor and nothing anywhere else. */
  lemma PutRefines(vals: Store, id: bytes, block: i64, image: bytes, other: bytes)
    requires Clean(vals) && ValidId(id) && ValidId(other)
    ensures var vals' := vals[Key(id, block) := image];
      && Clean(vals') && Meta(vals') == Meta(vals)
      && Blocks(vals', id) == Blocks(vals, id)[block := image]
      && (other != id ==> Blocks(vals', other) == Blocks(vals, other))
  {
    KeyParts(id, block);
    PutSameSensor(vals, id, block, image);
    if other != id {
      PutOtherSensor(vals, id, block, image, other);
    }
  }

  /** Deleting a sensor's range empties that sensor and touches nothing else. */
  lemma DeleteRefines(vals: Store, id: bytes, other: bytes)
    requires Clean(vals) && ValidId(id) && ValidId(other)
    ensures var vals' := Outside(vals, RangeBegin(id), RangeEnd(id));
      && Clean(vals') && Meta(vals') == Meta(vals)
      && Blocks(vals', id) == map[]
      && (other != id ==> Blocks(vals', other) == Blocks(vals, other))
  {
    var vals' := Outside(vals, RangeBegin(id), RangeEnd(id));
    RangeIsOneSensor(id, META_KEY);
    MetaHasNoSensor();
    forall b: i64 ensures Key(id, b) !in vals' {
      KeyParts(id, b);
      RangeIsOneSensor(id, Key(id, b));
    }
    if other != id {
      forall b: i64 ensures Key(other, b) in vals <==> Key(other, b) in vals' {
        KeyParts(other, b);
        RangeIsOneSensor(id, Key(other, b));
      }
      BlocksAgree(vals, vals', other);
    }
  }

  lemma MetaRefines(vals: Store, blob: bytes, id: bytes)
    requires Clean(vals) && ValidId(id)
    ensures var vals' := vals[META_KEY := blob];
      Clean(vals') && Meta(vals') == Some(blob) && Blocks(vals', id) == Blocks(vals, id)
  {
    forall b: i64 ensures Key(id, b) != META_KEY {
      KeyParts(id, b);
    }
    BlocksAgree(vals, vals[META_KEY := blob], id);
  }

  // ---- What the list operations return ----

  /** The blocks of one sensor, each once, in the order of their keys. */
  ghost predicate ListsBlocks(vals: Store, id: bytes, ids: seq<i64>) {
    && (forall i, j :: 0 <= i < j < |ids| ==> Unsigned(ids[i]) < Unsigned(ids[j]))
    && (forall b: i64 :: b in ids <==> b in Blocks(vals, id))
  }

  /** The sensors that have blocks, each once, in ascending order. */
  ghost predicate ListsSensors(vals: Store, ids: seq<bytes>) {
    && Ascending(ids)
    && (forall s :: s in ids <==> ValidId(s) && Blocks(vals, s) != map[])
  }

  lemma AllInRangeSeen(db: Db, id: bytes, pos: nat, k: bytes)
    requires Wf(db) && k in db.keys && Within(k, RangeBegin(id), RangeEnd(id))
    requires pos <= |db.keys| && (pos < |db.keys| ==> !Less(db.keys[pos], RangeEnd(id)))
    ensures exists i :: Seek(db.keys, RangeBegin(id)) <= i < pos && db.keys[i] == k
  {
    var i :| 0 <= i < |db.keys| && db.keys[i] == k;
    SeekSplits(db.keys, RangeBegin(id), i);
    if pos < i {
      LessTransitive(db.keys[pos], k, RangeEnd(id));
    }
  }

  lemma ListedBlocks(db: Db, id: bytes, start: nat, pos: nat, ids: seq<i64>)
    requires Wf(db) && Clean(db.vals) && ValidId(id)
    requires start == Seek(db.keys, RangeBegin(id)) <= pos <= |db.keys|
    requires pos < |db.keys| ==> !Less(db.keys[pos], RangeEnd(id))
    requires |ids| == pos - start && forall i :: start <= i < pos ==> db.keys[i] == Key(id, ids[i - start])
    ensures ListsBlocks(db.vals, id, ids)
  {
    forall i, j | 0 <= i < j < |ids| ensures Unsigned(ids[i]) < Unsigned(ids[j]) {
      assert db.keys[start + i] == Key(id, ids[i]) && db.keys[start + j] == Key(id, ids[j]);
      SameSensorOrder(id, ids[i], ids[j]);
    }
    forall b: i64 ensures b in ids <==> b in Blocks(db.vals, id) {
      KeyParts(id, b);
      RangeIsOneSensor(id, Key(id, b));
      if b in ids {
        var i :| 0 <= i < |ids| && ids[i] == b;
        assert db.keys[start + i] == Key(id, b);
      }
      if Key(id, b) in db.vals {
        AllInRangeSeen(db, id, pos, Key(id, b));
        var i :| start <= i < pos && db.keys[i] == Key(id, b);
        KeyParts(id, ids[i - start]);
      }
    }
  }

  lemma SensorsFollowKeys(k: bytes, k': bytes)
    requires IsBlockKey(k) && IsBlockKey(k') && Less(k, k') && SensorOf(k) != SensorOf(k')
    ensures Less(SensorOf(k).value, SensorOf(k').value)
  {
    KeyOfParts(k);
    KeyOfParts(k');
    AcrossSensorsOrder(SensorOf(k).value, BlockOf(k), SensorOf(k').value, BlockOf(k'));
  }

  /** A prefix other than the last one emitted is above every one emitted: keys of a sensor are contiguous. */
  lemma NextSensor(keys: seq<bytes>, pos: nat, ids: seq<bytes>, next: bytes)
    requires Ascending(keys) && Ascending(ids) && pos < |keys|
    requires forall i :: 0 <= i <= pos ==> keys[i] == META_KEY || IsBlockKey(keys[i])
    requires Seen(keys, pos, ids)
    requires SensorOf(keys[pos]) == Some(next)
    requires ids != [] ==> ids[|ids| - 1] != next
    ensures ValidId(next) && Ascending(ids + [next])
  {
    hide Less, Key, FirstSep;
    MetaHasNoSensor();
    if ids != [] {
      var last := ids[|ids| - 1];
      var i :| 0 <= i < pos && SensorOf(keys[i]) == Some(last);
      SensorsFollowKeys(keys[i], keys[pos]);
      forall j | 0 <= j < |ids| ensures Less(ids[j], next) {
        if j < |ids| - 1 {
          LessTransitive(ids[j], last, next);
        }
      }
    }
  }

  ghost predicate Seen(keys: seq<bytes>, pos: nat, ids: seq<bytes>)
    requires pos <= |keys|
  {
    forall s :: s in ids <==> exists i :: 0 <= i < pos && SensorOf(keys[i]) == Some(s)
  }

  lemma SeenNext(keys: seq<bytes>, pos: nat, ids: seq<bytes>, ids': seq<bytes>)
    requires pos < |keys| && Seen(keys, pos, ids)
    requires SensorOf(keys[pos]).None? ==> ids' == ids
    requires SensorOf(keys[pos]).Some? ==> ids' == ids + [SensorOf(keys[pos]).value] || (ids' == ids && SensorOf(keys[pos]).value in ids)
    ensures Seen(keys, pos + 1, ids')
  {
    forall s ensures s in ids' <==> exists i :: 0 <= i < pos + 1 && SensorOf(keys[i]) == Some(s) {
      if s in ids' && s !in ids {
        assert SensorOf(keys[pos]) == Some(s);
      }
    }
  }

  lemma MetaHasNoSensor()
    ensures SensorOf(META_KEY) == None
  {
    assert FirstSep(META_KEY[1..]) == 4;
  }

  function LastOf(ids: seq<bytes>): bytes {
    if ids == [] then [] else ids[|ids| - 1]
  }

  /** The loop of ListSensors has emitted exactly the sensors of the first pos keys. */
  ghost predicate Emitted(keys: seq<bytes>, pos: nat, ids: seq<bytes>)
    requires pos <= |keys|
  {
    Ascending(ids) && Seen(keys, pos, ids) && (ids != [] ==> LastOf(ids) != [])
  }

  lemma EmitNext(db: Db, pos: nat, ids: seq<bytes>)
    requires Wf(db) && Clean(db.vals) && pos < |db.keys| && Emitted(db.keys, pos, ids)
    ensures var prefix := SensorOf(db.keys[pos]);
      Emitted(db.keys, pos + 1, if prefix.Some? && prefix.value != LastOf(ids) then ids + [prefix.value] else ids)
  {
    var prefix := SensorOf(db.keys[pos]);
    MetaHasNoSensor();
    assert db.keys[pos] in db.vals;
    if prefix.None? {
      SeenNext(db.keys, pos, ids, ids);
    } else if prefix.value != LastOf(ids) {
      NextSensor(db.keys, pos, ids, prefix.value);
      SeenNext(db.keys, pos, ids, ids + [prefix.value]);
    } else {
      assert ids != [];
      assert LastOf(ids) in ids;
      SeenNext(db.keys, pos, ids, ids);
    }
  }

  lemma SensorsListed(db: Db, ids: seq<bytes>)
    requires Wf(db) && Clean(db.vals) && Emitted(db.keys, |db.keys|, ids)
    ensures ListsSensors(db.vals, ids)
  {
    hide Ascending, Less, Key;
    forall s ensures s in ids <==> ValidId(s) && Blocks(db.vals, s) != map[] {
      MetaHasNoSensor();
      if s in ids {
        var i :| 0 <= i < |db.keys| && SensorOf(db.keys[i]) == Some(s);
        KeyOfParts(db.keys[i]);
        assert BlockOf(db.keys[i]) in Blocks(db.vals, s);
      }
      if ValidId(s) && Blocks(db.vals, s) != map[] {
        var b: int :| b in Blocks(db.vals, s);
        KeyParts(s, b);
        assert Key(s, b) in db.keys;
      }
    }
  }
}
