/** The RocksDB backend: blocks and metadata over the byte store, with list operations as iterator loops. */
module RocksBackend {
  import opened Bytes
  import opened Crc
  import opened Wrappers
  import opened Errors
  import opened BlockCodec
  import opened BlockBuffers
  import opened StorageKeys
  import opened SortedDb
  import opened ColdTier

  /** What reading a block comes to: the decoded contents, or the error code. */
  datatype ReadResult = Got(contents: Contents) | Failed(error: Error)

  ghost function ReadOutcome(vals: Store, id: bytes, block: i64, ioOk: bool): ReadResult {
    if id == [] then Failed(InvalidArg)
    else if !ioOk then Failed(Io)
    else if Key(id, block) !in vals then Failed(NotFound)
    else DecodeOutcome(vals[Key(id, block)])
  }

  ghost function DecodeOutcome(image: bytes): ReadResult {
    match Decode(image)
    case Ok(c) => Got(c)
    case Corrupt => Failed(Error.Corruption)
    case Oversize => Failed(Oversized)
  }

  /** A block that was written reads back as what was written, until its key is written again. */
  lemma WrittenIsRead(vals: Store, id: bytes, block: i64, c: Contents)
    requires id != [] && WellFormed(c) && c.shape.SerializedSize() < SIZE_LIMIT
    ensures ReadOutcome(vals[Key(id, block) := Image(c)], id, block, true) == Got(c)
  {
    DecodeImage(c, []);
    assert Image(c) + [] == Image(c);
  }

  /** A read fails as corruption exactly when the bytes under the key have a bad header, are too short for it, or fail their checksum. */
  lemma CorruptionMeans(vals: Store, id: bytes, block: i64, ioOk: bool)
    ensures ReadOutcome(vals, id, block, ioOk) == Failed(Error.Corruption) <==>
      && id != [] && ioOk && Key(id, block) in vals
      && var b := vals[Key(id, block)];
         || |b| < HEADER_SIZE + CRC_SIZE || !ParseHeader(b).Accepted()
         || (var n := ParseHeader(b).ShapeOf().SerializedSize();
             n < SIZE_LIMIT && (|b| < n || !Checked(b[..n])))
  {
    hide Extract, Crc32, Word, ParseHeader;
    if id != [] && ioOk && Key(id, block) in vals {
      var b := vals[Key(id, block)];
      if |b| >= HEADER_SIZE + CRC_SIZE && ParseHeader(b).Accepted() {
        var n := ParseHeader(b).ShapeOf().SerializedSize();
        if n < SIZE_LIMIT && n <= |b| {
          AcceptedIffChecked(b, n);
        }
      }
    }
  }

  /** A successful read fills the caller's buffers; a failed one leaves them alone. */
  twostate predicate Delivered(r: ReadResult, new rc: Error, new hdr: Option<DecodedHeader>, out: Buffers)
    reads out.Objects()
  {
    match r
    case Got(c) => rc == OK && hdr == Some(DecodedHeader(c.shape, c.tStart, c.tEnd)) && Holds(out, c)
    case Failed(e) => rc == e && hdr == None && Untouched(out)
  }

  class Backend {
    var db: Db
    var writeScratch: array<byte>
    const table: Crc32Table

    ghost predicate Valid()
      reads this, table.t
    {
      Wf(db) && Clean(db.vals) && table.Valid()
    }

    constructor ()
      ensures Valid() && db.vals == map[]
      ensures fresh(writeScratch) && fresh(table) && fresh(table.t)
    {
      table := new Crc32Table();
      db := Db([], map[]);
      writeScratch := new byte[0];
    }

    /** Serializing into the backend's scratch buffer, which only ever grows. */
    method Encode(blk: Block) returns (image: Option<bytes>)
      requires table.Valid() && Backed(blk)
      modifies this`writeScratch, writeScratch
      ensures writeScratch == old(writeScratch) || fresh(writeScratch)
      ensures image == if Serializable(blk) then Some(Image(ContentsOf(blk))) else None
    {
      var needed := blk.shape.SerializedSize();
      if needed == 0 {
        return None;
      }
      if writeScratch.Length < needed {
        writeScratch := new byte[needed];
      }
      var written := SerializeBlock(table, blk, writeScratch);
      if written == 0 || written != needed {
        return None;
      }
      return Some(writeScratch[..written]);
    }

    /** WriteBlock. ioOk is whether the engine below accepts the write. */
    method WriteBlock(id: bytes, block: i64, blk: Block, ioOk: bool) returns (rc: Error)
      requires Valid() && Backed(blk) && (id == [] || ValidId(id))
      modifies this, writeScratch
      ensures Valid() && (writeScratch == old(writeScratch) || fresh(writeScratch))
      ensures rc == if id == [] || !Serializable(blk) then InvalidArg else if ioOk then OK else Io
      ensures rc == OK ==> db.vals == old(db.vals)[Key(id, block) := Image(ContentsOf(blk))]
      ensures rc != OK ==> db == old(db)
    {
      if id == [] {
        return InvalidArg;
      }
      var image := Encode(blk);
      if image.None? {
        return InvalidArg;
      }
      if !ioOk {
        return Io;
      }
      PutKey(id, block, image.value);
      rc := OK;
    }

    method PutKey(id: bytes, block: i64, image: bytes)
      requires Wf(db) && Clean(db.vals) && ValidId(id)
      modifies this`db
      ensures Wf(db) && Clean(db.vals) && db.vals == old(db.vals)[Key(id, block) := image]
    {
      var key := Key(id, block);
      KeyParts(id, block);
      PutWf(db, key, image);
      db := Put(db, key, image);
    }

    /** ReadBlock into optional caller buffers. */
    method ReadBlock(id: bytes, block: i64, ioOk: bool, out: Buffers) returns (rc: Error, hdr: Option<DecodedHeader>)
      requires table.Valid() && out.Apart()
      requires ReadOutcome(db.vals, id, block, ioOk).Got? ==> out.Room(ReadOutcome(db.vals, id, block, ioOk).contents)
      modifies out.Objects()
      ensures Delivered(ReadOutcome(db.vals, id, block, ioOk), rc, hdr, out)
    {
      if id == [] {
        return InvalidArg, None;
      }
      if !ioOk {
        return Io, None;
      }
      var value := Get(db, Key(id, block));
      if value.None? {
        return NotFound, None;
      }
      rc, hdr := DecodeImageInto(value.value, out);
    }

    method DecodeImageInto(image: bytes, out: Buffers) returns (rc: Error, hdr: Option<DecodedHeader>)
      requires table.Valid() && out.Apart()
      requires DecodeOutcome(image).Got? ==> out.Room(DecodeOutcome(image).contents)
      modifies out.Objects()
      ensures Delivered(DecodeOutcome(image), rc, hdr, out)
    {
      rc, hdr := DecodeBlock(table, Some(image), out);
    }

    /** ListBlocks: seek to the sensor's range and walk it. */
    method ListBlocks(id: bytes, ioOk: bool) returns (rc: Error, ids: seq<i64>)
      requires Valid() && (id == [] || ValidId(id))
      ensures rc == if id == [] then InvalidArg else if ioOk then OK else Io
      ensures rc == OK ==> ListsBlocks(db.vals, id, ids)
    {
      hide ListsBlocks, Blocks, Less, Key, BlockOf, FirstSep;
      ids := [];
      if id == [] {
        return InvalidArg, ids;
      }
      if !ioOk {
        return Io, ids;
      }
      var begin, end := RangeBegin(id), RangeEnd(id);
      var pos := Seek(db.keys, begin);
      ghost var start := pos;
      while pos < |db.keys| && Less(db.keys[pos], end)
        invariant start <= pos <= |db.keys|
        invariant |ids| == pos - start
        invariant forall i :: start <= i < pos ==> db.keys[i] == Key(id, ids[i - start])
      {
        var k := db.keys[pos];
        SeekSplits(db.keys, begin, pos);
        RangeIsOneSensor(id, k);
        KeyOfParts(k);
        if |k| == |id| + 1 + 8 {
          ids := ids + [BlockOf(k)];
        }
        pos := pos + 1;
      }
      ListedBlocks(db, id, start, pos, ids);
      rc := OK;
    }

    /** ListSensors: one pass over all keys, emitting a prefix when it differs from the last one emitted. */
    method ListSensors(ioOk: bool) returns (rc: Error, ids: seq<bytes>)
      requires Valid()
      ensures rc == if ioOk then OK else Io
      ensures rc == OK ==> ListsSensors(db.vals, ids)
    {
      ids := [];
      if !ioOk {
        return Io, ids;
      }
      var lastSeen: bytes := [];
      for pos := 0 to |db.keys|
        invariant lastSeen == LastOf(ids)
        invariant Emitted(db.keys, pos, ids)
      {
        var prefix := SensorOf(db.keys[pos]);
        EmitNext(db, pos, ids);
        if prefix.Some? && prefix.value != lastSeen {
          ids := ids + [prefix.value];
          lastSeen := prefix.value;
        }
      }
      SensorsListed(db, ids);
      rc := OK;
    }

    /** DeleteSensor: one range deletion. */
    method DeleteSensor(id: bytes, ioOk: bool) returns (rc: Error)
      requires Valid() && (id == [] || ValidId(id))
      modifies this`db
      ensures Valid()
      ensures rc == if id == [] then InvalidArg else if ioOk then OK else Io
      ensures rc == OK ==> db.vals == Outside(old(db.vals), RangeBegin(id), RangeEnd(id))
      ensures rc != OK ==> db == old(db)
    {
      if id == [] {
        return InvalidArg;
      }
      if !ioOk {
        return Io;
      }
      LessCommonPrefix(id, [SEP], [SEP + 1]);
      DeleteRangeWf(db, RangeBegin(id), RangeEnd(id));
      db := DeleteRange(db, RangeBegin(id), RangeEnd(id));
      rc := OK;
    }

    method WriteMetadata(data: bytes, ioOk: bool) returns (rc: Error)
      requires Valid()
      modifies this`db
      ensures Valid()
      ensures rc == if data == [] then InvalidArg else if ioOk then OK else Io
      ensures rc == OK ==> db.vals == old(db.vals)[META_KEY := data]
      ensures rc != OK ==> db == old(db)
    {
      if data == [] {
        return InvalidArg;
      }
      if !ioOk {
        return Io;
      }
      PutWf(db, META_KEY, data);
      db := Put(db, META_KEY, data);
      rc := OK;
    }

    method ReadMetadata(ioOk: bool) returns (rc: Error, blob: bytes)
      requires Valid()
      ensures rc == if !ioOk then Io else if Meta(db.vals).Some? then OK else NotFound
      ensures blob == if rc == OK then Meta(db.vals).value else []
    {
      if !ioOk {
        return Io, [];
      }
      var value := Get(db, META_KEY);
      if value.None? {
        return NotFound, [];
      }
      return OK, value.value;
    }
  }
}
