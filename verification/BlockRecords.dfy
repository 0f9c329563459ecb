/** A block as a list of records: the columns an eviction fills and the rows a reader cuts back out. */
module BlockRecords {
  import opened Bytes
  import opened Rows
  import opened Wrappers
  import opened BlockCodec
  import opened SensorRing

  predicate Storable(sch: Schema) {
    sch.dim > 0 && sch.dtype != Other
  }

  predicate AllConform(sch: Schema, rs: seq<Record>) {
    forall i :: 0 <= i < |rs| ==> sch.Conforms(rs[i])
  }

  // ---- Columns ----

  function Stamps(rs: seq<Record>): (ts: seq<i64>)
    ensures |ts| == |rs|
  {
    seq(|rs|, i requires 0 <= i < |rs| => rs[i].ts)
  }

  function Vectors(rs: seq<Record>): (vs: seq<bytes>)
    ensures |vs| == |rs|
  {
    seq(|rs|, i requires 0 <= i < |rs| => rs[i].vec)
  }

  function Scales(rs: seq<Record>): (ws: seq<u32>)
    ensures |ws| == |rs|
  {
    seq(|rs|, i requires 0 <= i < |rs| => rs[i].scale)
  }

  function Payloads(rs: seq<Record>): (ps: seq<bytes>)
    ensures |ps| == |rs|
  {
    seq(|rs|, i requires 0 <= i < |rs| => rs[i].payload)
  }

  function ShapeFor(n: u32, sch: Schema): Shape {
    Shape(n, sch.dim, sch.payloadSize, sch.dtype)
  }

  function ContentsFor(rs: seq<Record>, sch: Schema, tStart: i64, tEnd: i64): Contents
    requires |rs| < 0x1_0000_0000
  {
    Contents(ShapeFor(|rs|, sch), tStart, tEnd,
             Stamps(rs), Flatten(Vectors(rs)), if sch.dtype == Int8 then Scales(rs) else [], Flatten(Payloads(rs)))
  }

  lemma ContentsForWellFormed(rs: seq<Record>, sch: Schema, tStart: i64, tEnd: i64)
    requires |rs| < 0x1_0000_0000 && Storable(sch) && AllConform(sch, rs)
    ensures WellFormed(ContentsFor(rs, sch, tStart, tEnd))
  {
    FlattenLength(Vectors(rs), sch.RowBytes());
    FlattenLength(Payloads(rs), sch.payloadSize);
  }

  // ---- Rows ----

  function SchemaOf(c: Contents): Schema {
    Schema(c.shape.dim, c.shape.payloadSize, c.shape.dtype)
  }

  function RecordsOf(c: Contents): (rs: seq<Record>)
    requires WellFormed(c)
    ensures |rs| == c.shape.count
  {
    var vs := Chunks(c.vectors, SchemaOf(c).RowBytes(), c.shape.count);
    var ps := Chunks(c.payloads, c.shape.payloadSize, c.shape.count);
    seq(c.shape.count, i requires 0 <= i < c.shape.count =>
      Record(c.timestamps[i], vs[i], if c.shape.dtype == Int8 then c.scales[i] else 0, ps[i]))
  }

  lemma RecordsConform(c: Contents)
    requires WellFormed(c)
    ensures AllConform(SchemaOf(c), RecordsOf(c))
  {
  }

  /** Reading the rows back out of a block gives the records it was filled with. */
  lemma RecordsRoundTrip(rs: seq<Record>, sch: Schema, tStart: i64, tEnd: i64)
    requires |rs| < 0x1_0000_0000 && Storable(sch) && AllConform(sch, rs)
    ensures WellFormed(ContentsFor(rs, sch, tStart, tEnd))
    ensures RecordsOf(ContentsFor(rs, sch, tStart, tEnd)) == rs
  {
    var c := ContentsFor(rs, sch, tStart, tEnd);
    ContentsForWellFormed(rs, sch, tStart, tEnd);
    ChunksOfAll(Vectors(rs), sch.RowBytes());
    ChunksOfAll(Payloads(rs), sch.payloadSize);
    forall i | 0 <= i < |rs| ensures RecordsOf(c)[i] == rs[i] {
      assert Vectors(rs)[i] == rs[i].vec && Payloads(rs)[i] == rs[i].payload;
    }
  }

  /** What a store holds for a block, as records. */
  function Restore(image: bytes): Option<seq<Record>> {
    match Decode(image)
    case Ok(c) => AcceptedWellFormed(image); Some(RecordsOf(c))
    case _ => None
  }

  lemma AcceptedWellFormed(image: bytes)
    requires Decode(image).Ok?
    ensures WellFormed(Decode(image).contents)
  {
  }

  /** Decode after encode, as records: nothing but the evicted rows comes back, whatever t_start and t_end say. */
  lemma StoredRecords(rs: seq<Record>, sch: Schema, tStart: i64, tEnd: i64)
    requires |rs| < 0x1_0000_0000 && Storable(sch) && AllConform(sch, rs)
    requires ContentsFor(rs, sch, tStart, tEnd).shape.SerializedSize() < SIZE_LIMIT
    ensures Restore(Image(ContentsFor(rs, sch, tStart, tEnd))) == Some(rs)
  {
    var c := ContentsFor(rs, sch, tStart, tEnd);
    RecordsRoundTrip(rs, sch, tStart, tEnd);
    DecodeImage(c, []);
    assert Image(c) + [] == Image(c);
  }
}
