/** Rows of equal width laid end to end in one buffer. */
module Rows {
  import opened Bytes

  function Flatten(rows: seq<bytes>): bytes {
    if rows == [] then [] else Flatten(rows[..|rows| - 1]) + rows[|rows| - 1]
  }

  predicate Uniform(rows: seq<bytes>, width: nat) {
    forall i :: 0 <= i < |rows| ==> |rows[i]| == width
  }

  lemma RowBound(i: nat, n: nat, width: nat)
    requires i < n
    ensures 0 <= i * width && i * width + width == (i + 1) * width <= n * width
  {
    var gap := n - (i + 1);
    assert gap * width >= 0;
    assert n * width == (gap + (i + 1)) * width == gap * width + (i + 1) * width;
  }

  /** The first n rows of a buffer. */
  function Chunks(b: bytes, width: nat, n: nat): (rows: seq<bytes>)
    requires n * width <= |b|
    ensures |rows| == n && Uniform(rows, width)
    decreases n
  {
    if n == 0 then [] else
      RowBound(n - 1, n, width);
      Chunks(b, width, n - 1) + [b[(n - 1) * width..n * width]]
  }

  lemma {:induction false} ChunkAt(b: bytes, width: nat, n: nat, i: nat)
    requires i < n && n * width <= |b|
    ensures 0 <= i * width <= (i + 1) * width <= |b|
    ensures Chunks(b, width, n)[i] == b[i * width..(i + 1) * width]
    decreases n
  {
    RowBound(i, n, width);
    if i < n - 1 {
      RowBound(n - 1, n, width);
      ChunkAt(b, width, n - 1, i);
    }
  }

  lemma {:induction false} FlattenLength(rows: seq<bytes>, width: nat)
    requires Uniform(rows, width)
    ensures |Flatten(rows)| == |rows| * width
  {
    if rows == [] {
    } else {
      RowBound(|rows| - 1, |rows|, width);
      FlattenLength(rows[..|rows| - 1], width);
    }
  }

  /** Reading the rows back out of a buffer that starts with them. */
  lemma {:induction false} ChunksOfFlatten(rows: seq<bytes>, width: nat, rest: bytes)
    requires Uniform(rows, width)
    ensures |rows| * width <= |Flatten(rows) + rest|
    ensures Chunks(Flatten(rows) + rest, width, |rows|) == rows
  {
    FlattenLength(rows, width);
    if rows == [] {
    } else {
      var n := |rows| - 1;
      var init := rows[..n];
      RowBound(n, |rows|, width);
      FlattenLength(init, width);
      assert Flatten(rows) + rest == Flatten(init) + (rows[n] + rest);
      ChunksOfFlatten(init, width, rows[n] + rest);
      assert (Flatten(rows) + rest)[n * width..|rows| * width] == rows[n];
    }
  }

  lemma {:induction false} FlattenOfChunks(b: bytes, width: nat, n: nat)
    requires n * width <= |b|
    ensures Flatten(Chunks(b, width, n)) == b[..n * width]
    decreases n
  {
    if n == 0 {
    } else {
      RowBound(n - 1, n, width);
      FlattenOfChunks(b, width, n - 1);
      FlattenLast(Chunks(b, width, n - 1), b[(n - 1) * width..n * width]);
      JoinRows(b, (n - 1) * width, n * width);
    }
  }

  lemma FlattenLast(rows: seq<bytes>, row: bytes)
    ensures Flatten(rows + [row]) == Flatten(rows) + row
  {
    assert (rows + [row])[..|rows|] == rows;
  }

  lemma JoinRows(b: bytes, i: nat, j: nat)
    requires i <= j <= |b|
    ensures b[..i] + b[i..j] == b[..j]
  {
  }

  lemma ChunksOfAll(rows: seq<bytes>, width: nat)
    requires Uniform(rows, width)
    ensures |rows| * width == |Flatten(rows)| && Chunks(Flatten(rows), width, |rows|) == rows
  {
    FlattenLength(rows, width);
    ChunksOfFlatten(rows, width, []);
    assert Flatten(rows) + [] == Flatten(rows);
  }
}
