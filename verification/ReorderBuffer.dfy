/** The reorder buffer (Polygon/lib/ngtcp2_rob.c): stream data received out of order is kept
    in fixed-size chunks next to the list of offsets that are still missing. */
module ReorderBuffer {
  import opened Basics
  import opened Ranges
  import opened GapTracker

  datatype Chunk = Chunk(offset: nat, bytes: seq<byte>)

  predicate At(c: Chunk, x: int, b: byte) {
    c.offset <= x < c.offset + |c.bytes| && c.bytes[x - c.offset] == b
  }

  /** Some chunk holds byte `b` at stream offset `x`. */
  ghost predicate Stored(data: seq<Chunk>, x: int, b: byte) {
    exists i :: 0 <= i < |data| && At(data[i], x, b)
  }

  /** Chunks are aligned, of the same size, ordered and disjoint. */
  ghost predicate Chunked(data: seq<Chunk>, size: nat) {
    && (forall i :: 0 <= i < |data| ==> |data[i].bytes| == size && Aligned(data[i].offset, size))
    && (forall i, j :: 0 <= i < j < |data| ==> data[i].offset + size <= data[j].offset)
  }

  ghost predicate Aligned(offset: nat, size: nat) {
    exists k: nat :: Times(k, size) == offset
  }

  ghost function Times(k: nat, size: nat): nat {
    k * size
  }

  /** No chunk lies entirely below `lo`. */
  ghost predicate Beyond(data: seq<Chunk>, lo: int) {
    forall i :: 0 <= i < |data| ==> lo < data[i].offset + |data[i].bytes|
  }

  /** Going from `d0` to `d1` changes at most the bytes in [lo, hi). */
  ghost predicate Keeps(d0: seq<Chunk>, d1: seq<Chunk>, lo: int, hi: int) {
    forall x: int, b: byte :: Stored(d0, x, b) && !(lo <= x < hi) ==> Stored(d1, x, b)
  }

  /** The first `n` bytes of `src` are stored from `offset` on. */
  ghost predicate Wrote(data: seq<Chunk>, offset: int, src: seq<byte>, n: int) {
    forall k :: 0 <= k < n && k < |src| ==> Stored(data, offset + k, src[k])
  }

  function Overwrite(c: Chunk, k: nat, piece: seq<byte>): (r: Chunk)
    requires k + |piece| <= |c.bytes|
    ensures |r.bytes| == |c.bytes| && r.offset == c.offset
  {
    Chunk(c.offset, c.bytes[..k] + piece + c.bytes[k + |piece|..])
  }

  lemma InsertKeeps(data: seq<Chunk>, i: nat, c: Chunk)
    requires i <= |data|
    ensures Keeps(data, data[..i] + [c] + data[i..], 0, 0)
  {
    var d := data[..i] + [c] + data[i..];
    forall x: int, b: byte | Stored(data, x, b)
      ensures Stored(d, x, b)
    {
      var j :| 0 <= j < |data| && At(data[j], x, b);
      assert data[j] == d[if j < i then j else j + 1];
    }
  }

  lemma OverwriteKeeps(data: seq<Chunk>, i: nat, k: nat, piece: seq<byte>)
    requires i < |data| && k + |piece| <= |data[i].bytes|
    ensures var d := data[i := Overwrite(data[i], k, piece)];
            var off := data[i].offset + k;
            Keeps(data, d, off, off + |piece|) && Wrote(d, off, piece, |piece|)
  {
    var c := Overwrite(data[i], k, piece);
    var d := data[i := c];
    var off := data[i].offset + k;
    forall x: int, b: byte | Stored(data, x, b) && !(off <= x < off + |piece|)
      ensures Stored(d, x, b)
    {
      var j :| 0 <= j < |data| && At(data[j], x, b);
      assert At(d[j], x, b);
    }
    forall j | 0 <= j < |piece|
      ensures Stored(d, off + j, piece[j])
    {
      assert At(d[i], off + j, piece[j]);
    }
  }

  /** The aligned position at or below `off`. */
  lemma AlignBelow(off: nat, size: nat)
    requires size > 0
    ensures Aligned((off / size) * size, size)
    ensures (off / size) * size <= off < (off / size) * size + size
  {
    assert Times(off / size, size) == (off / size) * size;
  }

  /** Two aligned positions are equal or at least one chunk apart. */
  lemma AlignedApart(a: nat, b: nat, size: nat)
    requires Aligned(a, size) && Aligned(b, size) && a < b
    ensures a + size <= b
  {
    var p: nat :| Times(p, size) == a;
    var q: nat :| Times(q, size) == b;
    MulLess(p, q, size);
  }

  lemma MulDistr(q: nat, size: nat)
    ensures (q + 1) * size == q * size + size
  {
  }

  lemma MulMonotone(p: nat, q: nat, size: nat)
    ensures p <= q ==> p * size <= q * size
  {
    if p <= q {
      assert (q - p) * size >= 0;
    }
  }

  lemma MulLess(q: nat, p: nat, size: nat)
    requires q * size < p * size
    ensures q + 1 <= p
    ensures q * size + size <= p * size
  {
    MulMonotone(p, q, size);
    MulMonotone(q + 1, p, size);
    MulDistr(q, size);
  }

  lemma InsertChunked(data: seq<Chunk>, i: nat, c: Chunk, size: nat, off: nat)
    requires size > 0 && Chunked(data, size) && i <= |data|
    requires i < |data| ==> off < data[i].offset
    requires i > 0 ==> data[i - 1].offset + size <= off
    requires c.offset == (off / size) * size && |c.bytes| == size
    ensures Chunked(data[..i] + [c] + data[i..], size)
    ensures c.offset <= off < c.offset + size
  {
    AlignBelow(off, size);
    if i < |data| {
      AlignedApart(c.offset, data[i].offset, size);
    }
    if i > 0 {
      AlignedApart(data[i - 1].offset, c.offset, size);
    }
    InsertOrdered(data, i, c, size);
  }

  lemma InsertOrdered(data: seq<Chunk>, i: nat, c: Chunk, size: nat)
    requires Chunked(data, size) && i <= |data|
    requires i < |data| ==> c.offset + size <= data[i].offset
    requires i > 0 ==> data[i - 1].offset + size <= c.offset
    requires |c.bytes| == size && Aligned(c.offset, size)
    ensures Chunked(data[..i] + [c] + data[i..], size)
  {
    var d := data[..i] + [c] + data[i..];
    forall j | 0 <= j < |d| ensures |d[j].bytes| == size && Aligned(d[j].offset, size) {
      assert d[j] == if j < i then data[j] else if j == i then c else data[j - 1];
    }
    forall j, k | 0 <= j < k < |d| ensures d[j].offset + size <= d[k].offset {
      InsertApart(data, i, c, size, j, k);
    }
  }

  lemma InsertApart(data: seq<Chunk>, i: nat, c: Chunk, size: nat, j: nat, k: nat)
    requires Chunked(data, size) && i <= |data| && j < k <= |data|
    requires i < |data| ==> c.offset + size <= data[i].offset
    requires i > 0 ==> data[i - 1].offset + size <= c.offset
    ensures var d := data[..i] + [c] + data[i..]; d[j].offset + size <= d[k].offset
  {
    assert i > 0 && j < i - 1 ==> data[j].offset + size <= data[i - 1].offset;
    assert k > i + 1 ==> data[i].offset + size <= data[k - 1].offset;
  }

  class Buffer {
    const chunk: nat
    const gap: Gaps
    var data: seq<Chunk>

    ghost predicate Valid()
      reads this, gap
    {
      chunk > 0 && gap.Valid() && Chunked(data, chunk)
    }

    constructor (chunk: nat)
      requires chunk > 0
      ensures Valid() && fresh(gap)
      ensures gap.gaps == [Range(0, UINT64_MAX)] && data == [] && this.chunk == chunk
    {
      this.chunk := chunk;
      gap := new Gaps();
      data := [];
    }

    /** Makes sure that chunk `i` is the one that ends after `off`, unless `off` is the very
        end of chunk `i`. The contents of a new chunk are arbitrary. */
    method AllocateBefore(i: nat, off: nat)
      requires Chunked(data, chunk) && chunk > 0 && i <= |data|
      requires i == |data| || off < data[i].offset
      requires forall j :: 0 <= j < i ==> data[j].offset + chunk <= off
      modifies this`data
      ensures Chunked(data, chunk) && |data| == |old(data)| + 1
      ensures data[i].offset <= off < data[i].offset + chunk
      ensures forall j :: 0 <= j < i ==> data[j].offset + chunk <= off
      ensures Keeps(old(data), data, 0, 0)
      ensures forall lo: int :: lo <= off && Beyond(old(data), lo) ==> Beyond(data, lo)
    {
      var bytes := new byte[chunk];
      var c := Chunk((off / chunk) * chunk, bytes[..]);
      InsertKeeps(data, i, c);
      InsertChunked(data, i, c, chunk, off);
      data := data[..i] + [c] + data[i..];
    }

    /** Copies `piece` into chunk `i`. */
    method CopyInto(i: nat, off: nat, piece: seq<byte>)
      requires Chunked(data, chunk) && i < |data|
      requires data[i].offset <= off && off + |piece| <= data[i].offset + chunk
      modifies this`data
      ensures Chunked(data, chunk) && |data| == |old(data)|
      ensures forall j :: 0 <= j < |data| ==> data[j].offset == old(data)[j].offset
      ensures Keeps(old(data), data, off, off + |piece|) && Wrote(data, off, piece, |piece|)
    {
      OverwriteKeeps(data, i, off - data[i].offset, piece);
      data := data[i := Overwrite(data[i], off - data[i].offset, piece)];
    }

    /** Copies as much of `src` from its position `n` on as chunk `i` has room for. */
    method WritePiece(i: nat, offset: nat, n: nat, src: seq<byte>, ghost lo: int, ghost data0: seq<Chunk>)
      returns (n': nat)
      requires chunk > 0 && Chunked(data, chunk) && Beyond(data, lo) && i < |data| && n < |src|
      requires data[i].offset <= offset + n <= data[i].offset + chunk
      requires Wrote(data, offset, src, n) && Keeps(data0, data, offset, offset + n)
      modifies this`data
      ensures Chunked(data, chunk) && Beyond(data, lo) && |data| == |old(data)|
      ensures forall j :: 0 <= j < |data| ==> data[j].offset == old(data)[j].offset
      ensures n <= n' <= |src| && offset + n' <= data[i].offset + chunk
      ensures n' < |src| ==> offset + n' == data[i].offset + chunk
      ensures Wrote(data, offset, src, n') && Keeps(data0, data, offset, offset + n')
    {
      var off := offset + n;
      var room := data[i].offset + chunk - off;
      var m := if |src| - n < room then |src| - n else room;
      ghost var before := data;
      CopyInto(i, off, src[n..n + m]);
      KeepsStep(data0, before, data, offset, n, m, src, src[n..n + m]);
      n' := n + m;
    }

    /** Copies `src` into the chunks from `offset` on, allocating the chunks that are missing. */
    method WriteData(offset: nat, src: seq<byte>, ghost lo: int)
      requires chunk > 0 && Chunked(data, chunk) && src != []
      requires lo <= offset && Beyond(data, lo)
      modifies this`data
      ensures Chunked(data, chunk) && Beyond(data, lo)
      ensures Wrote(data, offset, src, |src|)
      ensures Keeps(old(data), data, offset, offset + |src|)
    {
      var i, n := 0, 0;
      while true
        invariant 0 <= i <= |data| && 0 <= n < |src|
        invariant Chunked(data, chunk) && Beyond(data, lo)
        invariant forall j :: 0 <= j < i ==> data[j].offset + chunk <= offset + n
        invariant Wrote(data, offset, src, n)
        invariant Keeps(old(data), data, offset, offset + n)
        decreases |src| - n, |data| - i
      {
        var off := offset + n;
        ghost var before := data;
        if i == |data| || off < data[i].offset {
          AllocateBefore(i, off);
          KeepsStep(old(data), before, data, offset, n, 0, src, []);
        } else if data[i].offset + chunk < off {
          i := i + 1;
          continue;
        }
        n := WritePiece(i, offset, n, src, lo, old(data));
        if n == |src| {
          return;
        }
        i := i + 1;
      }
    }

    /** Handles gap `i`: what `src` fills of it is stored, and the gap shrinks accordingly. */
    method FillGap(i: nat, offset: nat, src: seq<byte>, ghost lo: int, ghost data0: seq<Chunk>,
                   ghost passed: seq<Range>)
      returns (n: nat, stop: bool)
      requires Chunked(data, chunk) && chunk > 0 && lo <= offset && Beyond(data, lo)
      requires i < |gap.gaps|
      requires Filled(data, passed, offset, src) && Spares(data0, data, passed, offset, src)
      modifies this`data, gap
      ensures Chunked(data, chunk) && Beyond(data, lo)
      ensures var g, q := old(gap.gaps[i]), Range(offset, offset + |src|);
              && gap.gaps == old(gap.gaps[..i]) + Cut(g, q) + old(gap.gaps[i + 1..])
              && n == |Cut(g, q)|
              && (stop ==> q.end <= g.end)
              && Filled(data, passed + [g], offset, src)
              && Spares(data0, data, passed + [g], offset, src)
    {
      var q := Range(offset, offset + |src|);
      var g := gap.gaps[i];
      ghost var before := data;
      n := gap.TrimGap(i, q);
      var m := Intersect(q, g);
      if m.begin != m.end {
        WriteData(m.begin, src[m.begin - offset..m.end - offset], lo);
      }
      FillStep(data0, before, data, passed, g, m, offset, src);
      stop := n != 0 && NotAfter(q, gap.gaps[i + n - 1]);
    }

    /** Stores the part of `src` that was missing so far, and only that part. */
    method Push(offset: nat, src: seq<byte>, ghost lo: int)
      requires Valid() && offset + |src| <= UINT64_MAX
      requires lo <= offset && Beyond(data, lo)
      modifies this`data, gap
      ensures Valid() && Beyond(data, lo)
      ensures gap.gaps == Subtract(old(gap.gaps), Range(offset, offset + |src|))
      ensures Filled(data, old(gap.gaps), offset, src)
      ensures Spares(old(data), data, old(gap.gaps), offset, src)
    {
      ghost var gaps0 := gap.gaps;
      var q := Range(offset, offset + |src|);
      SubtractCanonical(gap.gaps, q);
      var i := 0;
      ghost var done, passed, todo := [], [], gap.gaps;
      while i < |gap.gaps|
        invariant Chunked(data, chunk) && Beyond(data, lo)
        invariant i == |done| && gap.gaps == done + todo
        invariant Canonical(todo) && gaps0 == passed + todo
        invariant done + Subtract(todo, q) == Subtract(gaps0, q)
        invariant Filled(data, passed, offset, src)
        invariant Spares(old(data), data, passed, offset, src)
        decreases |todo|
      {
        SubtractStep(done, todo, q);
        ShiftHead(passed, todo);
        var n, stop := FillGap(i, offset, src, lo, old(data), passed);
        done, passed, todo := done + Cut(todo[0], q), passed + [todo[0]], todo[1..];
        i := i + n;
        if stop {
          break;
        }
      }
      FilledBeyond(old(data), data, passed, todo, offset, src);
    }

    /** Forgets everything below `offset`: gaps are cut there and chunks that end by then are freed. */
    method RemovePrefix(offset: nat)
      requires Valid()
      modifies this`data, gap
      ensures Valid() && Beyond(data, offset)
      ensures gap.gaps == Subtract(old(gap.gaps), Range(0, offset))
      ensures Keeps(old(data), data, 0, offset)
    {
      gap.RemovePrefix(offset);
      var k := 0;
      while k < |data| && data[k].offset + chunk <= offset
        invariant 0 <= k <= |data|
        invariant forall i :: 0 <= i < k ==> data[i].offset + chunk <= offset
      {
        k := k + 1;
      }
      DropKeeps(data, k, offset);
      data := data[k..];
    }

    /** The longest run of buffered bytes at `offset` that one chunk can hand out; empty exactly
        when the byte at `offset` is missing. */
    method DataAt(offset: nat) returns (piece: seq<byte>)
      requires Valid() && gap.gaps != []
      requires Beyond(data, offset)
      requires offset < gap.gaps[0].begin ==> exists b: byte :: Stored(data, offset, b)
      ensures piece == [] <==> gap.gaps[0].begin <= offset
      ensures piece != [] ==> offset + |piece| <= gap.gaps[0].begin && data != []
      ensures piece != [] ==> Holds(data[0], offset, piece)
      ensures piece != [] && data[0].offset + chunk <= offset + |piece| ==> data[0].offset + chunk == offset + |piece|
    {
      if gap.gaps[0].begin <= offset {
        return [];
      }
      ghost var b: byte :| Stored(data, offset, b);
      FirstHolds(data, chunk, offset, b);
      var d := data[0];
      var end := if gap.gaps[0].begin < d.offset + chunk then gap.gaps[0].begin else d.offset + chunk;
      piece := d.bytes[offset - d.offset..end - d.offset];
    }

    /** Frees the first chunk once it has been handed out up to its end. */
    method Pop(offset: nat, len: nat)
      requires Valid() && data != [] && Beyond(data, offset)
      requires offset + len <= data[0].offset + chunk
      modifies this`data
      ensures Valid() && Beyond(data, offset + len)
      ensures Keeps(old(data), data, 0, offset + len)
    {
      if offset + len < data[0].offset + chunk {
        return;
      }
      DropKeeps(data, 1, offset + len);
      data := data[1..];
    }
  }

  /** `piece` is what chunk `c` holds at `offset`. */
  ghost predicate Holds(c: Chunk, offset: nat, piece: seq<byte>) {
    && c.offset <= offset && offset + |piece| <= c.offset + |c.bytes|
    && piece == c.bytes[offset - c.offset..offset - c.offset + |piece|]
  }

  /** Chunks that end by `offset` hold nothing from `offset` on. */
  lemma DropKeeps(data: seq<Chunk>, k: nat, offset: int)
    requires k <= |data|
    requires forall i :: 0 <= i < k ==> data[i].offset + |data[i].bytes| <= offset
    ensures Keeps(data, data[k..], 0, offset)
  {
    forall x: int, b: byte | Stored(data, x, b) && !(0 <= x < offset)
      ensures Stored(data[k..], x, b)
    {
      var i :| 0 <= i < |data| && At(data[i], x, b);
      assert data[k..][i - k] == data[i];
    }
  }

  /** When nothing lies entirely below `x`, a stored byte at `x` is in the first chunk. */
  lemma FirstHolds(data: seq<Chunk>, size: nat, x: int, b: byte)
    requires Chunked(data, size) && Beyond(data, x) && Stored(data, x, b)
    ensures data != [] && At(data[0], x, b)
  {
    var i :| 0 <= i < |data| && At(data[i], x, b);
    assert x < data[0].offset + size;
  }

  /** What DataAt hands out agrees with every byte known to be stored there. */
  lemma HoldsStored(data: seq<Chunk>, size: nat, offset: nat, piece: seq<byte>, k: nat, b: byte)
    requires Chunked(data, size) && Beyond(data, offset) && data != []
    requires Holds(data[0], offset, piece) && k < |piece|
    requires Stored(data, offset + k, b)
    ensures piece[k] == b
  {
    var i :| 0 <= i < |data| && At(data[i], offset + k, b);
  }

  lemma ShiftHead<T>(passed: seq<T>, todo: seq<T>)
    requires todo != []
    ensures passed + todo == (passed + [todo[0]]) + todo[1..]
  {
  }

  /** Every offset of `src` that lies in one of `gaps` now holds the byte of `src`. */
  ghost predicate Filled(data: seq<Chunk>, gaps: seq<Range>, offset: int, src: seq<byte>) {
    forall x: int :: offset <= x < offset + |src| && Covers(gaps, x) ==> Stored(data, x, src[x - offset])
  }

  /** Bytes are kept unless they lie both in `src` and in one of `gaps`. */
  ghost predicate Spares(d0: seq<Chunk>, d1: seq<Chunk>, gaps: seq<Range>, offset: int, src: seq<byte>) {
    forall x: int, b: byte ::
      Stored(d0, x, b) && !(offset <= x < offset + |src| && Covers(gaps, x)) ==> Stored(d1, x, b)
  }

  lemma FillStep(d0: seq<Chunk>, d1: seq<Chunk>, d2: seq<Chunk>, passed: seq<Range>, g: Range, m: Range,
                 offset: nat, src: seq<byte>)
    requires m == Intersect(Range(offset, offset + |src|), g)
    requires Filled(d1, passed, offset, src) && Spares(d0, d1, passed, offset, src)
    requires m.begin == m.end ==> d2 == d1
    requires m.begin != m.end ==> Keeps(d1, d2, m.begin, m.end)
    requires m.begin != m.end ==> Wrote(d2, m.begin, src[m.begin - offset..m.end - offset], m.end - m.begin)
    ensures Filled(d2, passed + [g], offset, src)
    ensures Spares(d0, d2, passed + [g], offset, src)
  {
    forall x: int | offset <= x < offset + |src| && Covers(passed + [g], x)
      ensures Stored(d2, x, src[x - offset])
    {
      CoversSplit(passed, [g], x);
      if m.begin <= x < m.end {
        var piece := src[m.begin - offset..m.end - offset];
        assert piece[x - m.begin] == src[x - offset];
      } else {
        assert Covers(passed, x);
        assert Stored(d1, x, src[x - offset]);
      }
    }
    forall x: int, b: byte | Stored(d0, x, b) && !(offset <= x < offset + |src| && Covers(passed + [g], x))
      ensures Stored(d2, x, b)
    {
      CoversSplit(passed, [g], x);
      assert g.Contains(x) <==> Covers([g], x) by { assert [g][0] == g; }
      assert Stored(d1, x, b);
    }
  }

  /** Gaps that start after `src` ends need no filling. */
  lemma FilledBeyond(d0: seq<Chunk>, d1: seq<Chunk>, passed: seq<Range>, todo: seq<Range>, offset: nat, src: seq<byte>)
    requires Filled(d1, passed, offset, src) && Spares(d0, d1, passed, offset, src)
    requires Subtract(todo, Range(offset, offset + |src|)) == todo
    requires Canonical(todo)
    ensures Filled(d1, passed + todo, offset, src)
    ensures Spares(d0, d1, passed + todo, offset, src)
  {
    forall x: int
      ensures Covers(passed + todo, x) && offset <= x < offset + |src| ==> Covers(passed, x)
      ensures Covers(passed, x) ==> Covers(passed + todo, x)
    {
      CoversSplit(passed, todo, x);
      SubtractCovers(todo, Range(offset, offset + |src|), x);
    }
  }

  /** One copy step extends what has been written and keeps the rest. */
  lemma KeepsStep(d0: seq<Chunk>, d1: seq<Chunk>, d2: seq<Chunk>, offset: nat, n: nat, m: nat,
                  src: seq<byte>, piece: seq<byte>)
    requires n + m <= |src| && |piece| == m && piece == src[n..n + m]
    requires Keeps(d0, d1, offset, offset + n) && Wrote(d1, offset, src, n)
    requires Keeps(d1, d2, offset + n, offset + n + m) || (m == 0 && Keeps(d1, d2, 0, 0))
    requires Wrote(d2, offset + n, piece, m)
    ensures Keeps(d0, d2, offset, offset + n + m) && Wrote(d2, offset, src, n + m)
  {
    forall k | 0 <= k < n + m
      ensures Stored(d2, offset + k, src[k])
    {
      if k < n {
        assert Stored(d1, offset + k, src[k]);
      } else {
        assert Stored(d2, offset + n + (k - n), piece[k - n]);
      }
    }
  }
}
