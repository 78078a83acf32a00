/** ACK frames: a largest packet number, the length of the first run below it, and gap/length
    blocks for the runs that follow (Polygon/lib/ngtcp2_pkt.c; section 19.3.1 of RFC 9000). */
module AckFrames {

  /** As many blocks are kept when a frame is decoded. */
  const MAX_ACK_BLKS: nat := 255

  datatype Block = Block(gap: nat, len: nat)

  datatype Ack = Ack(largest: nat, delay: nat, firstLen: nat, blks: seq<Block>)

  /** The runs described by `blks` when the run before them ends (downwards) at `lo`. */
  predicate InBlocks(lo: int, blks: seq<Block>, n: int)
    decreases |blks|
  {
    blks != [] &&
    var hi := lo - blks[0].gap - 2;
    (hi - blks[0].len <= n <= hi || InBlocks(hi - blks[0].len, blks[1..], n))
  }

  /** Packet number `n` is acknowledged by the frame. */
  predicate Covers(fr: Ack, n: int) {
    fr.largest - fr.firstLen <= n <= fr.largest || InBlocks(fr.largest - fr.firstLen, fr.blks, n)
  }

  function LowFrom(lo: int, blks: seq<Block>): int
    decreases |blks|
  {
    if blks == [] then lo else LowFrom(lo - blks[0].gap - 2 - blks[0].len, blks[1..])
  }

  /** The smallest packet number acknowledged. */
  function Low(fr: Ack): int {
    LowFrom(fr.largest - fr.firstLen, fr.blks)
  }

  /** No run reaches below zero. Runs only go down, so it is enough that the last one does not. */
  predicate ValidAck(fr: Ack) {
    0 <= Low(fr)
  }

  /** Block by block subtraction, refusing the frame as soon as a number would become negative. */
  method ValidateAck(fr: Ack) returns (ok: bool)
    ensures ok <==> ValidAck(fr)
  {
    if fr.largest < fr.firstLen {
      LowBelow(fr.largest - fr.firstLen, fr.blks);
      return false;
    }
    var largest := fr.largest - fr.firstLen;
    var i := 0;
    while i < |fr.blks|
      invariant 0 <= i <= |fr.blks| && 0 <= largest
      invariant LowFrom(largest, fr.blks[i..]) == Low(fr)
    {
      ghost var b := fr.blks[i];
      assert fr.blks[i..][1..] == fr.blks[i + 1..];
      LowBelow(largest - b.gap - 2 - b.len, fr.blks[i + 1..]);
      if largest < fr.blks[i].gap + 2 {
        return false;
      }
      largest := largest - (fr.blks[i].gap + 2);
      if largest < fr.blks[i].len {
        return false;
      }
      largest := largest - fr.blks[i].len;
      i := i + 1;
    }
    return true;
  }

  lemma {:induction false} LowBelow(lo: int, blks: seq<Block>)
    ensures LowFrom(lo, blks) <= lo
    decreases |blks|
  {
    if blks == [] {
    } else {
      LowBelow(lo - blks[0].gap - 2 - blks[0].len, blks[1..]);
    }
  }

  /** Everything acknowledged lies between Low and the largest number. */
  lemma {:induction false} InBlocksBounds(lo: int, blks: seq<Block>, n: int)
    requires InBlocks(lo, blks, n)
    ensures LowFrom(lo, blks) <= n < lo
    decreases |blks|
  {
    var lo' := lo - blks[0].gap - 2 - blks[0].len;
    LowBelow(lo', blks[1..]);
    if InBlocks(lo', blks[1..], n) {
      InBlocksBounds(lo', blks[1..], n);
    }
  }

  lemma CoversBounds(fr: Ack, n: int)
    requires Covers(fr, n)
    ensures Low(fr) <= n <= fr.largest
  {
    LowBelow(fr.largest - fr.firstLen, fr.blks);
    if InBlocks(fr.largest - fr.firstLen, fr.blks, n) {
      InBlocksBounds(fr.largest - fr.firstLen, fr.blks, n);
    }
  }

  lemma {:induction false} InBlocksAppend(lo: int, blks: seq<Block>, b: Block, n: int)
    ensures var hi := LowFrom(lo, blks) - b.gap - 2;
            && LowFrom(lo, blks + [b]) == hi - b.len
            && (InBlocks(lo, blks + [b], n) <==> InBlocks(lo, blks, n) || hi - b.len <= n <= hi)
    decreases |blks|
  {
    if blks == [] {
      assert blks + [b] == [b];
    } else {
      InBlocksAppend(lo - blks[0].gap - 2 - blks[0].len, blks[1..], b, n);
      assert (blks + [b])[1..] == blks[1..] + [b];
    }
  }

  /** Appending a block adds exactly its run. */
  lemma AppendCovers(fr: Ack, b: Block, n: int)
    ensures var fr' := fr.(blks := fr.blks + [b]);
            var hi := Low(fr) - b.gap - 2;
            Low(fr') == hi - b.len && (Covers(fr', n) <==> Covers(fr, n) || hi - b.len <= n <= hi)
  {
    InBlocksAppend(fr.largest - fr.firstLen, fr.blks, b, n);
  }

  /** The smallest number of the first run and the first `k` blocks. */
  function LowAt(fr: Ack, k: nat): int
    requires k <= |fr.blks|
  {
    if k == 0 then fr.largest - fr.firstLen else LowAt(fr, k - 1) - fr.blks[k - 1].gap - 2 - fr.blks[k - 1].len
  }

  lemma {:induction false} LowAtIs(fr: Ack, k: nat)
    requires k <= |fr.blks|
    ensures LowAt(fr, k) == LowFrom(fr.largest - fr.firstLen, fr.blks[..k])
  {
    if k > 0 {
      LowAtIs(fr, k - 1);
      assert fr.blks[..k] == fr.blks[..k - 1] + [fr.blks[k - 1]];
      InBlocksAppend(fr.largest - fr.firstLen, fr.blks[..k - 1], fr.blks[k - 1], 0);
    }
  }

  lemma {:induction false} InBlocksConcat(lo: int, a: seq<Block>, b: seq<Block>, n: int)
    ensures InBlocks(lo, a + b, n) <==> InBlocks(lo, a, n) || InBlocks(LowFrom(lo, a), b, n)
    decreases |a|
  {
    if a == [] {
      assert a + b == b;
    } else {
      InBlocksConcat(lo - a[0].gap - 2 - a[0].len, a[1..], b, n);
      assert (a + b)[1..] == a[1..] + b;
    }
  }

  lemma InBlocksBelow(lo: int, a: seq<Block>, b: seq<Block>, n: int)
    requires n < LowFrom(lo, a)
    ensures n < lo && (InBlocks(lo, a + b, n) <==> InBlocks(LowFrom(lo, a), b, n))
  {
    InBlocksConcat(lo, a, b, n);
    LowBelow(lo, a);
    if InBlocks(lo, a, n) {
      InBlocksBounds(lo, a, n);
    }
  }

  /** Below the first `k` blocks, only the remaining blocks matter. */
  lemma CoversBelow(fr: Ack, k: nat, n: int)
    requires k <= |fr.blks| && n < LowAt(fr, k)
    ensures Covers(fr, n) <==> InBlocks(LowAt(fr, k), fr.blks[k..], n)
  {
    LowAtIs(fr, k);
    InBlocksBelow(fr.largest - fr.firstLen, fr.blks[..k], fr.blks[k..], n);
    assert fr.blks == fr.blks[..k] + fr.blks[k..];
  }

  /** Between the end of one run and the end of the next, exactly the next run is acknowledged. */
  lemma CoversBlock(fr: Ack, k: nat, n: int)
    requires k < |fr.blks| && LowAt(fr, k + 1) <= n < LowAt(fr, k)
    ensures Covers(fr, n) <==> n <= LowAt(fr, k) - fr.blks[k].gap - 2
  {
    CoversBelow(fr, k, n);
    var rest := fr.blks[k..];
    if InBlocks(LowAt(fr, k + 1), rest[1..], n) {
      InBlocksBounds(LowAt(fr, k + 1), rest[1..], n);
    }
  }

  lemma CoversFirst(fr: Ack, n: int)
    requires fr.largest - fr.firstLen <= n
    ensures Covers(fr, n) <==> n <= fr.largest
  {
    if InBlocks(fr.largest - fr.firstLen, fr.blks, n) {
      InBlocksBounds(fr.largest - fr.firstLen, fr.blks, n);
    }
  }
}
