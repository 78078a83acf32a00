/** Truncating a packet number for the wire and recovering it at the receiver
    (conn_select_pkt_type in Polygon/lib/ngtcp2_conn.c, ngtcp2_pkt_adjust_pkt_num in
    Polygon/lib/ngtcp2_pkt.c; section 17.1 and appendix A.3 of RFC 9000). */
module PacketNumbers {

  const TWO64: nat := 0x1_0000_0000_0000_0000

  type uint64 = n: nat | n < TWO64

  datatype Width = Bits8 | Bits16 | Bits32

  function Size(w: Width): nat {
    match w
    case Bits8 => 0x100
    case Bits16 => 0x1_0000
    case Bits32 => 0x1_0000_0000
  }

  /** The shortest width that leaves room for twice the distance to the largest acknowledged number. */
  function SelectWidth(pktNum: uint64, largestAcked: uint64): Width {
    var n := (pktNum - largestAcked) % TWO64;
    if (TWO64 - 1) / 2 <= pktNum then Bits32
    else if (n * 2 + 1) % TWO64 > 0xFFFF then Bits32
    else if (n * 2 + 1) % TWO64 > 0xFF then Bits16
    else Bits8
  }

  function Truncate(pktNum: uint64, w: Width): (r: nat)
    ensures r < Size(w)
  {
    pktNum % Size(w)
  }

  function Distance(a: nat, b: nat): nat {
    if a < b then b - a else a - b
  }

  /** The start of the window that contains `k`. */
  function Window(k: nat, w: Width): nat {
    k - k % Size(w)
  }

  /** The number the receiver expects next. */
  function Expected(maxPktNum: uint64): nat {
    if maxPktNum == TWO64 - 1 then maxPktNum else maxPktNum + 1
  }

  /** Of the candidates in the window of the next expected number and in the window after it, the
      one that is closer to that number. */
  function Adjust(maxPktNum: uint64, truncated: nat, w: Width): nat
    requires truncated < Size(w)
  {
    var k := Expected(maxPktNum);
    var u := Window(k, w);
    Nearest(k, u + truncated, (u + Size(w)) % TWO64 + truncated)
  }

  function Nearest(k: nat, a: nat, b: nat): nat {
    if Distance(k, a) < Distance(k, b) then a else b
  }

  /** The packet numbers that the receiver can recover, given the next number it expects: those of
      the current window that are less than half a window old, and those of the next window up to
      half a window ahead. In the last window of the number space, where no next one follows, all
      of it. */
  predicate Recoverable(k: nat, pktNum: nat, w: Width) {
    if NotLastWindow(k, w) then InReach(k, Window(k, w), Size(w), pktNum) else Window(k, w) <= pktNum
  }

  predicate InReach(k: nat, u: nat, size: nat, n: nat) {
    || (u <= n < u + size && k < n + size / 2)
    || (u + size <= n && n <= k + size / 2)
  }

  /** When the window after next still fits into 64 bits. */
  predicate NotLastWindow(k: nat, w: Width) {
    Window(k, w) + 2 * Size(w) <= TWO64
  }

  lemma SmallMultiple(d: int, size: nat)
    requires 0 - size < d * size < size
    ensures d == 0
  {
    assert d >= 1 ==> (d - 1) * size >= 0;
    assert d <= -1 ==> (-d - 1) * size >= 0;
  }

  /** A number is the sum of a window start and its own remainder exactly when it lies in that window. */
  lemma InWindow(n: nat, q: nat, size: nat)
    requires size > 0
    ensures q * size + n % size == n <==> q * size <= n < q * size + size
  {
    var d := n / size - q;
    assert d * size == n - n % size - q * size;
    if q * size <= n < q * size + size {
      SmallMultiple(d, size);
    }
  }

  /** Both candidates of Adjust: the number in the window of `k`, and the one in the next window. */
  lemma Candidates(k: nat, pktNum: nat, w: Width)
    ensures var u, size, p := Window(k, w), Size(w), pktNum % Size(w);
            && u <= k < u + size
            && (u + p == pktNum <==> u <= pktNum < u + size)
            && (u + size + p == pktNum <==> u + size <= pktNum < u + 2 * size)
  {
    var size := Size(w);
    var q := k / size;
    assert Window(k, w) == q * size;
    InWindow(pktNum, q, size);
    InWindow(pktNum, q + 1, size);
    assert (q + 1) * size == q * size + size;
  }

  lemma NearestInReach(k: nat, u: nat, size: nat, p: nat, n: nat)
    requires u <= k < u + size && p < size && size % 2 == 0
    requires u + p == n <==> u <= n < u + size
    requires u + size + p == n <==> u + size <= n < u + 2 * size
    ensures Nearest(k, u + p, u + size + p) == n <==> InReach(k, u, size, n)
  {
    assert Distance(k, u + p) < Distance(k, u + size + p) <==> k < u + p + size / 2;
  }

  lemma NoWrap(k: nat, w: Width)
    requires NotLastWindow(k, w)
    ensures (Window(k, w) + Size(w)) % TWO64 == Window(k, w) + Size(w)
  {
  }

  /** The receiver recovers exactly the recoverable numbers, in all of the number space. */
  lemma AdjustRecovers(maxPktNum: uint64, pktNum: uint64, w: Width)
    ensures Adjust(maxPktNum, Truncate(pktNum, w), w) == pktNum <==> Recoverable(Expected(maxPktNum), pktNum, w)
  {
    if NotLastWindow(Expected(maxPktNum), w) {
      InnerWindowRecovers(maxPktNum, pktNum, w);
    } else {
      LastWindowRecovers(maxPktNum, pktNum, w);
    }
  }

  /** The same in numbers: the next number expected is one more than the largest so far, unless there is
      none, and windows are multiples of their size. */
  lemma RecoveredExactly(maxPktNum: uint64, pktNum: uint64, w: Width)
    ensures var k := if maxPktNum == 0xFFFF_FFFF_FFFF_FFFF then maxPktNum else maxPktNum + 1;
            var size := match w case Bits8 => 0x100 case Bits16 => 0x1_0000 case Bits32 => 0x1_0000_0000;
            var u := k / size * size;
            Adjust(maxPktNum, pktNum % size, w) == pktNum <==>
            if u + 2 * size <= 0x1_0000_0000_0000_0000 then
              (u <= pktNum < u + size && k < pktNum + size / 2) || (u + size <= pktNum <= k + size / 2)
            else u <= pktNum
  {
    AdjustRecovers(maxPktNum, pktNum, w);
    WindowStart(Expected(maxPktNum), Size(w));
  }

  lemma WindowStart(k: nat, size: nat)
    requires size > 0
    ensures k - k % size == k / size * size
  {
  }

  /** The two candidates, given the window that follows. */
  lemma AdjustIs(maxPktNum: uint64, truncated: nat, w: Width, next: nat)
    requires truncated < Size(w) && next == (Window(Expected(maxPktNum), w) + Size(w)) % TWO64
    ensures var k := Expected(maxPktNum);
            Adjust(maxPktNum, truncated, w) == Nearest(k, Window(k, w) + truncated, next + truncated)
  {
  }

  lemma InnerWindowRecovers(maxPktNum: uint64, pktNum: uint64, w: Width)
    requires NotLastWindow(Expected(maxPktNum), w)
    ensures var k := Expected(maxPktNum);
            Adjust(maxPktNum, Truncate(pktNum, w), w) == pktNum <==> InReach(k, Window(k, w), Size(w), pktNum)
  {
    var k := Expected(maxPktNum);
    Candidates(k, pktNum, w);
    NoWrap(k, w);
    AdjustIs(maxPktNum, Truncate(pktNum, w), w, Window(k, w) + Size(w));
    NearestInReach(k, Window(k, w), Size(w), Truncate(pktNum, w), pktNum);
  }

  /** In the last window of the 64-bit space there is no next window: exactly what lies in it is
      recovered. */
  lemma LastWindowRecovers(maxPktNum: uint64, pktNum: uint64, w: Width)
    requires !NotLastWindow(Expected(maxPktNum), w)
    ensures Adjust(maxPktNum, Truncate(pktNum, w), w) == pktNum <==> Window(Expected(maxPktNum), w) <= pktNum
  {
    var k := Expected(maxPktNum);
    Candidates(k, pktNum, w);
    LastWindowStart(k, w);
    AdjustIs(maxPktNum, Truncate(pktNum, w), w, 0);
    FarBelow(k, Window(k, w), Size(w), Truncate(pktNum, w));
  }

  lemma LastWindowStart(k: nat, w: Width)
    requires k < TWO64 && !NotLastWindow(k, w)
    ensures Window(k, w) + Size(w) == TWO64
  {
    match w
    case Bits8 =>
    case Bits16 =>
    case Bits32 =>
  }

  /** The candidate that has wrapped around is far away from the last window. */
  lemma FarBelow(k: nat, u: nat, size: nat, p: nat)
    requires u <= k < u + size && p < size && u + size == TWO64 && size <= 0x1_0000_0000
    ensures Nearest(k, u + p, p) == u + p
  {
  }

  /** The width that the sender chooses is wide enough: a packet newer than everything the receiver
      has seen, which includes what it acknowledged, is recovered, unless 32 bits are not enough
      because it is more than half a window ahead and beyond the current window. */
  lemma ChosenWidthRecovers(pktNum: uint64, largestAcked: uint64, maxPktNum: uint64)
    requires largestAcked <= maxPktNum < pktNum
    ensures var w, k := SelectWidth(pktNum, largestAcked), Expected(maxPktNum);
            Adjust(maxPktNum, Truncate(pktNum, w), w) == pktNum <==>
            (w == Bits32 ==> pktNum <= k + Size(w) / 2 || pktNum < Window(k, w) + Size(w))
  {
    var w, k := SelectWidth(pktNum, largestAcked), Expected(maxPktNum);
    WidthReaches(pktNum, largestAcked);
    if !NotLastWindow(k, w) {
      LastWindowStart(k, w);
    }
    Candidates(k, pktNum, w);
    Ahead(k, Window(k, w), Size(w), pktNum);
    AdjustRecovers(maxPktNum, pktNum, w);
  }

  /** Except with 32 bits, the packet is less than half a window ahead of what was acknowledged. */
  lemma WidthReaches(pktNum: uint64, largestAcked: uint64)
    requires largestAcked <= pktNum
    ensures var w := SelectWidth(pktNum, largestAcked); w != Bits32 ==> pktNum < largestAcked + Size(w) / 2
  {
    assert (pktNum - largestAcked) % TWO64 == pktNum - largestAcked;
  }

  /** The width is the least one with more than twice as many numbers as have passed since the last
      acknowledged packet, up to 32 bits; in the upper half of the number space it is always 32 bits. */
  lemma WidthLeast(pktNum: uint64, largestAcked: uint64)
    requires largestAcked <= pktNum
    ensures var w, n := SelectWidth(pktNum, largestAcked), 2 * (pktNum - largestAcked) + 1;
            && (pktNum >= 0x7FFF_FFFF_FFFF_FFFF ==> w == Bits32)
            && (pktNum < 0x7FFF_FFFF_FFFF_FFFF ==>
                  && (w != Bits32 ==> n < Size(w))
                  && forall v: Width :: Size(v) < Size(w) ==> Size(v) <= n)
  {
    assert (pktNum - largestAcked) % TWO64 == pktNum - largestAcked;
  }

  /** Of the numbers not below the expected one, those up to half a window ahead are in reach. */
  lemma Ahead(k: nat, u: nat, size: nat, n: nat)
    requires u <= k < u + size && k <= n && size % 2 == 0 && size > 1
    ensures InReach(k, u, size, n) <==> n <= k + size / 2 || n < u + size
  {
  }

  /** A packet that was overtaken is recovered exactly when it lies in the window of the next expected
      number and, unless that is the last one, is less than half a window old; one from the window
      before never is. */
  lemma OlderPacket(maxPktNum: uint64, pktNum: uint64, w: Width)
    requires pktNum <= maxPktNum
    ensures var k := Expected(maxPktNum);
            Adjust(maxPktNum, Truncate(pktNum, w), w) == pktNum <==>
            Window(k, w) <= pktNum && (NotLastWindow(k, w) ==> k - pktNum < Size(w) / 2)
  {
    Candidates(Expected(maxPktNum), pktNum, w);
    AdjustRecovers(maxPktNum, pktNum, w);
  }

  /** Such a packet exists: 255, sent in 8 bits after 200 was acknowledged and overtaken by 256, is
      taken for 511. */
  lemma Overtaken()
    ensures SelectWidth(255, 200) == Bits8 && Adjust(256, Truncate(255, Bits8), Bits8) == 511
  {
    assert SelectWidth(255, 200) == Bits8;
    assert Truncate(255, Bits8) == 255 && Window(257, Bits8) == 256;
  }
}
