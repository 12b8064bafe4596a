/** Identifiers of the Chord ring: 20-byte SHA-1 hashes, compared byte by byte, read as points of a
    circle of 2^160 positions. */
module Ids {

  /** Number of bits of an identifier, and of finger-table slots. */
  const M := 160

  /** Number of positions on the circle, 2^160. */
  const RING: int := 0x1_0000_0000_0000_0000_0000_0000_0000_0000_0000_0000

  type Id = x: int | 0 <= x < RING

  /** id lies strictly inside the arc that runs clockwise from a to b; for a == b, everywhere but a. */
  predicate InInterval(id: Id, a: Id, b: Id) {
    if a < b then a < id && id < b else id > a || id < b
  }

  /** Clockwise distance from a to b, a full turn when they coincide. */
  function Gap(a: Id, b: Id): (g: int)
    ensures 0 < g <= RING
    ensures g == RING <==> a == b
  {
    if a < b then b - a else b - a + RING
  }

  /** Clockwise distance from a to b, zero when they coincide. */
  function Dist(a: Id, b: Id): (d: int)
    ensures 0 <= d < RING
    ensures d == 0 <==> a == b
  {
    if a <= b then b - a else b - a + RING
  }

  /** Dist is subtraction modulo the size of the circle. */
  lemma DistIsModular(a: Id, b: Id)
    ensures (b - a) % RING == Dist(a, b)
  {}

  /** The open interval test is a comparison of clockwise distances. */
  lemma IntervalIsArc(id: Id, a: Id, b: Id)
    ensures InInterval(id, a, b) <==> 0 < (id - a) % RING < Gap(a, b)
  {
    DistIsModular(a, id);
  }

  // ----- bytes -----

  newtype byte = x: int | 0 <= x < 256

  type Hash = h: seq<byte> | |h| == 20 witness seq(20, _ => 0)

  /** The sign of memcmp: the first differing byte decides. */
  function Memcmp(a: seq<byte>, b: seq<byte>): int
    requires |a| == |b|
  {
    if a == [] then 0
    else if a[0] != b[0] then a[0] as int - b[0] as int
    else Memcmp(a[1..], b[1..])
  }

  function Pow256(n: nat): (p: int)
    ensures p > 0
  {
    if n == 0 then 1 else 256 * Pow256(n - 1)
  }

  /** The number a byte string denotes, most significant byte first. */
  function Value(h: seq<byte>): (v: int)
    ensures 0 <= v < Pow256(|h|)
  {
    if h == [] then 0 else
      var v := Value(h[1..]);
      TopByteBound(h[0] as int, v, Pow256(|h| - 1));
      h[0] as int * Pow256(|h| - 1) + v
  }

  lemma TopByteBound(top: int, low: int, p: int)
    requires 0 <= top < 256 && 0 <= low < p
    ensures 0 <= top * p + low < 256 * p
  {}

  /** A larger leading digit outweighs everything after it. */
  lemma TopByteDecides(x: int, y: int, v: int, w: int, p: int)
    requires x < y && 0 <= v < p && 0 <= w < p
    ensures x * p + v < y * p + w
  {
    assert (x + 1) * p <= y * p;
    assert (x + 1) * p == x * p + p;
  }

  lemma Pow256Twenty()
    ensures Pow256(20) == RING
  {
    assert Pow256(5) == 256 * 256 * 256 * 256 * 256;
    assert Pow256(10) == 0x1_0000_0000_0000_0000_0000 by {
      assert Pow256(7) == 256 * 256 * Pow256(5);
      assert Pow256(9) == 256 * 256 * Pow256(7);
    }
    assert Pow256(15) == 0x1_0000_0000_0000_0000_0000_0000_0000_00 by {
      assert Pow256(12) == 256 * 256 * Pow256(10);
      assert Pow256(14) == 256 * 256 * Pow256(12);
    }
    assert Pow256(17) == 256 * 256 * Pow256(15);
    assert Pow256(19) == 256 * 256 * Pow256(17);
  }

  /** Byte-wise comparison of equally long strings is comparison of the numbers they denote. */
  lemma {:induction false} MemcmpIsNumeric(a: seq<byte>, b: seq<byte>)
    requires |a| == |b|
    ensures Memcmp(a, b) < 0 <==> Value(a) < Value(b)
    ensures Memcmp(a, b) == 0 <==> a == b
    ensures Memcmp(a, b) == 0 <==> Value(a) == Value(b)
  {
    if a != [] {
      MemcmpIsNumeric(a[1..], b[1..]);
      var p := Pow256(|a| - 1);
      if a[0] < b[0] {
        TopByteDecides(a[0] as int, b[0] as int, Value(a[1..]), Value(b[1..]), p);
      } else if a[0] > b[0] {
        TopByteDecides(b[0] as int, a[0] as int, Value(b[1..]), Value(a[1..]), p);
      } else {
        assert a == [a[0]] + a[1..] && b == [b[0]] + b[1..];
      }
    }
  }

  function Point(h: Hash): Id {
    Pow256Twenty();
    Value(h)
  }

  /** is_in_interval as it is written, on hashes. */
  predicate IsInInterval(id: Hash, a: Hash, b: Hash) {
    if Memcmp(a, b) < 0 then Memcmp(id, a) > 0 && Memcmp(id, b) < 0
    else Memcmp(id, a) > 0 || Memcmp(id, b) < 0
  }

  /** should_transfer_file as it is written, on hashes. */
  predicate ShouldTransfer(file: Hash, newNode: Hash, current: Hash) {
    Memcmp(file, newNode) > 0 && Memcmp(file, current) <= 0
  }

  lemma MemcmpOfHashes(a: Hash, b: Hash)
    ensures Memcmp(a, b) < 0 <==> Point(a) < Point(b)
    ensures Memcmp(a, b) > 0 <==> Point(b) < Point(a)
  {
    MemcmpIsNumeric(a, b);
  }

  /** The byte-level test decides exactly the arc of the circle. */
  lemma IsInIntervalIsArc(id: Hash, a: Hash, b: Hash)
    ensures IsInInterval(id, a, b) <==> 0 < (Point(id) - Point(a)) % RING < Gap(Point(a), Point(b))
  {
    MemcmpOfHashes(a, b);
    MemcmpOfHashes(id, a);
    MemcmpOfHashes(id, b);
    IntervalIsArc(Point(id), Point(a), Point(b));
  }

  /** The transfer test is the half-open arc (new, current] only where that arc does not pass zero;
      otherwise it selects nothing. */
  lemma ShouldTransferIsArcWithoutWrap(file: Hash, newNode: Hash, current: Hash)
    ensures ShouldTransfer(file, newNode, current) <==>
            Point(newNode) < Point(current)
            && 0 < (Point(file) - Point(newNode)) % RING <= Gap(Point(newNode), Point(current))
  {
    MemcmpIsNumeric(file, newNode);
    MemcmpIsNumeric(file, current);
    DistIsModular(Point(newNode), Point(file));
  }
}
