/** 32-bit sequence numbers and the serial comparisons of stream.go, next to the
    unbounded indices they stand for. */
module Serial {

  const MODULUS := 0x1_0000_0000
  const HALF := 0x8000_0000

  type byte = x: int | 0 <= x < 0x100
  type u16 = x: int | 0 <= x < 0x1_0000
  type u32 = x: int | 0 <= x < 0x1_0000_0000

  /** Truncation of an unbounded index to a wire number. */
  function Wrap(x: int): u32 {
    x % MODULUS
  }

  /** Reinterpretation of an unsigned word as a signed one. */
  function Int32(d: u32): int {
    if d < HALF then d else d - MODULUS
  }

  predicate SeqLess(a: u32, b: u32) {
    Int32(Wrap(a - b)) < 0
  }

  predicate SeqLeq(a: u32, b: u32) {
    a == b || SeqLess(a, b)
  }

  predicate SeqGreater(a: u32, b: u32) {
    Int32(Wrap(a - b)) > 0
  }

  /** How far b is ahead of a. */
  function SeqDiff(a: u32, b: u32): u32 {
    Wrap(b - a)
  }

  /** The comparison of section 3.2 of RFC 1982, with SERIAL_BITS = 32. */
  predicate Rfc1982Less(a: u32, b: u32) {
    (a < b && b - a < HALF) || (a > b && a - b > HALF)
  }

  // ----- wire numbers of unbounded indices -----

  /** Serial comparison of two wire numbers answers exactly as comparison of the
      unbounded indices, in every epoch, while those lie less than 2^31 apart. */
  lemma SerialIsExact(i: int, j: int)
    requires -HALF < i - j < HALF
    ensures SeqLess(Wrap(i), Wrap(j)) <==> i < j
    ensures SeqLeq(Wrap(i), Wrap(j)) <==> i <= j
    ensures SeqGreater(Wrap(i), Wrap(j)) <==> i > j
    ensures Wrap(i) == Wrap(j) <==> i == j
  {
  }

  /** The forward distance recovers the index difference within one epoch. */
  lemma DiffIsExact(i: int, j: int)
    requires 0 <= j - i < MODULUS
    ensures SeqDiff(Wrap(i), Wrap(j)) == j - i
  {
  }

  lemma WrapAdd(i: int, d: int)
    ensures Wrap(Wrap(i) + d) == Wrap(i + d)
  {
  }

  /** How far it is from an unbounded number to the next one whose wire number is 0. */
  function FirstZero(base: int): nat {
    Wrap(-base)
  }

  lemma FirstZeroIs(base: int, i: nat)
    ensures Wrap(base + FirstZero(base)) == 0
    ensures Wrap(base + i) == 0 ==> FirstZero(base) <= i
  {
    var z := FirstZero(base);
    WrapAdd(-base, base);
    assert Wrap(base + z) == Wrap(0) == 0;
    if i < z {
      DiffIsExact(base + i, base + z);
      SelfDiff(0);
      hide Wrap, SeqDiff;
      assert Wrap(base + i) != Wrap(base + z);
    }
  }

  lemma SelfDiff(k: u32)
    ensures SeqDiff(k, k) == 0
  {
  }

  /** At distance 2^31 both numbers are less than each other: the code's comparison
      is antisymmetric exactly off that distance, and elsewhere it is the RFC's. */
  lemma AntisymmetricExactlyOffAntipode(a: u32, b: u32)
    ensures (SeqLess(a, b) && SeqLess(b, a)) <==> SeqDiff(a, b) == HALF
    ensures SeqLess(a, b) <==> (Rfc1982Less(a, b) || SeqDiff(a, b) == HALF)
    ensures SeqGreater(a, b) <==> Rfc1982Less(b, a)
  {
  }
}
