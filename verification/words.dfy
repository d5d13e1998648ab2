/** The fixed-width integers the stack computes in, and the big-endian fields of its packets. */
module Words {

  const TWO_16: int := 0x1_0000
  const TWO_31: int := 0x8000_0000
  const TWO_32: int := 0x1_0000_0000
  const TWO_64: int := 0x1_0000_0000_0000_0000

  type u8 = x: int | 0 <= x < 0x100
  type u16 = x: int | 0 <= x < 0x1_0000
  type u32 = x: int | 0 <= x < 0x1_0000_0000
  type u64 = x: int | 0 <= x < 0x1_0000_0000_0000_0000

  /** What every entry of the stack reports. */
  datatype Status = OK | BUSY | ERR

  /** How many interfaces there are (IDEMIP_NETIF_COUNT). */
  const NETIF_COUNT: nat := 2

  datatype Option<+T> = None | Some(value: T)

  /** A mathematical integer reduced to a 32-bit word. */
  function Wrap32(x: int): u32 {
    x % TWO_32
  }

  /** The unsigned 32-bit difference `a - b`. */
  function Sub32(a: u32, b: u32): u32 {
    (a - b) % TWO_32
  }

  /** The unsigned 32-bit sum `a + b`. */
  function Add32(a: u32, b: u32): u32 {
    (a + b) % TWO_32
  }

  /** Whether a deadline is reached: the wrapped difference read as a span below half the range. */
  predicate Due(now: u32, deadline: u32) {
    Sub32(now, deadline) < TWO_31
  }

  /** The unsigned 64-bit sum `a + b`. */
  function Add64(a: u64, b: u64): u64 {
    if a + b < TWO_64 then a + b else a + b - TWO_64
  }

  function Rd16(p: seq<u8>): u16
    requires |p| >= 2
  {
    p[0] as int * 0x100 + p[1]
  }

  function Rd32(p: seq<u8>): u32
    requires |p| >= 4
  {
    ((p[0] as int * 0x100 + p[1]) * 0x100 + p[2]) * 0x100 + p[3]
  }

  function Wr16(v: u16): (p: seq<u8>)
    ensures |p| == 2 && Rd16(p) == v
  {
    [v / 0x100, v % 0x100]
  }

  function Wr32(v: u32): (p: seq<u8>)
    ensures |p| == 4 && Rd32(p) == v
  {
    [v / 0x100_0000, v / 0x1_0000 % 0x100, v / 0x100 % 0x100, v % 0x100]
  }

  /** The 32-bit difference of two wrapped readings is the true difference when that is below 2^32. */
  lemma WrappedDifference(a: int, b: int)
    requires 0 <= a - b < TWO_32
    ensures Sub32(Wrap32(a), Wrap32(b)) == a - b
  {
  }

  /** However much time passed, the wrapped difference of two readings never overstates it. */
  lemma WrappedDifferenceNeverOver(a: int, b: int)
    requires b <= a
    ensures Sub32(Wrap32(a), Wrap32(b)) <= a - b
  {
  }

  /** A true difference that is negative but small reads as one in the upper half of the range. */
  lemma WrappedNegativeDifference(a: int, b: int)
    requires 0 < b - a <= TWO_32
    ensures Sub32(Wrap32(a), Wrap32(b)) == if b - a == TWO_32 then 0 else TWO_32 - (b - a)
  {
  }

  /** The wrapped difference of two readings is the true one less its whole turns of the clock. */
  lemma TurnsUnseen(a: int, b: int)
    ensures Sub32(Wrap32(a), Wrap32(b)) == (a - b) % TWO_32
  {
    var turns := a / TWO_32 - b / TWO_32;
    assert Wrap32(a) - Wrap32(b) == (a - b) - TWO_32 * turns;
    WholeTurns(a - b, -turns);
  }

  /** So long after a time is over, to a clock that sees no whole turns and takes half of one for the past. */
  predicate Reached(base: int, span: int, at: int) {
    (at - base - span) % TWO_32 < TWO_31
  }

  lemma DueIsReached(base: int, span: int, at: int, now: u32, deadline: u32)
    requires now == Wrap32(at) && deadline == Wrap32(base + span)
    ensures Due(now, deadline) <==> Reached(base, span, at)
  {
    TurnsUnseen(at, base + span);
  }

  lemma WholeTurns(x: int, turns: int)
    ensures (x + TWO_32 * turns) % TWO_32 == x % TWO_32
  {
  }
}
