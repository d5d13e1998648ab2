/**
 * The retransmission arithmetic of the DHCPv6 client (src/dhcp/dhcp6.c) against section 15 of RFC 8415, every
 * 32-bit step written out, and the elapsed time of section 21.9.
 */
module Dhcp6Rt {
  import opened Words

  const RAND_K_MAX: u32 := 102
  const RAND_DIV: u32 := 1024
  const RAND_X_MAX: u32 := 0xFFFF_FFFF / RAND_K_MAX
  const CS_RECIP: nat := 10_737_419
  const CS_DIV: nat := 0x4000_0000
  const ELAPSED_MAX_MS: nat := 6_553_500
  const DRAW_TRIES: nat := 8

  // --- the draw --------------------------------------------------------------------

  /** Bitwise or. */
  function Or(a: nat, b: nat): (r: nat)
    ensures r >= a && r >= b && r <= a + b
    decreases a + b
  {
    if a == 0 && b == 0 then 0
    else 2 * Or(a / 2, b / 2) + (if a % 2 == 1 || b % 2 == 1 then 1 else 0)
  }

  /** Bitwise and. */
  function And(a: nat, b: nat): (r: nat)
    ensures r <= a && r <= b
    decreases a + b
  {
    if a == 0 && b == 0 then 0
    else 2 * And(a / 2, b / 2) + (if a % 2 == 1 && b % 2 == 1 then 1 else 0)
  }

  /** A value or-ed with itself shifted down by one place, then two, four, eight and sixteen. */
  function Smear(mask: nat, shift: nat): nat
    requires shift >= 2
    decreases 0x1_0001 - shift, mask
  {
    if shift > 0x1_0000 then mask
    else
      assert shift * shift > shift;
      Smear(Or(mask, mask / shift), shift * shift)
  }

  /** The word rotated right by five. */
  function Rotate5(r: u32): u32 {
    r / 32 + (r % 32) * 0x800_0000
  }

  /** The first of a word's rotations that is inside the limit once masked, or half the limit. */
  function DrawFrom(r: u32, mask: nat, limit: u32, tries: nat): (v: u32)
    ensures v <= limit
    decreases tries, r
  {
    if tries == 0 then limit / 2
    else if And(r, mask) <= limit then And(r, mask)
    else DrawFrom(Rotate5(r), mask, limit, tries - 1)
  }

  /** A value in 0 to `limit` (dhcp6_draw). */
  function Draw(rand: u32, limit: u32): (v: u32)
    ensures v <= limit
  {
    if limit == 0 then 0 else DrawFrom(rand, Smear(limit, 2), limit, DRAW_TRIES)
  }

  method TakeMask(limit: u32) returns (mask: nat)
    ensures mask == Smear(limit, 2)
  {
    mask := Or(limit, limit / 2);
    assert Smear(limit, 2) == Smear(mask, 4);
    mask := Or(mask, mask / 4);
    assert Smear(limit, 2) == Smear(mask, 0x10);
    mask := Or(mask, mask / 0x10);
    assert Smear(limit, 2) == Smear(mask, 0x100);
    mask := Or(mask, mask / 0x100);
    assert Smear(limit, 2) == Smear(mask, 0x1_0000);
    mask := Or(mask, mask / 0x1_0000);
  }

  /** The draw as the client takes it: the mask smeared step by step, then the rotations tried in turn. */
  method TakeDraw(rand: u32, limit: u32) returns (v: u32)
    ensures v == Draw(rand, limit) && v <= limit
  {
    if limit == 0 {
      return 0;
    }
    var mask := TakeMask(limit);
    var r, i := rand, 0;
    while i < DRAW_TRIES
      invariant i <= DRAW_TRIES
      invariant DrawFrom(r, mask, limit, DRAW_TRIES - i) == Draw(rand, limit)
    {
      v := And(r, mask);
      if v <= limit {
        return;
      }
      r := Rotate5(r);
      i := i + 1;
    }
    return limit / 2;
  }

  // --- one retransmission time -----------------------------------------------------

  /** What a random word comes to in section 15's RAND: a magnitude of k/1024, and a side. */
  datatype Jitter = Jitter(k: u32, up: bool)

  type Rand = j: Jitter | j.k <= RAND_K_MAX witness Jitter(0, false)

  /** The low bit of the word picks the side, the rest the magnitude. */
  function RandOf(word: u32): Rand {
    JitterOf(word, RAND_K_MAX)
  }

  function JitterOf(word: u32, most: u32): (j: Jitter)
    ensures j.k <= most
  {
    Jitter(Draw(word / 2, most), word % 2 == 1)
  }

  /** RAND's magnitude for `x`, taken from what the multiply carries (dhcp6_rand_mag). */
  function RandMag(x: u32, rand: Rand): u32 {
    Wrap32(Times(if x > RAND_X_MAX then RAND_X_MAX else x, rand.k)) / RAND_DIV
  }

  function Times(x: nat, k: nat): nat {
    x * k
  }

  /** RAND added on its side, both sides saturating (dhcp6_rand_apply). */
  function RandApply(base: u32, mag: u32, up: bool): u32 {
    if up then (if mag > 0xFFFF_FFFF - base then 0xFFFF_FFFF else base + mag)
    else if mag > base then 0 else base - mag
  }

  /** The first time of an exchange (dhcp6_first_rt). */
  function FirstRt(irt: u32, rand: Rand, positive: bool): u32 {
    FirstFrom(irt, RandMag(irt, rand), rand.up, positive)
  }

  function FirstFrom(irt: u32, mag: u32, up: bool, positive: bool): u32 {
    if positive then Add32(irt, if mag == 0 then 1 else mag) else RandApply(irt, mag, up)
  }

  /** Twice the last time and its RAND, before any bound. */
  function Doubled(prev: u32, rand: Rand): u32 {
    DoubledFrom(prev, RandMag(prev, rand), rand.up)
  }

  function DoubledFrom(prev: u32, mag: u32, up: bool): u32 {
    RandApply(Wrap32(2 * prev), mag, up)
  }

  /** A time bounded by MRT, itself with its RAND; an MRT of zero bounds nothing (dhcp6_next_rt). */
  function NextRt(prev: u32, mrt: u32, rand: Rand): u32 {
    var rt := Doubled(prev, rand);
    if mrt != 0 && rt > mrt then RandApply(mrt, RandMag(mrt, rand), rand.up) else rt
  }

  lemma ProductBound(x: nat, k: nat)
    requires k <= RAND_K_MAX
    ensures Times(x, k) <= 102 * x
  {
  }

  /** The product fits the word whatever `x`, and the magnitude is inside a tenth of it. */
  lemma RandMagIsWithinATenth(x: u32, rand: Rand)
    ensures Times(if x > RAND_X_MAX then RAND_X_MAX else x, rand.k) < TWO_32
    ensures 10 * RandMag(x, rand) <= x
  {
    var capped := if x > RAND_X_MAX then RAND_X_MAX else x;
    ProductBound(capped, rand.k);
    TenthOf(Times(capped, rand.k), capped);
  }

  lemma TenthOf(p: nat, x: u32)
    requires x <= RAND_X_MAX && p <= 102 * x
    ensures p < TWO_32 && 10 * (Wrap32(p) / RAND_DIV) <= x
  {
    assert 102 * RAND_X_MAX <= 0xFFFF_FFFF;
    assert Wrap32(p) == p;
  }

  /** Within a tenth of `of`, either side of `centre`. */
  predicate Tenth(v: int, centre: int, of: int) {
    -of <= 10 * (v - centre) <= of
  }

  /** Far enough from the top of the word that doubling and a tenth more still fit. */
  const DOUBLE_MAX: u32 := 2_000_000_000

  /** Section 15's first time: within a tenth of IRT, and for a Solicit strictly above it. */
  lemma FirstRtIsNearIrt(irt: u32, rand: Rand, positive: bool)
    requires 10 <= irt <= DOUBLE_MAX
    ensures Tenth(FirstRt(irt, rand, positive), irt, irt)
    ensures positive ==> FirstRt(irt, rand, positive) > irt
  {
    RandMagIsWithinATenth(irt, rand);
    FirstFromIsNear(irt, RandMag(irt, rand), rand.up, positive);
  }

  lemma FirstFromIsNear(irt: u32, mag: u32, up: bool, positive: bool)
    requires 10 <= irt <= DOUBLE_MAX && 10 * mag <= irt
    ensures Tenth(FirstFrom(irt, mag, up, positive), irt, irt)
    ensures positive ==> FirstFrom(irt, mag, up, positive) > irt
  {
  }

  /**
   * Section 15's next time, with no wrap in any step: within a tenth of the last around twice the last, and
   * under any MRT; or, where that would pass MRT, within a tenth of MRT around MRT.
   */
  lemma NextRtFollowsSection15(prev: u32, mrt: u32, rand: Rand)
    requires prev <= DOUBLE_MAX && mrt <= DOUBLE_MAX
    ensures Tenth(Doubled(prev, rand), 2 * prev, prev)
    ensures var rt := NextRt(prev, mrt, rand);
            if mrt != 0 && Doubled(prev, rand) > mrt then Tenth(rt, mrt, mrt)
            else Tenth(rt, 2 * prev, prev) && (mrt != 0 ==> rt <= mrt)
  {
    DoubledIsNearTwice(prev, rand);
    MrtIsNearItself(mrt, rand);
  }

  lemma DoubledIsNearTwice(prev: u32, rand: Rand)
    requires prev <= DOUBLE_MAX
    ensures Tenth(Doubled(prev, rand), 2 * prev, prev)
  {
    RandMagIsWithinATenth(prev, rand);
    DoubledFromIsNear(prev, RandMag(prev, rand), rand.up);
  }

  lemma DoubledFromIsNear(prev: u32, mag: u32, up: bool)
    requires 10 * mag <= prev <= DOUBLE_MAX
    ensures Tenth(DoubledFrom(prev, mag, up), 2 * prev, prev)
  {
  }

  lemma AppliedIsNear(base: u32, mag: u32, up: bool, of: u32)
    requires 10 * mag <= of <= base <= 2 * DOUBLE_MAX
    ensures Tenth(RandApply(base, mag, up), base, of)
  {
  }

  lemma MrtIsNearItself(mrt: u32, rand: Rand)
    requires mrt <= DOUBLE_MAX
    ensures Tenth(RandApply(mrt, RandMag(mrt, rand), rand.up), mrt, mrt)
  {
    RandMagIsWithinATenth(mrt, rand);
    AppliedIsNear(mrt, RandMag(mrt, rand), rand.up, mrt);
  }

  // --- elapsed time ----------------------------------------------------------------

  /** Hundredths of a second by a reciprocal multiply and shift, saturating (dhcp6_elapsed_cs). */
  function ElapsedCs(ms: nat): u16 {
    if ms >= ELAPSED_MAX_MS then 0xFFFF else ms * CS_RECIP / CS_DIV % TWO_16
  }

  /** The multiply and shift is the division for every time: the whole hundredths, up to 0xFFFF. */
  lemma ElapsedIsExact(ms: nat)
    ensures ElapsedCs(ms) == if ms / 100 > 0xFFFF then 0xFFFF else ms / 100
    ensures ms < ELAPSED_MAX_MS ==> ms * CS_RECIP < TWO_64
  {
    var q, r := ms / 100, ms % 100;
    if ms < ELAPSED_MAX_MS {
      var rest := q * (100 * CS_RECIP - CS_DIV) + r * CS_RECIP;
      assert ms * CS_RECIP == q * CS_DIV + rest && 0 <= rest < CS_DIV;
    }
  }
}
