/** The self-tuning pad at the coarse grade (src/time_determinism_coarse.c). */
module Pad {
  import opened Words

  const PAD_RANGE: int := 0x4000_0000
  const PAD_MAX: int := 0x3FFF_FFFF

  const UNSET: u32 := 0
  const EARLY: u32 := 1
  const MET: u32 := 2
  const OVER: u32 := 3

  /** The pad is the low thirty bits of the word a function remembers. */
  function Ticks(word: u32): u32 {
    word % PAD_RANGE
  }

  /** The state the last pass ended in is the two bits above it. */
  function Last(word: u32): u32 {
    word / PAD_RANGE
  }

  /** What a pass has cost: the difference of two readings, so a wrap between them subtracts out. */
  function Spent(reading: u32, stamp: u32): u32 {
    Sub32(reading, stamp)
  }

  /** Where a pass that cost `spent` stands against the pad (td_pad_state). */
  function PadState(word: u32, spent: u32): u32 {
    var want := Ticks(word);
    if want == 0 then UNSET
    else if spent < want then EARLY
    else if spent == want then MET
    else OVER
  }

  /** One step of a pad inside [lo, hi], taken only when a state repeats (td_tune). */
  function Tune(word: u32, state: u32, lo: u32, hi: u32): u32
    requires state <= OVER
  {
    var ms := Ticks(word);
    var settled := Last(word) == state;
    var up := if settled && state == OVER && ms < hi then 1 else 0;
    var down := if settled && state == EARLY && ms > lo then 1 else 0;
    state * PAD_RANGE + (ms + up - down) % PAD_RANGE
  }

  /** One pass of a function whose work costs `c`. */
  function Pass(word: u32, c: u32, lo: u32, hi: u32): u32 {
    Tune(word, PadState(word, c), lo, hi)
  }

  function Passes(word: u32, c: u32, lo: u32, hi: u32, n: nat): u32
    decreases n
  {
    if n == 0 then word else Passes(Pass(word, c, lo, hi), c, lo, hi, n - 1)
  }

  /** Where the bounds let a pad for cost `c` settle. */
  function Target(c: u32, lo: u32, hi: u32): u32 {
    if c < lo then lo else if c > hi then hi else c
  }

  function Distance(a: int, b: int): nat {
    if a < b then b - a else a - b
  }

  /** The pads and bounds a function can be tuned from: the cost or the pad lies between the bounds. */
  predicate Tunable(word: u32, c: u32, lo: u32, hi: u32) {
    && 1 <= lo <= hi <= PAD_MAX
    && 1 <= Ticks(word)
    && (lo <= c <= hi || lo <= Ticks(word) <= hi)
  }

  /** Passes still owed: the distance, and one more while the remembered state does not agree. */
  function Owed(word: u32, c: u32, lo: u32, hi: u32): nat {
    var d := Distance(Ticks(word), Target(c, lo, hi));
    if d == 0 then 0 else d + if Last(word) == PadState(word, c) then 0 else 1
  }

  /** Every pass takes one off what is owed, and a settled pad stays where it is. */
  lemma PassPaysOne(word: u32, c: u32, lo: u32, hi: u32)
    requires Tunable(word, c, lo, hi)
    ensures Tunable(Pass(word, c, lo, hi), c, lo, hi)
    ensures var before, after := Owed(word, c, lo, hi), Owed(Pass(word, c, lo, hi), c, lo, hi);
            after == if before == 0 then 0 else before - 1
  {
    PassIs(word, c, lo, hi);
  }

  /** A pad and a state read back out of the word they are packed in. */
  lemma Unpacked(state: u32, ticks: u32)
    requires state <= OVER && ticks < PAD_RANGE
    ensures var word := state * PAD_RANGE + ticks; word < TWO_32 && Ticks(word) == ticks && Last(word) == state
  {
  }

  /** What one pass leaves: its state, and a pad moved by one or not at all. */
  lemma PassIs(word: u32, c: u32, lo: u32, hi: u32)
    requires 1 <= lo <= hi <= PAD_MAX && 1 <= Ticks(word)
    ensures var pad, state, next := Ticks(word), PadState(word, c), Pass(word, c, lo, hi);
            var settled := Last(word) == state;
            && Last(next) == state
            && Ticks(next) == if settled && c > pad && pad < hi then pad + 1
                              else if settled && c < pad && pad > lo then pad - 1 else pad
  {
    var pad, state := Ticks(word), PadState(word, c);
    var settled := Last(word) == state;
    var next := if settled && c > pad && pad < hi then pad + 1
                else if settled && c < pad && pad > lo then pad - 1 else pad;
    Unpacked(state, next);
  }

  lemma {:induction false} PassesPay(word: u32, c: u32, lo: u32, hi: u32, n: nat)
    requires Tunable(word, c, lo, hi)
    requires n >= Owed(word, c, lo, hi)
    ensures Ticks(Passes(word, c, lo, hi, n)) == Target(c, lo, hi)
    decreases n
  {
    if n > 0 {
      PassPaysOne(word, c, lo, hi);
      PassesPay(Pass(word, c, lo, hi), c, lo, hi, n - 1);
    }
  }

  /** A fixed cost inside the bounds is reached within |pad - c| + 1 passes and kept ever after. */
  lemma ConvergesOnCost(word: u32, c: u32, lo: u32, hi: u32, n: nat)
    requires 1 <= lo <= c <= hi <= PAD_MAX && Ticks(word) >= 1
    requires n >= Distance(Ticks(word), c) + 1
    ensures Ticks(Passes(word, c, lo, hi, n)) == c
  {
    PassesPay(word, c, lo, hi, n);
  }

  /** A cost outside the bounds settles at the nearer bound, for a pad that starts between them. */
  lemma ConvergesOnBound(word: u32, c: u32, lo: u32, hi: u32, n: nat)
    requires 1 <= lo <= Ticks(word) <= hi <= PAD_MAX
    requires n >= Distance(Ticks(word), Target(c, lo, hi)) + 1
    ensures Ticks(Passes(word, c, lo, hi, n)) == Target(c, lo, hi)
  {
    PassesPay(word, c, lo, hi, n);
  }

  /** The bound is exact: with the state not yet agreeing, one pass fewer is not enough. */
  lemma {:induction false} NotSooner(word: u32, c: u32, lo: u32, hi: u32, n: nat)
    requires Tunable(word, c, lo, hi)
    requires n < Owed(word, c, lo, hi)
    ensures Ticks(Passes(word, c, lo, hi, n)) != Target(c, lo, hi)
    decreases n
  {
    if n > 0 {
      PassPaysOne(word, c, lo, hi);
      NotSooner(Pass(word, c, lo, hi), c, lo, hi, n - 1);
    }
  }

  /** Once settled, a single outlying pass moves nothing, nor does the pass that follows it. */
  lemma OutlierMovesNothing(word: u32, c: u32, outlier: u32, lo: u32, hi: u32)
    requires 1 <= lo <= c <= hi <= PAD_MAX
    requires Ticks(word) == c && Last(word) == MET
    ensures Ticks(Pass(word, outlier, lo, hi)) == c
    ensures var after := Pass(Pass(word, outlier, lo, hi), c, lo, hi);
            Ticks(after) == c && Last(after) == MET
  {
  }

  /** The same outlier twice running is no longer an outlier: the pad takes one step towards it. */
  lemma RepeatedOutlierMovesOne(word: u32, c: u32, outlier: u32, lo: u32, hi: u32)
    requires 1 <= lo <= c <= hi <= PAD_MAX
    requires Ticks(word) == c && Last(word) == MET && outlier != c
    ensures var twice := Ticks(Pass(Pass(word, outlier, lo, hi), outlier, lo, hi));
            twice == if outlier > c then (if c < hi then c + 1 else c) else (if c > lo then c - 1 else c)
  {
    var once := Pass(word, outlier, lo, hi);
    assert Ticks(once) == c && Last(once) == PadState(word, outlier);
  }

  /** The steps read only differences, so a clock that wraps inside a pass changes nothing. */
  lemma SpentAcrossWrap(stamp: nat, cost: u32)
    ensures Spent(Wrap32(stamp + cost), Wrap32(stamp)) == cost
  {
    WrappedDifference(stamp + cost, stamp);
  }
}
