/**
 * The internet checksum (src/checksum.c) against section 1 of RFC 1071.
 *
 * The reference is the unbounded sum of the big-endian octet pairs. A canonical
 * 1's complement sum represents it: zero only for zero, otherwise its residue
 * modulo 65535 taken in 1..65535.
 */
module Checksum {
  import opened Words

  const ONES: int := 0xFFFF

  /** How the word path copies octets into a machine word. */
  datatype ByteOrder = LittleEndian | BigEndian

  /** Which of the two routes a build takes through a span. */
  datatype Route = Pairs | Words(bytes: nat, order: ByteOrder)

  predicate Supported(route: Route) {
    route.Words? ==> route.bytes == 2 || route.bytes == 4 || route.bytes == 8
  }

  /** Section 1: the pairs [A,B] +' [C,D] +' ..., an odd last octet read as [Z,0]. */
  function PairSum(p: seq<u8>): nat {
    if |p| == 0 then 0
    else if |p| == 1 then p[0] * 0x100
    else p[0] * 0x100 + p[1] + PairSum(p[2..])
  }

  /** The 1's complement sum of the unbounded total `n`. */
  function Canonical(n: nat): (r: u16)
    ensures Represents(r, n)
  {
    if n == 0 then 0 else 1 + (n - 1) % ONES
  }

  /** Congruent modulo 65535, and zero for zero alone. */
  predicate Represents(x: nat, n: nat) {
    x % ONES == n % ONES && (x == 0 <==> n == 0)
  }

  lemma RepresentativeIsUnique(x: nat, y: nat, n: nat)
    requires x <= ONES && y <= ONES
    requires Represents(x, n) && Represents(y, n)
    ensures x == y
  {
  }

  // --- the pair sum ----------------------------------------------------------

  lemma {:induction false} PairSumSplit(p: seq<u8>, k: nat)
    requires k <= |p| && k % 2 == 0
    ensures PairSum(p) == PairSum(p[..k]) + PairSum(p[k..])
  {
    if k == 0 {
      assert p[0..] == p;
    } else {
      PairSumSplit(p[2..], k - 2);
      assert p[2..][..k - 2] == p[..k][2..];
      assert p[2..][k - 2..] == p[k..];
    }
  }

  lemma {:induction false} PairSumBound(p: seq<u8>)
    ensures PairSum(p) <= (|p| + 1) / 2 * ONES
  {
    if |p| >= 2 {
      PairSumBound(p[2..]);
    }
  }

  // --- the words -------------------------------------------------------------

  /** The value a machine reads from octets copied into a word. */
  function WordValue(s: seq<u8>, order: ByteOrder): nat {
    if |s| == 0 then 0
    else match order
      case LittleEndian => s[0] + 0x100 * WordValue(s[1..], order)
      case BigEndian => WordValue(s[..|s| - 1], order) * 0x100 + s[|s| - 1]
  }

  /** What one unit of a host-order sum is worth against the pair sum: section 2 (B)'s byte swap. */
  function Weight(order: ByteOrder): nat {
    if order == LittleEndian then 0x100 else 1
  }

  lemma {:induction false} WordValueBound(s: seq<u8>, order: ByteOrder)
    requires |s| in {2, 4, 8}
    ensures WordValue(s, order) < WordRange(|s|)
  {
    match order
    case LittleEndian => WordValueBoundLittle(s);
    case BigEndian => WordValueBoundBig(s);
  }

  lemma {:induction false} WordValueBoundLittle(s: seq<u8>)
    ensures WordValue(s, LittleEndian) < Pow256(|s|)
  {
    if |s| > 0 {
      WordValueBoundLittle(s[1..]);
    }
  }

  lemma {:induction false} WordValueBoundBig(s: seq<u8>)
    ensures WordValue(s, BigEndian) < Pow256(|s|)
  {
    if |s| > 0 {
      WordValueBoundBig(s[..|s| - 1]);
    }
  }

  function Pow256(n: nat): nat {
    if n == 0 then 1 else 0x100 * Pow256(n - 1)
  }

  /** One past the largest value of a word of `bytes` octets. */
  function WordRange(bytes: nat): nat {
    Pow256(bytes)
  }

  lemma WordRangeValues()
    ensures WordRange(2) == 0x1_0000
    ensures WordRange(4) == 0x1_0000_0000
    ensures WordRange(8) == 0x1_0000_0000_0000_0000
  {
    assert Pow256(1) == 0x100;
    assert Pow256(3) == 0x100_0000;
    assert Pow256(5) == 0x100_0000_0000;
    assert Pow256(7) == 0x100_0000_0000_0000;
  }

  /** Adding a multiple of 65535 to a positive total changes no representative. */
  lemma AddMultiple(x: nat, y: nat, k: nat)
    requires x == y + ONES * k && (x == 0 <==> y == 0)
    ensures Represents(x, y) && Represents(y, x)
  {
  }

  /** A little-endian word is the byte-swapped pair sum of its octets, modulo 65535. */
  lemma {:induction false} LittleWordRepresents(s: seq<u8>)
    requires |s| % 2 == 0
    ensures Represents(0x100 * WordValue(s, LittleEndian), PairSum(s))
  {
    if |s| > 0 {
      var t := s[2..];
      LittleWordRepresents(t);
      assert s[1..][1..] == t;
      var a: int, b: int := s[0], s[1];
      var w, v := WordValue(s, LittleEndian), WordValue(t, LittleEndian);
      assert w == a + 0x100 * WordValue(s[1..], LittleEndian);
      assert w == a + 0x100 * b + 0x1_0000 * v;
      AddMultiple(0x100 * w, a * 0x100 + b + 0x100 * v, b + 0x100 * v);
      RepresentsSum(a * 0x100 + b, a * 0x100 + b, 0x100 * v, PairSum(t));
    }
  }

  /** A big-endian word is the pair sum of its octets, modulo 65535. */
  lemma {:induction false} BigWordRepresents(s: seq<u8>)
    requires |s| % 2 == 0
    ensures Represents(WordValue(s, BigEndian), PairSum(s))
  {
    if |s| > 0 {
      var k := |s| - 2;
      var t := s[..k];
      BigWordRepresents(t);
      PairSumSplit(s, k);
      assert s[..|s| - 1][..k] == t;
      var a: int, b: int := s[k], s[k + 1];
      assert s[k..] == [s[k], s[k + 1]];
      assert PairSum(s[k..]) == a * 0x100 + b;
      var w, v := WordValue(s, BigEndian), WordValue(t, BigEndian);
      assert w == WordValue(s[..|s| - 1], BigEndian) * 0x100 + b;
      assert w == 0x1_0000 * v + a * 0x100 + b;
      AddMultiple(w, v + (a * 0x100 + b), v);
      RepresentsSum(v, PairSum(t), a * 0x100 + b, a * 0x100 + b);
    }
  }

  lemma WordRepresents(s: seq<u8>, order: ByteOrder)
    requires |s| % 2 == 0
    ensures Represents(Weight(order) * WordValue(s, order), PairSum(s))
  {
    match order
    case LittleEndian => LittleWordRepresents(s);
    case BigEndian => BigWordRepresents(s);
  }

  lemma RepresentsSum(x: nat, m: nat, y: nat, n: nat)
    requires Represents(x, m) && Represents(y, n)
    ensures Represents(x + y, m + n)
  {
    ModulusAdds(x, m, y, n);
  }

  lemma ModulusAdds(x: nat, m: nat, y: nat, n: nat)
    requires x % ONES == m % ONES && y % ONES == n % ONES
    ensures (x + y) % ONES == (m + n) % ONES
  {
    Reduces(x, y);
    Reduces(m, n);
  }

  lemma Reduces(a: nat, b: nat)
    ensures (a + b) % ONES == (a % ONES + b % ONES) % ONES
  {
    WholeTurns(a % ONES + b % ONES, a / ONES + b / ONES);
  }

  lemma WholeTurns(x: int, turns: int)
    ensures (x + ONES * turns) % ONES == x % ONES
  {
  }

  // --- the routes ------------------------------------------------------------

  lemma FoldHalf16(x: nat)
    ensures Represents(x % 0x1_0000 + x / 0x1_0000, x)
  {
    AddMultiple(x, x % 0x1_0000 + x / 0x1_0000, x / 0x1_0000);
  }

  lemma FoldHalf32(x: nat)
    ensures Represents(x % 0x1_0000_0000 + x / 0x1_0000_0000, x)
  {
    AddMultiple(x, x % 0x1_0000_0000 + x / 0x1_0000_0000, 65537 * (x / 0x1_0000_0000));
  }

  /** Fold a word-wide sum to sixteen bits in the host's order (cksum_fold_word). */
  method FoldWord(word: nat, bytes: nat) returns (folded: u16)
    requires bytes in {2, 4, 8} && word < WordRange(bytes)
    ensures folded == Canonical(word)
  {
    WordRangeValues();
    var acc := word;
    if bytes == 8 {
      FoldHalf32(acc);
      acc := acc % 0x1_0000_0000 + acc / 0x1_0000_0000;
    }
    if bytes >= 4 {
      FoldHalf16(acc);
      acc := acc % 0x1_0000 + acc / 0x1_0000;
    }
    FoldHalf16(acc);
    var s := acc % 0x1_0000 + acc / 0x1_0000;
    FoldHalf16(s);
    s := s % 0x1_0000 + s / 0x1_0000;
    RepresentativeIsUnique(s, Canonical(word), word);
    return s;
  }

  /** Section 2 (B): the two octets of the sum change places. */
  function Swap16(x: u16): (r: u16)
    ensures Represents(r, 0x100 * x)
  {
    var r := x % 0x100 * 0x100 + x / 0x100;
    assert 0x100 * x == r + ONES * (x / 0x100);
    r
  }

  /** Section 1's end-around carry, as the accumulator applies it on every add. */
  function EndAroundAdd(acc: nat, w: nat, range: nat): nat
    requires range > 0
  {
    var low := (acc + w) % range;
    (low + if low < w then 1 else 0) % range
  }

  /** End-around addition is addition modulo one less than the word's range. */
  lemma EndAround(a: nat, w: nat, range: nat)
    requires range in {0x1_0000, 0x1_0000_0000, 0x1_0000_0000_0000_0000}
    requires a < range && w < range
    ensures EndAroundAdd(a, w, range) < range
    ensures Represents(EndAroundAdd(a, w, range), a + w)
  {
    var low := (a + w) % range;
    var next := EndAroundAdd(a, w, range);
    if a + w >= range {
      assert low == a + w - range;
      assert a + w == next + (range - 1);
      AddMultiple(a + w, next, (range - 1) / ONES);
    } else {
      assert low == a + w;
    }
  }

  lemma RepresentsScaled(x: nat, n: nat, order: ByteOrder)
    requires Represents(x, n)
    ensures Represents(Weight(order) * x, Weight(order) * n)
  {
    if order == LittleEndian {
      var turns := x / ONES - n / ONES;
      assert x == n + ONES * turns;
      assert 256 * x == 256 * n + ONES * (256 * turns);
      WholeTurns(256 * n, 256 * turns);
    }
  }

  /** One end-around addition keeps the running word a representative of the octets read so far. */
  lemma AddWord(p: seq<u8>, i: nat, bytes: nat, order: ByteOrder, acc: nat)
    requires bytes in {2, 4, 8} && i % 2 == 0 && i + bytes <= |p|
    requires acc < WordRange(bytes)
    requires Represents(Weight(order) * acc, PairSum(p[..i]))
    ensures var next := EndAroundAdd(acc, WordValue(p[i..i + bytes], order), WordRange(bytes));
            next < WordRange(bytes) && Represents(Weight(order) * next, PairSum(p[..i + bytes]))
  {
    WordRangeValues();
    var s := p[i..i + bytes];
    WordValueBound(s, order);
    var w := WordValue(s, order);
    EndAround(acc, w, WordRange(bytes));
    RepresentsScaled(EndAroundAdd(acc, w, WordRange(bytes)), acc + w, order);
    WordRepresents(s, order);
    SplitHere(p, i, bytes);
    RepresentsSum(Weight(order) * acc, PairSum(p[..i]), Weight(order) * w, PairSum(s));
  }

  lemma SplitHere(p: seq<u8>, i: nat, n: nat)
    requires i % 2 == 0 && i + n <= |p|
    ensures PairSum(p[..i + n]) == PairSum(p[..i]) + PairSum(p[i..i + n])
  {
    PairSumSplit(p[..i + n], i);
    assert p[..i + n][..i] == p[..i] && p[..i + n][i..] == p[i..i + n];
  }

  /** How much of a span of `n` octets goes in whole words. */
  function WholeWords(n: nat, bytes: nat): (k: nat)
    requires bytes > 0
    ensures k <= n < k + bytes
    decreases n
  {
    if n < bytes then 0 else bytes + WholeWords(n - bytes, bytes)
  }

  lemma {:induction false} WholeWordsEven(n: nat, bytes: nat)
    requires bytes in {2, 4, 8}
    ensures WholeWords(n, bytes) % 2 == 0
    decreases n
  {
    if n >= bytes {
      WholeWordsEven(n - bytes, bytes);
    }
  }

  /** One word more of a span whose rest is at least a word. */
  lemma {:induction false} WordMore(n: nat, i: nat, bytes: nat)
    requires bytes > 0 && i <= n && WholeWords(i, bytes) == i
    ensures i + bytes <= n ==> WholeWords(i + bytes, bytes) == i + bytes
    ensures n < i + bytes ==> WholeWords(n, bytes) == i
    decreases i
  {
    if i > 0 {
      WordMore(n - bytes, i - bytes, bytes);
    }
  }

  /** The whole words of a span, summed with end-around carry and brought to network order. */
  method SumWords(p: seq<u8>, bytes: nat, order: ByteOrder) returns (folded: u16, i: nat)
    requires bytes in {2, 4, 8} && bytes <= |p|
    ensures i == WholeWords(|p|, bytes)
    ensures folded == Canonical(PairSum(p[..i]))
  {
    WordRangeValues();
    var range := WordRange(bytes);
    var acc := 0;
    i := 0;
    while i + bytes <= |p|
      invariant i <= |p| && WholeWords(i, bytes) == i
      invariant acc < range
      invariant Represents(Weight(order) * acc, PairSum(p[..i]))
    {
      WordMore(|p|, i, bytes);
      WholeWordsEven(i, bytes);
      AddWord(p, i, bytes, order, acc);
      acc := EndAroundAdd(acc, WordValue(p[i..i + bytes], order), range);
      i := i + bytes;
    }
    WordMore(|p|, i, bytes);
    folded := FoldWord(acc, bytes);
    RepresentsScaled(folded, acc, order);
    if order == LittleEndian {
      folded := Swap16(folded);
    }
    RepresentativeIsUnique(folded, Canonical(PairSum(p[..i])), PairSum(p[..i]));
  }

  /** The reference: the running sum with the span carried into it, in canonical form. */
  function Sum(sum: nat, p: seq<u8>): u16 {
    Canonical(sum + PairSum(p))
  }

  /** The pair-only route adds in a 32-bit word, so its total is taken modulo 2^32 before the fold. */
  function PairsOnly(sum: u32, p: seq<u8>): u16 {
    Canonical(Wrap32(sum + PairSum(p)))
  }

  /** Five canonical terms above this sum could pass the 32-bit word of the accumulator. */
  const SUM_MAX: int := TWO_32 - 1 - 5 * ONES

  /** The two folds that end cksum_accum and begin cksum_final. */
  method FoldTwice(sum: u32) returns (r: u16)
    ensures r == Canonical(sum)
  {
    FoldHalf16(sum);
    var s := sum % 0x1_0000 + sum / 0x1_0000;
    FoldHalf16(s);
    s := s % 0x1_0000 + s / 0x1_0000;
    RepresentativeIsUnique(s, Canonical(sum), sum);
    return s;
  }

  /** The pair loop and the odd octet, from offset `head` to the end of the span. */
  method SumTail(base: u32, p: seq<u8>, head: nat) returns (sum: u32)
    requires head <= |p|
    ensures sum == Wrap32(base + PairSum(p[head..]))
  {
    var i := head;
    sum := base;
    while i + 1 < |p|
      invariant head <= i <= |p| && (i - head) % 2 == 0
      invariant sum == Wrap32(base + PairSum(p[head..i]))
    {
      var pair: int := p[i] as int * 0x100 + p[i + 1];
      ExtendPair(p, head, i);
      AddWrapped(base + PairSum(p[head..i]), pair);
      sum := Add32(sum, pair);
      i := i + 2;
    }
    if i < |p| {
      var last: int := p[i] as int * 0x100;
      ExtendOdd(p, head, i);
      AddWrapped(base + PairSum(p[head..i]), last);
      sum := Add32(sum, last);
      i := i + 1;
    }
    assert p[head..i] == p[head..];
  }

  /** Accumulate a span into a running sum (cksum_accum), on either route. */
  method Accum(route: Route, start: u32, p: seq<u8>) returns (r: u16)
    requires Supported(route)
    ensures r == if route.Pairs? then PairsOnly(start, p) else Canonical(Wrap32(WordTotal(start, p, route.bytes)))
    ensures route.Words? && start <= SUM_MAX ==> r == Sum(start, p)
  {
    var sum, i := SumHead(route, start, p);
    var total := SumTail(sum, p, i);
    r := FoldTwice(total);
    if route.Pairs? {
      assert p[0..] == p;
    } else {
      AddWrapped(start, Canonical(PairSum(p[..i])));
      WrapTwice(start + Canonical(PairSum(p[..i])), PairSum(p[i..]));
      if start <= SUM_MAX {
        WordRouteExact(start, p, route.bytes);
      }
    }
  }

  lemma WrapTwice(a: nat, b: nat)
    ensures Wrap32(Wrap32(a) + b) == Wrap32(a + b)
  {
  }

  /** What the word route adds up: the running sum, the folded words, and the pairs of the octets left. */
  function WordTotal(start: u32, p: seq<u8>, bytes: nat): nat
    requires bytes in {2, 4, 8}
  {
    var k := WholeWords(|p|, bytes);
    start + Canonical(PairSum(p[..k])) + PairSum(p[k..])
  }

  /** The words of the span, where the route has them, folded and added to the running sum. */
  method SumHead(route: Route, start: u32, p: seq<u8>) returns (sum: u32, i: nat)
    requires Supported(route)
    ensures route.Pairs? ==> i == 0 && sum == start
    ensures route.Words? ==> i == WholeWords(|p|, route.bytes) && sum == Wrap32(start + Canonical(PairSum(p[..i])))
  {
    sum, i := start, 0;
    if route.Words? && |p| >= route.bytes {
      var folded;
      folded, i := SumWords(p, route.bytes, route.order);
      sum := Add32(sum, folded);
    } else {
      assert p[..0] == [];
    }
  }

  lemma AddWrapped(a: nat, b: u32)
    ensures Add32(Wrap32(a), b) == Wrap32(a + b)
  {
  }

  lemma ExtendPair(p: seq<u8>, k: nat, i: nat)
    requires k <= i && i + 1 < |p| && (i - k) % 2 == 0
    ensures PairSum(p[k..i + 2]) == PairSum(p[k..i]) + p[i] as int * 0x100 + p[i + 1]
  {
    var s := p[k..i + 2];
    PairSumSplit(s, i - k);
    assert s[..i - k] == p[k..i] && s[i - k..] == [p[i], p[i + 1]];
  }

  lemma ExtendOdd(p: seq<u8>, k: nat, i: nat)
    requires k <= i < |p| && (i - k) % 2 == 0
    ensures PairSum(p[k..i + 1]) == PairSum(p[k..i]) + p[i] as int * 0x100
  {
    var s := p[k..i + 1];
    PairSumSplit(s, i - k);
    assert s[..i - k] == p[k..i] && s[i - k..] == [p[i]];
  }

  /**
   * The word route reports the true sum exactly when what it adds up fits its 32-bit word, as it does from every
   * running sum up to SUM_MAX.
   */
  lemma WordRouteExact(start: u32, p: seq<u8>, bytes: nat)
    requires bytes in {2, 4, 8}
    ensures Canonical(Wrap32(WordTotal(start, p, bytes))) == Sum(start, p) <==> WordTotal(start, p, bytes) < TWO_32
    ensures start <= SUM_MAX ==> WordTotal(start, p, bytes) < TWO_32
  {
    var k := WholeWords(|p|, bytes);
    WholeWordsEven(|p|, bytes);
    var front, back := PairSum(p[..k]), PairSum(p[k..]);
    PairSumSplit(p, k);
    PairSumBound(p[k..]);
    ThreeTerms(start, front, back);
    WrapExact(WordTotal(start, p, bytes));
  }

  lemma ThreeTerms(start: nat, front: nat, back: nat)
    ensures Canonical(start + Canonical(front) + back) == Canonical(start + (front + back))
  {
    RepresentsSum(Canonical(front), front, start + back, start + back);
    RepresentativeIsUnique(Canonical(start + Canonical(front) + back), Canonical(start + (front + back)),
                           start + (front + back));
  }

  /** Fold and complement (cksum_final). */
  method Final(sum: u32) returns (field: u16)
    ensures field == ONES - Canonical(sum)
  {
    var s := FoldTwice(sum);
    return ONES - s;
  }

  /** The checksum over one span (cksum_over). */
  method Over(route: Route, p: seq<u8>) returns (field: u16)
    requires Supported(route)
    ensures route.Words? || |p| <= PairsMax(0) ==> field == Field(p)
  {
    var sum := Accum(route, 0, p);
    if |p| <= PairsMax(0) {
      PairsOnlyExactUpTo(0, p);
    }
    field := Final(sum);
    CanonicalIdempotent(PairSum(p));
  }

  /** What section 1 puts in the header: the complement of the canonical sum. */
  function Field(p: seq<u8>): u16 {
    ONES - Sum(0, p)
  }

  lemma CanonicalIdempotent(n: nat)
    ensures Canonical(Canonical(n)) == Canonical(n)
  {
  }

  /** True when a received span checks out (cksum_valid): the sum is a non-zero multiple of 65535. */
  method Valid(route: Route, p: seq<u8>) returns (ok: bool)
    requires Supported(route)
    ensures route.Words? || |p| <= PairsMax(0) ==>
              ok == (PairSum(p) != 0 && PairSum(p) % ONES == 0)
  {
    var field := Over(route, p);
    ok := field == 0;
    FieldZero(p);
  }

  lemma FieldZero(p: seq<u8>)
    ensures Field(p) == 0 <==> PairSum(p) != 0 && PairSum(p) % ONES == 0
  {
    var n := PairSum(p);
    assert Represents(Canonical(n), n);
  }

  // --- what the sum promises ---------------------------------------------------

  /** Two calls over an even-length prefix and the rest report what one call over the whole does. */
  lemma SumOfHalves(sum: u16, a: seq<u8>, b: seq<u8>)
    requires |a| % 2 == 0
    ensures Sum(Sum(sum, a), b) == Sum(sum, a + b)
  {
    PairSumSplit(a + b, |a|);
    assert (a + b)[..|a|] == a && (a + b)[|a|..] == b;
    var inner := Sum(sum, a);
    RepresentsSum(inner, sum + PairSum(a), PairSum(b), PairSum(b));
    RepresentativeIsUnique(Sum(inner, b), Sum(sum, a + b), sum + PairSum(a + b));
  }

  /** The span with the 16-bit field at offset `k` overwritten. */
  function WithField(p: seq<u8>, k: nat, field: u16): seq<u8>
    requires k + 1 < |p|
  {
    p[k := field / 0x100][k + 1 := field % 0x100]
  }

  /** The pair sum moves by exactly what an even-offset field moves by. */
  lemma PairSumWithField(p: seq<u8>, k: nat, field: u16)
    requires k + 1 < |p| && k % 2 == 0 && p[k] == 0 && p[k + 1] == 0
    ensures PairSum(WithField(p, k, field)) == PairSum(p) + field
  {
    var q := WithField(p, k, field);
    PairSumSplit(p, k);
    PairSumSplit(q, k);
    assert q[..k] == p[..k];
    assert q[k..][2..] == p[k..][2..];
  }

  /** Writing the computed checksum into a zeroed even-offset field always makes the span valid. */
  lemma StampedSpanIsValid(p: seq<u8>, k: nat)
    requires k + 1 < |p| && k % 2 == 0 && p[k] == 0 && p[k + 1] == 0
    ensures Field(WithField(p, k, Field(p))) == 0
  {
    PairSumWithField(p, k, Field(p));
    FieldZero(WithField(p, k, Field(p)));
    assert Represents(Sum(0, p), PairSum(p));
  }

  /** The field that makes a span check out is the computed one, or the other representative of zero. */
  lemma FieldIsDetermined(p: seq<u8>, k: nat, field: u16)
    requires k + 1 < |p| && k % 2 == 0 && p[k] == 0 && p[k + 1] == 0
    requires PairSum(p) != 0
    ensures Field(WithField(p, k, field)) == 0 <==> field % ONES == Field(p) % ONES
  {
    PairSumWithField(p, k, field);
    FieldZero(WithField(p, k, field));
    ComplementCancels(PairSum(p), field);
  }

  lemma ComplementCancels(n: nat, f: u16)
    ensures (n + f) % ONES == 0 <==> f % ONES == (ONES - Canonical(n)) % ONES
  {
    var c := Canonical(n);
    assert (n + f) % ONES == (c + f) % ONES;
  }

  // --- the pair-only route and its 32-bit accumulator ----------------------------

  /** The longest span the pair-only route always carries from a running sum: 131074 octets from zero. */
  function PairsMax(sum: u16): nat {
    if sum == 0 then 131074 else if sum < 0x100 then 131073 else 131072
  }

  /** Exactly when the 32-bit accumulator of the pair-only route reports the true sum. */
  lemma PairsOnlyExact(sum: u32, p: seq<u8>)
    ensures PairsOnly(sum, p) == Sum(sum, p) <==>
              var total := sum + PairSum(p);
              total < TWO_32 || (total / TWO_32 % ONES == 0 && total % TWO_32 != 0)
  {
    WrapExact(sum + PairSum(p));
  }

  lemma WrapExact(total: nat)
    ensures Canonical(total % TWO_32) == Canonical(total) <==>
              total < TWO_32 || (total / TWO_32 % ONES == 0 && total % TWO_32 != 0)
  {
    var low, carries := total % TWO_32, total / TWO_32;
    AddMultiple(total, low + carries, 65537 * carries);
    SameResidue(low, carries);
    if low > 0 && total > 0 {
      SameCanonical(low, total);
    }
  }

  lemma SameResidue(low: nat, carries: nat)
    ensures low % ONES == (low + carries) % ONES <==> carries % ONES == 0
  {
  }

  lemma SameCanonical(m: nat, n: nat)
    requires m > 0 && n > 0
    ensures Canonical(m) == Canonical(n) <==> m % ONES == n % ONES
  {
    assert Represents(Canonical(m), m) && Represents(Canonical(n), n);
    if m % ONES == n % ONES {
      RepresentativeIsUnique(Canonical(m), Canonical(n), m);
    }
  }

  lemma PairsOnlyExactUpTo(sum: u16, p: seq<u8>)
    requires |p| <= PairsMax(sum)
    ensures PairsOnly(sum, p) == Sum(sum, p)
  {
    PairSumMost(p);
    MostFits(sum, |p|);
    PairsOnlyExact(sum, p);
  }

  lemma MostFits(sum: u16, n: nat)
    ensures sum + Most(n) < TWO_32 <==> n <= PairsMax(sum)
  {
    var pairs := n / 2;
    assert n == 2 * pairs || n == 2 * pairs + 1;
  }

  /** The most a span of some length comes to. */
  function Most(n: nat): nat {
    n / 2 * ONES + n % 2 * 0xFF00
  }

  lemma {:induction false} PairSumMost(p: seq<u8>)
    ensures PairSum(p) <= Most(|p|)
  {
    if |p| >= 2 {
      PairSumMost(p[2..]);
    }
  }

  /** The bound is tight from every running sum: at each greater length some span is summed wrong. */
  lemma PairsOnlyFailsPast(sum: u16, n: nat)
    requires n > PairsMax(sum)
    ensures exists p: seq<u8> :: |p| == n && PairsOnly(sum, p) != Sum(sum, p)
  {
    var k := PairsMax(sum) + 1;
    var ones: seq<u8> := seq(k, _ => 0xFF);
    var rest: seq<u8> := seq(n - k, _ => 0);
    var p := ones + rest;
    OnesThenZeros(ones, rest);
    MostFits(sum, k);
    PairsOnlyExact(sum, p);
    assert |p| == n && PairsOnly(sum, p) != Sum(sum, p);
  }

  lemma {:induction false} OnesThenZeros(ones: seq<u8>, rest: seq<u8>)
    requires forall i :: 0 <= i < |ones| ==> ones[i] == 0xFF
    requires forall i :: 0 <= i < |rest| ==> rest[i] == 0
    ensures PairSum(ones + rest) == Most(|ones|)
    decreases |ones|
  {
    var p := ones + rest;
    if |ones| >= 2 {
      assert p[2..] == ones[2..] + rest;
      OnesThenZeros(ones[2..], rest);
    } else if |ones| == 1 {
      if rest != [] {
        assert p[2..] == rest[1..];
        Zeros(rest[1..]);
      }
    } else {
      assert p == rest;
      Zeros(rest);
    }
  }

  lemma {:induction false} Zeros(p: seq<u8>)
    requires forall i :: 0 <= i < |p| ==> p[i] == 0
    ensures PairSum(p) == 0
  {
    if |p| >= 2 {
      Zeros(p[2..]);
    }
  }
}
