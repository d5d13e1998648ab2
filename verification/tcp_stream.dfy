/**
 * Out-of-order TCP text held and delivered again (src/core/dispatch.c over the queue of src/tcp/tcp_pcb.c), on
 * 32-bit sequence numbers, against the octets of one sender's stream.
 */
module TcpStream {
  import opened Words

  const OOSEQ_SEGS: nat := 4

  /** A held segment: where its text begins in sequence space, and where it lies in a receive descriptor. */
  datatype Seg = Seg(seq_: u32, desc: u16, offset: u16, len: u16)

  /** The variables of a connection the delivery uses, its queue a list. */
  datatype Pcb = Pcb(rcvNxt: u32, sndNxt: u32, queue: seq<Seg>)

  /** What one delivery hands up: nothing, a descriptor alone, or text in one. */
  datatype Given = Nothing | Spent(desc: u16) | Text(desc: u16, seq_: u32, offset: u16, len: u16)

  /** The head of the queue, once RCV.NXT has reached it (idemip_dispatch_tcp_deliver). */
  function Deliver(p: Pcb): (Pcb, Given) {
    if p.queue == [] then (p, Nothing)
    else
      var head := p.queue[0];
      var gap := Sub32(head.seq_, p.rcvNxt);
      if gap != 0 && gap < TWO_31 then (p, Nothing)
      else
        var skip := Sub32(p.rcvNxt, head.seq_);
        if skip < head.len then
          (p.(rcvNxt := Add32(p.rcvNxt, head.len - skip), queue := p.queue[1..]),
           Text(head.desc, p.rcvNxt, (head.offset + skip) % TWO_16, head.len - skip))
        else (p.(queue := p.queue[1..]), Spent(head.desc))
  }

  /** Where a segment goes: before the first that begins further past RCV.NXT (idemip_tcp_pcb_oos_alloc). */
  function Place(queue: seq<Seg>, s: Seg, edge: u32): (k: nat)
    ensures k <= |queue|
  {
    if queue == [] || Sub32(s.seq_, edge) < Sub32(queue[0].seq_, edge) then 0 else 1 + Place(queue[1..], s, edge)
  }

  function Hold(p: Pcb, s: Seg): (Pcb, Status) {
    if s.len == 0 then (p, ERR)
    else if |p.queue| >= OOSEQ_SEGS then (p, BUSY)
    else
      var k := Place(p.queue, s, p.rcvNxt);
      (p.(queue := p.queue[..k] + [s] + p.queue[k..]), OK)
  }

  // --- the stream ------------------------------------------------------------------

  /** What a connection is held against: the octets sent, the first's sequence number, and the receive buffers. */
  datatype World = World(isn: u32, stream: seq<u8>, frames: map<u16, seq<u8>>)

  /** A segment's octets in its buffer are the stream's at its place. */
  ghost predicate Agrees(w: World, at: nat, s: Seg) {
    && s.len > 0 && s.seq_ == Wrap32(w.isn + at) && at + s.len <= |w.stream|
    && s.desc in w.frames && s.offset + s.len <= |w.frames[s.desc]| < TWO_16
    && w.frames[s.desc][s.offset..s.offset + s.len] == w.stream[at..at + s.len]
  }

  /** A connection in true positions: RCV.NXT, where each held segment begins, and the octets handed up so far. */
  datatype Conn = Conn(p: Pcb, nxt: nat, at: seq<nat>, got: seq<u8>)

  /** Within half the sequence space of RCV.NXT. */
  predicate InWindow(at: nat, nxt: nat) {
    nxt - TWO_31 <= at < nxt + TWO_31
  }

  ghost predicate Inv(w: World, base: nat, c: Conn) {
    && AllAgree(w, c.at, c.p.queue)
    && base <= c.nxt <= |w.stream| && c.p.rcvNxt == Wrap32(w.isn + c.nxt)
    && c.got == w.stream[base..c.nxt]
  }

  /** The octets a delivery hands up. */
  function Octets(w: World, g: Given): seq<u8> {
    if g.Text? && g.desc in w.frames && g.offset + g.len <= |w.frames[g.desc]|
    then w.frames[g.desc][g.offset..g.offset + g.len]
    else []
  }

  datatype Op = DeliverOp | HoldOp(s: Seg, at: nat) | ArriveOp(len: nat)

  /** One step: a delivery, a segment held, or text that arrived in order and went straight up. */
  function Step(w: World, c: Conn, op: Op): Conn
    requires Allowed(w, c, op) && |c.at| == |c.p.queue|
  {
    match op
    case DeliverOp =>
      var (p, g) := Deliver(c.p);
      var text := Octets(w, g);
      Conn(p, c.nxt + |text|, if g.Nothing? then c.at else c.at[1..], c.got + text)
    case HoldOp(s, at) =>
      var (p, status) := Hold(c.p, s);
      var k := Place(c.p.queue, s, c.p.rcvNxt);
      Conn(p, c.nxt, if status == OK then c.at[..k] + [at] + c.at[k..] else c.at, c.got)
    case ArriveOp(len) =>
      Conn(c.p.(rcvNxt := Add32(c.p.rcvNxt, len)), c.nxt + len, c.at, c.got + w.stream[c.nxt..c.nxt + len])
  }

  /** What the sender and the receive window promise: text agrees with the stream, a head is not half a space away. */
  ghost predicate Allowed(w: World, c: Conn, op: Op) {
    match op
    case DeliverOp => c.at != [] ==> InWindow(c.at[0], c.nxt)
    case HoldOp(s, at) => s.len == 0 || Agrees(w, at, s)
    case ArriveOp(len) => c.nxt + len <= |w.stream| && len < TWO_32
  }

  /** Inside the window the 32-bit tests are the true ones: a gap is a gap, and the octets skipped are those behind. */
  lemma GapIsTrue(isn: u32, at: nat, nxt: nat)
    requires InWindow(at, nxt)
    ensures var gap := Sub32(Wrap32(isn + at), Wrap32(isn + nxt)); gap != 0 && gap < TWO_31 <==> at > nxt
    ensures at <= nxt ==> Sub32(Wrap32(isn + nxt), Wrap32(isn + at)) == nxt - at
  {
    if at > nxt {
      WrappedDifference(isn + at, isn + nxt);
    } else {
      WrappedDifference(isn + nxt, isn + at);
      if at < nxt {
        WrappedNegativeDifference(isn + at, isn + nxt);
      }
    }
  }

  lemma TextIsStream(w: World, at: nat, s: Seg, skip: nat)
    requires Agrees(w, at, s) && skip < s.len
    ensures w.frames[s.desc][s.offset + skip..s.offset + s.len] == w.stream[at + skip..at + s.len]
  {
    var frame := w.frames[s.desc][s.offset..s.offset + s.len];
    assert frame[skip..] == w.frames[s.desc][s.offset + skip..s.offset + s.len];
    assert w.stream[at..at + s.len][skip..] == w.stream[at + skip..at + s.len];
  }

  lemma AddWrapped(isn: u32, nxt: nat, n: nat)
    requires n < TWO_32
    ensures Add32(Wrap32(isn + nxt), n) == Wrap32(isn + (nxt + n))
  {
  }

  /** A delivery said in true positions. */
  lemma DeliverIs(isn: u32, p: Pcb, at: nat, nxt: nat)
    requires p.queue != [] && p.rcvNxt == Wrap32(isn + nxt) && p.queue[0].seq_ == Wrap32(isn + at) && InWindow(at, nxt)
    ensures var head := p.queue[0];
            Deliver(p) ==
              if at > nxt then (p, Nothing)
              else if nxt - at < head.len then
                (p.(rcvNxt := Wrap32(isn + (at + head.len)), queue := p.queue[1..]),
                 Text(head.desc, p.rcvNxt, (head.offset + (nxt - at)) % TWO_16, head.len - (nxt - at)))
              else (p.(queue := p.queue[1..]), Spent(head.desc))
  {
    GapIsTrue(isn, at, nxt);
    if at <= nxt && nxt - at < p.queue[0].len {
      AddWrapped(isn, nxt, p.queue[0].len - (nxt - at));
    }
  }

  lemma OctetsOf(w: World, at: nat, s: Seg, nxt: nat, seq_: u32)
    requires Agrees(w, at, s) && at <= nxt < at + s.len
    ensures Octets(w, Text(s.desc, seq_, (s.offset + (nxt - at)) % TWO_16, s.len - (nxt - at))) ==
      w.stream[nxt..at + s.len]
  {
    TextIsStream(w, at, s, nxt - at);
  }

  /** Where a delivery leaves RCV.NXT: past the head, or where it was when there is a gap before it or it is spent. */
  function NextAfter(c: Conn): nat
    requires c.at != [] && |c.at| == |c.p.queue|
  {
    if c.at[0] <= c.nxt < c.at[0] + c.p.queue[0].len then c.at[0] + c.p.queue[0].len else c.nxt
  }

  /** What a delivery hands up is the stream's octets from RCV.NXT on, and RCV.NXT moves over exactly those. */
  lemma DeliverGivesStream(w: World, base: nat, c: Conn)
    requires Inv(w, base, c) && c.at != [] && InWindow(c.at[0], c.nxt)
    ensures var (p, g) := Deliver(c.p);
            && (g.Nothing? <==> c.at[0] > c.nxt)
            && (g.Nothing? ==> p == c.p)
            && (!g.Nothing? ==> p.queue == c.p.queue[1..] && g.desc == c.p.queue[0].desc)
            && c.nxt <= NextAfter(c) <= |w.stream| && Octets(w, g) == w.stream[c.nxt..NextAfter(c)]
            && p.rcvNxt == Wrap32(w.isn + NextAfter(c))
  {
    var head, at := c.p.queue[0], c.at[0];
    assert Agrees(w, at, head);
    DeliverIs(w.isn, c.p, at, c.nxt);
    if at <= c.nxt < at + head.len {
      OctetsOf(w, at, head, c.nxt, c.p.rcvNxt);
    }
  }

  lemma DeliverKeeps(w: World, base: nat, c: Conn)
    requires Inv(w, base, c) && Allowed(w, c, DeliverOp)
    ensures Inv(w, base, Step(w, c, DeliverOp))
  {
    if c.at != [] {
      DeliverGivesStream(w, base, c);
      var n := NextAfter(c);
      assert w.stream[base..c.nxt] + w.stream[c.nxt..n] == w.stream[base..n];
    } else {
      assert c.got + [] == c.got;
    }
  }

  ghost predicate AllAgree(w: World, at: seq<nat>, queue: seq<Seg>) {
    |at| == |queue| && forall k :: 0 <= k < |at| ==> Agrees(w, at[k], queue[k])
  }

  lemma AgreeSpliced(w: World, at: seq<nat>, queue: seq<Seg>, k: nat, x: nat, s: Seg)
    requires AllAgree(w, at, queue) && k <= |queue| && Agrees(w, x, s)
    ensures AllAgree(w, at[..k] + [x] + at[k..], queue[..k] + [s] + queue[k..])
  {
  }

  lemma HoldKeeps(w: World, base: nat, c: Conn, s: Seg, at: nat)
    requires Inv(w, base, c) && Allowed(w, c, HoldOp(s, at))
    ensures Inv(w, base, Step(w, c, HoldOp(s, at)))
  {
    if s.len != 0 {
      AgreeSpliced(w, c.at, c.p.queue, Place(c.p.queue, s, c.p.rcvNxt), at, s);
    }
  }

  lemma ArriveKeeps(w: World, base: nat, c: Conn, len: nat)
    requires Inv(w, base, c) && Allowed(w, c, ArriveOp(len))
    ensures Inv(w, base, Step(w, c, ArriveOp(len)))
  {
    AddWrapped(w.isn, c.nxt, len);
    assert w.stream[base..c.nxt] + w.stream[c.nxt..c.nxt + len] == w.stream[base..c.nxt + len];
  }

  lemma StepKeeps(w: World, base: nat, c: Conn, op: Op)
    requires Inv(w, base, c) && Allowed(w, c, op)
    ensures Inv(w, base, Step(w, c, op))
  {
    match op {
      case DeliverOp => DeliverKeeps(w, base, c);
      case HoldOp(s, at) => HoldKeeps(w, base, c, s, at);
      case ArriveOp(len) => ArriveKeeps(w, base, c, len);
    }
  }

  // --- whole runs ------------------------------------------------------------------

  ghost predicate AllAllowed(w: World, c: Conn, ops: seq<Op>)
    decreases |ops|
  {
    ops == [] || (|c.at| == |c.p.queue| && Allowed(w, c, ops[0]) && AllAllowed(w, Step(w, c, ops[0]), ops[1..]))
  }

  ghost function RunOf(w: World, c: Conn, ops: seq<Op>): Conn
    requires AllAllowed(w, c, ops)
    decreases |ops|
  {
    if ops == [] then c else RunOf(w, Step(w, c, ops[0]), ops[1..])
  }

  lemma {:induction false} RunKeeps(w: World, base: nat, c: Conn, ops: seq<Op>)
    requires Inv(w, base, c) && AllAllowed(w, c, ops)
    ensures Inv(w, base, RunOf(w, c, ops))
    decreases |ops|
  {
    if ops != [] {
      StepKeeps(w, base, c, ops[0]);
      RunKeeps(w, base, Step(w, c, ops[0]), ops[1..]);
    }
  }

  /** A connection with nothing held, at a place in the stream. */
  function Opened(w: World, base: nat, sndNxt: u32): Conn {
    Conn(Pcb(Wrap32(w.isn + base), sndNxt, []), base, [], [])
  }

  /**
   * Over every run whose segments agree with one stream and whose heads lie within half the sequence space, what was
   * handed up is exactly the stream from the first RCV.NXT to the current one: no gap, no repeat, across any wrap.
   */
  lemma RunDeliversTheStream(w: World, base: nat, sndNxt: u32, ops: seq<Op>)
    requires base <= |w.stream| && AllAllowed(w, Opened(w, base, sndNxt), ops)
    ensures var c := RunOf(w, Opened(w, base, sndNxt), ops);
            base <= c.nxt <= |w.stream| && c.got == w.stream[base..c.nxt] && c.p.rcvNxt == Wrap32(w.isn + c.nxt)
  {
    assert w.stream[base..base] == [];
    RunKeeps(w, base, Opened(w, base, sndNxt), ops);
  }

  // --- the order of the queue ------------------------------------------------------

  predicate Sorted(at: seq<nat>) {
    forall i, j :: 0 <= i < j < |at| ==> at[i] <= at[j]
  }

  ghost predicate Numbered(isn: u32, at: seq<nat>, queue: seq<Seg>) {
    |at| == |queue| && forall k :: 0 <= k < |at| ==> queue[k].seq_ == Wrap32(isn + at[k])
  }

  /** A place at or past RCV.NXT, by less than half the sequence space. */
  predicate Ahead(at: nat, nxt: nat) {
    nxt <= at < nxt + TWO_31
  }

  lemma DistanceAhead(isn: u32, at: nat, nxt: nat)
    requires Ahead(at, nxt)
    ensures Sub32(Wrap32(isn + at), Wrap32(isn + nxt)) == at - nxt
  {
    WrappedDifference(isn + at, isn + nxt);
  }

  lemma DistanceBehind(isn: u32, at: nat, nxt: nat)
    requires at < nxt && InWindow(at, nxt)
    ensures Sub32(Wrap32(isn + at), Wrap32(isn + nxt)) >= TWO_31
  {
    WrappedNegativeDifference(isn + at, isn + nxt);
  }

  /** With every held segment ahead, a segment goes in by its true place, after those that begin where it does. */
  lemma {:induction false} PlaceIsByPosition(isn: u32, at: seq<nat>, queue: seq<Seg>, nxt: nat, x: nat, s: Seg)
    requires Numbered(isn, at, queue) && s.seq_ == Wrap32(isn + x) && Ahead(x, nxt)
    requires forall k :: 0 <= k < |at| ==> Ahead(at[k], nxt)
    ensures var k := Place(queue, s, Wrap32(isn + nxt));
            (forall i :: 0 <= i < k ==> at[i] <= x) && (k < |at| ==> x < at[k])
    decreases |at|
  {
    if queue != [] {
      DistanceAhead(isn, x, nxt);
      DistanceAhead(isn, at[0], nxt);
      assert queue[0].seq_ == Wrap32(isn + at[0]);
      if at[0] <= x {
        PlaceIsByPosition(isn, at[1..], queue[1..], nxt, x, s);
        var k := Place(queue[1..], s, Wrap32(isn + nxt));
        forall i | 0 <= i < k + 1 ensures at[i] <= x {
          assert i > 0 ==> at[i] == at[1..][i - 1];
        }
      }
    }
  }

  lemma SplicedSorted(at: seq<nat>, k: nat, x: nat)
    requires Sorted(at) && k <= |at| && (forall i :: 0 <= i < k ==> at[i] <= x) && (k < |at| ==> x < at[k])
    ensures Sorted(at[..k] + [x] + at[k..])
  {
  }

  /**
   * Holding a segment keeps the queue in stream order exactly when the head has not been overtaken by RCV.NXT: an
   * overtaken head measures as the far end of the sequence space, and the new segment goes in front of it.
   */
  lemma HoldKeepsOrder(isn: u32, p: Pcb, at: seq<nat>, nxt: nat, x: nat, s: Seg)
    requires Numbered(isn, at, p.queue) && Sorted(at) && p.rcvNxt == Wrap32(isn + nxt)
    requires forall k :: 0 <= k < |at| ==> InWindow(at[k], nxt)
    requires s.seq_ == Wrap32(isn + x) && Ahead(x, nxt)
    ensures var k := Place(p.queue, s, p.rcvNxt);
            Sorted(at[..k] + [x] + at[k..]) <==> at == [] || at[0] >= nxt
  {
    if at == [] || at[0] >= nxt {
      PlaceIsByPosition(isn, at, p.queue, nxt, x, s);
      SplicedSorted(at, Place(p.queue, s, p.rcvNxt), x);
    } else {
      OvertakenGoesBehind(isn, at, p.queue, nxt, x, s);
    }
  }

  /** In front of a head that RCV.NXT has passed goes whatever is held next. */
  lemma OvertakenGoesBehind(isn: u32, at: seq<nat>, queue: seq<Seg>, nxt: nat, x: nat, s: Seg)
    requires Numbered(isn, at, queue) && at != [] && at[0] < nxt && InWindow(at[0], nxt)
    requires s.seq_ == Wrap32(isn + x) && Ahead(x, nxt)
    ensures Place(queue, s, Wrap32(isn + nxt)) == 0 && !Sorted(at[..0] + [x] + at[0..])
  {
    DistanceAhead(isn, x, nxt);
    DistanceBehind(isn, at[0], nxt);
    assert queue[0].seq_ == Wrap32(isn + at[0]);
    var spliced := at[..0] + [x] + at[0..];
    assert spliced[0] == x && spliced[1] == at[0];
  }

  // --- draining the queue ----------------------------------------------------------

  /** Everything held, and RCV.NXT, inside one stretch of half the sequence space. */
  ghost predicate Within(c: Conn, lo: nat, hi: nat) {
    && lo <= c.nxt <= hi <= lo + TWO_31 && |c.at| == |c.p.queue|
    && (forall k :: 0 <= k < |c.at| ==> lo <= c.at[k] && c.at[k] + c.p.queue[k].len <= hi && c.p.queue[k].len > 0)
  }

  /** Deliveries made until one hands nothing up. */
  ghost function Drain(w: World, base: nat, c: Conn, lo: nat, hi: nat): Conn
    requires Inv(w, base, c) && Within(c, lo, hi)
    decreases |c.at|
  {
    if c.at == [] || c.at[0] > c.nxt then c
    else
      DrainStep(w, base, c, lo, hi);
      Drain(w, base, Step(w, c, DeliverOp), lo, hi)
  }

  lemma DrainStep(w: World, base: nat, c: Conn, lo: nat, hi: nat)
    requires Inv(w, base, c) && Within(c, lo, hi) && c.at != [] && c.at[0] <= c.nxt
    ensures Allowed(w, c, DeliverOp)
    ensures var d := Step(w, c, DeliverOp);
            && Inv(w, base, d) && Within(d, lo, hi) && d.at == c.at[1..] && d.p.queue == c.p.queue[1..]
            && d.nxt == NextAfter(c)
  {
    DeliverKeeps(w, base, c);
    DeliverGivesStream(w, base, c);
  }

  /**
   * A queue in stream order drains whole: afterwards every segment that was held has either been handed up to its
   * last octet or begins beyond a gap at RCV.NXT.
   */
  lemma {:induction false} DrainLeavesOnlyGaps(w: World, base: nat, c: Conn, lo: nat, hi: nat)
    requires Inv(w, base, c) && Within(c, lo, hi) && Sorted(c.at)
    ensures var d := Drain(w, base, c, lo, hi);
            && Inv(w, base, d) && c.nxt <= d.nxt
            && (forall k :: 0 <= k < |d.at| ==> d.at[k] > d.nxt)
            && (forall k :: 0 <= k < |c.at| ==> c.at[k] + c.p.queue[k].len <= d.nxt || c.at[k] > d.nxt)
    decreases |c.at|
  {
    if c.at != [] && c.at[0] <= c.nxt {
      DrainStep(w, base, c, lo, hi);
      var e := Step(w, c, DeliverOp);
      DrainLeavesOnlyGaps(w, base, e, lo, hi);
      var d := Drain(w, base, e, lo, hi);
      forall k | 0 <= k < |c.at| ensures c.at[k] + c.p.queue[k].len <= d.nxt || c.at[k] > d.nxt {
        if k > 0 {
          assert c.at[k] == e.at[k - 1] && c.p.queue[k] == e.p.queue[k - 1];
        }
      }
    }
  }
}
