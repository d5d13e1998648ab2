/**
 * The order of the out-of-order queue over whole runs (src/tcp/tcp_pcb.c under src/core/dispatch.c): exactly which
 * runs keep it in stream order, what a drain after one leaves, and a run after which held text is out of reach.
 */
module TcpOrder {
  import opened Words
  import opened TcpStream

  /** A hold that takes a slot. */
  predicate Takes(c: Conn, op: Op) {
    op.HoldOp? && op.s.len != 0 && |c.p.queue| < OOSEQ_SEGS
  }

  /** A hold's segment lies ahead of RCV.NXT, and everything held within half the sequence space of it. */
  predicate InReach(c: Conn, op: Op) {
    Takes(c, op) ==> Ahead(op.at, c.nxt) && forall k :: 0 <= k < |c.at| ==> InWindow(c.at[k], c.nxt)
  }

  /** A hold finds the queue empty, or its head not yet passed. */
  predicate Timely(c: Conn, op: Op) {
    Takes(c, op) ==> c.at == [] || c.at[0] >= c.nxt
  }

  ghost predicate AllInReach(w: World, c: Conn, ops: seq<Op>)
    requires AllAllowed(w, c, ops)
    decreases |ops|
  {
    ops == [] || (InReach(c, ops[0]) && AllInReach(w, Step(w, c, ops[0]), ops[1..]))
  }

  ghost predicate AllTimely(w: World, c: Conn, ops: seq<Op>)
    requires AllAllowed(w, c, ops)
    decreases |ops|
  {
    ops == [] || (Timely(c, ops[0]) && AllTimely(w, Step(w, c, ops[0]), ops[1..]))
  }

  /** The queue is in stream order before and after every step of the run. */
  ghost predicate SortedThroughout(w: World, c: Conn, ops: seq<Op>)
    requires AllAllowed(w, c, ops)
    decreases |ops|
  {
    Sorted(c.at) && (ops == [] || SortedThroughout(w, Step(w, c, ops[0]), ops[1..]))
  }

  lemma AgreeingIsNumbered(w: World, at: seq<nat>, queue: seq<Seg>)
    requires AllAgree(w, at, queue)
    ensures Numbered(w.isn, at, queue)
  {
    forall k | 0 <= k < |at| ensures queue[k].seq_ == Wrap32(w.isn + at[k]) {
      assert Agrees(w, at[k], queue[k]);
    }
  }

  /** From a sorted queue, one step leaves it sorted exactly when it is no untimely hold. */
  lemma StepSorts(w: World, base: nat, c: Conn, op: Op)
    requires Inv(w, base, c) && Allowed(w, c, op) && Sorted(c.at) && InReach(c, op)
    ensures Sorted(Step(w, c, op).at) <==> Timely(c, op)
  {
    if Takes(c, op) {
      AgreeingIsNumbered(w, c.at, c.p.queue);
      HoldKeepsOrder(w.isn, c.p, c.at, c.nxt, op.at, op.s);
    }
  }

  /** Over every run in reach, the queue is in stream order throughout exactly when every hold is timely. */
  lemma {:induction false} SortedIffTimely(w: World, base: nat, c: Conn, ops: seq<Op>)
    requires Inv(w, base, c) && AllAllowed(w, c, ops) && AllInReach(w, c, ops) && Sorted(c.at)
    ensures SortedThroughout(w, c, ops) <==> AllTimely(w, c, ops)
    ensures AllTimely(w, c, ops) ==> Sorted(RunOf(w, c, ops).at)
    decreases |ops|
  {
    if ops != [] {
      var d := Step(w, c, ops[0]);
      StepKeeps(w, base, c, ops[0]);
      StepSorts(w, base, c, ops[0]);
      if Timely(c, ops[0]) {
        SortedIffTimely(w, base, d, ops[1..]);
      } else {
        assert !SortedThroughout(w, d, ops[1..]);
      }
    }
  }

  /** Of two states of a connection: what the first held is handed up in the second or begins beyond a gap there. */
  predicate OnlyGaps(c: Conn, d: Conn) {
    && c.nxt <= d.nxt && |c.at| == |c.p.queue|
    && (forall k :: 0 <= k < |d.at| ==> d.at[k] > d.nxt)
    && (forall k :: 0 <= k < |c.at| ==> c.at[k] + c.p.queue[k].len <= d.nxt || c.at[k] > d.nxt)
  }

  /**
   * After every run from an open connection whose holds are timely, a drain leaves only gaps: each segment held has
   * been handed up to its last octet, or begins beyond RCV.NXT.
   */
  lemma RunThenDrain(w: World, base: nat, sndNxt: u32, ops: seq<Op>, lo: nat, hi: nat)
    requires base <= |w.stream| && AllAllowed(w, Opened(w, base, sndNxt), ops)
    requires AllInReach(w, Opened(w, base, sndNxt), ops) && AllTimely(w, Opened(w, base, sndNxt), ops)
    requires Within(RunOf(w, Opened(w, base, sndNxt), ops), lo, hi)
    ensures var c := RunOf(w, Opened(w, base, sndNxt), ops);
            && Inv(w, base, c)
            && var d := Drain(w, base, c, lo, hi);
               Inv(w, base, d) && OnlyGaps(c, d)
  {
    var open := Opened(w, base, sndNxt);
    assert w.stream[base..base] == [];
    RunKeeps(w, base, open, ops);
    SortedIffTimely(w, base, open, ops);
    DrainLeavesOnlyGaps(w, base, RunOf(w, open, ops), lo, hi);
  }

  // --- text out of reach -------------------------------------------------------------

  /** One stream, sent in one buffer. */
  function Sent(octets: seq<u8>): World {
    World(0, octets, map[0 := octets])
  }

  function Piece(at: nat, len: nat): Seg
    requires at + len < TWO_16
  {
    Seg(at, 0, at, len)
  }

  lemma PieceAgrees(octets: seq<u8>, at: nat, len: nat)
    requires len > 0 && at + len <= |octets| < TWO_16
    ensures Agrees(Sent(octets), at, Piece(at, len))
  {
  }

  /** 10..25 held at 5, text arrived to 20, 30..35 held: the queue is 30..35 then 10..25. */
  lemma HeldOutOfOrder(octets: seq<u8>, sndNxt: u32) returns (ops: seq<Op>)
    requires 35 <= |octets| < TWO_16
    ensures AllAllowed(Sent(octets), Opened(Sent(octets), 5, sndNxt), ops)
    ensures var c := RunOf(Sent(octets), Opened(Sent(octets), 5, sndNxt), ops);
            c.nxt == 20 && c.p == Pcb(20, sndNxt, [Piece(30, 5), Piece(10, 15)]) && c.at == [30, 10]
  {
    var w := Sent(octets);
    var a, b := Piece(10, 15), Piece(30, 5);
    PieceAgrees(octets, 10, 15);
    PieceAgrees(octets, 30, 5);
    ops := [HoldOp(a, 10), ArriveOp(15), HoldOp(b, 30)];
    var c0 := Opened(w, 5, sndNxt);
    var c1 := Step(w, c0, ops[0]);
    assert c1.p.queue == [a] && c1.at == [10];
    var c2 := Step(w, c1, ops[1]);
    assert c2.p == Pcb(20, sndNxt, [a]) && c2.nxt == 20;
    var c3 := Step(w, c2, ops[2]);
    assert Place([a], b, 20) == 0;
    assert c3.p.queue == [b, a] && c3.at == [30, 10];
    assert ops[2..][1..] == [];
    assert ops[1..][1..] == ops[2..] && ops[1..][0] == ops[1] && ops[2..][0] == ops[2];
    assert RunOf(w, c2, ops[2..]) == c3;
    assert RunOf(w, c1, ops[1..]) == c3;
  }

  /** A run after which a delivery hands nothing up although the octet at RCV.NXT is held. */
  lemma HeldTextOutOfReach(octets: seq<u8>, sndNxt: u32) returns (ops: seq<Op>)
    requires 35 <= |octets| < TWO_16
    ensures AllAllowed(Sent(octets), Opened(Sent(octets), 5, sndNxt), ops)
    ensures var c := RunOf(Sent(octets), Opened(Sent(octets), 5, sndNxt), ops);
            && Deliver(c.p).1 == Nothing
            && exists k :: 0 <= k < |c.at| && k < |c.p.queue| && c.at[k] <= c.nxt < c.at[k] + c.p.queue[k].len
  {
    ops := HeldOutOfOrder(octets, sndNxt);
    var c := RunOf(Sent(octets), Opened(Sent(octets), 5, sndNxt), ops);
    assert c.at[1] <= c.nxt < c.at[1] + c.p.queue[1].len;
  }
}
