/**
 * The frames ARP gives up to the scheduler over whole runs (src/core/tick.c over src/arp/arp_table.c): each leaves the
 * table in one step, is handed out in it, and its descriptor is given up once.
 */
module TickFrames {
  import opened Words
  import opened TickModel
  import opened TickRuns
  import A = ArpModel
  import E = ArpEntries

  /** The frames ARP holds. */
  function ArpHeld(u: Units): multiset<A.Frame> {
    if u.arp.Some? then A.Held(u.arp.value.holds) else multiset{}
  }

  /** Whether a step is one of ARP's. */
  predicate OfArp(unit: nat) {
    unit == UNIT_ARP || unit == UNIT_ARP_HOLD
  }

  /** ARP gave up the frame whose descriptor was handed out, or none where none was. */
  ghost predicate GaveUp(before: multiset<A.Frame>, after: multiset<A.Frame>, h: Option<Handed>) {
    if h.None? then after == before
    else exists f :: f in before && after == before - multiset{f} && f.desc == h.value.desc
  }

  lemma OneGone(before: multiset<A.Frame>, after: multiset<A.Frame>, f: A.Frame, h: Handed)
    requires before == after + multiset{f} && h.desc == f.desc
    ensures GaveUp(before, after, Some(h))
  {
    assert f in before && after == before - multiset{f};
  }

  lemma ArpServiceGives(u: Units, now: u32)
    requires Ok(u)
    ensures var r := ArpService(u, now);
            GaveUp(ArpHeld(u), ArpHeld(r.units), r.handed) && (!r.ran ==> r.handed.None?)
  {
    if u.arp.Some? {
      E.TickKeeps(u.arp.value, now);
      var out := E.Tick(u.arp.value, now).1;
      var r := ArpService(u, now);
      if out.Back? {
        OneGone(ArpHeld(u), ArpHeld(r.units), out.frame, r.handed.value);
      }
    }
  }

  lemma ArpFlushGives(u: Units)
    requires Ok(u)
    ensures var r := ArpFlush(u);
            GaveUp(ArpHeld(u), ArpHeld(r.units), r.handed) && (!r.ran ==> r.handed.None?)
  {
    if u.arp.Some? {
      E.DequeueKeeps(u.arp.value);
      var out := E.Dequeue(u.arp.value).1;
      var r := ArpFlush(u);
      if out.Some? {
        OneGone(ArpHeld(u), ArpHeld(r.units), out.value.frame, r.handed.value);
      }
    }
  }

  lemma OtherServes(u: Units, now: u32, cursor: nat, ifCursor: nat)
    requires Ok(u) && UNIT_ARP < cursor <= UNIT_TIMEOUTS
    ensures ServiceUnit(u, now, cursor, ifCursor).units.arp == u.arp
  {
  }

  lemma OtherFlushes(u: Units, cursor: nat)
    requires Ok(u) && UNIT_ARP_HOLD < cursor <= UNIT_TCP_ACK
    ensures FlushUnit(u, cursor).units.arp == u.arp
  {
  }

  /** Past ARP the services leave its frames alone. */
  lemma {:induction false} LaterServes(c: Ctx, u: Units)
    requires Ok(u) && UNIT_ARP < c.cursor <= UNIT_TIMEOUTS + 1 && c.ifCursor <= NETIF_COUNT
    ensures var r := ServiceFrom(c, u);
            && Ok(r.1) && r.1.arp == u.arp && r.0.cursor > UNIT_ARP
            && (r.0.cursor != UNIT_ARP_HOLD || r.3.None?)
    decreases UNIT_TIMEOUTS + 1 - c.cursor, NETIF_COUNT - c.ifCursor
  {
    if c.cursor <= UNIT_TIMEOUTS {
      var r := ServiceUnit(u, c.now, c.cursor, c.ifCursor);
      ServiceFromIs(c, u);
      OtherServes(u, c.now, c.cursor, c.ifCursor);
      if !r.ran {
        LaterServes(Onward(c), r.units);
      }
    }
  }

  lemma {:induction false} LaterFlushes(c: Ctx, u: Units)
    requires Ok(u) && UNIT_ARP_HOLD < c.cursor <= UNIT_COUNT
    ensures var r := FlushFrom(c, u); Ok(r.1) && r.1.arp == u.arp && r.0.cursor >= c.cursor
    decreases UNIT_COUNT - c.cursor
  {
    if c.cursor < UNIT_COUNT {
      var r := FlushUnit(u, c.cursor);
      FlushFromIs(c, u);
      OtherFlushes(u, c.cursor);
      if !r.ran {
        LaterFlushes(c.(cursor := c.cursor + 1), r.units);
      }
    }
  }

  lemma ServiceGives(c: Ctx, u: Units)
    requires Ok(u) && UNIT_ARP <= c.cursor <= UNIT_TIMEOUTS + 1 && c.ifCursor <= NETIF_COUNT
    ensures var r := ServiceFrom(c, u);
            && Ok(r.1) && GaveUp(ArpHeld(u), ArpHeld(r.1), if r.0.cursor == UNIT_ARP then r.3 else None)
            && (r.0.cursor != UNIT_ARP_HOLD || r.3.None?)
  {
    if c.cursor > UNIT_ARP {
      LaterServes(c, u);
    } else {
      var r := ServiceUnit(u, c.now, c.cursor, c.ifCursor);
      ServiceFromIs(c, u);
      ArpServiceGives(u, c.now);
      if !r.ran {
        LaterServes(Onward(c), r.units);
      }
    }
  }

  lemma FlushGives(c: Ctx, u: Units)
    requires Ok(u) && UNIT_ARP_HOLD <= c.cursor <= UNIT_COUNT
    ensures var r := FlushFrom(c, u);
            && Ok(r.1) && GaveUp(ArpHeld(u), ArpHeld(r.1), if r.0.cursor == UNIT_ARP_HOLD then r.3 else None)
            && c.cursor <= r.0.cursor
  {
    if c.cursor > UNIT_ARP_HOLD {
      LaterFlushes(c, u);
    } else {
      var r := FlushUnit(u, c.cursor);
      FlushFromIs(c, u);
      ArpFlushGives(u);
      if !r.ran {
        LaterFlushes(c.(cursor := c.cursor + 1), r.units);
      }
    }
  }

  /** One service call: ARP is one frame short, the one lent, exactly when the call reports an ARP hand-out. */
  lemma ServiceCallGives(c: Ctx, u: Units)
    requires Ok(u) && Placed(c)
    ensures var (_, v, out) := ServiceCall(c, u);
            Ok(v) && GaveUp(ArpHeld(u), ArpHeld(v), if OfArp(out.unit) then out.handed else None)
  {
    if c.phase == Service {
      ServiceGives(DropHold(c), u);
      ServiceHolds(DropHold(c), u);
    }
  }

  lemma FlushCallGives(c: Ctx, u: Units)
    requires Ok(u) && Placed(c)
    ensures var (_, v, out) := FlushCall(c, u);
            Ok(v) && GaveUp(ArpHeld(u), ArpHeld(v), if OfArp(out.unit) then out.handed else None)
  {
    if c.phase == Flush {
      FlushGives(DropHold(c), u);
      FlushHolds(DropHold(c), u);
    }
  }

  // --- whole runs ------------------------------------------------------------------

  /** A drained frame's dispatch, after which the units are others. */
  predicate Dispatches(r: Run, op: Op)
    requires Placed(r.c)
  {
    op.DrainOp? && |op.rings| == NETIF_COUNT && DrainCall(r.c, op.rings).1 == OK
  }

  /** What ARP held after each dispatch of a run, and before it. */
  ghost function Came(r: Run, ops: seq<Op>): multiset<A.Frame>
    requires Settled(r) && AllFair(ops)
    decreases |ops|
  {
    if ops == [] then multiset{}
    else
      NextSettles(r, ops[0]);
      FairRest(ops);
      (if Dispatches(r, ops[0]) then ArpHeld(ops[0].after) else multiset{}) + Came(After(r, ops[0]), ops[1..])
  }

  ghost function Went(r: Run, ops: seq<Op>): multiset<A.Frame>
    requires Settled(r) && AllFair(ops)
    decreases |ops|
  {
    if ops == [] then multiset{}
    else
      NextSettles(r, ops[0]);
      FairRest(ops);
      (if Dispatches(r, ops[0]) then ArpHeld(r.u) else multiset{}) + Went(After(r, ops[0]), ops[1..])
  }

  /** The frames behind ARP's hand-outs, one each, in order. */
  ghost predicate FramesOf(frames: seq<A.Frame>, lent: seq<Loaned>)
    decreases |lent|
  {
    if lent == [] then frames == []
    else if !OfArp(lent[0].unit) then FramesOf(frames, lent[1..])
    else frames != [] && frames[0].desc == lent[0].handed.desc && FramesOf(frames[1..], lent[1..])
  }

  /** What one call does to ARP's frames: gives one up with a hand-out, has them replaced, or leaves them. */
  ghost predicate Moves(r: Run, op: Op, s: Run, given: seq<A.Frame>)
    requires Placed(r.c)
  {
    && (s.lent == r.lent || (s.lent != [] && s.lent == r.lent + [s.lent[|s.lent| - 1]]))
    && FramesOf(given, s.lent[|r.lent|..])
    && if Dispatches(r, op) then ArpHeld(s.u) == ArpHeld(op.after) && given == []
       else ArpHeld(r.u) == ArpHeld(s.u) + multiset(given)
  }

  lemma Removed(held: multiset<A.Frame>, f: A.Frame)
    requires f in held
    ensures held == (held - multiset{f}) + multiset([f])
  {
  }

  lemma OneFrame(given: seq<A.Frame>, l: Loaned)
    ensures FramesOf(given, [l]) <==>
      if OfArp(l.unit) then |given| == 1 && given[0].desc == l.handed.desc else given == []
  {
    assert [l][1..] == [];
    if OfArp(l.unit) && given != [] {
      assert FramesOf(given[1..], []) <==> given[1..] == [];
    }
  }

  /** The loans one step books: its hand-out, if it made one. */
  function Booking(unit: nat, h: Option<Handed>): seq<Loaned> {
    if h.Some? then [Loaned(unit, h.value)] else []
  }

  lemma GivenBy(before: multiset<A.Frame>, after: multiset<A.Frame>, unit: nat, h: Option<Handed>)
    returns (given: seq<A.Frame>)
    requires GaveUp(before, after, if OfArp(unit) then h else None)
    ensures before == after + multiset(given) && FramesOf(given, Booking(unit, h))
  {
    given := [];
    if h.Some? {
      if OfArp(unit) {
        var f :| f in before && after == before - multiset{f} && f.desc == h.value.desc;
        given := [f];
        Removed(before, f);
      }
      OneFrame(given, Loaned(unit, h.value));
    }
  }

  lemma BookedMoves(r: Run, op: Op, c: Ctx, v: Units, out: Out) returns (given: seq<A.Frame>)
    requires Settled(r) && !op.DrainOp?
    requires GaveUp(ArpHeld(r.u), ArpHeld(v), if OfArp(out.unit) then out.handed else None)
    ensures Moves(r, op, Booked(r, c, v, out), given)
  {
    given := GivenBy(ArpHeld(r.u), ArpHeld(v), out.unit, out.handed);
    var more := Booking(out.unit, out.handed);
    assert Booked(r, c, v, out).lent == r.lent + more && (r.lent + more)[|r.lent|..] == more;
  }

  lemma ServiceMoves(r: Run) returns (given: seq<A.Frame>)
    requires Settled(r)
    ensures Moves(r, ServiceOp, After(r, ServiceOp), given)
  {
    given := [];
    var (c, v, out) := ServiceCall(r.c, r.u);
    ServiceCallGives(r.c, r.u);
    if out.status != ERR {
      given := BookedMoves(r, ServiceOp, c, v, out);
    }
  }

  lemma FlushMoves(r: Run) returns (given: seq<A.Frame>)
    requires Settled(r)
    ensures Moves(r, FlushOp, After(r, FlushOp), given)
  {
    given := [];
    var (c, v, out) := FlushCall(r.c, r.u);
    FlushCallGives(r.c, r.u);
    if out.status != ERR {
      given := BookedMoves(r, FlushOp, c, v, out);
    }
  }

  lemma NextMoves(r: Run, op: Op) returns (given: seq<A.Frame>)
    requires Settled(r) && Fair(op)
    ensures Moves(r, op, After(r, op), given)
  {
    given := [];
    match op {
      case OpenOp(now) =>
      case DrainOp(rings, after) =>
      case ServiceOp => given := ServiceMoves(r);
      case FlushOp => given := FlushMoves(r);
    }
  }

  lemma FramesJoin(given: seq<A.Frame>, l: Loaned, frames: seq<A.Frame>, rest: seq<Loaned>)
    requires FramesOf(given, [l]) && FramesOf(frames, rest)
    ensures FramesOf(given + frames, [l] + rest)
  {
    OneFrame(given, l);
    assert ([l] + rest)[1..] == rest;
    if OfArp(l.unit) {
      assert (given + frames)[1..] == frames;
    } else {
      assert given + frames == frames;
    }
  }

  lemma LentJoin(a: seq<Loaned>, b: seq<Loaned>, c: seq<Loaned>, given: seq<A.Frame>, rest: seq<A.Frame>)
    requires b == a || (b != [] && b == a + [b[|b| - 1]])
    requires b <= c && FramesOf(given, b[|a|..]) && FramesOf(rest, c[|b|..])
    ensures a <= c && FramesOf(given + rest, c[|a|..])
  {
    if b == a {
      assert b[|a|..] == [] && given + rest == rest;
    } else {
      var l := b[|b| - 1];
      assert b[|a|..] == [l] && c[|a|..] == [l] + c[|b|..];
      FramesJoin(given, l, rest, c[|b|..]);
    }
  }

  /** What leaves and comes in one call, then in the rest, leaves and comes in all. */
  lemma Balances(h0: multiset<A.Frame>, h1: multiset<A.Frame>, h2: multiset<A.Frame>, came: multiset<A.Frame>,
                 went: multiset<A.Frame>, given: multiset<A.Frame>, frames: multiset<A.Frame>)
    requires h1 + came == h2 + went + frames && h0 == h1 + given
    ensures h0 + came == h2 + went + (given + frames)
  {
    assert h0 + came == (h1 + came) + given;
    assert (h2 + went + frames) + given == h2 + went + (given + frames);
  }

  lemma Replaces(h0: multiset<A.Frame>, h1: multiset<A.Frame>, h2: multiset<A.Frame>, came: multiset<A.Frame>,
                 went: multiset<A.Frame>, frames: multiset<A.Frame>)
    requires h1 + came == h2 + went + frames
    ensures h0 + (h1 + came) == h2 + (h0 + went) + frames
  {
    assert h0 + (h2 + went + frames) == h2 + (h0 + went) + frames;
  }

  /** The books of a run, from those of its first call and of the rest. */
  lemma BooksJoin(r: Run, ops: seq<Op>, given: seq<A.Frame>, rest: seq<A.Frame>)
    requires Settled(r) && AllFair(ops) && ops != [] && Moves(r, ops[0], After(r, ops[0]), given)
    requires Settled(After(r, ops[0])) && AllFair(ops[1..])
    requires var mid := After(r, ops[0]);
             ArpHeld(mid.u) + Came(mid, ops[1..]) ==
               ArpHeld(RunFrom(mid, ops[1..]).u) + Went(mid, ops[1..]) + multiset(rest)
    ensures ArpHeld(r.u) + Came(r, ops) == ArpHeld(RunFrom(r, ops).u) + Went(r, ops) + multiset(given + rest)
  {
    var mid := After(r, ops[0]);
    var came, went, last := Came(mid, ops[1..]), Went(mid, ops[1..]), ArpHeld(RunFrom(mid, ops[1..]).u);
    assert RunFrom(r, ops) == RunFrom(mid, ops[1..]);
    assert multiset(given + rest) == multiset(given) + multiset(rest);
    if Dispatches(r, ops[0]) {
      Replaces(ArpHeld(r.u), ArpHeld(mid.u), last, came, went, multiset(rest));
      assert Came(r, ops) == ArpHeld(mid.u) + came && Went(r, ops) == ArpHeld(r.u) + went;
      assert multiset(given) + multiset(rest) == multiset(rest);
    } else {
      Balances(ArpHeld(r.u), ArpHeld(mid.u), last, came, went, multiset(given), multiset(rest));
      assert Came(r, ops) == came && Went(r, ops) == went;
    }
  }

  /**
   * Over every run of calls in any order: what ARP held, less what it still holds, but for the dispatches in between,
   * is exactly the frames behind its hand-outs, one each, in order.
   */
  lemma {:induction false} RunGivesUpFrames(r: Run, ops: seq<Op>) returns (frames: seq<A.Frame>)
    requires Settled(r) && AllFair(ops)
    ensures var s := RunFrom(r, ops);
            && ArpHeld(r.u) + Came(r, ops) == ArpHeld(s.u) + Went(r, ops) + multiset(frames)
            && r.lent <= s.lent && FramesOf(frames, s.lent[|r.lent|..])
    decreases |ops|
  {
    frames := [];
    if ops != [] {
      NextSettles(r, ops[0]);
      FairRest(ops);
      var given := NextMoves(r, ops[0]);
      var mid := After(r, ops[0]);
      var s := RunFrom(mid, ops[1..]);
      var rest := RunGivesUpFrames(mid, ops[1..]);
      frames := given + rest;
      LentJoin(r.lent, mid.lent, s.lent, given, rest);
      BooksJoin(r, ops, given, rest);
    }
  }

  /**
   * From a cleared scheduler to the end of a tick: every frame ARP gave up was handed out by one step of its own, in
   * order, and every hand-out has been given up once, as its interface and descriptor say.
   */
  lemma TickUnpinsEachFrame(u: Units, ops: seq<Op>) returns (frames: seq<A.Frame>)
    requires Ok(u) && AllFair(ops) && RunFrom(Begun(u), ops).c.phase == Done
    ensures var s := RunFrom(Begun(u), ops);
            && ArpHeld(u) + Came(Begun(u), ops) == ArpHeld(s.u) + Went(Begun(u), ops) + multiset(frames)
            && FramesOf(frames, s.lent) && |s.back| == |s.lent|
            && forall k :: 0 <= k < |s.back| ==> s.back[k] == PinOf(s.lent[k].handed)
  {
    frames := RunGivesUpFrames(Begun(u), ops);
    RunReturnsEachLoan(Begun(u), ops);
    var s := RunFrom(Begun(u), ops);
    assert s.lent[0..] == s.lent;
  }
}
