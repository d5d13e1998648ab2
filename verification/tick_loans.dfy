/**
 * Which ring a descriptor the scheduler lends goes back to (src/core/tick.c): its own exactly when it was handed out
 * under it, what of the units' state decides that, and a run in which one goes to another.
 */
module TickLoans {
  import opened Words
  import opened TickModel
  import opened TickRuns
  import A = ArpModel
  import E = ArpEntries
  import R = ArpRuns
  import O = ArpOrder
  import AP = ArpPacket
  import D = DispatchTcp

  /** A descriptor is given back to the ring it belongs to exactly when it was handed out under that ring. */
  lemma HomeIsItsOwnRing(h: Handed)
    requires h.desc != DESC_NONE
    ensures PinOf(h).Some? && D.Handle(PinOf(h).value) == h.desc <==> Home(h)
  {
  }

  /** The frame the flush would take from ARP, under the interface of the row it waits on. */
  function Resolved(t: A.Table): Option<Handed>
    requires A.Inv(t)
  {
    var i := E.FirstResolved(t, 0);
    if i == |t.rows| then None
    else
      assert A.QueueOk(t, i);
      assert A.WaitsOn(t.holds[t.queues[i][0]], i, t.rows[i].spa);
      Some(Handed(t.rows[i].netif, t.holds[t.queues[i][0]].frame.desc))
  }

  /**
   * A frame the flush takes from ARP goes back to its own ring exactly when the interface its row was last heard on
   * is there and is the one the descriptor names.
   */
  lemma FlushedGoesHomeIff(c: Ctx, u: Units)
    requires Ok(u) && c.phase == Flush && c.cursor == UNIT_ARP_HOLD
    requires u.arp.Some? && Resolved(u.arp.value).Some? && Resolved(u.arp.value).value.desc != DESC_NONE
    ensures var h := Resolved(u.arp.value).value;
            var d := FlushCall(c, u).0;
            && Loan(d) == Some(h)
            && (Lent(d).Some? && D.Handle(Lent(d).value) == h.desc <==>
                  h.netif < NETIF_COUNT && h.desc / 0x100 == h.netif)
  {
    HomeIsItsOwnRing(Resolved(u.arp.value).value);
  }

  // --- units that hand out only what is their own ----------------------------------

  /** Every step a unit has left hands out only what is its own. */
  predicate StepsHome(steps: Steps) {
    forall k :: 0 <= k < |steps| && steps[k].Some? ==> Home(steps[k].value)
  }

  /** A frame held is on a ring, and one waiting on a resolved row on the ring of that row's interface. */
  predicate HoldHome(t: A.Table, h: nat)
    requires h < |t.holds|
  {
    var hold := t.holds[h];
    && (!hold.NoFrame? ==> hold.frame.desc / 0x100 < NETIF_COUNT)
    && (hold.Wait? && hold.row < |t.rows| && t.rows[hold.row].state == A.Stable ==>
          hold.frame.desc / 0x100 == t.rows[hold.row].netif)
  }

  ghost predicate ArpHome(t: A.Table) {
    forall h :: 0 <= h < |t.holds| ==> HoldHome(t, h)
  }

  ghost predicate UnitsHome(u: Units)
    requires Ok(u)
  {
    && (u.arp.Some? ==> ArpHome(u.arp.value))
    && (forall i :: 0 <= i < NETIF_COUNT ==> StepsHome(u.nd6[i]))
    && (forall k :: 0 <= k < UNIT_COUNT ==> StepsHome(u.others[k]))
  }

  lemma KeptHome(t: A.Table, s: A.Table)
    requires ArpHome(t) && O.HoldsKept(t.holds, s.holds) && O.StableKept(t.rows, s.rows)
    ensures ArpHome(s)
  {
    forall h | 0 <= h < |s.holds| ensures HoldHome(s, h) {
      assert HoldHome(t, h) && O.HoldKept(t.holds[h], s.holds[h]);
    }
  }

  lemma ReportHome(s: A.Table, now: u32)
    requires ArpHome(s)
    ensures var (t, out) := E.ReportOf(s, now);
            ArpHome(t) && (out.Back? ==> out.frame.desc / 0x100 < NETIF_COUNT)
  {
    var h := E.FirstReclaim(s.holds, 0);
    if h < |s.holds| {
      assert HoldHome(s, h);
    }
    KeptHome(s, E.ReportOf(s, now).0);
  }

  lemma ArpServiceHome(u: Units, now: u32)
    requires Ok(u) && UnitsHome(u)
    ensures var r := ArpService(u, now);
            Ok(r.units) && UnitsHome(r.units) && (r.handed.Some? ==> Home(r.handed.value))
  {
    if u.arp.Some? {
      var t := u.arp.value;
      E.TickKeeps(t, now);
      O.SweptKept(t, now);
      KeptHome(t, E.Swept(t, now));
      ReportHome(E.Swept(t, now), now);
    }
  }

  lemma ArpFlushHome(u: Units)
    requires Ok(u) && UnitsHome(u)
    ensures var r := ArpFlush(u);
            Ok(r.units) && UnitsHome(r.units) && (r.handed.Some? ==> Home(r.handed.value))
  {
    if u.arp.Some? {
      var t := u.arp.value;
      E.DequeueKeeps(t);
      var i := E.FirstResolved(t, 0);
      if i < |t.rows| {
        assert A.QueueOk(t, i);
        var h := t.queues[i][0];
        assert A.WaitsOn(t.holds[h], i, t.rows[i].spa);
        assert HoldHome(t, h);
      }
      KeptHome(t, E.Dequeue(t).0);
    }
  }

  lemma RestHome(steps: Steps)
    requires steps != [] && StepsHome(steps)
    ensures StepsHome(steps[1..]) && (steps[0].Some? ==> Home(steps[0].value))
  {
    forall k | 0 <= k < |steps[1..]| && steps[1..][k].Some? ensures Home(steps[1..][k].value) {
      assert steps[1..][k] == steps[k + 1];
    }
  }

  lemma OtherHome(u: Units, unit: nat)
    requires Ok(u) && UnitsHome(u) && unit < UNIT_COUNT
    ensures var r := OtherStep(u, unit);
            Ok(r.units) && UnitsHome(r.units) && (r.handed.Some? ==> Home(r.handed.value))
  {
    assert StepsHome(u.others[unit]);
    if u.others[unit] != [] {
      RestHome(u.others[unit]);
    }
  }

  lemma Nd6Home(u: Units, i: nat)
    requires Ok(u) && UnitsHome(u) && i < NETIF_COUNT
    ensures var r := Nd6Step(u, i);
            Ok(r.units) && UnitsHome(r.units) && (r.handed.Some? ==> Home(r.handed.value))
  {
    assert StepsHome(u.nd6[i]);
    if u.nd6[i] != [] {
      RestHome(u.nd6[i]);
    }
  }

  lemma ServiceUnitHome(u: Units, now: u32, cursor: nat, ifCursor: nat)
    requires Ok(u) && UnitsHome(u) && UNIT_ARP <= cursor <= UNIT_TIMEOUTS
    ensures var r := ServiceUnit(u, now, cursor, ifCursor);
            Ok(r.units) && UnitsHome(r.units) && (r.handed.Some? ==> Home(r.handed.value))
  {
    if cursor == UNIT_ARP {
      ArpServiceHome(u, now);
    } else if cursor == UNIT_ND6 {
      if ifCursor < NETIF_COUNT {
        Nd6Home(u, ifCursor);
      }
    } else if cursor != UNIT_TIMEOUTS && cursor != UNIT_IP6_REASS {
      OtherHome(u, cursor);
    }
  }

  lemma FlushUnitHome(u: Units, cursor: nat)
    requires Ok(u) && UnitsHome(u) && UNIT_ARP_HOLD <= cursor <= UNIT_TCP_ACK
    ensures var r := FlushUnit(u, cursor);
            Ok(r.units) && UnitsHome(r.units) && (r.handed.Some? ==> Home(r.handed.value))
  {
    FlushUnitKeeps(u, cursor);
    if cursor == UNIT_ARP_HOLD {
      ArpFlushHome(u);
    } else if cursor != UNIT_TCP_ACK {
      OtherHome(u, cursor);
    }
  }

  lemma {:induction false} ServiceFromHome(c: Ctx, u: Units)
    requires Ok(u) && UnitsHome(u) && UNIT_ARP <= c.cursor <= UNIT_TIMEOUTS + 1 && c.ifCursor <= NETIF_COUNT
    ensures var r := ServiceFrom(c, u);
            Ok(r.1) && UnitsHome(r.1) && (r.3.Some? ==> Home(r.3.value))
    decreases UNIT_TIMEOUTS + 1 - c.cursor, NETIF_COUNT - c.ifCursor
  {
    if c.cursor <= UNIT_TIMEOUTS {
      var r := ServiceUnit(u, c.now, c.cursor, c.ifCursor);
      ServiceUnitHome(u, c.now, c.cursor, c.ifCursor);
      if !r.ran {
        if c.cursor == UNIT_ND6 && c.ifCursor < NETIF_COUNT {
          ServiceFromHome(c.(ifCursor := c.ifCursor + 1), r.units);
        } else {
          ServiceFromHome(c.(cursor := c.cursor + 1, ifCursor := 0), r.units);
        }
      }
    }
  }

  lemma {:induction false} FlushFromHome(c: Ctx, u: Units)
    requires Ok(u) && UnitsHome(u) && UNIT_ARP_HOLD <= c.cursor <= UNIT_COUNT
    ensures var r := FlushFrom(c, u);
            Ok(r.1) && UnitsHome(r.1) && (r.3.Some? ==> Home(r.3.value))
    decreases UNIT_COUNT - c.cursor
  {
    if c.cursor < UNIT_COUNT {
      var r := FlushUnit(u, c.cursor);
      FlushUnitHome(u, c.cursor);
      if !r.ran {
        FlushFromHome(c.(cursor := c.cursor + 1), r.units);
      }
    }
  }

  // --- over whole runs -------------------------------------------------------------

  predicate AllHome(lent: seq<Loaned>) {
    forall k :: 0 <= k < |lent| ==> Home(lent[k].handed)
  }

  ghost predicate RunHome(r: Run)
    requires Ok(r.u)
  {
    UnitsHome(r.u) && AllHome(r.lent)
  }

  /** The units each dispatched frame leaves hand out only what is their own. */
  ghost predicate AfterHome(ops: seq<Op>)
    requires AllFair(ops)
  {
    forall k :: 0 <= k < |ops| && ops[k].DrainOp? ==> UnitsHome(ops[k].after)
  }

  lemma NextHome(r: Run, op: Op)
    requires Settled(r) && Fair(op) && RunHome(r) && (op.DrainOp? ==> UnitsHome(op.after))
    ensures Ok(After(r, op).u) && RunHome(After(r, op))
  {
    NextSettles(r, op);
    if op.ServiceOp? && r.c.phase == Service {
      ServiceFromHome(DropHold(r.c), r.u);
    } else if op.FlushOp? && r.c.phase == Flush {
      FlushFromHome(DropHold(r.c), r.u);
    }
  }

  /**
   * Over every run of calls in any order, while the units it starts from and those each frame's dispatch leaves keep
   * every waiting frame on its row's ring, every descriptor lent is given back to the very ring it belongs to.
   */
  lemma {:induction false} RunReturnsHome(r: Run, ops: seq<Op>)
    requires Settled(r) && AllFair(ops) && RunHome(r) && AfterHome(ops)
    ensures var s := RunFrom(r, ops);
            && Settled(s) && RunHome(s)
            && forall k :: 0 <= k < |s.back| ==> s.back[k].Some? && D.Handle(s.back[k].value) == s.lent[k].handed.desc
    decreases |ops|
  {
    if ops == [] {
      forall k | 0 <= k < |r.back| ensures r.back[k].Some? && D.Handle(r.back[k].value) == r.lent[k].handed.desc {
        assert Home(r.lent[k].handed) && r.back[k] == PinOf(r.lent[k].handed);
      }
    } else {
      NextSettles(r, ops[0]);
      NextHome(r, ops[0]);
      FairRest(ops);
      assert AfterHome(ops[1..]);
      RunReturnsHome(After(r, ops[0]), ops[1..]);
    }
  }

  /** Over every run each loan that has ended went to its own ring exactly when it was handed out under it. */
  lemma RunGoesHomeIff(r: Run, ops: seq<Op>, k: nat)
    requires Settled(r) && AllFair(ops) && k < |RunFrom(r, ops).back|
    ensures var s := RunFrom(r, ops);
            && |s.back| <= |s.lent|
            && var h := s.lent[k].handed;
               h.desc != DESC_NONE ==> (s.back[k].Some? && D.Handle(s.back[k].value) == h.desc <==> Home(h))
  {
    RunReturnsEachLoan(r, ops);
    var s := RunFrom(r, ops);
    if s.lent[k].handed.desc != DESC_NONE {
      HomeIsItsOwnRing(s.lent[k].handed);
    }
  }

  // --- a run in which one goes elsewhere --------------------------------------------

  /** A table of one row, resolved on an interface, with a frame waiting on it. */
  function ResolvedOne(f: A.Frame, sha: AP.Mac, netif: u8, now: u32, sweep: u32): A.Table {
    R.One(A.StableRow(f.spa, sha, netif, now), A.Wait(f, Add32(now, A.MAXPENDING_MS), 0), [0], sweep)
  }

  /** A frame queued for an address, then the address heard on some interface. */
  lemma HeardOn(f: A.Frame, sha: AP.Mac, netif: u8, at: nat) returns (ops: seq<R.Op>)
    requires A.FrameOk(f) && !AP.IsGroup(sha)
    ensures R.Forward(ops) && R.After(1, 1, ops).t == ResolvedOne(f, sha, netif, Wrap32(at), 0)
  {
    ops := [];
    assert R.Empty1(R.After(1, 1, ops).t, 0);
    R.QueueOne(R.After(1, 1, ops), f, at, 0);
    R.AfterMore(1, 1, ops, R.QueueOp(at, f));
    ops := ops + [R.QueueOp(at, f)];
    var t := R.After(1, 1, ops).t;
    AddedOne(t, f, sha, netif, Wrap32(at));
    var add := R.AddOp(at, AP.PRO_IPV4, f.spa, Some(sha), netif);
    R.AfterMore(1, 1, ops, add);
    ops := ops + [add];
  }

  lemma AddedOne(t: A.Table, f: A.Frame, sha: AP.Mac, netif: u8, now: u32)
    requires A.FrameOk(f) && !AP.IsGroup(sha) && R.Waiting1(t, f, now, 0)
    ensures R.Add(t, AP.PRO_IPV4, f.spa, Some(sha), netif, now).0 == ResolvedOne(f, sha, netif, now, 0)
  {
    assert A.FindRow(t.rows, AP.PRO_IPV4, f.spa) == 0;
    assert t.rows[0 := A.StableRow(f.spa, sha, netif, now)] == [A.StableRow(f.spa, sha, netif, now)];
  }

  /** Units of which only ARP is bound. */
  function OnlyArp(t: A.Table): Units {
    Units(Some(t), None, None, [[], []], [[], [], [], [], [], [], [], [], [], [], [], [], []])
  }

  lemma QuietUnit(t: A.Table, now: u32, cursor: nat, ifCursor: nat)
    requires A.Inv(t) && UNIT_ARP < cursor <= UNIT_TIMEOUTS
    ensures ServiceUnit(OnlyArp(t), now, cursor, ifCursor) == Ran(OnlyArp(t), false, None)
  {
    assert OnlyArp(t).others[cursor] == [];
  }

  /** Services with nothing to do but mark ARP's sweep end in the flush. */
  lemma {:induction false} QuietServes(c: Ctx, t: A.Table)
    requires A.Inv(t) && UNIT_ARP < c.cursor <= UNIT_TIMEOUTS + 1 && c.ifCursor <= NETIF_COUNT
    ensures var r := ServiceFrom(c, OnlyArp(t));
            && r.1 == OnlyArp(t) && r.2 == BUSY && r.3 == None && Loan(r.0) == Loan(c)
            && r.0.phase == Flush && r.0.cursor == UNIT_ARP_HOLD
    decreases UNIT_TIMEOUTS + 1 - c.cursor, NETIF_COUNT - c.ifCursor
  {
    if c.cursor <= UNIT_TIMEOUTS {
      QuietUnit(t, c.now, c.cursor, c.ifCursor);
      if c.cursor == UNIT_ND6 && c.ifCursor < NETIF_COUNT {
        QuietServes(c.(ifCursor := c.ifCursor + 1), t);
      } else {
        QuietServes(c.(cursor := c.cursor + 1, ifCursor := 0), t);
      }
    }
  }

  /** A resolved row with nothing overdue leaves the ARP service nothing to report. */
  lemma ResolvedTicks(f: A.Frame, sha: AP.Mac, netif: u8, now: u32)
    ensures E.Tick(ResolvedOne(f, sha, netif, now, 0), now) == (ResolvedOne(f, sha, netif, now, now), E.Nothing)
  {
    var row, hold := A.StableRow(f.spa, sha, netif, now), A.Wait(f, Add32(now, A.MAXPENDING_MS), 0);
    R.OneUnswept(row, hold, [0], 0, now);
    var s := R.One(row, hold, [0], now);
    assert E.FirstReclaim(s.holds, 0) == 1 && E.FirstAsk(s.rows, now, 0) == 1;
  }

  lemma ResolvedInv(f: A.Frame, sha: AP.Mac, netif: u8, now: u32, sweep: u32)
    requires A.FrameOk(f) && !AP.IsGroup(sha)
    ensures A.Inv(ResolvedOne(f, sha, netif, now, sweep))
  {
    var t := ResolvedOne(f, sha, netif, now, sweep);
    assert A.QueueOk(t, 0) && A.HoldOk(t, 0);
  }

  lemma {:induction false} RunMore(r: Run, ops: seq<Op>, op: Op)
    requires Settled(r) && AllFair(ops) && Fair(op)
    ensures AllFair(ops + [op]) && Settled(RunFrom(r, ops)) && RunFrom(r, ops + [op]) == After(RunFrom(r, ops), op)
    decreases |ops|
  {
    if ops == [] {
      assert ops + [op] == [op];
      NextSettles(r, op);
    } else {
      NextSettles(r, ops[0]);
      FairRest(ops);
      assert (ops + [op])[1..] == ops[1..] + [op];
      RunMore(After(r, ops[0]), ops[1..], op);
    }
  }

  lemma EmptyDrains(c: Ctx)
    requires c.phase == Drain && c.ifCursor == 0
    ensures DrainCall(c, [0, 0]) == (c.(phase := Service, cursor := UNIT_ARP, ifCursor := 0), BUSY)
  {
    assert DrainFrom(c, [0, 0]) == DrainFrom(c.(ifCursor := 1), [0, 0]);
    assert DrainFrom(c.(ifCursor := 1), [0, 0]) == DrainFrom(c.(ifCursor := 2), [0, 0]);
  }

  /** A tick opened, and the drain over two empty rings. */
  lemma OpenedAndDrained(r: Run, now: u32, t: A.Table) returns (ops: seq<Op>)
    requires Settled(r) && r.u == OnlyArp(t)
    ensures AllFair(ops)
    ensures var s := RunFrom(r, ops);
            && s.c == r.c.(phase := Service, cursor := UNIT_ARP, ifCursor := 0, now := now)
            && s.u == r.u && s.lent == r.lent && s.back == r.back && s.due == r.due
  {
    RunMore(r, [], OpenOp(now));
    ops := [] + [OpenOp(now)];
    var drain := DrainOp([0, 0], r.u);
    RunMore(r, ops, drain);
    EmptyDrains(RunFrom(r, ops).c);
    ops := ops + [drain];
  }

  /** A service call with nothing to report, which ends in the flush. */
  lemma ServedQuietly(r: Run, f: A.Frame, sha: AP.Mac, netif: u8, now: u32)
    requires Settled(r) && A.FrameOk(f) && !AP.IsGroup(sha)
    requires r.c.phase == Service && r.c.cursor == UNIT_ARP && r.c.ifCursor == 0 && r.c.now == now && r.due.None?
    requires r.u == OnlyArp(ResolvedOne(f, sha, netif, now, 0))
    ensures var s := After(r, ServiceOp);
            && s.u == OnlyArp(ResolvedOne(f, sha, netif, now, now)) && s.due.None?
            && s.c.phase == Flush && s.c.cursor == UNIT_ARP_HOLD && s.lent == r.lent && s.back == r.back
  {
    var t := ResolvedOne(f, sha, netif, now, now);
    ResolvedInv(f, sha, netif, now, now);
    ResolvedTicks(f, sha, netif, now);
    var c := DropHold(r.c).(cursor := UNIT_ARP + 1, ifCursor := 0);
    assert ServiceFrom(DropHold(r.c), r.u) == ServiceFrom(c, OnlyArp(t));
    QuietServes(c, t);
  }

  /** A flush call that takes ARP's frame lends it under its row's interface. */
  lemma FlushLends(r: Run, t: A.Table, h: Handed)
    requires Settled(r) && r.c.phase == Flush && r.c.cursor == UNIT_ARP_HOLD && r.u == OnlyArp(t) && r.due.None?
    requires Resolved(t) == Some(h) && h.desc != DESC_NONE
    ensures var s := After(r, FlushOp);
            s.due == Some(h) && s.c.phase == Flush && s.lent == r.lent + [Loaned(UNIT_ARP_HOLD, h)] && s.back == r.back
  {
    FlushedGoesHomeIff(r.c, r.u);
  }

  /** The call after a loan gives it back. */
  lemma FlushReturns(r: Run)
    requires Settled(r) && r.c.phase == Flush && r.due.Some?
    ensures var s := After(r, FlushOp); s.back == r.back + [PinOf(r.due.value)] && r.lent <= s.lent
  {
    FlushFromPlaced(DropHold(r.c), r.u);
  }

  lemma LentUnderItsRow(f: A.Frame, sha: AP.Mac, netif: u8, at: nat) returns (arp: seq<R.Op>, ops: seq<Op>)
    requires A.FrameOk(f) && !AP.IsGroup(sha) && f.desc != DESC_NONE
    ensures R.Forward(arp) && AllFair(ops)
    ensures var u := OnlyArp(R.After(1, 1, arp).t);
            && Ok(u) && Settled(Begun(u))
            && var s := RunFrom(Begun(u), ops);
               && Settled(s) && s.c.phase == Flush && s.due == Some(Handed(netif, f.desc)) && s.back == []
               && s.lent == [Loaned(UNIT_ARP_HOLD, Handed(netif, f.desc))]
  {
    arp := HeardOn(f, sha, netif, at);
    var t := R.After(1, 1, arp).t;
    ResolvedInv(f, sha, netif, Wrap32(at), 0);
    var r := Begun(OnlyArp(t));
    ops := OpenedAndDrained(r, Wrap32(at), t);
    RunMore(r, ops, ServiceOp);
    ServedQuietly(RunFrom(r, ops), f, sha, netif, Wrap32(at));
    ops := ops + [ServiceOp];
    RunMore(r, ops, FlushOp);
    var served := ResolvedOne(f, sha, netif, Wrap32(at), Wrap32(at));
    ResolvedInv(f, sha, netif, Wrap32(at), Wrap32(at));
    assert E.FirstResolved(served, 0) == 0;
    FlushLends(RunFrom(r, ops), served, Handed(netif, f.desc));
    NextSettles(RunFrom(r, ops), FlushOp);
    ops := ops + [FlushOp];
  }

  /**
   * A frame from interface 0 queued for an address that is then heard on interface 1: the tick that releases it
   * gives its descriptor back to interface 1's ring.
   */
  lemma RunCanMissItsRing(f: A.Frame, sha: AP.Mac, at: nat) returns (arp: seq<R.Op>, ops: seq<Op>)
    requires A.FrameOk(f) && !AP.IsGroup(sha) && f.desc / 0x100 == 0
    ensures R.Forward(arp) && AllFair(ops)
    ensures var u := OnlyArp(R.After(1, 1, arp).t);
            && Ok(u)
            && var s := RunFrom(Begun(u), ops);
               && s.lent != [] && s.lent[0].handed == Handed(1, f.desc) && s.back == [Some(D.Pin(1, f.desc % 0x100))]
               && D.Handle(D.Pin(1, f.desc % 0x100)) != f.desc
  {
    arp, ops := LentUnderItsRow(f, sha, 1, at);
    var r := Begun(OnlyArp(R.After(1, 1, arp).t));
    RunMore(r, ops, FlushOp);
    FlushReturns(RunFrom(r, ops));
    ops := ops + [FlushOp];
  }
}
