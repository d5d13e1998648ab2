/**
 * What a tick comes to (src/core/tick.c): the service phase reaches the flush and the flush the end, each unit asked
 * until it has nothing more, and every descriptor lent on the way is given back once.
 */
module TickRuns {
  import opened Words
  import opened TickModel
  import A = ArpModel
  import E = ArpEntries
  import DL = DeadlineList
  import D = DispatchTcp

  // --- the work that is left -------------------------------------------------------

  function Total(units: seq<Steps>): nat {
    if units == [] then 0 else |units[0]| + Total(units[1..])
  }

  lemma {:induction false} TotalDrops(units: seq<Steps>, k: nat)
    requires k < |units| && units[k] != []
    ensures Total(units[k := units[k][1..]]) == Total(units) - 1
    decreases k
  {
    var less := units[k := units[k][1..]];
    if k == 0 {
      assert less[1..] == units[1..];
    } else {
      assert less[1..] == units[1..][k - 1 := units[k][1..]];
      TotalDrops(units[1..], k - 1);
    }
  }

  function ArpWork(u: Units, now: u32): nat {
    if u.arp.Some? then E.Work(u.arp.value, now) else 0
  }

  function TimeoutWork(u: Units): nat {
    if u.timeouts.Some? then |u.timeouts.value.list| else 0
  }

  /** At most how many steps the services have left at one reading. */
  function ServiceWork(u: Units, now: u32): nat {
    ArpWork(u, now) + TimeoutWork(u) + Total(u.nd6) + Total(u.others)
  }

  lemma ArpServicePays(u: Units, now: u32)
    requires Ok(u)
    ensures var r := ArpService(u, now);
            && r.units == u.(arp := r.units.arp)
            && (r.ran ==> ArpWork(r.units, now) < ArpWork(u, now))
            && (!r.ran ==> ArpWork(r.units, now) <= ArpWork(u, now) && ArpQuiet(r.units, now))
  {
    if u.arp.Some? {
      E.TickPays(u.arp.value, now);
      E.TickKeeps(u.arp.value, now);
      E.SweptWork(u.arp.value, now);
    }
  }

  /** No frame to hand back, none overdue, and no row due a REQUEST. */
  ghost predicate ArpQuiet(u: Units, now: u32) {
    u.arp.Some? ==>
      && (forall h :: 0 <= h < |u.arp.value.holds| ==>
            !u.arp.value.holds[h].Reclaim? && !E.Overdue(u.arp.value.holds[h], now))
      && (forall i :: 0 <= i < |u.arp.value.rows| ==> !E.AskDue(u.arp.value.rows[i], now))
  }

  /** A service that has nothing more at this reading. */
  ghost predicate UnitQuiet(u: Units, now: u32, k: nat)
    requires Ok(u)
  {
    if k == UNIT_ARP then ArpQuiet(u, now)
    else if k == UNIT_ND6 then forall i :: 0 <= i < NETIF_COUNT ==> u.nd6[i] == []
    else if k == UNIT_TIMEOUTS then u.timeouts.Some? ==> !DL.HeadDue(u.timeouts.value)
    else k == UNIT_IP6_REASS || k >= UNIT_COUNT || u.others[k] == []
  }

  /** Every service the cursors have passed has nothing more. */
  ghost predicate QuietBelow(u: Units, now: u32, cursor: nat, ifCursor: nat)
    requires Ok(u)
  {
    && (forall k :: UNIT_ARP <= k < cursor ==> UnitQuiet(u, now, k))
    && (cursor == UNIT_ND6 ==> forall i :: 0 <= i < ifCursor && i < NETIF_COUNT ==> u.nd6[i] == [])
  }

  lemma QuietKept(u: Units, now: u32, cursor: nat, ifCursor: nat, k: nat)
    requires Ok(u) && UNIT_ARP <= k < cursor <= UNIT_TIMEOUTS && UnitQuiet(u, now, k)
    ensures Ok(ServiceUnit(u, now, cursor, ifCursor).units)
    ensures UnitQuiet(ServiceUnit(u, now, cursor, ifCursor).units, now, k)
  {
  }

  lemma BelowKept(u: Units, now: u32, cursor: nat, ifCursor: nat)
    requires Ok(u) && UNIT_ARP <= cursor <= UNIT_TIMEOUTS && QuietBelow(u, now, cursor, ifCursor)
    ensures Ok(ServiceUnit(u, now, cursor, ifCursor).units)
    ensures QuietBelow(ServiceUnit(u, now, cursor, ifCursor).units, now, cursor, ifCursor)
  {
    UnitKeeps(u, now, cursor, ifCursor);
    forall k | UNIT_ARP <= k < cursor ensures UnitQuiet(ServiceUnit(u, now, cursor, ifCursor).units, now, k) {
      QuietKept(u, now, cursor, ifCursor, k);
    }
  }

  /** A step asked of a service: one that runs uses up work, and one that does not has nothing more. */
  lemma ServicePays(u: Units, now: u32, cursor: nat, ifCursor: nat)
    requires Ok(u) && UNIT_ARP <= cursor <= UNIT_TIMEOUTS
    ensures var r := ServiceUnit(u, now, cursor, ifCursor);
            && Ok(r.units)
            && (r.ran ==> ServiceWork(r.units, now) < ServiceWork(u, now))
            && (!r.ran ==> ServiceWork(r.units, now) <= ServiceWork(u, now))
            && (!r.ran && cursor == UNIT_ND6 && ifCursor < NETIF_COUNT ==> r.units.nd6[ifCursor] == [])
            && (!r.ran && cursor != UNIT_ND6 ==> UnitQuiet(r.units, now, cursor))
            && (cursor == UNIT_ND6 && ifCursor >= NETIF_COUNT ==> r.units == u)
  {
    UnitKeeps(u, now, cursor, ifCursor);
    if cursor == UNIT_ARP {
      ArpServicePays(u, now);
    } else if cursor == UNIT_ND6 {
      if ifCursor < NETIF_COUNT && u.nd6[ifCursor] != [] {
        TotalDrops(u.nd6, ifCursor);
      }
    } else if cursor != UNIT_TIMEOUTS && cursor != UNIT_IP6_REASS && u.others[cursor] != [] {
      TotalDrops(u.others, cursor);
    }
  }

  /** The cursors move on past a service that did not run, and what is below them is quiet. */
  lemma QuietMovesOn(u: Units, now: u32, cursor: nat, ifCursor: nat)
    requires Ok(u) && UNIT_ARP <= cursor <= UNIT_TIMEOUTS && QuietBelow(u, now, cursor, ifCursor)
    requires !ServiceUnit(u, now, cursor, ifCursor).ran
    ensures var v := ServiceUnit(u, now, cursor, ifCursor).units;
            && Ok(v)
            && if cursor == UNIT_ND6 && ifCursor < NETIF_COUNT then QuietBelow(v, now, cursor, ifCursor + 1)
               else QuietBelow(v, now, cursor + 1, 0)
  {
    BelowKept(u, now, cursor, ifCursor);
    ServicePays(u, now, cursor, ifCursor);
  }

  /** Where one call's services may leave things: a step ran and used up work, or everything is quiet. */
  ghost predicate Served(c: Ctx, u: Units, d: Ctx, v: Units, status: Status) {
    && Ok(u) && Ok(v) && d.now == c.now && status != ERR
    && (status == OK ==>
          && d.phase == Service && c.cursor <= d.cursor <= UNIT_TIMEOUTS && d.ifCursor <= NETIF_COUNT
          && QuietBelow(v, c.now, d.cursor, d.ifCursor) && ServiceWork(v, c.now) < ServiceWork(u, c.now))
    && (status == BUSY ==>
          && d.phase == Flush && d.cursor == UNIT_ARP_HOLD && d.holdDesc == c.holdDesc && d.holdNetif == c.holdNetif
          && QuietBelow(v, c.now, UNIT_TIMEOUTS + 1, 0))
  }

  lemma ServedRan(c: Ctx, u: Units)
    requires Ok(u) && UNIT_ARP <= c.cursor <= UNIT_TIMEOUTS && c.ifCursor <= NETIF_COUNT && c.phase == Service
    requires QuietBelow(u, c.now, c.cursor, c.ifCursor) && ServiceUnit(u, c.now, c.cursor, c.ifCursor).ran
    ensures var r := ServiceUnit(u, c.now, c.cursor, c.ifCursor); Served(c, u, TakeHold(c, r.handed), r.units, OK)
  {
    ServicePays(u, c.now, c.cursor, c.ifCursor);
    BelowKept(u, c.now, c.cursor, c.ifCursor);
  }

  lemma {:induction false} ServiceFromPays(c: Ctx, u: Units)
    requires Ok(u) && UNIT_ARP <= c.cursor <= UNIT_TIMEOUTS + 1 && c.ifCursor <= NETIF_COUNT && c.phase == Service
    requires QuietBelow(u, c.now, c.cursor, c.ifCursor)
    ensures var r := ServiceFrom(c, u); Served(c, u, r.0, r.1, r.2)
    decreases UNIT_TIMEOUTS + 1 - c.cursor, NETIF_COUNT - c.ifCursor
  {
    if c.cursor <= UNIT_TIMEOUTS {
      var r := ServiceUnit(u, c.now, c.cursor, c.ifCursor);
      if r.ran {
        ServedRan(c, u);
      } else {
        ServicePays(u, c.now, c.cursor, c.ifCursor);
        QuietMovesOn(u, c.now, c.cursor, c.ifCursor);
        if c.cursor == UNIT_ND6 && c.ifCursor < NETIF_COUNT {
          ServiceFromPays(c.(ifCursor := c.ifCursor + 1), r.units);
        } else {
          ServiceFromPays(c.(cursor := c.cursor + 1, ifCursor := 0), r.units);
        }
      }
    }
  }

  lemma ServiceCallPays(c: Ctx, u: Units)
    requires Ok(u) && c.phase == Service && Placed(c) && QuietBelow(u, c.now, c.cursor, c.ifCursor)
    ensures var (d, v, out) := ServiceCall(c, u);
            && Ok(v) && Placed(d) && d.now == c.now && out.status != ERR
            && (out.status == OK ==>
                  && d.phase == Service && c.cursor <= d.cursor && QuietBelow(v, c.now, d.cursor, d.ifCursor)
                  && ServiceWork(v, c.now) < ServiceWork(u, c.now))
            && (out.status == BUSY ==>
                  d.phase == Flush && d.cursor == UNIT_ARP_HOLD && QuietBelow(v, c.now, UNIT_TIMEOUTS + 1, 0))
  {
    ServiceFromPays(DropHold(c), u);
  }

  /** Service calls made until one does not answer OK: where they leave things, and how many steps they ran. */
  ghost function Serve(c: Ctx, u: Units): (Ctx, Units, nat)
    requires Ok(u) && c.phase == Service && Placed(c) && QuietBelow(u, c.now, c.cursor, c.ifCursor)
    decreases ServiceWork(u, c.now)
  {
    ServiceCallPays(c, u);
    var r := ServiceCall(c, u);
    if r.2.status == OK then var s := Serve(r.0, r.1); (s.0, s.1, s.2 + 1) else (r.0, r.1, 0)
  }

  /**
   * The service phase always ends in the flush, in no more steps than the work the units had, and by then each one
   * has nothing more at this reading: ARP neither a frame to hand back nor a REQUEST due, the deadline list no
   * deadline reached, every other unit no step left.
   */
  lemma {:induction false} ServiceReachesFlush(c: Ctx, u: Units)
    requires Ok(u) && c.phase == Service && Placed(c) && QuietBelow(u, c.now, c.cursor, c.ifCursor)
    ensures var (d, v, steps) := Serve(c, u);
            && d.phase == Flush && d.cursor == UNIT_ARP_HOLD && steps <= ServiceWork(u, c.now)
            && Ok(v) && forall k :: UNIT_ARP <= k <= UNIT_TIMEOUTS ==> UnitQuiet(v, c.now, k)
    decreases ServiceWork(u, c.now)
  {
    ServiceCallPays(c, u);
    var r := ServiceCall(c, u);
    if r.2.status == OK {
      ServiceReachesFlush(r.0, r.1);
    }
  }

  // --- the deferred work -----------------------------------------------------------

  /** At most how many steps the flush has left. */
  function FlushWork(u: Units): nat
    requires u.acks.Some? ==> D.Sized(u.acks.value)
  {
    (if u.arp.Some? then A.InUse(u.arp.value.holds) else 0) + Total(u.others)
    + if u.acks.Some? then D.Owing(u.acks.value, 0) else 0
  }

  /** Deferred work of a unit that is done: no resolved frame waiting, no step left, no acknowledgment owed. */
  ghost predicate FlushQuiet(u: Units, k: nat)
    requires Ok(u)
  {
    if k == UNIT_ARP_HOLD then
      u.arp.Some? ==> forall j :: 0 <= j < |u.arp.value.rows| ==>
        u.arp.value.rows[j].state != A.Stable || u.arp.value.queues[j] == []
    else if k == UNIT_TCP_ACK then
      u.acks.Some? ==> forall j :: 0 <= j < D.PCBS ==> !u.acks.value.rows[j].ackOwed
    else k >= UNIT_COUNT || u.others[k] == []
  }

  lemma FlushPays(u: Units, cursor: nat)
    requires Ok(u) && UNIT_ARP_HOLD <= cursor <= UNIT_TCP_ACK
    ensures var r := FlushUnit(u, cursor);
            && Ok(r.units)
            && (r.ran ==> FlushWork(r.units) < FlushWork(u))
            && (!r.ran ==> FlushQuiet(r.units, cursor))
            && (forall k :: UNIT_ARP_HOLD <= k < cursor && FlushQuiet(u, k) ==> FlushQuiet(r.units, k))
  {
    FlushUnitKeeps(u, cursor);
    if cursor == UNIT_ARP_HOLD {
      if u.arp.Some? {
        E.DequeueKeeps(u.arp.value);
      }
    } else if cursor == UNIT_TCP_ACK {
      if u.acks.Some? {
        D.AckPays(u.acks.value, 0);
        D.AckClears(u.acks.value, 0);
      }
    } else if u.others[cursor] != [] {
      TotalDrops(u.others, cursor);
    }
  }

  ghost predicate FlushedBelow(u: Units, cursor: nat)
    requires Ok(u)
  {
    forall k :: UNIT_ARP_HOLD <= k < cursor ==> FlushQuiet(u, k)
  }

  lemma {:induction false} FlushFromPays(c: Ctx, u: Units)
    requires Ok(u) && UNIT_ARP_HOLD <= c.cursor <= UNIT_COUNT && c.phase == Flush && FlushedBelow(u, c.cursor)
    ensures var (d, v, status, _) := FlushFrom(c, u);
            && Ok(v) && d.now == c.now && status != ERR
            && (status == OK ==>
                  && d.phase == Flush && c.cursor <= d.cursor <= UNIT_COUNT
                  && FlushedBelow(v, d.cursor) && FlushWork(v) < FlushWork(u))
            && (status == BUSY ==> d == c.(phase := Done, cursor := UNIT_COUNT) && FlushedBelow(v, UNIT_COUNT))
    decreases UNIT_COUNT - c.cursor
  {
    if c.cursor < UNIT_COUNT {
      var r := FlushUnit(u, c.cursor);
      FlushPays(u, c.cursor);
      if !r.ran {
        UnrunPays(u, c.cursor);
        FlushFromPays(c.(cursor := c.cursor + 1), r.units);
      }
    }
  }

  lemma UnrunPays(u: Units, cursor: nat)
    requires Ok(u) && UNIT_ARP_HOLD <= cursor <= UNIT_TCP_ACK && !FlushUnit(u, cursor).ran
    ensures Ok(FlushUnit(u, cursor).units) && FlushWork(FlushUnit(u, cursor).units) <= FlushWork(u)
  {
    FlushUnitKeeps(u, cursor);
    if cursor == UNIT_ARP_HOLD && u.arp.Some? {
      E.DequeueKeeps(u.arp.value);
    } else if cursor == UNIT_TCP_ACK && u.acks.Some? {
      D.AckOwesNoMore(u.acks.value, 0);
    }
  }

  lemma FlushCallPays(c: Ctx, u: Units)
    requires Ok(u) && c.phase == Flush && Placed(c) && FlushedBelow(u, c.cursor)
    ensures var (d, v, out) := FlushCall(c, u);
            && Ok(v) && Placed(d) && d.now == c.now && out.status != ERR
            && (out.status == OK ==> d.phase == Flush && FlushedBelow(v, d.cursor) && FlushWork(v) < FlushWork(u))
            && (out.status == BUSY ==> d.phase == Done && Lent(d).None? && FlushedBelow(v, UNIT_COUNT))
  {
    FlushFromPays(DropHold(c), u);
  }

  /** Flush calls made until one does not answer OK. */
  ghost function Settle(c: Ctx, u: Units): (Ctx, Units, nat)
    requires Ok(u) && c.phase == Flush && Placed(c) && FlushedBelow(u, c.cursor)
    decreases FlushWork(u)
  {
    FlushCallPays(c, u);
    var r := FlushCall(c, u);
    if r.2.status == OK then var s := Settle(r.0, r.1); (s.0, s.1, s.2 + 1) else (r.0, r.1, 0)
  }

  /**
   * The flush always ends the tick, in no more steps than frames held, acknowledgments owed and steps left; by then
   * no resolved frame waits, nothing is owed, and no descriptor is lent.
   */
  lemma {:induction false} FlushReachesDone(c: Ctx, u: Units)
    requires Ok(u) && c.phase == Flush && Placed(c) && FlushedBelow(u, c.cursor)
    ensures var (d, v, steps) := Settle(c, u);
            && d.phase == Done && Lent(d).None? && steps <= FlushWork(u)
            && Ok(v) && forall k :: UNIT_ARP_HOLD <= k <= UNIT_TCP_ACK ==> FlushQuiet(v, k)
    decreases FlushWork(u)
  {
    FlushCallPays(c, u);
    var r := FlushCall(c, u);
    if r.2.status == OK {
      FlushReachesDone(r.0, r.1);
    }
  }

  /** From the end of the drain a tick runs to its end: its services, then its deferred work, then nothing lent. */
  lemma TickCompletes(c: Ctx, u: Units)
    requires Ok(u) && c.phase == Service && c.cursor == UNIT_ARP && c.ifCursor == 0
    ensures var (d, v, served) := Serve(c, u);
            && Ok(v) && d.phase == Flush && Placed(d) && FlushedBelow(v, d.cursor)
            && var (e, w, flushed) := Settle(d, v);
               e.phase == Done && Lent(e).None? && served <= ServiceWork(u, c.now) && flushed <= FlushWork(v)
  {
    ServiceReachesFlush(c, u);
    var (d, v, served) := Serve(c, u);
    FlushReachesDone(d, v);
  }

  // --- descriptors lent over whole runs --------------------------------------------

  datatype Op =
    | OpenOp(now: u32)
    | DrainOp(rings: seq<nat>, after: Units)
    | ServiceOp
    | FlushOp

  /** What a unit handed out in one step. */
  datatype Loaned = Loaned(unit: nat, handed: Handed)

  /**
   * A scheduler, its units, what each step reported handed out, what each of those was given back as, and the one of
   * them not given back yet.
   */
  datatype Run = Run(c: Ctx, u: Units, lent: seq<Loaned>, back: seq<Option<D.Pin>>, due: Option<Handed>)

  /** A call that ran: the last hand-out is given back as the call reports, and what it hands out itself is lent. */
  function Booked(r: Run, c: Ctx, u: Units, out: Out): Run {
    Run(c, u,
        if out.handed.Some? then r.lent + [Loaned(out.unit, out.handed.value)] else r.lent,
        if r.due.Some? then r.back + [out.unpinned] else r.back,
        out.handed)
  }

  /** Two rings, and units a frame's dispatch may leave. */
  ghost predicate Fair(op: Op) {
    op.DrainOp? ==> |op.rings| == NETIF_COUNT && Ok(op.after)
  }

  ghost function After(r: Run, op: Op): Run
    requires Ok(r.u) && Placed(r.c) && Fair(op)
  {
    match op
    case OpenOp(now) =>
      var (c, u) := Open(r.c, r.u, now);
      r.(c := c, u := u)
    case DrainOp(rings, after) =>
      var (c, status) := DrainCall(r.c, rings);
      r.(c := c, u := if status == OK then after else r.u)
    case ServiceOp =>
      var (c, u, out) := ServiceCall(r.c, r.u);
      if out.status == ERR then r else Booked(r, c, u, out)
    case FlushOp =>
      var (c, u, out) := FlushCall(r.c, r.u);
      if out.status == ERR then r else Booked(r, c, u, out)
  }

  /** What has been given back so far: each hand-out but the one due, once, in order, as its own hand-out says. */
  ghost predicate Returned(lent: seq<Loaned>, back: seq<Option<D.Pin>>, due: Option<Handed>) {
    && |lent| == |back| + (if due.Some? then 1 else 0)
    && (due.Some? ==> lent[|back|].handed == due.value)
    && (forall k :: 0 <= k < |back| ==> back[k] == PinOf(lent[k].handed))
  }

  /** What is held for the next call is the hand-out due, where it names a descriptor. */
  predicate Holds(c: Ctx, due: Option<Handed>) {
    Loan(c) == if due.Some? && due.value.desc != DESC_NONE then due else None
  }

  ghost predicate Settled(r: Run) {
    && Ok(r.u) && Placed(r.c) && Holds(r.c, r.due) && Returned(r.lent, r.back, r.due)
    && (r.c.phase == Done ==> r.due.None?)
  }

  /** A step that runs holds exactly what its unit handed out, in whichever service it stops. */
  lemma {:induction false} ServiceHolds(c: Ctx, u: Units)
    requires Ok(u) && UNIT_ARP <= c.cursor <= UNIT_TIMEOUTS + 1 && c.ifCursor <= NETIF_COUNT && Loan(c).None?
    ensures var r := ServiceFrom(c, u); Holds(r.0, r.3) && (r.2 != OK ==> r.3.None?)
    decreases UNIT_TIMEOUTS + 1 - c.cursor, NETIF_COUNT - c.ifCursor
  {
    if c.cursor <= UNIT_TIMEOUTS {
      var r := ServiceUnit(u, c.now, c.cursor, c.ifCursor);
      UnitKeeps(u, c.now, c.cursor, c.ifCursor);
      if !r.ran {
        if c.cursor == UNIT_ND6 && c.ifCursor < NETIF_COUNT {
          ServiceHolds(c.(ifCursor := c.ifCursor + 1), r.units);
        } else {
          ServiceHolds(c.(cursor := c.cursor + 1, ifCursor := 0), r.units);
        }
      }
    }
  }

  lemma {:induction false} FlushHolds(c: Ctx, u: Units)
    requires Ok(u) && UNIT_ARP_HOLD <= c.cursor <= UNIT_COUNT && Loan(c).None?
    ensures var r := FlushFrom(c, u); Holds(r.0, r.3) && (r.2 != OK ==> r.3.None?)
    decreases UNIT_COUNT - c.cursor
  {
    if c.cursor < UNIT_COUNT {
      var r := FlushUnit(u, c.cursor);
      FlushUnitKeeps(u, c.cursor);
      if !r.ran {
        FlushHolds(c.(cursor := c.cursor + 1), r.units);
      }
    }
  }

  lemma {:induction false} ServiceFromPlaced(c: Ctx, u: Units)
    requires Ok(u) && UNIT_ARP <= c.cursor <= UNIT_TIMEOUTS + 1 && c.ifCursor <= NETIF_COUNT && c.phase == Service
    ensures var r := ServiceFrom(c, u);
            && Ok(r.1) && Placed(r.0) && (r.0.phase == Service || r.0.phase == Flush) && r.2 != ERR
    decreases UNIT_TIMEOUTS + 1 - c.cursor, NETIF_COUNT - c.ifCursor
  {
    if c.cursor <= UNIT_TIMEOUTS {
      var r := ServiceUnit(u, c.now, c.cursor, c.ifCursor);
      UnitKeeps(u, c.now, c.cursor, c.ifCursor);
      if !r.ran {
        if c.cursor == UNIT_ND6 && c.ifCursor < NETIF_COUNT {
          ServiceFromPlaced(c.(ifCursor := c.ifCursor + 1), r.units);
        } else {
          ServiceFromPlaced(c.(cursor := c.cursor + 1, ifCursor := 0), r.units);
        }
      }
    }
  }

  lemma {:induction false} FlushFromPlaced(c: Ctx, u: Units)
    requires Ok(u) && UNIT_ARP_HOLD <= c.cursor <= UNIT_COUNT && c.phase == Flush
    ensures var r := FlushFrom(c, u);
            && Ok(r.1) && Placed(r.0) && (r.0.phase == Flush || r.0.phase == Done) && r.2 != ERR
            && (r.0.phase == Done ==> r.2 == BUSY)
    decreases UNIT_COUNT - c.cursor
  {
    if c.cursor < UNIT_COUNT {
      var r := FlushUnit(u, c.cursor);
      FlushUnitKeeps(u, c.cursor);
      if !r.ran {
        FlushFromPlaced(c.(cursor := c.cursor + 1), r.units);
      }
    }
  }

  lemma {:induction false} DrainFromPlaced(c: Ctx, rings: seq<nat>)
    requires |rings| == NETIF_COUNT && c.ifCursor <= NETIF_COUNT && c.phase == Drain
    ensures var r := DrainFrom(c, rings);
            Placed(r.0) && r.0.phase != Done && Loan(r.0) == Loan(c)
    decreases NETIF_COUNT - c.ifCursor
  {
    if c.ifCursor < NETIF_COUNT && rings[c.ifCursor] == 0 {
      DrainFromPlaced(c.(ifCursor := c.ifCursor + 1), rings);
    }
  }

  lemma NextSettles(r: Run, op: Op)
    requires Settled(r) && Fair(op)
    ensures Settled(After(r, op))
  {
    match op {
      case OpenOp(now) =>
      case DrainOp(rings, after) =>
        if r.c.phase == Drain {
          DrainFromPlaced(r.c, rings);
        }
      case ServiceOp =>
        if r.c.phase == Service {
          ServiceFromPlaced(DropHold(r.c), r.u);
          ServiceHolds(DropHold(r.c), r.u);
        }
      case FlushOp =>
        if r.c.phase == Flush {
          FlushFromPlaced(DropHold(r.c), r.u);
          FlushHolds(DropHold(r.c), r.u);
        }
    }
  }

  /** A cleared scheduler over some units. */
  function Begun(u: Units): Run {
    Run(Ctx(Idle, 0, 0, 0, DESC_NONE, NETIF_NONE), u, [], [], None)
  }

  ghost predicate AllFair(ops: seq<Op>) {
    forall k :: 0 <= k < |ops| ==> Fair(ops[k])
  }

  ghost function RunFrom(r: Run, ops: seq<Op>): Run
    requires Settled(r) && AllFair(ops)
    decreases |ops|
  {
    if ops == [] then r
    else
      NextSettles(r, ops[0]);
      FairRest(ops);
      RunFrom(After(r, ops[0]), ops[1..])
  }

  /**
   * Over every run of calls in any order, what each step reported handed out is given up exactly once, in order, by the
   * call after it, to the ring it was handed out under; when a tick is done, all of it has been.
   */
  lemma {:induction false} RunReturnsEachLoan(r: Run, ops: seq<Op>)
    requires Settled(r) && AllFair(ops)
    ensures var s := RunFrom(r, ops);
            Returned(s.lent, s.back, s.due) && (s.c.phase == Done ==> |s.lent| == |s.back|) && Settled(s)
    decreases |ops|
  {
    if ops != [] {
      NextSettles(r, ops[0]);
      FairRest(ops);
      RunReturnsEachLoan(After(r, ops[0]), ops[1..]);
    }
  }

  lemma FairRest(ops: seq<Op>)
    requires ops != [] && AllFair(ops)
    ensures AllFair(ops[1..])
  {
    forall k | 0 <= k < |ops[1..]| ensures Fair(ops[1..][k]) {
      assert ops[1..][k] == ops[k + 1];
    }
  }

  lemma BegunIsSettled(u: Units)
    requires Ok(u)
    ensures Settled(Begun(u))
  {
  }
}
