/**
 * The phases of one tick (src/core/tick.c): the services in dependency order, then the deferred work, one step a
 * call, each lending at most one descriptor until the call after.
 */
module TickModel {
  import opened Words
  import A = ArpModel
  import E = ArpEntries
  import DL = DeadlineList
  import D = DispatchTcp

  const DESC_NONE: u16 := 0xFFFF
  const NETIF_NONE: u8 := 0xFF

  const UNIT_ARP: nat := 1
  const UNIT_ND6: nat := 2
  const UNIT_IP4_REASS: nat := 3
  const UNIT_IP6_REASS: nat := 4
  const UNIT_IGMP: nat := 5
  const UNIT_MLD6: nat := 6
  const UNIT_NETIF: nat := 7
  const UNIT_TIMEOUTS: nat := 8
  const UNIT_ARP_HOLD: nat := 9
  const UNIT_IP4_RECLAIM: nat := 10
  const UNIT_IP6_DROP: nat := 11
  const UNIT_TCP_ACK: nat := 12
  const UNIT_COUNT: nat := 13

  datatype Phase = Idle | Drain | Service | Flush | Done

  /** A descriptor a step hands out, and the interface it is handed out under. */
  datatype Handed = Handed(netif: u8, desc: u16)

  /** A unit that is not modelled: the steps it has yet to report at this instant, and what each hands out. */
  type Steps = seq<Option<Handed>>

  /** The units the scheduler drives. A unit that is not bound is absent, or has no steps. */
  datatype Units = Units(arp: Option<A.Table>, timeouts: Option<DL.State>, acks: Option<D.State>,
                         nd6: seq<Steps>, others: seq<Steps>)

  datatype Ctx = Ctx(phase: Phase, cursor: nat, ifCursor: nat, now: u32, holdDesc: u16, holdNetif: u8)

  ghost predicate Ok(u: Units) {
    && (u.arp.Some? ==> A.Inv(u.arp.value))
    && (u.acks.Some? ==> D.Sized(u.acks.value))
    && |u.nd6| == NETIF_COUNT && |u.others| == UNIT_COUNT
  }

  /** The interface a descriptor names (t_desc_netif). */
  function Ring(desc: u16): u8 {
    if desc == DESC_NONE then NETIF_NONE else desc / 0x100
  }

  // --- one step of one unit --------------------------------------------------------

  /** A step asked of a unit: the units after it, whether it ran, and what it handed out. */
  datatype Ran = Ran(units: Units, ran: bool, handed: Option<Handed>)

  function ArpService(u: Units, now: u32): Ran
    requires Ok(u)
  {
    if u.arp.None? then Ran(u, false, None)
    else
      var r := E.Tick(u.arp.value, now);
      Ran(u.(arp := Some(r.0)), r.1 != E.Nothing,
          if r.1.Back? then Some(Handed(Ring(r.1.frame.desc), r.1.frame.desc)) else None)
  }

  function TimeoutService(u: Units): Ran {
    if u.timeouts.None? then Ran(u, false, None)
    else
      var r := DL.Expire(u.timeouts.value);
      Ran(u.(timeouts := Some(r.0)), r.1.status == OK, None)
  }

  /** An unmodelled unit's next step. */
  function OtherStep(u: Units, unit: nat): Ran
    requires Ok(u) && unit < UNIT_COUNT
  {
    if u.others[unit] == [] then Ran(u, false, None)
    else Ran(u.(others := u.others[unit := u.others[unit][1..]]), true, u.others[unit][0])
  }

  function Nd6Step(u: Units, i: nat): Ran
    requires Ok(u) && i < NETIF_COUNT
  {
    if u.nd6[i] == [] then Ran(u, false, None)
    else Ran(u.(nd6 := u.nd6[i := u.nd6[i][1..]]), true, u.nd6[i][0])
  }

  /** The service under the cursor asked; the interface cursor is the neighbour machines' own. */
  function ServiceUnit(u: Units, now: u32, cursor: nat, ifCursor: nat): Ran
    requires Ok(u) && UNIT_ARP <= cursor <= UNIT_TIMEOUTS
  {
    if cursor == UNIT_ARP then ArpService(u, now)
    else if cursor == UNIT_TIMEOUTS then TimeoutService(u)
    else if cursor == UNIT_IP6_REASS then Ran(u, false, None)
    else if cursor == UNIT_ND6 then (if ifCursor < NETIF_COUNT then Nd6Step(u, ifCursor) else Ran(u, false, None))
    else OtherStep(u, cursor)
  }

  function ArpFlush(u: Units): Ran
    requires Ok(u)
  {
    if u.arp.None? then Ran(u, false, None)
    else
      var r := E.Dequeue(u.arp.value);
      Ran(u.(arp := Some(r.0)), r.1.Some?,
          if r.1.Some? then Some(Handed(r.1.value.netif, r.1.value.frame.desc)) else None)
  }

  function AckFlush(u: Units): Ran
    requires Ok(u)
  {
    if u.acks.None? then Ran(u, false, None)
    else
      var r := D.AckFrom(u.acks.value, 0);
      Ran(u.(acks := Some(r.0)), r.1.Some?, None)
  }

  function FlushUnit(u: Units, cursor: nat): Ran
    requires Ok(u) && UNIT_ARP_HOLD <= cursor <= UNIT_TCP_ACK
  {
    if cursor == UNIT_ARP_HOLD then ArpFlush(u)
    else if cursor == UNIT_TCP_ACK then AckFlush(u)
    else OtherStep(u, cursor)
  }

  // --- the calls -------------------------------------------------------------------

  /** What a call answers: its status, the unit that ran, the pin it gave back first, and what the unit handed out. */
  datatype Out = Out(status: Status, unit: nat, unpinned: Option<D.Pin>, handed: Option<Handed>)

  const REFUSED: Out := Out(ERR, 0, None, None)

  /** What is held for the next call to give back. */
  function Loan(c: Ctx): Option<Handed> {
    if c.holdDesc == DESC_NONE then None else Some(Handed(c.holdNetif, c.holdDesc))
  }

  /** The pin a descriptor handed out is given back as, if any (t_unpin). */
  function PinOf(h: Handed): Option<D.Pin> {
    if h.netif >= NETIF_COUNT || h.desc == DESC_NONE then None else Some(D.Pin(h.netif, h.desc % 0x100))
  }

  /** The pin the next call gives back. */
  function Lent(c: Ctx): Option<D.Pin> {
    if Loan(c).None? then None else PinOf(Loan(c).value)
  }

  /** A descriptor handed out under the ring it belongs to. */
  predicate Home(h: Handed) {
    h.netif < NETIF_COUNT && h.desc / 0x100 == h.netif
  }

  function DropHold(c: Ctx): Ctx {
    c.(holdDesc := DESC_NONE, holdNetif := NETIF_NONE)
  }

  function TakeHold(c: Ctx, h: Option<Handed>): Ctx {
    if h.None? then c else c.(holdDesc := h.value.desc, holdNetif := h.value.netif)
  }

  function Open(c: Ctx, u: Units, now: u32): (Ctx, Units) {
    (c.(now := now, phase := Drain, cursor := UNIT_ARP, ifCursor := 0),
     if u.timeouts.Some? then u.(timeouts := Some(DL.Tick(u.timeouts.value, now))) else u)
  }

  /** The services from the cursor on, until one runs or all have been asked. */
  function ServiceFrom(c: Ctx, u: Units): (Ctx, Units, Status, Option<Handed>)
    requires Ok(u) && UNIT_ARP <= c.cursor <= UNIT_TIMEOUTS + 1 && c.ifCursor <= NETIF_COUNT
    decreases UNIT_TIMEOUTS + 1 - c.cursor, NETIF_COUNT - c.ifCursor
  {
    if c.cursor > UNIT_TIMEOUTS then (c.(phase := Flush, cursor := UNIT_ARP_HOLD), u, BUSY, None)
    else
      var r := ServiceUnit(u, c.now, c.cursor, c.ifCursor);
      if r.ran then (TakeHold(c, r.handed), r.units, OK, r.handed)
      else
        UnitKeeps(u, c.now, c.cursor, c.ifCursor);
        if c.cursor == UNIT_ND6 && c.ifCursor < NETIF_COUNT then ServiceFrom(c.(ifCursor := c.ifCursor + 1), r.units)
        else ServiceFrom(c.(cursor := c.cursor + 1, ifCursor := 0), r.units)
  }

  lemma UnitKeeps(u: Units, now: u32, cursor: nat, ifCursor: nat)
    requires Ok(u) && UNIT_ARP <= cursor <= UNIT_TIMEOUTS
    ensures Ok(ServiceUnit(u, now, cursor, ifCursor).units)
  {
    if cursor == UNIT_ARP && u.arp.Some? {
      E.TickKeeps(u.arp.value, now);
    }
  }

  /** The cursors past a service that did not run. */
  function Onward(c: Ctx): Ctx {
    if c.cursor == UNIT_ND6 && c.ifCursor < NETIF_COUNT then c.(ifCursor := c.ifCursor + 1)
    else c.(cursor := c.cursor + 1, ifCursor := 0)
  }

  /** One service asked, and the rest when it does not run. */
  lemma ServiceFromIs(c: Ctx, u: Units)
    requires Ok(u) && UNIT_ARP <= c.cursor <= UNIT_TIMEOUTS && c.ifCursor <= NETIF_COUNT
    ensures var r := ServiceUnit(u, c.now, c.cursor, c.ifCursor);
            && Ok(r.units)
            && ServiceFrom(c, u) == if r.ran then (TakeHold(c, r.handed), r.units, OK, r.handed)
                                    else ServiceFrom(Onward(c), r.units)
  {
    UnitKeeps(u, c.now, c.cursor, c.ifCursor);
  }

  /** One service call (idemip_tick_service). */
  function ServiceCall(c: Ctx, u: Units): (Ctx, Units, Out)
    requires Ok(u) && Placed(c)
  {
    if c.phase != Service then (c, u, REFUSED)
    else
      var r := ServiceFrom(DropHold(c), u);
      (r.0, r.1, Out(r.2, if r.2 == OK then r.0.cursor else 0, Lent(c), r.3))
  }

  /** The cursors are in range for the phase. */
  predicate Placed(c: Ctx) {
    && (c.phase == Service ==> UNIT_ARP <= c.cursor <= UNIT_TIMEOUTS && c.ifCursor <= NETIF_COUNT)
    && (c.phase == Drain ==> c.ifCursor <= NETIF_COUNT)
    && (c.phase == Flush ==> UNIT_ARP_HOLD <= c.cursor <= UNIT_COUNT)
  }

  /** The deferred work from the cursor on. */
  function FlushFrom(c: Ctx, u: Units): (Ctx, Units, Status, Option<Handed>)
    requires Ok(u) && UNIT_ARP_HOLD <= c.cursor <= UNIT_COUNT
    decreases UNIT_COUNT - c.cursor
  {
    if c.cursor == UNIT_COUNT then (c.(phase := Done), u, BUSY, None)
    else
      var r := FlushUnit(u, c.cursor);
      if r.ran then (TakeHold(c, r.handed), r.units, OK, r.handed)
      else
        FlushUnitKeeps(u, c.cursor);
        FlushFrom(c.(cursor := c.cursor + 1), r.units)
  }

  lemma FlushUnitKeeps(u: Units, cursor: nat)
    requires Ok(u) && UNIT_ARP_HOLD <= cursor <= UNIT_TCP_ACK
    ensures Ok(FlushUnit(u, cursor).units)
  {
    if cursor == UNIT_ARP_HOLD && u.arp.Some? {
      E.DequeueKeeps(u.arp.value);
    }
    if cursor == UNIT_TCP_ACK && u.acks.Some? {
      D.AckPays(u.acks.value, 0);
    }
  }

  /** One unit of the deferred work asked, and the rest when it does not run. */
  lemma FlushFromIs(c: Ctx, u: Units)
    requires Ok(u) && UNIT_ARP_HOLD <= c.cursor < UNIT_COUNT
    ensures var r := FlushUnit(u, c.cursor);
            && Ok(r.units)
            && FlushFrom(c, u) == if r.ran then (TakeHold(c, r.handed), r.units, OK, r.handed)
                                  else FlushFrom(c.(cursor := c.cursor + 1), r.units)
  {
    FlushUnitKeeps(u, c.cursor);
  }

  function FlushCall(c: Ctx, u: Units): (Ctx, Units, Out)
    requires Ok(u) && Placed(c)
  {
    if c.phase != Flush then (c, u, REFUSED)
    else
      var r := FlushFrom(DropHold(c), u);
      (r.0, r.1, Out(r.2, if r.2 == OK then r.0.cursor else 0, Lent(c), r.3))
  }

  /** The rings from the interface cursor on, until one has a frame waiting or all are empty. */
  function DrainFrom(c: Ctx, rings: seq<nat>): (Ctx, Status)
    requires |rings| == NETIF_COUNT && c.ifCursor <= NETIF_COUNT
    decreases NETIF_COUNT - c.ifCursor
  {
    if c.ifCursor == NETIF_COUNT then (c.(phase := Service, cursor := UNIT_ARP, ifCursor := 0), BUSY)
    else if rings[c.ifCursor] > 0 then (c, OK)
    else DrainFrom(c.(ifCursor := c.ifCursor + 1), rings)
  }

  /** One drain call (idemip_tick_drain): a frame off the ring the cursor stops at, or on to the services. */
  function DrainCall(c: Ctx, rings: seq<nat>): (Ctx, Status)
    requires |rings| == NETIF_COUNT && Placed(c)
  {
    if c.phase != Drain then (c, ERR) else DrainFrom(c, rings)
  }
}
