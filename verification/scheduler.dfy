/** The scheduler's cursors updated in place over the units it drives (src/core/tick.c), proved against TickModel. */
module Scheduler {
  import opened Words
  import T = TickModel
  import D = DispatchTcp
  import ArpTable
  import Timeouts
  import Dispatcher

  class Tick {
    var ready: bool
    var phase: T.Phase
    var cursor: nat
    var ifCursor: nat
    var now: u32
    var holdDesc: u16
    var holdNetif: u8
    const arp: ArpTable.Resolver
    const timeouts: Timeouts.Table
    const acks: Dispatcher.Rows
    var nd6: seq<T.Steps>
    var others: seq<T.Steps>
    var rings: seq<nat>

    ghost function Cursors(): T.Ctx
      reads `phase, `cursor, `ifCursor, `now, `holdDesc, `holdNetif
    {
      T.Ctx(phase, cursor, ifCursor, now, holdDesc, holdNetif)
    }

    ghost predicate Valid()
      reads `nd6, `others, `rings, arp, arp.rows, arp.cells, timeouts, timeouts.slots, acks
    {
      && arp.Valid() && timeouts.Valid() && acks.Valid()
      && |nd6| == NETIF_COUNT && |others| == T.UNIT_COUNT && |rings| == NETIF_COUNT
    }

    /** The units as the scheduler finds them; one no clear has run on answers as one that is not bound. */
    ghost function Units(): (u: T.Units)
      requires Valid()
      reads `nd6, `others, `rings, arp, arp.rows, arp.cells, timeouts, timeouts.slots, acks, acks.pcbs, acks.rows
      ensures T.Ok(u)
    {
      T.Units(if arp.ready then Some(arp.t) else None, if timeouts.ready then Some(timeouts.View()) else None,
              if acks.ready then Some(acks.View()) else None, nd6, others)
    }

    constructor (arp: ArpTable.Resolver, timeouts: Timeouts.Table, acks: Dispatcher.Rows, nd6: seq<T.Steps>,
                 others: seq<T.Steps>, rings: seq<nat>)
      requires arp.Valid() && timeouts.Valid() && acks.Valid()
      requires |nd6| == NETIF_COUNT && |others| == T.UNIT_COUNT && |rings| == NETIF_COUNT
      ensures Valid() && ready && Cursors() == T.Ctx(T.Idle, 0, 0, 0, T.DESC_NONE, T.NETIF_NONE)
      ensures this.arp == arp && this.timeouts == timeouts && this.acks == acks && this.nd6 == nd6
        && this.others == others
      ensures this.rings == rings
    {
      this.arp, this.timeouts, this.acks, this.nd6, this.others, this.rings := arp, timeouts, acks, nd6, others, rings;
      ready, phase, cursor, ifCursor, now := true, T.Idle, 0, 0, 0;
      holdDesc, holdNetif := T.DESC_NONE, T.NETIF_NONE;
    }

    /** The pin lent given back, and none lent (t_drop_hold). */
    method DropHold() returns (pin: Option<D.Pin>)
      modifies this`holdDesc, this`holdNetif
      ensures pin == T.Lent(old(Cursors())) && Cursors() == T.DropHold(old(Cursors()))
    {
      pin := None;
      if holdNetif < NETIF_COUNT && holdDesc != T.DESC_NONE {
        pin := Some(D.Pin(holdNetif, holdDesc % 0x100));
      }
      holdDesc, holdNetif := T.DESC_NONE, T.NETIF_NONE;
    }

    /** A tick opened (idemip_tick_open). */
    method Open(reading: u32) returns (status: Status)
      requires Valid()
      modifies this, timeouts`now
      ensures Valid() && ready == old(ready)
      ensures !ready ==> status == ERR && Cursors() == old(Cursors()) && Units() == old(Units())
      ensures ready ==> status == OK && (Cursors(), Units()) == T.Open(old(Cursors()), old(Units()), reading)
    {
      if !ready {
        return ERR;
      }
      now, phase, cursor, ifCursor := reading, T.Drain, T.UNIT_ARP, 0;
      var _, _, _ := timeouts.Advance(reading);
      assert Units() == old(Units()).(timeouts := if timeouts.ready then Some(timeouts.View()) else None);
      return OK;
    }

    /** A frame taken off the first ring from the cursor on that has one, or on to the services (idemip_tick_drain). */
    method Drain() returns (status: Status)
      requires Valid() && T.Placed(Cursors())
      modifies `phase, `cursor, `ifCursor, `rings
      ensures Valid() && Units() == old(Units())
      ensures !ready ==> status == ERR && Cursors() == old(Cursors()) && rings == old(rings)
      ensures ready ==> (Cursors(), status) == T.DrainCall(old(Cursors()), old(rings))
      ensures status != OK ==> rings == old(rings)
      ensures status == OK ==>
        ifCursor < NETIF_COUNT && old(rings)[ifCursor] > 0 && rings == old(rings)[ifCursor := old(rings)[ifCursor] - 1]
    {
      if !ready || phase != T.Drain {
        return ERR;
      }
      while ifCursor < NETIF_COUNT
        invariant Valid() && ifCursor <= NETIF_COUNT && rings == old(rings) && Units() == old(Units())
        invariant T.DrainFrom(Cursors(), rings) == T.DrainFrom(old(Cursors()), rings)
      {
        if rings[ifCursor] > 0 {
          rings := rings[ifCursor := rings[ifCursor] - 1];
          return OK;
        }
        ifCursor := ifCursor + 1;
      }
      phase, cursor, ifCursor := T.Service, T.UNIT_ARP, 0;
      return BUSY;
    }

    /** ARP ticked, a frame it gave up lent under the ring its descriptor names (t_service_arp). */
    method ServiceArp() returns (ran: bool, handed: Option<T.Handed>)
      requires Valid()
      modifies this`holdDesc, this`holdNetif, arp`rowsNow, arp`cellsNow, arp`t, arp`held, arp`sweep, arp.rows, arp.cells
      ensures Valid()
      ensures var r := T.ArpService(old(Units()), now);
              && ran == r.ran && handed == r.handed && Units() == r.units
              && Cursors() == T.TakeHold(old(Cursors()), handed)
    {
      var status, out := arp.Tick(now);
      assert Units() == old(Units()).(arp := if arp.ready then Some(arp.t) else None);
      if status != OK {
        return false, None;
      }
      handed := if out.Back? then Some(T.Handed(T.Ring(out.frame.desc), out.frame.desc)) else None;
      Hold(handed);
      return true, handed;
    }

    /** The next deadline reached, taken off the list (t_service_timeouts). */
    method ServiceTimeouts() returns (ran: bool)
      requires Valid()
      modifies timeouts`head, timeouts`order, timeouts`armed, timeouts`table, timeouts.slots
      ensures Valid()
      ensures var r := T.TimeoutService(old(Units())); ran == r.ran && Units() == r.units
    {
      var x, _, _ := timeouts.Expire();
      return x.status == OK;
    }

    /** The next step of a unit that is not modelled. */
    method StepOther(unit: nat) returns (ran: bool, handed: Option<T.Handed>)
      requires Valid() && unit < T.UNIT_COUNT
      modifies this`others, this`holdDesc, this`holdNetif
      ensures Valid()
      ensures var r := T.OtherStep(old(Units()), unit);
              && ran == r.ran && handed == r.handed && Units() == r.units
              && Cursors() == T.TakeHold(old(Cursors()), handed)
    {
      if others[unit] == [] {
        return false, None;
      }
      handed := others[unit][0];
      Hold(handed);
      others := others[unit := others[unit][1..]];
      return true, handed;
    }

    method StepNd6(i: nat) returns (ran: bool, handed: Option<T.Handed>)
      requires Valid() && i < NETIF_COUNT
      modifies this`nd6, this`holdDesc, this`holdNetif
      ensures Valid()
      ensures var r := T.Nd6Step(old(Units()), i);
              && ran == r.ran && handed == r.handed && Units() == r.units
              && Cursors() == T.TakeHold(old(Cursors()), handed)
    {
      if nd6[i] == [] {
        return false, None;
      }
      handed := nd6[i][0];
      Hold(handed);
      nd6 := nd6[i := nd6[i][1..]];
      return true, handed;
    }

    /** A descriptor lent until the next call (t_hold). */
    method Hold(h: Option<T.Handed>)
      modifies this`holdDesc, this`holdNetif
      ensures Cursors() == T.TakeHold(old(Cursors()), h)
    {
      if h.Some? {
        holdDesc, holdNetif := h.value.desc, h.value.netif;
      }
    }

    /** The unit under the cursor asked for a step, the neighbour machines interface by interface. */
    method ServiceStep() returns (ran: bool, handed: Option<T.Handed>)
      requires Valid() && T.UNIT_ARP <= cursor <= T.UNIT_TIMEOUTS && ifCursor <= NETIF_COUNT
      modifies this`holdDesc, this`holdNetif, this`nd6, this`others,
               arp`rowsNow, arp`cellsNow, arp`t, arp`held, arp`sweep, arp.rows, arp.cells,
               timeouts`head, timeouts`order, timeouts`armed, timeouts`table, timeouts.slots
      ensures Valid()
      ensures var r := T.ServiceUnit(old(Units()), now, cursor, ifCursor);
              && ran == r.ran && handed == r.handed && Units() == r.units
              && Cursors() == if ran then T.TakeHold(old(Cursors()), handed) else old(Cursors())
    {
      ran, handed := false, None;
      if cursor == T.UNIT_ARP {
        ran, handed := ServiceArp();
      } else if cursor == T.UNIT_ND6 {
        if ifCursor < NETIF_COUNT {
          ran, handed := StepNd6(ifCursor);
        }
      } else if cursor == T.UNIT_TIMEOUTS {
        ran := ServiceTimeouts();
      } else if cursor != T.UNIT_IP6_REASS {
        ran, handed := StepOther(cursor);
      }
    }

    /** The cursors moved on past a service that did not run, interface by interface for the neighbour machines. */
    method MoveOn()
      requires Valid()
      modifies `cursor, `ifCursor
      ensures Valid() && Cursors() == T.Onward(old(Cursors())) && Units() == old(Units())
    {
      if cursor == T.UNIT_ND6 && ifCursor < NETIF_COUNT {
        ifCursor := ifCursor + 1;
      } else {
        cursor, ifCursor := cursor + 1, 0;
      }
    }

    /** One turn of the service loop: a step, or the cursors moved on. */
    method ServiceTurn() returns (ran: bool, handed: Option<T.Handed>)
      requires Valid() && T.UNIT_ARP <= cursor <= T.UNIT_TIMEOUTS && ifCursor <= NETIF_COUNT
      modifies `cursor, `ifCursor, `holdDesc, `holdNetif, `nd6, `others,
               arp`rowsNow, arp`cellsNow, arp`t, arp`held, arp`sweep, arp.rows, arp.cells,
               timeouts`head, timeouts`order, timeouts`armed, timeouts`table, timeouts.slots
      ensures Valid() && old(cursor) <= cursor <= T.UNIT_TIMEOUTS + 1 && ifCursor <= NETIF_COUNT
      ensures ran ==>
        cursor == old(cursor) && (Cursors(), Units(), OK, handed) == T.ServiceFrom(old(Cursors()), old(Units()))
      ensures !ran ==> T.ServiceFrom(Cursors(), Units()) == T.ServiceFrom(old(Cursors()), old(Units()))
      ensures !ran ==> cursor > old(cursor) || (cursor == old(cursor) && ifCursor > old(ifCursor))
    {
      T.ServiceFromIs(Cursors(), Units());
      ran, handed := ServiceStep();
      if !ran {
        MoveOn();
      }
    }

    method ServiceLoop() returns (status: Status, handed: Option<T.Handed>)
      requires Valid() && T.UNIT_ARP <= cursor <= T.UNIT_TIMEOUTS && ifCursor <= NETIF_COUNT
      modifies `phase, `cursor, `ifCursor, `holdDesc, `holdNetif, `nd6, `others,
               arp`rowsNow, arp`cellsNow, arp`t, arp`held, arp`sweep, arp.rows, arp.cells,
               timeouts`head, timeouts`order, timeouts`armed, timeouts`table, timeouts.slots
      ensures Valid() && (Cursors(), Units(), status, handed) == T.ServiceFrom(old(Cursors()), old(Units()))
    {
      while cursor <= T.UNIT_TIMEOUTS
        invariant Valid() && T.UNIT_ARP <= cursor <= T.UNIT_TIMEOUTS + 1 && ifCursor <= NETIF_COUNT
        invariant T.ServiceFrom(Cursors(), Units()) == T.ServiceFrom(old(Cursors()), old(Units()))
        decreases T.UNIT_TIMEOUTS + 1 - cursor, NETIF_COUNT - ifCursor
      {
        var ran, h := ServiceTurn();
        if ran {
          return OK, h;
        }
      }
      phase, cursor := T.Flush, T.UNIT_ARP_HOLD;
      return BUSY, None;
    }

    /** One service call (idemip_tick_service). */
    method Service() returns (out: T.Out)
      requires Valid() && T.Placed(Cursors())
      modifies `phase, `cursor, `ifCursor, `holdDesc, `holdNetif, `nd6, `others,
               arp`rowsNow, arp`cellsNow, arp`t, arp`held, arp`sweep, arp.rows, arp.cells,
               timeouts`head, timeouts`order, timeouts`armed, timeouts`table, timeouts.slots
      ensures Valid()
      ensures !ready ==> out == T.REFUSED && Cursors() == old(Cursors()) && Units() == old(Units())
      ensures ready ==> (Cursors(), Units(), out) == T.ServiceCall(old(Cursors()), old(Units()))
    {
      if !ready || phase != T.Service {
        return T.REFUSED;
      }
      var pin := DropHold();
      var status, handed := ServiceLoop();
      return T.Out(status, if status == OK then cursor else 0, pin, handed);
    }

    /** A frame ARP held until its row was resolved, lent under that row's interface (t_flush_arp). */
    method FlushArp() returns (ran: bool, handed: Option<T.Handed>)
      requires Valid()
      modifies this`holdDesc, this`holdNetif, arp`rowsNow, arp`cellsNow, arp`t, arp`held, arp.rows, arp.cells
      ensures Valid()
      ensures var r := T.ArpFlush(old(Units()));
              && ran == r.ran && handed == r.handed && Units() == r.units
              && Cursors() == T.TakeHold(old(Cursors()), handed)
    {
      var status, out := arp.Dequeue();
      if status != OK {
        return false, None;
      }
      handed := Some(T.Handed(out.value.netif, out.value.frame.desc));
      Hold(handed);
      return true, handed;
    }

    /** One acknowledgment taken (t_flush_tcp_ack). */
    method FlushAcks() returns (ran: bool)
      requires Valid()
      modifies acks.rows
      ensures Valid()
      ensures var r := T.AckFlush(old(Units())); ran == r.ran && Units() == r.units
    {
      var status, _ := acks.TcpAck();
      return status == OK;
    }

    method FlushStep() returns (ran: bool, handed: Option<T.Handed>)
      requires Valid() && T.UNIT_ARP_HOLD <= cursor <= T.UNIT_TCP_ACK
      modifies this`holdDesc, this`holdNetif, this`others,
               arp`rowsNow, arp`cellsNow, arp`t, arp`held, arp.rows, arp.cells, acks.rows
      ensures Valid()
      ensures var r := T.FlushUnit(old(Units()), cursor);
              && ran == r.ran && handed == r.handed && Units() == r.units
              && Cursors() == if ran then T.TakeHold(old(Cursors()), handed) else old(Cursors())
    {
      handed := None;
      if cursor == T.UNIT_ARP_HOLD {
        ran, handed := FlushArp();
      } else if cursor == T.UNIT_TCP_ACK {
        ran := FlushAcks();
      } else {
        ran, handed := StepOther(cursor);
      }
    }

    method FlushLoop() returns (status: Status, handed: Option<T.Handed>)
      requires Valid() && T.UNIT_ARP_HOLD <= cursor <= T.UNIT_COUNT
      modifies `phase, `cursor, `holdDesc, `holdNetif, `others,
               arp`rowsNow, arp`cellsNow, arp`t, arp`held, arp.rows, arp.cells, acks.rows
      ensures Valid() && (Cursors(), Units(), status, handed) == T.FlushFrom(old(Cursors()), old(Units()))
    {
      while cursor < T.UNIT_COUNT
        invariant Valid() && T.UNIT_ARP_HOLD <= cursor <= T.UNIT_COUNT
        invariant T.FlushFrom(Cursors(), Units()) == T.FlushFrom(old(Cursors()), old(Units()))
      {
        var ran, h := FlushTurn();
        if ran {
          return OK, h;
        }
      }
      phase := T.Done;
      return BUSY, None;
    }

    method FlushTurn() returns (ran: bool, handed: Option<T.Handed>)
      requires Valid() && T.UNIT_ARP_HOLD <= cursor < T.UNIT_COUNT
      modifies `cursor, `holdDesc, `holdNetif, `others,
               arp`rowsNow, arp`cellsNow, arp`t, arp`held, arp.rows, arp.cells, acks.rows
      ensures Valid() && old(cursor) <= cursor <= T.UNIT_COUNT
      ensures ran ==>
        cursor == old(cursor) && (Cursors(), Units(), OK, handed) == T.FlushFrom(old(Cursors()), old(Units()))
      ensures !ran ==>
        cursor == old(cursor) + 1 && T.FlushFrom(Cursors(), Units()) == T.FlushFrom(old(Cursors()), old(Units()))
    {
      ghost var c, u := Cursors(), Units();
      T.FlushFromIs(c, u);
      ran, handed := FlushStep();
      ghost var v := Units();
      if !ran {
        cursor := cursor + 1;
        assert Cursors() == c.(cursor := c.cursor + 1) && Units() == v;
      }
    }

    /** One flush call (idemip_tick_flush). */
    method Flush() returns (out: T.Out)
      requires Valid() && T.Placed(Cursors())
      modifies `phase, `cursor, `holdDesc, `holdNetif, `others,
               arp`rowsNow, arp`cellsNow, arp`t, arp`held, arp.rows, arp.cells, acks.rows
      ensures Valid()
      ensures !ready ==> out == T.REFUSED && Cursors() == old(Cursors()) && Units() == old(Units())
      ensures ready ==> (Cursors(), Units(), out) == T.FlushCall(old(Cursors()), old(Units()))
    {
      if !ready || phase != T.Flush {
        return T.REFUSED;
      }
      var pin := DropHold();
      var status, handed := FlushLoop();
      return T.Out(status, if status == OK then cursor else 0, pin, handed);
    }
  }
}
