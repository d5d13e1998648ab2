/** The dispatcher's connection rows in place (src/core/dispatch.c), both TCP calls proved against DispatchTcp. */
module Dispatcher {
  import opened Words
  import opened TcpStream
  import D = DispatchTcp

  class Rows {
    var ready: bool
    const pcbs: array<Option<Pcb>>
    const rows: array<D.Row>
    var holdDesc: u16
    var holdNetif: u8

    ghost predicate Valid()
      reads this
    {
      pcbs.Length == D.PCBS && rows.Length == D.PCBS
    }

    ghost function View(): (s: D.State)
      requires Valid()
      reads this, pcbs, rows
      ensures D.Sized(s)
    {
      D.State(pcbs[..], rows[..], holdDesc, holdNetif)
    }

    constructor ()
      ensures Valid() && !ready && fresh(pcbs) && fresh(rows)
    {
      pcbs := new Option<Pcb>[D.PCBS](_ => None);
      rows := new D.Row[D.PCBS](_ => D.Row(false, 0));
      ready, holdDesc, holdNetif := false, D.DESC_NONE, D.NETIF_NONE;
    }

    /** The pin a lent descriptor is given back as (d_unpin). */
    method Unpin() returns (pin: Option<D.Pin>)
      requires Valid()
      ensures pin == D.Lent(View())
    {
      if holdNetif >= NETIF_COUNT || holdDesc == D.DESC_NONE {
        return None;
      }
      return Some(D.Pin(holdNetif, holdDesc % 0x100));
    }

    /** Held text delivered again (idemip_dispatch_tcp_deliver). */
    method TcpDeliver(pcb: u16) returns (a: D.Answer)
      requires Valid()
      modifies this, pcbs, rows
      ensures Valid() && ready == old(ready)
      ensures !ready ==> a == D.Answer(ERR, Nothing, None) && View() == old(View())
      ensures ready ==> (View(), a) == D.DeliverCall(old(View()), pcb)
    {
      if !ready || pcb >= D.PCBS {
        return D.Answer(ERR, Nothing, None);
      }
      var pin := Unpin();
      holdDesc, holdNetif := D.DESC_NONE, D.NETIF_NONE;
      if pcbs[pcb].None? {
        return D.Answer(ERR, Nothing, pin);
      }
      var p := pcbs[pcb].value;
      if p.queue == [] {
        return D.Answer(BUSY, Nothing, pin);
      }
      var head := p.queue[0];
      if Sub32(head.seq_, p.rcvNxt) != 0 && Sub32(head.seq_, p.rcvNxt) < TWO_31 {
        return D.Answer(BUSY, Nothing, pin);
      }
      var skip := Sub32(p.rcvNxt, head.seq_);
      var given := Spent(head.desc);
      if skip < head.len {
        given := Text(head.desc, p.rcvNxt, (head.offset + skip) % TWO_16, head.len - skip);
        p := p.(rcvNxt := Add32(p.rcvNxt, head.len - skip));
        rows[pcb] := rows[pcb].(ackOwed := true);
      }
      pcbs[pcb] := Some(p.(queue := p.queue[1..]));
      holdDesc, holdNetif := head.desc, rows[pcb].netif;
      return D.Answer(OK, given, pin);
    }

    /** One acknowledgment, for the first live connection that owes (idemip_dispatch_tcp_ack). */
    method TcpAck() returns (status: Status, report: Option<D.Report>)
      requires Valid()
      modifies rows
      ensures Valid()
      ensures !ready ==> status == ERR && report.None? && View() == old(View())
      ensures ready ==>
        (View(), report) == D.AckFrom(old(View()), 0) && status == if report.Some? then OK else BUSY
    {
      if !ready {
        return ERR, None;
      }
      var i := 0;
      while i < D.PCBS
        invariant i <= D.PCBS
        invariant D.AckFrom(View(), i) == D.AckFrom(old(View()), 0)
      {
        if rows[i].ackOwed {
          ghost var before := View();
          rows[i] := rows[i].(ackOwed := false);
          assert View() == before.(rows := before.rows[i := before.rows[i].(ackOwed := false)]);
          if pcbs[i].Some? {
            return OK, Some(D.Report(i, pcbs[i].value.sndNxt, pcbs[i].value.rcvNxt));
          }
        }
        i := i + 1;
      }
      return BUSY, None;
    }
  }
}
