/**
 * The two TCP calls of the dispatcher (src/core/dispatch.c): held text delivered again with its descriptor lent until
 * the next call, and one acknowledgment per connection per batch (section 3.10.7.4 of RFC 9293).
 */
module DispatchTcp {
  import opened Words
  import opened TcpStream

  const PCBS: nat := 5
  const DESC_NONE: u16 := 0xFFFF
  const NETIF_NONE: u8 := 0xFF

  /** A connection's row: an acknowledgment owed, and the interface its segments last came in on. */
  datatype Row = Row(ackOwed: bool, netif: u8)

  datatype Pin = Pin(netif: u8, index: u8)

  datatype State = State(pcbs: seq<Option<Pcb>>, rows: seq<Row>, holdDesc: u16, holdNetif: u8)

  predicate Sized(s: State) {
    |s.pcbs| == PCBS && |s.rows| == PCBS
  }

  /** A descriptor together with the ring it belongs to. */
  function Handle(pin: Pin): u16 {
    pin.netif as int * 0x100 + pin.index
  }

  /** What a call answers: its status, what it hands up, and the pin it gives back. */
  datatype Answer = Answer(status: Status, given: Given, unpinned: Option<Pin>)

  /** The pin that is lent, on the ring the call will give it back to (d_unpin). */
  function Lent(s: State): Option<Pin> {
    if s.holdNetif >= NETIF_COUNT || s.holdDesc == DESC_NONE then None
    else Some(Pin(s.holdNetif, s.holdDesc % 0x100))
  }

  /** Held text delivered again (idemip_dispatch_tcp_deliver). */
  function DeliverCall(s: State, pcb: u16): (State, Answer)
    requires Sized(s)
  {
    if pcb >= PCBS then (s, Answer(ERR, Nothing, None))
    else
      var t := s.(holdDesc := DESC_NONE, holdNetif := NETIF_NONE);
      if s.pcbs[pcb].None? then (t, Answer(ERR, Nothing, Lent(s)))
      else
        var r := Deliver(s.pcbs[pcb].value);
        if r.1.Nothing? then (t, Answer(BUSY, Nothing, Lent(s)))
        else
          (t.(pcbs := s.pcbs[pcb := Some(r.0)],
              rows := if r.1.Text? then s.rows[pcb := s.rows[pcb].(ackOwed := true)] else s.rows,
              holdDesc := r.1.desc, holdNetif := s.rows[pcb].netif),
           Answer(OK, r.1, Lent(s)))
  }

  /** One acknowledgment: of SND.NXT and RCV.NXT, for a connection. */
  datatype Report = Report(pcb: nat, seq_: u32, ack: u32)

  /** The first live connection owed one, from an index on; those passed over owe nothing any more. */
  function AckFrom(s: State, i: nat): (State, Option<Report>)
    requires Sized(s) && i <= PCBS
    decreases PCBS - i
  {
    if i == PCBS then (s, None)
    else if !s.rows[i].ackOwed then AckFrom(s, i + 1)
    else
      var t := s.(rows := s.rows[i := s.rows[i].(ackOwed := false)]);
      if s.pcbs[i].Some? then (t, Some(Report(i, s.pcbs[i].value.sndNxt, s.pcbs[i].value.rcvNxt)))
      else AckFrom(t, i + 1)
  }

  // --- acknowledgments -------------------------------------------------------------

  /** What is owed, from an index on: one report for each live connection that owes, in order. */
  function OwedFrom(s: State, i: nat): seq<Report>
    requires Sized(s) && i <= PCBS
    decreases PCBS - i
  {
    if i == PCBS then []
    else
      (if s.rows[i].ackOwed && s.pcbs[i].Some? then [Report(i, s.pcbs[i].value.sndNxt, s.pcbs[i].value.rcvNxt)] else [])
      + OwedFrom(s, i + 1)
  }

  /** How many rows owe. */
  function Owing(s: State, i: nat): nat
    requires Sized(s) && i <= PCBS
    decreases PCBS - i
  {
    if i == PCBS then 0 else (if s.rows[i].ackOwed then 1 else 0) + Owing(s, i + 1)
  }

  /** A state with the rows below an index owing nothing. */
  function ClearTo(s: State, i: nat): State
    requires Sized(s) && i <= PCBS
  {
    s.(rows := seq(PCBS, k requires 0 <= k < PCBS => if k < i then s.rows[k].(ackOwed := false) else s.rows[k]))
  }

  lemma {:induction false} SuffixSame(s: State, t: State, i: nat)
    requires Sized(s) && Sized(t) && i <= PCBS && t.pcbs == s.pcbs
    requires forall k :: i <= k < PCBS ==> t.rows[k] == s.rows[k]
    ensures OwedFrom(t, i) == OwedFrom(s, i) && Owing(t, i) == Owing(s, i)
    decreases PCBS - i
  {
    if i < PCBS {
      SuffixSame(s, t, i + 1);
    }
  }

  lemma ClearOne(s: State, i: nat)
    requires Sized(s) && i < PCBS
    ensures var t := s.(rows := s.rows[i := s.rows[i].(ackOwed := false)]);
            forall j :: i < j <= PCBS ==> ClearTo(t, j) == ClearTo(s, j)
  {
    var t := s.(rows := s.rows[i := s.rows[i].(ackOwed := false)]);
    forall j | i < j <= PCBS ensures ClearTo(t, j) == ClearTo(s, j) {
      assert ClearTo(t, j).rows == ClearTo(s, j).rows;
    }
  }

  lemma ClearBelow(s: State, i: nat)
    requires Sized(s) && i <= PCBS && forall k :: 0 <= k < i ==> !s.rows[k].ackOwed
    ensures ClearTo(s, i) == s
  {
    forall k | 0 <= k < PCBS ensures ClearTo(s, i).rows[k] == s.rows[k] {
    }
  }

  /** Where the scan stops: past the connection it reports, or at the end. */
  function StopAt(r: Option<Report>): nat {
    if r.Some? then r.value.pcb + 1 else PCBS
  }

  /** One call leaves every row it passed owing nothing, and touches nothing else. */
  lemma {:induction false} AckClears(s: State, i: nat)
    requires Sized(s) && i <= PCBS && forall k :: 0 <= k < i ==> !s.rows[k].ackOwed
    ensures var (t, r) := AckFrom(s, i); i <= StopAt(r) <= PCBS && t == ClearTo(s, StopAt(r))
    decreases PCBS - i
  {
    if i == PCBS {
      ClearBelow(s, PCBS);
    } else if !s.rows[i].ackOwed {
      AckClears(s, i + 1);
    } else {
      var t := s.(rows := s.rows[i := s.rows[i].(ackOwed := false)]);
      ClearOne(s, i);
      if s.pcbs[i].None? {
        AckClears(t, i + 1);
      } else {
        ClearBelow(t, i + 1);
      }
    }
  }

  /** One call reports the first of what is owed, and nothing only when nothing is. */
  lemma {:induction false} AckTakesTheFirst(s: State, i: nat)
    requires Sized(s) && i <= PCBS
    ensures var r := AckFrom(s, i).1;
            StopAt(r) <= PCBS && OwedFrom(s, i) == (if r.Some? then [r.value] else []) + OwedFrom(s, StopAt(r))
    decreases PCBS - i
  {
    if i < PCBS {
      if !s.rows[i].ackOwed {
        AckTakesTheFirst(s, i + 1);
      } else {
        var t := s.(rows := s.rows[i := s.rows[i].(ackOwed := false)]);
        if s.pcbs[i].None? {
          AckTakesTheFirst(t, i + 1);
          SuffixSame(s, t, i + 1);
          AckStops(t, i + 1);
          SuffixSame(s, t, StopAt(AckFrom(t, i + 1).1));
        }
      }
    }
  }

  lemma {:induction false} AckStops(s: State, i: nat)
    requires Sized(s) && i <= PCBS
    ensures i <= StopAt(AckFrom(s, i).1) <= PCBS
    decreases PCBS - i
  {
    if i < PCBS && !(s.rows[i].ackOwed && s.pcbs[i].Some?) {
      AckStops(if s.rows[i].ackOwed then s.(rows := s.rows[i := s.rows[i].(ackOwed := false)]) else s, i + 1);
    }
  }

  /** Calls made until one answers BUSY: the state they leave and the reports they made. */
  function Flush(s: State): (State, seq<Report>)
    requires Sized(s)
    decreases Owing(s, 0)
  {
    var (t, r) := AckFrom(s, 0);
    AckPays(s, 0);
    AckClears(s, 0);
    if r.None? then (t, []) else var f := Flush(t); (f.0, [r.value] + f.1)
  }

  lemma {:induction false} AckPays(s: State, i: nat)
    requires Sized(s) && i <= PCBS && forall k :: 0 <= k < i ==> !s.rows[k].ackOwed
    ensures var (t, r) := AckFrom(s, i); Sized(t) && (r.Some? ==> Owing(t, 0) < Owing(s, 0))
    decreases PCBS - i
  {
    AckClears(s, i);
    if i < PCBS {
      if !s.rows[i].ackOwed {
        AckPays(s, i + 1);
      } else {
        var t := s.(rows := s.rows[i := s.rows[i].(ackOwed := false)]);
        OwesLess(s, i, 0);
        if s.pcbs[i].None? {
          AckPays(t, i + 1);
        }
      }
    }
  }

  lemma {:induction false} AckOwesNoMore(s: State, i: nat)
    requires Sized(s) && i <= PCBS
    ensures Sized(AckFrom(s, i).0) && Owing(AckFrom(s, i).0, 0) <= Owing(s, 0)
    decreases PCBS - i
  {
    if i < PCBS {
      if !s.rows[i].ackOwed {
        AckOwesNoMore(s, i + 1);
      } else {
        OwesLess(s, i, 0);
        if s.pcbs[i].None? {
          AckOwesNoMore(s.(rows := s.rows[i := s.rows[i].(ackOwed := false)]), i + 1);
        }
      }
    }
  }

  lemma {:induction false} OwesLess(s: State, i: nat, j: nat)
    requires Sized(s) && j <= i < PCBS && s.rows[i].ackOwed
    ensures Owing(s.(rows := s.rows[i := s.rows[i].(ackOwed := false)]), j) == Owing(s, j) - 1
    decreases i - j
  {
    var t := s.(rows := s.rows[i := s.rows[i].(ackOwed := false)]);
    if j < i {
      OwesLess(s, i, j + 1);
    } else {
      SuffixSame(s, t, i + 1);
    }
  }

  lemma {:induction false} OwedSkips(s: State, i: nat, j: nat)
    requires Sized(s) && j <= i <= PCBS && forall k :: j <= k < i ==> !s.rows[k].ackOwed
    ensures OwedFrom(s, j) == OwedFrom(s, i)
    decreases i - j
  {
    if j < i {
      OwedSkips(s, i, j + 1);
    }
  }

  /** Of a state cleared up to a place, what is owed is what was owed from there on. */
  lemma ClearedRest(s: State, i: nat)
    requires Sized(s) && i <= PCBS
    ensures OwedFrom(ClearTo(s, i), 0) == OwedFrom(s, i) && ClearTo(ClearTo(s, i), PCBS) == ClearTo(s, PCBS)
  {
    var t := ClearTo(s, i);
    SuffixSame(s, t, i);
    OwedSkips(t, i, 0);
    assert ClearTo(t, PCBS).rows == ClearTo(s, PCBS).rows;
  }

  /**
   * Acknowledgments taken until there are none: one for each live connection that owes, in index order, each with
   * that connection's SND.NXT and RCV.NXT as they are now. Nothing is owed afterwards and nothing else has moved.
   */
  lemma {:induction false} FlushReportsEachOnce(s: State)
    requires Sized(s)
    ensures Flush(s) == (ClearTo(s, PCBS), OwedFrom(s, 0))
    decreases Owing(s, 0)
  {
    var (t, r) := AckFrom(s, 0);
    AckClears(s, 0);
    AckTakesTheFirst(s, 0);
    AckPays(s, 0);
    if r.Some? {
      FlushReportsEachOnce(t);
      ClearedRest(s, StopAt(r));
    }
  }

  // --- descriptors lent ------------------------------------------------------------

  /** A segment held for later on a pinned descriptor, its row taking the interface it came in on (d_tcp_hold). */
  function HoldCall(s: State, pcb: nat, pin: Pin, seq_: u32, offset: u16, len: u16): State
    requires Sized(s) && pcb < PCBS
  {
    if s.pcbs[pcb].None? then s
    else
      var r := Hold(s.pcbs[pcb].value, Seg(seq_, Handle(pin), offset, len));
      if r.1 != OK then s
      else s.(pcbs := s.pcbs[pcb := Some(r.0)], rows := s.rows[pcb := s.rows[pcb].(netif := pin.netif)])
  }

  /** An acknowledgment owed to a segment that came in on an interface (d_tcp_reply). */
  function OweCall(s: State, pcb: nat, netif: u8): State
    requires Sized(s) && pcb < PCBS
  {
    s.(rows := s.rows[pcb := Row(true, netif)])
  }

  /** Whatever else the connection table does: it opens, closes and advances connections, and leaves queues alone. */
  function TableCall(s: State, pcb: nat, p: Option<Pcb>): State
    requires Sized(s) && pcb < PCBS
  {
    s.(pcbs := s.pcbs[pcb := p])
  }

  function QueueOf(p: Option<Pcb>): seq<Seg> {
    if p.Some? then p.value.queue else []
  }

  datatype Op =
    | DeliverTo(pcb: u16)
    | Ack
    | HoldFor(pcb: u16, pin: Pin, seq_: u32, offset: u16, len: u16)
    | OweTo(pcb: u16, netif: u8)
    | Table(pcb: u16, p: Option<Pcb>)

  /** An interface is one of the table's, and the connection table changes no queue. */
  predicate Fair(s: State, op: Op)
    requires Sized(s)
  {
    match op
    case HoldFor(pcb, pin, _, _, _) => pcb < PCBS && pin.netif < NETIF_COUNT
    case OweTo(pcb, netif) => pcb < PCBS && netif < NETIF_COUNT
    case Table(pcb, p) => pcb < PCBS && QueueOf(p) == QueueOf(s.pcbs[pcb])
    case _ => true
  }

  function Next(s: State, op: Op): State
    requires Sized(s) && Fair(s, op)
  {
    match op
    case DeliverTo(pcb) => DeliverCall(s, pcb).0
    case Ack => AckFrom(s, 0).0
    case HoldFor(pcb, pin, seq_, offset, len) => HoldCall(s, pcb, pin, seq_, offset, len)
    case OweTo(pcb, netif) => OweCall(s, pcb, netif)
    case Table(pcb, p) => TableCall(s, pcb, p)
  }

  /** A descriptor a delivery handed up, and the interface its row named. */
  datatype Loan = Loan(desc: u16, netif: u8)

  /** The pin a loan is given back as. */
  function PinOf(l: Loan): Pin {
    Pin(l.netif, l.desc % 0x100)
  }

  /** A run: the state, what every delivery that answered OK handed up, and every pin given back. */
  datatype Run = Run(s: State, lent: seq<Loan>, back: seq<Pin>)

  function After(r: Run, op: Op): Run
    requires Sized(r.s) && Fair(r.s, op)
  {
    if op.DeliverTo? then
      var (t, a) := DeliverCall(r.s, op.pcb);
      Run(t, if a.status == OK then r.lent + [Loan(a.given.desc, r.s.rows[op.pcb].netif)] else r.lent,
          if a.unpinned.Some? then r.back + [a.unpinned.value] else r.back)
    else r.(s := Next(r.s, op))
  }

  /** Rows name real interfaces, and so does every descriptor held. */
  ghost predicate Sane(s: State) {
    && Sized(s)
    && (forall i :: 0 <= i < PCBS ==> s.rows[i].netif < NETIF_COUNT)
    && (forall i :: 0 <= i < PCBS ==> OnRings(QueueOf(s.pcbs[i])))
  }

  predicate OnRings(queue: seq<Seg>) {
    forall k :: 0 <= k < |queue| ==> queue[k].desc < NETIF_COUNT * 0x100
  }

  /** Every descriptor held belongs to one interface's ring. */
  predicate OnRing(queue: seq<Seg>, netif: u8) {
    forall k :: 0 <= k < |queue| ==> queue[k].desc / 0x100 == netif
  }

  /** Every loan but the current one has been given back, once, in the order lent, each as its own pin. */
  ghost predicate Returned(lent: seq<Loan>, back: seq<Pin>, current: Option<Pin>) {
    && |lent| == |back| + (if current.Some? then 1 else 0)
    && (current.Some? ==> current.value == PinOf(lent[|back|]))
    && (forall k :: 0 <= k < |back| ==> back[k] == PinOf(lent[k]))
  }

  ghost predicate Settled(r: Run) {
    Sane(r.s) && Returned(r.lent, r.back, Lent(r.s))
  }

  lemma SplicedRings(queue: seq<Seg>, k: nat, s: Seg)
    requires k <= |queue|
    ensures OnRings(queue) && s.desc < NETIF_COUNT * 0x100 ==> OnRings(queue[..k] + [s] + queue[k..])
    ensures forall netif: u8 :: OnRing(queue, netif) && s.desc / 0x100 == netif ==>
      OnRing(queue[..k] + [s] + queue[k..], netif)
  {
  }

  lemma HoldCallSane(s: State, pcb: nat, pin: Pin, seq_: u32, offset: u16, len: u16)
    requires Sane(s) && pcb < PCBS && pin.netif < NETIF_COUNT
    ensures Sane(HoldCall(s, pcb, pin, seq_, offset, len))
  {
    if s.pcbs[pcb].Some? {
      var p, seg := s.pcbs[pcb].value, Seg(seq_, Handle(pin), offset, len);
      assert OnRings(QueueOf(s.pcbs[pcb]));
      SplicedRings(p.queue, Place(p.queue, seg, p.rcvNxt), seg);
    }
  }

  lemma AckSane(s: State)
    requires Sane(s)
    ensures Sane(AckFrom(s, 0).0) && Lent(AckFrom(s, 0).0) == Lent(s)
  {
    AckClears(s, 0);
  }

  lemma DeliverSane(s: State, pcb: u16)
    requires Sane(s)
    ensures Sane(DeliverCall(s, pcb).0)
    ensures DeliverCall(s, pcb).1.status == OK ==>
      && pcb < PCBS && QueueOf(s.pcbs[pcb]) != []
      && DeliverCall(s, pcb).0.holdDesc == QueueOf(s.pcbs[pcb])[0].desc
      && DeliverCall(s, pcb).1.given.desc == QueueOf(s.pcbs[pcb])[0].desc
      && Lent(DeliverCall(s, pcb).0) == Some(Pin(s.rows[pcb].netif, QueueOf(s.pcbs[pcb])[0].desc % 0x100))
  {
    if pcb < PCBS && s.pcbs[pcb].Some? && s.pcbs[pcb].value.queue != [] {
      assert OnRings(QueueOf(s.pcbs[pcb]));
    }
  }

  lemma NextSettles(r: Run, op: Op)
    requires Settled(r) && Fair(r.s, op)
    ensures Settled(After(r, op))
  {
    match op {
      case DeliverTo(pcb) =>
        DeliverSane(r.s, pcb);
      case Ack => AckSane(r.s);
      case HoldFor(pcb, pin, seq_, offset, len) => HoldCallSane(r.s, pcb, pin, seq_, offset, len);
      case OweTo(pcb, netif) =>
      case Table(pcb, p) =>
    }
  }

  ghost predicate AllFair(r: Run, ops: seq<Op>)
    decreases |ops|
  {
    ops == [] || (Sized(r.s) && Fair(r.s, ops[0]) && AllFair(After(r, ops[0]), ops[1..]))
  }

  ghost function RunOf(r: Run, ops: seq<Op>): Run
    requires AllFair(r, ops)
    decreases |ops|
  {
    if ops == [] then r else RunOf(After(r, ops[0]), ops[1..])
  }

  /** A cleared dispatcher: no connection, nothing owed, nothing lent. */
  const BEGIN: Run :=
    Run(State([None, None, None, None, None],
              [Row(false, 0), Row(false, 0), Row(false, 0), Row(false, 0), Row(false, 0)], DESC_NONE, NETIF_NONE),
        [], [])

  lemma {:induction false} RunSettles(r: Run, ops: seq<Op>)
    requires Settled(r) && AllFair(r, ops)
    ensures Settled(RunOf(r, ops))
    decreases |ops|
  {
    if ops != [] {
      NextSettles(r, ops[0]);
      RunSettles(After(r, ops[0]), ops[1..]);
    }
  }

  lemma BeginIsSettled()
    ensures Settled(BEGIN) && Homed(BEGIN)
  {
    var s := BEGIN.s;
    forall i | 0 <= i < PCBS ensures s.pcbs[i] == None && s.rows[i] == Row(false, 0) {
    }
  }

  /**
   * Over every run, each descriptor handed up by a delivery that answered OK is given back exactly once, in order,
   * under the interface its row named, all but the last one while it is still lent.
   */
  lemma RunReturnsEachLoan(ops: seq<Op>)
    requires AllFair(BEGIN, ops)
    ensures var r := RunOf(BEGIN, ops); Returned(r.lent, r.back, Lent(r.s))
  {
    BeginIsSettled();
    RunSettles(BEGIN, ops);
  }

  // --- the ring a descriptor goes back to ------------------------------------------

  /** Each connection's held descriptors are on the ring its row names, and each loan is of its own pin. */
  ghost predicate Homed(r: Run) {
    && Sane(r.s)
    && (forall i :: 0 <= i < PCBS ==> OnRing(QueueOf(r.s.pcbs[i]), r.s.rows[i].netif))
    && (forall k :: 0 <= k < |r.lent| ==> Handle(PinOf(r.lent[k])) == r.lent[k].desc)
  }

  /** A call that does not move a connection with text held to another interface. */
  predicate Stays(s: State, op: Op)
    requires Sized(s)
  {
    match op
    case HoldFor(pcb, pin, _, _, _) => pcb < PCBS ==> QueueOf(s.pcbs[pcb]) == [] || pin.netif == s.rows[pcb].netif
    case OweTo(pcb, netif) => pcb < PCBS ==> QueueOf(s.pcbs[pcb]) == [] || netif == s.rows[pcb].netif
    case _ => true
  }

  lemma HoldStaysHome(s: State, pcb: nat, pin: Pin, seq_: u32, offset: u16, len: u16)
    requires Sane(s) && pcb < PCBS && pin.netif < NETIF_COUNT
    requires QueueOf(s.pcbs[pcb]) == [] || pin.netif == s.rows[pcb].netif
    requires OnRing(QueueOf(s.pcbs[pcb]), s.rows[pcb].netif)
    ensures var t := HoldCall(s, pcb, pin, seq_, offset, len); OnRing(QueueOf(t.pcbs[pcb]), t.rows[pcb].netif)
  {
    if s.pcbs[pcb].Some? {
      var p, seg := s.pcbs[pcb].value, Seg(seq_, Handle(pin), offset, len);
      SplicedRings(p.queue, Place(p.queue, seg, p.rcvNxt), seg);
    }
  }

  lemma DeliverStaysHome(r: Run, pcb: u16)
    requires Homed(r)
    ensures Homed(After(r, DeliverTo(pcb)))
  {
    DeliverSane(r.s, pcb);
    if DeliverCall(r.s, pcb).1.status == OK {
      assert OnRing(QueueOf(r.s.pcbs[pcb]), r.s.rows[pcb].netif);
    }
  }

  lemma NextStaysHome(r: Run, op: Op)
    requires Homed(r) && Fair(r.s, op) && Stays(r.s, op)
    ensures Homed(After(r, op))
  {
    match op {
      case DeliverTo(pcb) => DeliverStaysHome(r, pcb);
      case Ack =>
        AckSane(r.s);
        AckClears(r.s, 0);
      case HoldFor(pcb, pin, seq_, offset, len) =>
        HoldCallSane(r.s, pcb, pin, seq_, offset, len);
        HoldStaysHome(r.s, pcb, pin, seq_, offset, len);
      case OweTo(pcb, netif) =>
      case Table(pcb, p) =>
    }
  }

  ghost predicate AllStay(r: Run, ops: seq<Op>)
    requires AllFair(r, ops)
    decreases |ops|
  {
    ops == [] || (Stays(r.s, ops[0]) && AllStay(After(r, ops[0]), ops[1..]))
  }

  lemma {:induction false} RunStaysHome(r: Run, ops: seq<Op>)
    requires Homed(r) && AllFair(r, ops) && AllStay(r, ops)
    ensures Homed(RunOf(r, ops))
    decreases |ops|
  {
    if ops != [] {
      NextStaysHome(r, ops[0]);
      RunStaysHome(After(r, ops[0]), ops[1..]);
    }
  }

  /**
   * Over every run in which no connection with text held moves to another interface, each descriptor lent is given
   * back to the ring it was pinned on.
   */
  lemma RunReturnsToOwnRing(ops: seq<Op>, k: nat)
    requires AllFair(BEGIN, ops) && AllStay(BEGIN, ops) && k < |RunOf(BEGIN, ops).lent|
    ensures Handle(PinOf(RunOf(BEGIN, ops).lent[k])) == RunOf(BEGIN, ops).lent[k].desc
  {
    BeginIsSettled();
    RunStaysHome(BEGIN, ops);
  }

  /**
   * A delivery lends the head of the queue, and gives it back under its own pin exactly when the row still names the
   * interface the head came in on.
   */
  lemma LoanIsHomeIffRowIs(s: State, pcb: u16)
    requires Sane(s) && pcb < PCBS && QueueOf(s.pcbs[pcb]) != []
    ensures var head := QueueOf(s.pcbs[pcb])[0];
            var (t, a) := DeliverCall(s, pcb);
            a.status == OK ==>
              && t.holdDesc == head.desc && Lent(t).Some?
              && (Handle(Lent(t).value) == head.desc <==> s.rows[pcb].netif == head.desc / 0x100)
  {
    DeliverSane(s, pcb);
  }

  lemma {:induction false} RunMore(r: Run, ops: seq<Op>, op: Op)
    requires AllFair(r, ops) && Sized(RunOf(r, ops).s) && Fair(RunOf(r, ops).s, op)
    ensures AllFair(r, ops + [op]) && RunOf(r, ops + [op]) == After(RunOf(r, ops), op)
    decreases |ops|
  {
    if ops == [] {
      assert ops + [op] == [op];
    } else {
      assert (ops + [op])[1..] == ops[1..] + [op];
      RunMore(After(r, ops[0]), ops[1..], op);
    }
  }

  /** A segment one octet past RCV.NXT, on a descriptor of interface 0. */
  function PastGap(nxt: u32, len: u16): Seg {
    Seg(Add32(nxt, 1), Handle(Pin(0, 7)), 54, len)
  }

  /** A connection opened, and a segment past a gap held from interface 0. */
  lemma HeldPastGap(nxt: u32, sndNxt: u32, len: u16) returns (ops: seq<Op>)
    requires len > 0
    ensures AllFair(BEGIN, ops)
    ensures var r := RunOf(BEGIN, ops);
            Sane(r.s) && r.lent == [] && r.s.pcbs[0] == Some(Pcb(nxt, sndNxt, [PastGap(nxt, len)]))
  {
    BeginIsSettled();
    var open := Table(0, Some(Pcb(nxt, sndNxt, [])));
    RunMore(BEGIN, [], open);
    NextSettles(BEGIN, open);
    var seg := PastGap(nxt, len);
    var hold := HoldFor(0, Pin(0, 7), seg.seq_, 54, len);
    RunMore(BEGIN, [] + [open], hold);
    NextSettles(RunOf(BEGIN, [] + [open]), hold);
    assert Place([], seg, nxt) == 0 && [] + [seg] + [] == [seg];
    ops := [] + [open] + [hold];
  }

  /** The missing octet taken on interface 1, its acknowledgment owed there, then a delivery. */
  lemma MissedThenDelivered(r: Run, nxt: u32, sndNxt: u32, len: u16, ops: seq<Op>)
    requires Sane(r.s) && r.lent == [] && r.s.pcbs[0] == Some(Pcb(nxt, sndNxt, [PastGap(nxt, len)])) && len > 0
    requires ops == [Table(0, Some(Pcb(Add32(nxt, 1), sndNxt, [PastGap(nxt, len)]))), OweTo(0, 1), DeliverTo(0)]
    ensures Fair(r.s, ops[0])
    ensures var r1 := After(r, ops[0]);
            && Sized(r1.s) && Fair(r1.s, ops[1])
            && var r2 := After(r1, ops[1]);
               && Sized(r2.s) && Fair(r2.s, ops[2])
               && After(r2, ops[2]).lent == [Loan(Handle(Pin(0, 7)), 1)]
               && Lent(After(r2, ops[2]).s) == Some(Pin(1, 7))
  {
    var r2 := After(After(r, ops[0]), ops[1]);
    assert r2.s.pcbs[0] == Some(Pcb(Add32(nxt, 1), sndNxt, [PastGap(nxt, len)])) && r2.s.rows[0] == Row(true, 1);
    assert Deliver(r2.s.pcbs[0].value).1.Text?;
  }

  /**
   * Text held past a gap from interface 0, the gap filled on interface 1 and acknowledged there: the delivery hands
   * the text up, and its descriptor is to go back to interface 1's ring.
   */
  lemma LoanCanMissItsRing(nxt: u32, sndNxt: u32, len: u16) returns (ops: seq<Op>)
    requires len > 0
    ensures AllFair(BEGIN, ops)
    ensures var r := RunOf(BEGIN, ops);
            && r.lent == [Loan(Handle(Pin(0, 7)), 1)] && Lent(r.s) == Some(Pin(1, 7))
            && Handle(Pin(1, 7)) != Handle(Pin(0, 7))
  {
    ops := HeldPastGap(nxt, sndNxt, len);
    var rest := [Table(0, Some(Pcb(Add32(nxt, 1), sndNxt, [PastGap(nxt, len)]))), OweTo(0, 1), DeliverTo(0)];
    MissedThenDelivered(RunOf(BEGIN, ops), nxt, sndNxt, len, rest);
    RunMore(BEGIN, ops, rest[0]);
    RunMore(BEGIN, ops + [rest[0]], rest[1]);
    RunMore(BEGIN, ops + [rest[0]] + [rest[1]], rest[2]);
    ops := ops + [rest[0]] + [rest[1]] + [rest[2]];
  }
}
