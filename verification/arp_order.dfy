/**
 * The order and the time of held frames over whole runs of src/arp/arp_table.c: those for one address leave in the
 * order they came, and none outlasts its deadline where the table is ticked dry.
 */
module ArpOrder {
  import opened Words
  import opened Counting
  import opened ArpPacket
  import opened ArpModel
  import opened ArpEntries
  import opened ArpRuns

  // --- what a sweep does to the holds -------------------------------------------------

  /** A hold left alone, no longer waiting, or given up. */
  predicate HoldKept(a: Hold, b: Hold) {
    b == a || (a.Wait? && b == Reclaim(a.frame)) || b.NoFrame?
  }

  predicate HoldsKept(a: seq<Hold>, b: seq<Hold>) {
    |a| == |b| && forall h :: 0 <= h < |a| ==> HoldKept(a[h], b[h])
  }

  /** A resolved row is one that was. */
  predicate StableKept(a: seq<Row>, b: seq<Row>) {
    |a| == |b| && forall i :: 0 <= i < |a| && b[i].state == Stable ==> b[i] == a[i]
  }

  lemma {:induction false} AgeRowsHolds(t: Table, now: u32, n: nat)
    requires n <= |t.rows| == |t.queues|
    ensures HoldsKept(t.holds, AgeRows(t, now, n).holds)
  {
    if n > 0 {
      AgeRowsHolds(t, now, n - 1);
    }
  }

  lemma SweptKept(t: Table, now: u32)
    requires Inv(t)
    ensures HoldsKept(t.holds, Swept(t, now).holds) && StableKept(t.rows, Swept(t, now).rows)
  {
    SweptEffect(t, now);
    SweptRowsKeeps(t, now);
    var aged := SweptRows(t, now);
    AgeRowsHolds(t.(sweep := now), now, |t.rows|);
    ExpireHoldsKeeps(aged, now, |aged.holds|);
  }

  lemma TickKept(t: Table, now: u32)
    requires Inv(t)
    ensures HoldsKept(t.holds, Tick(t, now).0.holds)
  {
    SweptKept(t, now);
    var s := Swept(t, now);
    forall h | 0 <= h < |t.holds| ensures HoldKept(t.holds[h], Tick(t, now).0.holds[h]) {
      assert HoldKept(t.holds[h], s.holds[h]);
    }
  }

  // --- acceptance numbers --------------------------------------------------------------

  /** For each hold, the number and the true time its frame was accepted under, and how many have been. */
  datatype Stamps = Stamps(number: seq<nat>, at: seq<nat>, count: nat)

  function StampAfter(s: Stamps, t: Table, op: Op): Stamps
    requires |t.rows| == |t.queues| && |t.rows| < NONE && |s.number| == |s.at| == |t.holds|
  {
    if op.QueueOp? && Queue(t, op.frame, Wrap32(op.at)).1 == OK then
      var h := FirstHold(t.holds, 0);
      if h == |t.holds| then s else Stamps(s.number[h := s.count], s.at[h := op.at], s.count + 1)
    else s
  }

  /** A queue's frames in the order they were accepted. */
  predicate InOrder(number: seq<nat>, q: seq<nat>) {
    forall j, k :: 0 <= j < k < |q| ==> q[j] < |number| && q[k] < |number| && number[q[j]] < number[q[k]]
  }

  predicate AllInOrder(number: seq<nat>, queues: seq<seq<nat>>) {
    forall i :: 0 <= i < |queues| ==> InOrder(number, queues[i])
  }

  /** A waiting frame's deadline is its pending bound after it was accepted, and its number one given out. */
  predicate Stamped(hold: Hold, number: nat, at: nat, count: nat, clock: nat) {
    hold.Wait? ==> number < count && at <= clock && hold.deadline == Wrap32(at + MAXPENDING_MS)
  }

  ghost predicate StampInv(t: Table, s: Stamps, clock: nat) {
    && |s.number| == |s.at| == |t.holds| && AllInOrder(s.number, t.queues)
    && forall h :: 0 <= h < |t.holds| ==> Stamped(t.holds[h], s.number[h], s.at[h], s.count, clock)
  }

  lemma DetachOrder(number: seq<nat>, t: Table, i: nat, k: nat, x: Hold)
    requires AllInOrder(number, t.queues) && i < |t.queues| && k < |t.queues[i]| && t.queues[i][k] < |t.holds|
    ensures AllInOrder(number, Detach(t, i, k, x).queues)
  {
    assert InOrder(number, t.queues[i]);
  }

  lemma FreeOrder(number: seq<nat>, t: Table, i: nat)
    requires AllInOrder(number, t.queues) && i < |t.rows| && i < |t.queues|
    ensures AllInOrder(number, FreeRow(t, i).queues)
  {
  }

  lemma {:induction false} AgeOrder(number: seq<nat>, t: Table, now: u32, n: nat)
    requires n <= |t.rows| == |t.queues| && AllInOrder(number, t.queues)
    ensures AllInOrder(number, AgeRows(t, now, n).queues)
  {
    if n > 0 {
      AgeOrder(number, t, now, n - 1);
      FreeOrder(number, AgeRows(t, now, n - 1), n - 1);
    }
  }

  lemma {:induction false} ExpireOrder(number: seq<nat>, t: Table, now: u32, n: nat)
    requires n <= |t.holds| && AllInOrder(number, t.queues)
    ensures AllInOrder(number, ExpireHolds(t, now, n).queues)
  {
    if n > 0 {
      ExpireOrder(number, t, now, n - 1);
      var u, h := ExpireHolds(t, now, n - 1), n - 1;
      if Overdue(u.holds[h], now) && u.holds[h].row < |u.queues| && h in u.queues[u.holds[h].row] {
        var i := u.holds[h].row;
        DetachOrder(number, u, i, PlaceIn(u.queues[i], h), Reclaim(u.holds[h].frame));
      }
    }
  }

  lemma TickOrder(number: seq<nat>, t: Table, now: u32)
    requires |t.rows| == |t.queues| && AllInOrder(number, t.queues)
    ensures AllInOrder(number, Tick(t, now).0.queues)
  {
    AgeOrder(number, t.(sweep := now), now, |t.rows|);
    var aged := SweptRows(t, now);
    ExpireOrder(number, aged, now, |aged.holds|);
  }

  lemma LearnOrder(number: seq<nat>, t: Table, spa: u32, sha: Mac, netif: u8, now: u32, add: bool)
    requires |t.rows| == |t.queues| && |t.rows| < NONE && AllInOrder(number, t.queues)
    ensures AllInOrder(number, Learn(t, spa, sha, netif, now, add).0.queues)
    ensures HoldsKept(t.holds, Learn(t, spa, sha, netif, now, add).0.holds)
  {
    TakeOrder(number, t, now);
  }

  lemma TakeOrder(number: seq<nat>, t: Table, now: u32)
    requires |t.rows| == |t.queues| && AllInOrder(number, t.queues)
    ensures AllInOrder(number, TakeRow(t, now).0.queues) && HoldsKept(t.holds, TakeRow(t, now).0.holds)
  {
    var v := Victim(t, now, |t.rows|);
    if v.Some? {
      FreeOrder(number, t, v.value);
    }
  }

  /** A frame appended is numbered past every other in its queue. */
  lemma AppendOrder(t: Table, s: Stamps, i: nat, h: nat, frame: Frame, deadline: u32, clock: nat)
    requires Inv(t) && StampInv(t, s, clock) && i < |t.queues| && h < |t.holds| && t.holds[h].NoFrame?
    ensures AllInOrder(s.number[h := s.count], Append(t, i, h, frame, deadline).queues)
  {
    var number := s.number[h := s.count];
    var queues := Append(t, i, h, frame, deadline).queues;
    forall j | 0 <= j < |queues| ensures InOrder(number, queues[j]) {
      assert QueueOk(t, j) && InOrder(s.number, t.queues[j]);
      forall k | 0 <= k < |t.queues[j]|
        ensures t.queues[j][k] < |t.holds| && t.queues[j][k] != h && s.number[t.queues[j][k]] < s.count {
        assert WaitsOn(t.holds[t.queues[j][k]], j, t.rows[j].spa);
        assert Stamped(t.holds[t.queues[j][k]], s.number[t.queues[j][k]], s.at[t.queues[j][k]], s.count, clock);
      }
    }
  }

  /** Holds that were kept keep their stamps. */
  lemma KeptStamped(t: Table, t': Table, s: Stamps, clock: nat, at: nat)
    requires StampInv(t, s, clock) && HoldsKept(t.holds, t'.holds) && AllInOrder(s.number, t'.queues) && clock <= at
    ensures StampInv(t', s, at)
  {
    forall h | 0 <= h < |t'.holds| ensures Stamped(t'.holds[h], s.number[h], s.at[h], s.count, at) {
      assert HoldKept(t.holds[h], t'.holds[h]) && Stamped(t.holds[h], s.number[h], s.at[h], s.count, clock);
    }
  }

  lemma QueueStamps(t: Table, s: Stamps, frame: Frame, clock: nat, at: nat)
    requires Inv(t) && |t.rows| < NONE && StampInv(t, s, clock) && clock <= at
    ensures StampInv(Queue(t, frame, Wrap32(at)).0, StampAfter(s, t, QueueOp(at, frame)), at)
  {
    var now := Wrap32(at);
    var (t', status, _) := Queue(t, frame, now);
    if status == OK {
      var h := FirstHold(t.holds, 0);
      var deadline := Add32(now, MAXPENDING_MS);
      assert deadline == Wrap32(at + MAXPENDING_MS);
      var i := FindRow(t.rows, PRO_IPV4, frame.spa);
      if i != NONE {
        AppendOrder(t, s, i, h, frame, deadline, clock);
        Appended(t, s, i, h, frame, deadline, clock, at);
      } else {
        TakeRowKeeps(t, now);
        TakeOrder(s.number, t, now);
        TakeRowFreeHold(t, now, h);
        var (u, v) := TakeRow(t, now);
        KeptStamped(t, u, s, clock, clock);
        AppendOrder(u, s, v.value, h, frame, deadline, clock);
        Appended(u, s, v.value, h, frame, deadline, clock, at);
      }
    } else {
      KeptStamped(t, t, s, clock, at);
    }
  }

  lemma Appended(t: Table, s: Stamps, i: nat, h: nat, frame: Frame, deadline: u32, clock: nat, at: nat)
    requires StampInv(t, s, clock) && i < |t.queues| && h < |t.holds| && clock <= at
    requires AllInOrder(s.number[h := s.count], Append(t, i, h, frame, deadline).queues)
    requires deadline == Wrap32(at + MAXPENDING_MS)
    ensures var t' := Append(t, i, h, frame, deadline);
            var s' := Stamps(s.number[h := s.count], s.at[h := at], s.count + 1);
            forall g :: 0 <= g < |t'.holds| ==> Stamped(t'.holds[g], s'.number[g], s'.at[g], s'.count, at)
  {
    forall g | 0 <= g < |t.holds| ensures Stamped(t.holds[g], s.number[g], s.at[g], s.count, clock) {
    }
  }

  lemma StepStamps(r: Run, op: Op, s: Stamps)
    requires Inv(r.t) && |r.t.rows| < NONE && StampInv(r.t, s, r.h.clock) && r.h.clock <= op.at
    ensures StampInv(Step(r, op).t, StampAfter(s, r.t, op), op.at)
  {
    var t, now := r.t, Wrap32(op.at);
    match op {
      case QueueOp(_, frame) => QueueStamps(t, s, frame, r.h.clock, op.at);
      case TickOp(_) =>
        TickOrder(s.number, t, now);
        TickKept(t, now);
        KeptStamped(t, Tick(t, now).0, s, r.h.clock, op.at);
      case DequeueOp(_) => DequeueStamps(t, s, r.h.clock, op.at);
      case RemoveOp(_, pro, spa) => RemoveStamps(t, s, pro, spa, r.h.clock, op.at);
      case AddOp(_, pro, spa, sha, netif) =>
        if sha.Some? {
          LearnOrder(s.number, t, spa, sha.value, netif, now, true);
        }
        KeptStamped(t, Add(t, pro, spa, sha, netif, now).0, s, r.h.clock, op.at);
      case InputOp(_, packet, local, netif) =>
        InputStamps(t, s, packet, local, netif, now, r.h.clock, op.at);
    }
  }

  lemma DequeueStamps(t: Table, s: Stamps, clock: nat, at: nat)
    requires Inv(t) && StampInv(t, s, clock) && clock <= at
    ensures StampInv(Dequeue(t).0, s, at)
  {
    var i := FirstResolved(t, 0);
    if i < |t.rows| {
      assert QueueOk(t, i);
      DetachOrder(s.number, t, i, 0, NoFrame);
    }
    KeptStamped(t, Dequeue(t).0, s, clock, at);
  }

  lemma RemoveStamps(t: Table, s: Stamps, pro: u16, spa: u32, clock: nat, at: nat)
    requires Inv(t) && |t.rows| < NONE && StampInv(t, s, clock) && clock <= at
    ensures StampInv(Remove(t, pro, spa).0, s, at)
  {
    var i := FindRow(t.rows, pro, spa);
    if i != NONE {
      FreeOrder(s.number, t, i);
    }
    KeptStamped(t, Remove(t, pro, spa).0, s, clock, at);
  }

  lemma InputStamps(t: Table, s: Stamps, packet: Option<Packet>, local: u32, netif: u8, now: u32, clock: nat, at: nat)
    requires Inv(t) && |t.rows| < NONE && StampInv(t, s, clock) && clock <= at
    ensures StampInv(Input(t, packet, local, netif, now).0, s, at)
  {
    if packet.Some? && IsEthernetIpv4(packet.value) {
      var p := packet.value;
      LearnOrder(s.number, t, Spa(p), Sha(p), netif, now, local != 0 && Tpa(p) == local);
    }
    KeptStamped(t, Input(t, packet, local, netif, now).0, s, clock, at);
  }

  // --- whole runs --------------------------------------------------------------------

  ghost function StampsOf(rows: nat, holds: nat, ops: seq<Op>): (s: Stamps)
    requires rows < NONE && Forward(ops)
    ensures StampInv(After(rows, holds, ops).t, s, After(rows, holds, ops).h.clock)
  {
    if |ops| == 0 then Stamps(seq(holds, _ => 0), seq(holds, _ => 0), 0)
    else
      var before := ops[..|ops| - 1];
      var r := After(rows, holds, before);
      StepStamps(r, ops[|ops| - 1], StampsOf(rows, holds, before));
      StampAfter(StampsOf(rows, holds, before), r.t, ops[|ops| - 1])
  }

  /** Over every run, the frame a dequeue releases is the one longest held of all those waiting for its address. */
  lemma RunReleasesInOrder(rows: nat, holds: nat, ops: seq<Op>, g: nat)
    requires rows < NONE && Forward(ops)
    ensures var t := After(rows, holds, ops).t;
            var out := Dequeue(t).1;
            out.Some? && g < |t.holds| && t.holds[g].Wait? && t.holds[g].frame.spa == out.value.frame.spa ==>
              && t.queues[out.value.index] != []
              && var h := t.queues[out.value.index][0];
                 && h < |t.holds| && t.holds[h].Wait? && t.holds[h].frame == out.value.frame
                 && StampsOf(rows, holds, ops).number[h] <= StampsOf(rows, holds, ops).number[g]
  {
    var t := After(rows, holds, ops).t;
    var s := StampsOf(rows, holds, ops);
    var i := FirstResolved(t, 0);
    if i < |t.rows| && g < |t.holds| && t.holds[g].Wait? {
      assert QueueOk(t, i);
      var h := t.queues[i][0];
      assert WaitsOn(t.holds[h], i, t.rows[i].spa);
      if t.holds[g].frame.spa == t.holds[h].frame.spa {
        SameRow(t, g, i);
        assert InOrder(s.number, t.queues[i]);
      }
    }
  }

  /** A hold waiting for a row's address waits on that row. */
  lemma SameRow(t: Table, g: nat, i: nat)
    requires Inv(t) && g < |t.holds| && t.holds[g].Wait? && i < |t.rows|
    requires t.rows[i].state != Free && t.holds[g].frame.spa == t.rows[i].spa
    ensures g in t.queues[i]
  {
    assert HoldOk(t, g);
    var j := t.holds[g].row;
    QueuedExactly(t, j, g);
  }

  /** A deadline not reached on the wrapping clock is not reached, or was half its range ago. */
  lemma NotDueIsLater(due: nat, at: nat)
    requires !Due(Wrap32(at), Wrap32(due))
    ensures at < due || at >= due + TWO_31
  {
    if due <= at < due + TWO_31 {
      WrappedDifference(at, due);
    }
  }

  lemma DryHoldsNoneOverdue(t: Table, s: Stamps, clock: nat, at: nat, now: u32, h: nat)
    requires Inv(t) && StampInv(t, s, clock) && now == Wrap32(at) && h < |t.holds| && Tick(t, now).1 == Nothing
    ensures var t' := Tick(t, now).0;
            var due := s.at[h] + MAXPENDING_MS;
            h < |t'.holds| && (t'.holds[h].NoFrame? || at < due || at >= due + TWO_31)
  {
    TickPays(t, now);
    TickKept(t, now);
    var hold := Tick(t, now).0.holds[h];
    assert HoldKept(t.holds[h], hold) && Stamped(t.holds[h], s.number[h], s.at[h], s.count, clock);
    if !hold.NoFrame? {
      assert hold.Wait? && !Overdue(hold, now);
      NotDueIsLater(s.at[h] + MAXPENDING_MS, at);
    }
  }

  /**
   * Over every run, a tick with nothing more to report leaves held no frame whose five seconds are up, to within
   * half the clock's range.
   */
  lemma RunTickedDryHoldsNoneOverdue(rows: nat, holds: nat, ops: seq<Op>, at: nat, h: nat)
    requires rows < NONE && Forward(ops) && h < holds
    requires Tick(After(rows, holds, ops).t, Wrap32(at)).1 == Nothing
    ensures var t := Tick(After(rows, holds, ops).t, Wrap32(at)).0;
            && h < |t.holds| && h < |StampsOf(rows, holds, ops).at|
            && var due := StampsOf(rows, holds, ops).at[h] + MAXPENDING_MS;
               t.holds[h].NoFrame? || at < due || at >= due + TWO_31
  {
    var r := After(rows, holds, ops);
    DryHoldsNoneOverdue(r.t, StampsOf(rows, holds, ops), r.h.clock, at, Wrap32(at), h);
  }
}
