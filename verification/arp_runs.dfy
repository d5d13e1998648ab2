/** The remaining entries of src/arp/arp_table.c, and the theorems over whole runs of all of them. */
module ArpRuns {
  import opened Words
  import opened Counting
  import opened ArpPacket
  import opened ArpModel
  import opened ArpEntries

  /** Merge or add one trusted triplet (idemip_arp_add): the table, the status, the row and the merge flag. */
  function Add(t: Table, pro: u16, spa: u32, sha: Option<Mac>, netif: u8, now: u32): (Table, Status, nat, bool)
    requires |t.rows| == |t.queues| && |t.rows| < NONE
  {
    if sha.None? || pro != PRO_IPV4 || spa == 0 then (t, ERR, NONE, false)
    else
      var (t', i, merged) := Learn(t, spa, sha.value, netif, now, true);
      if i == NONE then (t', BUSY, NONE, false) else (t', OK, i, merged)
  }

  /** BUSY says the hardware address is a group one, or every row has holds waiting on it, and no more. */
  lemma AddAnswers(t: Table, pro: u16, spa: u32, sha: Mac, netif: u8, now: u32)
    requires Inv(t) && |t.rows| < NONE && pro == PRO_IPV4 && spa != 0
    ensures var status := Add(t, pro, spa, Some(sha), netif, now).1;
            && (status == OK || status == BUSY)
            && (status == BUSY <==>
                  IsGroup(sha) || (NoRowFor(t.rows, spa) && forall j :: 0 <= j < |t.rows| ==> t.queues[j] != []))
            && (InUse(t.holds) < |t.rows| ==> (status == BUSY <==> IsGroup(sha)))
  {
    if !IsGroup(sha) {
      TakeRowKeeps(t, now);
      var i := FindRow(t.rows, PRO_IPV4, spa);
      if i == NONE {
        assert NoRowFor(t.rows, spa);
        forall j | 0 <= j < |t.rows| && t.rows[j].state == Free ensures t.queues[j] == [] {
          assert QueueOk(t, j);
        }
      }
      if InUse(t.holds) < |t.rows| {
        TakeRowNeverEmpty(t, now);
      }
    }
  }

  /** What find reports of a pair. */
  datatype Lookup = Lookup(status: Status, index: nat, mac: Option<seq<u8>>)

  /** The hardware address behind a pair (idemip_arp_find). */
  function Find(t: Table, pro: u16, spa: u32): Lookup
    requires |t.rows| < NONE
  {
    if pro != PRO_IPV4 || spa == 0 then Lookup(ERR, NONE, None)
    else
      var i := FindRow(t.rows, pro, spa);
      if i == NONE then Lookup(ERR, NONE, None)
      else if t.rows[i].state == Pending then Lookup(BUSY, i, None)
      else Lookup(OK, i, Some(t.rows[i].sha))
  }

  /** Find answers for the one live row of the address, and never with a group address. */
  lemma FindAnswers(t: Table, spa: u32, i: nat)
    requires Inv(t) && |t.rows| < NONE && spa != 0 && i < |t.rows| && t.rows[i].state != Free && t.rows[i].spa == spa
    ensures Find(t, PRO_IPV4, spa)
         == if t.rows[i].state == Stable then Lookup(OK, i, Some(t.rows[i].sha)) else Lookup(BUSY, i, None)
    ensures t.rows[i].state == Stable ==> !IsGroup(t.rows[i].sha)
  {
    var j := FindRow(t.rows, PRO_IPV4, spa);
    assert RowOk(t.rows[i]);
    assert Matches(t.rows[i], PRO_IPV4, spa);
    assert j == i;
  }

  /** Flush the row holding a pair (idemip_arp_remove). */
  function Remove(t: Table, pro: u16, spa: u32): (Table, Status, nat)
    requires |t.rows| == |t.queues| && |t.rows| < NONE
  {
    if pro != PRO_IPV4 || spa == 0 then (t, ERR, NONE)
    else
      var i := FindRow(t.rows, pro, spa);
      if i == NONE then (t, ERR, NONE) else (FreeRow(t, i), OK, i)
  }

  /** What input reports of a received packet. */
  datatype Received = Received(status: Status, merged: bool, replyOwed: bool, conflict: bool, index: nat)

  const REFUSED: Received := Received(ERR, false, false, false, NONE)

  /** RFC 826's reception algorithm over one payload (idemip_arp_input). */
  function Input(t: Table, packet: Option<Packet>, local: u32, netif: u8, now: u32): (Table, Received)
    requires |t.rows| == |t.queues| && |t.rows| < NONE
  {
    if packet.None? || !IsEthernetIpv4(packet.value) then (t, REFUSED)
    else
      var p := packet.value;
      var target := local != 0 && Tpa(p) == local;
      var conflict := local != 0 && Spa(p) == local;
      var owed := target && !conflict && IsRequest(p);
      if Spa(p) == 0 || conflict then (t, Received(OK, false, owed, conflict, NONE))
      else
        var (t', i, merged) := Learn(t, Spa(p), Sha(p), netif, now, target);
        (t', Received(OK, merged, owed, conflict, i))
  }

  // --- runs ------------------------------------------------------------------------

  /** The calls a run makes, each at a true millisecond. */
  datatype Op =
    | AddOp(at: nat, pro: u16, spa: u32, sha: Option<Mac>, netif: u8)
    | RemoveOp(at: nat, pro: u16, spa: u32)
    | InputOp(at: nat, packet: Option<Packet>, local: u32, netif: u8)
    | QueueOp(at: nat, frame: Frame)
    | DequeueOp(at: nat)
    | TickOp(at: nat)

  /**
   * What a run has seen: the frames in and out, what each address was last said to be at, when a REQUEST for each
   * was last reported, and which of those have had their row freed since.
   */
  datatype History = History(
    accepted: multiset<Frame>,
    released: multiset<Frame>,
    returned: multiset<Frame>,
    learned: map<u32, Mac>,
    asked: map<u32, nat>,
    freed: set<u32>,
    clock: nat)

  datatype Run = Run(t: Table, h: History)

  /** The table a clear leaves (idemip_arp_clear). */
  function Cleared(rows: nat, holds: nat): Table {
    Table(seq(rows, _ => EMPTY_ROW), seq(holds, _ => NoFrame), seq(rows, _ => []), 0)
  }

  function Begin(rows: nat, holds: nat): Run {
    Run(Cleared(rows, holds), History(multiset{}, multiset{}, multiset{}, map[], map[], {}, 0))
  }

  /** The triplet a call offers, when the table takes it. */
  function Noted(h: History, i: nat, spa: u32, sha: Mac): History {
    if i == NONE then h else h.(learned := h.learned[spa := sha])
  }

  predicate Live(rows: seq<Row>, spa: u32) {
    exists i :: 0 <= i < |rows| && rows[i].state != Free && rows[i].spa == spa
  }

  /** The addresses that had a row and have none. */
  function Freed(before: seq<Row>, after: seq<Row>): set<u32> {
    set i | 0 <= i < |before| && before[i].state != Free && !Live(after, before[i].spa) :: before[i].spa
  }

  /** One call: what it does, and the rows it freed noted. */
  ghost function Step(r: Run, op: Op): Run
    requires Inv(r.t) && |r.t.rows| < NONE
  {
    var s := Called(r, op);
    s.(h := s.h.(freed := s.h.freed + Freed(r.t.rows, s.t.rows)))
  }

  ghost function Called(r: Run, op: Op): Run
    requires Inv(r.t) && |r.t.rows| < NONE
  {
    var now := Wrap32(op.at);
    var h := r.h.(clock := op.at);
    match op
    case AddOp(_, pro, spa, sha, netif) =>
      var (t', _, i, _) := Add(r.t, pro, spa, sha, netif, now);
      Run(t', if sha.None? then h else Noted(h, i, spa, sha.value))
    case RemoveOp(_, pro, spa) => Run(Remove(r.t, pro, spa).0, h)
    case InputOp(_, packet, local, netif) =>
      var (t', got) := Input(r.t, packet, local, netif, now);
      Run(t', if packet.None? then h else Noted(h, got.index, Spa(packet.value), Sha(packet.value)))
    case QueueOp(_, frame) =>
      var (t', status, _) := Queue(r.t, frame, now);
      Run(t', if status == OK then h.(accepted := h.accepted + multiset{frame}) else h)
    case DequeueOp(_) =>
      var (t', out) := Dequeue(r.t);
      Run(t', if out.Some? then h.(released := h.released + multiset{out.value.frame}) else h)
    case TickOp(_) =>
      var (t', out) := Tick(r.t, now);
      Run(t', match out
              case Nothing => h
              case Back(frame) => h.(returned := h.returned + multiset{frame})
              case Ask(ip, _, _) => h.(asked := h.asked[ip := op.at], freed := h.freed - {ip}))
  }

  /** Every resolved row carries the hardware address last learned for its address. */
  predicate Informed(t: Table, learned: map<u32, Mac>) {
    forall i :: 0 <= i < |t.rows| && t.rows[i].state == Stable ==>
      t.rows[i].spa in learned && learned[t.rows[i].spa] == t.rows[i].sha
  }

  /**
   * A row that has had a REQUEST since it opened remembers when; one that has had none is of an address never asked
   * for, or freed since; and an address asked for has its row still unless it was freed.
   */
  ghost predicate Paced(rows: seq<Row>, h: History) {
    && (forall i :: 0 <= i < |rows| && rows[i].state == Pending && rows[i].tries != 0 ==>
          && rows[i].spa in h.asked && rows[i].spa !in h.freed
          && rows[i].req == Wrap32(h.asked[rows[i].spa]) && h.asked[rows[i].spa] <= h.clock)
    && (forall i :: 0 <= i < |rows| && rows[i].state == Pending && rows[i].tries == 0 && rows[i].spa in h.asked ==>
          rows[i].spa in h.freed)
    && (forall spa :: spa in h.asked && spa !in h.freed ==> Live(rows, spa))
  }

  ghost predicate RunInv(r: Run, rows: nat, holds: nat) {
    && Inv(r.t) && |r.t.rows| == rows && |r.t.holds| == holds
    && r.h.accepted == r.h.released + r.h.returned + Held(r.t.holds)
    && Informed(r.t, r.h.learned)
    && Paced(r.t.rows, r.h)
  }

  /** A row a call may leave: as it was, free, resolved, or opened for an address that had none. */
  predicate RowMoved(before: seq<Row>, old_: Row, row: Row) {
    || row == old_ || row.state == Free || row.state == Stable
    || (row.state == Pending && row.tries == 0 && !Live(before, row.spa))
  }

  predicate RowsMoved(before: seq<Row>, after: seq<Row>) {
    |before| == |after| && forall i :: 0 <= i < |after| ==> RowMoved(before, before[i], after[i])
  }

  lemma MovedPaced(before: seq<Row>, after: seq<Row>, h: History, at: nat)
    requires Paced(before, h) && RowsMoved(before, after) && h.clock <= at
    ensures Paced(after, h.(freed := h.freed + Freed(before, after), clock := at))
  {
    var freed := h.freed + Freed(before, after);
    forall spa | spa in h.asked && spa !in freed ensures Live(after, spa) {
      assert Live(before, spa);
    }
  }

  /** Rows whose memory of what was learned a call leaves alone. */
  predicate Unlearned(before: seq<Row>, after: seq<Row>) {
    |before| == |after| && forall i :: 0 <= i < |after| && after[i].state == Stable ==> after[i] == before[i]
  }

  lemma UnlearnedInformed(t: Table, t': Table, learned: map<u32, Mac>)
    requires Informed(t, learned) && Unlearned(t.rows, t'.rows)
    ensures Informed(t', learned)
  {
  }

  /** Writing a resolved row for the address just learned. */
  lemma ResolvedInformed(t: Table, t': Table, learned: map<u32, Mac>, i: nat, row: Row)
    requires Informed(t, learned)
    requires i < |t.rows| && row.state == Stable && |row.sha| == HLN_ETHERNET && t'.rows == t.rows[i := row]
    requires OneRowPerAddress(t'.rows)
    ensures Informed(t', learned[row.spa := row.sha])
  {
    forall j | 0 <= j < |t'.rows| && j != i && t'.rows[j].state == Stable ensures t'.rows[j].spa != row.spa {
      assert t'.rows[i].state != Free;
    }
  }

  /** Learning one row updates what is known of its address alone. */
  lemma LearnedKeeps(t: Table, h: History, spa: u32, sha: Mac, netif: u8, now: u32, add: bool)
    requires Inv(t) && |t.rows| < NONE && spa != 0 && Informed(t, h.learned)
    ensures var (t', i, _) := Learn(t, spa, sha, netif, now, add);
            Informed(t', Noted(h, i, spa, sha).learned) && RowsMoved(t.rows, t'.rows)
  {
    LearnKeeps(t, spa, sha, netif, now, add);
    var (t', i, _) := Learn(t, spa, sha, netif, now, add);
    if i == NONE {
      UnlearnedInformed(t, t', h.learned);
    } else {
      ResolvedInformed(t, t', h.learned, i, StableRow(spa, sha, netif, now));
    }
  }

  lemma Conserve(accepted: multiset<Frame>, released: multiset<Frame>, returned: multiset<Frame>,
                 held: multiset<Frame>, held': multiset<Frame>, f: Frame)
    requires accepted == released + returned + held
    ensures held' == held + multiset{f} ==> accepted + multiset{f} == released + returned + held'
    ensures held == held' + multiset{f} ==> accepted == (released + multiset{f}) + returned + held'
    ensures held == held' + multiset{f} ==> accepted == released + (returned + multiset{f}) + held'
  {
    assert released + returned + (held' + multiset{f}) == (released + multiset{f}) + returned + held';
    assert released + returned + (held' + multiset{f}) == released + (returned + multiset{f}) + held';
  }

  /** A call that moved rows and asked for none: all that is left to see to is its own books. */
  lemma MovedKeeps(r: Run, s: Run, rows: nat, holds: nat)
    requires RunInv(r, rows, holds) && r.h.clock <= s.h.clock
    requires Inv(s.t) && |s.t.rows| == rows && |s.t.holds| == holds && RowsMoved(r.t.rows, s.t.rows)
    requires s.h.accepted == s.h.released + s.h.returned + Held(s.t.holds) && Informed(s.t, s.h.learned)
    requires s.h.asked == r.h.asked && s.h.freed == r.h.freed
    ensures RunInv(s.(h := s.h.(freed := s.h.freed + Freed(r.t.rows, s.t.rows))), rows, holds)
  {
    MovedPaced(r.t.rows, s.t.rows, r.h, s.h.clock);
  }

  lemma QueueMoves(t: Table, frame: Frame, now: u32)
    requires Inv(t) && |t.rows| < NONE
    ensures RowsMoved(t.rows, Queue(t, frame, now).0.rows) && Unlearned(t.rows, Queue(t, frame, now).0.rows)
  {
    TakeRowMoves(t, now);
    if FrameOk(frame) && FindRow(t.rows, PRO_IPV4, frame.spa) == NONE {
      NotLive(t, frame.spa);
    }
  }

  lemma NotLive(t: Table, spa: u32)
    requires Inv(t) && |t.rows| < NONE && spa != 0 && FindRow(t.rows, PRO_IPV4, spa) == NONE
    ensures !Live(t.rows, spa)
  {
    forall i | 0 <= i < |t.rows| && t.rows[i].state != Free ensures t.rows[i].spa != spa {
      assert RowOk(t.rows[i]);
      assert !Matches(t.rows[i], PRO_IPV4, spa);
    }
  }

  lemma TakeRowMoves(t: Table, now: u32)
    requires Inv(t)
    ensures var (t', v) := TakeRow(t, now);
            |t'.rows| == |t'.queues| == |t.rows|
            && (v.Some? ==>
                  v.value < |t.rows| && forall j :: 0 <= j < |t.rows| && j != v.value ==> t'.rows[j] == t.rows[j])
  {
    TakeRowKeeps(t, now);
  }

  lemma QueueStep(r: Run, op: Op, rows: nat, holds: nat)
    requires op.QueueOp? && RunInv(r, rows, holds) && rows < NONE && r.h.clock <= op.at
    ensures RunInv(Step(r, op), rows, holds)
  {
    var now := Wrap32(op.at);
    QueueKeeps(r.t, op.frame, now);
    QueueMoves(r.t, op.frame, now);
    var t' := Queue(r.t, op.frame, now).0;
    UnlearnedInformed(r.t, t', r.h.learned);
    Conserve(r.h.accepted, r.h.released, r.h.returned, Held(r.t.holds), Held(t'.holds), op.frame);
    MovedKeeps(r, Called(r, op), rows, holds);
  }

  lemma DequeueStep(r: Run, op: Op, rows: nat, holds: nat)
    requires op.DequeueOp? && RunInv(r, rows, holds) && rows < NONE && r.h.clock <= op.at
    ensures RunInv(Step(r, op), rows, holds)
  {
    DequeueKeeps(r.t);
    var (t', out) := Dequeue(r.t);
    UnlearnedInformed(r.t, t', r.h.learned);
    if out.Some? {
      Conserve(r.h.accepted, r.h.released, r.h.returned, Held(r.t.holds), Held(t'.holds), out.value.frame);
    }
    MovedKeeps(r, Called(r, op), rows, holds);
  }

  lemma RemoveStep(r: Run, op: Op, rows: nat, holds: nat)
    requires op.RemoveOp? && RunInv(r, rows, holds) && rows < NONE && r.h.clock <= op.at
    ensures RunInv(Step(r, op), rows, holds)
  {
    var i := FindRow(r.t.rows, op.pro, op.spa);
    if i != NONE {
      FreeRowKeeps(r.t, i);
      HeldSame(FreeRow(r.t, i).holds, r.t.holds);
    }
    UnlearnedInformed(r.t, Remove(r.t, op.pro, op.spa).0, r.h.learned);
    MovedKeeps(r, Called(r, op), rows, holds);
  }

  lemma AddStep(r: Run, op: Op, rows: nat, holds: nat)
    requires op.AddOp? && RunInv(r, rows, holds) && rows < NONE && r.h.clock <= op.at
    ensures RunInv(Step(r, op), rows, holds)
  {
    if op.sha.Some? && op.pro == PRO_IPV4 && op.spa != 0 {
      LearnKeeps(r.t, op.spa, op.sha.value, op.netif, Wrap32(op.at), true);
      LearnedKeeps(r.t, r.h, op.spa, op.sha.value, op.netif, Wrap32(op.at), true);
    }
    MovedKeeps(r, Called(r, op), rows, holds);
  }

  lemma InputStep(r: Run, op: Op, rows: nat, holds: nat)
    requires op.InputOp? && RunInv(r, rows, holds) && rows < NONE && r.h.clock <= op.at
    ensures RunInv(Step(r, op), rows, holds)
  {
    if op.packet.Some? {
      InputMoves(r.t, r.h, op.packet.value, op.local, op.netif, Wrap32(op.at));
      var (t', got) := Input(r.t, op.packet, op.local, op.netif, Wrap32(op.at));
      LearnBooked(r, t', got.index, Spa(op.packet.value), Sha(op.packet.value), op.at, rows, holds);
    } else {
      MovedKeeps(r, Called(r, op), rows, holds);
    }
  }

  lemma LearnBooked(r: Run, t': Table, i: nat, spa: u32, sha: Mac, at: nat, rows: nat, holds: nat)
    requires RunInv(r, rows, holds) && r.h.clock <= at
    requires Inv(t') && |t'.rows| == rows && |t'.holds| == holds && Held(t'.holds) == Held(r.t.holds)
    requires Informed(t', Noted(r.h, i, spa, sha).learned) && RowsMoved(r.t.rows, t'.rows)
    ensures var h := Noted(r.h.(clock := at), i, spa, sha);
            RunInv(Run(t', h.(freed := h.freed + Freed(r.t.rows, t'.rows))), rows, holds)
  {
    var h := Noted(r.h.(clock := at), i, spa, sha);
    assert h.learned == Noted(r.h, i, spa, sha).learned && h.(learned := r.h.learned, clock := r.h.clock) == r.h;
    MovedKeeps(r, Run(t', h), rows, holds);
  }

  lemma InputMoves(t: Table, h: History, p: Packet, local: u32, netif: u8, now: u32)
    requires Inv(t) && |t.rows| < NONE && Informed(t, h.learned)
    ensures var (t', got) := Input(t, Some(p), local, netif, now);
            && Inv(t') && |t'.rows| == |t.rows| && |t'.holds| == |t.holds| && Held(t'.holds) == Held(t.holds)
            && Informed(t', Noted(h, got.index, Spa(p), Sha(p)).learned) && RowsMoved(t.rows, t'.rows)
  {
    if Spa(p) != 0 {
      var target := local != 0 && Tpa(p) == local;
      LearnKeeps(t, Spa(p), Sha(p), netif, now, target);
      LearnedKeeps(t, h, Spa(p), Sha(p), netif, now, target);
    }
  }

  /** A REQUEST reported for an address is remembered against it. */
  lemma AskedPaced(rows: seq<Row>, h: History, i: nat, at: nat)
    requires Paced(rows, h) && h.clock == at && OneRowPerAddress(rows) && i < |rows| && rows[i].state == Pending
    ensures Paced(rows[i := AskedRow(rows[i], Wrap32(at))],
      h.(asked := h.asked[rows[i].spa := at], freed := h.freed - {rows[i].spa}))
  {
    var after := rows[i := AskedRow(rows[i], Wrap32(at))];
    forall j | 0 <= j < |after| && j != i && after[j].state != Free ensures after[j].spa != rows[i].spa {
      assert rows[j].state != Free;
    }
    LiveAsked(rows, i, Wrap32(at));
    assert after[i].state != Free;
    forall spa | (spa in h.asked || spa == rows[i].spa) && (spa !in h.freed || spa == rows[i].spa)
      ensures Live(after, spa) {
      assert spa != rows[i].spa ==> Live(rows, spa);
    }
  }

  /** Asking for a row frees none. */
  lemma LiveAsked(rows: seq<Row>, i: nat, now: u32)
    requires i < |rows| && rows[i].state == Pending
    ensures forall spa :: Live(rows, spa) <==> Live(rows[i := AskedRow(rows[i], now)], spa)
  {
    var after := rows[i := AskedRow(rows[i], now)];
    forall spa ensures Live(rows, spa) <==> Live(after, spa) {
      if Live(rows, spa) {
        var k :| 0 <= k < |rows| && rows[k].state != Free && rows[k].spa == spa;
        assert after[k].state != Free && after[k].spa == spa;
      }
      if Live(after, spa) {
        var k :| 0 <= k < |after| && after[k].state != Free && after[k].spa == spa;
        assert rows[k].state != Free && rows[k].spa == spa;
      }
    }
  }

  lemma SweptMoves(t: Table, now: u32)
    requires Inv(t)
    ensures RowsMoved(t.rows, Swept(t, now).rows) && Unlearned(t.rows, Swept(t, now).rows)
  {
    SweptEffect(t, now);
  }

  /** A tick leaves the swept rows as they are but for the one it asks for. */
  lemma TickRows(t: Table, now: u32)
    requires Inv(t)
    ensures var (t', out) := Tick(t, now);
            var s := Swept(t, now);
            && (!out.Ask? ==> t'.rows == s.rows)
            && (out.Ask? ==> out.index < |s.rows| && s.rows[out.index].state == Pending
                             && AskDue(s.rows[out.index], now)
                             && out.ip == s.rows[out.index].spa
                             && t'.rows == s.rows[out.index := AskedRow(s.rows[out.index], now)])
  {
  }

  lemma TickStep(r: Run, op: Op, rows: nat, holds: nat)
    requires op.TickOp? && RunInv(r, rows, holds) && rows < NONE && r.h.clock <= op.at
    ensures RunInv(Step(r, op), rows, holds)
  {
    var now := Wrap32(op.at);
    TickKeeps(r.t, now);
    TickRows(r.t, now);
    SweptMoves(r.t, now);
    var (t', out) := Tick(r.t, now);
    UnlearnedInformed(r.t, t', r.h.learned);
    if out.Ask? {
      AskStep(r, op.at, rows, holds);
    } else {
      if out.Back? {
        Conserve(r.h.accepted, r.h.released, r.h.returned, Held(r.t.holds), Held(t'.holds), out.frame);
      }
      MovedKeeps(r, Called(r, op), rows, holds);
    }
  }

  lemma FreedAsked(before: seq<Row>, swept: seq<Row>, i: nat, now: u32, freed: set<u32>)
    requires i < |swept| && swept[i].state == Pending
    ensures var after, ip := swept[i := AskedRow(swept[i], now)], swept[i].spa;
            (freed + Freed(before, swept)) - {ip} == (freed - {ip}) + Freed(before, after)
  {
    var after, ip := swept[i := AskedRow(swept[i], now)], swept[i].spa;
    LiveAsked(swept, i, now);
    assert Freed(before, after) == Freed(before, swept);
    assert Live(swept, ip);
  }

  lemma AskStep(r: Run, at: nat, rows: nat, holds: nat)
    requires RunInv(r, rows, holds) && rows < NONE && r.h.clock <= at && Tick(r.t, Wrap32(at)).1.Ask?
    ensures var (t', out) := Tick(r.t, Wrap32(at));
            Paced(t'.rows, r.h.(asked := r.h.asked[out.ip := at], clock := at,
                                freed := (r.h.freed - {out.ip}) + Freed(r.t.rows, t'.rows)))
  {
    var now := Wrap32(at);
    TickRows(r.t, now);
    SweptMoves(r.t, now);
    SweptKeeps(r.t, now);
    var out := Tick(r.t, now).1;
    var swept := Swept(r.t, now).rows;
    MovedPaced(r.t.rows, swept, r.h, at);
    AskedPaced(swept, r.h.(freed := r.h.freed + Freed(r.t.rows, swept), clock := at), out.index, at);
    FreedAsked(r.t.rows, swept, out.index, now, r.h.freed);
  }

  lemma StepKeeps(r: Run, op: Op, rows: nat, holds: nat)
    requires RunInv(r, rows, holds) && rows < NONE && r.h.clock <= op.at
    ensures RunInv(Step(r, op), rows, holds) && Step(r, op).h.clock == op.at
  {
    match op
    case AddOp(_, _, _, _, _) => AddStep(r, op, rows, holds);
    case RemoveOp(_, _, _) => RemoveStep(r, op, rows, holds);
    case InputOp(_, _, _, _) => InputStep(r, op, rows, holds);
    case QueueOp(_, _) => QueueStep(r, op, rows, holds);
    case DequeueOp(_) => DequeueStep(r, op, rows, holds);
    case TickOp(_) => TickStep(r, op, rows, holds);
  }

  /** A run of calls on a cleared table, its clock never running backwards. */
  ghost predicate Forward(ops: seq<Op>) {
    forall i :: 1 <= i < |ops| ==> ops[i - 1].at <= ops[i].at
  }

  lemma BeginKeeps(rows: nat, holds: nat)
    ensures RunInv(Begin(rows, holds), rows, holds)
  {
    var t := Cleared(rows, holds);
    NothingHeld(t.holds);
    forall i | 0 <= i < rows ensures QueueOk(t, i) {
    }
  }

  lemma {:induction false} NothingHeld(holds: seq<Hold>)
    requires forall h :: 0 <= h < |holds| ==> holds[h] == NoFrame
    ensures Held(holds) == multiset{} && InUse(holds) == 0
  {
    if |holds| > 0 {
      NothingHeld(holds[..|holds| - 1]);
    }
  }

  /** The state a run reaches. */
  ghost function After(rows: nat, holds: nat, ops: seq<Op>): (r: Run)
    requires rows < NONE && Forward(ops)
    ensures RunInv(r, rows, holds)
    ensures r.h.clock == if |ops| == 0 then 0 else ops[|ops| - 1].at
  {
    BeginKeeps(rows, holds);
    if |ops| == 0 then Begin(rows, holds)
    else
      var before := After(rows, holds, ops[..|ops| - 1]);
      StepKeeps(before, ops[|ops| - 1], rows, holds);
      Step(before, ops[|ops| - 1])
  }

  /**
   * Every descriptor accepted comes back exactly once: over every run, what queue took is what dequeue
   * released, what tick handed back, and what is still held, which never passes the pool.
   */
  lemma RunConserves(rows: nat, holds: nat, ops: seq<Op>)
    requires rows < NONE && Forward(ops)
    ensures var r := After(rows, holds, ops);
            && r.h.accepted == r.h.released + r.h.returned + Held(r.t.holds)
            && |Held(r.t.holds)| == InUse(r.t.holds) <= holds
  {
    HeldSize(After(rows, holds, ops).t.holds);
  }

  /** Over every run each waiting hold is on exactly one live row's queue, and no other hold is on any. */
  lemma RunThreads(rows: nat, holds: nat, ops: seq<Op>, h: nat, i: nat)
    requires rows < NONE && Forward(ops) && h < holds && i < rows
    ensures var t := After(rows, holds, ops).t;
            h in t.queues[i] <==> t.holds[h].Wait? && t.holds[h].row == i
    ensures var t := After(rows, holds, ops).t;
            h in t.queues[i] ==> t.rows[i].state != Free && t.rows[i].spa == t.holds[h].frame.spa
  {
    QueuedExactly(After(rows, holds, ops).t, i, h);
  }

  /** Over every run a frame is released only towards the hardware address last learned for its address. */
  lemma RunReleasesToLearned(rows: nat, holds: nat, ops: seq<Op>)
    requires rows < NONE && Forward(ops)
    ensures var r := After(rows, holds, ops);
            var out := Dequeue(r.t).1;
            out.Some? ==>
              && out.value.frame.spa in r.h.learned
              && r.h.learned[out.value.frame.spa] == out.value.sha
              && !IsGroup(out.value.sha)
  {
    DequeueKeeps(After(rows, holds, ops).t);
  }

  /** Over every run a lookup answers with the hardware address last learned for exactly that address. */
  lemma RunFindsLearned(rows: nat, holds: nat, ops: seq<Op>, spa: u32)
    requires rows < NONE && Forward(ops)
    ensures var r := After(rows, holds, ops);
            var got := Find(r.t, PRO_IPV4, spa);
            got.status == OK ==>
              && got.index < rows && r.t.rows[got.index].spa == spa
              && spa in r.h.learned && got.mac == Some(r.h.learned[spa]) && !IsGroup(r.h.learned[spa])
  {
    var r := After(rows, holds, ops);
    var i := FindRow(r.t.rows, PRO_IPV4, spa);
    if i != NONE {
      assert RowOk(r.t.rows[i]);
    }
  }

  /** With fewer holds than rows, over every run a row is there for whoever needs one. */
  lemma RunAlwaysHasRow(rows: nat, holds: nat, ops: seq<Op>, now: u32)
    requires rows < NONE && Forward(ops) && holds < rows
    ensures TakeRow(After(rows, holds, ops).t, now).1.Some?
  {
    TakeRowNeverEmpty(After(rows, holds, ops).t, now);
  }

  /**
   * Over every run a REQUEST for an address comes less than a second of true time after the last one for it only if
   * its row was freed in between, however the clock wraps.
   */
  lemma RunPacesRequests(rows: nat, holds: nat, ops: seq<Op>, at: nat)
    requires rows < NONE && Forward(ops) && (|ops| > 0 ==> ops[|ops| - 1].at <= at)
    ensures var r := After(rows, holds, ops);
            var out := Tick(r.t, Wrap32(at)).1;
            out.Ask? && out.ip in r.h.asked && out.ip !in r.h.freed ==> at - r.h.asked[out.ip] >= REQUEST_MIN_MS
  {
    var r := After(rows, holds, ops);
    TickRows(r.t, Wrap32(at));
    SweptMoves(r.t, Wrap32(at));
    var out := Tick(r.t, Wrap32(at)).1;
    if out.Ask? && out.ip in r.h.asked && out.ip !in r.h.freed {
      assert RowMoved(r.t.rows, r.t.rows[out.index], Swept(r.t, Wrap32(at)).rows[out.index]);
      assert Live(r.t.rows, out.ip);
      WrappedDifferenceNeverOver(at, r.h.asked[out.ip]);
    }
  }

  /** An address never asked for, with its row freed since, or last asked for a second ago or more to the clock. */
  predicate Askable(h: History, spa: u32, at: nat) {
    spa !in h.asked || spa in h.freed || (at - h.asked[spa]) % TWO_32 >= REQUEST_MIN_MS
  }

  /**
   * Over every run, at every time, an unresolved row is due a REQUEST exactly when its address was never asked for, its
   * row was freed since the last one, or the time since then is a second or more to the clock, which does not see whole
   * turns of its 2^32 ms.
   */
  lemma RunAsksExactlyWhen(rows: nat, holds: nat, ops: seq<Op>, i: nat, at: nat)
    requires rows < NONE && Forward(ops) && (|ops| > 0 ==> ops[|ops| - 1].at <= at) && i < rows
    ensures var r := After(rows, holds, ops);
            var row := r.t.rows[i];
            row.state == Pending ==> (AskDue(row, Wrap32(at)) <==> Askable(r.h, row.spa, at))
  {
    var r := After(rows, holds, ops);
    if r.t.rows[i].state == Pending {
      PacedDue(r.t.rows, r.h, i, at, Wrap32(at));
    }
  }

  lemma PacedDue(rows: seq<Row>, h: History, i: nat, at: nat, now: u32)
    requires Paced(rows, h) && i < |rows| && rows[i].state == Pending && h.clock <= at && now == Wrap32(at)
    ensures var spa := rows[i].spa;
            AskDue(rows[i], now) <==> Askable(h, spa, at)
  {
    if rows[i].tries != 0 {
      TurnsUnseen(at, h.asked[rows[i].spa]);
    }
  }

  /** A row that was there and whose address has none afterwards was overwritten in its own place. */
  lemma FreedInPlace(before: seq<Row>, after: seq<Row>, i: nat)
    requires i < |before| == |after| && before[i].state != Free && before[i].spa in Freed(before, after)
    ensures after[i].state == Free || after[i].spa != before[i].spa
  {
  }

  lemma TakeRowEvicts(t: Table, now: u32)
    requires Inv(t)
    ensures var (t', v) := TakeRow(t, now);
            && |t'.rows| == |t.rows|
            && (v.None? ==> t' == t)
            && (v.Some? ==>
                  && v.value < |t.rows| && (forall j :: 0 <= j < |t.rows| && j != v.value ==> t'.rows[j] == t.rows[j])
                  && (t.rows[v.value].state != Free ==> t.queues[v.value] == [] && FirstFree(t.rows, 0) == |t.rows|))
  {
    TakeRowKeeps(t, now);
  }

  lemma LearnEvicts(t: Table, spa: u32, sha: Mac, netif: u8, now: u32, add: bool, i: nat)
    requires Inv(t) && |t.rows| < NONE && spa != 0 && i < |t.rows| && t.rows[i].state != Free
    requires t.rows[i].spa in Freed(t.rows, Learn(t, spa, sha, netif, now, add).0.rows)
    ensures t.queues[i] == [] && FirstFree(t.rows, 0) == |t.rows|
  {
    LearnKeeps(t, spa, sha, netif, now, add);
    TakeRowEvicts(t, now);
    FreedInPlace(t.rows, Learn(t, spa, sha, netif, now, add).0.rows, i);
  }

  lemma QueueEvicts(t: Table, frame: Frame, now: u32, i: nat)
    requires Inv(t) && |t.rows| < NONE && i < |t.rows| && t.rows[i].state != Free
    requires t.rows[i].spa in Freed(t.rows, Queue(t, frame, now).0.rows)
    ensures t.queues[i] == [] && FirstFree(t.rows, 0) == |t.rows|
  {
    QueueKeeps(t, frame, now);
    TakeRowEvicts(t, now);
    FreedInPlace(t.rows, Queue(t, frame, now).0.rows, i);
  }

  lemma TickFrees(t: Table, now: u32, i: nat)
    requires Inv(t) && i < |t.rows| && t.rows[i].state != Free && t.rows[i].spa in Freed(t.rows, Tick(t, now).0.rows)
    ensures Aged(t.rows[i], now)
  {
    TickRows(t, now);
    SweptEffect(t, now);
    FreedInPlace(t.rows, Tick(t, now).0.rows, i);
  }

  /** What frees a row: its removal, its age at a sweep, or its eviction with no hold on it and no row free. */
  lemma FreedBy(r: Run, op: Op, i: nat)
    requires Inv(r.t) && |r.t.rows| < NONE && i < |r.t.rows| && r.t.rows[i].state != Free
    requires r.t.rows[i].spa in Freed(r.t.rows, Step(r, op).t.rows)
    ensures || (op.RemoveOp? && op.spa == r.t.rows[i].spa)
            || (op.TickOp? && Aged(r.t.rows[i], Wrap32(op.at)))
            || ((op.AddOp? || op.InputOp? || op.QueueOp?) && r.t.queues[i] == []
                && FirstFree(r.t.rows, 0) == |r.t.rows|)
  {
    var now := Wrap32(op.at);
    if op.TickOp? {
      TickFrees(r.t, now, i);
    } else if op.QueueOp? {
      QueueEvicts(r.t, op.frame, now, i);
    } else if op.AddOp? {
      if op.sha.Some? && op.pro == PRO_IPV4 && op.spa != 0 {
        LearnEvicts(r.t, op.spa, op.sha.value, op.netif, now, true, i);
      }
    } else if op.InputOp? {
      if op.packet.Some? && Spa(op.packet.value) != 0 {
        var p := op.packet.value;
        LearnEvicts(r.t, Spa(p), Sha(p), op.netif, now, op.local != 0 && Tpa(p) == op.local, i);
      }
    } else {
      FreedInPlace(r.t.rows, Step(r, op).t.rows, i);
      DequeueKeeps(r.t);
    }
  }

  // --- a row reopened ---------------------------------------------------------------

  lemma AfterMore(rows: nat, holds: nat, ops: seq<Op>, op: Op)
    requires rows < NONE && Forward(ops) && (|ops| > 0 ==> ops[|ops| - 1].at <= op.at)
    ensures Forward(ops + [op]) && After(rows, holds, ops + [op]) == Step(After(rows, holds, ops), op)
  {
    var all := ops + [op];
    assert all[..|all| - 1] == ops;
  }

  /** A table of one row and one hold. */
  function One(row: Row, hold: Hold, q: seq<nat>, sweep: u32): Table {
    Table([row], [hold], [q], sweep)
  }

  lemma OneQueued(f: Frame, now: u32, sweep: u32)
    requires FrameOk(f)
    ensures Queue(One(EMPTY_ROW, NoFrame, [], sweep), f, now) ==
      (One(WaitingRow(f.spa, now), Wait(f, Add32(now, MAXPENDING_MS), 0), [0], sweep), OK, 0)
  {
    var t := One(EMPTY_ROW, NoFrame, [], sweep);
    assert FindRow(t.rows, PRO_IPV4, f.spa) == NONE && FirstHold(t.holds, 0) == 0 && FirstFree(t.rows, 0) == 0;
    var t' := Queue(t, f, now).0;
    assert t'.rows == [WaitingRow(f.spa, now)] && t'.holds == [Wait(f, Add32(now, MAXPENDING_MS), 0)];
    assert [] + [0] == [0] && t'.queues == [[0]];
  }

  lemma OneAsked(f: Frame, now: u32, sweep: u32)
    requires FrameOk(f) && (sweep == 0 || sweep == now)
    ensures var row := WaitingRow(f.spa, now);
            var hold := Wait(f, Add32(now, MAXPENDING_MS), 0);
            Tick(One(row, hold, [0], sweep), now) == (One(AskedRow(row, now), hold, [0], now), Ask(f.spa, 0, 0))
  {
    var row, hold := WaitingRow(f.spa, now), Wait(f, Add32(now, MAXPENDING_MS), 0);
    OneUnswept(row, hold, [0], sweep, now);
    var s := One(row, hold, [0], now);
    assert FirstReclaim(s.holds, 0) == 1 && FirstAsk(s.rows, now, 0) == 0;
    assert Tick(One(row, hold, [0], sweep), now).0.rows == [AskedRow(row, now)];
  }

  /** A sweep of one row that is not aged and one hold that is not overdue only marks its time. */
  lemma OneUnswept(row: Row, hold: Hold, q: seq<nat>, sweep: u32, now: u32)
    requires !Aged(row, now) && !Overdue(hold, now) && (sweep == 0 || sweep == now)
    ensures Swept(One(row, hold, q, sweep), now) == One(row, hold, q, now)
  {
    var t := One(row, hold, q, now);
    assert AgeRows(t, now, 1) == AgeRow(AgeRows(t, now, 0), now, 0);
    assert ExpireHolds(t, now, 1) == ExpireHold(ExpireHolds(t, now, 0), now, 0);
  }

  lemma OneRemoved(f: Frame, row: Row, deadline: u32, sweep: u32)
    requires FrameOk(f) && row.state == Pending && row.pro == PRO_IPV4 && row.spa == f.spa
    ensures Remove(One(row, Wait(f, deadline, 0), [0], sweep), PRO_IPV4, f.spa).0 ==
      One(EMPTY_ROW, Reclaim(f), [], sweep)
  {
    var t := One(row, Wait(f, deadline, 0), [0], sweep);
    assert FindRow(t.rows, PRO_IPV4, f.spa) == 0;
    assert FreeRow(t, 0).holds == [Reclaim(f)];
  }

  lemma OneGivenBack(f: Frame, now: u32)
    ensures Tick(One(EMPTY_ROW, Reclaim(f), [], now), now) == (One(EMPTY_ROW, NoFrame, [], now), Back(f))
  {
    OneUnswept(EMPTY_ROW, Reclaim(f), [], now, now);
    assert FirstReclaim([Reclaim(f)], 0) == 0;
    assert Tick(One(EMPTY_ROW, Reclaim(f), [], now), now).0.holds == [NoFrame];
  }

  /** A table of one row: empty, or waiting with a frame. */
  predicate Empty1(t: Table, sweep: u32) {
    t == One(EMPTY_ROW, NoFrame, [], sweep)
  }

  predicate Waiting1(t: Table, f: Frame, now: u32, sweep: u32) {
    t == One(WaitingRow(f.spa, now), Wait(f, Add32(now, MAXPENDING_MS), 0), [0], sweep)
  }

  lemma QueueOne(r: Run, f: Frame, at: nat, sweep: u32)
    requires FrameOk(f) && Inv(r.t) && Empty1(r.t, sweep)
    ensures var s := Step(r, QueueOp(at, f));
            Waiting1(s.t, f, Wrap32(at), sweep) && s.h.asked == r.h.asked && s.h.freed == r.h.freed
  {
    OneQueued(f, Wrap32(at), sweep);
  }

  lemma AskOne(r: Run, f: Frame, at: nat, sweep: u32)
    requires FrameOk(f) && Inv(r.t) && Waiting1(r.t, f, Wrap32(at), sweep) && (sweep == 0 || sweep == Wrap32(at))
    ensures Tick(r.t, Wrap32(at)).1 == Ask(f.spa, 0, 0)
    ensures var s := Step(r, TickOp(at));
            && s.t == One(AskedRow(WaitingRow(f.spa, Wrap32(at)), Wrap32(at)), r.t.holds[0], [0], Wrap32(at))
            && s.h.asked == r.h.asked[f.spa := at]
  {
    OneAsked(f, Wrap32(at), sweep);
  }

  lemma RemoveOne(r: Run, f: Frame, at: nat, now: u32, deadline: u32)
    requires FrameOk(f) && Inv(r.t) && r.t == One(AskedRow(WaitingRow(f.spa, now), now), Wait(f, deadline, 0), [0], now)
    ensures var s := Step(r, RemoveOp(at, PRO_IPV4, f.spa));
            s.t == One(EMPTY_ROW, Reclaim(f), [], now) && s.h.asked == r.h.asked && f.spa in s.h.freed
  {
    OneRemoved(f, AskedRow(WaitingRow(f.spa, now), now), deadline, now);
    assert r.t.rows[0].state != Free && r.t.rows[0].spa == f.spa;
  }

  lemma GiveBackOne(r: Run, f: Frame, at: nat)
    requires Inv(r.t) && r.t == One(EMPTY_ROW, Reclaim(f), [], Wrap32(at))
    ensures var s := Step(r, TickOp(at)); Empty1(s.t, Wrap32(at)) && s.h.asked == r.h.asked && r.h.freed <= s.h.freed
  {
    OneGivenBack(f, Wrap32(at));
  }

  lemma AskedOnce(f: Frame, at: nat) returns (ops: seq<Op>)
    requires FrameOk(f)
    ensures Forward(ops) && |ops| > 0 && ops[|ops| - 1].at == at
    ensures var r := After(1, 1, ops);
            && r.t == One(AskedRow(WaitingRow(f.spa, Wrap32(at)), Wrap32(at)),
                          Wait(f, Add32(Wrap32(at), MAXPENDING_MS), 0), [0], Wrap32(at))
            && f.spa in r.h.asked && r.h.asked[f.spa] == at
  {
    ops := [];
    assert Empty1(After(1, 1, ops).t, 0);
    QueueOne(After(1, 1, ops), f, at, 0);
    AfterMore(1, 1, ops, QueueOp(at, f));
    ops := ops + [QueueOp(at, f)];
    AskOne(After(1, 1, ops), f, at, 0);
    AfterMore(1, 1, ops, TickOp(at));
    ops := ops + [TickOp(at)];
  }

  lemma Flushed(f: Frame, at: nat) returns (ops: seq<Op>)
    requires FrameOk(f)
    ensures Forward(ops) && |ops| > 0 && ops[|ops| - 1].at == at
    ensures var r := After(1, 1, ops);
            Empty1(r.t, Wrap32(at)) && f.spa in r.h.asked && r.h.asked[f.spa] == at && f.spa in r.h.freed
  {
    ops := AskedOnce(f, at);
    RemoveOne(After(1, 1, ops), f, at, Wrap32(at), Add32(Wrap32(at), MAXPENDING_MS));
    AfterMore(1, 1, ops, RemoveOp(at, PRO_IPV4, f.spa));
    ops := ops + [RemoveOp(at, PRO_IPV4, f.spa)];
    GiveBackOne(After(1, 1, ops), f, at);
    AfterMore(1, 1, ops, TickOp(at));
    ops := ops + [TickOp(at)];
  }

  /**
   * A row freed and opened again asks again at once. In one millisecond: a frame queued, asked for, flushed by a
   * remove, handed back, queued again, and asked for again.
   */
  lemma ReopenedAsksAgain(f: Frame, at: nat) returns (ops: seq<Op>)
    requires FrameOk(f)
    ensures Forward(ops) && |ops| > 0 && ops[|ops| - 1].at == at
    ensures var r := After(1, 1, ops);
            && f.spa in r.h.asked && r.h.asked[f.spa] == at && f.spa in r.h.freed
            && Tick(r.t, Wrap32(at)).1 == Ask(f.spa, 0, 0)
  {
    ops := Flushed(f, at);
    QueueOne(After(1, 1, ops), f, at, Wrap32(at));
    AfterMore(1, 1, ops, QueueOp(at, f));
    ops := ops + [QueueOp(at, f)];
    AskOne(After(1, 1, ops), f, at, Wrap32(at));
  }

  // --- the bound on the table is needed --------------------------------------------

  /** One frame queued for each of the addresses 1..n. */
  function Filling(n: nat): (ops: seq<Op>)
    requires n < NONE
    ensures |ops| == n && Forward(ops)
  {
    seq(n, i requires 0 <= i < n => QueueOp(0, Frame(0, 64, i + 1)))
  }

  /** The first `n` rows wait with one hold each, and everything past them is free. */
  ghost predicate FilledTo(t: Table, n: nat) {
    && n <= |t.rows| == |t.queues| && n <= |t.holds|
    && (forall i :: 0 <= i < n ==> t.rows[i].state == Pending && t.rows[i].spa == i + 1 && t.queues[i] == [i])
    && (forall i :: n <= i < |t.rows| ==> t.rows[i].state == Free && t.queues[i] == [])
    && (forall h :: 0 <= h < |t.holds| ==> (t.holds[h].NoFrame? <==> h >= n))
  }

  lemma FillOne(t: Table, n: nat)
    requires Inv(t) && |t.rows| < NONE && FilledTo(t, n) && n < |t.rows| && n < |t.holds|
    ensures FilledTo(Queue(t, Frame(0, 64, n + 1), 0).0, n + 1)
  {
    assert FindRow(t.rows, PRO_IPV4, n + 1) == NONE;
    assert t.holds[n].NoFrame? && FirstHold(t.holds, 0) == n;
    assert t.rows[n].state == Free && FirstFree(t.rows, 0) == n;
  }

  lemma FillStep(rows: nat, holds: nat, n: nat)
    requires 0 < n <= rows < NONE && n <= holds
    ensures After(rows, holds, Filling(n)).t == Queue(After(rows, holds, Filling(n - 1)).t, Frame(0, 64, n), 0).0
  {
    var ops := Filling(n - 1);
    assert Filling(n) == ops + [QueueOp(0, Frame(0, 64, n))];
    AfterMore(rows, holds, ops, QueueOp(0, Frame(0, 64, n)));
  }

  lemma FillNext(rows: nat, holds: nat, n: nat)
    requires 0 < n <= rows < NONE && n <= holds
    requires FilledTo(After(rows, holds, Filling(n - 1)).t, n - 1)
    ensures FilledTo(After(rows, holds, Filling(n)).t, n)
  {
    FillStep(rows, holds, n);
    FillOne(After(rows, holds, Filling(n - 1)).t, n - 1);
  }

  lemma FillNone(rows: nat, holds: nat)
    requires rows < NONE
    ensures FilledTo(After(rows, holds, Filling(0)).t, 0)
  {
    assert After(rows, holds, Filling(0)) == Begin(rows, holds);
  }

  lemma {:induction false} Filled(rows: nat, holds: nat, n: nat)
    requires n <= rows < NONE && n <= holds
    ensures FilledTo(After(rows, holds, Filling(n)).t, n)
  {
    if n == 0 {
      FillNone(rows, holds);
    } else {
      Filled(rows, holds, n - 1);
      FillNext(rows, holds, n);
    }
  }

  /** With as many holds as rows, a run of queue calls leaves no row to take: the bound is exact. */
  lemma FullTableIsReachable(rows: nat, holds: nat, now: u32)
    requires 0 < rows < NONE && rows <= holds
    ensures TakeRow(After(rows, holds, Filling(rows)).t, now).1.None?
  {
    Filled(rows, holds, rows);
  }
}
