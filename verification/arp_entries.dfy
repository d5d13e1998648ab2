/** The eight entries of src/arp/arp_table.c over the value model, and what a whole run of them keeps. */
module ArpEntries {
  import opened Words
  import opened Counting
  import opened ArpPacket
  import opened ArpModel

  // --- queue and dequeue -----------------------------------------------------------

  function WaitingRow(ip: u32, now: u32): Row {
    Row(Pending, PRO_IPV4, ip, ZERO_SHA, 0, now, 0, 0)
  }

  /** Hold a pinned descriptor until its address resolves (idemip_arp_queue). */
  function Queue(t: Table, frame: Frame, now: u32): (Table, Status, nat)
    requires |t.rows| == |t.queues| && |t.rows| < NONE
  {
    if !FrameOk(frame) then (t, ERR, NONE)
    else
      var i := FindRow(t.rows, PRO_IPV4, frame.spa);
      if i != NONE && t.rows[i].state == Stable then (t, ERR, i)
      else
        var h := FirstHold(t.holds, 0);
        if h == |t.holds| then (t, BUSY, NONE)
        else
          var deadline := Add32(now, MAXPENDING_MS);
          if i != NONE then (Append(t, i, h, frame, deadline), OK, i)
          else
            var (t', v) := TakeRow(t, now);
            if v.None? then (t, BUSY, NONE)
            else
              var open := t'.(rows := t'.rows[v.value := WaitingRow(frame.spa, now)]);
              (Append(open, v.value, h, frame, deadline), OK, v.value)
  }

  /** An accepted frame is held from here on; a refused one changes nothing. */
  lemma QueueKeeps(t: Table, frame: Frame, now: u32)
    requires Inv(t) && |t.rows| < NONE
    ensures var (t', status, i) := Queue(t, frame, now);
            && Inv(t') && |t'.rows| == |t.rows| && |t'.holds| == |t.holds|
            && (status != OK ==> t' == t)
            && (status == OK ==>
                  && FrameOk(frame) && i < |t'.rows| && t'.rows[i].state == Pending && t'.rows[i].spa == frame.spa
                  && Held(t'.holds) == Held(t.holds) + multiset{frame} && InUse(t'.holds) == InUse(t.holds) + 1)
  {
    var i := FindRow(t.rows, PRO_IPV4, frame.spa);
    var h := FirstHold(t.holds, 0);
    var deadline := Add32(now, MAXPENDING_MS);
    if FrameOk(frame) && h < |t.holds| && (i == NONE || t.rows[i].state != Stable) {
      if i != NONE {
        AppendKeeps(t, i, h, frame, deadline);
        AppendHeld(t, i, h, frame, deadline);
      } else {
        QueueOpens(t, frame, now, h, deadline);
      }
    }
  }

  lemma QueueOpens(t: Table, frame: Frame, now: u32, h: nat, deadline: u32)
    requires Inv(t) && |t.rows| < NONE && FrameOk(frame) && FindRow(t.rows, PRO_IPV4, frame.spa) == NONE
    requires h == FirstHold(t.holds, 0) && h < |t.holds|
    ensures var (t', v) := TakeRow(t, now);
            && |t'.rows| == |t'.queues| == |t.rows| && |t'.holds| == |t.holds|
            && (v.Some? ==>
                  && v.value < |t'.rows|
                  && var open := t'.(rows := t'.rows[v.value := WaitingRow(frame.spa, now)]);
                     var done := Append(open, v.value, h, frame, deadline);
                     Inv(done) && Held(done.holds) == Held(t.holds) + multiset{frame}
                     && InUse(done.holds) == InUse(t.holds) + 1)
  {
    TakeRowKeeps(t, now);
    var (t', v) := TakeRow(t, now);
    if v.Some? {
      assert NoRowFor(t.rows, frame.spa);
      PutRowKeeps(t', v.value, WaitingRow(frame.spa, now));
      var open := t'.(rows := t'.rows[v.value := WaitingRow(frame.spa, now)]);
      TakeRowFreeHold(t, now, h);
      AppendKeeps(open, v.value, h, frame, deadline);
      AppendHeld(open, v.value, h, frame, deadline);
    }
  }

  lemma TakeRowFreeHold(t: Table, now: u32, h: nat)
    requires |t.rows| == |t.queues| && h < |t.holds| && t.holds[h].NoFrame?
    ensures var t' := TakeRow(t, now).0; h < |t'.holds| && t'.holds[h].NoFrame?
  {
  }

  /** Exactly when a frame is accepted: it is well formed, unresolved, and a hold and a row are to be had. */
  lemma QueueAccepts(t: Table, frame: Frame, now: u32)
    requires Inv(t) && |t.rows| < NONE && |t.holds| <= |t.rows|
    ensures Queue(t, frame, now).1 == OK <==>
              && FrameOk(frame) && InUse(t.holds) < |t.holds|
              && forall j :: 0 <= j < |t.rows| && t.rows[j].state == Stable ==> t.rows[j].spa != frame.spa
  {
    var i := FindRow(t.rows, PRO_IPV4, frame.spa);
    FreeHoldExists(t.holds);
    if InUse(t.holds) < |t.holds| {
      TakeRowNeverEmpty(t, now);
    }
  }

  lemma FreeHoldExists(holds: seq<Hold>)
    ensures FirstHold(holds, 0) < |holds| <==> InUse(holds) < |holds|
  {
    if FirstHold(holds, 0) == |holds| {
      AllUsed(holds);
    } else {
      OneFree(holds, FirstHold(holds, 0));
    }
  }

  lemma {:induction false} AllUsed(holds: seq<Hold>)
    requires forall h :: 0 <= h < |holds| ==> !holds[h].NoFrame?
    ensures InUse(holds) == |holds|
  {
    if |holds| > 0 {
      AllUsed(holds[..|holds| - 1]);
    }
  }

  lemma {:induction false} OneFree(holds: seq<Hold>, h: nat)
    requires h < |holds| && holds[h].NoFrame?
    ensures InUse(holds) < |holds|
  {
    var n := |holds| - 1;
    if h < n {
      OneFree(holds[..n], h);
    }
  }

  /** A released frame and where to send it. */
  datatype Release = Release(frame: Frame, sha: seq<u8>, netif: u8, index: nat)

  function FirstResolved(t: Table, k: nat): (i: nat)
    requires k <= |t.rows| == |t.queues|
    ensures k <= i <= |t.rows|
    ensures i < |t.rows| ==> t.rows[i].state == Stable && t.queues[i] != []
    ensures forall j :: k <= j < i ==> t.rows[j].state != Stable || t.queues[j] == []
    decreases |t.rows| - k
  {
    if k == |t.rows| || (t.rows[k].state == Stable && t.queues[k] != []) then k else FirstResolved(t, k + 1)
  }

  /** One hold whose row now carries a hardware address, oldest on that row first (idemip_arp_dequeue). */
  function Dequeue(t: Table): (Table, Option<Release>)
    requires Inv(t)
  {
    var i := FirstResolved(t, 0);
    if i == |t.rows| then (t, None)
    else
      assert QueueOk(t, i);
      var h := t.queues[i][0];
      assert WaitsOn(t.holds[h], i, t.rows[i].spa);
      (Detach(t, i, 0, NoFrame), Some(Release(t.holds[h].frame, t.rows[i].sha, t.rows[i].netif, i)))
  }

  /** A frame comes out once, for its own address, towards that row's non-group hardware address. */
  lemma DequeueKeeps(t: Table)
    requires Inv(t)
    ensures var (t', out) := Dequeue(t);
            && Inv(t') && |t'.rows| == |t.rows| && |t'.holds| == |t.holds| && t'.rows == t.rows
            && (out.None? ==>
                  t' == t && forall j :: 0 <= j < |t.rows| ==> t.rows[j].state != Stable || t.queues[j] == [])
            && (out.Some? ==>
                  && out.value.index < |t.rows| && t.rows[out.value.index].state == Stable
                  && t.rows[out.value.index].spa == out.value.frame.spa
                  && out.value.sha == t.rows[out.value.index].sha && !IsGroup(out.value.sha)
                  && Held(t.holds) == Held(t'.holds) + multiset{out.value.frame}
                  && InUse(t.holds) == InUse(t'.holds) + 1)
  {
    var i := FirstResolved(t, 0);
    if i < |t.rows| {
      assert QueueOk(t, i);
      var h := t.queues[i][0];
      assert WaitsOn(t.holds[h], i, t.rows[i].spa);
      DetachKeeps(t, i, 0, NoFrame);
      HeldDrop(t.holds, h);
      assert RowOk(t.rows[i]);
    }
  }

  // --- the tick --------------------------------------------------------------------

  predicate Aged(r: Row, now: u32) {
    r.state != Free && Age(r, now) >= if r.state == Pending then MAXPENDING_MS else MAXAGE_MS
  }

  function AgeRow(t: Table, now: u32, i: nat): Table
    requires i < |t.rows| == |t.queues|
  {
    if Aged(t.rows[i], now) then FreeRow(t, i) else t
  }

  /** The first `n` rows swept: those past their bound go free (arp_age_rows). */
  function AgeRows(t: Table, now: u32, n: nat): (t': Table)
    requires n <= |t.rows| == |t.queues|
    ensures |t'.rows| == |t'.queues| == |t.rows| && |t'.holds| == |t.holds| && t'.sweep == t.sweep
  {
    if n == 0 then t else AgeRow(AgeRows(t, now, n - 1), now, n - 1)
  }

  lemma {:induction false} AgeRowsKeeps(t: Table, now: u32, n: nat)
    requires Inv(t) && n <= |t.rows|
    ensures Inv(AgeRows(t, now, n)) && SamePins(AgeRows(t, now, n).holds, t.holds)
  {
    if n > 0 {
      AgeRowsKeeps(t, now, n - 1);
      FreeRowKeeps(AgeRows(t, now, n - 1), n - 1);
    }
  }

  /** Exactly the aged rows are emptied. */
  lemma {:induction false} AgedRows(t: Table, now: u32, n: nat)
    requires n <= |t.rows| == |t.queues|
    ensures var t' := AgeRows(t, now, n);
            forall i :: 0 <= i < |t.rows| ==>
              t'.rows[i] == if i < n && Aged(t.rows[i], now) then EMPTY_ROW else t.rows[i]
  {
    if n > 0 {
      AgedRows(t, now, n - 1);
    }
  }

  function PlaceIn(q: seq<nat>, h: nat): (k: nat)
    requires h in q
    ensures k < |q| && q[k] == h
  {
    if q[0] == h then 0 else 1 + PlaceIn(q[1..], h)
  }

  predicate Overdue(h: Hold, now: u32) {
    h.Wait? && Due(now, h.deadline)
  }

  /** An overdue hold taken off its row's queue, to be handed back. */
  function ExpireHold(t: Table, now: u32, h: nat): Table
    requires h < |t.holds|
  {
    if Overdue(t.holds[h], now) && t.holds[h].row < |t.queues| && h in t.queues[t.holds[h].row] then
      var i := t.holds[h].row;
      Detach(t, i, PlaceIn(t.queues[i], h), Reclaim(t.holds[h].frame))
    else t
  }

  /** The first `n` holds looked at: those past their deadline stop waiting (arp_expire_holds). */
  function ExpireHolds(t: Table, now: u32, n: nat): (t': Table)
    requires n <= |t.holds|
    ensures t'.rows == t.rows && |t'.queues| == |t.queues| && |t'.holds| == |t.holds| && t'.sweep == t.sweep
  {
    if n == 0 then t else ExpireHold(ExpireHolds(t, now, n - 1), now, n - 1)
  }

  lemma ExpireHoldKeeps(t: Table, now: u32, h: nat)
    requires Inv(t) && h < |t.holds|
    ensures var t' := ExpireHold(t, now, h);
            && Inv(t')
            && t'.holds == t.holds[h := if Overdue(t.holds[h], now) then Reclaim(t.holds[h].frame) else t.holds[h]]
  {
    assert HoldOk(t, h);
    if Overdue(t.holds[h], now) {
      var i := t.holds[h].row;
      DetachKeeps(t, i, PlaceIn(t.queues[i], h), Reclaim(t.holds[h].frame));
    }
  }

  lemma {:induction false} ExpireHoldsKeeps(t: Table, now: u32, n: nat)
    requires Inv(t) && n <= |t.holds|
    ensures var t' := ExpireHolds(t, now, n);
            && Inv(t')
            && forall h :: 0 <= h < |t.holds| ==>
                 t'.holds[h] == if h < n && Overdue(t.holds[h], now) then Reclaim(t.holds[h].frame) else t.holds[h]
  {
    if n > 0 {
      ExpireHoldsKeeps(t, now, n - 1);
      ExpireHoldKeeps(ExpireHolds(t, now, n - 1), now, n - 1);
    }
  }

  function FirstReclaim(holds: seq<Hold>, k: nat): (h: nat)
    requires k <= |holds|
    ensures k <= h <= |holds|
    ensures h < |holds| ==> holds[h].Reclaim?
    ensures forall j :: k <= j < h ==> !holds[j].Reclaim?
    decreases |holds| - k
  {
    if k == |holds| || holds[k].Reclaim? then k else FirstReclaim(holds, k + 1)
  }

  /** A row waiting for its hardware address that has had no REQUEST inside the last second. */
  predicate AskDue(r: Row, now: u32) {
    r.state == Pending && (r.tries == 0 || Sub32(now, r.req) >= REQUEST_MIN_MS)
  }

  function FirstAsk(rows: seq<Row>, now: u32, k: nat): (i: nat)
    requires k <= |rows|
    ensures k <= i <= |rows|
    ensures i < |rows| ==> AskDue(rows[i], now)
    ensures forall j :: k <= j < i ==> !AskDue(rows[j], now)
    decreases |rows| - k
  {
    if k == |rows| || AskDue(rows[k], now) then k else FirstAsk(rows, now, k + 1)
  }

  function AskedRow(r: Row, now: u32): Row {
    r.(req := now, tries := if r.tries == 0xFF then 0xFF else r.tries + 1)
  }

  /** What one tick reports: nothing, a descriptor to hand back, or an address a REQUEST is due for. */
  datatype Report = Nothing | Back(frame: Frame) | Ask(ip: u32, index: nat, netif: u8)

  predicate SweepDue(t: Table, now: u32) {
    t.sweep == 0 || Sub32(now, t.sweep) >= SWEEP_MS
  }

  lemma MarkKeeps(t: Table, now: u32)
    requires Inv(t)
    ensures Inv(t.(sweep := now))
  {
    var t' := t.(sweep := now);
    forall i | 0 <= i < |t'.rows| ensures QueueOk(t', i) {
      assert QueueOk(t, i);
    }
    forall h | 0 <= h < |t'.holds| ensures HoldOk(t', h) {
      assert HoldOk(t, h);
    }
  }

  /** The sweep of the rows, at most once per interval. */
  function SweptRows(t: Table, now: u32): (t': Table)
    requires |t.rows| == |t.queues|
    ensures |t'.rows| == |t'.queues| == |t.rows| && |t'.holds| == |t.holds|
    ensures t'.sweep == if SweepDue(t, now) then now else t.sweep
  {
    if SweepDue(t, now) then AgeRows(t.(sweep := now), now, |t.rows|) else t
  }

  /** The sweep of the rows, when it is due, and of the holds. */
  function Swept(t: Table, now: u32): (t': Table)
    requires |t.rows| == |t.queues|
    ensures |t'.rows| == |t'.queues| == |t.rows| && |t'.holds| == |t.holds|
    ensures t'.sweep == if SweepDue(t, now) then now else t.sweep
  {
    var aged := SweptRows(t, now);
    ExpireHolds(aged, now, |aged.holds|)
  }

  lemma SweptRowsKeeps(t: Table, now: u32)
    requires Inv(t)
    ensures Inv(SweptRows(t, now)) && SamePins(SweptRows(t, now).holds, t.holds)
  {
    MarkKeeps(t, now);
    if SweepDue(t, now) {
      AgeRowsKeeps(t.(sweep := now), now, |t.rows|);
    }
  }

  /** A sweep loses no descriptor. */
  lemma SweptKeeps(t: Table, now: u32)
    requires Inv(t)
    ensures var t' := Swept(t, now);
            Inv(t') && Held(t'.holds) == Held(t.holds) && InUse(t'.holds) == InUse(t.holds)
  {
    SweptRowsKeeps(t, now);
    var aged := SweptRows(t, now);
    ExpireHoldsKeeps(aged, now, |aged.holds|);
    HeldSame(Swept(t, now).holds, t.holds);
  }

  /** A sweep leaves no hold overdue, and leaves or empties each row: the aged ones, when it is due. */
  lemma SweptEffect(t: Table, now: u32)
    requires Inv(t)
    ensures var t' := Swept(t, now);
            && (forall h :: 0 <= h < |t.holds| ==> !Overdue(t'.holds[h], now))
            && (forall i :: 0 <= i < |t.rows| ==>
                  t'.rows[i] == if SweepDue(t, now) && Aged(t.rows[i], now) then EMPTY_ROW else t.rows[i])
  {
    SweptRowsKeeps(t, now);
    var aged := SweptRows(t, now);
    ExpireHoldsKeeps(aged, now, |aged.holds|);
    AgedRows(t.(sweep := now), now, |t.rows|);
  }

  lemma ReclaimKeeps(t: Table, h: nat)
    requires Inv(t) && h < |t.holds| && t.holds[h].Reclaim?
    ensures Inv(t.(holds := t.holds[h := NoFrame]))
    ensures Held(t.holds) == Held(t.holds[h := NoFrame]) + multiset{t.holds[h].frame}
    ensures InUse(t.holds) == InUse(t.holds[h := NoFrame]) + 1
  {
    var t' := t.(holds := t.holds[h := NoFrame]);
    HeldDrop(t.holds, h);
    forall j | 0 <= j < |t'.rows| ensures QueueOk(t', j) {
      assert QueueOk(t, j);
      forall k | 0 <= k < |t.queues[j]| ensures t.queues[j][k] != h {
        assert WaitsOn(t.holds[t.queues[j][k]], j, t.rows[j].spa);
      }
    }
    forall g | 0 <= g < |t'.holds| ensures HoldOk(t', g) {
      assert HoldOk(t, g);
    }
  }

  lemma AskKeeps(t: Table, i: nat, now: u32)
    requires Inv(t) && i < |t.rows| && t.rows[i].state == Pending
    ensures Inv(t.(rows := t.rows[i := AskedRow(t.rows[i], now)]))
  {
    PutRowKeeps(t, i, AskedRow(t.rows[i], now));
  }

  /** The report of a swept table. */
  function ReportOf(s: Table, now: u32): (Table, Report) {
    var h := FirstReclaim(s.holds, 0);
    if h < |s.holds| then (s.(holds := s.holds[h := NoFrame]), Back(s.holds[h].frame))
    else
      var i := FirstAsk(s.rows, now, 0);
      if i < |s.rows| then
        (s.(rows := s.rows[i := AskedRow(s.rows[i], now)]), Ask(s.rows[i].spa, i, s.rows[i].netif))
      else (s, Nothing)
  }

  lemma ReportKeeps(s: Table, now: u32)
    requires Inv(s)
    ensures var (t', out) := ReportOf(s, now);
            && Inv(t') && |t'.rows| == |s.rows| && |t'.holds| == |s.holds|
            && (out.Back? ==> FrameOk(out.frame) && Held(s.holds) == Held(t'.holds) + multiset{out.frame}
                              && InUse(s.holds) == InUse(t'.holds) + 1)
            && (!out.Back? ==> t'.holds == s.holds)
  {
    var h := FirstReclaim(s.holds, 0);
    if h < |s.holds| {
      assert HoldOk(s, h);
      ReclaimKeeps(s, h);
    } else {
      var i := FirstAsk(s.rows, now, 0);
      if i < |s.rows| {
        AskKeeps(s, i, now);
      }
    }
  }

  /** One sweep and one report (idemip_arp_tick). */
  function Tick(t: Table, now: u32): (Table, Report)
    requires |t.rows| == |t.queues|
  {
    ReportOf(Swept(t, now), now)
  }

  /** A tick hands back one descriptor with its length, or none; nothing else leaves the pool. */
  lemma TickKeeps(t: Table, now: u32)
    requires Inv(t)
    ensures var (t', out) := Tick(t, now);
            && Inv(t') && |t'.rows| == |t.rows| && |t'.holds| == |t.holds|
            && (out.Back? ==> FrameOk(out.frame) && Held(t.holds) == Held(t'.holds) + multiset{out.frame}
                              && InUse(t.holds) == InUse(t'.holds) + 1)
            && (!out.Back? ==> Held(t'.holds) == Held(t.holds) && InUse(t'.holds) == InUse(t.holds))
  {
    SweptKeeps(t, now);
    ReportKeeps(Swept(t, now), now);
  }

  // --- progress --------------------------------------------------------------------

  /** Rows a REQUEST is due for. */
  function Asks(rows: seq<Row>, now: u32): nat {
    if |rows| == 0 then 0 else Asks(rows[..|rows| - 1], now) + if AskDue(rows[|rows| - 1], now) then 1 else 0
  }

  function PendingRows(rows: seq<Row>): nat {
    if |rows| == 0 then 0 else PendingRows(rows[..|rows| - 1]) + if rows[|rows| - 1].state == Pending then 1 else 0
  }

  /** What a tick can still report at this clock reading. */
  function Work(t: Table, now: u32): nat {
    InUse(t.holds) + Asks(t.rows, now)
  }

  lemma {:induction false} AsksFall(a: seq<Row>, b: seq<Row>, now: u32)
    requires |a| == |b| && forall i :: 0 <= i < |a| && AskDue(a[i], now) ==> AskDue(b[i], now)
    ensures Asks(a, now) <= Asks(b, now)
  {
    if |a| > 0 {
      AsksFall(a[..|a| - 1], b[..|b| - 1], now);
    }
  }

  lemma {:induction false} AsksDrop(rows: seq<Row>, i: nat, r: Row, now: u32)
    requires i < |rows| && AskDue(rows[i], now) && !AskDue(r, now)
    ensures Asks(rows[i := r], now) == Asks(rows, now) - 1
  {
    var n := |rows| - 1;
    if i == n {
      assert rows[i := r][..n] == rows[..n];
    } else {
      AsksDrop(rows[..n], i, r, now);
      assert rows[i := r][..n] == rows[..n][i := r];
    }
  }

  lemma {:induction false} AsksBound(rows: seq<Row>, now: u32)
    ensures Asks(rows, now) <= PendingRows(rows)
  {
    if |rows| > 0 {
      AsksBound(rows[..|rows| - 1], now);
    }
  }

  /** The sweep leaves no less to do undone, and adds nothing to it. */
  lemma SweptWork(t: Table, now: u32)
    requires Inv(t)
    ensures Work(Swept(t, now), now) <= Work(t, now)
  {
    SweptKeeps(t, now);
    SweptEffect(t, now);
    AsksFall(Swept(t, now).rows, t.rows, now);
  }

  /** Every report uses up work, and a tick that reports nothing leaves nothing due at this reading. */
  lemma TickPays(t: Table, now: u32)
    requires Inv(t)
    ensures var (t', out) := Tick(t, now);
            && (out != Nothing ==> Work(t', now) < Work(t, now))
            && (out == Nothing ==>
                  && (forall h :: 0 <= h < |t'.holds| ==> !t'.holds[h].Reclaim? && !Overdue(t'.holds[h], now))
                  && (forall i :: 0 <= i < |t'.rows| ==> !AskDue(t'.rows[i], now)))
  {
    var s := Swept(t, now);
    SweptWork(t, now);
    SweptEffect(t, now);
    var h := FirstReclaim(s.holds, 0);
    if h < |s.holds| {
      HeldDrop(s.holds, h);
    } else {
      var i := FirstAsk(s.rows, now, 0);
      if i < |s.rows| {
        AsksDrop(s.rows, i, AskedRow(s.rows[i], now), now);
      }
    }
  }

  /** How many ticks in a row report OK at one clock reading before one answers BUSY. */
  function Reports(t: Table, now: u32): (n: nat)
    requires Inv(t)
    decreases Work(t, now)
  {
    TickKeeps(t, now);
    TickPays(t, now);
    var (t', out) := Tick(t, now);
    if out == Nothing then 0 else 1 + Reports(t', now)
  }

  /** At one reading the tick answers OK at most once per hold in use and once per unresolved row. */
  lemma {:induction false} TickRunsDry(t: Table, now: u32)
    requires Inv(t)
    ensures Reports(t, now) <= Work(t, now) <= InUse(t.holds) + PendingRows(t.rows)
    decreases Work(t, now)
  {
    AsksBound(t.rows, now);
    TickKeeps(t, now);
    TickPays(t, now);
    var (t', out) := Tick(t, now);
    if out != Nothing {
      TickRunsDry(t', now);
    }
  }
}
