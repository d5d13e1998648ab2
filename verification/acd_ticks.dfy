/**
 * Exactly when a tick of the conflict detector acts (src/acd/acd.c): over whole runs, by the true time its deadline was
 * set at and the span it was set for, and a late tick that does not.
 */
module AcdTicks {
  import opened Words
  import opened ArpPacket
  import opened Acd
  import S = AcdStarts

  predicate Timed(s: State) {
    s != Off && s != Ongoing
  }

  /** The true time the deadline of the state a run is in was set at. */
  function SetAt(r: Run): Option<nat> {
    if r.c.state == ProbeWait then (if r.h.claim.Some? then Some(r.h.claim.value.at) else None)
    else if r.c.state == Probing || r.c.state == AnnounceWait then
      (if r.h.probes != [] then Some(Last(r.h.probes)) else None)
    else if r.c.state == Announcing then (if r.h.announces != [] then Some(Last(r.h.announces)) else None)
    else if r.c.state == RateLimit then r.h.lastConflict
    else None
  }

  /** The spans RFC 5227 sets each deadline for. */
  predicate SpanOk(s: State, span: u32) {
    match s
    case ProbeWait => span <= PROBE_WAIT_MS
    case Probing => PROBE_MIN_MS <= span <= PROBE_MAX_MS
    case AnnounceWait => span == ANNOUNCE_WAIT_MS
    case Announcing => span == ANNOUNCE_INTERVAL_MS
    case RateLimit => span == RATE_LIMIT_MS
    case _ => true
  }

  /** A claim just made and a rate limit just begun have their deadlines counted from then. */
  predicate Set(r: Run) {
    && (r.c.state == ProbeWait ==> r.h.claim.Some? && SpanFrom(r.h.claim.value.at, r.c.deadline) <= PROBE_WAIT_MS)
    && (r.c.state == RateLimit ==>
          r.h.lastConflict.Some? && SpanFrom(r.h.lastConflict.value, r.c.deadline) == RATE_LIMIT_MS)
  }

  lemma StartSets(r: Run, op: Op)
    requires r.c.sent < 3 && Set(r) && op.StartOp?
    ensures Set(Next(r, op))
  {
    SpanOf(op.at, Draw(op.rand, PROBE_WAIT_MS));
  }

  lemma ArpSets(r: Run, op: Op)
    requires r.c.sent < 3 && Set(r) && op.ArpOp?
    ensures Set(Next(r, op))
  {
    SpanOf(op.at, RATE_LIMIT_MS);
  }

  lemma StepSets(r: Run, op: Op)
    requires r.c.sent < 3 && Set(r)
    ensures Set(Next(r, op))
  {
    match op
    case StartOp(_, _, _, _, _) => StartSets(r, op);
    case StopOp(_) =>
    case ArpOp(_, _) => ArpSets(r, op);
    case TickOp(_, _) =>
  }

  lemma {:induction false} RunSets(ops: seq<Op>)
    requires Forward(ops)
    ensures Set(After(ops))
    decreases |ops|
  {
    if |ops| > 0 {
      RunSets(ops[..|ops| - 1]);
      StepSets(After(ops[..|ops| - 1]), ops[|ops| - 1]);
    }
  }

  /** What a tick does when it acts: a probe, an announcement, or a rate limit over. */
  predicate Acts(c: Ctx, r: (Ctx, Out)) {
    r.1.probe || r.1.announce || (c.state == RateLimit && r.0.state == Off)
  }

  lemma FireExactly(c: Ctx, base: nat, at: nat, now: u32, rand: u32)
    requires c.sent < 3 && now == Wrap32(at)
    ensures Acts(c, Fire(c, now, rand)) <==> Timed(c.state) && Reached(base, SpanFrom(base, c.deadline), at)
    ensures Fire(c, now, rand).1.status == BUSY <==> Timed(c.state) && !Reached(base, SpanFrom(base, c.deadline), at)
  {
    SpanIs(base, c.deadline);
    DueIsReached(base, SpanFrom(base, c.deadline), at, now, c.deadline);
  }

  lemma SetIsPast(r: Run)
    requires Inv(r) && Set(r) && Timed(r.c.state)
    ensures SetAt(r).Some? && SetAt(r).value <= r.h.clock && SpanOk(r.c.state, SpanFrom(SetAt(r).value, r.c.deadline))
  {
  }

  /**
   * Over every run, a tick sends its probe or announcement or ends its rate limit exactly when the state has a deadline
   * and the span it was set for, counted from when it was set, is over to the clock; a state with a deadline answers
   * BUSY otherwise. Each span is the one section 1.1 of RFC 5227 names.
   */
  lemma TickActsIff(ops: seq<Op>, op: Op)
    requires Follows(ops, op) && op.TickOp?
    ensures var r := After(ops);
            if !Timed(r.c.state) then !Acts(r.c, Step(r.c, op)) && Step(r.c, op).1.status != BUSY
            else
              && SetAt(r).Some? && SetAt(r).value <= op.at
              && var span := SpanFrom(SetAt(r).value, r.c.deadline);
                 && SpanOk(r.c.state, span)
                 && (Acts(r.c, Step(r.c, op)) <==> Reached(SetAt(r).value, span, op.at))
                 && (Step(r.c, op).1.status == BUSY <==> !Reached(SetAt(r).value, span, op.at))
  {
    var r := After(ops);
    var now := Wrap32(op.at);
    RunSets(ops);
    assert Step(r.c, op) == Fire(r.c, now, op.rand);
    if Timed(r.c.state) {
      SetIsPast(r);
      FireExactly(r.c, SetAt(r).value, op.at, now, op.rand);
    }
  }

  lemma LateIsBusy(r: Run, mac: Mac, ip: u32)
    requires r.c == CLEARED && ip != 0
    ensures var c := Next(r, StartOp(0, Some(mac), ip, 0, Never)).c;
            c.sent < 3 && c.state == ProbeWait && c.deadline == 0 && Fire(c, TWO_31, 0).1 == QUIET.(status := BUSY)
  {
  }

  /** An address started on at time zero with no wait drawn, and a tick 2^31 ms later: the first probe is not sent. */
  lemma LateProbeIsNotSent(mac: Mac, ip: u32) returns (ops: seq<Op>, op: Op)
    requires ip != 0
    ensures Follows(ops, op) && op == TickOp(TWO_31, 0)
    ensures var r := After(ops);
            && r.c.state == ProbeWait && SetAt(r) == Some(0) && r.c.deadline == 0
            && Step(r.c, op).1 == QUIET.(status := BUSY)
  {
    var start := StartOp(0, Some(mac), ip, 0, Never);
    S.AfterMore([], start);
    LateIsBusy(After([]), mac, ip);
    ops := [] + [start];
    op := TickOp(TWO_31, 0);
    assert Step(After(ops).c, op) == Fire(After(ops).c, TWO_31, 0);
  }
}
