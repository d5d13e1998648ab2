/**
 * The DHCPv6 client against true time (src/dhcp/dhcp6.c): over whole runs it does not turn to RENEWING before T1 nor to
 * REBINDING before T2 (sections 18.2.4 and 18.2.5 of RFC 8415).
 */
module Dhcp6Clock {
  import opened Words
  import opened Dhcp6Codec
  import opened Dhcp6Writer
  import opened Dhcp6
  import opened Dhcp6Runs
  import opened Dhcp6Leases
  import Ms

  /** Renewing only past T1 and rebinding only past T2, on the client's own clock. */
  predicate Turned(c: Ctx) {
    && (c.state == Renewing ==> !c.lease.infT1 && c.lease.t1Ms <= c.now)
    && (c.state == Rebinding ==> !c.lease.infT2 && c.lease.t2Ms <= c.now)
  }

  /** The client's clock is never ahead of the true time of its last reading, and agrees with it modulo 2^32. */
  predicate Clocked(c: Ctx, last: nat) {
    c.now == Ms.Join(c.tickHi, c.tickMs) && c.now <= last < TWO_64 && c.now % TWO_32 == last % TWO_32
  }

  predicate SameClock(c: Ctx, d: Ctx) {
    d.now == c.now && d.tickMs == c.tickMs && d.tickHi == c.tickHi
  }

  /** A call that reads no clock: one that leaves a client renewing or rebinding found it so, with the same times. */
  predicate Still(c: Ctx, d: Ctx) {
    && SameClock(c, d)
    && (d.state == Renewing || d.state == Rebinding ==> d.state == c.state && SameTimes(d.lease, c.lease))
  }

  lemma AtKeeps(c: Ctx, last: nat, at: nat, reading: u32)
    requires Clocked(c, last) && last <= at < TWO_64 && reading == Wrap32(at)
    ensures Clocked(At(c, reading), at) && c.now <= At(c, reading).now && last - c.now <= at - At(c, reading).now
  {
    Ms.ExtendNeverAhead(c.now, last, at);
    assert c.tickMs == c.now % TWO_32 && c.tickHi == c.now / TWO_32;
    LagGrows(c.now, last, at);
  }

  /** The epoch falls no less behind at a reading than it was. */
  lemma LagGrows(epoch: nat, last: nat, at: nat)
    requires epoch <= last <= at < TWO_64 && epoch % TWO_32 == last % TWO_32
    ensures Ms.Join(Ms.HighAfter(epoch % TWO_32, epoch / TWO_32, at % TWO_32), at % TWO_32) - epoch <= at - last
  {
    Ms.ExtendNeverAhead(epoch, last, at);
    var lag := last - epoch;
    Ms.ExtendNeverAhead(epoch, epoch, at - lag);
    SameLow(at, lag, last, epoch);
  }

  lemma SameLow(at: nat, lag: nat, last: nat, epoch: nat)
    requires lag == last - epoch && epoch <= last <= at && epoch % TWO_32 == last % TWO_32
    ensures (at - lag) % TWO_32 == at % TWO_32
  {
    var turns := last / TWO_32 - epoch / TWO_32;
    assert lag == TWO_32 * turns;
    WholeTurns(at, -turns);
  }

  // --- calls that read no clock ---------------------------------------------------------

  lemma AdvertiseStill(c: Ctx, opts: seq<u8>)
    ensures Still(c, OnAdvertise(c, opts).0)
  {
    TakeLeaseKeeps(c.(statusCode := StatusOf(opts)), opts);
  }

  lemma LeaseOrNotStill(c: Ctx, opts: seq<u8>)
    requires c.state in {Requesting, Renewing, Rebinding}
    ensures var t := TakeLease(c, opts); SameClock(c, t.0) && (!t.1 ==> Still(c, OnNoLease(t.0, opts).0))
  {
    TakeLeaseKeeps(c, opts);
  }

  lemma RapidReplyStill(c: Ctx, cfg: Config, opts: seq<u8>)
    requires c.state == Soliciting
    ensures Still(c, OnRapidReply(c, cfg, opts).0)
  {
    if ServerOf(opts).Some? {
      TakeLeaseKeeps(TakeServer(c, opts), opts);
    }
  }

  lemma LeaseReplyStill(c: Ctx, opts: seq<u8>, status: u16)
    requires c.state in {Requesting, Renewing, Rebinding}
    ensures Still(c, OnLeaseReply(c, opts, status).0)
  {
    if c.state != Rebinding {
      LeaseOrNotStill(c, opts);
    } else if ServerOf(opts).Some? {
      LeaseOrNotStill(TakeServer(c, opts), opts);
    }
  }

  lemma OtherReplyStill(c: Ctx, cfg: Config, opts: seq<u8>)
    requires c.state in {Confirming, InfoRequesting, Releasing, Declining}
    ensures Still(c, OnReply(c, cfg, opts).0)
  {
  }

  lemma ReplyStill(c: Ctx, cfg: Config, opts: seq<u8>)
    requires Exchange(c.state)
    ensures Still(c, OnReply(c, cfg, opts).0)
  {
    var status := StatusOf(opts);
    var d := c.(statusCode := status);
    if !(c.state in {Soliciting, Requesting, Renewing, Rebinding}) {
      OtherReplyStill(c, cfg, opts);
    } else if status != STATUS_USE_MULTICAST && status != STATUS_UNSPEC_FAIL {
      if c.state == Soliciting {
        RapidReplyStill(d, cfg, opts);
      } else {
        LeaseReplyStill(d, opts, status);
      }
    }
  }

  lemma InputStill(c: Ctx, msg: Option<seq<u8>>)
    ensures Still(c, Input(c, msg).0)
  {
    if c.cfg.Some? && msg.Some? && Accepted(c, c.cfg.value, msg.value) {
      var opts := msg.value[FIXED_LEN..];
      var d := TakeMaxRt(c, opts, c.cfg.value.stateless);
      if msg.value[0] == ADVERTISE {
        AdvertiseStill(d, opts);
      } else {
        ReplyStill(d, c.cfg.value, opts);
      }
    }
  }

  /** Whether a call reads the clock. */
  predicate Reads(c: Ctx, op: Op) {
    c.cfg.Some? && (op.OpTick? || (op.OpStart? && c.state == Idle))
  }

  lemma QuietStill(c: Ctx, op: Op)
    requires !Reads(c, op)
    ensures Still(c, Step(c, op).0)
  {
    if op.OpInput? {
      InputStill(c, op.msg);
    }
  }

  // --- calls that read it ---------------------------------------------------------------

  lemma BoundTurns(c: Ctx, cfg: Config)
    requires c.state == Bound
    ensures var d := TickBound(c, cfg).0; SameClock(c, d) && Turned(d)
  {
  }

  lemma ExchangeTurns(c: Ctx, w: Word)
    requires Exchange(c.state) && Turned(c)
    ensures var d := TickExchange(c, w).0; SameClock(c, d) && Turned(d)
  {
  }

  /** A tick turns a bound client only at T1, and a renewing one only at T2. */
  lemma TickTurns(c: Ctx, w: Word, reading: u32)
    requires c.cfg.Some? && Turned(c) && c.now <= At(c, reading).now
    ensures var d := Tick(c, w, reading).0; SameClock(At(c, reading), d) && Turned(d)
  {
    var d := At(c, reading);
    if d.state == Bound {
      BoundTurns(d, d.cfg.value);
    } else if d.state != Idle {
      ExchangeTurns(d, w);
    }
  }

  lemma StartTurns(c: Ctx, xid: u32, delay: u32, reading: u32)
    requires c.cfg.Some? && c.state == Idle
    ensures var d := Start(c, xid, delay, reading).0; SameClock(At(c, reading), d) && Turned(d)
  {
  }

  /** The reading a call carries. */
  function ReadingOf(op: Op): u32 {
    if op.OpTick? then op.reading else if op.OpStart? then op.reading else 0
  }

  lemma StepTurns(c: Ctx, op: Op, last: nat, at: nat)
    requires Clocked(c, last) && Turned(c) && last <= at < TWO_64 && (Reads(c, op) ==> ReadingOf(op) == Wrap32(at))
    ensures var d, read := Step(c, op).0, if Reads(c, op) then at else last;
            Clocked(d, read) && Turned(d) && last - c.now <= read - d.now
  {
    if Reads(c, op) {
      AtKeeps(c, last, at, ReadingOf(op));
      if op.OpTick? {
        TickTurns(c, op.word, op.reading);
      } else {
        StartTurns(c, op.xid, op.delay, op.reading);
      }
    } else {
      QuietStill(c, op);
    }
  }

  // --- whole runs -----------------------------------------------------------------------

  /** Calls made at true times that never go back, each reading the clock modulo 2^32. */
  ghost predicate OnClock(ops: seq<Op>, ats: seq<nat>) {
    && |ats| == |ops|
    && (forall k :: 0 <= k < |ops| ==>
          ats[k] < TWO_64 && (ops[k].OpTick? || ops[k].OpStart? ==> ReadingOf(ops[k]) == Wrap32(ats[k])))
    && (forall j, k :: 0 <= j < k < |ats| ==> ats[j] <= ats[k])
  }

  /** The true time the clock was last read at. */
  ghost function LastRead(ops: seq<Op>, ats: seq<nat>): nat
    requires |ats| == |ops|
    decreases |ops|
  {
    if ops == [] then 0
    else
      var n := |ops| - 1;
      if Reads(RunOf(ops[..n]).c, ops[n]) then ats[n] else LastRead(ops[..n], ats[..n])
  }

  lemma {:induction false} RunTurns(ops: seq<Op>, ats: seq<nat>)
    requires OnClock(ops, ats)
    ensures Clocked(RunOf(ops).c, LastRead(ops, ats)) && Turned(RunOf(ops).c)
    ensures LastRead(ops, ats) <= if ops == [] then 0 else ats[|ops| - 1]
    decreases |ops|
  {
    if ops != [] {
      var n := |ops| - 1;
      RunTurns(ops[..n], ats[..n]);
      assert n > 0 ==> ats[..n][n - 1] <= ats[n];
      StepTurns(RunOf(ops[..n]).c, ops[n], LastRead(ops[..n], ats[..n]), ats[n]);
    }
  }

  /** The true time of the last reading before the lease held was taken. */
  ghost function TakenRead(ops: seq<Op>, ats: seq<nat>): nat
    requires |ats| == |ops|
    decreases |ops|
  {
    if ops == [] then 0
    else
      var n := |ops| - 1;
      if ops[n].OpInput? && Takes(RunOf(ops[..n]).c, ops[n].msg) then LastRead(ops[..n], ats[..n])
      else TakenRead(ops[..n], ats[..n])
  }

  /** The client's clock is no less behind now than it was when the lease was taken. */
  lemma {:induction false} RunLags(ops: seq<Op>, ats: seq<nat>)
    requires OnClock(ops, ats) && SourceOf(ops).Sent?
    ensures TakenRead(ops, ats) - SourceOf(ops).at <= LastRead(ops, ats) - RunOf(ops).c.now
    decreases |ops|
  {
    if ops != [] {
      var n := |ops| - 1;
      var c := RunOf(ops[..n]).c;
      RunTurns(ops[..n], ats[..n]);
      assert n > 0 ==> ats[..n][n - 1] <= ats[n];
      StepTurns(c, ops[n], LastRead(ops[..n], ats[..n]), ats[n]);
      if !(ops[n].OpInput? && Takes(c, ops[n].msg)) {
        RunLags(ops[..n], ats[..n]);
      }
    }
  }

  /** A deadline counted from an epoch, where it does not pass the end of the clock. */
  lemma DeadlineIs(at: u64, seconds: u32)
    requires seconds != INFINITY && at + 1000 * seconds < TWO_64
    ensures Deadline(at, seconds) == at + 1000 * seconds
  {
  }

  /**
   * In every run on a clock that does not go back, a client renewing holds a finite T1 that its clock, never ahead of
   * true time, has reached, and one rebinding a finite T2. In true time that is the lease's T1 or T2 seconds or more
   * after the last reading of the clock before the lease was taken.
   */
  lemma RunTurnsNoEarlier(ops: seq<Op>, ats: seq<nat>)
    requires OnClock(ops, ats)
    ensures var c, src := RunOf(ops).c, SourceOf(ops);
            && c.now <= LastRead(ops, ats)
            && (c.state == Renewing ==> !c.lease.infT1 && c.lease.t1Ms <= c.now)
            && (c.state == Rebinding ==> !c.lease.infT2 && c.lease.t2Ms <= c.now)
            && (c.state == Renewing && src.Sent? && src.at + 1000 * c.lease.t1S < TWO_64 ==>
                  TakenRead(ops, ats) + 1000 * c.lease.t1S <= LastRead(ops, ats))
            && (c.state == Rebinding && src.Sent? && src.at + 1000 * c.lease.t2S < TWO_64 ==>
                  TakenRead(ops, ats) + 1000 * c.lease.t2S <= LastRead(ops, ats))
  {
    RunTurns(ops, ats);
    RunCarries(ops);
    var l, src := RunOf(ops).c.lease, SourceOf(ops);
    if src.Sent? {
      RunLags(ops, ats);
      if l.t1S != INFINITY && src.at + 1000 * l.t1S < TWO_64 {
        DeadlineIs(src.at, l.t1S);
      }
      if l.t2S != INFINITY && src.at + 1000 * l.t2S < TWO_64 {
        DeadlineIs(src.at, l.t2S);
      }
    }
  }

  /** Readings of zero, an input heard at 40 s, and a tick at 50. */
  lemma HeardLate(taken: seq<Op>, tick: Op) returns (ats: seq<nat>)
    requires taken != [] && taken[|taken| - 1].OpInput? && ReadAtZero(taken) && tick.OpTick? && tick.reading == 50_000
    ensures OnClock(taken + [tick], ats) && ats[|taken| - 1] == 40_000 && ats[|taken|] == 50_000
  {
    ats := seq(|taken| - 1, _ => 0) + [40_000, 50_000];
  }

  /** A run that soliciting takes a lease with T1 at 50 s as its last call but one, and is then renewing. */
  ghost predicate TakesThenRenews(ops: seq<Op>) {
    && |ops| >= 2 && ops[|ops| - 2].OpInput? && RunOf(ops[..|ops| - 2]).c.state == Soliciting
    && RunOf(ops[..|ops| - 1]).c.state == Bound && RunOf(ops[..|ops| - 1]).c.lease.t1S == 50
    && RunOf(ops).c.state == Renewing
  }

  lemma RenewedAtT1(duid: Duid, iaid: u32, addr: Address, w: Word) returns (taken: seq<Op>, tick: Op)
    requires |duid| >= DUID_MIN
    ensures taken != [] && taken[|taken| - 1].OpInput? && ReadAtZero(taken) && tick == OpTick(w, 50_000)
    ensures TakesThenRenews(taken + [tick])
  {
    taken := Leased(duid, iaid, addr, 50, 1000, 100, 100, w);
    tick := OpTick(w, 50_000);
    TurnsToRenewing(RunOf(taken).c, w);
    RunMore(taken, tick);
    var ops := taken + [tick];
    assert ops[..|ops| - 1] == taken && ops[..|ops| - 2] == taken[..|taken| - 1];
  }

  /**
   * The lease itself may be taken later than that reading. A Reply with T1 at 50 s heard at 40 s, the clock last read
   * at zero, and the client is renewing at 50 s, ten seconds after it was bound.
   */
  lemma RenewsSoonerThanT1(duid: Duid, iaid: u32, addr: Address, w: Word) returns (ops: seq<Op>, ats: seq<nat>)
    requires |duid| >= DUID_MIN
    ensures TakesThenRenews(ops) && OnClock(ops, ats) && ats[|ops| - 2] == 40_000 && ats[|ops| - 1] == 50_000
  {
    var taken, tick := RenewedAtT1(duid, iaid, addr, w);
    ops := taken + [tick];
    ats := HeardLate(taken, tick);
  }
}
