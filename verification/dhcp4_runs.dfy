/**
 * What every run of the DHCPv4 machine keeps: the order of a lease's deadlines, that no state is entered before its
 * time, and when a lease past its expiry is given up.
 */
module Dhcp4Runs {
  import opened Words
  import opened Dhcp4Options
  import opened Dhcp4Writer
  import opened Dhcp4
  import Ms

  datatype Op =
    | OpBind(offered: Option<Offered>)
    | OpStart(xid: u32, known: u32, delay: u32)
    | OpStop
    | OpInput(msg: Option<seq<u8>>)
    | OpBuild(cap: Option<nat>, jitter: u32)
    | OpTick
    | OpRelease
    | OpDecline
    | OpInform(xid: u32, known: u32)

  function Step(c: Ctx, op: Op, now: u32): (Ctx, Status) {
    match op
    case OpBind(offered) => Bind(c, offered)
    case OpStart(xid, known, delay) => Start(c, xid, known, delay, now)
    case OpStop => Stop(c)
    case OpInput(msg) => Input(c, msg)
    case OpBuild(cap, jitter) => var b := Build(c, cap, jitter); (b.0, b.1)
    case OpTick => Tick(c, now)
    case OpRelease => Release(c)
    case OpDecline => Decline(c)
    case OpInform(xid, known) => Inform(c, xid, known, now)
  }

  // --- the deadlines of a lease ----------------------------------------------------

  /** T1 before T2 before the expiry, the last strictly so from eight seconds up. */
  predicate InOrder(l: Lease) {
    l.t1Ms < l.t2Ms <= l.expireMs && (l.leaseS >= 8 ==> l.t2Ms < l.expireMs)
  }

  /** The deadlines lie as far apart as the times they come from. */
  predicate Spread(l: Lease) {
    && l.t1S < l.t2S <= l.leaseS && (l.leaseS >= 8 ==> l.t2S < l.leaseS)
    && l.t2Ms - l.t1Ms == 1000 * (l.t2S - l.t1S) && l.expireMs - l.t2Ms == 1000 * (l.leaseS - l.t2S)
  }

  /** The latest time a deadline counted from still fits the clock. */
  const HORIZON: nat := TWO_64 - 0x400_0000_0000

  /** Whatever the server sent, the times of a timed lease are in order, strictly from eight seconds up. */
  lemma TimesAreInOrder(lease: u32, o: Opts)
    requires Timed(lease)
    ensures var t := TimesOf(lease, o); t.0 < t.1 <= lease && (lease >= 8 ==> t.1 < lease)
  {
  }

  /** Below eight seconds the default T2 is the expiry itself, so there the order is not strict. */
  lemma ShortLeaseIsNotStrict(lease: u32)
    requires Timed(lease)
    ensures TimesOf(lease, NOTHING).1 == lease <==> lease < 8
  {
  }

  lemma LeasedIsSpread(c: Ctx, o: Opts, yiaddr: u32)
    requires c.sentMs <= HORIZON && Timed(Leased(c, o, yiaddr).lease.leaseS)
    ensures Spread(Leased(c, o, yiaddr).lease)
  {
    TimesAreInOrder(OrElse(o.lease, c.lease.leaseS), o);
  }

  /** Lease-holding states: deadlines in order, and no state entered before its time. */
  ghost predicate LeaseInv(c: Ctx) {
    && (Holding(c.state) && Timed(c.lease.leaseS) ==> Spread(c.lease))
    && (c.state == Renewing ==> Timed(c.lease.leaseS) && c.now >= c.lease.t1Ms)
    && (c.state == Rebinding ==> Timed(c.lease.leaseS) && c.now >= c.lease.t2Ms)
    && (Holding(c.state) && !Timed(c.lease.leaseS) ==> !Timed(c.lease.t1S) && !Timed(c.lease.t2S))
  }

  ghost predicate ClockInv(c: Ctx, last: nat) {
    && c.now == Ms.Join(c.tickHi, c.tickMs) && c.now <= last <= HORIZON
    && c.now % TWO_32 == last % TWO_32 && c.sentMs <= c.now
  }

  lemma AtKeeps(c: Ctx, last: nat, at: nat, now: u32)
    requires ClockInv(c, last) && last <= at <= HORIZON && now == Wrap32(at)
    ensures ClockInv(At(c, now), at) && c.now <= At(c, now).now
    ensures at - last < TWO_32 && c.now == last ==> At(c, now).now == at
  {
    Ms.ExtendNeverAhead(c.now, last, at);
    assert c.tickMs == c.now % TWO_32 && c.tickHi == c.now / TWO_32;
    if at - last < TWO_32 && c.now == last {
      Ms.ExtendKeepsTrueTime(last, at);
    }
  }

  lemma RunKeepsLease(c: Ctx)
    requires LeaseInv(c)
    ensures LeaseInv(RunDeadline(c).0)
  {
  }

  lemma LeasedKeepsLease(c: Ctx, o: Opts, yiaddr: u32)
    requires c.sentMs <= HORIZON
    ensures LeaseInv(Leased(c, o, yiaddr))
  {
    var d := Leased(c, o, yiaddr);
    if Timed(d.lease.leaseS) {
      LeasedIsSpread(c, o, yiaddr);
    }
  }

  lemma HeardKeepsLease(c: Ctx, o: Opts, yiaddr: u32)
    requires LeaseInv(c) && c.sentMs <= HORIZON
    ensures LeaseInv(Heard(c, o, yiaddr).0)
  {
    if o.kind == Some(ACK) && c.sent != INFORM {
      LeasedKeepsLease(c.(lease := Adopt(c.lease, o)), o, yiaddr);
    }
  }

  lemma InputKeepsLease(c: Ctx, msg: Option<seq<u8>>)
    requires LeaseInv(c) && c.sentMs <= HORIZON
    ensures LeaseInv(Input(c, msg).0)
  {
    if c.cfg.Some? && msg.Some? && Addressed(c, c.cfg.value, msg.value) && Declared(msg.value).Some? {
      HeardKeepsLease(c, Declared(msg.value).value, Rd32(msg.value[16..]));
    }
  }

  // --- whole runs ------------------------------------------------------------------

  /** One call: the true time it is made at, and that time as the wrapping clock reads it. */
  datatype Event = Event(op: Op, at: nat, now: u32)

  /** A machine, the true time its clock was last read at, and whether no reading came 2^32 ms after the last. */
  datatype Run = Run(c: Ctx, last: nat, close: bool)

  /** Whether a call reads the clock. */
  predicate Reads(c: Ctx, op: Op) {
    && c.cfg.Some?
    && (op.OpTick? || (op.OpStart? && c.state == Init) || (op.OpInform? && c.state == Init && op.known != 0))
  }

  function After(r: Run, e: Event): Run {
    if Reads(r.c, e.op) then Run(Step(r.c, e.op, e.now).0, e.at, r.close && e.at - r.last < TWO_32)
    else Run(Step(r.c, e.op, e.now).0, r.last, r.close)
  }

  function RunOf(events: seq<Event>): Run
    decreases |events|
  {
    if events == [] then Run(CLEARED, 0, true) else After(RunOf(events[..|events| - 1]), events[|events| - 1])
  }

  /** A clock that never goes back, read mod 2^32, over less time than the machine's own clock holds. */
  ghost predicate OnClock(events: seq<Event>) {
    && (forall k :: 0 <= k < |events| ==> events[k].now == Wrap32(events[k].at) && events[k].at <= HORIZON)
    && (forall j, k :: 0 <= j < k < |events| ==> events[j].at <= events[k].at)
  }

  ghost predicate RunInv(r: Run) {
    ClockInv(r.c, r.last) && LeaseInv(r.c) && (r.close ==> r.c.now == r.last)
  }

  /** A call that reads no clock: the clock stands, and what was sent was sent by now. */
  predicate SameClock(c: Ctx, d: Ctx) {
    d.now == c.now && d.tickMs == c.tickMs && d.tickHi == c.tickHi && (c.sentMs <= c.now ==> d.sentMs <= d.now)
  }

  lemma HeardSameClock(c: Ctx, o: Opts, yiaddr: u32)
    ensures SameClock(c, Heard(c, o, yiaddr).0)
  {
  }

  lemma InputSameClock(c: Ctx, msg: Option<seq<u8>>)
    ensures SameClock(c, Input(c, msg).0)
  {
    if c.cfg.Some? && msg.Some? && Addressed(c, c.cfg.value, msg.value) && Declared(msg.value).Some? {
      HeardSameClock(c, Declared(msg.value).value, Rd32(msg.value[16..]));
    }
  }

  lemma SentKeeps(c: Ctx, jitter: u32)
    requires LeaseInv(c)
    ensures SameClock(c, Sent(c, jitter)) && LeaseInv(Sent(c, jitter))
  {
  }

  lemma BuildKeeps(c: Ctx, cap: Option<nat>, jitter: u32)
    requires LeaseInv(c)
    ensures SameClock(c, Build(c, cap, jitter).0) && LeaseInv(Build(c, cap, jitter).0)
  {
    SentKeeps(c, jitter);
  }

  lemma QuietKeeps(c: Ctx, op: Op, now: u32)
    requires LeaseInv(c) && c.sentMs <= HORIZON && !Reads(c, op)
    ensures SameClock(c, Step(c, op, now).0) && LeaseInv(Step(c, op, now).0)
  {
    if op.OpInput? {
      InputKeepsLease(c, op.msg);
      InputSameClock(c, op.msg);
    } else if op.OpBuild? {
      BuildKeeps(c, op.cap, op.jitter);
    }
  }

  lemma RunSameClock(c: Ctx)
    ensures SameClock(c, RunDeadline(c).0)
  {
  }

  lemma TickKeeps(c: Ctx, now: u32)
    requires LeaseInv(c) && c.now <= At(c, now).now && c.cfg.Some?
    ensures LeaseInv(Tick(c, now).0) && SameClock(At(c, now), Tick(c, now).0)
  {
    RunKeepsLease(At(c, now));
    RunSameClock(At(c, now));
  }

  lemma ReadsKeeps(c: Ctx, op: Op, now: u32)
    requires LeaseInv(c) && c.now <= At(c, now).now && Reads(c, op)
    ensures SameClock(At(c, now), Step(c, op, now).0) && LeaseInv(Step(c, op, now).0)
  {
    if op.OpTick? {
      TickKeeps(c, now);
    }
  }

  lemma StepKeeps(r: Run, e: Event)
    requires RunInv(r) && r.last <= e.at <= HORIZON && e.now == Wrap32(e.at)
    ensures RunInv(After(r, e)) && After(r, e).last <= e.at
  {
    if Reads(r.c, e.op) {
      AtKeeps(r.c, r.last, e.at, e.now);
      ReadsKeeps(r.c, e.op, e.now);
    } else {
      QuietKeeps(r.c, e.op, e.now);
    }
  }

  lemma {:induction false} RunKeeps(events: seq<Event>)
    requires OnClock(events)
    ensures RunInv(RunOf(events)) && RunOf(events).last <= if events == [] then 0 else events[|events| - 1].at
    decreases |events|
  {
    if events != [] {
      var before := events[..|events| - 1];
      RunKeeps(before);
      assert before != [] ==> before[|before| - 1] == events[|events| - 2];
      StepKeeps(RunOf(before), events[|events| - 1]);
    }
  }

  /**
   * In every run, while a lease with an end is held: T1 is before T2, T2 is no later than the expiry and before it
   * from eight seconds up, RENEWING is never entered before T1 nor REBINDING before T2, on a clock that is never
   * ahead of true time and is true time when no two readings are 2^32 ms apart.
   */
  lemma RunKeepsLeaseOrder(events: seq<Event>)
    requires OnClock(events)
    ensures var r := RunOf(events);
            && (Holding(r.c.state) && Timed(r.c.lease.leaseS) ==> InOrder(r.c.lease))
            && (r.c.state == Renewing ==> r.c.lease.t1Ms <= r.c.now)
            && (r.c.state == Rebinding ==> r.c.lease.t2Ms <= r.c.now)
            && r.c.now <= r.last && (r.close ==> r.c.now == r.last)
  {
    RunKeeps(events);
  }

  // --- when a lease past its expiry is given up ------------------------------------

  /**
   * A tick at or past the expiry of a held lease ends in INIT with no address exactly when nothing is owed. With a
   * message owed it moves nothing but the clock.
   */
  lemma ExpiryNeedsNothingOwed(c: Ctx, reading: u32)
    requires c.cfg.Some? && Holding(c.state) && Timed(c.lease.leaseS) && At(c, reading).now >= c.lease.expireMs
    ensures Tick(c, reading).0.state == Init && Tick(c, reading).0.lease == NO_LEASE <==> c.owed == 0
    ensures c.owed != 0 ==> Tick(c, reading) == (At(c, reading), BUSY)
  {
  }

  /** A renewal no server was recorded for. */
  predicate Stuck(c: Ctx) {
    c.cfg.Some? && c.state == Renewing && c.owed == REQUEST && c.lease.server == 0
  }

  /** Ticks and builds alone. */
  function Drive(c: Ctx, events: seq<Event>): Ctx
    decreases |events|
  {
    if events == [] then c
    else Drive(Step(c, events[0].op, events[0].now).0, events[1..])
  }

  /**
   * However long it is ticked and built, such a renewal holds on to its address: every build refuses it, and no tick
   * looks at a deadline while it is owed.
   */
  lemma {:induction false} StuckForGood(c: Ctx, events: seq<Event>)
    requires Stuck(c) && forall k :: 0 <= k < |events| ==> events[k].op.OpTick? || events[k].op.OpBuild?
    ensures Stuck(Drive(c, events)) && Drive(c, events).lease == c.lease
    decreases |events|
  {
    if events != [] {
      StuckForGood(Step(c, events[0].op, events[0].now).0, events[1..]);
    }
  }

  /** A DHCPACK for a lease of ten seconds on 10.0.0.1 that names no server, as section 9.7 of RFC 2132 allows. */
  function NamelessAck(chaddr: Chaddr, xid: u32): seq<u8> {
    var f, a := Fixed(1, chaddr, xid, 0, 0, 0), Asked(None, None, Some(10), false);
    Message(f, ACK, a)[0 := OP_BOOTREPLY][16 := 10][19 := 1]
  }

  lemma NamelessAckSays(chaddr: Chaddr, xid: u32)
    ensures var msg := NamelessAck(chaddr, xid);
            && Declared(msg) == Some(NOTHING.(kind := Some(ACK), lease := Some(10)))
            && Rd32(msg[16..]) == 0x0A00_0001
  {
    var f, a := Fixed(1, chaddr, xid, 0, 0, 0), Asked(None, None, Some(10), false);
    var plain, msg := Message(f, ACK, a), NamelessAck(chaddr, xid);
    MessageReadsBack(f, ACK, a);
    assert msg[OFF_OPTIONS..] == plain[OFF_OPTIONS..];
    assert msg[OFF_FILE..OFF_COOKIE] == plain[OFF_FILE..OFF_COOKIE];
    assert msg[OFF_SNAME..OFF_FILE] == plain[OFF_SNAME..OFF_FILE];
    assert Header(f)[17] == 0 && Header(f)[18] == 0;
  }

  lemma NamelessAckIsAddressed(c: Ctx, cfg: Config)
    requires cfg.htype == 1
    ensures Addressed(c, cfg, NamelessAck(cfg.chaddr, c.xid))
  {
    var f, a := Fixed(1, cfg.chaddr, c.xid, 0, 0, 0), Asked(None, None, Some(10), false);
    var msg := NamelessAck(cfg.chaddr, c.xid);
    HeaderFields(f);
    assert msg[20..OFF_OPTIONS] == Header(f)[20..];
    assert msg[4..][..4] == Header(f)[4..8];
    assert msg[OFF_COOKIE..][..4] == Header(f)[OFF_COOKIE..];
    assert msg[28..28 + |cfg.chaddr|] == Header(f)[28..28 + |cfg.chaddr|];
  }

  lemma RunOfMore(events: seq<Event>, e: Event)
    ensures RunOf(events + [e]) == After(RunOf(events), e)
  {
    assert (events + [e])[..|events|] == events;
  }

  const CHADDR: Chaddr := [2, 0, 0, 0, 0, 1]
  const BIND: Event := Event(OpBind(Some(Offered(Some(CHADDR), 0, 0, 1, false))), 0, 0)
  const START: Event := Event(OpStart(7, 0x0A00_0001, 0), 0, 0)
  const FIRST_TICK: Event := Event(OpTick, 0, 0)
  const BUILD: Event := Event(OpBuild(Some(MSG_LEN), 0), 0, 0)
  const T1_TICK: Event := Event(OpTick, 5000, 5000)

  /** An address remembered, and its DHCPREQUEST owed. */
  predicate Rebooted(c: Ctx) {
    && c.cfg == Some(Config(CHADDR, 0, 1, false)) && c.state == Rebooting && c.owed == REQUEST && c.xid == 7
    && c.lease.server == 0 && c.now == 0 && c.tickMs == 0 && c.tickHi == 0
  }

  /** Every event of a run at time zero. */
  predicate AtZero(events: seq<Event>) {
    forall k :: 0 <= k < |events| ==> events[k].at == 0 && events[k].now == 0
  }

  lemma BootRuns() returns (events: seq<Event>)
    ensures Rebooted(RunOf(events).c) && AtZero(events)
  {
    events := [BIND];
    RunOfMore([], BIND);
    assert [] + [BIND] == events;
    RunOfMore(events, START);
    RunOfMore(events + [START], FIRST_TICK);
    events := events + [START] + [FIRST_TICK];
  }

  /** Its DHCPREQUEST out, at time zero. */
  predicate Waiting(c: Ctx) {
    && c.cfg.Some? && c.cfg.value.htype == 1 && c.state == Rebooting && c.sent == REQUEST
    && c.lease.server == 0 && c.sentMs == 0 && c.now == 0 && c.tickMs == 0 && c.tickHi == 0
  }

  lemma RequestIsSent(c: Ctx)
    requires Rebooted(c)
    ensures Waiting(Step(c, BUILD.op, 0).0)
  {
  }

  /** A ten-second lease granted at time zero by a server without a name. */
  predicate Granted(c: Ctx) {
    && c.cfg.Some? && c.state == Bound && c.owed == 0 && c.now == 0 && c.tickMs == 0 && c.tickHi == 0
    && c.lease.server == 0 && c.lease.ip == 0x0A00_0001 && c.lease.leaseS == 10 && c.lease.t1S == 5
    && c.lease.t1Ms == 5000 && c.lease.t2Ms == 9000 && c.lease.expireMs == 10_000
  }

  lemma GrantedIsStuck(r: Run)
    requires Granted(r.c)
    ensures Stuck(After(r, T1_TICK).c) && After(r, T1_TICK).c.lease == r.c.lease
  {
  }

  lemma ZeroThenT1(events: seq<Event>)
    requires AtZero(events)
    ensures OnClock(events + [T1_TICK])
  {
  }

  lemma AckIsHeard(c: Ctx, msg: seq<u8>)
    requires Waiting(c)
    requires Addressed(c, c.cfg.value, msg) && Declared(msg) == Some(NOTHING.(kind := Some(ACK), lease := Some(10)))
    requires Rd32(msg[16..]) == 0x0A00_0001
    ensures Granted(Input(c, Some(msg)).0)
  {
    var o := Declared(msg).value;
    assert Input(c, Some(msg)) == Heard(c, o, 0x0A00_0001);
    assert TimesOf(10, o) == (5, 9);
  }

  /** And a run reaches it: an address remembered and confirmed by such a DHCPACK, then ticked at T1. */
  lemma StuckIsReachable() returns (events: seq<Event>)
    ensures OnClock(events) && Stuck(RunOf(events).c) && RunOf(events).c.lease.ip != 0
    ensures Timed(RunOf(events).c.lease.leaseS)
  {
    var heard := HearRuns();
    GrantedIsStuck(RunOf(heard));
    ZeroThenT1(heard);
    RunOfMore(heard, T1_TICK);
    events := heard + [T1_TICK];
  }

  lemma SentRuns() returns (events: seq<Event>)
    ensures Waiting(RunOf(events).c) && AtZero(events)
  {
    events := BootRuns();
    RequestIsSent(RunOf(events).c);
    RunOfMore(events, BUILD);
    events := events + [BUILD];
  }

  lemma AckFor(c: Ctx) returns (msg: seq<u8>)
    requires Waiting(c)
    ensures Addressed(c, c.cfg.value, msg) && Declared(msg) == Some(NOTHING.(kind := Some(ACK), lease := Some(10)))
    ensures Rd32(msg[16..]) == 0x0A00_0001
  {
    var chaddr := c.cfg.value.chaddr;
    msg := NamelessAck(chaddr, c.xid);
    NamelessAckSays(chaddr, c.xid);
    NamelessAckIsAddressed(c, c.cfg.value);
  }

  lemma HearRuns() returns (events: seq<Event>)
    ensures Granted(RunOf(events).c) && AtZero(events)
  {
    events := SentRuns();
    var msg := AckFor(RunOf(events).c);
    AckIsHeard(RunOf(events).c, msg);
    RunOfMore(events, Event(OpInput(Some(msg)), 0, 0));
    events := events + [Event(OpInput(Some(msg)), 0, 0)];
  }

  // --- the rest --------------------------------------------------------------------

  /** A message the machine refuses leaves its whole context as it was. */
  lemma RefusedChangesNothing(c: Ctx, msg: Option<seq<u8>>)
    ensures Input(c, msg).1 == ERR ==> Input(c, msg).0 == c
    ensures Input(c, msg).1 != BUSY
  {
  }

  /** A build never sends to no address: a message that must name a server names one. */
  lemma BuiltHasDestination(c: Ctx, cap: Option<nat>, jitter: u32)
    ensures var b := Build(c, cap, jitter);
            && (b.1 == OK <==> b.2.Some?)
            && (b.1 == OK ==>
                  && b.2.value.dst != 0 && |b.2.value.msg| == MSG_LEN
                  && (b.2.value.dst == BROADCAST || b.2.value.dst == c.lease.server))
  {
  }

  /** What section 4.4.5 has a client wait: half the time left to T2 or to the expiry, a minute at least. */
  function WaitWanted(c: Ctx): nat {
    var timed := if c.state == Renewing then Timed(c.lease.t2S) else Timed(c.lease.leaseS);
    var deadline := if c.state == Renewing then c.lease.t2Ms else c.lease.expireMs;
    var half := if timed && c.now < deadline then (deadline - c.now) / 2 else 0;
    if half > RENEW_MIN_MS then half else RENEW_MIN_MS
  }

  /** The wait wanted, with its draw, fits the word it is computed in. */
  predicate WaitFits(want: nat, jitter: u32) {
    if want < TWO_32 then want + jitter < TWO_32 + JITTER_MS else jitter <= JITTER_MS && want < TWO_32 + jitter
  }

  /**
   * Section 4.1's wait is within a second of 4, 8, 16, 32 and then 64 seconds. Section 4.4.5's is never under a
   * minute, and within a second of half the time left exactly when that, with its draw, fits a word.
   */
  lemma BackoffIsInRange(c: Ctx, jitter: u32)
    requires jitter <= 2 * JITTER_MS
    ensures Extending(c.state) ==>
      && Backoff(c, jitter) >= RENEW_MIN_MS
      && (-1000 <= Backoff(c, jitter) - WaitWanted(c) <= 1000 <==> WaitFits(WaitWanted(c), jitter))
    ensures !Extending(c.state) ==>
      BackoffBase(c) in {4000, 8000, 16_000, 32_000, 64_000} && -1000 <= Backoff(c, jitter) - BackoffBase(c) <= 1000
  {
  }
}
