/**
 * Address conflict detection over one address (src/acd/acd.c) against sections
 * 2.1.1, 2.3 and 2.4 of RFC 5227.
 *
 * The machine reads a wrapping 32-bit clock. The theorems are over whole runs
 * in true time and assume only that the clock never runs backwards.
 */
module Acd {
  import opened Words
  import opened ArpPacket

  const PROBE_WAIT_MS: u32 := 1_000
  const PROBE_NUM: u8 := 3
  const PROBE_MIN_MS: u32 := 1_000
  const PROBE_MAX_MS: u32 := 2_000
  const ANNOUNCE_WAIT_MS: u32 := 2_000
  const ANNOUNCE_NUM: u8 := 2
  const ANNOUNCE_INTERVAL_MS: u32 := 2_000
  const MAX_CONFLICTS: u8 := 10
  const RATE_LIMIT_MS: u32 := 60_000
  const DEFEND_INTERVAL_MS: u32 := 10_000

  datatype State = Off | ProbeWait | Probing | AnnounceWait | Announcing | Ongoing | RateLimit

  datatype Defense = Never | Once | Always

  datatype Ctx = Ctx(
    ipaddr: u32,
    deadline: u32,
    lastDefend: u32,
    nextClaim: u32,
    mac: Mac,
    state: State,
    defense: Defense,
    sent: u8,
    conflicts: u8,
    defended: bool)

  /** What a call asks of its caller besides its status. */
  datatype Out = Out(status: Status, probe: bool, announce: bool, conflict: bool, abandon: bool)

  const QUIET: Out := Out(OK, false, false, false, false)
  const CLEARED: Ctx := Ctx(0, 0, 0, 0, [0, 0, 0, 0, 0, 0], Off, Never, 0, 0, false)

  /** A draw over [0, span] from the low sixteen bits of a random word (acd_draw). */
  function Draw(rand: u32, span: u32): (d: u32)
    requires span < TWO_16
    ensures d <= span
  {
    var low := rand % TWO_16;
    ScaledBelow(low, span + 1);
    low * (span + 1) / TWO_16
  }

  lemma ProductBelow(a: nat, b: nat, n: nat)
    requires a < b && n > 0
    ensures a * n < b * n
  {
  }

  lemma ScaledBelow(low: nat, n: nat)
    requires low < TWO_16 && n > 0
    ensures 0 <= low * n / TWO_16 < n
  {
    ProductBelow(low, TWO_16, n);
    QuotientBelow(low * n, n);
  }

  lemma QuotientBelow(x: nat, n: nat)
    requires x < TWO_16 * n
    ensures x / TWO_16 < n
  {
  }

  /** Section 2.1.1's two tests while an address is being claimed (acd_probe_conflict). */
  predicate ProbeConflict(ip: u32, mac: Mac, p: Packet) {
    Spa(p) == ip || (IsRequest(p) && Spa(p) == 0 && Tpa(p) == ip && Sha(p) != mac)
  }

  /** Section 2.4's test once it is in use (acd_ongoing_conflict). */
  predicate OngoingConflict(ip: u32, mac: Mac, p: Packet) {
    Spa(p) == ip && Sha(p) != mac
  }

  /** A conflict counted, its ceiling kept, the next claim held off at the limit (acd_count_conflict). */
  function Counted(c: Ctx, now: u32): Ctx {
    var n := if c.conflicts < 0xFF then c.conflicts + 1 else c.conflicts;
    c.(conflicts := n, nextClaim := if n >= MAX_CONFLICTS then Add32(now, RATE_LIMIT_MS) else c.nextClaim)
  }

  /** The address given up (acd_abandon). */
  function Abandoned(c: Ctx, now: u32): Ctx {
    var n := Counted(c, now).(ipaddr := 0, sent := 0, defended := false, lastDefend := 0);
    if n.conflicts >= MAX_CONFLICTS then n.(state := RateLimit, deadline := Add32(now, RATE_LIMIT_MS))
    else n.(state := Off, deadline := 0)
  }

  /** Section 2.4 (a), (b) and (c) over one conflicting packet (acd_defend). */
  function Defended(c: Ctx, now: u32): (Ctx, Out) {
    var recent := c.defended && Sub32(now, c.lastDefend) < DEFEND_INTERVAL_MS;
    var seen := QUIET.(conflict := true);
    if c.defense == Never || (recent && c.defense == Once) then (Abandoned(c, now), seen.(abandon := true))
    else if recent then (Counted(c, now), seen)
    else (Counted(c.(lastDefend := now, defended := true), now), seen.(announce := true))
  }

  predicate Claiming(s: State) {
    s == ProbeWait || s == Probing || s == AnnounceWait
  }

  predicate Using(s: State) {
    s == Announcing || s == Ongoing
  }

  /** One received ARP packet (acd_receive). */
  function Receive(c: Ctx, packet: Option<Packet>, now: u32): (Ctx, Out) {
    if packet.None? || !IsEthernetIpv4(packet.value) then (c, QUIET.(status := ERR))
    else if !IsRequest(packet.value) && !IsReply(packet.value) then (c, QUIET)
    else if Claiming(c.state) && ProbeConflict(c.ipaddr, c.mac, packet.value) then
      (Abandoned(c, now), QUIET.(conflict := true, abandon := true))
    else if Using(c.state) && OngoingConflict(c.ipaddr, c.mac, packet.value) then Defended(c, now)
    else (c, QUIET)
  }

  /** The next probe, or the wait after the last of them (acd_send_probe). */
  function Probed(c: Ctx, now: u32, rand: u32): Ctx
    requires c.sent < 0xFF
  {
    if c.sent + 1 >= PROBE_NUM then c.(state := AnnounceWait, sent := 0, deadline := Add32(now, ANNOUNCE_WAIT_MS))
    else
      var gap := PROBE_MIN_MS + Draw(rand, PROBE_MAX_MS - PROBE_MIN_MS);
      c.(state := Probing, sent := c.sent + 1, deadline := Add32(now, gap))
  }

  /** The next announcement, or the address in use (acd_send_announce). */
  function Announced(c: Ctx, now: u32): Ctx
    requires c.sent < 0xFF
  {
    if c.sent + 1 >= ANNOUNCE_NUM then c.(state := Ongoing, sent := 0, deadline := 0)
    else c.(state := Announcing, sent := c.sent + 1, deadline := Add32(now, ANNOUNCE_INTERVAL_MS))
  }

  /** The deadline that has passed, if one has (acd_fire). */
  function Fire(c: Ctx, now: u32, rand: u32): (Ctx, Out)
    requires c.sent < 0xFF
  {
    if c.state == Off || c.state == Ongoing then (c, QUIET)
    else if !Due(now, c.deadline) then (c, QUIET.(status := BUSY))
    else if c.state == RateLimit then (c.(state := Off, deadline := 0), QUIET)
    else if c.state == ProbeWait || c.state == Probing then (Probed(c, now, rand), QUIET.(probe := true))
    else (Announced(c, now), QUIET.(announce := true))
  }

  predicate Limited(c: Ctx, now: u32) {
    c.conflicts >= MAX_CONFLICTS && !Due(now, c.nextClaim)
  }

  /** An address taken up to be probed for (idemip_acd_start over acd_claim). */
  function Start(c: Ctx, mac: Option<Mac>, ip: u32, rand: u32, defense: Defense, now: u32): (Ctx, Out) {
    if mac.None? || ip == 0 then (c, QUIET.(status := ERR))
    else if Limited(c, now) then (c, QUIET.(status := BUSY))
    else
      var next := if c.conflicts >= MAX_CONFLICTS then Add32(now, RATE_LIMIT_MS) else c.nextClaim;
      (Ctx(ip, Add32(now, Draw(rand, PROBE_WAIT_MS)), 0, next, mac.value, ProbeWait, defense, 0, c.conflicts, false),
       QUIET)
  }

  /** The address dropped without an error, a standing rate limit left to run out (acd_cease). */
  function Cease(c: Ctx): Ctx {
    var n := c.(ipaddr := 0, sent := 0, defended := false, lastDefend := 0);
    if c.state == RateLimit then n else n.(state := Off, deadline := 0)
  }

  // --- runs ------------------------------------------------------------------------

  /** The calls a run makes, each at a true millisecond. */
  datatype Op =
    | StartOp(at: nat, mac: Option<Mac>, ip: u32, rand: u32, defense: Defense)
    | StopOp(at: nat)
    | ArpOp(at: nat, packet: Option<Packet>)
    | TickOp(at: nat, rand: u32)

  function Step(c: Ctx, op: Op): (Ctx, Out)
    requires c.sent < 0xFF
  {
    var now := Wrap32(op.at);
    match op
    case StartOp(_, mac, ip, rand, defense) => Start(c, mac, ip, rand, defense, now)
    case StopOp(_) => (Cease(c), QUIET)
    case ArpOp(_, packet) => Receive(c, packet, now)
    case TickOp(_, rand) => Fire(c, now, rand)
  }

  /** An accepted start: the true time, the address and the interface it was for. */
  datatype Claim = Claim(at: nat, ip: u32, mac: Mac)

  /** What a run has seen; the probes, announcements, defences and failures since the last accepted start. */
  datatype History = History(
    clock: nat,
    claim: Option<Claim>,
    probes: seq<nat>,
    announces: seq<nat>,
    defends: seq<nat>,
    failed: bool,
    lastConflict: Option<nat>)

  const NO_HISTORY: History := History(0, None, [], [], [], false, None)

  /** A packet that fails section 2.1.1's tests for the address a claim is for. */
  predicate Fails(packet: Option<Packet>, claim: Option<Claim>) {
    && packet.Some? && claim.Some? && IsEthernetIpv4(packet.value)
    && (IsRequest(packet.value) || IsReply(packet.value))
    && ProbeConflict(claim.value.ip, claim.value.mac, packet.value)
  }

  predicate Accepted(op: Op, out: Out) {
    op.StartOp? && op.mac.Some? && out.status == OK
  }

  /** The history after a call, read off its operands and its report alone. */
  function Noted(h: History, op: Op, out: Out): History {
    var n := h.(clock := op.at, lastConflict := if out.conflict then Some(op.at) else h.lastConflict);
    if Accepted(op, out) then
      n.(claim := Some(Claim(op.at, op.ip, op.mac.value)), probes := [], announces := [], defends := [],
         failed := false)
    else
      n.(probes := if out.probe then h.probes + [op.at] else h.probes,
         announces := if out.announce && op.TickOp? then h.announces + [op.at] else h.announces,
         defends := if out.announce && op.ArpOp? then h.defends + [op.at] else h.defends,
         failed := h.failed || (op.ArpOp? && Fails(op.packet, h.claim)))
  }

  datatype Run = Run(c: Ctx, h: History)

  function After(ops: seq<Op>): (r: Run)
    requires Forward(ops)
    ensures Inv(r) && r.h.clock == if |ops| == 0 then 0 else ops[|ops| - 1].at
  {
    if |ops| == 0 then Run(CLEARED, NO_HISTORY)
    else
      var before := After(ops[..|ops| - 1]);
      var op := ops[|ops| - 1];
      StepKeeps(before, op);
      Next(before, op)
  }

  /** A run whose clock never runs backwards. */
  predicate Forward(ops: seq<Op>) {
    forall i :: 1 <= i < |ops| ==> ops[i - 1].at <= ops[i].at
  }

  /** A call that may come next in a run. */
  predicate Follows(ops: seq<Op>, op: Op) {
    Forward(ops) && (|ops| > 0 ==> ops[|ops| - 1].at <= op.at)
  }

  // --- what every call keeps -------------------------------------------------------

  function Last(times: seq<nat>): nat
    requires |times| > 0
  {
    times[|times| - 1]
  }

  predicate Spaced(times: seq<nat>, gap: nat) {
    forall i :: 1 <= i < |times| ==> times[i] - times[i - 1] >= gap
  }

  predicate NotAfter(times: seq<nat>, clock: nat) {
    |times| > 0 ==> Last(times) <= clock
  }

  /** The span a deadline was set for, counted from the true time it was set at. */
  function SpanFrom(at: nat, deadline: u32): u32 {
    Sub32(deadline, Wrap32(at))
  }

  /** Where a claim stands: its address, its probes so far, and the span to its deadline. */
  predicate ClaimOk(r: Run) {
    var c, h := r.c, r.h;
    Claiming(c.state) ==>
      && h.claim.Some? && c.ipaddr == h.claim.value.ip && c.mac == h.claim.value.mac
      && h.announces == [] && h.defends == [] && !c.defended && !h.failed
      && (c.state == ProbeWait ==> c.sent == 0 && h.probes == [])
      && (c.state == Probing ==> c.sent == |h.probes| && 1 <= c.sent < PROBE_NUM
                                 && PROBE_MIN_MS <= SpanFrom(Last(h.probes), c.deadline) <= PROBE_MAX_MS)
      && (c.state == AnnounceWait ==> c.sent == 0 && |h.probes| == PROBE_NUM
                                      && SpanFrom(Last(h.probes), c.deadline) == ANNOUNCE_WAIT_MS)
  }

  /** Where an address in use stands: announced, and the last defence remembered. */
  predicate UseOk(r: Run) {
    var c, h := r.c, r.h;
    Using(c.state) ==>
      && h.claim.Some? && |h.probes| == PROBE_NUM && |h.announces| > 0
      && (c.state == Announcing ==> c.sent == |h.announces| < ANNOUNCE_NUM
                                    && SpanFrom(Last(h.announces), c.deadline) == ANNOUNCE_INTERVAL_MS)
      && (!c.defended ==> h.defends == [])
      && (c.defended ==> |h.defends| > 0 && c.lastDefend == Wrap32(Last(h.defends)))
  }

  /** The later of the last accepted start and the last counted conflict. */
  function LastAttempt(h: History): nat {
    var start := if h.claim.Some? then h.claim.value.at else 0;
    var conflict := if h.lastConflict.Some? then h.lastConflict.value else 0;
    if start < conflict then conflict else start
  }

  /** At the limit, the next claim is a rate-limit interval past the last attempt. */
  predicate LimitOk(r: Run) {
    r.c.conflicts >= MAX_CONFLICTS ==> SpanFrom(LastAttempt(r.h), r.c.nextClaim) == RATE_LIMIT_MS
  }

  predicate PastOk(h: History) {
    && NotAfter(h.probes, h.clock) && NotAfter(h.announces, h.clock) && NotAfter(h.defends, h.clock)
    && LastAttempt(h) <= h.clock
    && Spaced(h.probes, PROBE_MIN_MS) && Spaced(h.announces, ANNOUNCE_INTERVAL_MS)
    && Spaced(h.defends, DEFEND_INTERVAL_MS)
    && (|h.announces| > 0 ==> |h.probes| == PROBE_NUM && h.announces[0] - Last(h.probes) >= ANNOUNCE_WAIT_MS)
  }

  predicate Inv(r: Run) {
    r.c.sent < 3 && ClaimOk(r) && UseOk(r) && LimitOk(r) && PastOk(r.h)
  }

  lemma SpanIs(base: nat, deadline: u32)
    ensures deadline == Wrap32(base + SpanFrom(base, deadline))
  {
  }

  /** A deadline is never reached early, whatever the clock does past it: only monotone readings are assumed. */
  lemma NeverEarly(base: nat, at: nat, deadline: u32)
    requires base <= at && SpanFrom(base, deadline) <= TWO_31 && Due(Wrap32(at), deadline)
    ensures at >= base + SpanFrom(base, deadline)
  {
    var due := base + SpanFrom(base, deadline);
    SpanIs(base, deadline);
    if at < due {
      WrappedNegativeDifference(at, due);
    }
  }

  lemma SpanOf(at: nat, gap: u32)
    ensures SpanFrom(at, Add32(Wrap32(at), gap)) == gap
  {
  }

  lemma ExtendSpaced(times: seq<nat>, at: nat, gap: nat)
    requires Spaced(times, gap) && (|times| > 0 ==> at - Last(times) >= gap)
    ensures Spaced(times + [at], gap)
  {
  }

  /** The run after one more call. */
  function Next(r: Run, op: Op): Run
    requires r.c.sent < 0xFF
  {
    var (c, out) := Step(r.c, op);
    Run(c, Noted(r.h, op, out))
  }

  lemma StepKeeps(r: Run, op: Op)
    requires Inv(r) && r.h.clock <= op.at
    ensures Inv(Next(r, op))
  {
    ClaimKeeps(r, op);
    UseKeeps(r, op);
    LimitKeeps(r, op);
    PastKeeps(r, op);
    AttemptKeeps(r, op);
  }

  lemma ClaimKeeps(r: Run, op: Op)
    requires Inv(r) && r.h.clock <= op.at
    ensures ClaimOk(Next(r, op)) && Next(r, op).c.sent < 3
  {
    match op
    case StartOp(_, _, _, _, _) =>
    case StopOp(_) =>
    case ArpOp(_, _) => ClaimHears(r, op);
    case TickOp(_, _) => ClaimProbes(r, op);
  }

  /** A packet that fails the tests ends the claim, so a claim still standing has heard none. */
  lemma ClaimHears(r: Run, op: Op)
    requires Inv(r) && op.ArpOp?
    ensures ClaimOk(Next(r, op)) && Next(r, op).c.sent < 3
  {
    var c, c' := r.c, Next(r, op).c;
    if Claiming(c'.state) {
      assert c' == c;
    }
  }

  lemma ClaimProbes(r: Run, op: Op)
    requires Inv(r) && op.TickOp?
    ensures ClaimOk(Next(r, op)) && Next(r, op).c.sent < 3
  {
    SpanOf(op.at, ANNOUNCE_WAIT_MS);
    SpanOf(op.at, PROBE_MIN_MS + Draw(op.rand, PROBE_MAX_MS - PROBE_MIN_MS));
  }

  lemma UseKeeps(r: Run, op: Op)
    requires Inv(r) && r.h.clock <= op.at
    ensures UseOk(Next(r, op))
  {
    match op
    case StartOp(_, _, _, _, _) =>
    case StopOp(_) =>
    case ArpOp(_, _) => UseHears(r, op);
    case TickOp(_, _) => UseAnnounces(r, op);
  }

  lemma UseHears(r: Run, op: Op)
    requires Inv(r) && op.ArpOp?
    ensures UseOk(Next(r, op))
  {
  }

  lemma UseAnnounces(r: Run, op: Op)
    requires Inv(r) && op.TickOp?
    ensures UseOk(Next(r, op))
  {
    SpanOf(op.at, ANNOUNCE_INTERVAL_MS);
  }

  lemma LimitKeeps(r: Run, op: Op)
    requires Inv(r) && r.h.clock <= op.at
    ensures LimitOk(Next(r, op))
  {
    SpanOf(op.at, RATE_LIMIT_MS);
  }

  lemma AttemptKeeps(r: Run, op: Op)
    requires Inv(r) && r.h.clock <= op.at
    ensures LastAttempt(Next(r, op).h) <= op.at
  {
  }

  lemma PastKeeps(r: Run, op: Op)
    requires Inv(r) && r.h.clock <= op.at
    ensures PastOk(Next(r, op).h)
  {
    AttemptKeeps(r, op);
    match op
    case StartOp(_, _, _, _, _) =>
    case StopOp(_) =>
    case ArpOp(_, _) => DefendsKeep(r, op);
    case TickOp(_, _) => TimesKeep(r, op);
  }

  lemma DefendsKeep(r: Run, op: Op)
    requires Inv(r) && r.h.clock <= op.at && op.ArpOp?
    ensures Spaced(Next(r, op).h.defends, DEFEND_INTERVAL_MS) && NotAfter(Next(r, op).h.defends, op.at)
  {
    if Step(r.c, op).1.announce {
      if |r.h.defends| > 0 {
        WrappedDifferenceNeverOver(op.at, Last(r.h.defends));
      }
      ExtendSpaced(r.h.defends, op.at, DEFEND_INTERVAL_MS);
    }
  }

  lemma TimesKeep(r: Run, op: Op)
    requires Inv(r) && r.h.clock <= op.at && op.TickOp?
    ensures var h := Next(r, op).h;
            && Spaced(h.probes, PROBE_MIN_MS) && NotAfter(h.probes, op.at)
            && Spaced(h.announces, ANNOUNCE_INTERVAL_MS) && NotAfter(h.announces, op.at)
            && (|h.announces| > 0 ==> |h.probes| == PROBE_NUM && h.announces[0] - Last(h.probes) >= ANNOUNCE_WAIT_MS)
  {
    var out := Step(r.c, op).1;
    if out.probe {
      if |r.h.probes| > 0 {
        NeverEarly(Last(r.h.probes), op.at, r.c.deadline);
      }
      ExtendSpaced(r.h.probes, op.at, PROBE_MIN_MS);
    } else if out.announce {
      if r.c.state == AnnounceWait {
        NeverEarly(Last(r.h.probes), op.at, r.c.deadline);
      } else {
        NeverEarly(Last(r.h.announces), op.at, r.c.deadline);
      }
      ExtendSpaced(r.h.announces, op.at, ANNOUNCE_INTERVAL_MS);
    }
  }

  // --- the theorems ----------------------------------------------------------------

  /**
   * Over every run, a first announcement for an address comes only after exactly PROBE_NUM probes since its
   * start, at least PROBE_MIN apart, the last at least ANNOUNCE_WAIT earlier, and with no packet that fails
   * section 2.1.1's tests received since.
   */
  lemma FirstAnnouncement(ops: seq<Op>, op: Op)
    requires Follows(ops, op) && op.TickOp?
    ensures var r := After(ops);
            var out := Step(r.c, op).1;
            out.announce && r.h.announces == [] ==>
              && r.h.claim.Some? && r.c.ipaddr == r.h.claim.value.ip
              && |r.h.probes| == PROBE_NUM && Spaced(r.h.probes, PROBE_MIN_MS)
              && op.at - Last(r.h.probes) >= ANNOUNCE_WAIT_MS
              && !r.h.failed
  {
    var r := After(ops);
    if Step(r.c, op).1.announce && r.h.announces == [] {
      NeverEarly(Last(r.h.probes), op.at, r.c.deadline);
    }
  }

  /** Over every run, a start accepted at the conflict limit is an interval past the last start and conflict. */
  lemma StartsAreRateLimited(ops: seq<Op>, op: Op)
    requires Follows(ops, op) && op.StartOp?
    ensures var r := After(ops);
            Accepted(op, Step(r.c, op).1) && r.c.conflicts >= MAX_CONFLICTS ==>
              && (r.h.claim.Some? ==> op.at - r.h.claim.value.at >= RATE_LIMIT_MS)
              && (r.h.lastConflict.Some? ==> op.at - r.h.lastConflict.value >= RATE_LIMIT_MS)
  {
    var r := After(ops);
    if Accepted(op, Step(r.c, op).1) && r.c.conflicts >= MAX_CONFLICTS {
      NeverEarly(LastAttempt(r.h), op.at, r.c.nextClaim);
    }
  }

  /** Over every run, the defensive announcements of one claim are at least DEFEND_INTERVAL apart. */
  lemma DefencesAreSpaced(ops: seq<Op>)
    requires Forward(ops)
    ensures Spaced(After(ops).h.defends, DEFEND_INTERVAL_MS)
    ensures Spaced(After(ops).h.announces, ANNOUNCE_INTERVAL_MS)
  {
    assert Inv(After(ops));
  }
}
