/**
 * What every run of the DHCPv6 client keeps: a recorded server wherever one is needed, so that a build fails only
 * on its buffer, and a retransmission schedule that follows section 15 of RFC 8415.
 */
module Dhcp6Runs {
  import opened Words
  import opened Dhcp6Codec
  import opened Dhcp6Writer
  import opened Dhcp6Rt
  import opened Dhcp6

  datatype Op =
    | OpBind(offered: Option<Offered>)
    | OpStart(xid: u32, delay: u32, reading: u32)
    | OpStop
    | OpInput(msg: Option<seq<u8>>)
    | OpBuild(cap: Option<nat>)
    | OpTick(word: Word, reading: u32)
    | OpConfirm
    | OpRelease
    | OpDecline

  function Quiet(r: (Ctx, Status)): (Ctx, Out) {
    (r.0, Out(r.1, false))
  }

  function Step(c: Ctx, op: Op): (Ctx, Out) {
    match op
    case OpBind(offered) => Quiet(Bind(c, offered))
    case OpStart(xid, delay, reading) => Quiet(Start(c, xid, delay, reading))
    case OpStop => Quiet(Stop(c))
    case OpInput(msg) => Quiet(Input(c, msg))
    case OpBuild(cap) => var b := Build(c, cap); (b.0, Out(b.1, false))
    case OpTick(word, reading) => Tick(c, word, reading)
    case OpConfirm => Quiet(Confirm(c))
    case OpRelease => Quiet(Return(c, Releasing))
    case OpDecline => Quiet(Return(c, Declining))
  }

  // --- the server is there where it is needed --------------------------------------

  predicate Recorded(server: Duid) {
    DUID_MIN <= |server| <= DUID_MAX
  }

  /** A lease names the server it came from, and so does a recorded Advertise. */
  ghost predicate LeaseOk(l: Lease) {
    && (l.server == [] || Recorded(l.server))
    && (HasAddr(l.addr) || l.haveAdv ==> Recorded(l.server))
  }

  /** The states whose messages, or the next state's, must name the server. */
  predicate NeedsServer(s: State) {
    s == Requesting || s == Confirming || s == Renewing || s == Rebinding || s == Releasing || s == Declining
  }

  ghost predicate ServerInv(c: Ctx) {
    && LeaseOk(c.lease)
    && (NeedsServer(c.state) || WantsServer(c.owed) ==> Recorded(c.lease.server))
    && (c.state == Bound && !(c.cfg.Some? && c.cfg.value.stateless) ==> Recorded(c.lease.server))
  }

  /** Which exchanges a client with leases runs, and which one without. */
  ghost predicate KindInv(c: Ctx) {
    && (c.cfg.None? ==> c.state == Idle && c.owed == 0)
    && (c.cfg.Some? && c.cfg.value.stateless ==>
          c.state in {Idle, InfoRequesting, Releasing, Declining, Bound} && (c.state == Bound ==> c.lease.infValid))
    && (c.cfg.Some? && !c.cfg.value.stateless ==> c.state != InfoRequesting)
  }

  ghost predicate Inv(c: Ctx) {
    ServerInv(c) && KindInv(c)
  }

  lemma NoLeaseIsOk()
    ensures LeaseOk(NO_LEASE) && !HasAddr(NO_ADDR)
  {
  }

  /**
   * Whether the times a lease gets are in order, in the numbers the message carries: with one time sent and the other
   * left to the client, the half or the fraction of the preferred lifetime it takes against the one sent.
   */
  predicate InOrder(t1: u32, t2: u32, preferred: u32) {
    if (t1 == 0) == (t2 == 0) then true
    else if preferred == INFINITY then t1 != 0 || t2 == INFINITY
    else if preferred < 2 then (t1 == 0 ==> PICKED_S <= t2) && (t2 == 0 ==> t1 <= PICKED_S)
    else (t1 == 0 ==> preferred / 2 <= t2) && (t2 == 0 ==> t1 <= preferred / 2 + preferred / 4 + preferred / 32)
  }

  /** The times of a lease are never zero, and T1 is at most T2 exactly when the numbers sent put them in order. */
  lemma TimesPicked(t1: u32, t2: u32, preferred: u32)
    requires !(t1 != 0 && t2 != 0 && t1 > t2)
    ensures var t := PickTimes(t1, t2, preferred);
            t.0 > 0 && t.1 > 0 && (t.0 <= t.1 <==> InOrder(t1, t2, preferred))
  {
    if preferred != INFINITY && preferred >= 2 {
      assert 0 < preferred / 2 <= preferred / 2 + preferred / 4 + preferred / 32 < TWO_32;
    }
  }

  /** A lease taken is one that has not run out, its address preferred no longer than it is valid. */
  lemma TakenLeaseIsSound(c: Ctx, opts: seq<u8>)
    ensures var (d, ok) := TakeLease(c, opts);
            ok ==>
              && 0 < d.lease.validS && d.lease.preferredS <= d.lease.validS && d.lease.t1S > 0 && d.lease.t2S > 0
              && (d.lease.infT1 <==> d.lease.t1S == INFINITY) && (d.lease.infValid <==> d.lease.validS == INFINITY)
              && d.lease == ArmLease(d.lease, c.now)
  {
    var ia := Find(opts, OPT_IA_NA);
    if IaUsable(ia, c.iaid) {
      var a := Find(ia.value[IA_NA_FIXED_LEN..], OPT_IAADDR);
      if AddrUsable(a) {
        TimesPicked(Rd32(ia.value[4..]), Rd32(ia.value[8..]), Rd32(a.value[16..]));
      }
    }
  }

  lemma TakeLeaseKeeps(c: Ctx, opts: seq<u8>)
    ensures var t := TakeLease(c, opts);
            && t.0.(lease := c.lease, statusCode := c.statusCode) == c
            && t.0.lease.server == c.lease.server && t.0.lease.haveAdv == c.lease.haveAdv
            && (!t.1 ==> t.0.lease == c.lease)
  {
  }

  lemma TakeAdvertiseKeeps(c: Ctx, opts: seq<u8>)
    requires LeaseOk(c.lease)
    ensures var t := TakeAdvertise(c, opts);
            && t.0.(lease := c.lease, statusCode := c.statusCode) == c
            && LeaseOk(t.0.lease)
            && (t.1 ==> Recorded(t.0.lease.server))
  {
    TakeLeaseKeeps(c, opts);
  }

  lemma AdvertiseKeeps(c: Ctx, opts: seq<u8>)
    requires Inv(c) && c.cfg.Some?
    ensures Inv(OnAdvertise(c, opts).0)
  {
    if c.state == Soliciting {
      TakeAdvertiseKeeps(c.(statusCode := StatusOf(opts)), opts);
    }
  }

  lemma RapidReplyKeeps(c: Ctx, cfg: Config, opts: seq<u8>)
    requires Inv(c) && c.cfg == Some(cfg) && c.state == Soliciting
    ensures Inv(OnRapidReply(c, cfg, opts).0)
  {
    if ServerOf(opts).Some? {
      TakeLeaseKeeps(TakeServer(c, opts), opts);
    }
  }

  lemma LeaseTakenKeeps(c: Ctx, opts: seq<u8>)
    requires Inv(c) && c.cfg.Some? && c.state in {Requesting, Renewing, Rebinding}
    ensures var t := TakeLease(c, opts);
            if t.1 then Inv(EnterBound(t.0)) else Inv(OnNoLease(t.0, opts).0)
  {
    TakeLeaseKeeps(c, opts);
  }

  lemma LeaseReplyKeeps(c: Ctx, opts: seq<u8>, status: u16)
    requires Inv(c) && c.cfg.Some? && c.state in {Requesting, Renewing, Rebinding}
    ensures Inv(OnLeaseReply(c, opts, status).0)
  {
    NoLeaseIsOk();
    LeaseTakenKeeps(c, opts);
    if ServerOf(opts).Some? {
      LeaseTakenKeeps(TakeServer(c, opts), opts);
    }
  }

  lemma ReplyKeeps(c: Ctx, cfg: Config, opts: seq<u8>)
    requires Inv(c) && c.cfg == Some(cfg) && Exchange(c.state)
    ensures Inv(OnReply(c, cfg, opts).0)
  {
    var d := c.(statusCode := StatusOf(opts));
    if d.state == Soliciting {
      RapidReplyKeeps(d, cfg, opts);
    } else if d.state in {Requesting, Renewing, Rebinding} {
      LeaseReplyKeeps(d, opts, StatusOf(opts));
    } else {
      NoLeaseIsOk();
    }
  }

  lemma InputKeeps(c: Ctx, msg: Option<seq<u8>>)
    requires Inv(c)
    ensures Inv(Input(c, msg).0)
  {
    if c.cfg.Some? && msg.Some? && Accepted(c, c.cfg.value, msg.value) {
      var opts := msg.value[FIXED_LEN..];
      var d := TakeMaxRt(c, opts, c.cfg.value.stateless);
      if msg.value[0] == ADVERTISE {
        AdvertiseKeeps(d, opts);
      } else {
        ReplyKeeps(d, c.cfg.value, opts);
      }
    }
  }

  lemma FailedKeeps(c: Ctx)
    requires Inv(c) && c.cfg.Some? && Exchange(c.state)
    ensures Inv(Failed(c))
  {
    NoLeaseIsOk();
  }

  /** All the invariant looks at. */
  predicate Agree(c: Ctx, d: Ctx) {
    c.cfg == d.cfg && c.state == d.state && c.lease == d.lease
  }

  lemma ArmedKeeps(c: Ctx, d: Ctx)
    requires Inv(c) && c.cfg.Some? && Exchange(c.state) && Agree(c, d)
      && (d.owed == c.owed || d.owed == MsgFor(c.state))
    ensures Inv(d)
  {
  }

  lemma TickRunningKeeps(c: Ctx, rand: Rand)
    requires Inv(c) && c.cfg.Some? && Exchange(c.state)
    ensures Inv(TickRunning(c, rand).0)
  {
    if !(c.state == Soliciting && c.lease.haveAdv) {
      FailedKeeps(c);
      ArmedKeeps(c, ArmAgain(c, rand));
    }
  }

  lemma TickExchangeKeeps(c: Ctx, w: Word)
    requires Inv(c) && c.cfg.Some? && Exchange(c.state)
    ensures Inv(TickExchange(c, w).0)
  {
    FailedKeeps(c);
    var d := if c.phase == New then OpenExchange(c, w) else c;
    ArmedKeeps(c, d);
    ArmedKeeps(d, ArmFirst(d, w.rand));
    TickRunningKeeps(d, w.rand);
  }

  lemma TickKeeps(c: Ctx, w: Word, reading: u32)
    requires Inv(c)
    ensures Inv(Tick(c, w, reading).0)
  {
    NoLeaseIsOk();
    if c.cfg.Some? && Exchange(c.state) {
      TickExchangeKeeps(At(c, reading), w);
    }
  }

  lemma StepKeeps(c: Ctx, op: Op)
    requires Inv(c)
    ensures Inv(Step(c, op).0)
  {
    NoLeaseIsOk();
    match op {
      case OpInput(msg) => InputKeeps(c, msg);
      case OpTick(word, reading) => TickKeeps(c, word, reading);
      case _ =>
    }
  }

  // --- the schedule ----------------------------------------------------------------

  const RT_TOP: u32 := 95_040_000

  /** The most a time with no upper bound comes to over the few transmissions such an exchange makes. */
  function Grown(retries: u8): u32 {
    if retries <= 1 then 1100 else if retries == 2 then 2310 else if retries == 3 then 4851 else 10_187
  }

  predicate Live(c: Ctx) {
    Exchange(c.state) && c.phase == Running
  }

  ghost predicate TimeInv(c: Ctx) {
    && (c.cfg.Some? ==> 60_000 <= c.maxRtMs <= 86_400_000)
    && (Exchange(c.state) && c.phase != Running ==> c.retries == 0)
    && (Live(c) ==>
          && 1 <= c.retries && c.rt <= RT_TOP
          && (Mrc(c.state) != 0 ==> c.retries <= Mrc(c.state))
          && (c.state == Releasing || c.state == Declining ==> c.rt <= Grown(c.retries)))
  }

  /** A later time of section 15: about twice the last and under MRT, or about MRT where that would pass it. */
  predicate Later(prev: u32, rt: u32, mrt: u32) {
    || (Tenth(rt, 2 * prev, prev) && (mrt != 0 ==> rt <= mrt))
    || (mrt != 0 && 10 * mrt < 21 * prev && Tenth(rt, mrt, mrt))
  }

  predicate Earliest(s: State, rt: u32) {
    Tenth(rt, Irt(s), Irt(s)) && (s == Soliciting ==> rt > Irt(s))
  }

  /** What one call can do to a running schedule: leave it, end it, open it, or take it one transmission on. */
  ghost predicate Moves(c: Ctx, d: Ctx, armed: bool) {
    || (!armed && !Live(d))
    || (!armed && Live(c) && Live(d) && d.state == c.state && d.retries == c.retries && d.rt == c.rt)
    || (armed && !Live(c) && Live(d) && d.retries == 1 && Earliest(d.state, d.rt))
    || (armed && Live(c) && Live(d) && d.state == c.state && Later(c.rt, d.rt, Mrt(d.state, d.maxRtMs))
        && (Mrc(c.state) != 0 ==> c.retries < Mrc(c.state))
        && d.retries == if c.retries < 0xFF then c.retries + 1 else c.retries)
  }

  lemma ArmFirstMoves(c: Ctx, rand: Rand)
    requires TimeInv(c) && Exchange(c.state) && c.phase != Running
    ensures Moves(c, ArmFirst(c, rand), true) && TimeInv(ArmFirst(c, rand))
  {
    FirstRtIsNearIrt(Irt(c.state), rand, c.state == Soliciting);
  }

  lemma ArmAgainMoves(c: Ctx, rand: Rand)
    requires TimeInv(c) && Live(c) && c.cfg.Some? && (Mrc(c.state) != 0 ==> c.retries < Mrc(c.state))
    ensures Moves(c, ArmAgain(c, rand), true) && TimeInv(ArmAgain(c, rand))
  {
    NextRtFollowsSection15(c.rt, Mrt(c.state, c.maxRtMs), rand);
  }

  /** A call that is no tick: it leaves the running schedule as it stands or ends it. */
  ghost predicate Untimed(c: Ctx, d: Ctx) {
    && (d.cfg.Some? ==> 60_000 <= d.maxRtMs <= 86_400_000)
    && (Exchange(d.state) ==>
          || (d.phase != Running && d.retries == 0)
          || (d.state == c.state && d.phase == c.phase && d.retries == c.retries && d.rt == c.rt))
  }

  lemma UntimedMoves(c: Ctx, d: Ctx)
    requires TimeInv(c) && Untimed(c, d)
    ensures TimeInv(d) && Moves(c, d, false)
  {
  }

  lemma TakeMaxRtUntimed(c: Ctx, opts: seq<u8>, stateless: bool)
    requires TimeInv(c) && c.cfg.Some?
    ensures var d := TakeMaxRt(c, opts, stateless);
            TimeInv(d) && d.(maxRtMs := c.maxRtMs, maxRtSeenS := c.maxRtSeenS, maxRtSplit := c.maxRtSplit) == c
  {
  }

  lemma AdvertiseUntimed(c: Ctx, opts: seq<u8>)
    requires TimeInv(c) && c.cfg.Some?
    ensures Untimed(c, OnAdvertise(c, opts).0)
  {
    TakeLeaseKeeps(c.(statusCode := StatusOf(opts)), opts);
  }

  lemma LeaseTakenUntimed(c: Ctx, opts: seq<u8>)
    requires TimeInv(c) && c.cfg.Some?
    ensures var t := TakeLease(c, opts);
            Untimed(c, if t.1 then EnterBound(t.0) else OnNoLease(t.0, opts).0)
  {
    TakeLeaseKeeps(c, opts);
  }

  lemma LeaseReplyUntimed(c: Ctx, opts: seq<u8>, status: u16)
    requires TimeInv(c) && c.cfg.Some?
    ensures Untimed(c, OnLeaseReply(c, opts, status).0)
  {
    LeaseTakenUntimed(c, opts);
    if ServerOf(opts).Some? {
      LeaseTakenUntimed(TakeServer(c, opts), opts);
    }
  }

  lemma RapidReplyUntimed(c: Ctx, cfg: Config, opts: seq<u8>)
    requires TimeInv(c) && c.cfg.Some?
    ensures Untimed(c, OnRapidReply(c, cfg, opts).0)
  {
    if ServerOf(opts).Some? {
      TakeLeaseKeeps(TakeServer(c, opts), opts);
    }
  }

  lemma ReplyUntimed(c: Ctx, cfg: Config, opts: seq<u8>)
    requires TimeInv(c) && c.cfg.Some?
    ensures Untimed(c, OnReply(c, cfg, opts).0)
  {
    var d := c.(statusCode := StatusOf(opts));
    if d.state == Soliciting {
      RapidReplyUntimed(d, cfg, opts);
    } else if d.state in {Requesting, Renewing, Rebinding} {
      LeaseReplyUntimed(d, opts, StatusOf(opts));
    }
  }

  lemma InputUntimed(c: Ctx, msg: Option<seq<u8>>)
    requires TimeInv(c)
    ensures Untimed(c, Input(c, msg).0)
  {
    if c.cfg.Some? && msg.Some? && Accepted(c, c.cfg.value, msg.value) {
      var opts := msg.value[FIXED_LEN..];
      var d := TakeMaxRt(c, opts, c.cfg.value.stateless);
      TakeMaxRtUntimed(c, opts, c.cfg.value.stateless);
      if msg.value[0] == ADVERTISE {
        AdvertiseUntimed(d, opts);
      } else {
        ReplyUntimed(d, c.cfg.value, opts);
      }
    }
  }

  lemma TickRunningMoves(c: Ctx, rand: Rand)
    requires TimeInv(c) && Live(c) && c.cfg.Some?
    ensures var t := TickRunning(c, rand); TimeInv(t.0) && Moves(c, t.0, t.1.armed)
  {
    if Mrc(c.state) == 0 || c.retries < Mrc(c.state) {
      ArmAgainMoves(c, rand);
    }
  }

  lemma TickExchangeMoves(c: Ctx, w: Word)
    requires TimeInv(c) && Exchange(c.state) && c.cfg.Some?
    ensures var t := TickExchange(c, w); TimeInv(t.0) && Moves(c, t.0, t.1.armed)
  {
    if c.phase == Running {
      TickRunningMoves(c, w.rand);
    } else {
      ArmFirstMoves(c, w.rand);
      ArmFirstMoves(OpenExchange(c, w), w.rand);
    }
  }

  lemma TickMoves(c: Ctx, w: Word, reading: u32)
    requires TimeInv(c)
    ensures var t := Tick(c, w, reading); TimeInv(t.0) && Moves(c, t.0, t.1.armed)
  {
    if c.cfg.Some? && Exchange(c.state) {
      TickExchangeMoves(At(c, reading), w);
    }
  }

  lemma StepMoves(c: Ctx, op: Op)
    requires TimeInv(c)
    ensures var t := Step(c, op); TimeInv(t.0) && Moves(c, t.0, t.1.armed)
  {
    if op.OpTick? {
      TickMoves(c, op.word, op.reading);
    } else {
      if op.OpInput? {
        InputUntimed(c, op.msg);
      }
      UntimedMoves(c, Step(c, op).0);
    }
  }

  // --- whole runs ------------------------------------------------------------------

  /** A transmission the timer armed: its RT, and the MRT it was bounded by. */
  datatype Armed = Armed(rt: u32, mrt: u32)

  /** A client and the transmissions its running exchange has armed. */
  datatype Run = Run(c: Ctx, sent: seq<Armed>)

  /** What a call that left some context comes to: a transmission it armed is noted, and an exchange over forgotten. */
  function Booked(r: Run, d: Ctx, armed: bool): Run {
    Run(d, if !Live(d) then []
           else if armed then r.sent + [Armed(d.rt, Mrt(d.state, d.maxRtMs))]
           else r.sent)
  }

  function After(r: Run, op: Op): Run {
    Booked(r, Step(r.c, op).0, Step(r.c, op).1.armed)
  }

  function RunOf(ops: seq<Op>): Run
    decreases |ops|
  {
    if ops == [] then Run(CLEARED, []) else After(RunOf(ops[..|ops| - 1]), ops[|ops| - 1])
  }

  /** Section 15 over a whole exchange: its first time, each later one, and how many there may be. */
  ghost predicate FollowsSection15(s: State, sent: seq<Armed>) {
    && (sent != [] ==> Earliest(s, sent[0].rt))
    && (forall j, k :: 0 <= j < |sent| && k == j + 1 && k < |sent| ==> Later(sent[j].rt, sent[k].rt, sent[k].mrt))
    && (Mrc(s) != 0 ==> |sent| <= Mrc(s))
  }

  ghost predicate RunInv(r: Run) {
    && Inv(r.c) && TimeInv(r.c)
    && FollowsSection15(r.c.state, r.sent)
    && (if Live(r.c) then
          && r.sent != [] && r.sent[|r.sent| - 1].rt == r.c.rt
          && r.c.retries == if |r.sent| < 0xFF then |r.sent| else 0xFF
        else r.sent == [])
  }

  lemma SentOn(s: State, sent: seq<Armed>, a: Armed)
    requires FollowsSection15(s, sent) && sent != [] && Later(sent[|sent| - 1].rt, a.rt, a.mrt)
    requires Mrc(s) != 0 ==> |sent| < Mrc(s)
    ensures FollowsSection15(s, sent + [a])
  {
  }

  lemma MovesKeep(r: Run, d: Ctx, armed: bool)
    requires RunInv(r) && Inv(d) && TimeInv(d) && Moves(r.c, d, armed)
    ensures RunInv(Booked(r, d, armed))
  {
    if Live(d) && armed && Live(r.c) {
      SentOn(d.state, r.sent, Armed(d.rt, Mrt(d.state, d.maxRtMs)));
    }
  }

  lemma AfterKeeps(r: Run, op: Op)
    requires RunInv(r)
    ensures RunInv(After(r, op))
  {
    StepKeeps(r.c, op);
    StepMoves(r.c, op);
    MovesKeep(r, Step(r.c, op).0, Step(r.c, op).1.armed);
  }

  lemma {:induction false} RunKeeps(ops: seq<Op>)
    ensures RunInv(RunOf(ops))
    decreases |ops|
  {
    if ops == [] {
      NoLeaseIsOk();
    } else {
      RunKeeps(ops[..|ops| - 1]);
      AfterKeeps(RunOf(ops[..|ops| - 1]), ops[|ops| - 1]);
    }
  }

  /**
   * In every run, with whatever random words, messages and overrides of SOL_MAX_RT: the first time of a Solicit is
   * strictly above IRT, each later time is within a tenth of the last around its double and under MRT, or within a
   * tenth of MRT once that is passed, and an exchange with an MRC arms no more transmissions than it names.
   */
  lemma RunFollowsSection15(ops: seq<Op>)
    ensures FollowsSection15(RunOf(ops).c.state, RunOf(ops).sent)
  {
    RunKeeps(ops);
  }

  /** In every run no time is near the end of its word: doubled with a tenth more, it is still in range. */
  lemma RunNeverOverflows(ops: seq<Op>)
    ensures var c := RunOf(ops).c; Live(c) ==> 21 * c.rt < 10 * TWO_32 && c.maxRtMs <= DOUBLE_MAX
  {
    RunKeeps(ops);
  }

  /**
   * In every run a client requesting, renewing, releasing or declining, and one bound to a lease, holds the DUID of
   * its server, of a length section 11.1 allows.
   */
  lemma RunRecordsServer(ops: seq<Op>)
    ensures var c := RunOf(ops).c;
            && (c.state in {Requesting, Renewing, Releasing, Declining} ==> Recorded(c.lease.server))
            && (c.state == Bound && c.cfg.Some? && !c.cfg.value.stateless ==> Recorded(c.lease.server))
            && (WantsServer(c.owed) ==> Recorded(c.lease.server))
  {
    RunKeeps(ops);
  }

  /** So in every run a bound client's build fails exactly when something is owed and the buffer is missing or short. */
  lemma RunBuildsUnlessShort(ops: seq<Op>, cap: Option<nat>)
    ensures var c := RunOf(ops).c;
            c.cfg.Some? ==>
              (Build(c, cap).1 == ERR <==>
                 c.owed != 0 && (cap.None? || cap.value < |Message(c.owed, FieldsOf(c, c.cfg.value))|))
  {
    RunKeeps(ops);
  }

  // --- one call of a run --------------------------------------------------------------

  /** A build keeps what a run keeps, and fails on its buffer alone. */
  lemma BuildKeeps(r: Run, cap: Option<nat>)
    requires RunInv(r)
    ensures RunInv(r.(c := Build(r.c, cap).0))
    ensures Build(r.c, cap).1 == ERR <==>
      r.c.cfg.None? || (r.c.owed != 0 && (cap.None? || cap.value < |Message(r.c.owed, FieldsOf(r.c, r.c.cfg.value))|))
  {
    AfterKeeps(r, OpBuild(cap));
  }

  lemma TickBooked(r: Run, w: Word, reading: u32)
    requires RunInv(r)
    ensures RunInv(Booked(r, Tick(r.c, w, reading).0, Tick(r.c, w, reading).1.armed))
  {
    TickKeeps(r.c, w, reading);
    TickMoves(r.c, w, reading);
    MovesKeep(r, Tick(r.c, w, reading).0, Tick(r.c, w, reading).1.armed);
  }

  lemma InputBooked(r: Run, msg: Option<seq<u8>>)
    requires RunInv(r)
    ensures RunInv(Booked(r, Input(r.c, msg).0, false))
  {
    AfterKeeps(r, OpInput(msg));
  }

  lemma BindBooked(r: Run, offered: Option<Offered>)
    requires RunInv(r)
    ensures RunInv(Booked(r, Bind(r.c, offered).0, false))
  {
    AfterKeeps(r, OpBind(offered));
  }

  lemma StartBooked(r: Run, xid: u32, delay: u32, reading: u32)
    requires RunInv(r)
    ensures RunInv(Booked(r, Start(r.c, xid, delay, reading).0, false))
  {
    AfterKeeps(r, OpStart(xid, delay, reading));
  }

  lemma StopBooked(r: Run)
    requires RunInv(r)
    ensures RunInv(Booked(r, Stop(r.c).0, false))
  {
    AfterKeeps(r, OpStop);
  }

  lemma ConfirmBooked(r: Run)
    requires RunInv(r)
    ensures RunInv(Booked(r, Confirm(r.c).0, false))
  {
    AfterKeeps(r, OpConfirm);
  }

  lemma ReturnBooked(r: Run, s: State)
    requires RunInv(r) && (s == Releasing || s == Declining)
    ensures RunInv(Booked(r, Return(r.c, s).0, false))
  {
    AfterKeeps(r, if s == Releasing then OpRelease else OpDecline);
  }
}
