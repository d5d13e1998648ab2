/**
 * The times of a DHCPv6 lease over whole runs (src/dhcp/dhcp6.c): when T1 comes before T2, and when a lease past its
 * valid lifetime is given up.
 */
module Dhcp6Leases {
  import opened Words
  import opened Dhcp6Codec
  import opened Dhcp6Writer
  import opened Dhcp6
  import opened Dhcp6Runs

  // --- where the times held came from -----------------------------------------------

  /** The times held: none, those of a message taken at an epoch, or a refresh time (section 21.23 of RFC 8415). */
  datatype Source = NoTimes | Sent(t1: u32, t2: u32, preferred: u32, at: u64) | Refreshed

  /** The times a message that assigns a lease carries. */
  function TimesOf(opts: seq<u8>, iaid: u32, now: u64): Source {
    var ia := Find(opts, OPT_IA_NA);
    if !IaUsable(ia, iaid) then NoTimes
    else
      var a := Find(ia.value[IA_NA_FIXED_LEN..], OPT_IAADDR);
      if !AddrUsable(a) then NoTimes else Sent(Rd32(ia.value[4..]), Rd32(ia.value[8..]), Rd32(a.value[16..]), now)
  }

  /** An input that takes the lease a message assigns. */
  predicate Takes(c: Ctx, msg: Option<seq<u8>>) {
    && c.cfg.Some? && msg.Some? && Accepted(c, c.cfg.value, msg.value)
    && if msg.value[0] == ADVERTISE then Input(c, msg).1 == OK
       else c.state in {Soliciting, Requesting, Renewing, Rebinding} && Input(c, msg).0.state == Bound
  }

  predicate Refreshes(c: Ctx, msg: Option<seq<u8>>) {
    c.state == InfoRequesting && Input(c, msg).0.state == Bound
  }

  function SourceAfter(src: Source, c: Ctx, op: Op): Source {
    if op.OpInput? && Takes(c, op.msg) then TimesOf(op.msg.value[FIXED_LEN..], c.iaid, c.now)
    else if op.OpInput? && Refreshes(c, op.msg) then Refreshed
    else if Step(c, op).0.lease == NO_LEASE then NoTimes
    else src
  }

  /** A lease carries the times of a message, picked where it sent none, each with its deadline. */
  predicate Carries(l: Lease, src: Source) {
    match src
    case NoTimes => l == NO_LEASE || !HasAddr(l.addr)
    case Refreshed => l.t2S == INFINITY
    case Sent(t1, t2, preferred, at) =>
      && !(t1 != 0 && t2 != 0 && t1 > t2)
      && (l.t1S, l.t2S) == PickTimes(t1, t2, preferred) && l.preferredS == preferred
      && l.t1Ms == Deadline(at, l.t1S) && l.t2Ms == Deadline(at, l.t2S)
      && (l.infT1 <==> l.t1S == INFINITY) && (l.infT2 <==> l.t2S == INFINITY)
  }

  /** A lease taken carries the times of the message it came in; one refused leaves those held. */
  lemma TakenCarries(c: Ctx, opts: seq<u8>)
    ensures var (d, ok) := TakeLease(c, opts);
            if ok then TimesOf(opts, c.iaid, c.now).Sent? && Carries(d.lease, TimesOf(opts, c.iaid, c.now))
            else d.lease == c.lease
  {
  }

  lemma AdvertiseCarries(c: Ctx, opts: seq<u8>)
    ensures var (d, status) := OnAdvertise(c, opts);
            if status == OK then Carries(d.lease, TimesOf(opts, c.iaid, c.now)) else d.lease == c.lease
  {
    TakenCarries(c.(statusCode := StatusOf(opts)), opts);
  }

  /** Two leases alike in their times and address. */
  predicate SameTimes(a: Lease, b: Lease) {
    a == b.(server := a.server)
  }

  lemma RapidReplyCarries(c: Ctx, cfg: Config, opts: seq<u8>)
    requires c.state == Soliciting
    ensures var d := OnRapidReply(c, cfg, opts).0;
            if d.state == Bound then Carries(d.lease, TimesOf(opts, c.iaid, c.now)) else SameTimes(d.lease, c.lease)
  {
    if ServerOf(opts).Some? {
      TakenCarries(TakeServer(c, opts), opts);
      TakeLeaseKeeps(TakeServer(c, opts), opts);
    }
  }

  lemma LeaseOrNot(c: Ctx, opts: seq<u8>)
    requires c.state in {Requesting, Renewing, Rebinding}
    ensures var t := TakeLease(c, opts);
            if t.1 then Carries(t.0.lease, TimesOf(opts, c.iaid, c.now))
            else var d := OnNoLease(t.0, opts).0; d.state != Bound && SameTimes(d.lease, c.lease)
  {
    TakenCarries(c, opts);
    TakeLeaseKeeps(c, opts);
  }

  lemma LeaseReplyCarries(c: Ctx, opts: seq<u8>, status: u16)
    requires c.state in {Requesting, Renewing, Rebinding}
    ensures var d := OnLeaseReply(c, opts, status).0;
            if d.state == Bound then Carries(d.lease, TimesOf(opts, c.iaid, c.now))
            else d.lease == NO_LEASE || SameTimes(d.lease, c.lease)
  {
    if c.state != Rebinding {
      LeaseOrNot(c, opts);
    } else if ServerOf(opts).Some? {
      LeaseOrNot(TakeServer(c, opts), opts);
    }
  }

  /** What one reply does to the times held, in the state it found. */
  predicate Replied(c: Ctx, d: Ctx, opts: seq<u8>) {
    if c.state in {Soliciting, Requesting, Renewing, Rebinding} && d.state == Bound then
      Carries(d.lease, TimesOf(opts, c.iaid, c.now))
    else if c.state == InfoRequesting && d.state == Bound then d.lease.t2S == INFINITY
    else d.lease == NO_LEASE || SameTimes(d.lease, c.lease)
  }

  lemma OtherReplyCarries(c: Ctx, cfg: Config, opts: seq<u8>)
    requires c.state in {Confirming, InfoRequesting, Releasing, Declining}
    ensures Replied(c, OnReply(c, cfg, opts).0, opts)
  {
  }

  lemma ReplyCarries(c: Ctx, cfg: Config, opts: seq<u8>)
    requires Exchange(c.state)
    ensures Replied(c, OnReply(c, cfg, opts).0, opts)
  {
    var status := StatusOf(opts);
    var d := c.(statusCode := status);
    if !(c.state in {Soliciting, Requesting, Renewing, Rebinding}) {
      OtherReplyCarries(c, cfg, opts);
    } else if status != STATUS_USE_MULTICAST && status != STATUS_UNSPEC_FAIL {
      if c.state == Soliciting {
        RapidReplyCarries(d, cfg, opts);
      } else {
        LeaseReplyCarries(d, opts, status);
      }
    }
  }

  lemma AdvertisedCarries(c: Ctx, msg: seq<u8>)
    requires c.cfg.Some? && Accepted(c, c.cfg.value, msg) && msg[0] == ADVERTISE
    ensures var (d, status) := Input(c, Some(msg));
            && (status == OK ==> Carries(d.lease, TimesOf(msg[FIXED_LEN..], c.iaid, c.now)))
            && (status != OK ==> d.lease == c.lease) && d.state != Bound
  {
    var opts := msg[FIXED_LEN..];
    var d := TakeMaxRt(c, opts, c.cfg.value.stateless);
    AdvertiseCarries(d, opts);
    TakeLeaseKeeps(d.(statusCode := StatusOf(opts)), opts);
  }

  lemma RepliedCarries(c: Ctx, msg: seq<u8>)
    requires c.cfg.Some? && Accepted(c, c.cfg.value, msg) && msg[0] == REPLY
    ensures Replied(c, Input(c, Some(msg)).0, msg[FIXED_LEN..])
  {
    var opts := msg[FIXED_LEN..];
    ReplyCarries(TakeMaxRt(c, opts, c.cfg.value.stateless), c.cfg.value, opts);
  }

  lemma InputCarries(c: Ctx, msg: Option<seq<u8>>)
    ensures var d := Input(c, msg).0;
            if Takes(c, msg) then Carries(d.lease, TimesOf(msg.value[FIXED_LEN..], c.iaid, c.now))
            else if Refreshes(c, msg) then d.lease.t2S == INFINITY
            else d.lease == NO_LEASE || SameTimes(d.lease, c.lease)
  {
    if c.cfg.Some? && msg.Some? && Accepted(c, c.cfg.value, msg.value) {
      if msg.value[0] == ADVERTISE {
        AdvertisedCarries(c, msg.value);
      } else {
        RepliedCarries(c, msg.value);
      }
    }
  }

  lemma StepCarries(c: Ctx, src: Source, op: Op)
    requires Carries(c.lease, src)
    ensures Carries(Step(c, op).0.lease, SourceAfter(src, c, op))
  {
    NoLeaseIsOk();
    if op.OpInput? {
      InputCarries(c, op.msg);
    }
  }

  // --- T1 and T2 over whole runs ----------------------------------------------------

  function SourceOf(ops: seq<Op>): Source
    decreases |ops|
  {
    if ops == [] then NoTimes
    else SourceAfter(SourceOf(ops[..|ops| - 1]), RunOf(ops[..|ops| - 1]).c, ops[|ops| - 1])
  }

  lemma {:induction false} RunCarries(ops: seq<Op>)
    ensures Carries(RunOf(ops).c.lease, SourceOf(ops))
    decreases |ops|
  {
    if ops != [] {
      RunCarries(ops[..|ops| - 1]);
      StepCarries(RunOf(ops[..|ops| - 1]).c, SourceOf(ops[..|ops| - 1]), ops[|ops| - 1]);
    }
  }

  /**
   * In every run that holds an address, T1 is at most T2 exactly when the message the times came from put them in
   * order, and so are their deadlines where both are finite and neither passes the end of the epoch.
   */
  lemma RunTimesInOrder(ops: seq<Op>)
    ensures var l := RunOf(ops).c.lease;
            HasAddr(l.addr) ==>
              match SourceOf(ops)
              case NoTimes => false
              case Refreshed => l.t1S <= l.t2S
              case Sent(t1, t2, preferred, at) =>
                && (l.t1S <= l.t2S <==> InOrder(t1, t2, preferred))
                && (!l.infT1 && !l.infT2 && at + 1000 * l.t1S < TWO_64 && at + 1000 * l.t2S < TWO_64 ==>
                      (l.t1Ms <= l.t2Ms <==> InOrder(t1, t2, preferred)))
  {
    NoLeaseIsOk();
    RunCarries(ops);
    var src := SourceOf(ops);
    if src.Sent? {
      TimesPicked(src.t1, src.t2, src.preferred);
    }
  }

  // --- a lease taken in a run -------------------------------------------------------

  /** An address and its two lifetimes, as one IA Address option carries them. */
  function AddrData(addr: Address, preferred: u32, valid: u32): Data {
    addr + Wr32(preferred) + Wr32(valid)
  }

  function IaData(iaid: u32, t1: u32, t2: u32, a: Data): Data
    requires |a| < 0x100
  {
    Wr32(iaid) + Wr32(t1) + Wr32(t2) + Opt(OPT_IAADDR, a)
  }

  /** The options of a Reply to a rapid Solicit. */
  function RapidItems(duid: Duid, ia: Data): seq<Item> {
    [Item(OPT_CLIENTID, duid), Item(OPT_SERVERID, duid), Item(OPT_RAPID_COMMIT, []), Item(OPT_IA_NA, ia)]
  }

  /** A Reply of some transaction. */
  function ReplyOf(xid: nat, items: seq<Item>): (msg: seq<u8>)
    requires xid < 0x100_0000
    ensures |msg| >= FIXED_LEN && msg[0] == REPLY && XidOf(msg) == xid && msg[FIXED_LEN..] == Encoded(items)
  {
    [REPLY, xid / 0x1_0000, xid / 0x100 % 0x100, xid % 0x100] + Encoded(items)
  }

  function RapidReply(duid: Duid, ia: Data): seq<u8> {
    ReplyOf(0, RapidItems(duid, ia))
  }

  lemma ReadsBack(items: seq<Item>, code: u16)
    ensures Find(Encoded(items), code) == First(items, code) && OptsOk(Encoded(items))
  {
    DecodeUndoesEncode(items);
    FindIsFirst(Encoded(items), code);
  }

  lemma RapidReads(duid: Duid, ia: Data)
    ensures var msg := RapidReply(duid, ia);
            var opts := msg[FIXED_LEN..];
            && msg[0] == REPLY && XidOf(msg) == 0 && OptsOk(opts)
            && Find(opts, OPT_CLIENTID) == Some(duid) && Find(opts, OPT_SERVERID) == Some(duid)
            && Find(opts, OPT_RAPID_COMMIT) == Some([]) && Find(opts, OPT_IA_NA) == Some(ia)
            && Find(opts, OPT_STATUS_CODE) == None && Find(opts, OPT_SOL_MAX_RT) == None
  {
    var items := RapidItems(duid, ia);
    ReadsBack(items, OPT_CLIENTID);
    ReadsBack(items, OPT_SERVERID);
    ReadsBack(items, OPT_RAPID_COMMIT);
    ReadsBack(items, OPT_IA_NA);
    ReadsBack(items, OPT_STATUS_CODE);
    ReadsBack(items, OPT_SOL_MAX_RT);
    RapidFirsts(items[1..], duid, ia);
  }

  lemma RapidFirsts(rest: seq<Item>, duid: Duid, ia: Data)
    requires rest == [Item(OPT_SERVERID, duid), Item(OPT_RAPID_COMMIT, []), Item(OPT_IA_NA, ia)]
    ensures First(rest, OPT_SERVERID) == Some(duid) && First(rest, OPT_RAPID_COMMIT) == Some([])
    ensures First(rest, OPT_IA_NA) == Some(ia)
    ensures First(rest, OPT_STATUS_CODE) == None && First(rest, OPT_SOL_MAX_RT) == None
  {
    var two, one := rest[1..], rest[2..];
    assert two[1..] == one && one[1..] == [];
    assert First(one, OPT_IA_NA) == Some(ia) && First(one, OPT_STATUS_CODE) == None
        && First(one, OPT_SOL_MAX_RT) == None;
    assert First(two, OPT_IA_NA) == Some(ia) && First(two, OPT_STATUS_CODE) == None
        && First(two, OPT_SOL_MAX_RT) == None;
  }

  lemma IaReads(iaid: u32, t1: u32, t2: u32, a: Data)
    requires |a| < 0x100
    ensures var ia := IaData(iaid, t1, t2, a);
            && |ia| >= IA_NA_FIXED_LEN && Rd32(ia) == iaid && Rd32(ia[4..]) == t1 && Rd32(ia[8..]) == t2
            && Find(ia[IA_NA_FIXED_LEN..], OPT_IAADDR) == Some(a)
            && Find(ia[IA_NA_FIXED_LEN..], OPT_STATUS_CODE) == None
  {
    var ia, items := IaData(iaid, t1, t2, a), [Item(OPT_IAADDR, a)];
    assert ia[..4] == Wr32(iaid) && ia[4..][..4] == Wr32(t1) && ia[8..][..4] == Wr32(t2);
    EncodedOne(items[0]);
    assert ia[IA_NA_FIXED_LEN..] == Encoded(items);
    ReadsBack(items, OPT_IAADDR);
    ReadsBack(items, OPT_STATUS_CODE);
  }

  lemma AddrReads(addr: Address, preferred: u32, valid: u32)
    ensures var a := AddrData(addr, preferred, valid);
            |a| == IAADDR_FIXED_LEN && a[..ADDR_LEN] == addr && Rd32(a[16..]) == preferred && Rd32(a[20..]) == valid
  {
    var a := AddrData(addr, preferred, valid);
    assert a[16..][..4] == Wr32(preferred) && a[20..][..4] == Wr32(valid);
  }

  /** A client whose Solicit with a rapid commit has gone out at epoch 0, its transaction-id 0. */
  predicate SolicitsRapidly(c: Ctx, duid: Duid, iaid: u32) {
    && c.phase == Running && c.cfg == Some(Config(duid, iaid, false, true)) && c.iaid == iaid && c.state == Soliciting
    && c.xid == 0 && c.now == 0 && c.tickMs == 0 && c.tickHi == 0
  }

  lemma RunMore(ops: seq<Op>, op: Op)
    ensures RunOf(ops + [op]).c == Step(RunOf(ops).c, op).0
  {
    assert (ops + [op])[..|ops|] == ops;
  }

  /** Every reading of the clock in a run is zero. */
  predicate ReadAtZero(ops: seq<Op>) {
    forall k :: 0 <= k < |ops| ==> (ops[k].OpTick? ==> ops[k].reading == 0) && (ops[k].OpStart? ==> ops[k].reading == 0)
  }

  /** A run whose last call is the input that binds a client with its Solicit out. */
  predicate LastTakes(ops: seq<Op>, duid: Duid, iaid: u32) {
    ops != [] && ops[|ops| - 1].OpInput? && SolicitsRapidly(RunOf(ops[..|ops| - 1]).c, duid, iaid)
  }

  lemma Solicits(duid: Duid, iaid: u32, w: Word) returns (ops: seq<Op>)
    requires |duid| >= DUID_MIN
    ensures SolicitsRapidly(RunOf(ops).c, duid, iaid) && ReadAtZero(ops)
  {
    var bind, start, tick := OpBind(Some(Offered(Some(duid), iaid, 0, false, true))), OpStart(0, 0, 0), OpTick(w, 0);
    RunMore([], bind);
    RunMore([] + [bind], start);
    RunMore([] + [bind] + [start], tick);
    SolicitGoesOut(RunOf([] + [bind] + [start]).c, duid, iaid, w);
    ops := [] + [bind] + [start] + [tick];
  }

  lemma SolicitGoesOut(c: Ctx, duid: Duid, iaid: u32, w: Word)
    requires c.cfg == Some(Config(duid, iaid, false, true)) && c.iaid == iaid && c.state == Soliciting
    requires c.phase == Delay && c.xid == 0 && c.now == 0 && c.tickMs == 0 && c.tickHi == 0 && c.retryMs == 0
    ensures SolicitsRapidly(Tick(c, w, 0).0, duid, iaid)
  {
  }

  /** The lease options that carry one IA_NA with one address leave. */
  lemma OneTaken(c: Ctx, opts: seq<u8>, addr: Address, t1: u32, t2: u32, preferred: u32, valid: u32)
    requires Find(opts, OPT_IA_NA) == Some(IaData(c.iaid, t1, t2, AddrData(addr, preferred, valid)))
    requires !(t1 != 0 && t2 != 0 && t1 > t2) && valid != 0 && preferred <= valid
    ensures var (d, ok) := TakeLease(c, opts);
            var t := PickTimes(t1, t2, preferred);
            && ok && d == c.(lease := d.lease) && d.lease == ArmLease(d.lease, c.now)
            && d.lease.addr == addr && d.lease.t1S == t.0 && d.lease.t2S == t.1 && d.lease.validS == valid
  {
    var a := AddrData(addr, preferred, valid);
    AddrReads(addr, preferred, valid);
    IaReads(c.iaid, t1, t2, a);
  }

  /** A client bound at epoch 0 to a lease of the server with its own DUID, its transaction-id 0. */
  predicate BoundAtZero(c: Ctx, duid: Duid, iaid: u32) {
    && c.cfg == Some(Config(duid, iaid, false, true)) && c.iaid == iaid && c.state == Bound && c.xid == 0
    && c.now == 0 && c.tickMs == 0 && c.tickHi == 0 && c.lease.server == duid
  }

  lemma RapidAccepted(c: Ctx, duid: Duid, iaid: u32, ia: Data)
    requires SolicitsRapidly(c, duid, iaid) && |duid| >= DUID_MIN
    ensures var msg := RapidReply(duid, ia);
            Input(c, Some(msg)) == OnRapidReply(c.(statusCode := STATUS_SUCCESS), c.cfg.value, msg[FIXED_LEN..])
  {
    RapidReads(duid, ia);
    var msg := RapidReply(duid, ia);
    assert Accepted(c, c.cfg.value, msg) && TakeMaxRt(c, msg[FIXED_LEN..], false) == c;
  }

  /** The lease a rapid Reply leaves: the times it sent or had picked, counted from epoch 0. */
  lemma RapidTaken(c: Ctx, duid: Duid, iaid: u32, addr: Address, t1: u32, t2: u32, preferred: u32, valid: u32)
    requires SolicitsRapidly(c, duid, iaid) && |duid| >= DUID_MIN
    requires !(t1 != 0 && t2 != 0 && t1 > t2) && valid != 0 && preferred <= valid
    ensures var (d, status) := Input(c, Some(RapidReply(duid, IaData(iaid, t1, t2, AddrData(addr, preferred, valid)))));
            var t := PickTimes(t1, t2, preferred);
            && BoundAtZero(d, duid, iaid)
            && d.lease.addr == addr && d.lease.t1S == t.0 && d.lease.t2S == t.1 && d.lease.validS == valid
            && d.lease == ArmLease(d.lease, 0)
  {
    var ia := IaData(iaid, t1, t2, AddrData(addr, preferred, valid));
    RapidReads(duid, ia);
    RapidAccepted(c, duid, iaid, ia);
    var opts := RapidReply(duid, ia)[FIXED_LEN..];
    OneTaken(TakeServer(c.(statusCode := STATUS_SUCCESS), opts), opts, addr, t1, t2, preferred, valid);
  }

  lemma Leased(duid: Duid, iaid: u32, addr: Address, t1: u32, t2: u32, preferred: u32, valid: u32, w: Word)
    returns (ops: seq<Op>)
    requires |duid| >= DUID_MIN && !(t1 != 0 && t2 != 0 && t1 > t2) && valid != 0 && preferred <= valid
    ensures var d := RunOf(ops).c;
            var t := PickTimes(t1, t2, preferred);
            && BoundAtZero(d, duid, iaid)
            && d.lease.addr == addr && d.lease.t1S == t.0 && d.lease.t2S == t.1 && d.lease.validS == valid
            && d.lease == ArmLease(d.lease, 0)
    ensures LastTakes(ops, duid, iaid) && ReadAtZero(ops)
  {
    ops := Solicits(duid, iaid, w);
    RapidTaken(RunOf(ops).c, duid, iaid, addr, t1, t2, preferred, valid);
    var input := OpInput(Some(RapidReply(duid, IaData(iaid, t1, t2, AddrData(addr, preferred, valid)))));
    RunMore(ops, input);
    assert (ops + [input])[..|ops|] == ops;
    ops := ops + [input];
  }

  /** T1 left to the client, T2 five seconds, preferred for a hundred: the client holds T1 past T2. */
  lemma T1CanPassT2(duid: Duid, iaid: u32, addr: Address, w: Word) returns (ops: seq<Op>)
    requires |duid| >= DUID_MIN && HasAddr(addr)
    ensures var c := RunOf(ops).c;
            && c.state == Bound && HasAddr(c.lease.addr) && c.lease.t1Ms == 50_000 && c.lease.t2Ms == 5_000
            && !c.lease.infT1 && !c.lease.infT2
  {
    ops := Leased(duid, iaid, addr, 0, 5, 100, 200, w);
  }

  // --- the valid lifetime -----------------------------------------------------------

  /** The states in which one tick gives up a lease whose valid lifetime is over. */
  predicate GivesUp(c: Ctx, now: u64) {
    || c.state == Bound || c.state == Rebinding
    || (c.state in {Requesting, Releasing, Declining} && c.phase == Running && now >= c.retryMs
        && c.retries >= Mrc(c.state))
  }

  /** A tick at or past the end of a lease's valid lifetime leaves no address exactly in those states. */
  lemma ExpiryLeavesNoAddressIff(c: Ctx, w: Word, reading: u32)
    requires c.cfg.Some? && HasAddr(c.lease.addr) && !c.lease.infValid && At(c, reading).now >= c.lease.validMs
    ensures !HasAddr(Tick(c, w, reading).0.lease.addr) <==> GivesUp(c, At(c, reading).now)
  {
    NoLeaseIsOk();
  }

  /** A client bound at epoch 0 to a lease with T1 at fifty seconds, T2 at a thousand, valid for a hundred. */
  predicate LongT2(c: Ctx, s: State, phase: Phase, now: u32) {
    && c.cfg.Some? && !c.cfg.value.stateless && c.state == s && c.phase == phase
    && c.now == now && c.tickMs == now && c.tickHi == 0 && c.retryMs <= now && !c.lease.infT1 && !c.lease.infT2
    && !c.lease.infValid && c.lease.t1Ms == 50_000 && c.lease.t2Ms == 1_000_000 && c.lease.validMs == 100_000
  }

  lemma TurnsToRenewing(c: Ctx, w: Word)
    requires c.cfg.Some? && !c.cfg.value.stateless && c.state == Bound && c.now == 0 && c.tickMs == 0 && c.tickHi == 0
    requires c.lease == ArmLease(c.lease, 0) && c.lease.t1S == 50 && c.lease.t2S == 1000 && c.lease.validS == 100
    ensures var d := Tick(c, w, 50_000).0; LongT2(d, Renewing, New, 50_000) && d.lease == c.lease
  {
  }

  lemma RenewsPastTheEnd(c: Ctx, w: Word)
    requires LongT2(c, Renewing, New, 50_000)
    ensures var d := Tick(c, w, 100_000).0;
            d.state == Renewing && d.lease == c.lease && d.now >= d.lease.validMs && !d.lease.infValid
  {
  }

  /** Valid for a hundred seconds, T1 at fifty, T2 at a thousand: a client renewing keeps its address past the end. */
  lemma AddressCanOutliveLease(duid: Duid, iaid: u32, addr: Address, w: Word) returns (ops: seq<Op>)
    requires |duid| >= DUID_MIN && HasAddr(addr)
    ensures var c := RunOf(ops).c;
            c.state == Renewing && c.lease.addr == addr && !c.lease.infValid && c.now >= c.lease.validMs
  {
    ops := Leased(duid, iaid, addr, 50, 1000, 100, 100, w);
    TurnsToRenewing(RunOf(ops).c, w);
    RunMore(ops, OpTick(w, 50_000));
    ops := ops + [OpTick(w, 50_000)];
    RenewsPastTheEnd(RunOf(ops).c, w);
    RunMore(ops, OpTick(w, 100_000));
    ops := ops + [OpTick(w, 100_000)];
  }
}
