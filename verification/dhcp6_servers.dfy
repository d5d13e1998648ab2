/**
 * The server a DHCPv6 client has recorded against the one its lease came from (src/dhcp/dhcp6.c): what one message does
 * to it, exactly when the two are one over whole runs, and a run in which they are not.
 */
module Dhcp6Servers {
  import opened Words
  import opened Dhcp6Codec
  import opened Dhcp6Writer
  import opened Dhcp6
  import opened Dhcp6Runs
  import opened Dhcp6Leases

  // --- one message ----------------------------------------------------------------------

  /** The status a refused lease leaves: its IA_NA's, or the message's. */
  function RefusedStatus(c: Ctx, opts: seq<u8>): u16 {
    var ia := Find(opts, OPT_IA_NA);
    if IaUsable(ia, c.iaid) && StatusOf(ia.value[IA_NA_FIXED_LEN..]) != STATUS_SUCCESS
    then StatusOf(ia.value[IA_NA_FIXED_LEN..]) else StatusOf(opts)
  }

  /** A Reply whose lease is refused and whose server is recorded all the same. */
  predicate RecordsAlone(c: Ctx, cfg: Config, opts: seq<u8>) {
    && ServerOf(opts).Some? && StatusOf(opts) != STATUS_USE_MULTICAST && StatusOf(opts) != STATUS_UNSPEC_FAIL
    && match c.state
       case Soliciting => cfg.rapid && Find(opts, OPT_RAPID_COMMIT).Some?
       case Rebinding => StatusOf(opts) != STATUS_NOT_ON_LINK
       case Renewing => StatusOf(opts) != STATUS_NOT_ON_LINK && RefusedStatus(c, opts) == STATUS_NO_BINDING
       case _ => false
  }

  lemma AdvertiseNames(c: Ctx, opts: seq<u8>)
    ensures var (d, status) := OnAdvertise(c, opts);
            if status == OK then ServerOf(opts) == Some(d.lease.server) else d.lease.server == c.lease.server
  {
    TakeLeaseKeeps(c.(statusCode := StatusOf(opts)), opts);
  }

  lemma RapidReplyNames(c: Ctx, cfg: Config, opts: seq<u8>)
    requires c.state == Soliciting
    ensures var d := OnRapidReply(c, cfg, opts).0;
            && (d.state == Bound ==> ServerOf(opts) == Some(d.lease.server))
            && d.lease.server == if cfg.rapid && Find(opts, OPT_RAPID_COMMIT).Some? && ServerOf(opts).Some?
                                 then ServerOf(opts).value else c.lease.server
  {
    if ServerOf(opts).Some? {
      TakeLeaseKeeps(TakeServer(c, opts), opts);
    }
  }

  lemma LeaseOrNotNames(c: Ctx, opts: seq<u8>)
    requires c.state in {Requesting, Renewing, Rebinding} && c.statusCode == StatusOf(opts)
    ensures var t := TakeLease(c, opts);
            if t.1 then t.0.lease.server == c.lease.server
            else var d := OnNoLease(t.0, opts).0;
                 d.state != Bound && d.lease.server ==
                   if RefusedStatus(c, opts) == STATUS_NO_BINDING && c.state != Requesting && ServerOf(opts).Some?
                   then ServerOf(opts).value else c.lease.server
  {
    TakeLeaseKeeps(c, opts);
  }

  lemma LeaseReplyNames(c: Ctx, cfg: Config, opts: seq<u8>)
    requires c.state in {Requesting, Renewing, Rebinding} && c.statusCode == StatusOf(opts)
    requires StatusOf(opts) != STATUS_USE_MULTICAST && StatusOf(opts) != STATUS_UNSPEC_FAIL
    ensures var d := OnLeaseReply(c, opts, StatusOf(opts)).0;
            if d.state == Bound then
              && (c.state == Rebinding ==> ServerOf(opts) == Some(d.lease.server))
              && (c.state != Rebinding ==> d.lease.server == c.lease.server)
            else
              || d.lease == NO_LEASE
              || d.lease.server == if RecordsAlone(c, cfg, opts) then ServerOf(opts).value else c.lease.server
  {
    if c.state != Rebinding {
      LeaseOrNotNames(c, opts);
    } else if ServerOf(opts).Some? {
      LeaseOrNotNames(TakeServer(c, opts), opts);
    }
  }

  /** What one reply does to the server recorded, in the state it found. */
  predicate Names(c: Ctx, cfg: Config, d: Ctx, opts: seq<u8>) {
    if c.state in {Soliciting, Requesting, Renewing, Rebinding} && d.state == Bound then
      && (c.state == Soliciting || c.state == Rebinding ==> ServerOf(opts) == Some(d.lease.server))
      && (c.state == Requesting || c.state == Renewing ==> d.lease.server == c.lease.server)
    else
      || d.lease == NO_LEASE
      || d.lease.server == if RecordsAlone(c, cfg, opts) then ServerOf(opts).value else c.lease.server
  }

  lemma OtherReplyNames(c: Ctx, cfg: Config, opts: seq<u8>)
    requires c.state in {Confirming, InfoRequesting, Releasing, Declining}
    ensures Names(c, cfg, OnReply(c, cfg, opts).0, opts)
  {
  }

  lemma ReplyNames(c: Ctx, cfg: Config, opts: seq<u8>)
    requires Exchange(c.state)
    ensures Names(c, cfg, OnReply(c, cfg, opts).0, opts)
  {
    var status := StatusOf(opts);
    var d := c.(statusCode := status);
    if !(c.state in {Soliciting, Requesting, Renewing, Rebinding}) {
      OtherReplyNames(c, cfg, opts);
    } else if status != STATUS_USE_MULTICAST && status != STATUS_UNSPEC_FAIL {
      if c.state == Soliciting {
        RapidReplyNames(d, cfg, opts);
      } else {
        LeaseReplyNames(d, cfg, opts);
      }
    }
  }

  /**
   * A lease taken leaves the DUID its message carried as the server recorded exactly when the client was soliciting
   * or rebinding, or had that DUID already: a Reply to a Request or a Renew is not asked who sent it.
   */
  lemma LeaseNamesItsServerIff(c: Ctx, msg: seq<u8>)
    requires Takes(c, Some(msg))
    ensures var carried := ServerOf(msg[FIXED_LEN..]);
            var d := Input(c, Some(msg)).0;
            carried == Some(d.lease.server) <==>
              c.state == Soliciting || c.state == Rebinding || carried == Some(c.lease.server)
  {
    var opts := msg[FIXED_LEN..];
    var d := TakeMaxRt(c, opts, c.cfg.value.stateless);
    if msg[0] == ADVERTISE {
      AdvertiseNames(d, opts);
    } else {
      ReplyNames(d, c.cfg.value, opts);
    }
  }

  /** A message no lease is taken from, that leaves one held, changes the server exactly when it records one. */
  lemma RefusalNamesServerIff(c: Ctx, msg: seq<u8>)
    requires c.cfg.Some? && Accepted(c, c.cfg.value, msg) && !Takes(c, Some(msg))
    requires HasAddr(Input(c, Some(msg)).0.lease.addr)
    ensures var opts := msg[FIXED_LEN..];
            Input(c, Some(msg)).0.lease.server ==
              if msg[0] == REPLY && RecordsAlone(c, c.cfg.value, opts) then ServerOf(opts).value else c.lease.server
  {
    NoLeaseIsOk();
    var opts := msg[FIXED_LEN..];
    var d := TakeMaxRt(c, opts, c.cfg.value.stateless);
    if msg[0] == ADVERTISE {
      AdvertiseNames(d, opts);
    } else {
      ReplyNames(d, c.cfg.value, opts);
    }
  }

  // --- whole runs -----------------------------------------------------------------------

  /** The DUID the message of the lease held carried, and whether what has been recorded since agrees with it. */
  datatype Origin = Origin(carried: Option<Duid>, named: bool)

  /** A Reply no lease is taken from that records its server. */
  predicate Alone(c: Ctx, msg: Option<seq<u8>>) {
    && c.cfg.Some? && msg.Some? && Accepted(c, c.cfg.value, msg.value) && msg.value[0] == REPLY
    && RecordsAlone(c, c.cfg.value, msg.value[FIXED_LEN..])
  }

  /**
   * A message a lease is taken from names its server if it was taken soliciting or rebinding, or carried the DUID
   * recorded; one that records a server alone names the lease's if it carried the same DUID; nothing else matters.
   */
  function OriginAfter(o: Origin, c: Ctx, op: Op): Origin {
    if op.OpInput? && Takes(c, op.msg) then
      var from := ServerOf(op.msg.value[FIXED_LEN..]);
      Origin(from, c.state == Soliciting || c.state == Rebinding || from == Some(c.lease.server))
    else if op.OpInput? && Alone(c, op.msg) then o.(named := ServerOf(op.msg.value[FIXED_LEN..]) == o.carried)
    else o
  }

  ghost predicate NamedBy(l: Lease, o: Origin) {
    HasAddr(l.addr) ==> (o.carried == Some(l.server) <==> o.named)
  }

  /** A message no lease is taken from leaves the address held or drops the lease. */
  lemma RefusalKeepsAddress(c: Ctx, msg: Option<seq<u8>>)
    requires !Takes(c, msg)
    ensures var d := Input(c, msg).0; d.lease == NO_LEASE || d.lease.addr == c.lease.addr
  {
    InputCarries(c, msg);
    if Refreshes(c, msg) && c.cfg.Some? && msg.Some? && Accepted(c, c.cfg.value, msg.value) {
      RefreshKeepsAddress(c, msg.value);
    }
  }

  lemma RefreshKeepsAddress(c: Ctx, msg: seq<u8>)
    requires c.cfg.Some? && Accepted(c, c.cfg.value, msg) && c.state == InfoRequesting
    ensures Input(c, Some(msg)).0.lease.addr == c.lease.addr
  {
  }

  lemma InputNames(c: Ctx, o: Origin, msg: Option<seq<u8>>)
    requires NamedBy(c.lease, o)
    ensures NamedBy(Input(c, msg).0.lease, OriginAfter(o, c, OpInput(msg)))
  {
    NoLeaseIsOk();
    if Takes(c, msg) {
      LeaseNamesItsServerIff(c, msg.value);
    } else if c.cfg.Some? && msg.Some? && Accepted(c, c.cfg.value, msg.value) {
      RefusalKeepsAddress(c, msg);
      if HasAddr(Input(c, msg).0.lease.addr) {
        RefusalNamesServerIff(c, msg.value);
      }
    }
  }

  lemma StepNames(c: Ctx, o: Origin, op: Op)
    requires NamedBy(c.lease, o)
    ensures NamedBy(Step(c, op).0.lease, OriginAfter(o, c, op))
  {
    NoLeaseIsOk();
    if op.OpInput? {
      InputNames(c, o, op.msg);
    }
  }

  function OriginOf(ops: seq<Op>): Origin
    decreases |ops|
  {
    if ops == [] then Origin(None, false)
    else OriginAfter(OriginOf(ops[..|ops| - 1]), RunOf(ops[..|ops| - 1]).c, ops[|ops| - 1])
  }

  /**
   * In every run that holds an address, the server recorded is the one the lease's message carried exactly as the last
   * message to take a lease or record a server alone has it: one that took the lease, if it was taken soliciting or
   * rebinding or carried the DUID recorded then; one that recorded alone, if it carried the same DUID.
   */
  lemma {:induction false} RunNamesItsServerIff(ops: seq<Op>)
    ensures var l := RunOf(ops).c.lease;
            HasAddr(l.addr) ==> (OriginOf(ops).carried == Some(l.server) <==> OriginOf(ops).named)
    decreases |ops|
  {
    NoLeaseIsOk();
    if ops != [] {
      var before := ops[..|ops| - 1];
      RunNamesItsServerIff(before);
      StepNames(RunOf(before).c, OriginOf(before), ops[|ops| - 1]);
    }
  }

  // --- a lease of one server under another's name ---------------------------------------

  function RenewItems(duid: Duid, other: Duid, ia: Data): seq<Item> {
    [Item(OPT_CLIENTID, duid), Item(OPT_SERVERID, other), Item(OPT_IA_NA, ia)]
  }

  lemma RenewReads(xid: nat, duid: Duid, other: Duid, ia: Data)
    requires xid < 0x100_0000
    ensures var msg := ReplyOf(xid, RenewItems(duid, other, ia));
            var opts := msg[FIXED_LEN..];
            && OptsOk(opts) && Find(opts, OPT_CLIENTID) == Some(duid) && Find(opts, OPT_SERVERID) == Some(other)
            && Find(opts, OPT_IA_NA) == Some(ia) && Find(opts, OPT_STATUS_CODE) == None
            && Find(opts, OPT_SOL_MAX_RT) == None
  {
    var items := RenewItems(duid, other, ia);
    ReadsBack(items, OPT_CLIENTID);
    ReadsBack(items, OPT_SERVERID);
    ReadsBack(items, OPT_IA_NA);
    ReadsBack(items, OPT_STATUS_CODE);
    ReadsBack(items, OPT_SOL_MAX_RT);
    var two, one := items[1..], items[2..];
    assert two[1..] == one && one[1..] == [];
    assert First(one, OPT_IA_NA) == Some(ia) && First(one, OPT_STATUS_CODE) == None
        && First(one, OPT_SOL_MAX_RT) == None;
  }

  /** A client that has its address to renew, and a Renew out under some transaction-id or not yet. */
  predicate Renews(c: Ctx, duid: Duid, iaid: u32) {
    && c.cfg == Some(Config(duid, iaid, false, true)) && c.iaid == iaid && c.state == Renewing && c.xid < 0x100_0000
    && c.lease.server == duid
  }

  lemma RenewAccepted(c: Ctx, duid: Duid, iaid: u32, other: Duid, ia: Data)
    requires Renews(c, duid, iaid)
    ensures var msg := ReplyOf(c.xid, RenewItems(duid, other, ia));
            && Accepted(c, c.cfg.value, msg)
            && Input(c, Some(msg)) == OnLeaseReply(c.(statusCode := STATUS_SUCCESS), msg[FIXED_LEN..], STATUS_SUCCESS)
  {
    RenewReads(c.xid, duid, other, ia);
    var msg := ReplyOf(c.xid, RenewItems(duid, other, ia));
    assert Accepted(c, c.cfg.value, msg) && TakeMaxRt(c, msg[FIXED_LEN..], false) == c;
  }

  /** The reply another server gives it is taken whole, and the old server stays recorded. */
  lemma RenewTaken(c: Ctx, duid: Duid, iaid: u32, other: Duid, addr: Address, t1: u32, t2: u32, preferred: u32,
                   valid: u32)
    requires Renews(c, duid, iaid) && !(t1 != 0 && t2 != 0 && t1 > t2) && valid != 0 && preferred <= valid
    ensures var msg := ReplyOf(c.xid, RenewItems(duid, other, IaData(iaid, t1, t2, AddrData(addr, preferred, valid))));
            var d := Input(c, Some(msg)).0;
            && d.state == Bound && d.lease.addr == addr && d.lease.server == duid && Takes(c, Some(msg))
            && (|other| >= DUID_MIN ==> ServerOf(msg[FIXED_LEN..]) == Some(other))
  {
    var ia := IaData(iaid, t1, t2, AddrData(addr, preferred, valid));
    RenewReads(c.xid, duid, other, ia);
    RenewAccepted(c, duid, iaid, other, ia);
    var d := c.(statusCode := STATUS_SUCCESS);
    var opts := ReplyOf(c.xid, RenewItems(duid, other, ia))[FIXED_LEN..];
    OneTaken(d, opts, addr, t1, t2, preferred, valid);
  }

  /** At T1 the renewal begins, and at once its Renew goes out under a new transaction-id. */
  lemma RenewGoesOut(c: Ctx, duid: Duid, iaid: u32, w: Word)
    requires Renews(c, duid, iaid) && LongT2(c, Renewing, New, 50_000)
    ensures var d := Tick(c, w, 50_000).0;
            Renews(d, duid, iaid) && d.phase == Running && d.xid == w.xid % 0x100_0000 && d.lease == c.lease
  {
  }

  /** A lease renewed to its first tick after T1: nothing sent yet. */
  lemma RenewBegun(duid: Duid, iaid: u32, addr: Address, w: Word) returns (ops: seq<Op>)
    requires |duid| >= DUID_MIN && HasAddr(addr)
    ensures var c := RunOf(ops).c;
            Renews(c, duid, iaid) && LongT2(c, Renewing, New, 50_000) && c.xid == 0 && c.lease.addr == addr
    ensures |ops| >= 2 && SolicitsRapidly(RunOf(ops[..|ops| - 2]).c, duid, iaid)
  {
    ops := Leased(duid, iaid, addr, 50, 1000, 100, 100, w);
    var c := RunOf(ops).c;
    TurnsToRenewing(c, w);
    RunMore(ops, OpTick(w, 50_000));
    assert (ops + [OpTick(w, 50_000)])[..|ops| - 1] == ops[..|ops| - 1];
    ops := ops + [OpTick(w, 50_000)];
  }

  /**
   * An address leased from one server, renewed at T1 under a new transaction-id, and the Renew answered by another with
   * another address: the client is bound to that address with the first server still recorded.
   */
  lemma LeaseUnderAnotherName(duid: Duid, iaid: u32, addr: Address, other: Duid, addr2: Address, w: Word)
    returns (ops: seq<Op>)
    requires |duid| >= DUID_MIN && HasAddr(addr) && HasAddr(addr2) && DUID_MIN <= |other| && other != duid
    ensures var c := RunOf(ops).c;
            && c.state == Bound && c.lease.addr == addr2 && c.lease.server == duid
            && OriginOf(ops).carried == Some(other) && other != c.lease.server
  {
    ops := RenewBegun(duid, iaid, addr, w);
    RenewGoesOut(RunOf(ops).c, duid, iaid, w);
    RunMore(ops, OpTick(w, 50_000));
    ops := ops + [OpTick(w, 50_000)];
    ops := RenewAnswered(ops, duid, iaid, other, addr2);
  }

  lemma RenewAnswered(ops: seq<Op>, duid: Duid, iaid: u32, other: Duid, addr: Address) returns (more: seq<Op>)
    requires Renews(RunOf(ops).c, duid, iaid) && DUID_MIN <= |other|
    ensures var c := RunOf(more).c;
            c.state == Bound && c.lease.addr == addr && c.lease.server == duid && OriginOf(more).carried == Some(other)
  {
    var c := RunOf(ops).c;
    var msg := ReplyOf(c.xid, RenewItems(duid, other, IaData(iaid, 0, 0, AddrData(addr, 100, 200))));
    RenewTaken(c, duid, iaid, other, addr, 0, 0, 100, 200);
    var input := OpInput(Some(msg));
    RunMore(ops, input);
    OriginMore(ops, input);
    more := ops + [input];
  }

  lemma OriginMore(ops: seq<Op>, op: Op)
    ensures OriginOf(ops + [op]) == OriginAfter(OriginOf(ops), RunOf(ops).c, op)
  {
    assert (ops + [op])[..|ops|] == ops;
  }
}
