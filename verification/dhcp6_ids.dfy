/**
 * Whose transaction-id an accepted DHCPv6 message carries (src/dhcp/dhcp6.c): the one drawn for the exchange that is
 * running exactly when one has been drawn, and a run in which an answer to the last exchange is taken for the next.
 */
module Dhcp6Ids {
  import opened Words
  import opened Dhcp6Codec
  import opened Dhcp6Writer
  import opened Dhcp6
  import opened Dhcp6Runs
  import opened Dhcp6Leases
  import opened Dhcp6Servers

  /** A call that begins an exchange anew: one that changes the state, or a Confirm, Release or Decline taken. */
  predicate BeginsAnew(c: Ctx, op: Op) {
    || Step(c, op).0.state != c.state
    || ((op.OpConfirm? || op.OpRelease? || op.OpDecline?) && Step(c, op).1.status == OK)
  }

  /** The transaction-id drawn for the exchange a client is in: by the start that opened it or by its first tick. */
  function DrawnAfter(drawn: Option<u32>, c: Ctx, op: Op): Option<u32> {
    if op.OpStart? && Step(c, op).1.status == OK then Some(op.xid % 0x100_0000)
    else if BeginsAnew(c, op) then None
    else if op.OpTick? && Exchange(c.state) && c.phase == New then Some(op.word.xid % 0x100_0000)
    else drawn
  }

  /** In an exchange an id has been drawn once the phase is past New, and it is the one in use. */
  predicate InUse(c: Ctx, drawn: Option<u32>) {
    if Exchange(c.state) && c.phase != New then drawn == Some(c.xid) else drawn == None
  }

  /** A call that draws nothing: the exchange goes on under its id, begins without one, or is over. */
  predicate Undrawn(c: Ctx, d: Ctx) {
    Exchange(d.state) ==> if d.state == c.state then d.phase == c.phase && d.xid == c.xid else d.phase == New
  }

  lemma TickDraws(c: Ctx, w: Word, reading: u32)
    requires c.cfg.None? ==> c.state == Idle
    ensures var d := Tick(c, w, reading).0;
            if Exchange(c.state) && c.phase == New && d.state == c.state then
              d.phase != New && d.xid == w.xid % 0x100_0000
            else if Exchange(c.state) && d.state == c.state then d.phase != New && d.xid == c.xid
            else Exchange(d.state) ==> d.phase == New
  {
  }

  lemma AdvertiseUndrawn(c: Ctx, opts: seq<u8>)
    ensures Undrawn(c, OnAdvertise(c, opts).0)
  {
    TakeLeaseKeeps(c.(statusCode := StatusOf(opts)), opts);
  }

  lemma LeaseOrNotUndrawn(c: Ctx, opts: seq<u8>)
    requires c.state in {Requesting, Renewing, Rebinding}
    ensures var t := TakeLease(c, opts); !t.1 ==> Undrawn(c, OnNoLease(t.0, opts).0)
  {
    TakeLeaseKeeps(c, opts);
  }

  lemma RapidReplyUndrawn(c: Ctx, cfg: Config, opts: seq<u8>)
    requires c.state == Soliciting
    ensures Undrawn(c, OnRapidReply(c, cfg, opts).0)
  {
    if ServerOf(opts).Some? {
      TakeLeaseKeeps(TakeServer(c, opts), opts);
    }
  }

  lemma LeaseReplyUndrawn(c: Ctx, opts: seq<u8>, status: u16)
    requires c.state in {Requesting, Renewing, Rebinding}
    ensures Undrawn(c, OnLeaseReply(c, opts, status).0)
  {
    if c.state != Rebinding {
      LeaseOrNotUndrawn(c, opts);
    } else if ServerOf(opts).Some? {
      LeaseOrNotUndrawn(TakeServer(c, opts), opts);
    }
  }

  lemma ReplyUndrawn(c: Ctx, cfg: Config, opts: seq<u8>)
    requires Exchange(c.state)
    ensures Undrawn(c, OnReply(c, cfg, opts).0)
  {
    var status := StatusOf(opts);
    var d := c.(statusCode := status);
    if status != STATUS_USE_MULTICAST && status != STATUS_UNSPEC_FAIL {
      if c.state == Soliciting {
        RapidReplyUndrawn(d, cfg, opts);
      } else if c.state in {Requesting, Renewing, Rebinding} {
        LeaseReplyUndrawn(d, opts, status);
      }
    }
  }

  lemma InputUndrawn(c: Ctx, msg: Option<seq<u8>>)
    ensures Undrawn(c, Input(c, msg).0)
  {
    if c.cfg.Some? && msg.Some? && Accepted(c, c.cfg.value, msg.value) {
      var opts := msg.value[FIXED_LEN..];
      var d := TakeMaxRt(c, opts, c.cfg.value.stateless);
      if msg.value[0] == ADVERTISE {
        AdvertiseUndrawn(d, opts);
      } else {
        ReplyUndrawn(d, c.cfg.value, opts);
      }
    }
  }

  lemma StepUses(c: Ctx, drawn: Option<u32>, op: Op)
    requires InUse(c, drawn) && (c.cfg.None? ==> c.state == Idle)
    ensures InUse(Step(c, op).0, DrawnAfter(drawn, c, op))
  {
    if op.OpTick? {
      TickDraws(c, op.word, op.reading);
    } else if op.OpInput? {
      InputUndrawn(c, op.msg);
    }
  }

  function DrawnOf(ops: seq<Op>): Option<u32>
    decreases |ops|
  {
    if ops == [] then None
    else DrawnAfter(DrawnOf(ops[..|ops| - 1]), RunOf(ops[..|ops| - 1]).c, ops[|ops| - 1])
  }

  lemma {:induction false} RunUses(ops: seq<Op>)
    ensures InUse(RunOf(ops).c, DrawnOf(ops))
    decreases |ops|
  {
    if ops != [] {
      var before := ops[..|ops| - 1];
      RunUses(before);
      RunKeeps(before);
      StepUses(RunOf(before).c, DrawnOf(before), ops[|ops| - 1]);
    }
  }

  /**
   * In every run, a message accepted carries the transaction-id drawn for the exchange it is taken in exactly when the
   * first tick of that exchange, or the start that opened it, has drawn one.
   */
  lemma RunAcceptsItsOwnIff(ops: seq<Op>, msg: seq<u8>)
    requires var c := RunOf(ops).c; c.cfg.Some? && Accepted(c, c.cfg.value, msg)
    ensures DrawnOf(ops) == Some(XidOf(msg)) <==> RunOf(ops).c.phase != New
  {
    RunUses(ops);
  }

  /**
   * A Solicit goes out under an id drawn for it and is answered. At T1 and before the next tick no id is drawn for the
   * renewal, and a Reply under the Solicit's id is taken.
   */
  lemma OldIdIsTaken(duid: Duid, iaid: u32, addr: Address, other: Duid, addr2: Address, w: Word)
    returns (solicit: seq<Op>, ops: seq<Op>, msg: seq<u8>)
    requires |duid| >= DUID_MIN && HasAddr(addr)
    ensures solicit <= ops && RunOf(solicit).c.state == Soliciting && RunOf(solicit).c.phase == Running
    ensures |msg| >= FIXED_LEN && DrawnOf(solicit) == Some(XidOf(msg))
    ensures var c := RunOf(ops).c;
            && c.state == Renewing && c.phase == New && DrawnOf(ops) == None
            && var d := Input(c, Some(msg)).0; d.state == Bound && d.lease.addr == addr2
  {
    ops := RenewBegun(duid, iaid, addr, w);
    var c := RunOf(ops).c;
    msg := ReplyOf(0, RenewItems(duid, other, IaData(iaid, 0, 0, AddrData(addr2, 100, 200))));
    RenewTaken(c, duid, iaid, other, addr2, 0, 0, 100, 200);
    RunUses(ops);
    solicit := ops[..|ops| - 2];
    RunUses(solicit);
  }
}
