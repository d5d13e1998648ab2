/** Exactly when the conflict detector takes a start (src/acd/acd.c), over whole runs, and a late one it refuses. */
module AcdStarts {
  import opened Words
  import opened ArpPacket
  import opened Acd

  /** A start on one context, by the time of its last attempt. */
  lemma TakenIff(c: Ctx, last: nat, mac: Option<Mac>, ip: u32, rand: u32, defense: Defense, at: nat, now: u32)
    requires c.conflicts >= MAX_CONFLICTS ==> SpanFrom(last, c.nextClaim) == RATE_LIMIT_MS
    requires now == Wrap32(at)
    ensures Start(c, mac, ip, rand, defense, now).1.status == OK <==>
              mac.Some? && ip != 0 && (c.conflicts < MAX_CONFLICTS || Reached(last, RATE_LIMIT_MS, at))
  {
    if c.conflicts >= MAX_CONFLICTS {
      SpanIs(last, c.nextClaim);
      DueIsReached(last, RATE_LIMIT_MS, at, now, c.nextClaim);
    }
  }

  /**
   * Over every run, a start that names an interface and an address is taken exactly when fewer than MAX_CONFLICTS
   * conflicts are counted or the interval after the last start and conflict is over to the clock.
   */
  lemma StartIsTakenIff(ops: seq<Op>, op: Op)
    requires Follows(ops, op) && op.StartOp?
    ensures var r := After(ops);
            Accepted(op, Step(r.c, op).1) <==>
              && op.mac.Some? && op.ip != 0
              && (r.c.conflicts < MAX_CONFLICTS || Reached(LastAttempt(r.h), RATE_LIMIT_MS, op.at))
  {
    var r := After(ops);
    var now := Wrap32(op.at);
    assert LimitOk(r);
    TakenIff(r.c, LastAttempt(r.h), op.mac, op.ip, op.rand, op.defense, op.at, now);
    assert Step(r.c, op) == Start(r.c, op.mac, op.ip, op.rand, op.defense, now);
  }

  // --- a start that comes too late ---------------------------------------------------

  /** A REPLY that claims an address. */
  predicate Claims(p: Packet, ip: u32) {
    IsEthernetIpv4(p) && IsReply(p) && Spa(p) == ip
  }

  lemma AfterMore(ops: seq<Op>, op: Op)
    requires Follows(ops, op)
    ensures Forward(ops + [op]) && After(ops + [op]) == Next(After(ops), op)
  {
    assert (ops + [op])[..|ops|] == ops;
  }

  predicate AtZero(ops: seq<Op>) {
    forall k :: 0 <= k < |ops| ==> ops[k].at == 0
  }

  /** So many conflicts counted, and the last attempt at time zero. */
  predicate Contested(r: Run, n: nat) {
    r.c.sent < 3 && r.c.conflicts == n && LastAttempt(r.h) == 0
  }

  /** An address started on at time zero, and being claimed. */
  predicate Claimed(r: Run, n: nat, ip: u32) {
    Contested(r, n) && r.c.state == ProbeWait && r.c.ipaddr == ip
  }

  lemma StartedOn(r: Run, n: nat, mac: Mac, ip: u32)
    requires Contested(r, n) && n < MAX_CONFLICTS && ip != 0
    ensures Claimed(Next(r, StartOp(0, Some(mac), ip, 0, Never)), n, ip)
  {
  }

  lemma ClaimedAway(r: Run, n: nat, ip: u32, p: Packet)
    requires Claimed(r, n, ip) && n < MAX_CONFLICTS && Claims(p, ip)
    ensures Contested(Next(r, ArpOp(0, Some(p))), n + 1)
  {
    assert Receive(r.c, Some(p), 0) == (Abandoned(r.c, 0), QUIET.(conflict := true, abandon := true));
  }

  lemma AtZeroMore(ops: seq<Op>, op: Op)
    requires Forward(ops) && AtZero(ops) && op.at == 0
    ensures Follows(ops, op) && Forward(ops + [op]) && AtZero(ops + [op]) && After(ops + [op]) == Next(After(ops), op)
  {
    AfterMore(ops, op);
  }

  /** One conflict more: an address started on and claimed by another host at once. */
  lemma ContestedOnce(ops: seq<Op>, n: nat, mac: Mac, ip: u32, p: Packet) returns (more: seq<Op>)
    requires Forward(ops) && AtZero(ops) && Contested(After(ops), n) && n < MAX_CONFLICTS && ip != 0 && Claims(p, ip)
    ensures Forward(more) && AtZero(more) && Contested(After(more), n + 1)
  {
    var start, claimed := StartOp(0, Some(mac), ip, 0, Never), ArpOp(0, Some(p));
    StartedOn(After(ops), n, mac, ip);
    AtZeroMore(ops, start);
    ClaimedAway(After(ops + [start]), n, ip, p);
    AtZeroMore(ops + [start], claimed);
    more := ops + [start] + [claimed];
  }

  lemma {:induction false} ContestedTimes(n: nat, mac: Mac, ip: u32, p: Packet) returns (ops: seq<Op>)
    requires n <= MAX_CONFLICTS && ip != 0 && Claims(p, ip)
    ensures Forward(ops) && AtZero(ops) && Contested(After(ops), n)
    decreases n
  {
    ops := [];
    if n > 0 {
      ops := ContestedTimes(n - 1, mac, ip, p);
      ops := ContestedOnce(ops, n - 1, mac, ip, p);
    }
  }

  lemma LateIsBusy(r: Run, mac: Mac, ip: u32, op: Op)
    requires Contested(r, MAX_CONFLICTS) && LimitOk(r) && ip != 0
    requires op == StartOp(RATE_LIMIT_MS + TWO_31, Some(mac), ip, 0, Never)
    ensures Step(r.c, op).1.status == BUSY
  {
    var now := Wrap32(op.at);
    TakenIff(r.c, 0, op.mac, ip, 0, Never, op.at, now);
    assert Step(r.c, op) == Start(r.c, op.mac, ip, 0, Never, now);
  }

  /** Ten conflicts at time zero, and a start 2^31 ms past the end of its interval: it is refused as if too early. */
  lemma LateStartIsRefused(mac: Mac, ip: u32, p: Packet) returns (ops: seq<Op>, op: Op)
    requires ip != 0 && Claims(p, ip)
    ensures Follows(ops, op) && op.StartOp? && op.mac == Some(mac) && op.ip == ip
    ensures var r := After(ops);
            op.at == LastAttempt(r.h) + RATE_LIMIT_MS + TWO_31 && Step(r.c, op).1.status == BUSY
  {
    ops := ContestedTimes(MAX_CONFLICTS, mac, ip, p);
    op := StartOp(RATE_LIMIT_MS + TWO_31, Some(mac), ip, 0, Never);
    LateIsBusy(After(ops), mac, ip, op);
  }
}
