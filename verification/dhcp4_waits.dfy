/**
 * The waits of a renewal that do not fit the word they are computed in (src/dhcp/dhcp4.c): exactly when one comes out
 * as a minute, and a run in which it does.
 */
module Dhcp4Waits {
  import opened Words
  import opened Buffers
  import opened Dhcp4Options
  import opened Dhcp4Writer
  import opened Dhcp4
  import opened Dhcp4Runs

  /** The wait wanted, held to a word. */
  function Capped(want: nat): u32 {
    if want < TWO_32 then want else 0xFFFF_FFFF
  }

  /**
   * A renewal's wait is one minute exactly when what is wanted, held to a word, less a second and with its draw, comes
   * to a minute or less or passes the word; otherwise it is what that comes to.
   */
  lemma WrapsToAMinuteIff(c: Ctx, jitter: u32)
    requires Extending(c.state) && jitter <= 2 * JITTER_MS
    ensures var out := Capped(WaitWanted(c)) - JITTER_MS + jitter;
            && (Backoff(c, jitter) == RENEW_MIN_MS <==> out <= RENEW_MIN_MS || out >= TWO_32)
            && (Backoff(c, jitter) != RENEW_MIN_MS ==> Backoff(c, jitter) == out)
  {
    assert BackoffBase(c) == Capped(WaitWanted(c));
  }

  // --- a DHCPACK with times of its own ----------------------------------------------

  const SERVER: u32 := 0x0A00_0002

  /** A lease of 9000000 s with T1 after one second and T2 after 8589936 s. */
  const GRANT: Opts :=
    NOTHING.(kind := Some(ACK), server := Some(SERVER), lease := Some(9_000_000), t1 := Some(1), t2 := Some(8_589_936))

  function GrantItems(): seq<Item> {
    [Item(OPT_MSG_TYPE, [ACK])] + [Item(OPT_SERVER_ID, Wr32(SERVER))] + [Item(OPT_LEASE_TIME, Wr32(9_000_000))]
    + [Item(OPT_T1, Wr32(1))] + [Item(OPT_T2, Wr32(8_589_936))]
  }

  lemma GrantSays()
    ensures Says(GrantItems(), GRANT)
  {
    var kind, server := Item(OPT_MSG_TYPE, [ACK]), Item(OPT_SERVER_ID, Wr32(SERVER));
    var lease := Item(OPT_LEASE_TIME, Wr32(9_000_000));
    var t1, t2 := Item(OPT_T1, Wr32(1)), Item(OPT_T2, Wr32(8_589_936));
    var o1 := NOTHING.(kind := Some(ACK));
    var o2 := o1.(server := Some(SERVER));
    var o3 := o2.(lease := Some(9_000_000));
    var o4 := o3.(t1 := Some(1));
    OneSays(kind, o1);
    OneSays(server, NOTHING.(server := Some(SERVER)));
    OneSays(lease, NOTHING.(lease := Some(9_000_000)));
    OneSays(t1, NOTHING.(t1 := Some(1)));
    OneSays(t2, NOTHING.(t2 := Some(8_589_936)));
    Together([kind], o1, [server], NOTHING.(server := Some(SERVER)));
    Together([kind] + [server], o2, [lease], NOTHING.(lease := Some(9_000_000)));
    Together([kind] + [server] + [lease], o3, [t1], NOTHING.(t1 := Some(1)));
    Together([kind] + [server] + [lease] + [t1], o4, [t2], NOTHING.(t2 := Some(8_589_936)));
  }

  /** The header of a reply that offers 10.0.0.1. */
  function ReplyHeader(chaddr: Chaddr, xid: u32): (h: seq<u8>)
    ensures |h| == OFF_OPTIONS
  {
    Header(Fixed(1, chaddr, xid, 0, 0, 0))[0 := OP_BOOTREPLY][16 := 10][19 := 1]
  }

  function GrantMessage(chaddr: Chaddr, xid: u32): seq<u8> {
    ReplyHeader(chaddr, xid) + (Encoded(GrantItems()) + [OPT_END] + Zeros(MSG_LEN))
  }

  lemma GrantMessageSays(chaddr: Chaddr, xid: u32)
    ensures var msg := GrantMessage(chaddr, xid); |msg| >= MSG_LEN && Declared(msg) == Some(GRANT)
  {
    var items := GrantItems();
    GrantSays();
    TokensOfEncoded(items, Zeros(MSG_LEN));
    Suffix(ReplyHeader(chaddr, xid), Encoded(items) + [OPT_END] + Zeros(MSG_LEN));
    assert Octet(First(items, OPT_OVERLOAD)) == Firsts(items).overload;
    assert items + [] + [] == items;
  }

  lemma GrantIsAddressed(c: Ctx, cfg: Config)
    requires cfg.htype == 1
    ensures var msg := GrantMessage(cfg.chaddr, c.xid);
            |msg| >= MSG_LEN && Addressed(c, cfg, msg) && Rd32(msg[16..]) == 0x0A00_0001
  {
    var f := Fixed(1, cfg.chaddr, c.xid, 0, 0, 0);
    var msg := GrantMessage(cfg.chaddr, c.xid);
    GrantMessageSays(cfg.chaddr, c.xid);
    HeaderFields(f);
    assert msg[20..OFF_OPTIONS] == Header(f)[20..];
    assert msg[4..][..4] == Header(f)[4..8];
    assert msg[OFF_COOKIE..][..4] == Header(f)[OFF_COOKIE..];
    assert msg[28..28 + |cfg.chaddr|] == Header(f)[28..28 + |cfg.chaddr|];
    assert Header(f)[17] == 0 && Header(f)[18] == 0;
  }

  // --- the run ------------------------------------------------------------------------

  /** The lease of that DHCPACK held from time zero. */
  predicate HoldsGrant(c: Ctx) {
    && c.cfg.Some? && c.state == Bound && c.owed == 0 && c.now == 0 && c.tickMs == 0 && c.tickHi == 0
    && c.lease.server == SERVER && c.lease.leaseS == 9_000_000 && c.lease.t1S == 1 && c.lease.t2S == 8_589_936
    && c.lease.t1Ms == 1000 && c.lease.t2Ms == 8_589_936_000 && c.lease.expireMs == 9_000_000_000
  }

  lemma GrantIsHeard(c: Ctx, msg: seq<u8>)
    requires Waiting(c) && |msg| >= MSG_LEN && Addressed(c, c.cfg.value, msg) && Declared(msg) == Some(GRANT)
    ensures HoldsGrant(Input(c, Some(msg)).0)
  {
    assert Input(c, Some(msg)) == Heard(c, GRANT, Rd32(msg[16..]));
    assert TimesOf(9_000_000, GRANT) == (1, 8_589_936);
  }

  const RENEW_TICK: Event := Event(OpTick, 1410, 1410)
  const LATEST_BUILD: Event := Event(OpBuild(Some(MSG_LEN), 2 * JITTER_MS), 1410, 1410)

  /** Renewing, its DHCPREQUEST owed, two words less two milliseconds short of T2. */
  predicate RenewsEarly(c: Ctx) {
    && c.cfg.Some? && c.state == Renewing && c.owed == REQUEST && c.lease.server == SERVER && Timed(c.lease.t2S)
    && c.now == 1410 && c.lease.t2Ms == c.now + 2 * 0xFFFF_FFFF
  }

  lemma GrantIsRenewed(r: Run)
    requires HoldsGrant(r.c)
    ensures RenewsEarly(After(r, RENEW_TICK).c)
  {
  }

  /** Out it goes, and the wait for an answer is one minute. */
  lemma RenewalIsSent(r: Run)
    requires RenewsEarly(r.c)
    ensures var c := After(r, LATEST_BUILD).c;
            && WaitWanted(r.c) == 0xFFFF_FFFF && c.state == Renewing && c.sent == REQUEST && c.lease == r.c.lease
            && c.now == 1410 && c.retryMs == c.now + RENEW_MIN_MS
  {
    WrapsToAMinuteIff(r.c, 2 * JITTER_MS);
  }

  /** With a draw half as late the wait is the word it should be. */
  lemma EarlierDrawFits(c: Ctx)
    requires RenewsEarly(c)
    ensures Backoff(c, JITTER_MS) == 0xFFFF_FFFF
  {
    WrapsToAMinuteIff(c, JITTER_MS);
  }

  lemma ZeroThenRenewed(events: seq<Event>)
    requires AtZero(events)
    ensures OnClock(events + [RENEW_TICK] + [LATEST_BUILD])
  {
  }

  lemma GrantRuns() returns (events: seq<Event>)
    ensures HoldsGrant(RunOf(events).c) && AtZero(events)
  {
    events := SentRuns();
    var c := RunOf(events).c;
    var msg := GrantMessage(c.cfg.value.chaddr, c.xid);
    GrantMessageSays(c.cfg.value.chaddr, c.xid);
    GrantIsAddressed(c, c.cfg.value);
    GrantIsHeard(c, msg);
    RunOfMore(events, Event(OpInput(Some(msg)), 0, 0));
    events := events + [Event(OpInput(Some(msg)), 0, 0)];
  }

  /**
   * A run reaches it: an address confirmed for 9000000 s with T1 at one second and T2 at 8589936, ticked at 1410 ms
   * and built with the latest draw. Half the time left to T2 is 2^32 - 1 ms, and the wait is 60000.
   */
  lemma LongWaitIsReachable() returns (events: seq<Event>)
    ensures OnClock(events)
    ensures var c := RunOf(events).c;
            && c.state == Renewing && c.sent == REQUEST && c.lease.t2Ms == c.now + 2 * 0xFFFF_FFFF
            && c.retryMs == c.now + RENEW_MIN_MS
  {
    events := GrantRuns();
    GrantIsRenewed(RunOf(events));
    RunOfMore(events, RENEW_TICK);
    RenewalIsSent(RunOf(events + [RENEW_TICK]));
    RunOfMore(events + [RENEW_TICK], LATEST_BUILD);
    ZeroThenRenewed(events);
    events := events + [RENEW_TICK] + [LATEST_BUILD];
  }
}
