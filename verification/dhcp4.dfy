/**
 * The DHCPv4 lease machine (src/dhcp/dhcp4.c) as steps on its context: Figure 5 of RFC 2131, its retransmissions
 * and the deadlines of its section 4.4.5.
 */
module Dhcp4 {
  import opened Words
  import opened Dhcp4Options
  import opened Dhcp4Writer
  import Ms

  const OP_BOOTREPLY: u8 := 2
  const TIME_INFINITE: u32 := 0xFFFF_FFFF
  const BROADCAST: u32 := 0xFFFF_FFFF
  const START_DELAY_MIN_MS: u32 := 1000
  const START_DELAY_MAX_MS: u32 := 10_000
  const RETRY_BASE_MS: u32 := 4000
  const JITTER_MS: u32 := 1000
  const RENEW_MIN_MS: u32 := 60_000
  const DECLINE_WAIT_MS: u32 := 10_000
  const REQUEST_TRIES: u8 := 4
  const INFORM_TRIES: u8 := 4

  datatype State = Init | Selecting | Requesting | Bound | Renewing | Rebinding | InitReboot | Rebooting

  datatype Offered = Offered(chaddr: Option<seq<u8>>, leaseS: u32, netif: u8, htype: u8, broadcast: bool)

  datatype Config = Config(chaddr: Chaddr, leaseS: u32, htype: u8, broadcast: bool)

  /** The address held or offered, the server behind it, and the times of the lease. */
  datatype Lease = Lease(server: u32, ip: u32, mask: u32, router: u32, leaseS: u32, t1S: u32, t2S: u32,
                         t1Ms: u64, t2Ms: u64, expireMs: u64)

  const NO_LEASE: Lease := Lease(0, 0, 0, 0, 0, 0, 0, 0, 0, 0)

  datatype Ctx = Ctx(cfg: Option<Config>, state: State, owed: u8, sent: u8, retries: u8, secs: u16, xid: u32,
                     now: u64, tickMs: u32, tickHi: u32, retryMs: u64, sentMs: u64, lease: Lease)

  const CLEARED: Ctx := Ctx(None, Init, 0, 0, 0, 0, 0, 0, 0, 0, 0, 0, NO_LEASE)

  // --- the clock -------------------------------------------------------------------

  function At(c: Ctx, reading: u32): Ctx {
    var hi := Ms.HighAfter(c.tickMs, c.tickHi, reading);
    c.(tickMs := reading, tickHi := hi, now := Ms.Join(hi, reading))
  }

  /** Whether a time value runs a deadline: zero names none and 0xffffffff is infinity (dhcp4_timed). */
  predicate Timed(seconds: u32) {
    seconds != 0 && seconds != TIME_INFINITE
  }

  /** Half the time left to a deadline, at least a minute and at most a word (dhcp4_half_left). */
  function HalfLeft(now: u64, deadline: u64, timed: bool): u32 {
    var left := if timed && now < deadline then deadline - now else 0;
    var half := if left / 2 > 0xFFFF_FFFF then 0xFFFF_FFFF else left / 2;
    if half > RENEW_MIN_MS then half else RENEW_MIN_MS
  }

  /** The wait before a randomisation: doubled four times from four seconds, or half the time left. */
  function BackoffBase(c: Ctx): u32 {
    match c.state
    case Renewing => HalfLeft(c.now, c.lease.t2Ms, Timed(c.lease.t2S))
    case Rebinding => HalfLeft(c.now, c.lease.expireMs, Timed(c.lease.leaseS))
    case _ => RETRY_BASE_MS * Shifted(if c.retries < 4 then c.retries else 4)
  }

  /** One shifted left, as far as a wait is doubled. */
  function Shifted(places: nat): u32
    requires places <= 4
  {
    if places == 0 then 1 else if places == 1 then 2 else if places == 2 then 4 else if places == 3 then 8 else 16
  }

  predicate Extending(s: State) {
    s == Renewing || s == Rebinding
  }

  /** The wait before the message goes out again, a second either way of its base (dhcp4_backoff). */
  function Backoff(c: Ctx, jitter: u32): u32 {
    var out := Wrap32(BackoffBase(c) - JITTER_MS + jitter);
    if Extending(c.state) && out < RENEW_MIN_MS then RENEW_MIN_MS else out
  }

  /** The machine back in INIT holding nothing (dhcp4_halt). */
  function Halt(c: Ctx): Ctx {
    c.(state := Init, owed := 0, sent := 0, retries := 0, secs := 0, sentMs := 0, lease := NO_LEASE)
  }

  // --- what a received message changes ---------------------------------------------

  function OrElse(v: Option<u32>, held: u32): u32 {
    if v.Some? then v.value else held
  }

  /** The parameters of a message over those held (dhcp4_adopt). */
  function Adopt(l: Lease, o: Opts): Lease {
    l.(mask := OrElse(o.mask, l.mask), router := OrElse(o.router, l.router), server := OrElse(o.server, l.server))
  }

  /** T1 and T2 of a lease: the server's where they are in order, else half and seven eighths of it. */
  function TimesOf(lease: u32, o: Opts): (u32, u32) {
    var t1, t2 := lease / 2, lease - lease / 8;
    if !Timed(lease) then (lease, lease)
    else
      var want1, want2 := OrElse(o.t1, t1), OrElse(o.t2, t2);
      if want1 < want2 && want2 < lease then (want1, want2) else (t1, t2)
  }

  /** A lease of some seconds with its times, their deadlines counted from when the request went out. */
  function Dated(l: Lease, sentMs: u64, seconds: u32, t1: u32, t2: u32): Lease {
    l.(leaseS := seconds, t1S := t1, t2S := t2, t1Ms := Add64(sentMs, Ms.FromSeconds(t1)),
       t2Ms := Add64(sentMs, Ms.FromSeconds(t2)), expireMs := Add64(sentMs, Ms.FromSeconds(seconds)))
  }

  /** The lease a DHCPACK carried (dhcp4_lease). */
  function Leased(c: Ctx, o: Opts, yiaddr: u32): Ctx {
    var lease := OrElse(o.lease, c.lease.leaseS);
    var t := TimesOf(lease, o);
    c.(lease := Dated(c.lease.(ip := yiaddr), c.sentMs, lease, t.0, t.1),
       state := Bound, owed := 0, sent := 0, retries := 0, retryMs := c.now)
  }

  function OnOffer(c: Ctx, o: Opts, yiaddr: u32): (Ctx, Status) {
    if c.state != Selecting || o.server.None? then (c, ERR)
    else
      (c.(lease := Adopt(c.lease, o).(leaseS := OrElse(o.lease, c.lease.leaseS), ip := yiaddr),
          state := Requesting, retries := 0, sent := 0, owed := REQUEST), OK)
  }

  /** The states an exchange for an address is out in. */
  predicate Asking(s: State) {
    s == Requesting || s == Rebooting || s == Renewing || s == Rebinding
  }

  function OnAck(c: Ctx, o: Opts, yiaddr: u32): (Ctx, Status) {
    if c.sent == INFORM then (c.(lease := Adopt(c.lease, o), sent := 0, owed := 0, retries := 0), OK)
    else if !Asking(c.state) then (c, ERR)
    else (Leased(c.(lease := Adopt(c.lease, o)), o, yiaddr), OK)
  }

  function OnNak(c: Ctx): (Ctx, Status) {
    if Asking(c.state) then (Halt(c), OK) else (c, ERR)
  }

  /** A reply to this client's own request, by its header alone. */
  predicate Addressed(c: Ctx, cfg: Config, msg: seq<u8>) {
    && |msg| >= MSG_LEN && msg[0] == OP_BOOTREPLY
    && Rd32(msg[OFF_COOKIE..]) == MAGIC_COOKIE && Rd32(msg[4..]) == c.xid
    && msg[1] == cfg.htype && msg[2] == |cfg.chaddr| && msg[28..28 + |cfg.chaddr|] == cfg.chaddr
  }

  /** A received message (idemip_dhcp4_input). */
  function Input(c: Ctx, msg: Option<seq<u8>>): (Ctx, Status) {
    if c.cfg.None? || msg.None? || !Addressed(c, c.cfg.value, msg.value) || Declared(msg.value).None? then (c, ERR)
    else Heard(c, Declared(msg.value).value, Rd32(msg.value[16..]))
  }

  /** What a message that says `o` does. */
  function Heard(c: Ctx, o: Opts, yiaddr: u32): (Ctx, Status) {
    if o.kind == Some(OFFER) then OnOffer(c, o, yiaddr)
    else if o.kind == Some(ACK) then OnAck(c, o, yiaddr)
    else if o.kind == Some(NAK) then OnNak(c)
    else (c, ERR)
  }

  // --- what a message to send looks like -------------------------------------------

  /** What Tables 4 and 5 of RFC 2131 put in each message. */
  function AskedIn(c: Ctx, cfg: Config): Asked {
    var want := if cfg.leaseS != 0 then Some(cfg.leaseS) else None;
    if c.owed == DISCOVER then Asked(None, None, want, true)
    else if c.owed == REQUEST then
      Asked(if Extending(c.state) then None else Some(c.lease.ip),
            if c.state == Requesting then Some(c.lease.server) else None, want, true)
    else if c.owed == DECLINE then Asked(Some(c.lease.ip), Some(c.lease.server), None, false)
    else if c.owed == RELEASE then Asked(None, Some(c.lease.server), None, false)
    else Asked(None, None, None, true)
  }

  /** Whether the address goes in `ciaddr`. */
  predicate CarriesAddr(c: Ctx) {
    if c.owed == REQUEST then Extending(c.state) else c.owed != DISCOVER && c.owed != DECLINE
  }

  function FixedIn(c: Ctx, cfg: Config): Fixed {
    Fixed(cfg.htype, cfg.chaddr, c.xid, if c.owed == DECLINE || c.owed == RELEASE then 0 else c.secs,
          if cfg.broadcast && (c.owed == DISCOVER || (c.owed == REQUEST && !Extending(c.state)))
          then FLAG_BROADCAST else 0,
          if CarriesAddr(c) then c.lease.ip else 0)
  }

  /** Where it goes: to the server in RENEWING, in a Release, and in an Inform that knows one. */
  function Destination(c: Ctx): u32 {
    if c.owed == RELEASE || (c.owed == REQUEST && c.state == Renewing) then c.lease.server
    else if c.owed == DISCOVER || c.owed == REQUEST || c.owed == DECLINE || c.lease.server == 0 then BROADCAST
    else c.lease.server
  }

  /** The context once the message owed is out (the end of dhcp4_write). */
  function Sent(c: Ctx, jitter: u32): Ctx {
    var d := c.(sentMs := c.now, sent := c.owed, owed := 0,
                retries := if c.retries < 0xFF then c.retries + 1 else c.retries,
                retryMs := Add64(c.now, Backoff(c, jitter)));
    if c.owed == RELEASE then Halt(d).(retryMs := c.now)
    else if c.owed == DECLINE then Halt(d).(retryMs := Add64(c.now, DECLINE_WAIT_MS))
    else d
  }

  /** A message that has to name a server none is recorded for. */
  predicate Nameless(c: Ctx) {
    && c.lease.server == 0
    && (c.owed == RELEASE || c.owed == DECLINE || (c.owed == REQUEST && (c.state == Requesting || c.state == Renewing)))
  }

  /** What build hands back: the octets it wrote and where they go. */
  datatype Outgoing = Outgoing(msg: seq<u8>, dst: u32)

  /** The message owed, into a buffer of some capacity (idemip_dhcp4_build). */
  function Build(c: Ctx, cap: Option<nat>, jitter: u32): (Ctx, Status, Option<Outgoing>) {
    if c.cfg.None? || cap.None? || cap.value < MSG_LEN then (c, ERR, None)
    else if c.owed == 0 then (c, BUSY, None)
    else if Nameless(c) then (c, ERR, None)
    else
      (Sent(c, jitter), OK,
       Some(Outgoing(Message(FixedIn(c, c.cfg.value), c.owed, AskedIn(c, c.cfg.value)), Destination(c))))
  }

  // --- what a deadline does --------------------------------------------------------

  function Retry(c: Ctx, tries: u8): Ctx {
    if tries != 0 && c.retries >= tries then Halt(c) else c.(owed := c.sent)
  }

  /** A DHCPREQUEST owed from a new state. */
  function Ask(c: Ctx, s: State): Ctx {
    c.(state := s, sent := REQUEST, retries := 0, owed := REQUEST)
  }

  predicate Holding(s: State) {
    s == Bound || s == Renewing || s == Rebinding
  }

  function RunHolding(c: Ctx): (Ctx, bool) {
    if Timed(c.lease.leaseS) && c.now >= c.lease.expireMs then (Halt(c), true)
    else if c.state != Rebinding && Timed(c.lease.t2S) && c.now >= c.lease.t2Ms then (Ask(c, Rebinding), true)
    else if c.state == Bound && Timed(c.lease.t1S) && c.now >= c.lease.t1Ms then (Ask(c, Renewing), true)
    else if c.state == Bound || c.now < c.retryMs then (c, false)
    else (Retry(c, 0), true)
  }

  function RunInform(c: Ctx): (Ctx, bool) {
    if c.sent != INFORM || c.now < c.retryMs then (c, false)
    else if c.retries >= INFORM_TRIES then (c.(sent := 0, retries := 0), true)
    else (c.(owed := INFORM), true)
  }

  /** The deadline that has passed, in the state it passed in (dhcp4_run). */
  function RunDeadline(c: Ctx): (Ctx, bool) {
    if c.owed != 0 then (c, false)
    else if Holding(c.state) then RunHolding(c)
    else if c.state == Init then RunInform(c)
    else if c.now < c.retryMs then (c, false)
    else if c.state == Selecting then (Retry(c.(sent := DISCOVER), 0), true)
    else if c.state == InitReboot then (Ask(c, Rebooting), true)
    else (Retry(c, REQUEST_TRIES), true)
  }

  function Tick(c: Ctx, reading: u32): (Ctx, Status) {
    if c.cfg.None? then (c, ERR)
    else
      var r := RunDeadline(At(c, reading));
      (r.0, if r.1 then OK else BUSY)
  }

  // --- the other entries -----------------------------------------------------------

  predicate Bindable(o: Option<Offered>) {
    o.Some? && o.value.chaddr.Some? && 1 <= |o.value.chaddr.value| <= CHADDR_LEN && o.value.netif < NETIF_COUNT
  }

  function Bind(c: Ctx, o: Option<Offered>): (Ctx, Status) {
    if !Bindable(o) then (c, ERR)
    else (c.(cfg := Some(Config(o.value.chaddr.value, o.value.leaseS, o.value.htype, o.value.broadcast)),
             state := Init), OK)
  }

  /** An exchange opened: over a known address, or after a drawn delay for a new one (idemip_dhcp4_start). */
  function Start(c: Ctx, xid: u32, known: u32, delay: u32, reading: u32): (Ctx, Status) {
    if c.cfg.None? || c.state != Init then (c, ERR)
    else
      var d := At(c, reading);
      if d.now < d.retryMs then (d, BUSY)
      else
        var e := d.(xid := xid, retries := 0, owed := 0, sent := 0, secs := 0, sentMs := d.now);
        if known != 0 then (e.(lease := e.lease.(ip := known), state := InitReboot, retryMs := e.now), OK)
        else (e.(state := Selecting, retryMs := Add64(e.now, START_DELAY_MIN_MS + delay)), OK)
  }

  function Stop(c: Ctx): (Ctx, Status) {
    if c.cfg.None? then (c, ERR) else (Halt(c).(retryMs := c.now), OK)
  }

  function Release(c: Ctx): (Ctx, Status) {
    if c.cfg.None? || !Holding(c.state) || c.lease.server == 0 || c.lease.ip == 0 then (c, ERR)
    else (c.(owed := RELEASE, retries := 0), OK)
  }

  function Decline(c: Ctx): (Ctx, Status) {
    if c.cfg.None? || c.state != Bound || c.lease.server == 0 || c.lease.ip == 0 then (c, ERR)
    else (c.(owed := DECLINE, retries := 0), OK)
  }

  function Inform(c: Ctx, xid: u32, known: u32, reading: u32): (Ctx, Status) {
    if c.cfg.None? || c.state != Init || known == 0 then (c, ERR)
    else
      var d := At(c, reading);
      (d.(xid := xid, lease := d.lease.(ip := known), secs := 0, retries := 0, owed := INFORM, sent := 0), OK)
  }
}
