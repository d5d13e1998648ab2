/**
 * The DHCPv6 client (src/dhcp/dhcp6.c) as steps on its context: the exchanges of section 18.2 of RFC 8415, the
 * validation of section 16 and the retransmission schedule of section 15.
 */
module Dhcp6 {
  import opened Words
  import opened Dhcp6Codec
  import opened Dhcp6Writer
  import opened Dhcp6Rt
  import Ms

  const INFINITY: u32 := 0xFFFF_FFFF
  const DUID_MIN: nat := 3
  const PREF_IMMEDIATE: u8 := 255
  const MAX_DELAY_MS: u32 := 1000
  const DEFAULT_MAX_RT_MS: u32 := 3_600_000
  const MAX_RT_MIN_S: u32 := 60
  const MAX_RT_MAX_S: u32 := 86_400
  const IRT_DEFAULT_S: u32 := 86_400
  const IRT_MINIMUM_S: u32 := 600
  const CNF_MAX_RD_MS: u32 := 10_000
  const PICKED_S: u32 := 10

  const STATUS_SUCCESS: u16 := 0
  const STATUS_UNSPEC_FAIL: u16 := 1
  const STATUS_NO_BINDING: u16 := 3
  const STATUS_NOT_ON_LINK: u16 := 4
  const STATUS_USE_MULTICAST: u16 := 5

  datatype State =
    | Idle | Soliciting | Requesting | Confirming | Renewing | Rebinding | InfoRequesting | Releasing | Declining
    | Bound

  /** Where an exchange is in its schedule: no transaction-id yet, its first delay running, or its RT running. */
  datatype Phase = New | Delay | Running

  /** What the caller offers to bind, and what is kept of it. */
  datatype Offered = Offered(duid: Option<seq<u8>>, iaid: u32, netif: u8, stateless: bool, rapid: bool)

  datatype Config = Config(duid: Duid, iaid: u32, stateless: bool, rapid: bool)

  /** A lease and the server it came from, with its deadlines and which of its times are infinite. */
  datatype Lease = Lease(addr: Address, server: Duid, preferredS: u32, validS: u32, t1S: u32, t2S: u32,
                         t1Ms: u64, t2Ms: u64, validMs: u64, infT1: bool, infT2: bool, infValid: bool,
                         pref: u8, haveAdv: bool)

  const NO_ADDR: Address := [0, 0, 0, 0, 0, 0, 0, 0, 0, 0, 0, 0, 0, 0, 0, 0]
  const NO_LEASE: Lease := Lease(NO_ADDR, [], 0, 0, 0, 0, 0, 0, 0, false, false, false, 0, false)

  datatype Ctx = Ctx(cfg: Option<Config>, state: State, phase: Phase, owed: u8, retries: u8, statusCode: u16,
                     xid: u32, iaid: u32, now: u64, tickMs: u32, tickHi: u32, rt: u32, retryMs: u64, startedMs: u64,
                     maxRtMs: u32, maxRtSeenS: u32, maxRtSplit: bool, lease: Lease)

  const CLEARED: Ctx := Ctx(None, Idle, New, 0, 0, 0, 0, 0, 0, 0, 0, 0, 0, 0, 0, 0, false, NO_LEASE)

  /** What the random word of a tick comes to: a RAND, a transaction-id and a first delay. */
  datatype Word = Word(rand: Rand, xid: u32, delay: u32)

  /** A call's status, and whether its timer armed a transmission. */
  datatype Out = Out(status: Status, armed: bool)

  /** A new reading of the caller's clock taken in. */
  function At(c: Ctx, reading: u32): Ctx {
    var hi := Ms.HighAfter(c.tickMs, c.tickHi, reading);
    c.(tickMs := reading, tickHi := hi, now := Ms.Join(hi, reading))
  }

  // --- the parameters of each exchange ---------------------------------------------

  predicate Exchange(s: State) {
    s != Idle && s != Bound
  }

  function MsgFor(s: State): u8 {
    match s
    case Soliciting => SOLICIT
    case Requesting => REQUEST
    case Confirming => CONFIRM
    case Renewing => RENEW
    case Rebinding => REBIND
    case InfoRequesting => INFORMATION_REQUEST
    case Releasing => RELEASE
    case Declining => DECLINE
    case _ => 0
  }

  function Irt(s: State): u32 {
    if s == Renewing || s == Rebinding then 10_000 else if Exchange(s) then 1000 else 0
  }

  function Mrt(s: State, maxRtMs: u32): u32 {
    match s
    case Soliciting => maxRtMs
    case InfoRequesting => maxRtMs
    case Requesting => 30_000
    case Confirming => 4000
    case Renewing => 600_000
    case Rebinding => 600_000
    case _ => 0
  }

  function Mrc(s: State): u8 {
    match s
    case Requesting => 10
    case Releasing => 4
    case Declining => 4
    case _ => 0
  }

  /** Whether a first message is put off by a drawn delay. */
  predicate Delayed(s: State) {
    s == Soliciting || s == Confirming || s == InfoRequesting
  }

  // --- steps shared by the entries -------------------------------------------------

  function Begin(c: Ctx, s: State): Ctx {
    c.(state := s, phase := New, owed := 0, retries := 0, rt := 0, retryMs := c.now, startedMs := c.now,
       statusCode := 0)
  }

  function Forget(c: Ctx): Ctx {
    c.(lease := NO_LEASE)
  }

  function EnterBound(c: Ctx): Ctx {
    c.(state := Bound, phase := New, owed := 0, retries := 0, rt := 0)
  }

  /** The exchange over and the lease gone. */
  function GiveUp(c: Ctx): Ctx {
    Forget(c).(state := Idle, phase := New, owed := 0, rt := 0)
  }

  function Deadline(now: u64, seconds: u32): u64 {
    if seconds == INFINITY then now else Add64(now, Ms.FromSeconds(seconds))
  }

  /** The deadlines of the times a lease carries, counted from now (dhcp6_arm_lease). */
  function ArmLease(l: Lease, now: u64): Lease {
    l.(t1Ms := Deadline(now, l.t1S), infT1 := l.t1S == INFINITY,
       t2Ms := Deadline(now, l.t2S), infT2 := l.t2S == INFINITY,
       validMs := Deadline(now, l.validS), infValid := l.validS == INFINITY)
  }

  // --- taking options --------------------------------------------------------------

  function StatusOf(opts: seq<u8>): u16 {
    var d := Find(opts, OPT_STATUS_CODE);
    if d.None? || |d.value| < 2 then STATUS_SUCCESS else Rd16(d.value)
  }

  /** The value an override carries, when it is one a client may take. */
  function MaxRtOf(opts: seq<u8>, stateless: bool): Option<u32> {
    var d := Find(opts, if stateless then OPT_INF_MAX_RT else OPT_SOL_MAX_RT);
    if d.None? || |d.value| != 4 then None
    else if Rd32(d.value) < MAX_RT_MIN_S || Rd32(d.value) > MAX_RT_MAX_S then None
    else Some(Rd32(d.value))
  }

  /** An override followed until a second disagrees, after which the default holds (dhcp6_take_max_rt). */
  function TakeMaxRt(c: Ctx, opts: seq<u8>, stateless: bool): Ctx {
    var s := MaxRtOf(opts, stateless);
    if s.None? || c.maxRtSplit then c
    else if c.maxRtSeenS != 0 && c.maxRtSeenS != s.value then c.(maxRtSplit := true, maxRtMs := DEFAULT_MAX_RT_MS)
    else c.(maxRtSeenS := s.value, maxRtMs := Wrap32(s.value * 1000))
  }

  /** The server's DUID a message carries, of a length section 11.1 allows. */
  function ServerOf(opts: seq<u8>): Option<Duid> {
    var d := Find(opts, OPT_SERVERID);
    if d.None? || |d.value| < DUID_MIN || |d.value| > DUID_MAX then None else Some(d.value)
  }

  /** The server's DUID recorded (dhcp6_take_server_duid). */
  function TakeServer(c: Ctx, opts: seq<u8>): Ctx
    requires ServerOf(opts).Some?
  {
    c.(lease := c.lease.(server := ServerOf(opts).value))
  }

  predicate ClientIdMatches(cfg: Config, opts: seq<u8>) {
    Find(opts, OPT_CLIENTID) == Some(cfg.duid)
  }

  /** T1 and T2 as the server sent them, or picked from the preferred lifetime where it sent zero. */
  function PickTimes(t1: u32, t2: u32, preferred: u32): (u32, u32) {
    if preferred == INFINITY then (if t1 == 0 then INFINITY else t1, if t2 == 0 then INFINITY else t2)
    else
      var p1 := if t1 == 0 then preferred / 2 else t1;
      var p2 := if t2 == 0 then Wrap32(preferred / 2 + preferred / 4 + preferred / 32) else t2;
      (if p1 == 0 then PICKED_S else p1, if p2 == 0 then PICKED_S else p2)
  }

  /** An IA_NA this client may read a lease out of: its own, its times in order. */
  predicate IaUsable(ia: Option<Data>, iaid: u32) {
    && ia.Some? && |ia.value| >= IA_NA_FIXED_LEN && Rd32(ia.value) == iaid
    && var t1, t2 := Rd32(ia.value[4..]), Rd32(ia.value[8..]);
    !(t1 != 0 && t2 != 0 && t1 > t2)
  }

  predicate AddrUsable(a: Option<Data>) {
    && a.Some? && |a.value| >= IAADDR_FIXED_LEN
    && var preferred, valid := Rd32(a.value[16..]), Rd32(a.value[20..]);
    valid != 0 && preferred <= valid
  }

  /** The lease a message assigns, taken or refused whole but for the status it came with (dhcp6_take_lease). */
  function TakeLease(c: Ctx, opts: seq<u8>): (Ctx, bool) {
    var ia := Find(opts, OPT_IA_NA);
    if !IaUsable(ia, c.iaid) then (c, false)
    else
      var sub := ia.value[IA_NA_FIXED_LEN..];
      if StatusOf(sub) != STATUS_SUCCESS then (c.(statusCode := StatusOf(sub)), false)
      else if !AddrUsable(Find(sub, OPT_IAADDR)) then (c, false)
      else
        var a := Find(sub, OPT_IAADDR).value;
        var t := PickTimes(Rd32(ia.value[4..]), Rd32(ia.value[8..]), Rd32(a[16..]));
        (c.(lease := ArmLease(c.lease.(addr := a[..ADDR_LEN], preferredS := Rd32(a[16..]), validS := Rd32(a[20..]),
                                       t1S := t.0, t2S := t.1), c.now)), true)
  }

  function PrefOf(opts: seq<u8>): u8 {
    var p := Find(opts, OPT_PREFERENCE);
    if p.Some? && |p.value| >= 1 then p.value[0] else 0
  }

  /** An Advertise recorded over a worse one (dhcp6_take_advertise). */
  function TakeAdvertise(c: Ctx, opts: seq<u8>): (Ctx, bool) {
    var pref := PrefOf(opts);
    if (c.lease.haveAdv && pref <= c.lease.pref) || ServerOf(opts).None? then (c, false)
    else
      var t := TakeLease(c, opts);
      if !t.1 then t
      else (t.0.(lease := t.0.lease.(server := ServerOf(opts).value, pref := pref, haveAdv := true)), true)
  }

  function InfoRefreshOf(opts: seq<u8>): u32 {
    var d := Find(opts, OPT_INFO_REFRESH);
    if d.None? || |d.value| != 4 then IRT_DEFAULT_S
    else if Rd32(d.value) == INFINITY then INFINITY
    else if Rd32(d.value) < IRT_MINIMUM_S then IRT_MINIMUM_S
    else Rd32(d.value)
  }

  // --- one received message --------------------------------------------------------

  function XidOf(msg: seq<u8>): u32
    requires |msg| >= FIXED_LEN
  {
    (msg[1] as int * 0x100 + msg[2]) * 0x100 + msg[3]
  }

  /** The validation of sections 16.3 and 16.10. */
  predicate Accepted(c: Ctx, cfg: Config, msg: seq<u8>) {
    && |msg| >= FIXED_LEN && OptsOk(msg[FIXED_LEN..])
    && (msg[0] == ADVERTISE || msg[0] == REPLY)
    && Exchange(c.state) && XidOf(msg) == c.xid
    && Find(msg[FIXED_LEN..], OPT_SERVERID).Some?
    && ClientIdMatches(cfg, msg[FIXED_LEN..])
  }

  function OnAdvertise(c: Ctx, opts: seq<u8>): (Ctx, Status) {
    if c.state != Soliciting then (c, ERR)
    else
      var t := TakeAdvertise(c.(statusCode := StatusOf(opts)), opts);
      if !t.1 then (t.0, ERR)
      else if t.0.lease.pref == PREF_IMMEDIATE || t.0.retries > 1 then (Begin(t.0, Requesting), OK)
      else (t.0, OK)
  }

  function Restart(c: Ctx): Ctx {
    Begin(Forget(c), Soliciting)
  }

  function OnRapidReply(c: Ctx, cfg: Config, opts: seq<u8>): (Ctx, Status) {
    if !cfg.rapid || Find(opts, OPT_RAPID_COMMIT).None? || ServerOf(opts).None? then (c, ERR)
    else
      var t := TakeLease(TakeServer(c, opts), opts);
      if t.1 then (EnterBound(t.0), OK) else (t.0, ERR)
  }

  /** A Reply that assigned no lease: one that says NoBinding is asked again with a Request. */
  function OnNoLease(c: Ctx, opts: seq<u8>): (Ctx, Status) {
    if c.statusCode == STATUS_NO_BINDING && (c.state == Renewing || c.state == Rebinding) && ServerOf(opts).Some?
    then (Begin(TakeServer(c, opts), Requesting), OK)
    else (c, ERR)
  }

  function OnLeaseReply(c: Ctx, opts: seq<u8>, status: u16): (Ctx, Status) {
    if status == STATUS_NOT_ON_LINK then (Restart(c), OK)
    else if c.state == Rebinding && ServerOf(opts).None? then (c, ERR)
    else
      var d := if c.state == Rebinding then TakeServer(c, opts) else c;
      var t := TakeLease(d, opts);
      if t.1 then (EnterBound(t.0), OK) else OnNoLease(t.0, opts)
  }

  function OnInfoReply(c: Ctx, opts: seq<u8>): (Ctx, Status) {
    var l := c.lease.(t1S := InfoRefreshOf(opts), t2S := INFINITY, validS := INFINITY);
    (EnterBound(c.(lease := ArmLease(l, c.now))), OK)
  }

  function OnReply(c: Ctx, cfg: Config, opts: seq<u8>): (Ctx, Status) {
    var status := StatusOf(opts);
    var d := c.(statusCode := status);
    if status == STATUS_USE_MULTICAST then (d.(owed := MsgFor(d.state)), OK)
    else if status == STATUS_UNSPEC_FAIL then (d, ERR)
    else match d.state
      case Soliciting => OnRapidReply(d, cfg, opts)
      case Requesting => OnLeaseReply(d, opts, status)
      case Renewing => OnLeaseReply(d, opts, status)
      case Rebinding => OnLeaseReply(d, opts, status)
      case Confirming => (if status == STATUS_NOT_ON_LINK then Restart(d) else EnterBound(d), OK)
      case InfoRequesting => OnInfoReply(d, opts)
      case Releasing => (GiveUp(d), OK)
      case Declining => (GiveUp(d), OK)
      case _ => (d, ERR)
  }

  /** A received message, `None` when it or its source is missing (idemip_dhcp6_input). */
  function Input(c: Ctx, msg: Option<seq<u8>>): (Ctx, Status) {
    if c.cfg.None? || msg.None? || !Accepted(c, c.cfg.value, msg.value) then (c, ERR)
    else
      var cfg, opts := c.cfg.value, msg.value[FIXED_LEN..];
      var d := TakeMaxRt(c, opts, cfg.stateless);
      if msg.value[0] == ADVERTISE then OnAdvertise(d, opts) else OnReply(d, cfg, opts)
  }

  // --- the entries -----------------------------------------------------------------

  predicate Bindable(o: Option<Offered>) {
    o.Some? && o.value.duid.Some? && DUID_MIN <= |o.value.duid.value| <= DUID_MAX && o.value.netif < NETIF_COUNT
  }

  function Bind(c: Ctx, o: Option<Offered>): (Ctx, Status) {
    if !Bindable(o) then (c, ERR)
    else
      var v := o.value;
      (c.(cfg := Some(Config(v.duid.value, v.iaid, v.stateless, v.rapid)), state := Idle, iaid := v.iaid,
          maxRtMs := DEFAULT_MAX_RT_MS), OK)
  }

  function Start(c: Ctx, xid: u32, delay: u32, reading: u32): (Ctx, Status) {
    if c.cfg.None? || c.state != Idle then (c, ERR)
    else
      var d := Begin(At(c, reading), if c.cfg.value.stateless then InfoRequesting else Soliciting);
      (d.(xid := xid % 0x100_0000, retryMs := Add64(d.now, delay), phase := Delay), OK)
  }

  function Stop(c: Ctx): (Ctx, Status) {
    if c.cfg.None? then (c, ERR)
    else
      (Forget(c).(state := Idle, phase := New, owed := 0, retries := 0, rt := 0, statusCode := 0, maxRtSeenS := 0,
                  maxRtSplit := false, maxRtMs := DEFAULT_MAX_RT_MS), OK)
  }

  function Confirm(c: Ctx): (Ctx, Status) {
    if c.cfg.None? || c.cfg.value.stateless || !HasAddr(c.lease.addr) then (c, ERR) else (Begin(c, Confirming), OK)
  }

  /** A Release or a Decline. */
  function Return(c: Ctx, s: State): (Ctx, Status) {
    if c.cfg.None? || !HasAddr(c.lease.addr) || c.lease.server == [] then (c, ERR) else (Begin(c, s), OK)
  }

  /** What the context puts in a message. */
  function FieldsOf(c: Ctx, cfg: Config): Fields {
    Fields(c.xid, c.lease.server, cfg.duid, ElapsedCs((c.now - c.startedMs) % TWO_64), c.iaid, c.lease.addr, cfg.rapid)
  }

  /** The message owed, into a buffer of some capacity, `None` when there is no buffer (idemip_dhcp6_build). */
  function Build(c: Ctx, cap: Option<nat>): (Ctx, Status, seq<u8>) {
    if c.cfg.None? then (c, ERR, [])
    else if c.owed == 0 then (c, BUSY, [])
    else
      var msg := Message(c.owed, FieldsOf(c, c.cfg.value));
      if cap.None? || cap.value < FIXED_LEN || (WantsServer(c.owed) && c.lease.server == []) || |msg| > cap.value
      then (c, ERR, [])
      else (c.(owed := 0), OK, msg)
  }

  // --- the timer -------------------------------------------------------------------

  function ArmFirst(c: Ctx, rand: Rand): Ctx {
    var rt := FirstRt(Irt(c.state), rand, c.state == Soliciting);
    c.(startedMs := c.now, rt := rt, retryMs := Add64(c.now, rt), retries := 1, owed := MsgFor(c.state),
       phase := Running)
  }

  function ArmAgain(c: Ctx, rand: Rand): Ctx {
    var rt := NextRt(c.rt, Mrt(c.state, c.maxRtMs), rand);
    c.(rt := rt, retryMs := Add64(c.now, rt), retries := if c.retries < 0xFF then c.retries + 1 else c.retries,
       owed := MsgFor(c.state))
  }

  predicate MrdSpent(c: Ctx) {
    match c.state
    case Confirming => c.now >= Add64(c.startedMs, CNF_MAX_RD_MS)
    case Renewing => !c.lease.infT2 && c.now >= c.lease.t2Ms
    case Rebinding => !c.lease.infValid && c.now >= c.lease.validMs
    case _ => false
  }

  function Failed(c: Ctx): Ctx {
    match c.state
    case Confirming => EnterBound(c)
    case Renewing => Begin(c, Rebinding)
    case Rebinding => Restart(c)
    case Requesting => Restart(c)
    case _ => GiveUp(c)
  }

  function TickBound(c: Ctx, cfg: Config): (Ctx, Out) {
    if !c.lease.infValid && HasAddr(c.lease.addr) && c.now >= c.lease.validMs then (Restart(c), Out(OK, false))
    else if !c.lease.infT1 && c.now >= c.lease.t1Ms then
      (Begin(c, if cfg.stateless then InfoRequesting else Renewing), Out(OK, false))
    else (c, Out(BUSY, false))
  }

  /** The delay a first message is put off by, and the new transaction-id drawn with it. */
  function OpenExchange(c: Ctx, w: Word): Ctx {
    c.(xid := w.xid % 0x100_0000, retryMs := Add64(c.now, if Delayed(c.state) then w.delay else 0), phase := Delay)
  }

  /** A retransmission time reached with the first message already out. */
  function TickRunning(c: Ctx, rand: Rand): (Ctx, Out) {
    if c.state == Soliciting && c.lease.haveAdv then (Begin(c, Requesting), Out(OK, false))
    else if Mrc(c.state) != 0 && c.retries >= Mrc(c.state) then (Failed(c), Out(OK, false))
    else (ArmAgain(c, rand), Out(OK, true))
  }

  function TickExchange(c: Ctx, w: Word): (Ctx, Out) {
    if MrdSpent(c) then (Failed(c), Out(OK, false))
    else
      var d := if c.phase == New then OpenExchange(c, w) else c;
      if c.phase == New && Delayed(c.state) && w.delay != 0 then (d, Out(BUSY, false))
      else if d.now < d.retryMs then (d, Out(BUSY, false))
      else if d.phase == Delay then (ArmFirst(d, w.rand), Out(OK, true))
      else TickRunning(d, w.rand)
  }

  function Tick(c: Ctx, w: Word, reading: u32): (Ctx, Out) {
    if c.cfg.None? then (c, Out(ERR, false))
    else
      var d := At(c, reading);
      if d.state == Idle then (d, Out(BUSY, false))
      else if d.state == Bound then TickBound(d, d.cfg.value)
      else TickExchange(d, w)
  }
}
