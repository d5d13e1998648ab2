/**
 * The DHCPv6 client's context updated in place (src/dhcp/dhcp6.c), each entry one step of a run of Dhcp6Runs, so that
 * what every run keeps is an invariant of the object.
 */
module Dhcp6Client {
  import opened Words
  import opened Dhcp6Codec
  import opened Dhcp6Writer
  import opened Dhcp6Rt
  import D = Dhcp6
  import R = Dhcp6Runs
  import Ms

  /** The word rotated right by eleven. */
  function Rotate11(r: u32): u32 {
    r / 0x800 + (r % 0x800) * 0x20_0000
  }

  /** What a tick makes of its random word. */
  function WordOf(word: u32): D.Word {
    D.Word(RandOf(word), word, DelayOf(Rotate11(word)))
  }

  function DelayOf(word: u32): (delay: u32)
    ensures delay <= D.MAX_DELAY_MS
  {
    Draw(word, D.MAX_DELAY_MS)
  }

  method TakeWord(word: u32) returns (w: D.Word)
    ensures w == WordOf(word)
  {
    var rand := TakeRand(word);
    var delay := TakeDelay(Rotate11(word));
    w := D.Word(rand, word, delay);
  }

  method TakeRand(word: u32) returns (rand: Rand)
    ensures rand == RandOf(word)
  {
    rand := TakeJitter(word, RAND_K_MAX);
  }

  method TakeJitter(word: u32, most: u32) returns (j: Jitter)
    ensures j == JitterOf(word, most) && j.k <= most
  {
    var k := TakeDraw(word / 2, most);
    j := Jitter(k, word % 2 == 1);
  }

  method TakeDelay(word: u32) returns (delay: u32)
    ensures delay == DelayOf(word)
  {
    delay := TakeDraw(word, D.MAX_DELAY_MS);
  }

  class Client {
    var cfg: Option<D.Config>
    var state: D.State
    var phase: D.Phase
    var owed: u8
    var retries: u8
    var statusCode: u16
    var xid: u32
    var iaid: u32
    var now: u64
    var tickMs: u32
    var tickHi: u32
    var rt: u32
    var retryMs: u64
    var startedMs: u64
    var maxRtMs: u32
    var maxRtSeenS: u32
    var maxRtSplit: bool
    var lease: D.Lease

    ghost function View(): D.Ctx
      reads this
    {
      D.Ctx(cfg, state, phase, owed, retries, statusCode, xid, iaid, now, tickMs, tickHi, rt, retryMs, startedMs,
            maxRtMs, maxRtSeenS, maxRtSplit, lease)
    }

    /** The transmissions the running exchange has armed. */
    ghost var armed: seq<R.Armed>

    ghost function Run(): R.Run
      reads this
    {
      R.Run(View(), armed)
    }

    /** A server is recorded wherever one is needed, and what has been armed follows section 15. */
    ghost predicate Valid()
      reads this
    {
      R.RunInv(Run())
    }

    /** A zeroed borrow (idemip_dhcp6_clear). */
    constructor ()
      ensures Valid() && Run() == R.RunOf([])
    {
      armed := [];
      cfg, state, phase, owed, retries, statusCode := None, D.Idle, D.New, 0, 0, 0;
      xid, iaid, now, tickMs, tickHi := 0, 0, 0, 0, 0;
      rt, retryMs, startedMs := 0, 0, 0;
      maxRtMs, maxRtSeenS, maxRtSplit, lease := 0, 0, false, D.NO_LEASE;
      new;
      R.RunKeeps([]);
    }

    // --- steps shared by the entries -------------------------------------------------

    method ReadClock(reading: u32)
      modifies this
      ensures View() == D.At(old(View()), reading)
    {
      tickMs, tickHi, now := Ms.Extend(tickMs, tickHi, reading);
    }

    method Forget()
      modifies this`lease
      ensures View() == D.Forget(old(View()))
    {
      lease := D.NO_LEASE;
    }

    method Quieten()
      modifies this
      ensures View() == old(View()).(phase := D.New, owed := 0, retries := 0, rt := 0)
    {
      phase := D.New;
      owed := 0;
      retries := 0;
      rt := 0;
    }

    method Begin(s: D.State)
      modifies this
      ensures View() == D.Begin(old(View()), s)
    {
      state := s;
      Quieten();
      retryMs := now;
      startedMs := now;
      statusCode := 0;
    }

    method EnterBound()
      modifies this
      ensures View() == D.EnterBound(old(View()))
    {
      state := D.Bound;
      Quieten();
    }

    method GiveUp()
      modifies this
      ensures View() == D.GiveUp(old(View()))
    {
      Forget();
      state, phase, owed, rt := D.Idle, D.New, 0, 0;
    }

    method Restart()
      modifies this
      ensures View() == D.Restart(old(View()))
    {
      Forget();
      Begin(D.Soliciting);
    }

    /** The deadlines of the times the lease carries (dhcp6_arm_lease). */
    method ArmLease()
      modifies this`lease
      ensures lease == D.ArmLease(old(lease), now)
    {
      lease := lease.(infT1 := false, infT2 := false, infValid := false);
      if lease.t1S == D.INFINITY {
        lease := lease.(infT1 := true, t1Ms := now);
      } else {
        lease := lease.(t1Ms := Add64(now, Ms.FromSeconds(lease.t1S)));
      }
      if lease.t2S == D.INFINITY {
        lease := lease.(infT2 := true, t2Ms := now);
      } else {
        lease := lease.(t2Ms := Add64(now, Ms.FromSeconds(lease.t2S)));
      }
      if lease.validS == D.INFINITY {
        lease := lease.(infValid := true, validMs := now);
      } else {
        lease := lease.(validMs := Add64(now, Ms.FromSeconds(lease.validS)));
      }
    }

    // --- taking options --------------------------------------------------------------

    method TakeMaxRt(opts: seq<u8>, stateless: bool)
      modifies this
      ensures View() == D.TakeMaxRt(old(View()), opts, stateless)
    {
      var at, len := FindAt(opts, if stateless then OPT_INF_MAX_RT else OPT_SOL_MAX_RT);
      if at.None? || len != 4 {
        return;
      }
      var s := Rd32(opts[at.value..at.value + len]);
      if s < D.MAX_RT_MIN_S || s > D.MAX_RT_MAX_S || maxRtSplit {
        return;
      }
      if maxRtSeenS != 0 && maxRtSeenS != s {
        maxRtSplit, maxRtMs := true, D.DEFAULT_MAX_RT_MS;
        return;
      }
      maxRtSeenS, maxRtMs := s, Wrap32(s * 1000);
    }

    method StatusIn(opts: seq<u8>) returns (status: u16)
      ensures status == D.StatusOf(opts)
    {
      var at, len := FindAt(opts, OPT_STATUS_CODE);
      if at.None? || len < 2 {
        return D.STATUS_SUCCESS;
      }
      return Rd16(opts[at.value..at.value + len]);
    }

    method TakeServer(opts: seq<u8>) returns (ok: bool)
      modifies this`lease
      ensures ok == D.ServerOf(opts).Some?
      ensures View() == if ok then D.TakeServer(old(View()), opts) else old(View())
    {
      var at, len := FindAt(opts, OPT_SERVERID);
      if at.None? || len < D.DUID_MIN || len > DUID_MAX {
        return false;
      }
      lease := lease.(server := opts[at.value..at.value + len]);
      return true;
    }

    /** The lease a message assigns (dhcp6_take_lease). */
    method TakeLease(opts: seq<u8>) returns (ok: bool)
      modifies this
      ensures (View(), ok) == D.TakeLease(old(View()), opts)
    {
      var at, len := FindAt(opts, OPT_IA_NA);
      if at.None? || len < IA_NA_FIXED_LEN {
        return false;
      }
      var ia := opts[at.value..at.value + len];
      if Rd32(ia) != iaid {
        return false;
      }
      var t1, t2 := Rd32(ia[4..]), Rd32(ia[8..]);
      if t1 != 0 && t2 != 0 && t1 > t2 {
        return false;
      }
      var sub := ia[IA_NA_FIXED_LEN..];
      var status := StatusIn(sub);
      if status != D.STATUS_SUCCESS {
        statusCode := status;
        return false;
      }
      var from, alen := FindAt(sub, OPT_IAADDR);
      if from.None? || alen < IAADDR_FIXED_LEN {
        return false;
      }
      var a := sub[from.value..from.value + alen];
      var preferred, valid := Rd32(a[16..]), Rd32(a[20..]);
      if valid == 0 || preferred > valid {
        return false;
      }
      TakeAddress(a[..ADDR_LEN], preferred, valid, t1, t2);
      return true;
    }

    /** An address and its lifetimes taken, its times picked where none were sent, and their deadlines set. */
    method TakeAddress(addr: Address, preferred: u32, valid: u32, t1: u32, t2: u32)
      modifies this`lease
      ensures var t := D.PickTimes(t1, t2, preferred);
              var l := old(lease).(addr := addr, preferredS := preferred, validS := valid, t1S := t.0, t2S := t.1);
              lease == D.ArmLease(l, now)
    {
      var p1, p2 := PickTimes(t1, t2, preferred);
      lease := lease.(addr := addr, preferredS := preferred, validS := valid, t1S := p1, t2S := p2);
      ArmLease();
    }

    method PickTimes(t1: u32, t2: u32, preferred: u32) returns (p1: u32, p2: u32)
      ensures (p1, p2) == D.PickTimes(t1, t2, preferred)
    {
      p1, p2 := t1, t2;
      if p1 == 0 || p2 == 0 {
        if preferred == D.INFINITY {
          if p1 == 0 {
            p1 := D.INFINITY;
          }
          if p2 == 0 {
            p2 := D.INFINITY;
          }
        } else {
          if p1 == 0 {
            p1 := preferred / 2;
          }
          if p2 == 0 {
            p2 := Wrap32(preferred / 2 + preferred / 4 + preferred / 32);
          }
          if p1 == 0 {
            p1 := D.PICKED_S;
          }
          if p2 == 0 {
            p2 := D.PICKED_S;
          }
        }
      }
    }

    /** An Advertise recorded over a worse one (dhcp6_take_advertise). */
    method TakeAdvertise(opts: seq<u8>) returns (ok: bool)
      modifies this
      ensures (View(), ok) == D.TakeAdvertise(old(View()), opts)
    {
      var p, plen := FindAt(opts, OPT_PREFERENCE);
      var pref := if p.Some? && plen >= 1 then opts[p.value] else 0;
      if lease.haveAdv && pref <= lease.pref {
        return false;
      }
      var s, slen := FindAt(opts, OPT_SERVERID);
      if s.None? || slen < D.DUID_MIN || slen > DUID_MAX {
        return false;
      }
      ok := TakeLease(opts);
      if !ok {
        return;
      }
      lease := lease.(server := opts[s.value..s.value + slen], pref := pref, haveAdv := true);
    }

    method InfoRefreshIn(opts: seq<u8>) returns (s: u32)
      ensures s == D.InfoRefreshOf(opts)
    {
      var at, len := FindAt(opts, OPT_INFO_REFRESH);
      if at.None? || len != 4 {
        return D.IRT_DEFAULT_S;
      }
      s := Rd32(opts[at.value..at.value + len]);
      if s == D.INFINITY {
        return;
      }
      s := if s < D.IRT_MINIMUM_S then D.IRT_MINIMUM_S else s;
    }

    // --- one received message --------------------------------------------------------

    method OnAdvertise(opts: seq<u8>, status: u16) returns (answer: Status)
      requires status == D.StatusOf(opts)
      modifies this
      ensures (View(), answer) == D.OnAdvertise(old(View()), opts)
    {
      if state != D.Soliciting {
        return ERR;
      }
      statusCode := status;
      var ok := TakeAdvertise(opts);
      if !ok {
        return ERR;
      }
      if lease.pref == D.PREF_IMMEDIATE || retries > 1 {
        Begin(D.Requesting);
      }
      return OK;
    }

    method OnRapidReply(rapid: bool, opts: seq<u8>, ghost c: D.Config) returns (answer: Status)
      requires c.rapid == rapid
      modifies this
      ensures (View(), answer) == D.OnRapidReply(old(View()), c, opts)
    {
      var at, _ := FindAt(opts, OPT_RAPID_COMMIT);
      if !rapid || at.None? {
        return ERR;
      }
      var ok := TakeServer(opts);
      if ok {
        ok := TakeLease(opts);
      }
      if !ok {
        return ERR;
      }
      EnterBound();
      return OK;
    }

    method OnLeaseReply(opts: seq<u8>, status: u16) returns (answer: Status)
      modifies this
      ensures (View(), answer) == D.OnLeaseReply(old(View()), opts, status)
    {
      if status == D.STATUS_NOT_ON_LINK {
        Restart();
        return OK;
      }
      if state == D.Rebinding {
        var ok := TakeServer(opts);
        if !ok {
          return ERR;
        }
      }
      var ok := TakeLease(opts);
      if !ok {
        answer := OnNoLease(opts);
        return;
      }
      EnterBound();
      return OK;
    }

    method OnNoLease(opts: seq<u8>) returns (answer: Status)
      modifies this
      ensures (View(), answer) == D.OnNoLease(old(View()), opts)
    {
      if statusCode == D.STATUS_NO_BINDING && (state == D.Renewing || state == D.Rebinding) {
        var ok := TakeServer(opts);
        if ok {
          Begin(D.Requesting);
          return OK;
        }
      }
      return ERR;
    }

    method OnInfoReply(opts: seq<u8>) returns (answer: Status)
      modifies this
      ensures (View(), answer) == D.OnInfoReply(old(View()), opts)
    {
      var t1 := InfoRefreshIn(opts);
      lease := lease.(t1S := t1, t2S := D.INFINITY, validS := D.INFINITY);
      ArmLease();
      EnterBound();
      return OK;
    }

    method OnReply(opts: seq<u8>, status: u16, c: D.Config) returns (answer: Status)
      requires status == D.StatusOf(opts)
      modifies this
      ensures (View(), answer) == D.OnReply(old(View()), c, opts)
    {
      statusCode := status;
      if status == D.STATUS_USE_MULTICAST {
        owed := D.MsgFor(state);
        return OK;
      }
      if status == D.STATUS_UNSPEC_FAIL {
        return ERR;
      }
      if state == D.Soliciting {
        answer := OnRapidReply(c.rapid, opts, c);
      } else if state == D.Requesting || state == D.Renewing || state == D.Rebinding {
        answer := OnLeaseReply(opts, status);
      } else if state == D.Confirming {
        if status == D.STATUS_NOT_ON_LINK {
          Restart();
        } else {
          EnterBound();
        }
        answer := OK;
      } else if state == D.InfoRequesting {
        answer := OnInfoReply(opts);
      } else if state == D.Releasing || state == D.Declining {
        GiveUp();
        answer := OK;
      } else {
        answer := ERR;
      }
    }

    /** The checks of sections 16.3 and 16.10, before anything is changed. */
    method Accept(msg: seq<u8>, c: D.Config) returns (ok: bool)
      ensures ok == D.Accepted(View(), c, msg)
    {
      if |msg| < FIXED_LEN {
        return false;
      }
      var opts := msg[FIXED_LEN..];
      var sound := CheckOpts(opts);
      if !sound || (msg[0] != ADVERTISE && msg[0] != REPLY) {
        return false;
      }
      if state == D.Idle || state == D.Bound || D.XidOf(msg) != xid {
        return false;
      }
      var server, _ := FindAt(opts, OPT_SERVERID);
      if server.None? {
        return false;
      }
      var at, len := FindAt(opts, OPT_CLIENTID);
      if at.None? || len != |c.duid| {
        return false;
      }
      return opts[at.value..at.value + len] == c.duid;
    }

    /** A message past its checks: the override it carries, then what its type says. */
    method Heard(msg: seq<u8>, c: D.Config) returns (answer: Status)
      requires cfg == Some(c) && D.Accepted(View(), c, msg)
      modifies this
      ensures (View(), answer) == D.Input(old(View()), Some(msg))
    {
      var opts := msg[FIXED_LEN..];
      TakeMaxRt(opts, c.stateless);
      var status := StatusIn(opts);
      if msg[0] == ADVERTISE {
        answer := OnAdvertise(opts, status);
      } else {
        answer := OnReply(opts, status, c);
      }
    }

    /** One received message (idemip_dhcp6_input). */
    method Input(msg: Option<seq<u8>>) returns (answer: Status)
      requires Valid()
      modifies this
      ensures Valid() && answer == D.Input(old(View()), msg).1
      ensures Run() == R.Booked(old(Run()), D.Input(old(View()), msg).0, false)
    {
      ghost var next := R.Booked(Run(), D.Input(View(), msg).0, false);
      R.InputBooked(Run(), msg);
      answer := ERR;
      if cfg.Some? && msg.Some? {
        var ok := Accept(msg.value, cfg.value);
        if ok {
          answer := Heard(msg.value, cfg.value);
        }
      }
      armed := next.sent;
      assert Run() == next;
    }

    // --- the entries -----------------------------------------------------------------

    /** What the caller offered, kept. */
    method Configure(v: D.Offered)
      requires D.Bindable(Some(v))
      modifies this
      ensures (View(), OK) == D.Bind(old(View()), Some(v))
    {
      cfg := Some(D.Config(v.duid.value, v.iaid, v.stateless, v.rapid));
      state, iaid, maxRtMs := D.Idle, v.iaid, D.DEFAULT_MAX_RT_MS;
    }

    method Bind(offered: Option<D.Offered>) returns (answer: Status)
      requires Valid()
      modifies this
      ensures Valid() && Run() == R.Booked(old(Run()), D.Bind(old(View()), offered).0, false)
      ensures answer == D.Bind(old(View()), offered).1
    {
      ghost var next := R.Booked(Run(), D.Bind(View(), offered).0, false);
      R.BindBooked(Run(), offered);
      answer := ERR;
      if offered.Some? && offered.value.duid.Some? && offered.value.netif < NETIF_COUNT
         && D.DUID_MIN <= |offered.value.duid.value| <= DUID_MAX {
        Configure(offered.value);
        answer := OK;
      }
      armed := next.sent;
      assert Run() == next;
    }

    /** The first exchange opened, its first message put off by a delay. */
    method Open(id: u32, delay: u32, reading: u32) returns (answer: Status)
      modifies this
      ensures (View(), answer) == D.Start(old(View()), id, delay, reading)
    {
      if cfg.None? || state != D.Idle {
        return ERR;
      }
      ReadClock(reading);
      Begin(if cfg.value.stateless then D.InfoRequesting else D.Soliciting);
      PutOff(id, delay);
      return OK;
    }

    method StartAfter(id: u32, delay: u32, reading: u32) returns (answer: Status)
      requires Valid()
      modifies this
      ensures Valid() && answer == D.Start(old(View()), id, delay, reading).1
      ensures Run() == R.Booked(old(Run()), D.Start(old(View()), id, delay, reading).0, false)
    {
      R.StartBooked(Run(), id, delay, reading);
      answer := Open(id, delay, reading);
      armed := R.Booked(old(Run()), View(), false).sent;
    }

    method Start(id: u32, rand: u32, reading: u32) returns (answer: Status)
      requires Valid()
      modifies this
      ensures Valid() && answer == D.Start(old(View()), id, DelayOf(rand), reading).1
      ensures Run() == R.Booked(old(Run()), D.Start(old(View()), id, DelayOf(rand), reading).0, false)
    {
      var delay := TakeDelay(rand);
      answer := StartAfter(id, delay, reading);
    }

    /** A transaction-id taken and the first message put off. */
    method PutOff(id: u32, delay: u32)
      modifies this
      ensures View() == old(View()).(xid := id % 0x100_0000, retryMs := Add64(old(now), delay), phase := D.Delay)
    {
      xid := id % 0x100_0000;
      retryMs := Add64(now, delay);
      phase := D.Delay;
    }

    /** Everything let go: the lease, the exchange, and the override of its times. */
    method Reset()
      requires cfg.Some?
      modifies this
      ensures (View(), OK) == D.Stop(old(View()))
    {
      GiveUp();
      retries := 0;
      statusCode := 0;
      maxRtSeenS := 0;
      maxRtSplit := false;
      maxRtMs := D.DEFAULT_MAX_RT_MS;
    }

    method Stop() returns (answer: Status)
      requires Valid()
      modifies this
      ensures Valid() && answer == D.Stop(old(View())).1
      ensures Run() == R.Booked(old(Run()), D.Stop(old(View())).0, false)
    {
      ghost var next := R.Booked(Run(), D.Stop(View()).0, false);
      R.StopBooked(Run());
      answer := ERR;
      if cfg.Some? {
        Reset();
        answer := OK;
      }
      armed := next.sent;
      assert Run() == next;
    }

    method Confirm() returns (answer: Status)
      requires Valid()
      modifies this
      ensures Valid() && answer == D.Confirm(old(View())).1
      ensures Run() == R.Booked(old(Run()), D.Confirm(old(View())).0, false)
    {
      ghost var next := R.Booked(Run(), D.Confirm(View()).0, false);
      R.ConfirmBooked(Run());
      answer := ERR;
      if cfg.Some? && !cfg.value.stateless && HasAddr(lease.addr) {
        Begin(D.Confirming);
        answer := OK;
      }
      armed := next.sent;
      assert Run() == next;
    }

    method Release() returns (answer: Status)
      requires Valid()
      modifies this
      ensures Valid() && answer == D.Return(old(View()), D.Releasing).1
      ensures Run() == R.Booked(old(Run()), D.Return(old(View()), D.Releasing).0, false)
    {
      ghost var next := R.Booked(Run(), D.Return(View(), D.Releasing).0, false);
      R.ReturnBooked(Run(), D.Releasing);
      answer := ERR;
      if cfg.Some? && HasAddr(lease.addr) && lease.server != [] {
        Begin(D.Releasing);
        answer := OK;
      }
      armed := next.sent;
      assert Run() == next;
    }

    method Decline() returns (answer: Status)
      requires Valid()
      modifies this
      ensures Valid() && answer == D.Return(old(View()), D.Declining).1
      ensures Run() == R.Booked(old(Run()), D.Return(old(View()), D.Declining).0, false)
    {
      ghost var next := R.Booked(Run(), D.Return(View(), D.Declining).0, false);
      R.ReturnBooked(Run(), D.Declining);
      answer := ERR;
      if cfg.Some? && HasAddr(lease.addr) && lease.server != [] {
        Begin(D.Declining);
        answer := OK;
      }
      armed := next.sent;
      assert Run() == next;
    }

    /** The message owed laid down, whole or not at all. */
    method Lay(out: array?<u8>, cap: nat) returns (answer: Status, len: nat)
      requires out != null ==> cap <= out.Length
      modifies this, out
      ensures var (c, status, msg) := D.Build(old(View()), if out == null then None else Some(cap));
              View() == c && answer == status && len == |msg| && (answer == OK ==> out != null && out[..len] == msg)
      ensures out != null ==> forall j :: cap <= j < out.Length ==> out[j] == old(out[j])
    {
      len := 0;
      if cfg.None? {
        return ERR, 0;
      }
      if owed == 0 {
        return BUSY, 0;
      }
      if out == null || cap < FIXED_LEN {
        return ERR, 0;
      }
      var f := Fields(xid, lease.server, cfg.value.duid, ElapsedCs((now - startedMs) % TWO_64), iaid, lease.addr,
                      cfg.value.rapid);
      var n := Write(out, cap, owed, f);
      if n == 0 {
        return ERR, 0;
      }
      owed := 0;
      return OK, n;
    }

    /**
     * The message owed, into the caller's buffer (idemip_dhcp6_build). It answers ERR exactly when nothing is bound,
     * or something is owed and the buffer is missing or short.
     */
    method Build(out: array?<u8>, cap: nat) returns (answer: Status, len: nat)
      requires Valid() && (out != null ==> cap <= out.Length)
      modifies this, out
      ensures Valid() && Run() == old(Run()).(c := D.Build(old(View()), if out == null then None else Some(cap)).0)
      ensures answer == OK ==>
        && out != null && len <= cap && old(cfg).Some?
        && out[..len] == Message(old(owed), D.FieldsOf(old(View()), old(cfg).value))
      ensures answer == ERR <==>
        || old(cfg).None?
        || (old(owed) != 0 && (out == null || cap < |Message(old(owed), D.FieldsOf(old(View()), old(cfg).value))|))
      ensures out != null ==> forall j :: cap <= j < out.Length ==> out[j] == old(out[j])
    {
      R.BuildKeeps(Run(), if out == null then None else Some(cap));
      answer, len := Lay(out, cap);
      armed := old(armed);
    }

    // --- the timer -------------------------------------------------------------------

    method SetRt(t: u32)
      modifies this`rt, this`retryMs
      ensures rt == t && retryMs == Add64(now, t)
    {
      rt := t;
      retryMs := Add64(now, t);
    }

    method ArmFirst(rand: Rand)
      modifies this
      ensures View() == D.ArmFirst(old(View()), rand)
    {
      startedMs := now;
      SetRt(FirstRt(D.Irt(state), rand, state == D.Soliciting));
      retries, owed, phase := 1, D.MsgFor(state), D.Running;
    }

    method ArmAgain(rand: Rand)
      modifies this
      ensures View() == D.ArmAgain(old(View()), rand)
    {
      SetRt(NextRt(rt, D.Mrt(state, maxRtMs), rand));
      if retries < 0xFF {
        retries := retries + 1;
      }
      owed := D.MsgFor(state);
    }

    /** What an exchange does when its MRC or MRD runs out (dhcp6_exchange_failed). */
    method Fail()
      modifies this
      ensures View() == D.Failed(old(View()))
    {
      match state {
        case Confirming => EnterBound();
        case Renewing => Begin(D.Rebinding);
        case Rebinding => Restart();
        case Requesting => Restart();
        case _ => GiveUp();
      }
    }

    method MrdSpent() returns (spent: bool)
      ensures spent == D.MrdSpent(View())
    {
      match state {
        case Confirming => spent := now >= Add64(startedMs, D.CNF_MAX_RD_MS);
        case Renewing => spent := !lease.infT2 && now >= lease.t2Ms;
        case Rebinding => spent := !lease.infValid && now >= lease.validMs;
        case _ => spent := false;
      }
    }

    method TickBound(stateless: bool, ghost c: D.Config) returns (out: D.Out)
      requires c.stateless == stateless
      modifies this
      ensures (View(), out) == D.TickBound(old(View()), c)
    {
      if !lease.infValid && HasAddr(lease.addr) && now >= lease.validMs {
        Restart();
        return D.Out(OK, false);
      }
      if !lease.infT1 && now >= lease.t1Ms {
        Begin(if stateless then D.InfoRequesting else D.Renewing);
        return D.Out(OK, false);
      }
      return D.Out(BUSY, false);
    }

    method TickRunning(rand: Rand) returns (out: D.Out)
      modifies this
      ensures (View(), out) == D.TickRunning(old(View()), rand)
    {
      if state == D.Soliciting && lease.haveAdv {
        Begin(D.Requesting);
        return D.Out(OK, false);
      }
      var mrc := D.Mrc(state);
      if mrc != 0 && retries >= mrc {
        Fail();
        return D.Out(OK, false);
      }
      ArmAgain(rand);
      return D.Out(OK, true);
    }

    method TickExchange(w: D.Word) returns (out: D.Out)
      modifies this
      ensures (View(), out) == D.TickExchange(old(View()), w)
    {
      var spent := MrdSpent();
      if spent {
        Fail();
        return D.Out(OK, false);
      }
      if phase == D.New {
        var delay := if D.Delayed(state) then w.delay else 0;
        PutOff(w.xid, delay);
        if delay != 0 {
          return D.Out(BUSY, false);
        }
      }
      if now < retryMs {
        return D.Out(BUSY, false);
      }
      if phase == D.Delay {
        ArmFirst(w.rand);
        return D.Out(OK, true);
      }
      out := TickRunning(w.rand);
    }

    /** The clock read, and what its state has due. */
    method Due(w: D.Word, reading: u32) returns (out: D.Out)
      modifies this
      ensures (View(), out) == D.Tick(old(View()), w, reading)
    {
      if cfg.None? {
        return D.Out(ERR, false);
      }
      ReadClock(reading);
      if state == D.Idle {
        return D.Out(BUSY, false);
      }
      if state == D.Bound {
        out := TickBound(cfg.value.stateless, cfg.value);
        return;
      }
      out := TickExchange(w);
    }

    /** One tick over what its random word came to. */
    method TickOver(w: D.Word, reading: u32) returns (out: D.Out)
      requires Valid()
      modifies this
      ensures Valid() && out == D.Tick(old(View()), w, reading).1
      ensures Run() == R.Booked(old(Run()), D.Tick(old(View()), w, reading).0, out.armed)
    {
      R.TickBooked(Run(), w, reading);
      out := Due(w, reading);
      armed := R.Booked(old(Run()), View(), out.armed).sent;
    }

    /** The retransmission timer and the lease's deadlines (idemip_dhcp6_tick). */
    method Tick(rand: u32, reading: u32) returns (out: D.Out)
      requires Valid()
      modifies this
      ensures Valid() && out == D.Tick(old(View()), WordOf(rand), reading).1
      ensures Run() == R.Booked(old(Run()), D.Tick(old(View()), WordOf(rand), reading).0, out.armed)
    {
      var w := TakeWord(rand);
      out := TickOver(w, reading);
    }
  }
}
