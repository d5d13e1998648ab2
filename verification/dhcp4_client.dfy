/**
 * The DHCPv4 machine's context updated in place (src/dhcp/dhcp4.c), each entry one event of a run of Dhcp4Runs, so
 * that what every run keeps is an invariant of the object.
 */
module Dhcp4Client {
  import opened Words
  import opened Dhcp4Options
  import opened Dhcp4Writer
  import D = Dhcp4
  import R = Dhcp4Runs
  import Ms

  /** A value in 0 to `span` from two fields of a word, or half of it; `size` is a power of two (dhcp4_draw). */
  function Draw(rand: u32, span: u32, size: u32): (v: u32)
    requires size > 0
    ensures v <= span
  {
    if rand % size <= span then rand % size
    else if rand / TWO_16 % size <= span then rand / TWO_16 % size
    else span / 2
  }

  function JitterOf(rand: u32): (jitter: u32)
    ensures jitter <= 2 * D.JITTER_MS
  {
    Draw(rand, 2 * D.JITTER_MS, 0x800)
  }

  function DelayOf(rand: u32): u32 {
    Draw(rand, D.START_DELAY_MAX_MS - D.START_DELAY_MIN_MS, 0x4000)
  }

  class Client {
    var cfg: Option<D.Config>
    var state: D.State
    var owed: u8
    var sent: u8
    var retries: u8
    var secs: u16
    var xid: u32
    var now: u64
    var tickMs: u32
    var tickHi: u32
    var retryMs: u64
    var sentMs: u64
    var lease: D.Lease

    ghost function View(): D.Ctx
      reads this
    {
      D.Ctx(cfg, state, owed, sent, retries, secs, xid, now, tickMs, tickHi, retryMs, sentMs, lease)
    }

    /** The true time the clock was last read at, and whether no reading came 2^32 ms after the last. */
    ghost var last: nat
    ghost var close: bool

    ghost function Run(): R.Run
      reads this
    {
      R.Run(View(), last, close)
    }

    /** The deadlines of a lease are in order, no state was entered before its time, and the clock is not ahead. */
    ghost predicate Valid()
      reads this
    {
      R.RunInv(Run())
    }

    /** A zeroed borrow (idemip_dhcp4_clear). */
    constructor ()
      ensures Valid() && Run() == R.RunOf([])
    {
      last, close := 0, true;
      cfg, state, owed, sent, retries, secs := None, D.Init, 0, 0, 0, 0;
      xid, now, tickMs, tickHi, retryMs, sentMs, lease := 0, 0, 0, 0, 0, 0, D.NO_LEASE;
    }

    method ReadClock(reading: u32)
      modifies this
      ensures View() == D.At(old(View()), reading)
    {
      tickMs, tickHi, now := Ms.Extend(tickMs, tickHi, reading);
    }

    /** Back to INIT holding nothing (dhcp4_halt). */
    method Halt()
      modifies this
      ensures View() == D.Halt(old(View()))
    {
      state, owed, sent, retries, secs := D.Init, 0, 0, 0, 0;
      sentMs := 0;
      lease := D.NO_LEASE;
    }

    // --- one received message --------------------------------------------------------

    method Adopt(o: Opts)
      modifies this`lease
      ensures lease == D.Adopt(old(lease), o)
    {
      if o.mask.Some? {
        lease := lease.(mask := o.mask.value);
      }
      if o.router.Some? {
        lease := lease.(router := o.router.value);
      }
      if o.server.Some? {
        lease := lease.(server := o.server.value);
      }
    }

    method Times(seconds: u32, o: Opts) returns (t1: u32, t2: u32)
      ensures (t1, t2) == D.TimesOf(seconds, o)
    {
      t1, t2 := seconds / 2, seconds - seconds / 8;
      if D.Timed(seconds) {
        var want1 := if o.t1.Some? then o.t1.value else t1;
        var want2 := if o.t2.Some? then o.t2.value else t2;
        if want1 < want2 && want2 < seconds {
          t1, t2 := want1, want2;
        }
      } else {
        t1, t2 := seconds, seconds;
      }
    }

    /** The lease a DHCPACK carried (dhcp4_lease). */
    method TakeLease(o: Opts, yiaddr: u32)
      modifies this
      ensures View() == D.Leased(old(View()), o, yiaddr)
    {
      var seconds := if o.lease.Some? then o.lease.value else lease.leaseS;
      var t1, t2 := Times(seconds, o);
      lease := D.Dated(lease.(ip := yiaddr), sentMs, seconds, t1, t2);
      state, owed, sent, retries := D.Bound, 0, 0, 0;
      retryMs := now;
    }

    method OnOffer(o: Opts, yiaddr: u32) returns (answer: Status)
      modifies this
      ensures (View(), answer) == D.OnOffer(old(View()), o, yiaddr)
    {
      if state != D.Selecting || o.server.None? {
        return ERR;
      }
      Adopt(o);
      if o.lease.Some? {
        lease := lease.(leaseS := o.lease.value);
      }
      lease := lease.(ip := yiaddr);
      state, retries, sent, owed := D.Requesting, 0, 0, REQUEST;
      return OK;
    }

    method OnAck(o: Opts, yiaddr: u32) returns (answer: Status)
      modifies this
      ensures (View(), answer) == D.OnAck(old(View()), o, yiaddr)
    {
      if sent == INFORM {
        Adopt(o);
        sent, owed, retries := 0, 0, 0;
        return OK;
      }
      if state != D.Requesting && state != D.Rebooting && state != D.Renewing && state != D.Rebinding {
        return ERR;
      }
      Adopt(o);
      TakeLease(o, yiaddr);
      return OK;
    }

    method OnNak() returns (answer: Status)
      modifies this
      ensures (View(), answer) == D.OnNak(old(View()))
    {
      if state != D.Requesting && state != D.Rebooting && state != D.Renewing && state != D.Rebinding {
        return ERR;
      }
      Halt();
      return OK;
    }

    /** The tests on the header of a reply, in order (the start of dhcp4_take). */
    method Addressed(msg: seq<u8>, c: D.Config) returns (ok: bool)
      ensures ok == D.Addressed(View(), c, msg)
    {
      if |msg| < MSG_LEN || msg[0] != D.OP_BOOTREPLY {
        return false;
      }
      if Rd32(msg[OFF_COOKIE..]) != MAGIC_COOKIE || Rd32(msg[4..]) != xid {
        return false;
      }
      if msg[1] != c.htype || msg[2] != |c.chaddr| {
        return false;
      }
      return msg[28..28 + |c.chaddr|] == c.chaddr;
    }

    /** One received message (idemip_dhcp4_input). A message refused changes nothing. */
    method Input(msg: Option<seq<u8>>) returns (answer: Status)
      requires Valid()
      modifies this
      ensures Valid() && last == old(last) && close == old(close)
      ensures (View(), answer) == D.Input(old(View()), msg)
      ensures answer == ERR ==> View() == old(View())
    {
      R.QuietKeeps(View(), R.OpInput(msg), 0);
      if cfg.None? || msg.None? {
        return ERR;
      }
      var ok := Addressed(msg.value, cfg.value);
      if !ok {
        return ERR;
      }
      var o := Parse(msg.value);
      if o.None? {
        return ERR;
      }
      answer := Hear(o.value, Rd32(msg.value[16..]));
      last, close := old(last), old(close);
    }

    method Hear(o: Opts, yiaddr: u32) returns (answer: Status)
      modifies this
      ensures (View(), answer) == D.Heard(old(View()), o, yiaddr)
    {
      if o.kind == Some(OFFER) {
        answer := OnOffer(o, yiaddr);
      } else if o.kind == Some(ACK) {
        answer := OnAck(o, yiaddr);
      } else if o.kind == Some(NAK) {
        answer := OnNak();
      } else {
        answer := ERR;
      }
    }

    // --- building --------------------------------------------------------------------

    method Backoff(rand: u32) returns (ms: u32)
      ensures ms == D.Backoff(View(), JitterOf(rand))
    {
      var base;
      if state == D.Renewing {
        base := D.HalfLeft(now, lease.t2Ms, D.Timed(lease.t2S));
      } else if state == D.Rebinding {
        base := D.HalfLeft(now, lease.expireMs, D.Timed(lease.leaseS));
      } else {
        var shift := if retries < 4 then retries else 4;
        base := D.RETRY_BASE_MS * D.Shifted(shift);
      }
      ms := Wrap32(base - D.JITTER_MS + JitterOf(rand));
      if (state == D.Renewing || state == D.Rebinding) && ms < D.RENEW_MIN_MS {
        ms := D.RENEW_MIN_MS;
      }
    }

    /** What Tables 4 and 5 of RFC 2131 put in the message owed (the switch of dhcp4_write). */
    method Plan(c: D.Config) returns (f: Fixed, a: Asked, dst: u32)
      ensures f == D.FixedIn(View(), c) && a == D.AskedIn(View(), c) && dst == D.Destination(View())
    {
      var renewing := state == D.Renewing || state == D.Rebinding;
      var ciaddr, server, requested, wantLease, hints, flag := false, false, false, false, false, false;
      var elapsed := secs;
      dst := D.BROADCAST;
      if owed == DISCOVER {
        wantLease, hints, flag := true, true, true;
      } else if owed == REQUEST {
        server, requested := state == D.Requesting, !renewing;
        wantLease, hints, ciaddr, flag := true, true, renewing, !renewing;
        if state == D.Renewing {
          dst := lease.server;
        }
      } else if owed == DECLINE {
        server, requested, elapsed := true, true, 0;
      } else if owed == RELEASE {
        server, ciaddr, elapsed, dst := true, true, 0, lease.server;
      } else {
        ciaddr, hints := true, true;
        if lease.server != 0 {
          dst := lease.server;
        }
      }
      f := Fixed(c.htype, c.chaddr, xid, elapsed, if c.broadcast && flag then FLAG_BROADCAST else 0,
                 if ciaddr then lease.ip else 0);
      a := Asked(if requested then Some(lease.ip) else None, if server then Some(lease.server) else None,
                 if wantLease && c.leaseS != 0 then Some(c.leaseS) else None, hints);
    }

    /** The context once the message is out (the end of dhcp4_write). */
    method MarkSent(rand: u32)
      modifies this
      ensures View() == D.Sent(old(View()), JitterOf(rand))
    {
      var wait := Backoff(rand);
      var kind, next := owed, Add64(now, wait);
      sentMs := now;
      sent := kind;
      owed := 0;
      if retries < 0xFF {
        retries := retries + 1;
      }
      if kind == RELEASE {
        Halt();
        next := now;
      } else if kind == DECLINE {
        Halt();
        next := Add64(now, D.DECLINE_WAIT_MS);
      }
      retryMs := next;
    }

    /** The message owed laid down, and the context moved on past it (dhcp4_write). */
    method WriteOwed(c: D.Config, out: array<u8>, rand: u32) returns (dst: u32)
      requires out.Length >= MSG_LEN
      modifies this, out
      ensures View() == D.Sent(old(View()), JitterOf(rand)) && dst == D.Destination(old(View()))
      ensures out[..MSG_LEN] == Message(D.FixedIn(old(View()), c), old(owed), D.AskedIn(old(View()), c))
      ensures forall j :: MSG_LEN <= j < out.Length ==> out[j] == old(out[j])
    {
      var f, a, to := Plan(c);
      Write(out, f, owed, a);
      MarkSent(rand);
      return to;
    }

    /** The message owed, into the caller's buffer (idemip_dhcp4_build). */
    method Build(out: array?<u8>, cap: nat, rand: u32) returns (answer: Status, len: nat, dst: u32)
      requires Valid() && (out != null ==> cap <= out.Length)
      modifies this, out
      ensures Valid() && last == old(last) && close == old(close)
      ensures var (c, status, sent) := D.Build(old(View()), if out == null then None else Some(cap), JitterOf(rand));
              && View() == c && answer == status
              && (answer == OK ==> out != null && len == MSG_LEN && sent == Some(D.Outgoing(out[..len], dst)))
      ensures out != null ==> forall j :: MSG_LEN <= j < out.Length ==> out[j] == old(out[j])
      ensures answer != OK && out != null ==> out[..] == old(out[..])
    {
      len, dst := 0, 0;
      if cfg.None? {
        return ERR, 0, 0;
      }
      if out == null || cap < MSG_LEN {
        return ERR, 0, 0;
      }
      if owed == 0 {
        return BUSY, 0, 0;
      }
      if lease.server == 0 && (owed == RELEASE || owed == DECLINE ||
                               (owed == REQUEST && (state == D.Requesting || state == D.Renewing))) {
        return ERR, 0, 0;
      }
      R.SentKeeps(View(), JitterOf(rand));
      dst := WriteOwed(cfg.value, out, rand);
      last, close := old(last), old(close);
      return OK, MSG_LEN, dst;
    }

    // --- what a deadline does --------------------------------------------------------

    method Retry(tries: u8)
      modifies this
      ensures View() == D.Retry(old(View()), tries)
    {
      if tries != 0 && retries >= tries {
        Halt();
        return;
      }
      owed := sent;
    }

    method Ask(s: D.State)
      modifies this
      ensures View() == D.Ask(old(View()), s)
    {
      state, sent, retries, owed := s, REQUEST, 0, REQUEST;
    }

    method RunHolding() returns (moved: bool)
      modifies this
      ensures (View(), moved) == D.RunHolding(old(View()))
    {
      if D.Timed(lease.leaseS) && now >= lease.expireMs {
        Halt();
        return true;
      }
      if state != D.Rebinding && D.Timed(lease.t2S) && now >= lease.t2Ms {
        Ask(D.Rebinding);
        return true;
      }
      if state == D.Bound && D.Timed(lease.t1S) && now >= lease.t1Ms {
        Ask(D.Renewing);
        return true;
      }
      if state == D.Bound || now < retryMs {
        return false;
      }
      Retry(0);
      return true;
    }

    method RunInform() returns (moved: bool)
      modifies this
      ensures (View(), moved) == D.RunInform(old(View()))
    {
      if sent != INFORM || now < retryMs {
        return false;
      }
      if retries >= D.INFORM_TRIES {
        sent, retries := 0, 0;
        return true;
      }
      owed := INFORM;
      return true;
    }

    /** The deadline that has passed, in the state it passed in (dhcp4_run). */
    method RunDeadline() returns (moved: bool)
      modifies this
      ensures (View(), moved) == D.RunDeadline(old(View()))
    {
      if owed != 0 {
        return false;
      }
      if state == D.Selecting {
        if now < retryMs {
          return false;
        }
        sent := DISCOVER;
        Retry(0);
        return true;
      } else if state == D.InitReboot {
        if now < retryMs {
          return false;
        }
        Ask(D.Rebooting);
        return true;
      } else if state == D.Requesting || state == D.Rebooting {
        if now < retryMs {
          return false;
        }
        Retry(D.REQUEST_TRIES);
        return true;
      } else if state == D.Init {
        moved := RunInform();
      } else {
        moved := RunHolding();
      }
    }

    method Tick(reading: u32, ghost at: nat) returns (answer: Status)
      requires Valid() && last <= at <= R.HORIZON && reading == Wrap32(at)
      modifies this
      ensures Valid() && Run() == R.After(old(Run()), R.Event(R.OpTick, at, reading))
      ensures answer == D.Tick(old(View()), reading).1
    {
      ghost var next := R.After(Run(), R.Event(R.OpTick, at, reading));
      R.StepKeeps(Run(), R.Event(R.OpTick, at, reading));
      if cfg.None? {
        return ERR;
      }
      ReadClock(reading);
      var moved := RunDeadline();
      last, close := next.last, next.close;
      return if moved then OK else BUSY;
    }

    // --- the other entries -----------------------------------------------------------

    method Bind(offered: Option<D.Offered>) returns (answer: Status)
      requires Valid()
      modifies this
      ensures Valid() && last == old(last) && close == old(close)
      ensures (View(), answer) == D.Bind(old(View()), offered)
    {
      if offered.None? || offered.value.chaddr.None? {
        return ERR;
      }
      var v := offered.value;
      if |v.chaddr.value| == 0 || |v.chaddr.value| > CHADDR_LEN || v.netif >= NETIF_COUNT {
        return ERR;
      }
      cfg := Some(D.Config(v.chaddr.value, v.leaseS, v.htype, v.broadcast));
      state := D.Init;
      return OK;
    }

    /** The clock read and, past a wait, an exchange opened: over a known address, or after a drawn delay. */
    method Open(id: u32, known: u32, rand: u32, reading: u32) returns (answer: Status)
      requires cfg.Some? && state == D.Init
      modifies this
      ensures (View(), answer) == D.Start(old(View()), id, known, DelayOf(rand), reading)
    {
      ReadClock(reading);
      if now < retryMs {
        return BUSY;
      }
      xid, retries, owed, sent, secs := id, 0, 0, 0, 0;
      sentMs := now;
      if known != 0 {
        lease := lease.(ip := known);
        state, retryMs := D.InitReboot, now;
      } else {
        state := D.Selecting;
        retryMs := Add64(now, D.START_DELAY_MIN_MS + DelayOf(rand));
      }
      return OK;
    }

    method Start(id: u32, known: u32, rand: u32, reading: u32, ghost at: nat) returns (answer: Status)
      requires Valid() && last <= at <= R.HORIZON && reading == Wrap32(at)
      modifies this
      ensures Valid() && Run() == R.After(old(Run()), R.Event(R.OpStart(id, known, DelayOf(rand)), at, reading))
      ensures answer == D.Start(old(View()), id, known, DelayOf(rand), reading).1
    {
      ghost var e := R.Event(R.OpStart(id, known, DelayOf(rand)), at, reading);
      ghost var next := R.After(Run(), e);
      R.StepKeeps(Run(), e);
      if cfg.None? || state != D.Init {
        return ERR;
      }
      answer := Open(id, known, rand, reading);
      last, close := next.last, next.close;
    }

    method Stop() returns (answer: Status)
      requires Valid()
      modifies this
      ensures Valid() && last == old(last) && close == old(close)
      ensures (View(), answer) == D.Stop(old(View()))
    {
      if cfg.None? {
        return ERR;
      }
      Halt();
      retryMs := now;
      last, close := old(last), old(close);
      return OK;
    }

    method Release() returns (answer: Status)
      requires Valid()
      modifies this
      ensures Valid() && last == old(last) && close == old(close)
      ensures (View(), answer) == D.Release(old(View()))
    {
      if cfg.None? || (state != D.Bound && state != D.Renewing && state != D.Rebinding)
         || lease.server == 0 || lease.ip == 0 {
        return ERR;
      }
      owed, retries := RELEASE, 0;
      return OK;
    }

    method Decline() returns (answer: Status)
      requires Valid()
      modifies this
      ensures Valid() && last == old(last) && close == old(close)
      ensures (View(), answer) == D.Decline(old(View()))
    {
      if cfg.None? || state != D.Bound || lease.server == 0 || lease.ip == 0 {
        return ERR;
      }
      owed, retries := DECLINE, 0;
      return OK;
    }

    /** The clock read and an Inform owed for a known address. */
    method OweInform(id: u32, known: u32, reading: u32)
      requires cfg.Some? && state == D.Init && known != 0
      modifies this
      ensures (View(), OK) == D.Inform(old(View()), id, known, reading)
    {
      xid := id;
      ReadClock(reading);
      lease := lease.(ip := known);
      secs, retries, owed, sent := 0, 0, INFORM, 0;
    }

    method Inform(id: u32, known: u32, reading: u32, ghost at: nat) returns (answer: Status)
      requires Valid() && last <= at <= R.HORIZON && reading == Wrap32(at)
      modifies this
      ensures Valid() && Run() == R.After(old(Run()), R.Event(R.OpInform(id, known), at, reading))
      ensures answer == D.Inform(old(View()), id, known, reading).1
    {
      ghost var e := R.Event(R.OpInform(id, known), at, reading);
      ghost var next := R.After(Run(), e);
      R.StepKeeps(Run(), e);
      if cfg.None? || state != D.Init || known == 0 {
        return ERR;
      }
      OweInform(id, known, reading);
      last, close := next.last, next.close;
      return OK;
    }
  }
}
