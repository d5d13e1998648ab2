/**
 * The link-local selector's context updated in place (src/autoip/autoip.c), each entry one call of a run of AutoIp, so
 * that what every run keeps is an invariant of the object.
 */
module AutoIpMachine {
  import opened Words
  import opened ArpPacket
  import A = AutoIp

  class Machine {
    const g: A.Source
    var ready: bool
    var ipaddr: u32
    var deadline: u32
    var seed: u32
    var state: A.State
    var tried: u8
    var conflicts: u8
    var held: bool

    ghost function View(): A.Ctx
      reads this
    {
      A.Ctx(ipaddr, deadline, seed, state, tried, conflicts, held)
    }

    /** True time, the addresses drawn since the context was cleared, and when a draw held over was held. */
    ghost var clock: nat
    ghost var drawn: seq<A.Selection>
    ghost var heldAt: nat

    ghost function Run(): A.Run
      reads this
    {
      A.Run(View(), clock, drawn, heldAt)
    }

    /** Every address drawn is in range and new, and past the conflict limit an interval after those before it. */
    ghost predicate Valid()
      reads this
    {
      ready ==> A.Inv(Run())
    }

    constructor ()
      ensures Valid() && !ready && g == A.GENERATOR
    {
      clock, drawn, heldAt := 0, [], 0;
      g := A.GENERATOR;
      ready, ipaddr, deadline, seed, state := false, 0, 0, 0, A.Off;
      tried, conflicts, held := 0, 0, false;
    }

    /** Zeroes the context and leaves the mark (idemip_autoip_clear). */
    method Clear() returns (status: Status)
      modifies this
      ensures Valid() && ready && status == OK && Run() == A.BEGIN
    {
      clock, drawn, heldAt := 0, [], 0;
      ipaddr, deadline, seed, state := 0, 0, 0, A.Off;
      tried, conflicts, held := 0, 0, false;
      ready, status := true, OK;
    }

    /** The generator stepped until a draw may be kept, then the last one folded (autoip_draw). */
    method Draw(taken: u32) returns (addr: u32)
      modifies this`seed
      ensures (seed, addr) == A.Draw(g, old(seed), taken, A.DRAW_TRIES)
      ensures A.InRange(addr) && addr != taken
    {
      A.DrawLands(g, seed, taken, A.DRAW_TRIES);
      addr := A.PREFIX;
      var i := 0;
      while i < A.DRAW_TRIES
        invariant i <= A.DRAW_TRIES
        invariant i < A.DRAW_TRIES ==>
          A.Draw(g, seed, taken, A.DRAW_TRIES - i) == A.Draw(g, old(seed), taken, A.DRAW_TRIES)
        invariant A.PREFIX <= addr <= A.PREFIX + 0xFFFF
        invariant i == A.DRAW_TRIES ==> (seed, A.Fold(addr, taken)) == A.Draw(g, old(seed), taken, A.DRAW_TRIES)
      {
        seed := g.next(seed);
        addr := A.PREFIX + seed % TWO_16;
        if addr >= A.FIRST && addr <= A.LAST && addr != taken {
          return;
        }
        i := i + 1;
      }
      if addr < A.FIRST {
        addr := addr + A.SPAN;
      }
      if addr > A.LAST {
        addr := addr - A.SPAN;
      }
      if addr == taken {
        addr := if addr == A.LAST then A.FIRST else addr + 1;
      }
    }

    /** A hardware address folded over a word, octet by octet (autoip_seed). */
    method SeedFrom(mac: Mac, rand: u32) returns (s: u32)
      ensures s == A.Seed(g, mac, rand)
    {
      s := rand;
      var i := 0;
      while i < |mac|
        invariant i <= |mac|
        invariant A.Seed(g, mac[i..], s) == A.Seed(g, mac, rand)
      {
        s := g.next(g.xor(g.xor(s, mac[i]), A.MIX));
        i := i + 1;
        assert mac[i - 1..][1..] == mac[i..];
      }
    }

    /** A new candidate in place of the one held (autoip_select). */
    method Select(rand: u32)
      modifies this
      ensures View() == A.Select(g, old(View()), rand) && ready == old(ready)
    {
      seed := g.next(g.xor(seed, rand));
      ipaddr := Draw(ipaddr);
      if tried < A.COUNT_MAX {
        tried := tried + 1;
      }
      held, deadline := false, 0;
    }

    /** A draw now, or past the conflict limit one held over (autoip_advance). */
    method Advance(rand: u32, now: u32) returns (drew: bool)
      modifies this
      ensures ready == old(ready)
      ensures (View(), A.Out(if drew then OK else BUSY, drew)) == A.Advance(g, old(View()), rand, now)
    {
      if conflicts > A.MAX_CONFLICTS {
        held, deadline := true, Add32(now, A.RATE_LIMIT_MS);
        return false;
      }
      Select(rand);
      return true;
    }

    /** An address taken up: the one remembered, or a new one. */
    method Begin(mac: Option<Mac>, rand: u32, now: u32) returns (out: A.Out)
      modifies this
      ensures (View(), out) == A.Start(g, old(View()), mac, rand, now) && ready == old(ready)
    {
      if mac.None? {
        return A.Out(ERR, false);
      }
      if state != A.Off {
        return A.Out(if held then BUSY else OK, false);
      }
      seed := SeedFrom(mac.value, rand);
      state := A.Checking;
      var claim := true;
      if held || ipaddr < A.FIRST || ipaddr > A.LAST {
        claim := Advance(0, now);
      }
      return A.Out(if claim then OK else BUSY, claim);
    }

    method Start(mac: Option<Mac>, rand: u32, now: u32, ghost at: nat) returns (out: A.Out)
      requires Valid() && now == Wrap32(at) && (ready ==> clock <= at)
      modifies this
      ensures Valid() && ready == old(ready)
      ensures !ready ==> out == A.Out(ERR, false) && View() == old(View())
      ensures ready ==> out == A.Start(g, old(View()), mac, rand, now).1
      ensures ready ==> Run() == A.Record(old(Run()), A.Start(g, old(View()), mac, rand, now).0, at)
    {
      if !ready {
        return A.Out(ERR, false);
      }
      ghost var next := A.Record(Run(), A.Start(g, View(), mac, rand, now).0, at);
      A.StartMoves(g, View(), mac, rand, now);
      A.RecordKeeps(Run(), A.Start(g, View(), mac, rand, now).0, at);
      out := Begin(mac, rand, now);
      clock, drawn, heldAt := next.clock, next.drawn, next.heldAt;
    }

    /** A conflict counted, and the candidate replaced or the draw held over. */
    method Lose(rand: u32, now: u32) returns (out: A.Out)
      requires state != A.Off && !held
      modifies this
      ensures (View(), out) == A.Conflict(g, old(View()), rand, now) && ready == old(ready)
    {
      if conflicts < A.COUNT_MAX {
        conflicts := conflicts + 1;
      }
      state := A.Checking;
      var claim := Advance(rand, now);
      return A.Out(if claim then OK else BUSY, claim);
    }

    method Conflict(rand: u32, now: u32, ghost at: nat) returns (out: A.Out)
      requires Valid() && now == Wrap32(at) && (ready ==> clock <= at)
      modifies this
      ensures Valid() && ready == old(ready)
      ensures !ready ==> out == A.Out(ERR, false) && View() == old(View())
      ensures ready ==> out == A.Conflict(g, old(View()), rand, now).1
      ensures ready ==> Run() == A.Record(old(Run()), A.Conflict(g, old(View()), rand, now).0, at)
    {
      if !ready {
        return A.Out(ERR, false);
      }
      ghost var next := A.Record(Run(), A.Conflict(g, View(), rand, now).0, at);
      A.ConflictMoves(g, View(), rand, now);
      A.RecordKeeps(Run(), A.Conflict(g, View(), rand, now).0, at);
      out := A.Out(ERR, false);
      if state != A.Off && !held {
        out := Lose(rand, now);
      }
      clock, drawn, heldAt := next.clock, next.drawn, next.heldAt;
    }

    /** The claimed address announced (idemip_autoip_bound). */
    method Confirm() returns (out: A.Out)
      requires Valid()
      modifies this
      ensures Valid() && ready == old(ready)
      ensures !ready ==> out == A.Out(ERR, false) && View() == old(View())
      ensures ready ==> out == A.Confirm(old(View())).1
      ensures ready ==> Run() == A.Record(old(Run()), A.Confirm(old(View())).0, old(clock))
    {
      if !ready {
        return A.Out(ERR, false);
      }
      ghost var next := A.Record(Run(), A.Confirm(View()).0, clock);
      A.StepMoves(g, View(), A.OpConfirm, Wrap32(clock));
      A.RecordKeeps(Run(), A.Confirm(View()).0, clock);
      out := A.Out(ERR, false);
      if state != A.Off && !held {
        state, conflicts, deadline := A.Bound, 0, 0;
        out := A.Out(OK, false);
      }
      clock, drawn, heldAt := next.clock, next.drawn, next.heldAt;
    }

    method Stop() returns (out: A.Out)
      requires Valid()
      modifies this
      ensures Valid() && ready == old(ready)
      ensures !ready ==> out == A.Out(ERR, false) && View() == old(View())
      ensures ready ==> out == A.Stop(old(View())).1
      ensures ready ==> Run() == A.Record(old(Run()), A.Stop(old(View())).0, old(clock))
    {
      if !ready {
        return A.Out(ERR, false);
      }
      ghost var next := A.Record(Run(), A.Stop(View()).0, clock);
      A.StepMoves(g, View(), A.OpStop, Wrap32(clock));
      A.RecordKeeps(Run(), A.Stop(View()).0, clock);
      state := A.Off;
      out := A.Out(OK, false);
      clock, drawn, heldAt := next.clock, next.drawn, next.heldAt;
    }

    method Tick(rand: u32, now: u32, ghost at: nat) returns (out: A.Out)
      requires Valid() && now == Wrap32(at) && (ready ==> clock <= at)
      modifies this
      ensures Valid() && ready == old(ready)
      ensures !ready ==> out == A.Out(ERR, false) && View() == old(View())
      ensures ready ==> out == A.Tick(g, old(View()), rand, now).1
      ensures ready ==> Run() == A.Record(old(Run()), A.Tick(g, old(View()), rand, now).0, at)
    {
      if !ready {
        return A.Out(ERR, false);
      }
      ghost var next := A.Record(Run(), A.Tick(g, View(), rand, now).0, at);
      A.TickMoves(g, View(), rand, now);
      A.RecordKeeps(Run(), A.Tick(g, View(), rand, now).0, at);
      out := A.Out(OK, false);
      if state != A.Off && held {
        if !Due(now, deadline) {
          out := A.Out(BUSY, false);
        } else {
          Select(rand);
          out := A.Out(OK, true);
        }
      }
      clock, drawn, heldAt := next.clock, next.drawn, next.heldAt;
    }
  }
}
