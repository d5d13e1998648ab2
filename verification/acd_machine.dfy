/**
 * The conflict detector's context updated in place (src/acd/acd.c), each entry one call of a run of Acd, so that what
 * every run keeps is an invariant of the object.
 */
module AcdMachine {
  import opened Words
  import opened ArpPacket
  import opened Acd

  class Machine {
    var ready: bool
    var ipaddr: u32
    var deadline: u32
    var lastDefend: u32
    var nextClaim: u32
    var mac: Mac
    var state: State
    var defense: Defense
    var sent: u8
    var conflicts: u8
    var defended: bool

    ghost function View(): Ctx
      reads this
    {
      Ctx(ipaddr, deadline, lastDefend, nextClaim, mac, state, defense, sent, conflicts, defended)
    }

    /** What has been seen since the context was cleared. */
    ghost var history: History

    ghost function Seen(): Run
      reads this
    {
      Run(View(), history)
    }

    /** The probes, announcements and defences of the claim standing are as many and as far apart as they must be. */
    ghost predicate Valid()
      reads this
    {
      ready ==> Inv(Seen())
    }

    /** A reading of a clock that has not run backwards. */
    ghost predicate Reads(at: nat, now: u32)
      reads this
    {
      now == Wrap32(at) && (ready ==> history.clock <= at)
    }

    constructor ()
      ensures Valid() && !ready
    {
      history := NO_HISTORY;
      ready := false;
      ipaddr, deadline, lastDefend, nextClaim := 0, 0, 0, 0;
      mac, state, defense := [0, 0, 0, 0, 0, 0], Off, Never;
      sent, conflicts, defended := 0, 0, false;
    }

    method Zero()
      modifies this
      ensures View() == CLEARED
    {
      ipaddr, deadline, lastDefend, nextClaim := 0, 0, 0, 0;
      mac, state, defense := [0, 0, 0, 0, 0, 0], Off, Never;
      sent, conflicts, defended := 0, 0, false;
    }

    /** Zeroes the context and leaves the mark (idemip_acd_clear). */
    method Clear() returns (status: Status)
      modifies this
      ensures Valid() && ready && status == OK && Seen() == After([])
    {
      Zero();
      ready, status := true, OK;
      ghost var begun := After([]);
      history := begun.h;
      assert Seen() == begun;
    }

    /** One more conflict, and the next claim held off at the limit (acd_count_conflict). */
    method CountConflict(now: u32)
      modifies this`conflicts, this`nextClaim
      ensures View() == Counted(old(View()), now)
    {
      if conflicts < 0xFF {
        conflicts := conflicts + 1;
      }
      if conflicts >= MAX_CONFLICTS {
        nextClaim := Add32(now, RATE_LIMIT_MS);
      }
    }

    /** The address given up (acd_abandon). */
    method Abandon(now: u32)
      modifies this
      ensures View() == Abandoned(old(View()), now) && ready == old(ready)
    {
      CountConflict(now);
      ipaddr, sent, defended, lastDefend := 0, 0, false, 0;
      if conflicts >= MAX_CONFLICTS {
        state, deadline := RateLimit, Add32(now, RATE_LIMIT_MS);
      } else {
        state, deadline := Off, 0;
      }
    }

    /** The response to a conflicting packet the claim was made with (acd_defend). */
    method Defend(now: u32) returns (out: Out)
      modifies this
      ensures (View(), out) == Defended(old(View()), now) && ready == old(ready)
    {
      out := QUIET.(conflict := true);
      if defense == Never {
        Abandon(now);
        return out.(abandon := true);
      }
      var recent := defended && Sub32(now, lastDefend) < DEFEND_INTERVAL_MS;
      if recent {
        if defense == Once {
          Abandon(now);
          out := out.(abandon := true);
        } else {
          CountConflict(now);
        }
        return;
      }
      lastDefend, defended := now, true;
      CountConflict(now);
      out := out.(announce := true);
    }

    /** Section 2.1.1's tests while claiming, section 2.4's once in use (acd_receive). */
    method Hear(p: Packet, now: u32) returns (out: Out)
      requires IsEthernetIpv4(p)
      modifies this
      ensures (View(), out) == Receive(old(View()), Some(p), now) && ready == old(ready)
    {
      out := QUIET;
      if IsRequest(p) || IsReply(p) {
        if Claiming(state) {
          if ProbeConflict(ipaddr, mac, p) {
            Abandon(now);
            out := out.(conflict := true, abandon := true);
          }
        } else if Using(state) {
          if OngoingConflict(ipaddr, mac, p) {
            out := Defend(now);
          }
        }
      }
    }

    /** One received ARP packet (idemip_acd_arp_in). */
    method ArpIn(packet: Option<Packet>, now: u32, ghost at: nat) returns (out: Out)
      requires Valid() && Reads(at, now)
      modifies this
      ensures Valid() && ready == old(ready)
      ensures !ready ==> out == QUIET.(status := ERR) && View() == old(View())
      ensures ready ==> out == Receive(old(View()), packet, now).1 && Seen() == Next(old(Seen()), ArpOp(at, packet))
    {
      out := QUIET.(status := ERR);
      if !ready {
        return;
      }
      ghost var next := Next(Seen(), ArpOp(at, packet));
      StepKeeps(Seen(), ArpOp(at, packet));
      if packet.Some? && IsEthernetIpv4(packet.value) {
        out := Hear(packet.value, now);
      }
      history := next.h;
    }

    /** The next probe, or the wait after the last of them (acd_send_probe). */
    method SendProbe(now: u32, rand: u32)
      requires sent < 0xFF
      modifies this`sent, this`state, this`deadline
      ensures View() == Probed(old(View()), now, rand)
    {
      sent := sent + 1;
      if sent >= PROBE_NUM {
        state, sent, deadline := AnnounceWait, 0, Add32(now, ANNOUNCE_WAIT_MS);
        return;
      }
      state := Probing;
      deadline := Add32(now, PROBE_MIN_MS + Draw(rand, PROBE_MAX_MS - PROBE_MIN_MS));
    }

    /** The next announcement, or the address in use (acd_send_announce). */
    method SendAnnounce(now: u32)
      requires sent < 0xFF
      modifies this`sent, this`state, this`deadline
      ensures View() == Announced(old(View()), now)
    {
      sent := sent + 1;
      if sent >= ANNOUNCE_NUM {
        state, sent, deadline := Ongoing, 0, 0;
        return;
      }
      state, deadline := Announcing, Add32(now, ANNOUNCE_INTERVAL_MS);
    }

    /** The deadline that has passed (acd_fire). */
    method Fire(now: u32, rand: u32) returns (out: Out)
      requires sent < 0xFF
      modifies this`sent, this`state, this`deadline
      ensures (View(), out) == Acd.Fire(old(View()), now, rand)
    {
      out := QUIET;
      if state == Off || state == Ongoing {
        return;
      }
      if !Due(now, deadline) {
        return out.(status := BUSY);
      }
      if state == RateLimit {
        state, deadline := Off, 0;
      } else if state == ProbeWait || state == Probing {
        SendProbe(now, rand);
        out := out.(probe := true);
      } else {
        SendAnnounce(now);
        out := out.(announce := true);
      }
    }

    /** One tick (idemip_acd_tick). */
    method Tick(now: u32, rand: u32, ghost at: nat) returns (out: Out)
      requires Valid() && Reads(at, now)
      modifies this
      ensures Valid() && ready == old(ready)
      ensures !ready ==> out == QUIET.(status := ERR) && View() == old(View())
      ensures ready ==> old(View()).sent < PROBE_NUM && out == Acd.Fire(old(View()), now, rand).1
      ensures ready ==> Seen() == Next(old(Seen()), TickOp(at, rand))
    {
      out := QUIET.(status := ERR);
      if !ready {
        return;
      }
      ghost var next := Next(Seen(), TickOp(at, rand));
      StepKeeps(Seen(), TickOp(at, rand));
      out := Fire(now, rand);
      history := next.h;
    }

    /** The claim set out on (acd_claim). */
    method Claim(own: Mac, ip: u32, rand: u32, kind: Defense, now: u32)
      requires ip != 0 && !Limited(View(), now)
      modifies this
      ensures (View(), QUIET) == Acd.Start(old(View()), Some(own), ip, rand, kind, now) && ready == old(ready)
    {
      if conflicts >= MAX_CONFLICTS {
        nextClaim := Add32(now, RATE_LIMIT_MS);
      }
      mac, ipaddr, defense, state := own, ip, kind, ProbeWait;
      sent, defended, lastDefend := 0, false, 0;
      deadline := Add32(now, Draw(rand, PROBE_WAIT_MS));
    }

    /** An address taken up to be probed for (idemip_acd_start). */
    method Start(own: Option<Mac>, ip: u32, rand: u32, kind: Defense, now: u32, ghost at: nat) returns (out: Out)
      requires Valid() && Reads(at, now)
      modifies this
      ensures Valid() && ready == old(ready)
      ensures !ready ==> out == QUIET.(status := ERR) && View() == old(View())
      ensures ready ==> out == Acd.Start(old(View()), own, ip, rand, kind, now).1
      ensures ready ==> Seen() == Next(old(Seen()), StartOp(at, own, ip, rand, kind))
    {
      out := QUIET.(status := ERR);
      if !ready {
        return;
      }
      ghost var next := Next(Seen(), StartOp(at, own, ip, rand, kind));
      StepKeeps(Seen(), StartOp(at, own, ip, rand, kind));
      if own.Some? && ip != 0 {
        if conflicts >= MAX_CONFLICTS && !Due(now, nextClaim) {
          out := QUIET.(status := BUSY);
        } else {
          Claim(own.value, ip, rand, kind, now);
          out := QUIET;
        }
      }
      history := next.h;
    }

    /** The address dropped, a standing rate limit left to run out (acd_cease). */
    method Cease()
      modifies this
      ensures View() == Acd.Cease(old(View())) && ready == old(ready)
    {
      ipaddr, sent, defended, lastDefend := 0, 0, false, 0;
      if state != RateLimit {
        state, deadline := Off, 0;
      }
    }

    /** The address dropped (idemip_acd_stop). */
    method Stop() returns (out: Out)
      requires Valid()
      modifies this
      ensures Valid() && ready == old(ready)
      ensures !ready ==> out == QUIET.(status := ERR) && View() == old(View())
      ensures ready ==> out == QUIET && Seen() == Next(old(Seen()), StopOp(old(history).clock))
    {
      out := QUIET.(status := ERR);
      if !ready {
        return;
      }
      ghost var next := Next(Seen(), StopOp(history.clock));
      StepKeeps(Seen(), StopOp(history.clock));
      Cease();
      out := QUIET;
      history := next.h;
    }
  }
}
