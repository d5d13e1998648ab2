/**
 * Exactly when a tick of the link-local selector makes a draw held over (src/autoip/autoip.c), over whole runs, and a
 * late tick that does not.
 */
module AutoIpTicks {
  import opened Words
  import opened ArpPacket
  import opened AutoIp

  lemma DrawsExactly(g: Source, c: Ctx, heldAt: nat, rand: u32, at: nat, now: u32)
    requires now == Wrap32(at) && (c.held ==> c.deadline == Wrap32(heldAt + RATE_LIMIT_MS))
    ensures Tick(g, c, rand, now).1.claim <==> !c.state.Off? && c.held && Reached(heldAt, RATE_LIMIT_MS, at)
    ensures Tick(g, c, rand, now).1.status == BUSY <==> !c.state.Off? && c.held && !Reached(heldAt, RATE_LIMIT_MS, at)
  {
    if c.held {
      DueIsReached(heldAt, RATE_LIMIT_MS, at, now, c.deadline);
    }
  }

  /**
   * Over every run, whatever the generator, a tick draws a new address exactly when one is held over by a selector that
   * is on and the interval since is over to the clock, and answers BUSY exactly when it is not over.
   */
  lemma TickDrawsIff(g: Source, events: seq<Event>, rand: u32, at: nat)
    requires OnClock(events) && RunOf(g, events).clock <= at
    ensures var r := RunOf(g, events);
            var out := Tick(g, r.c, rand, Wrap32(at)).1;
            && (r.c.held ==> r.heldAt <= at)
            && (out.claim <==> !r.c.state.Off? && r.c.held && Reached(r.heldAt, RATE_LIMIT_MS, at))
            && (out.status == BUSY <==> !r.c.state.Off? && r.c.held && !Reached(r.heldAt, RATE_LIMIT_MS, at))
  {
    RunKeeps(g, events);
    var r := RunOf(g, events);
    DrawsExactly(g, r.c, r.heldAt, rand, at, Wrap32(at));
  }

  // --- a held draw looked at too late -----------------------------------------------

  predicate AtZero(events: seq<Event>) {
    forall k :: 0 <= k < |events| ==> events[k].at == 0 && events[k].now == 0
  }

  /** Checking a candidate, with so many conflicts counted. */
  predicate Checks(c: Ctx, n: nat) {
    c.state == Checking && !c.held && c.conflicts == n
  }

  lemma StartChecks(g: Source, mac: Mac)
    ensures Checks(Start(g, CLEARED, Some(mac), 0, 0).0, 0)
  {
  }

  lemma ConflictChecks(g: Source, c: Ctx, n: nat)
    requires Checks(c, n) && n < MAX_CONFLICTS
    ensures Checks(Conflict(g, c, 0, 0).0, n + 1)
  {
  }

  lemma RunMore(g: Source, events: seq<Event>, e: Event)
    ensures RunOf(g, events + [e]) == After(g, RunOf(g, events), e)
  {
    assert (events + [e])[..|events|] == events;
  }

  /** A start and so many conflicts, all at time zero. */
  lemma {:induction false} Contested(g: Source, mac: Mac, n: nat) returns (events: seq<Event>)
    requires n <= MAX_CONFLICTS
    ensures AtZero(events) && Checks(RunOf(g, events).c, n) && RunOf(g, events).clock == 0
    decreases n
  {
    if n == 0 {
      var e := Event(OpStart(Some(mac), 0), 0, 0);
      RunMore(g, [], e);
      StartChecks(g, mac);
      events := [] + [e];
    } else {
      var e := Event(OpConflict(0), 0, 0);
      events := Contested(g, mac, n - 1);
      RunMore(g, events, e);
      ConflictChecks(g, RunOf(g, events).c, n - 1);
      events := events + [e];
    }
  }

  /** One conflict past the limit holds the next draw over. */
  lemma HeldOverAtZero(g: Source, r: Run)
    requires Checks(r.c, MAX_CONFLICTS)
    ensures var s := After(g, r, Event(OpConflict(0), 0, 0));
            s.c.held && s.c.state == Checking && s.heldAt == 0 && s.clock == 0 && s.c.deadline == RATE_LIMIT_MS
  {
  }

  /** Eleven conflicts at time zero, and a tick 2^31 ms past the end of the interval: the draw is not made. */
  lemma LateDrawIsNotMade(g: Source, mac: Mac, rand: u32) returns (events: seq<Event>, at: nat)
    ensures OnClock(events) && RunOf(g, events).clock <= at
    ensures var r := RunOf(g, events);
            && r.c.held && !r.c.state.Off? && at == r.heldAt + RATE_LIMIT_MS + TWO_31
            && Tick(g, r.c, rand, Wrap32(at)).1 == Out(BUSY, false)
  {
    var e := Event(OpConflict(0), 0, 0);
    events := Contested(g, mac, MAX_CONFLICTS);
    RunMore(g, events, e);
    HeldOverAtZero(g, RunOf(g, events));
    events := events + [e];
    at := RATE_LIMIT_MS + TWO_31;
    DrawsExactly(g, RunOf(g, events).c, 0, rand, at, Wrap32(at));
  }
}
