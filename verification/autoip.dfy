/**
 * Link-local address selection (src/autoip/autoip.c) against sections 2.1 and
 * 2.2.1 of RFC 3927: where every draw lands, and how often a host past the
 * conflict limit may draw.
 */
module AutoIp {
  import opened Words
  import opened ArpPacket

  const MIX: u32 := 0x9E37_79B9
  const DRAW_TRIES: nat := 4
  const PREFIX: u32 := 0xA9FE_0000
  const FIRST: u32 := 0xA9FE_0100
  const LAST: u32 := 0xA9FE_FEFF
  const SPAN: u32 := 0xFE00
  const COUNT_MAX: u8 := 0xFF
  const MAX_CONFLICTS: u8 := 10
  const RATE_LIMIT_MS: u32 := 60_000

  datatype State = Off | Checking | Bound

  datatype Ctx = Ctx(ipaddr: u32, deadline: u32, seed: u32, state: State, tried: u8, conflicts: u8, held: bool)

  const CLEARED: Ctx := Ctx(0, 0, 0, Off, 0, 0, false)

  /** A call's answer: its status, and whether a candidate is handed out to be claimed. */
  datatype Out = Out(status: Status, claim: bool)

  /** One of the addresses section 2.1 selects from: 169.254.1.0 to 169.254.254.255. */
  predicate InRange(a: u32) {
    FIRST <= a <= LAST
  }

  /** The word arithmetic of the generator. What follows is written over any such pair. */
  datatype Source = Source(next: u32 -> u32, xor: (u32, u32) -> u32)

  function Xor(a: u32, b: u32): u32 {
    (a as bv32 ^ b as bv32) as int
  }

  /** The three shifts and xors, a zero state read as MIX (autoip_next). */
  function Next(seed: u32): u32 {
    var a := (if seed != 0 then seed else MIX) as bv32;
    var b := a ^ (a << 13);
    var c := b ^ (b >> 17);
    (c ^ (c << 5)) as int
  }

  const GENERATOR: Source := Source(Next, Xor)

  /** The octets of a hardware address folded over a word (autoip_seed). */
  function Seed(g: Source, mac: seq<u8>, word: u32): u32
    decreases |mac|
  {
    if mac == [] then word else Seed(g, mac[1..], g.next(g.xor(g.xor(word, mac[0]), MIX)))
  }

  /** The last draw brought into the range, and off a taken address. */
  function Fold(addr: u32, taken: u32): u32
    requires PREFIX <= addr <= PREFIX + 0xFFFF
  {
    var up := if addr < FIRST then addr + SPAN else addr;
    var down := if up > LAST then up - SPAN else up;
    if down == taken then (if down == LAST then FIRST else down + 1) else down
  }

  /** Draws until one is off the reserved ends and the taken address, then folds (autoip_draw). */
  function Draw(g: Source, seed: u32, taken: u32, tries: nat): (u32, u32)
    requires tries > 0
    decreases tries, seed
  {
    var s := g.next(seed);
    var addr := PREFIX + s % TWO_16;
    if InRange(addr) && addr != taken then (s, addr)
    else if tries == 1 then (s, Fold(addr, taken))
    else Draw(g, s, taken, tries - 1)
  }

  /** Whatever the generator, the seed and the address taken, a draw is in section 2.1's range and a new one. */
  lemma {:induction false} DrawLands(g: Source, seed: u32, taken: u32, tries: nat)
    requires tries > 0
    ensures InRange(Draw(g, seed, taken, tries).1) && Draw(g, seed, taken, tries).1 != taken
    decreases tries
  {
    if tries > 1 {
      DrawLands(g, g.next(seed), taken, tries - 1);
    }
  }

  /** A new candidate in place of the one held (autoip_select). */
  function Select(g: Source, c: Ctx, rand: u32): Ctx {
    var d := Draw(g, g.next(g.xor(c.seed, rand)), c.ipaddr, DRAW_TRIES);
    c.(seed := d.0, ipaddr := d.1, tried := if c.tried < COUNT_MAX then c.tried + 1 else c.tried,
       held := false, deadline := 0)
  }

  /** A draw now, or past the conflict limit one held over (autoip_advance). */
  function Advance(g: Source, c: Ctx, rand: u32, now: u32): (Ctx, Out) {
    if c.conflicts > MAX_CONFLICTS then
      (c.(held := true, deadline := Add32(now, RATE_LIMIT_MS)), Out(BUSY, false))
    else
      (Select(g, c, rand), Out(OK, true))
  }

  function Start(g: Source, c: Ctx, mac: Option<Mac>, rand: u32, now: u32): (Ctx, Out) {
    if mac.None? then (c, Out(ERR, false))
    else if !c.state.Off? then (c, Out(if c.held then BUSY else OK, false))
    else
      var d := c.(seed := Seed(g, mac.value, rand), state := Checking);
      if d.held || !InRange(d.ipaddr) then Advance(g, d, 0, now) else (d, Out(OK, true))
  }

  function Conflict(g: Source, c: Ctx, rand: u32, now: u32): (Ctx, Out) {
    if c.state.Off? || c.held then (c, Out(ERR, false))
    else Advance(g, c.(conflicts := if c.conflicts < COUNT_MAX then c.conflicts + 1 else c.conflicts,
                    state := Checking), rand, now)
  }

  function Confirm(c: Ctx): (Ctx, Out) {
    if c.state.Off? || c.held then (c, Out(ERR, false))
    else (c.(state := Bound, conflicts := 0, deadline := 0), Out(OK, false))
  }

  function Stop(c: Ctx): (Ctx, Out) {
    (c.(state := Off), Out(OK, false))
  }

  function Tick(g: Source, c: Ctx, rand: u32, now: u32): (Ctx, Out) {
    if c.state.Off? || !c.held then (c, Out(OK, false))
    else if !Due(now, c.deadline) then (c, Out(BUSY, false))
    else (Select(g, c, rand), Out(OK, true))
  }

  /** What the caller is told it holds: nothing while off, nor while a draw is held over (autoip_report). */
  function Reported(c: Ctx): u32 {
    if c.state.Off? || c.held then 0 else c.ipaddr
  }

  datatype Op =
    | OpStart(mac: Option<Mac>, rand: u32)
    | OpConflict(rand: u32)
    | OpConfirm
    | OpStop
    | OpTick(rand: u32)

  function Step(g: Source, c: Ctx, op: Op, now: u32): (Ctx, Out) {
    match op
    case OpStart(mac, rand) => Start(g, c, mac, rand, now)
    case OpConflict(rand) => Conflict(g, c, rand, now)
    case OpConfirm => Confirm(c)
    case OpStop => Stop(c)
    case OpTick(rand) => Tick(g, c, rand, now)
  }

  /** A new address drawn: when, over how many counted conflicts, and in place of what. */
  datatype Selection = Selection(at: nat, conflicts: u8, addr: u32, replaced: u32)

  /** One call: the true time it is made at, and that time as the wrapping clock reads it. */
  datatype Event = Event(op: Op, at: nat, now: u32)

  /** A whole run seen from outside: true time, the draws made, and when each held draw was held. */
  datatype Run = Run(c: Ctx, clock: nat, drawn: seq<Selection>, heldAt: nat)

  const BEGIN: Run := Run(CLEARED, 0, [], 0)

  /** The run after a call that left context `c`: a call that drew is one that left another candidate. */
  function Record(r: Run, c: Ctx, clock: nat): Run {
    Run(c, clock,
        if c.ipaddr != r.c.ipaddr then r.drawn + [Selection(clock, c.conflicts, c.ipaddr, r.c.ipaddr)] else r.drawn,
        if c.held && (c.deadline != r.c.deadline || !r.c.held) then clock else r.heldAt)
  }

  function After(g: Source, r: Run, e: Event): Run {
    Record(r, Step(g, r.c, e.op, e.now).0, e.at)
  }

  function RunOf(g: Source, events: seq<Event>): Run
    decreases |events|
  {
    if events == [] then BEGIN else After(g, RunOf(g, events[..|events| - 1]), events[|events| - 1])
  }

  /** A clock that never goes back, read mod 2^32. */
  ghost predicate OnClock(events: seq<Event>) {
    && (forall k :: 0 <= k < |events| ==> events[k].now == Wrap32(events[k].at))
    && (forall j, k :: 0 <= j < k < |events| ==> events[j].at <= events[k].at)
  }

  /** Every draw is in range and new; past the limit it is an interval after every draw before it. */
  ghost predicate WellSpaced(drawn: seq<Selection>) {
    && (forall k :: 0 <= k < |drawn| ==> InRange(drawn[k].addr) && drawn[k].addr != drawn[k].replaced)
    && (forall j, k :: 0 <= j < k < |drawn| ==>
          && drawn[j].at <= drawn[k].at
          && (drawn[k].conflicts > MAX_CONFLICTS ==> drawn[k].at >= drawn[j].at + RATE_LIMIT_MS))
  }

  /** What holds between calls: a candidate out is in range, and a draw is held over only past the limit. */
  ghost predicate Settled(c: Ctx) {
    (!c.held && !c.state.Off? ==> InRange(c.ipaddr)) && (c.held ==> c.conflicts > MAX_CONFLICTS && !c.state.Bound?)
  }

  ghost predicate Inv(r: Run) {
    && WellSpaced(r.drawn)
    && (r.drawn == [] ==> r.c.ipaddr == 0)
    && (r.drawn != [] ==> r.c.ipaddr == r.drawn[|r.drawn| - 1].addr && r.drawn[|r.drawn| - 1].at <= r.clock)
    && (r.c.held ==>
          && r.c.deadline == Wrap32(r.heldAt + RATE_LIMIT_MS)
          && r.heldAt <= r.clock
          && (r.drawn != [] ==> r.drawn[|r.drawn| - 1].at <= r.heldAt))
    && (r.drawn == [] ==> r.c.conflicts == 0)
    && Settled(r.c)
  }

  lemma DueNeverEarly(from: nat, at: nat)
    requires from <= at && Due(Wrap32(at), Wrap32(from + RATE_LIMIT_MS))
    ensures at >= from + RATE_LIMIT_MS
  {
    if at < from + RATE_LIMIT_MS {
      WrappedNegativeDifference(at, from + RATE_LIMIT_MS);
    }
  }

  /** A candidate taken over from another: only its own fields change, and it is a new one in range. */
  ghost predicate Replaced(c: Ctx, d: Ctx) {
    InRange(d.ipaddr) && d.ipaddr != c.ipaddr && !d.held
  }

  ghost predicate HeldOver(c: Ctx, d: Ctx, now: u32) {
    d.ipaddr == c.ipaddr && d.held && d.conflicts > MAX_CONFLICTS && d.deadline == Add32(now, RATE_LIMIT_MS)
  }

  lemma SelectReplaces(g: Source, c: Ctx, rand: u32)
    ensures Replaced(c, Select(g, c, rand)) && Select(g, c, rand).conflicts == c.conflicts
      && Select(g, c, rand).state == c.state
  {
    DrawLands(g, g.next(g.xor(c.seed, rand)), c.ipaddr, DRAW_TRIES);
  }

  /** The three things a call can do to the candidate. */
  ghost predicate Moves(c: Ctx, d: Ctx, now: u32) {
    || (d.ipaddr == c.ipaddr && d.held == c.held && (c.held ==> d.deadline == c.deadline && d.conflicts == c.conflicts)
        && (d.conflicts == c.conflicts || d.conflicts == 0))
    || (HeldOver(c, d, now) && (c.conflicts == d.conflicts || InRange(c.ipaddr)))
    || (Replaced(c, d)
        && (c.conflicts == d.conflicts || InRange(c.ipaddr))
        && (d.conflicts > MAX_CONFLICTS ==> c.held && Due(now, c.deadline) && d.conflicts == c.conflicts))
  }

  /** What a call answers with fits what it did: a claim is asked for only with a candidate out. */
  ghost predicate Answers(c: Ctx, r: (Ctx, Out), now: u32) {
    Moves(c, r.0, now) && Settled(r.0) && (r.1.claim ==> r.0.state.Checking? && !r.0.held)
  }

  lemma AdvanceMoves(g: Source, c: Ctx, rand: u32, now: u32)
    requires c.state.Checking?
    ensures var (d, out) := Advance(g, c, rand, now);
            && d.conflicts == c.conflicts && d.state.Checking?
            && out.claim == (c.conflicts <= MAX_CONFLICTS)
            && (if out.claim then Replaced(c, d) else HeldOver(c, d, now))
  {
    SelectReplaces(g, c, rand);
  }

  lemma StartMoves(g: Source, c: Ctx, mac: Option<Mac>, rand: u32, now: u32)
    requires Settled(c)
    ensures Answers(c, Start(g, c, mac, rand, now), now)
  {
    if mac.Some? && c.state.Off? {
      AdvanceMoves(g, c.(seed := Seed(g, mac.value, rand), state := Checking), 0, now);
    }
  }

  lemma ConflictMoves(g: Source, c: Ctx, rand: u32, now: u32)
    requires Settled(c)
    ensures Answers(c, Conflict(g, c, rand, now), now)
  {
    var n := if c.conflicts < COUNT_MAX then c.conflicts + 1 else c.conflicts;
    AdvanceMoves(g, c.(conflicts := n, state := Checking), rand, now);
  }

  lemma TickMoves(g: Source, c: Ctx, rand: u32, now: u32)
    requires Settled(c)
    ensures Answers(c, Tick(g, c, rand, now), now)
  {
    SelectReplaces(g, c, rand);
  }

  lemma StepMoves(g: Source, c: Ctx, op: Op, now: u32)
    requires Settled(c)
    ensures Answers(c, Step(g, c, op, now), now)
  {
    match op {
      case OpStart(mac, rand) => StartMoves(g, c, mac, rand, now);
      case OpConflict(rand) => ConflictMoves(g, c, rand, now);
      case OpConfirm =>
      case OpStop =>
      case OpTick(rand) => TickMoves(g, c, rand, now);
    }
  }

  lemma DrawnAppended(drawn: seq<Selection>, s: Selection)
    requires WellSpaced(drawn) && InRange(s.addr) && s.addr != s.replaced
    requires drawn != [] ==>
      var last := drawn[|drawn| - 1];
      last.at <= s.at && (s.conflicts > MAX_CONFLICTS ==> s.at >= last.at + RATE_LIMIT_MS)
    ensures WellSpaced(drawn + [s])
  {
  }

  lemma RecordKeeps(r: Run, d: Ctx, clock: nat)
    requires Inv(r) && Settled(d) && r.clock <= clock && Moves(r.c, d, Wrap32(clock))
    ensures Inv(Record(r, d, clock))
  {
    HeldFrom(clock);
    if r.c.ipaddr != d.ipaddr {
      DrawKeeps(r, d, clock);
    }
  }

  lemma HeldFrom(clock: nat)
    ensures Add32(Wrap32(clock), RATE_LIMIT_MS) == Wrap32(clock + RATE_LIMIT_MS)
  {
  }

  /** An address drawn keeps the spacing: past the limit it was held over, and its deadline has been reached. */
  lemma DrawKeeps(r: Run, d: Ctx, clock: nat)
    requires Inv(r) && r.clock <= clock && Moves(r.c, d, Wrap32(clock)) && r.c.ipaddr != d.ipaddr
    ensures WellSpaced(r.drawn + [Selection(clock, d.conflicts, d.ipaddr, r.c.ipaddr)])
  {
    if d.conflicts > MAX_CONFLICTS {
      DueNeverEarly(r.heldAt, clock);
    }
    DrawnAppended(r.drawn, Selection(clock, d.conflicts, d.ipaddr, r.c.ipaddr));
  }

  lemma StepKeeps(g: Source, r: Run, e: Event)
    requires Inv(r) && r.clock <= e.at && e.now == Wrap32(e.at)
    ensures Inv(After(g, r, e))
  {
    StepMoves(g, r.c, e.op, e.now);
    RecordKeeps(r, Step(g, r.c, e.op, e.now).0, e.at);
  }

  lemma {:induction false} RunKeeps(g: Source, events: seq<Event>)
    requires OnClock(events)
    ensures Inv(RunOf(g, events)) && RunOf(g, events).clock == if events == [] then 0 else events[|events| - 1].at
    decreases |events|
  {
    if events != [] {
      var before := events[..|events| - 1];
      RunKeeps(g, before);
      assert before != [] ==> before[|before| - 1] == events[|events| - 2];
      StepKeeps(g, RunOf(g, before), events[|events| - 1]);
    }
  }

  /**
   * Over every run, whatever the random words and however the clock wraps: each address drawn is in section
   * 2.1's range and is not the one it replaces, and one drawn past MAX_CONFLICTS conflicts comes at least
   * RATE_LIMIT_INTERVAL after every one before it.
   */
  lemma DrawsAreRateLimited(g: Source, events: seq<Event>)
    requires OnClock(events)
    ensures WellSpaced(RunOf(g, events).drawn)
  {
    RunKeeps(g, events);
  }

  /** Over every run, an address reported out or handed over to be claimed is one of the range's own. */
  lemma ReportsAreInRange(g: Source, events: seq<Event>, op: Op, now: u32)
    requires OnClock(events)
    ensures var (c, out) := Step(g, RunOf(g, events).c, op, now);
            && (Reported(c) == 0 || InRange(Reported(c)))
            && (out.claim ==> InRange(Reported(c)) && c.state.Checking?)
            && (c.state.Bound? ==> InRange(Reported(c)))
  {
    RunKeeps(g, events);
    StepMoves(g, RunOf(g, events).c, op, now);
  }
}
