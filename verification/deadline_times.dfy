/**
 * The deadline list in true time: while the deadlines and the clock lie within 2^31 ms of each other it is sorted by
 * true deadline, ties in the order they were armed, across any wrap of the 32-bit count.
 */
module DeadlineTimes {
  import opened Words
  import opened DeadlineList

  /** The half-range comparison is exact exactly inside its window of true time. */
  lemma BeforeIsTrueOrder(a: int, b: int)
    requires -TWO_32 <= a - b < TWO_32
    ensures (Before(Wrap32(a), Wrap32(b)) <==> a < b) <==> -TWO_31 <= a - b < TWO_31
  {
    if a >= b {
      WrappedDifference(a, b);
    } else {
      WrappedNegativeDifference(a, b);
    }
  }

  /** An armed deadline with its unwrapped time and the count of arms before it. */
  datatype Timed = Timed(key: Key, due: int, stamp: nat, flags: u8)

  datatype Ideal = Ideal(list: seq<Timed>, now: int, stamp: nat)

  function Projected(t: Timed): Entry {
    Entry(t.key, Wrap32(t.due), t.flags)
  }

  function ProjectList(list: seq<Timed>): (p: seq<Entry>)
    ensures |p| == |list|
    ensures forall i :: 0 <= i < |list| ==> p[i] == Projected(list[i])
  {
    seq(|list|, i requires 0 <= i < |list| => Projected(list[i]))
  }

  function Project(t: Ideal): State {
    State(ProjectList(t.list), Wrap32(t.now))
  }

  /** Earlier true deadline first, and among equals the one armed first. */
  predicate Sorted(list: seq<Timed>) {
    forall i, j :: 0 <= i < j < |list| ==>
      list[i].due < list[j].due || (list[i].due == list[j].due && list[i].stamp < list[j].stamp)
  }

  predicate Near(list: seq<Timed>, due: int) {
    forall i :: 0 <= i < |list| ==> -TWO_31 <= due - list[i].due < TWO_31
  }

  /** Every armed deadline lies in the window the comparison with the recorded clock is exact in. */
  predicate ClockNear(t: Ideal) {
    Near(t.list, t.now)
  }

  predicate Stamped(t: Ideal) {
    forall i :: 0 <= i < |t.list| ==> t.list[i].stamp < t.stamp
  }

  /** The caller's calls, in true time. */
  datatype Op = ArmAt(key: Key, due: int, flags: u8) | CancelKey(key: Key) | TickTo(now: int) | ExpireOne

  function TimedFind(list: seq<Timed>, key: Key): nat {
    Find(ProjectList(list), key)
  }

  function TimedInsert(list: seq<Timed>, t: Timed): seq<Timed> {
    if |list| == 0 || t.due < list[0].due then [t] + list
    else [list[0]] + TimedInsert(list[1..], t)
  }

  function TimedWithout(list: seq<Timed>, i: nat): seq<Timed>
    requires i < |list|
  {
    list[..i] + list[i + 1..]
  }

  /** The list an arm leaves its entry to be inserted into. */
  function ArmBase(t: Ideal, key: Key): seq<Timed> {
    var i := TimedFind(t.list, key);
    if i < |t.list| then TimedWithout(t.list, i) else t.list
  }

  /** What an unbounded clock would do. */
  function TrueStep(t: Ideal, capacity: nat, op: Op): Ideal {
    match op
    case ArmAt(key, due, flags) =>
      var i := TimedFind(t.list, key);
      if !Named(key) || (i == |t.list| && |t.list| >= capacity) then t
      else t.(list := TimedInsert(ArmBase(t, key), Timed(key, due, t.stamp, flags)), stamp := t.stamp + 1)
    case CancelKey(key) =>
      var i := TimedFind(t.list, key);
      if !Named(key) || i == |t.list| then t else t.(list := TimedWithout(t.list, i))
    case TickTo(now) => t.(now := now)
    case ExpireOne =>
      if |t.list| == 0 || t.now < t.list[0].due then t else t.(list := t.list[1..])
  }

  /** What the wrapped list does with the same calls. */
  function WrappedStep(s: State, capacity: nat, op: Op): State {
    match op
    case ArmAt(key, due, flags) => Arm(s, capacity, Entry(key, Wrap32(due), flags)).0
    case CancelKey(key) => Cancel(s, key).0
    case TickTo(now) => Tick(s, Wrap32(now))
    case ExpireOne => Expire(s).0
  }

  /** A new deadline within the window of those it is compared with, an expiry within the clock's. */
  predicate InWindow(t: Ideal, op: Op) {
    match op
    case ArmAt(key, due, _) => Near(ArmBase(t, key), due)
    case ExpireOne => ClockNear(t)
    case _ => true
  }

  const CLEARED: Ideal := Ideal([], 0, 0)

  function TrueRun(capacity: nat, ops: seq<Op>): Ideal {
    if |ops| == 0 then CLEARED else TrueStep(TrueRun(capacity, ops[..|ops| - 1]), capacity, ops[|ops| - 1])
  }

  function WrappedRun(capacity: nat, ops: seq<Op>): State {
    if |ops| == 0 then State([], 0) else WrappedStep(WrappedRun(capacity, ops[..|ops| - 1]), capacity, ops[|ops| - 1])
  }

  ghost predicate RunInWindow(capacity: nat, ops: seq<Op>) {
    forall k :: 0 <= k < |ops| ==> InWindow(TrueRun(capacity, ops[..k]), ops[k])
  }

  lemma {:induction false} InsertProjects(list: seq<Timed>, t: Timed)
    requires Near(list, t.due)
    ensures ProjectList(TimedInsert(list, t)) == Insert(ProjectList(list), Projected(t))
  {
    var p := ProjectList(list);
    if |list| > 0 {
      BeforeIsTrueOrder(t.due, list[0].due);
      if t.due < list[0].due {
        assert ProjectList([t] + list) == [Projected(t)] + p;
      } else {
        InsertProjects(list[1..], t);
        assert p[1..] == ProjectList(list[1..]);
        assert ProjectList([list[0]] + TimedInsert(list[1..], t)) == [p[0]] + ProjectList(TimedInsert(list[1..], t));
      }
    } else {
      assert p == [];
      assert ProjectList([t] + list) == [Projected(t)] + p;
    }
  }

  lemma WithoutProjects(list: seq<Timed>, i: nat)
    requires i < |list|
    ensures ProjectList(TimedWithout(list, i)) == Without(ProjectList(list), i)
  {
  }

  lemma {:induction false} InsertSorted(list: seq<Timed>, t: Timed)
    requires Sorted(list)
    requires forall i :: 0 <= i < |list| ==> list[i].stamp < t.stamp
    ensures Sorted(TimedInsert(list, t))
    ensures forall x :: x in TimedInsert(list, t) <==> x == t || x in list
  {
    if |list| == 0 || t.due < list[0].due {
    } else {
      InsertSorted(list[1..], t);
      var rest := TimedInsert(list[1..], t);
      assert forall x :: x in list <==> x == list[0] || x in list[1..];
      assert forall j :: 0 <= j < |rest| ==> rest[j] in rest;
    }
  }

  /** One call in the window: the wrapped list follows the true one, which stays sorted. */
  lemma StepSimulates(t: Ideal, capacity: nat, op: Op)
    requires Sorted(t.list) && Stamped(t) && InWindow(t, op)
    ensures var t' := TrueStep(t, capacity, op);
            Sorted(t'.list) && Stamped(t') && Project(t') == WrappedStep(Project(t), capacity, op)
  {
    match op
    case ArmAt(key, due, flags) => ArmSimulates(t, capacity, key, due, flags);
    case CancelKey(key) => CancelSimulates(t, capacity, key);
    case TickTo(now) =>
    case ExpireOne => ExpireSimulates(t, capacity);
  }

  lemma CancelSimulates(t: Ideal, capacity: nat, key: Key)
    requires Sorted(t.list) && Stamped(t)
    ensures var t' := TrueStep(t, capacity, CancelKey(key));
            Sorted(t'.list) && Stamped(t') && Project(t') == Cancel(Project(t), key).0
  {
    var i := TimedFind(t.list, key);
    if i < |t.list| {
      WithoutProjects(t.list, i);
      WithoutSorted(t, i);
    }
  }

  lemma WithoutSorted(t: Ideal, i: nat)
    requires Sorted(t.list) && Stamped(t) && i < |t.list|
    ensures Sorted(TimedWithout(t.list, i)) && Stamped(t.(list := TimedWithout(t.list, i)))
  {
  }

  lemma ExpireSimulates(t: Ideal, capacity: nat)
    requires Sorted(t.list) && Stamped(t) && ClockNear(t)
    ensures var t' := TrueStep(t, capacity, ExpireOne);
            Sorted(t'.list) && Stamped(t') && Project(t') == Expire(Project(t)).0
  {
    if |t.list| > 0 {
      BeforeIsTrueOrder(t.now, t.list[0].due);
      assert ProjectList(t.list)[1..] == ProjectList(t.list[1..]);
    }
  }

  lemma ArmSimulates(t: Ideal, capacity: nat, key: Key, due: int, flags: u8)
    requires Sorted(t.list) && Stamped(t) && Near(ArmBase(t, key), due)
    ensures var t' := TrueStep(t, capacity, ArmAt(key, due, flags));
            && Sorted(t'.list) && Stamped(t')
            && Project(t') == Arm(Project(t), capacity, Entry(key, Wrap32(due), flags)).0
  {
    var i := TimedFind(t.list, key);
    var base := ArmBase(t, key);
    var e := Timed(key, due, t.stamp, flags);
    if i < |t.list| {
      WithoutProjects(t.list, i);
      WithoutSorted(t, i);
    }
    InsertProjects(base, e);
    InsertSorted(base, e);
    InsertStamped(base, e);
  }

  lemma InsertStamped(base: seq<Timed>, e: Timed)
    requires Sorted(base) && forall i :: 0 <= i < |base| ==> base[i].stamp < e.stamp
    ensures var list := TimedInsert(base, e); forall j :: 0 <= j < |list| ==> list[j].stamp <= e.stamp
  {
    InsertSorted(base, e);
    var list := TimedInsert(base, e);
    forall j | 0 <= j < |list| ensures list[j].stamp <= e.stamp {
      assert list[j] in list;
    }
  }

  /** Over every run that stays in the window the wrapped list is the true one, sorted, across any wrap. */
  lemma {:induction false} RunIsSorted(capacity: nat, ops: seq<Op>)
    requires RunInWindow(capacity, ops)
    ensures var t := TrueRun(capacity, ops);
            Sorted(t.list) && Stamped(t) && WrappedRun(capacity, ops) == Project(t)
  {
    if |ops| == 0 {
      assert ProjectList([]) == [];
    } else {
      var k := |ops| - 1;
      var before := ops[..k];
      forall j | 0 <= j < k ensures InWindow(TrueRun(capacity, before[..j]), before[j]) {
        assert before[..j] == ops[..j];
      }
      RunIsSorted(capacity, before);
      StepSimulates(TrueRun(capacity, before), capacity, ops[k]);
    }
  }

  // --- draining ------------------------------------------------------------------

  /** Calling expire until it answers BUSY: what it handed back, and the list it left. */
  function Drain(s: State): (seq<Expiry>, State)
    decreases |s.list|
  {
    if !HeadDue(s) then ([], s)
    else
      var (s', x) := Expire(s);
      var (rest, last) := Drain(s');
      ([x] + rest, last)
  }

  /** How many of the first entries are due by `now`. */
  function DueCount(list: seq<Timed>, now: int): (n: nat)
    ensures n <= |list|
  {
    if |list| == 0 || now < list[0].due then 0 else 1 + DueCount(list[1..], now)
  }

  /** A drain hands back exactly the deadlines at or before the clock, in order, and leaves the rest. */
  lemma {:induction false} DrainIsExact(t: Ideal)
    requires Sorted(t.list) && ClockNear(t)
    ensures var n := DueCount(t.list, t.now);
            var (out, last) := Drain(Project(t));
            && (forall i :: 0 <= i < |t.list| ==> (i < n <==> t.list[i].due <= t.now))
            && |out| == n
            && (forall i :: 0 <= i < n ==>
                  out[i] == Expiry(OK, t.list[i].key, Wrap32(t.list[i].due)))
            && last == Project(t.(list := t.list[n..]))
    decreases |t.list|
  {
    if |t.list| == 0 {
      assert t.list[0..] == t.list;
    } else {
      BeforeIsTrueOrder(t.now, t.list[0].due);
      if t.now < t.list[0].due {
        assert t.list[0..] == t.list;
      } else {
        var rest := t.(list := t.list[1..]);
        DrainIsExact(rest);
        var s := Project(t);
        assert Expire(s).0 == Project(rest);
        var n := DueCount(rest.list, t.now);
        assert rest.list[n..] == t.list[n + 1..];
        forall i | 0 <= i < |t.list| ensures i < n + 1 <==> t.list[i].due <= t.now {
          if i > 0 {
            assert t.list[i] == rest.list[i - 1];
          }
        }
        var (out, _) := Drain(s);
        assert out[0] == Expiry(OK, t.list[0].key, Wrap32(t.list[0].due));
        forall i | 0 <= i < n + 1 ensures out[i] == Expiry(OK, t.list[i].key, Wrap32(t.list[i].due)) {
          if i > 0 {
            assert out[i] == Drain(Project(rest)).0[i - 1];
          }
        }
      }
    }
  }

  /** The reported wait is the true time to the earliest deadline, zero when one is due. */
  lemma UntilIsExact(t: Ideal)
    requires Sorted(t.list) && ClockNear(t) && |t.list| > 0
    ensures forall i :: 0 <= i < |t.list| ==> t.list[0].due <= t.list[i].due
    ensures Until(Project(t)) == if t.list[0].due <= t.now then 0 else t.list[0].due - t.now
  {
    var due := t.list[0].due;
    BeforeIsTrueOrder(t.now, due);
    if t.now < due {
      WrappedDifference(due, t.now);
    }
  }

  /** After any run in the window, draining answers for the run's own true deadlines. */
  lemma RunThenDrain(capacity: nat, ops: seq<Op>)
    requires RunInWindow(capacity, ops) && ClockNear(TrueRun(capacity, ops))
    ensures var t := TrueRun(capacity, ops);
            var n := DueCount(t.list, t.now);
            var (out, last) := Drain(WrappedRun(capacity, ops));
            && (forall i :: 0 <= i < |t.list| ==> (i < n <==> t.list[i].due <= t.now))
            && |out| == n && (forall i :: 0 <= i < n ==> out[i] == Expiry(OK, t.list[i].key, Wrap32(t.list[i].due)))
            && last == Project(t.(list := t.list[n..]))
  {
    RunIsSorted(capacity, ops);
    DrainIsExact(TrueRun(capacity, ops));
  }

  /** With no assumption about the clock, every run keeps one entry per pair and no more than the slots. */
  lemma {:induction false} RunKeepsMap(capacity: nat, ops: seq<Op>)
    ensures var s := WrappedRun(capacity, ops);
            Distinct(s.list) && |s.list| <= capacity && |AsMap(s.list)| == |s.list|
  {
    var s := WrappedRun(capacity, ops);
    if |ops| > 0 {
      var k := |ops| - 1;
      RunKeepsMap(capacity, ops[..k]);
      var before := WrappedRun(capacity, ops[..k]);
      match ops[k] {
        case ArmAt(key, due, flags) => ArmRefinesMap(before, capacity, Entry(key, Wrap32(due), flags));
        case CancelKey(key) => CancelRefinesMap(before, key);
        case TickTo(now) =>
        case ExpireOne => ExpireRefinesMap(before);
      }
    }
    AsMapSize(s.list);
  }
}
