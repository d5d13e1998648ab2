/**
 * What the ARP translation table of src/arp/arp_table.c does, over values: the
 * rows, the holds, and the queue of holds each row has waiting on it.
 */
module ArpModel {
  import opened Words
  import opened Counting
  import opened ArpPacket

  const FRAME_MAX: nat := 1514
  const MAXAGE_MS: u32 := 300_000
  const MAXPENDING_MS: u32 := 5_000
  const REQUEST_MIN_MS: u32 := 1_000
  const SWEEP_MS: u32 := 1_000

  /** A pinned receive descriptor, the octets in it, and the address it waits on. */
  datatype Frame = Frame(desc: u16, len: u16, spa: u32)

  datatype RowState = Free | Pending | Stable

  datatype Row = Row(state: RowState, pro: u16, spa: u32, sha: seq<u8>, netif: u8, used: u32, req: u32, tries: u8)

  const ZERO_SHA: seq<u8> := [0, 0, 0, 0, 0, 0]
  const EMPTY_ROW: Row := Row(Free, 0, 0, ZERO_SHA, 0, 0, 0, 0)

  /** A hold is free, waits on a row, or waits for the tick to hand its descriptor back. */
  datatype Hold = NoFrame | Wait(frame: Frame, deadline: u32, row: nat) | Reclaim(frame: Frame)

  datatype Table = Table(rows: seq<Row>, holds: seq<Hold>, queues: seq<seq<nat>>, sweep: u32)

  // --- what every call keeps -----------------------------------------------------

  predicate FrameOk(f: Frame) {
    0 < f.len <= FRAME_MAX && f.spa != 0
  }

  predicate RowOk(r: Row) {
    && |r.sha| == HLN_ETHERNET
    && (r.state != Free ==> r.pro == PRO_IPV4 && r.spa != 0)
    && (r.state == Stable ==> !IsGroup(r.sha))
  }

  /** One live row at most for an address. */
  predicate OneRowPerAddress(rows: seq<Row>) {
    forall i, j :: 0 <= i < j < |rows| && rows[i].state != Free && rows[j].state != Free ==> rows[i].spa != rows[j].spa
  }

  predicate RowsOk(rows: seq<Row>) {
    (forall i :: 0 <= i < |rows| ==> RowOk(rows[i])) && OneRowPerAddress(rows)
  }

  predicate WaitsOn(h: Hold, i: nat, spa: u32) {
    h.Wait? && h.row == i && h.frame.spa == spa
  }

  /** Row `i`'s queue holds distinct holds that wait on it for its address, and a free row's holds none. */
  ghost predicate QueueOk(t: Table, i: nat)
    requires i < |t.rows| && i < |t.queues|
  {
    && NoRepeat(t.queues[i])
    && Below(t.queues[i], |t.holds|)
    && (forall k :: 0 <= k < |t.queues[i]| ==> WaitsOn(t.holds[t.queues[i][k]], i, t.rows[i].spa))
    && (t.rows[i].state == Free ==> t.queues[i] == [])
  }

  /** A waiting hold is on the queue of the row it names. */
  ghost predicate HoldOk(t: Table, h: nat)
    requires h < |t.holds|
  {
    match t.holds[h]
    case NoFrame => true
    case Reclaim(f) => FrameOk(f)
    case Wait(f, _, i) => FrameOk(f) && i < |t.queues| && h in t.queues[i]
  }

  ghost predicate Inv(t: Table) {
    && |t.queues| == |t.rows|
    && RowsOk(t.rows)
    && (forall i :: 0 <= i < |t.rows| ==> QueueOk(t, i))
    && (forall h :: 0 <= h < |t.holds| ==> HoldOk(t, h))
  }

  /** A hold is on a row's queue exactly when it waits on that row. */
  lemma QueuedExactly(t: Table, i: nat, h: nat)
    requires Inv(t) && i < |t.rows| && h < |t.holds|
    ensures h in t.queues[i] <==> t.holds[h].Wait? && t.holds[h].row == i
    ensures h in t.queues[i] ==> t.rows[i].state != Free && t.rows[i].spa == t.holds[h].frame.spa
  {
    assert HoldOk(t, h) && QueueOk(t, i);
    if h in t.queues[i] {
      var k :| 0 <= k < |t.queues[i]| && t.queues[i][k] == h;
      assert WaitsOn(t.holds[t.queues[i][k]], i, t.rows[i].spa);
    }
  }

  // --- the frames the holds pin --------------------------------------------------

  function Pinned(h: Hold): multiset<Frame> {
    if h.NoFrame? then multiset{} else multiset{h.frame}
  }

  function Held(holds: seq<Hold>): multiset<Frame> {
    if |holds| == 0 then multiset{} else Held(holds[..|holds| - 1]) + Pinned(holds[|holds| - 1])
  }

  function InUse(holds: seq<Hold>): (n: nat)
    ensures n <= |holds|
  {
    if |holds| == 0 then 0 else InUse(holds[..|holds| - 1]) + Used(holds[|holds| - 1])
  }

  lemma AddBoth<T>(a: multiset<T>, p: multiset<T>, b: multiset<T>, q: multiset<T>, last: multiset<T>)
    requires a + p == b + q
    ensures (a + last) + p == (b + last) + q
  {
    assert (a + last) + p == (a + p) + last;
    assert (b + last) + q == (b + q) + last;
  }

  lemma AddSwap<T>(a: multiset<T>, p: multiset<T>, q: multiset<T>)
    ensures (a + p) + q == (a + q) + p
  {
  }

  lemma HeldLast(rest: seq<Hold>, y: Hold)
    ensures Held(rest + [y]) == Held(rest) + Pinned(y)
  {
    assert (rest + [y])[..|rest|] == rest;
  }

  lemma HeldInit(holds: seq<Hold>, h: nat, x: Hold)
    requires h < |holds| - 1
    ensures Held(holds[h := x]) == Held(holds[..|holds| - 1][h := x]) + Pinned(holds[|holds| - 1])
  {
    assert holds[h := x][..|holds| - 1] == holds[..|holds| - 1][h := x];
  }

  lemma {:induction false} HeldUpdate(holds: seq<Hold>, h: nat, x: Hold)
    requires h < |holds|
    ensures Held(holds[h := x]) + Pinned(holds[h]) == Held(holds) + Pinned(x)
  {
    var n := |holds| - 1;
    if h == n {
      HeldLast(holds[..n], x);
      assert holds[h := x] == holds[..n] + [x];
      AddSwap(Held(holds[..n]), Pinned(x), Pinned(holds[n]));
    } else {
      HeldUpdate(holds[..n], h, x);
      HeldInit(holds, h, x);
      AddBoth(Held(holds[..n][h := x]), Pinned(holds[h]), Held(holds[..n]), Pinned(x), Pinned(holds[n]));
    }
  }

  function Used(h: Hold): nat {
    if h.NoFrame? then 0 else 1
  }

  lemma {:induction false} InUseUpdate(holds: seq<Hold>, h: nat, x: Hold)
    requires h < |holds|
    ensures InUse(holds[h := x]) == InUse(holds) - Used(holds[h]) + Used(x)
  {
    var n := |holds| - 1;
    if h == n {
      assert holds[h := x][..n] == holds[..n];
    } else {
      InUseUpdate(holds[..n], h, x);
      assert holds[h := x][..n] == holds[..n][h := x];
    }
  }

  /** A hold given up takes its one frame out of the pool. */
  lemma HeldDrop(holds: seq<Hold>, h: nat)
    requires h < |holds| && !holds[h].NoFrame?
    ensures Held(holds) == Held(holds[h := NoFrame]) + multiset{holds[h].frame}
    ensures InUse(holds) == InUse(holds[h := NoFrame]) + 1
  {
    HeldUpdate(holds, h, NoFrame);
    InUseUpdate(holds, h, NoFrame);
  }

  /** Each hold of two pools is free in both or pins the same frame in both. */
  predicate SamePins(a: seq<Hold>, b: seq<Hold>) {
    && |a| == |b|
    && forall h :: 0 <= h < |a| ==> a[h].NoFrame? == b[h].NoFrame? && (!a[h].NoFrame? ==> a[h].frame == b[h].frame)
  }

  /** Two pools whose holds pin the same frames pin the same multiset. */
  lemma {:induction false} HeldSame(a: seq<Hold>, b: seq<Hold>)
    requires SamePins(a, b)
    ensures Held(a) == Held(b) && InUse(a) == InUse(b)
  {
    if |a| > 0 {
      var n := |a| - 1;
      HeldSame(a[..n], b[..n]);
    }
  }

  lemma {:induction false} HeldSize(holds: seq<Hold>)
    ensures |Held(holds)| == InUse(holds)
  {
    if |holds| > 0 {
      HeldSize(holds[..|holds| - 1]);
    }
  }

  // --- rows ----------------------------------------------------------------------

  predicate Matches(r: Row, pro: u16, spa: u32) {
    r.state != Free && r.pro == pro && r.spa == spa
  }

  /** The row holding a pair, or NONE (arp_row_find). */
  function FindFrom(rows: seq<Row>, pro: u16, spa: u32, k: nat): (i: nat)
    requires k <= |rows| < NONE
    ensures i == NONE || (k <= i < |rows| && Matches(rows[i], pro, spa))
    ensures i == NONE ==> forall j :: k <= j < |rows| ==> !Matches(rows[j], pro, spa)
    decreases |rows| - k
  {
    if k == |rows| then NONE
    else if Matches(rows[k], pro, spa) then k
    else FindFrom(rows, pro, spa, k + 1)
  }

  function FindRow(rows: seq<Row>, pro: u16, spa: u32): nat
    requires |rows| < NONE
  {
    FindFrom(rows, pro, spa, 0)
  }

  function Released(h: Hold, i: nat): Hold {
    if h.Wait? && h.row == i then Reclaim(h.frame) else h
  }

  /** Row `i` emptied, every hold waiting on it made reclaimable (arp_row_free). */
  function FreeRow(t: Table, i: nat): Table
    requires i < |t.rows| && i < |t.queues|
  {
    t.(rows := t.rows[i := EMPTY_ROW],
       holds := seq(|t.holds|, h requires 0 <= h < |t.holds| => Released(t.holds[h], i)),
       queues := t.queues[i := []])
  }

  function FirstFree(rows: seq<Row>, k: nat): (i: nat)
    requires k <= |rows|
    ensures k <= i <= |rows|
    ensures i < |rows| ==> rows[i].state == Free
    ensures forall j :: k <= j < i ==> rows[j].state != Free
    decreases |rows| - k
  {
    if k == |rows| || rows[k].state == Free then k else FirstFree(rows, k + 1)
  }

  function Age(r: Row, now: u32): u32 {
    Sub32(now, r.used)
  }

  /** Among the first `n` rows with no holds, the one longest unseen, the last of them on a tie. */
  function Victim(t: Table, now: u32, n: nat): (v: Option<nat>)
    requires n <= |t.rows| == |t.queues|
    ensures v.Some? ==> v.value < n && t.queues[v.value] == []
  {
    if n == 0 then None
    else
      var v := Victim(t, now, n - 1);
      if t.queues[n - 1] == [] && (v.None? || Age(t.rows[n - 1], now) >= Age(t.rows[v.value], now))
      then Some(n - 1) else v
  }

  /** No row that could be taken has gone longer unseen than the one that is. */
  lemma {:induction false} VictimIsOldest(t: Table, now: u32, n: nat)
    requires n <= |t.rows| == |t.queues|
    ensures var v := Victim(t, now, n);
            && (v.None? <==> forall j :: 0 <= j < n ==> t.queues[j] != [])
            && (v.Some? ==> forall j :: 0 <= j < n && t.queues[j] == [] ==>
                  Age(t.rows[j], now) < Age(t.rows[v.value], now)
                  || (Age(t.rows[j], now) == Age(t.rows[v.value], now) && j <= v.value))
  {
    if n > 0 {
      VictimIsOldest(t, now, n - 1);
    }
  }

  /** A row for a new triplet: a free one, else the victim, freed first (arp_row_take). */
  function TakeRow(t: Table, now: u32): (Table, Option<nat>)
    requires |t.rows| == |t.queues|
  {
    var i := FirstFree(t.rows, 0);
    if i < |t.rows| then (t, Some(i))
    else
      var v := Victim(t, now, |t.rows|);
      if v.None? then (t, None) else (FreeRow(t, v.value), v)
  }

  function StableRow(spa: u32, sha: seq<u8>, netif: u8, now: u32): Row {
    Row(Stable, PRO_IPV4, spa, sha, netif, now, 0, 0)
  }

  /** RFC 826's merge and add over one triplet (arp_learn): the table, the row, and the merge flag. */
  function Learn(t: Table, spa: u32, sha: seq<u8>, netif: u8, now: u32, add: bool): (Table, nat, bool)
    requires |t.rows| == |t.queues| && |t.rows| < NONE && |sha| == HLN_ETHERNET
  {
    if IsGroup(sha) then (t, NONE, false)
    else
      var i := FindRow(t.rows, PRO_IPV4, spa);
      if i != NONE then (t.(rows := t.rows[i := StableRow(spa, sha, netif, now)]), i, true)
      else if !add then (t, NONE, false)
      else
        var (t', v) := TakeRow(t, now);
        if v.None? then (t', NONE, false)
        else (t'.(rows := t'.rows[v.value := StableRow(spa, sha, netif, now)]), v.value, false)
  }

  lemma FreeRowQueues(t: Table, i: nat)
    requires Inv(t) && i < |t.rows|
    ensures var t' := FreeRow(t, i); forall j :: 0 <= j < |t'.rows| ==> QueueOk(t', j)
  {
    var t' := FreeRow(t, i);
    forall j | 0 <= j < |t'.rows| ensures QueueOk(t', j) {
      assert QueueOk(t, j);
      forall k | 0 <= k < |t'.queues[j]| ensures WaitsOn(t'.holds[t'.queues[j][k]], j, t'.rows[j].spa) {
        assert WaitsOn(t.holds[t.queues[j][k]], j, t.rows[j].spa);
      }
    }
  }

  lemma FreeRowHolds(t: Table, i: nat)
    requires Inv(t) && i < |t.rows|
    ensures var t' := FreeRow(t, i); forall h :: 0 <= h < |t'.holds| ==> HoldOk(t', h)
  {
    var t' := FreeRow(t, i);
    forall h | 0 <= h < |t'.holds| ensures HoldOk(t', h) {
      assert HoldOk(t, h);
    }
  }

  lemma FreeRowRows(rows: seq<Row>, i: nat)
    requires RowsOk(rows) && i < |rows|
    ensures RowsOk(rows[i := EMPTY_ROW])
  {
  }

  /** Freeing a row loses no descriptor: what waited on it is still held. */
  lemma FreeRowKeeps(t: Table, i: nat)
    requires Inv(t) && i < |t.rows|
    ensures Inv(FreeRow(t, i)) && SamePins(FreeRow(t, i).holds, t.holds)
  {
    FreeRowRows(t.rows, i);
    FreeRowQueues(t, i);
    FreeRowHolds(t, i);
  }

  /** Row `i` written: free of holds or kept on its address, which no other live row has. */
  lemma PutRowKeeps(t: Table, i: nat, row: Row)
    requires Inv(t) && i < |t.rows| && RowOk(row) && row.state != Free
    requires t.queues[i] == [] || row.spa == t.rows[i].spa
    requires forall j :: 0 <= j < |t.rows| && j != i && t.rows[j].state != Free ==> t.rows[j].spa != row.spa
    ensures Inv(t.(rows := t.rows[i := row]))
  {
    var t' := t.(rows := t.rows[i := row]);
    forall j | 0 <= j < |t'.rows| ensures QueueOk(t', j) {
      assert QueueOk(t, j);
    }
    forall h | 0 <= h < |t'.holds| ensures HoldOk(t', h) {
      assert HoldOk(t, h);
    }
  }

  predicate NoRowFor(rows: seq<Row>, spa: u32) {
    forall j :: 0 <= j < |rows| && rows[j].state != Free ==> rows[j].spa != spa
  }

  lemma TakeRowKeeps(t: Table, now: u32)
    requires Inv(t)
    ensures var (t', v) := TakeRow(t, now);
            && Inv(t') && |t'.rows| == |t.rows| && |t'.holds| == |t.holds| && t'.sweep == t.sweep
            && Held(t'.holds) == Held(t.holds) && InUse(t'.holds) == InUse(t.holds)
            && (v.None? ==> t' == t && forall j :: 0 <= j < |t.rows| ==> t.queues[j] != [])
            && (v.Some? ==>
                  && v.value < |t'.rows| && t'.queues[v.value] == [] && t'.rows == t.rows[v.value := t'.rows[v.value]]
                  && t'.rows[v.value].state == Free)
  {
    var i := FirstFree(t.rows, 0);
    if i < |t.rows| {
      assert QueueOk(t, i);
      assert t.rows == t.rows[i := t.rows[i]];
    } else {
      var v := Victim(t, now, |t.rows|);
      VictimIsOldest(t, now, |t.rows|);
      if v.Some? {
        FreeRowKeeps(t, v.value);
        HeldSame(FreeRow(t, v.value).holds, t.holds);
      }
    }
  }

  /** The indices of the holds in use. */
  function UsedSet(holds: seq<Hold>): (s: set<nat>)
    ensures |s| == InUse(holds)
    ensures forall h: nat :: h in s <==> h < |holds| && !holds[h].NoFrame?
  {
    if |holds| == 0 then {}
    else
      var n := |holds| - 1;
      var s := UsedSet(holds[..n]);
      if holds[n].NoFrame? then s else s + {n}
  }

  /** When every row has holds waiting on it, there are as many holds in use as rows. */
  lemma FullTableUsesHolds(t: Table)
    requires Inv(t) && forall j :: 0 <= j < |t.rows| ==> t.queues[j] != []
    ensures |t.rows| <= InUse(t.holds)
  {
    var heads := seq(|t.rows|, i requires 0 <= i < |t.rows| => t.queues[i][0]);
    forall i | 0 <= i < |t.rows| ensures heads[i] < |t.holds| && WaitsOn(t.holds[heads[i]], i, t.rows[i].spa) {
      assert QueueOk(t, i);
    }
    assert NoRepeat(heads);
    ElementsSize(heads);
    forall h: nat | h in Elements(heads) ensures h in UsedSet(t.holds) {
      var i :| 0 <= i < |heads| && heads[i] == h;
    }
    SubsetSize(Elements(heads), UsedSet(t.holds));
  }

  /** With more rows than holds, or a hold free and as many, a row is always there to take. */
  lemma TakeRowNeverEmpty(t: Table, now: u32)
    requires Inv(t) && InUse(t.holds) < |t.rows|
    ensures TakeRow(t, now).1.Some?
  {
    TakeRowKeeps(t, now);
    if TakeRow(t, now).1.None? {
      FullTableUsesHolds(t);
    }
  }

  lemma LearnKeeps(t: Table, spa: u32, sha: seq<u8>, netif: u8, now: u32, add: bool)
    requires Inv(t) && |t.rows| < NONE && |sha| == HLN_ETHERNET && spa != 0
    ensures var (t', i, merged) := Learn(t, spa, sha, netif, now, add);
            && Inv(t') && |t'.rows| == |t.rows| && |t'.holds| == |t.holds|
            && Held(t'.holds) == Held(t.holds) && InUse(t'.holds) == InUse(t.holds)
            && (i == NONE ==> t' == t)
            && (i != NONE ==> i < |t.rows| && t'.rows == t.rows[i := StableRow(spa, sha, netif, now)])
  {
    if !IsGroup(sha) {
      var i := FindRow(t.rows, PRO_IPV4, spa);
      if i != NONE {
        PutRowKeeps(t, i, StableRow(spa, sha, netif, now));
      } else if add {
        TakeRowKeeps(t, now);
        var (t', v) := TakeRow(t, now);
        if v.Some? {
          assert NoRowFor(t.rows, spa);
          PutRowKeeps(t', v.value, StableRow(spa, sha, netif, now));
        }
      }
    }
  }

  // --- holds ---------------------------------------------------------------------

  /** The first free hold, or the pool's size (arp_hold_free). */
  function FirstHold(holds: seq<Hold>, k: nat): (h: nat)
    requires k <= |holds|
    ensures k <= h <= |holds|
    ensures h < |holds| ==> holds[h].NoFrame?
    ensures forall j :: k <= j < h ==> !holds[j].NoFrame?
    decreases |holds| - k
  {
    if k == |holds| || holds[k].NoFrame? then k else FirstHold(holds, k + 1)
  }

  /** A frame put in free hold `h` at the tail of row `i`'s queue (arp_hold_link). */
  function Append(t: Table, i: nat, h: nat, frame: Frame, deadline: u32): Table
    requires i < |t.queues| && h < |t.holds|
  {
    t.(holds := t.holds[h := Wait(frame, deadline, i)], queues := t.queues[i := t.queues[i] + [h]])
  }

  lemma AppendKeeps(t: Table, i: nat, h: nat, frame: Frame, deadline: u32)
    requires Inv(t) && i < |t.rows| && h < |t.holds| && t.holds[h].NoFrame?
    requires t.rows[i].state != Free && t.rows[i].spa == frame.spa && FrameOk(frame)
    ensures Inv(Append(t, i, h, frame, deadline))
  {
    var t' := Append(t, i, h, frame, deadline);
    forall j | 0 <= j < |t'.rows| ensures QueueOk(t', j) {
      assert QueueOk(t, j);
      forall k | 0 <= k < |t.queues[j]| ensures t.queues[j][k] != h {
        assert WaitsOn(t.holds[t.queues[j][k]], j, t.rows[j].spa);
      }
    }
    forall g | 0 <= g < |t'.holds| ensures HoldOk(t', g) {
      assert HoldOk(t, g);
    }
  }

  lemma AppendHeld(t: Table, i: nat, h: nat, frame: Frame, deadline: u32)
    requires i < |t.queues| && h < |t.holds| && t.holds[h].NoFrame?
    ensures Held(Append(t, i, h, frame, deadline).holds) == Held(t.holds) + multiset{frame}
    ensures InUse(Append(t, i, h, frame, deadline).holds) == InUse(t.holds) + 1
  {
    HeldUpdate(t.holds, h, Wait(frame, deadline, i));
    InUseUpdate(t.holds, h, Wait(frame, deadline, i));
  }

  /** The hold at place `k` of row `i`'s queue taken off it, to become `x` (arp_hold_unlink). */
  function Detach(t: Table, i: nat, k: nat, x: Hold): Table
    requires i < |t.queues| && k < |t.queues[i]| && t.queues[i][k] < |t.holds|
  {
    t.(holds := t.holds[t.queues[i][k] := x], queues := t.queues[i := RemovedAt(t.queues[i], k)])
  }

  lemma DetachKeeps(t: Table, i: nat, k: nat, x: Hold)
    requires Inv(t) && i < |t.rows| && k < |t.queues[i]| && t.queues[i][k] < |t.holds|
    requires x == NoFrame || (x.Reclaim? && FrameOk(x.frame))
    ensures Inv(Detach(t, i, k, x))
  {
    var t', h := Detach(t, i, k, x), t.queues[i][k];
    assert QueueOk(t, i);
    RemovedOrder(t.queues[i], |t.holds|, k);
    forall j | 0 <= j < |t'.rows| ensures QueueOk(t', j) {
      DetachQueue(t, i, k, x, j);
    }
    forall g | 0 <= g < |t'.holds| ensures HoldOk(t', g) {
      assert HoldOk(t, g);
    }
  }

  lemma DetachQueue(t: Table, i: nat, k: nat, x: Hold, j: nat)
    requires Inv(t) && i < |t.rows| && k < |t.queues[i]| && t.queues[i][k] < |t.holds| && j < |t.rows|
    ensures QueueOk(Detach(t, i, k, x), j)
  {
    var t', h := Detach(t, i, k, x), t.queues[i][k];
    assert QueueOk(t, i) && QueueOk(t, j);
    assert WaitsOn(t.holds[h], i, t.rows[i].spa);
    if j != i {
      forall m | 0 <= m < |t.queues[j]| ensures t.queues[j][m] != h {
        assert WaitsOn(t.holds[t.queues[j][m]], j, t.rows[j].spa);
      }
    }
  }
}
