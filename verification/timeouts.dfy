/**
 * The deadline table in place (src/core/timeouts.c): fixed slots, the armed ones
 * threaded by one-octet index links from `head`. Every entry is proved to do to
 * the threaded list what DeadlineList says.
 */
module Timeouts {
  import opened Words
  import opened Counting
  import opened DeadlineList

  datatype Slot = Slot(deadline: u32, unit: nat, arg: u8, flags: u8, next: nat)

  const EMPTY: Slot := Slot(0, 0, 0, 0, 0)

  predicate IsArmed(s: Slot) {
    s.flags % 2 == 1
  }

  function SetArmed(flags: u8): (r: u8)
    ensures r % 2 == 1 && r / 2 == flags / 2
  {
    if flags % 2 == 1 then flags else flags + 1
  }

  function EntryOf(s: Slot): Entry {
    Entry(Key(s.unit, s.arg), s.deadline, s.flags)
  }

  /** The links from `head` visit exactly `order`, then end. */
  ghost predicate Threaded(slots: seq<Slot>, head: nat, order: seq<nat>) {
    Below(order, |slots|) && NoRepeat(order) && Chained(slots, head, order)
  }

  ghost predicate Chained(slots: seq<Slot>, head: nat, order: seq<nat>)
    requires Below(order, |slots|)
  {
    && head == LinkAt(order, 0)
    && forall k {:trigger slots[order[k]]} :: 0 <= k < |order| ==> slots[order[k]].next == LinkAt(order, k + 1)
  }

  ghost predicate ListsArmed(slots: seq<Slot>, order: seq<nat>) {
    forall i :: 0 <= i < |slots| ==> (IsArmed(slots[i]) <==> i in order)
  }

  ghost function Listed(slots: seq<Slot>, order: seq<nat>): (list: seq<Entry>)
    requires Below(order, |slots|)
    ensures |list| == |order|
    ensures forall k :: 0 <= k < |order| ==> list[k] == EntryOf(slots[order[k]])
  {
    seq(|order|, k requires 0 <= k < |order| => EntryOf(slots[order[k]]))
  }

  /** Two tables that differ in links alone. */
  ghost predicate SameEntries(a: seq<Slot>, b: seq<Slot>) {
    |a| == |b| && forall j :: 0 <= j < |a| ==> EntryOf(a[j]) == EntryOf(b[j])
  }

  /** Every armed slot but `i` is on the list, and nothing else is. */
  ghost predicate OthersListed(slots: seq<Slot>, order: seq<nat>, i: nat) {
    forall j :: 0 <= j < |slots| && j != i ==> (IsArmed(slots[j]) <==> j in order)
  }

  ghost predicate AddedTo(order': seq<nat>, order: seq<nat>, i: nat) {
    forall j :: j in order' <==> j == i || j in order
  }

  /** What every entry keeps: the links list exactly the armed slots, one per pair, and count them. */
  ghost predicate Shaped(slots: seq<Slot>, head: nat, order: seq<nat>, armed: int) {
    && Threaded(slots, head, order)
    && ListsArmed(slots, order)
    && Distinct(Listed(slots, order))
    && armed == |order|
  }

  /** How many leading entries a deadline does not precede. */
  function Ahead(list: seq<Entry>, deadline: u32): (k: nat)
    ensures k <= |list|
  {
    if |list| == 0 || Before(deadline, list[0].deadline) then 0 else 1 + Ahead(list[1..], deadline)
  }

  /** Where Insert puts an entry: past those it does not precede, ahead of the first it does. */
  lemma {:induction false} InsertAt(list: seq<Entry>, e: Entry)
    ensures var k := Ahead(list, e.deadline); Insert(list, e) == list[..k] + [e] + list[k..]
  {
    var k := Ahead(list, e.deadline);
    if k > 0 {
      InsertAt(list[1..], e);
      assert list[1..][..k - 1] == list[1..k];
      assert list[1..][k - 1..] == list[k..];
      assert [list[0]] + (list[1..k] + [e] + list[k..]) == list[..k] + [e] + list[k..];
    }
  }

  /** A place in the order is found by key exactly when the slot there holds the key. */
  lemma FindAt(list: seq<Entry>, key: Key, k: nat)
    requires Distinct(list) && k < |list| && list[k].key == key
    ensures Find(list, key) == k
  {
  }

  function Relink(slots: seq<Slot>, i: nat, next: nat): (s: seq<Slot>)
    requires i < |slots|
    ensures |s| == |slots|
    ensures forall j :: 0 <= j < |slots| ==> EntryOf(s[j]) == EntryOf(slots[j])
  {
    slots[i := slots[i].(next := next)]
  }

  /** The links after slot `i` is threaded in at place `k`. */
  function LinkedIn(slots: seq<Slot>, order: seq<nat>, i: nat, k: nat): seq<Slot>
    requires Below(order, |slots|) && i < |slots| && k <= |order|
  {
    var s := Relink(slots, i, LinkAt(order, k));
    if k == 0 then s else Relink(s, order[k - 1], i)
  }

  function InsertedAt(order: seq<nat>, i: nat, k: nat): (r: seq<nat>)
    requires k <= |order|
    ensures |r| == |order| + 1
    ensures forall j :: 0 <= j < |r| ==> r[j] == if j < k then order[j] else if j == k then i else order[j - 1]
  {
    order[..k] + [i] + order[k..]
  }

  lemma InsertedOrder(order: seq<nat>, n: nat, i: nat, k: nat)
    requires Below(order, n) && NoRepeat(order) && i < n && i !in order && k <= |order|
    ensures Below(InsertedAt(order, i, k), n) && NoRepeat(InsertedAt(order, i, k))
    ensures forall j :: j in InsertedAt(order, i, k) <==> j == i || j in order
  {
    assert order == order[..k] + order[k..];
  }

  lemma LinkedInThreads(slots: seq<Slot>, head: nat, order: seq<nat>, i: nat, k: nat)
    requires Threaded(slots, head, order) && i < |slots| && i !in order && k <= |order|
    ensures Threaded(LinkedIn(slots, order, i, k), if k == 0 then i else head, InsertedAt(order, i, k))
  {
    var order', slots' := InsertedAt(order, i, k), LinkedIn(slots, order, i, k);
    InsertedOrder(order, |slots|, i, k);
    forall j | 0 <= j < |order'| ensures slots'[order'[j]].next == LinkAt(order', j + 1) {
      if j < k - 1 {
        assert slots'[order[j]] == slots[order[j]];
      } else if j > k {
        assert slots'[order[j - 1]] == slots[order[j - 1]];
      }
    }
  }

  lemma LinkedInLists(slots: seq<Slot>, order: seq<nat>, i: nat, k: nat)
    requires Below(order, |slots|) && i < |slots| && k <= |order|
    ensures Below(InsertedAt(order, i, k), |slots|)
    ensures var list := Listed(slots, order);
            Listed(LinkedIn(slots, order, i, k), InsertedAt(order, i, k)) == list[..k] + [EntryOf(slots[i])] + list[k..]
  {
    var list := Listed(slots, order);
    var after := Listed(LinkedIn(slots, order, i, k), InsertedAt(order, i, k));
    forall j | 0 <= j < |after| ensures after[j] == (list[..k] + [EntryOf(slots[i])] + list[k..])[j] {
    }
  }

  /** The links after the slot at place `k` is taken out. */
  function LinkedOut(slots: seq<Slot>, order: seq<nat>, k: nat): seq<Slot>
    requires Below(order, |slots|) && k < |order|
  {
    if k == 0 then slots else Relink(slots, order[k - 1], slots[order[k]].next)
  }

  lemma LinkedOutThreads(slots: seq<Slot>, head: nat, order: seq<nat>, k: nat)
    requires Threaded(slots, head, order) && k < |order|
    ensures Threaded(LinkedOut(slots, order, k), if k == 0 then slots[order[0]].next else head, RemovedAt(order, k))
  {
    var order', slots' := RemovedAt(order, k), LinkedOut(slots, order, k);
    RemovedOrder(order, |slots|, k);
    forall j | 0 <= j < |order'| ensures slots'[order'[j]].next == LinkAt(order', j + 1) {
      if j < k - 1 {
        assert slots'[order[j]] == slots[order[j]];
      } else if j >= k {
        assert slots'[order[j + 1]] == slots[order[j + 1]];
      }
    }
  }

  lemma LinkedOutLists(slots: seq<Slot>, order: seq<nat>, k: nat)
    requires Below(order, |slots|) && k < |order|
    ensures Below(RemovedAt(order, k), |slots|)
    ensures Listed(LinkedOut(slots, order, k), RemovedAt(order, k)) == Without(Listed(slots, order), k)
  {
    var list := Listed(slots, order);
    var after := Listed(LinkedOut(slots, order, k), RemovedAt(order, k));
    forall j | 0 <= j < |after| ensures after[j] == Without(list, k)[j] {
    }
  }

  /** Writing a slot that is off the list leaves the list as it was. */
  lemma StoreOffList(slots: seq<Slot>, head: nat, order: seq<nat>, i: nat, slot: Slot)
    requires Threaded(slots, head, order) && i < |slots| && i !in order
    ensures Threaded(slots[i := slot], head, order)
    ensures Listed(slots[i := slot], order) == Listed(slots, order)
  {
  }

  lemma NotListed(slots: seq<Slot>, order: seq<nat>, key: Key)
    requires Below(order, |slots|) && ListsArmed(slots, order)
    requires forall j :: 0 <= j < |slots| && IsArmed(slots[j]) ==> EntryOf(slots[j]).key != key
    ensures Find(Listed(slots, order), key) == |order|
  {
    forall k | 0 <= k < |order| ensures Listed(slots, order)[k].key != key {
      assert order[k] in order;
    }
  }

  lemma AllListed(slots: seq<Slot>, order: seq<nat>)
    requires Below(order, |slots|) && NoRepeat(order) && ListsArmed(slots, order)
    requires forall j :: 0 <= j < |slots| ==> IsArmed(slots[j])
    ensures |order| == |slots|
  {
    NoRepeatFull(order, |slots|);
  }

  lemma RoomLeft(slots: seq<Slot>, order: seq<nat>, i: nat)
    requires Below(order, |slots|) && NoRepeat(order) && i < |slots| && i !in order
    ensures |order| < |slots|
  {
    InsertedOrder(order, |slots|, i, 0);
    NoRepeatBound(InsertedAt(order, i, 0), |slots|);
  }

  /** The place of an armed slot on the list. */
  lemma Place(slots: seq<Slot>, order: seq<nat>, i: nat) returns (k: nat)
    requires Below(order, |slots|) && ListsArmed(slots, order) && Distinct(Listed(slots, order))
    requires i < |slots| && IsArmed(slots[i])
    ensures k < |order| && order[k] == i
    ensures k == Find(Listed(slots, order), EntryOf(slots[i]).key)
  {
    assert i in order;
    k :| k < |order| && order[k] == i;
    FindAt(Listed(slots, order), EntryOf(slots[i]).key, k);
  }

  lemma DroppedListsArmed(slots: seq<Slot>, order: seq<nat>, k: nat, mid: seq<Slot>)
    requires Below(order, |slots|) && NoRepeat(order) && ListsArmed(slots, order) && k < |order|
    requires SameEntries(mid, slots)
    ensures ListsArmed(mid[order[k] := EMPTY], RemovedAt(order, k))
  {
    RemovedOrder(order, |slots|, k);
    forall j | 0 <= j < |mid| && j != order[k] ensures IsArmed(mid[j]) == IsArmed(slots[j]) {
      assert EntryOf(mid[j]).flags == EntryOf(slots[j]).flags;
    }
  }

  /** Taking the slot at place `k` off the list and zeroing it keeps the shape. */
  lemma DropShaped(slots: seq<Slot>, head: nat, order: seq<nat>, armed: nat, k: nat, mid: seq<Slot>, head': nat)
    requires Shaped(slots, head, order, armed) && k < |order| && SameEntries(mid, slots)
    requires Threaded(mid, head', RemovedAt(order, k))
    requires Listed(mid, RemovedAt(order, k)) == Without(Listed(slots, order), k)
    ensures Shaped(mid[order[k] := EMPTY], head', RemovedAt(order, k), armed - 1)
    ensures Listed(mid[order[k] := EMPTY], RemovedAt(order, k)) == Without(Listed(slots, order), k)
  {
    assert order[k] !in RemovedAt(order, k) by {
      RemovedOrder(order, |slots|, k);
    }
    StoreOffList(mid, head', RemovedAt(order, k), order[k], EMPTY);
    DroppedListsArmed(slots, order, k, mid);
    WithoutDistinct(Listed(slots, order), k);
  }

  /** The head is found first, and taking it out leaves the rest. */
  lemma HeadOut(list: seq<Entry>)
    requires |list| > 0
    ensures Find(list, list[0].key) == 0 && Without(list, 0) == list[1..]
  {
  }

  /** Arming slot `i`, which the list does not hold, and threading it in. */
  lemma ArmShaped(slots: seq<Slot>, order: seq<nat>, i: nat, slot: Slot, after: seq<Slot>, head: nat, order': seq<nat>)
    requires Below(order, |slots|) && i < |slots| && OthersListed(slots, order, i)
    requires IsArmed(slot) && Distinct(Listed(slots, order))
    requires Find(Listed(slots, order), EntryOf(slot).key) == |order|
    requires Threaded(after, head, order') && SameEntries(after, slots[i := slot]) && AddedTo(order', order, i)
    requires Listed(after, order') == Insert(Listed(slots, order), EntryOf(slot))
    ensures Shaped(after, head, order', |order| + 1)
  {
    forall j | 0 <= j < |after| ensures IsArmed(after[j]) <==> j in order' {
      assert EntryOf(after[j]).flags == EntryOf(slots[i := slot][j]).flags;
    }
    InsertDistinct(Listed(slots, order), EntryOf(slot));
    InsertAsMap(Listed(slots, order), EntryOf(slot));
  }

  lemma DroppedOthers(slots: seq<Slot>, order: seq<nat>, k: nat, mid: seq<Slot>)
    requires Below(order, |slots|) && NoRepeat(order) && ListsArmed(slots, order) && k < |order|
    requires SameEntries(mid, slots)
    ensures OthersListed(mid, RemovedAt(order, k), order[k])
  {
    RemovedOrder(order, |slots|, k);
    forall j | 0 <= j < |mid| ensures IsArmed(mid[j]) == IsArmed(slots[j]) {
      assert EntryOf(mid[j]).flags == EntryOf(slots[j]).flags;
    }
  }

  /** The list an arm inserts into holds no entry for the pair. */
  lemma BaseReady(list: seq<Entry>, key: Key)
    requires Distinct(list)
    ensures Distinct(Base(list, key)) && Find(Base(list, key), key) == |Base(list, key)|
  {
    var k := Find(list, key);
    if k < |list| {
      WithoutDistinct(list, k);
    }
  }

  class Table {
    var ready: bool
    var now: u32
    var head: nat
    var armed: u8
    var slots: array<Slot>
    ghost var table: seq<Slot>  // what the slots hold
    ghost var order: seq<nat>   // the slots the links visit

    /** The ghost copy is the array. */
    ghost predicate Mirrored()
      reads this, slots
    {
      slots.Length <= NONE && slots[..] == table
    }

    ghost predicate Valid()
      reads this, slots
    {
      Mirrored() && (ready ==> Shaped(table, head, order, armed))
    }

    /** The list the links hold, and the recorded clock. */
    ghost function View(): State
      reads this, slots
      requires Valid() && ready
    {
      State(Listed(table, order), now)
    }

    /** A borrow of `n` slots that no clear has run on. */
    constructor (n: nat)
      requires n <= NONE
      ensures Valid() && fresh(slots) && slots.Length == n && !ready
    {
      ready, now, head, armed, order := false, 0, 0, 0, [];
      slots := new Slot[n](_ => EMPTY);
      new;
      table := slots[..];
    }

    /** One slot written in place. */
    method Write(i: nat, slot: Slot)
      requires Mirrored() && i < slots.Length
      modifies this`table, slots
      ensures Mirrored() && table == old(table)[i := slot]
    {
      slots[i] := slot;
      table := table[i := slot];
    }

    /** The armed slot holding a pair (timeouts_find). */
    method FindSlot(unit: nat, arg: u8) returns (i: nat)
      requires Mirrored()
      ensures i != NONE ==> i < |table| && IsArmed(table[i]) && EntryOf(table[i]).key == Key(unit, arg)
      ensures i == NONE ==>
                forall j :: 0 <= j < |table| && IsArmed(table[j]) ==> EntryOf(table[j]).key != Key(unit, arg)
    {
      i := 0;
      while i < slots.Length
        invariant i <= slots.Length
        invariant forall j :: 0 <= j < i && IsArmed(table[j]) ==> EntryOf(table[j]).key != Key(unit, arg)
      {
        if IsArmed(slots[i]) && slots[i].unit == unit && slots[i].arg == arg {
          return i;
        }
        i := i + 1;
      }
      i := NONE;
    }

    /** The first slot carrying no ARMED bit (timeouts_free). */
    method FreeSlot() returns (i: nat)
      requires Mirrored()
      ensures i != NONE ==> i < |table| && !IsArmed(table[i])
      ensures i == NONE ==> forall j :: 0 <= j < |table| ==> IsArmed(table[j])
    {
      i := 0;
      while i < slots.Length
        invariant i <= slots.Length
        invariant forall j :: 0 <= j < i ==> IsArmed(table[j])
      {
        if !IsArmed(slots[i]) {
          return i;
        }
        i := i + 1;
      }
      i := NONE;
    }

    /** The walk of timeouts_link: the first slot whose deadline slot `i` precedes, and the one before it. */
    method WalkTo(i: nat) returns (prev: nat, cur: nat, ghost k: nat)
      requires Mirrored() && i < |table| && Below(order, |table|) && Chained(table, head, order)
      ensures k == Ahead(Listed(table, order), table[i].deadline) && cur == LinkAt(order, k)
      ensures prev == if k == 0 then NONE else order[k - 1]
    {
      ghost var list, deadline := Listed(table, order), table[i].deadline;
      prev, cur, k := NONE, head, 0;
      assert list[0..] == list;
      while cur != NONE && !Before(slots[i].deadline, slots[cur].deadline)
        invariant k <= |order| && cur == LinkAt(order, k)
        invariant prev == if k == 0 then NONE else order[k - 1]
        invariant Ahead(list, deadline) == k + Ahead(list[k..], deadline)
        decreases |order| - k
      {
        assert list[k..][1..] == list[k + 1..];
        prev := cur;
        cur := slots[cur].next;
        k := k + 1;
      }
    }

    /** The stores of timeouts_link, which put slot `i` between `prev` and `cur`. */
    method Splice(i: nat, prev: nat, cur: nat, ghost k: nat)
      requires Mirrored() && i < |table| && k <= |order| && Below(order, |table|)
      requires cur == LinkAt(order, k) && prev == if k == 0 then NONE else order[k - 1]
      modifies this`head, this`table, slots
      ensures Mirrored() && table == LinkedIn(old(table), order, i, k)
      ensures head == if k == 0 then i else old(head)
    {
      Write(i, slots[i].(next := cur));
      if prev == NONE {
        head := i;
      } else {
        Write(prev, slots[prev].(next := i));
      }
    }

    /** Threads slot `i` ahead of the first slot whose deadline it precedes (timeouts_link). */
    method Link(i: nat)
      requires Mirrored() && i < |table| && i !in order && Threaded(table, head, order)
      modifies this`head, this`order, this`table, slots
      ensures Mirrored() && Threaded(table, head, order)
      ensures Listed(table, order) == Insert(old(Listed(table, order)), EntryOf(old(table[i])))
      ensures SameEntries(table, old(table)) && AddedTo(order, old(order), i)
    {
      var prev, cur, k := WalkTo(i);
      LinkedInThreads(table, head, order, i, k);
      LinkedInLists(table, order, i, k);
      InsertedOrder(order, |table|, i, k);
      InsertAt(Listed(table, order), EntryOf(table[i]));
      Splice(i, prev, cur, k);
      order := InsertedAt(order, i, k);
    }

    /** The walk of timeouts_unlink: the slot whose link leads to slot `i`. */
    method WalkBefore(i: nat, ghost k: nat) returns (prev: nat)
      requires Mirrored() && 0 < k < |order| && order[k] == i && Threaded(table, head, order)
      ensures prev == order[k - 1]
    {
      prev := head;
      ghost var p := 0;
      while prev != NONE && slots[prev].next != i
        invariant p < k && prev == order[p]
        decreases k - p
      {
        prev := slots[prev].next;
        p := p + 1;
      }
    }

    /** Takes slot `i` out of the order, leaving its fields alone (timeouts_unlink). */
    method Unlink(i: nat, ghost k: nat)
      requires Mirrored() && k < |order| && order[k] == i && Threaded(table, head, order)
      modifies this`head, this`order, this`table, slots
      ensures Mirrored() && Threaded(table, head, order) && order == RemovedAt(old(order), k)
      ensures Listed(table, order) == Without(old(Listed(table, order)), k)
      ensures SameEntries(table, old(table))
    {
      LinkedOutThreads(table, head, order, k);
      LinkedOutLists(table, order, k);
      if head == i {
        head := slots[i].next;
        assert k == 0;
      } else {
        var prev := WalkBefore(i, k);
        if prev != NONE {
          Write(prev, slots[prev].(next := slots[i].next));
        }
      }
      order := RemovedAt(order, k);
    }

    /** What the list holds and the wait to its earliest deadline (timeouts_report). */
    method Report() returns (count: u8, until: u32)
      requires Valid() && ready
      ensures count == |View().list| && until == Until(View())
    {
      count := armed;
      if head == NONE {
        until := FOREVER;
      } else {
        var deadline := slots[head].deadline;
        until := if Before(now, deadline) then Sub32(deadline, now) else 0;
      }
    }

    /** Zeroes the table and marks the borrow bound (idemip_timeouts_clear). */
    method Clear() returns (status: Status, count: u8, until: u32)
      requires slots.Length <= NONE
      modifies this, slots
      ensures Valid() && ready && slots == old(slots) && View() == State([], 0)
      ensures status == OK && count == 0 && until == FOREVER
    {
      forall i | 0 <= i < slots.Length {
        slots[i] := EMPTY;
      }
      table := slots[..];
      ready, now, head, armed, order := true, 0, NONE, 0, [];
      count, until := Report();
      status := OK;
    }

    /** Unlinks slot `i` and zeroes it (timeouts_drop). */
    method Drop(i: nat)
      requires Valid() && ready && i < |table| && IsArmed(table[i])
      modifies this`head, this`order, this`armed, this`table, slots
      ensures Valid()
      ensures var list := old(View().list);
              var k := Find(list, EntryOf(old(table[i])).key);
              k < |list| && View().list == Without(list, k)
    {
      ghost var before, was, top, count := table, order, head, armed;
      ghost var k := Place(before, was, i);
      Unlink(i, k);
      DropShaped(before, top, was, count, k, table, head);
      Write(i, EMPTY);
      armed := armed - 1;
    }

    /** Records the caller's count (idemip_timeouts_tick). */
    method Advance(count: u32) returns (status: Status, held: u8, until: u32)
      requires Valid()
      modifies this`now
      ensures Valid()
      ensures !ready ==> status == ERR && now == old(now)
      ensures ready ==> status == OK && View() == Tick(old(View()), count)
      ensures ready ==> held == |View().list| && until == Until(View())
    {
      status, held, until := ERR, 0, 0;
      if ready {
        now := count;
        held, until := Report();
        status := OK;
      }
    }

    /** Drops the deadline a pair names (idemip_timeouts_cancel). */
    method Cancel(unit: nat, arg: u8) returns (status: Status, held: u8, until: u32)
      requires Valid()
      modifies this`head, this`order, this`armed, this`table, slots
      ensures Valid()
      ensures !ready ==> status == ERR && table == old(table)
      ensures ready ==> (View(), status) == DeadlineList.Cancel(old(View()), Key(unit, arg))
      ensures ready && status != ERR ==> held == |View().list| && until == Until(View())
    {
      status, held, until := ERR, 0, 0;
      if !ready || unit == 0 || unit >= UNIT_COUNT {
        return;
      }
      var i := FindSlot(unit, arg);
      if i == NONE {
        NotListed(table, order, Key(unit, arg));
        held, until := Report();
        status := BUSY;
        return;
      }
      Drop(i);
      held, until := Report();
      status := OK;
    }

    /** Takes the head of the order once the recorded count has reached it (idemip_timeouts_expire). */
    method Expire() returns (x: Expiry, held: u8, until: u32)
      requires Valid()
      modifies this`head, this`order, this`armed, this`table, slots
      ensures Valid()
      ensures !ready ==> x == NOTHING.(status := ERR) && table == old(table)
      ensures ready ==> (View(), x) == DeadlineList.Expire(old(View()))
      ensures ready ==> held == |View().list| && until == Until(View())
    {
      x, held, until := NOTHING.(status := ERR), 0, 0;
      if !ready {
        return;
      }
      var i := head;
      if i == NONE || Before(now, slots[i].deadline) {
        held, until := Report();
        x := NOTHING;
        return;
      }
      x := Expiry(OK, Key(slots[i].unit, slots[i].arg), slots[i].deadline);
      assert i == order[0] && i in order;
      HeadOut(View().list);
      Drop(i);
      held, until := Report();
    }

    /** Writes an unlisted slot and threads it in, the second half of idemip_timeouts_arm. */
    method Store(i: nat, unit: nat, arg: u8, deadline: u32, flags: u8)
      requires Mirrored() && i < |table| && i !in order && OthersListed(table, order, i)
      requires Threaded(table, head, order) && Distinct(Listed(table, order))
      requires Find(Listed(table, order), Key(unit, arg)) == |order|
      modifies this`head, this`order, this`table, slots
      ensures Mirrored() && Shaped(table, head, order, old(|order|) + 1)
      ensures var e := Entry(Key(unit, arg), deadline, SetArmed(flags));
              Listed(table, order) == Insert(old(Listed(table, order)), e)
    {
      ghost var before, was := table, order;
      var slot := Slot(deadline, unit, arg, SetArmed(flags), slots[i].next);
      StoreOffList(before, head, was, i, slot);
      Write(i, slot);
      Link(i);
      ArmShaped(before, was, i, slot, table, head, order);
    }

    /** An unlisted slot for a pair: the one it held, taken off the list, or a free one. */
    method Vacate(unit: nat, arg: u8) returns (i: nat)
      requires Valid() && ready
      modifies this`head, this`order, this`armed, this`table, slots
      ensures Mirrored()
      ensures var list, key := old(View().list), Key(unit, arg);
              && (i == NONE <==> Find(list, key) == |list| == |table|)
              && (i == NONE ==> Valid() && View() == old(View()))
              && (i != NONE ==>
                    && i < |table| && i !in order && armed == |order| + 1
                    && Threaded(table, head, order) && OthersListed(table, order, i)
                    && Listed(table, order) == Base(list, key))
    {
      i := FindSlot(unit, arg);
      if i != NONE {
        ghost var before, was := table, order;
        ghost var k := Place(before, was, i);
        Unlink(i, k);
        RemovedOrder(was, |table|, k);
        DroppedOthers(before, was, k, table);
      } else {
        NotListed(table, order, Key(unit, arg));
        i := FreeSlot();
        if i == NONE {
          AllListed(table, order);
        } else {
          RoomLeft(table, order, i);
          armed := armed + 1;
        }
      }
    }

    /** The arm of a named pair: its slot vacated, then written and threaded in. */
    method Rearm(unit: nat, arg: u8, deadline: u32, flags: u8) returns (status: Status)
      requires Valid() && ready && 0 < unit < UNIT_COUNT
      modifies this`head, this`order, this`armed, this`table, slots
      ensures Valid()
      ensures var e := Entry(Key(unit, arg), deadline, SetArmed(flags));
              (View(), status) == DeadlineList.Arm(old(View()), slots.Length, e)
    {
      ghost var list := View().list;
      BaseReady(list, Key(unit, arg));
      NoRepeatBound(order, |table|);
      var i := Vacate(unit, arg);
      if i == NONE {
        return BUSY;
      }
      Store(i, unit, arg, deadline, flags);
      status := OK;
    }

    /** Holds a deadline for a pair, moving the one it already has (idemip_timeouts_arm). */
    method Arm(unit: nat, arg: u8, deadline: u32, flags: u8) returns (status: Status, held: u8, until: u32)
      requires Valid()
      modifies this`head, this`order, this`armed, this`table, slots
      ensures Valid()
      ensures !ready ==> status == ERR && table == old(table)
      ensures ready ==>
                var e := Entry(Key(unit, arg), deadline, SetArmed(flags));
                (View(), status) == DeadlineList.Arm(old(View()), slots.Length, e)
      ensures ready && status != ERR ==> held == |View().list| && until == Until(View())
    {
      status, held, until := ERR, 0, 0;
      if ready && 0 < unit < UNIT_COUNT {
        status := Rearm(unit, arg, deadline, flags);
        held, until := Report();
      }
    }
  }
}
