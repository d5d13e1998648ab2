/**
 * The ARP table in place (src/arp/arp_table.c): a fixed array of rows and a
 * fixed pool of holds, threaded by index. Every entry is proved to do to the
 * rows, holds and queues what the value model says.
 */
module ArpTable {
  import opened Words
  import opened Counting
  import opened ArpPacket
  import opened ArpModel
  import opened ArpLinks
  import E = ArpEntries
  import R = ArpRuns

  /** A cleared borrow stands for the empty table, whatever its free rows' list heads read. */
  lemma ClearedAbstracts(rows: seq<Entry>, cells: seq<Cell>)
    requires forall i :: 0 <= i < |rows| ==> rows[i] == ZERO_ENTRY
    requires forall h :: 0 <= h < |cells| ==> cells[h] == ZERO_CELL
    ensures var t := R.Cleared(|rows|, |cells|); Inv(t) && Abstracts(rows, cells, t) && InUse(t.holds) == 0
  {
    R.BeginKeeps(|rows|, |cells|);
    R.NothingHeld(R.Cleared(|rows|, |cells|).holds);
  }

  class Resolver {
    var ready: bool
    var sweep: u32
    var held: nat
    var rows: array<Entry>
    var cells: array<Cell>
    ghost var rowsNow: seq<Entry>  // what the rows hold
    ghost var cellsNow: seq<Cell>  // what the pool holds
    ghost var t: Table             // the table they stand for

    ghost predicate Mirrored()
      reads this, rows, cells
    {
      && rows.Length < NONE && cells.Length < NONE
      && rows[..] == rowsNow && cells[..] == cellsNow
    }

    /** The rows and holds stand for a table that keeps its promises. */
    ghost predicate Live()
      reads this, rows, cells
    {
      && Mirrored() && Inv(t) && Abstracts(rowsNow, cellsNow, t)
    }

    ghost predicate Valid()
      reads this, rows, cells
    {
      Mirrored() && (ready ==> Live() && sweep == t.sweep && held == InUse(t.holds))
    }

    /** A borrow of `entries` rows and `pending` holds that no clear has run on. */
    constructor (entries: nat, pending: nat)
      requires entries < NONE && pending < NONE
      ensures Valid() && !ready && fresh(rows) && fresh(cells)
      ensures rows.Length == entries && cells.Length == pending
    {
      ready, sweep, held := false, 0, 0;
      rows := new Entry[entries](_ => ZERO_ENTRY);
      cells := new Cell[pending](_ => ZERO_CELL);
      t := R.Cleared(entries, pending);
      new;
      rowsNow, cellsNow := rows[..], cells[..];
    }

    method WriteRow(i: nat, e: Entry)
      requires Mirrored() && i < rows.Length
      modifies this`rowsNow, rows
      ensures Mirrored() && rowsNow == old(rowsNow)[i := e]
    {
      rows[i] := e;
      rowsNow := rowsNow[i := e];
    }

    method WriteCell(h: nat, c: Cell)
      requires Mirrored() && h < cells.Length
      modifies this`cellsNow, cells
      ensures Mirrored() && cellsNow == old(cellsNow)[h := c]
    {
      cells[h] := c;
      cellsNow := cellsNow[h := c];
    }

    /** Zeroes both tables and marks the borrow usable (idemip_arp_clear). */
    method Clear() returns (status: Status)
      requires rows.Length < NONE && cells.Length < NONE
      modifies this, rows, cells
      ensures Valid() && ready && rows == old(rows) && cells == old(cells)
      ensures status == OK && t == R.Cleared(rows.Length, cells.Length)
    {
      forall i | 0 <= i < rows.Length {
        rows[i] := ZERO_ENTRY;
      }
      forall h | 0 <= h < cells.Length {
        cells[h] := ZERO_CELL;
      }
      rowsNow, cellsNow := rows[..], cells[..];
      t := R.Cleared(rows.Length, cells.Length);
      ClearedAbstracts(rowsNow, cellsNow);
      ready, sweep, held := true, 0, 0;
      status := OK;
    }

    /** The row holding a pair (arp_row_find). */
    method RowFind(pro: u16, spa: u32) returns (i: nat)
      requires Mirrored() && RowsAgree(rowsNow, t)
      ensures i == FindRow(t.rows, pro, spa)
    {
      i := 0;
      while i < rows.Length
        invariant i <= rows.Length
        invariant FindRow(t.rows, pro, spa) == FindFrom(t.rows, pro, spa, i)
      {
        if Matches(rows[i].row, pro, spa) {
          return i;
        }
        i := i + 1;
      }
      i := NONE;
    }

    /** Every hold waiting on row `i` becomes reclaimable, and the row empty (arp_row_free). */
    method RowFree(i: nat)
      requires Live() && i < |t.rows| && t.rows[i].state != Free
      modifies this`rowsNow, this`cellsNow, this`t, rows, cells
      ensures Live() && t == FreeRow(old(t), i)
    {
      ghost var q, before := t.queues[i], cellsNow;
      FreeRowAbstracts(rowsNow, cellsNow, t, i);
      FreeRowKeeps(t, i);
      ReleaseAll(rows[i].pending, q);
      WriteRow(i, Entry(EMPTY_ROW, NONE));
      t := FreeRow(t, i);
    }

    /** The loop of arp_row_free, over the list from `head`. */
    method ReleaseAll(head: nat, ghost q: seq<nat>)
      requires Mirrored() && Chain(cellsNow, head, q) && NoRepeat(q)
      modifies this`cellsNow, cells
      ensures Mirrored() && cellsNow == ReleasedCells(old(cellsNow), q, |q|)
    {
      ghost var before := cellsNow;
      NoRepeatBound(q, |before|);
      var h, n := head, 0;
      while n < cells.Length && h != NONE
        invariant Mirrored() && n <= |q| <= cells.Length == |before|
        invariant h == LinkAt(q, n)
        invariant cellsNow == ReleasedCells(before, q, n)
      {
        h := ReleaseOne(h, q, n, before);
        n := n + 1;
      }
    }

    /** One hold made reclaimable, and the one after it on its list. */
    method ReleaseOne(h: nat, ghost q: seq<nat>, ghost n: nat, ghost before: seq<Cell>) returns (next: nat)
      requires Mirrored() && n < |q| && NoRepeat(q) && Chain(before, LinkAt(q, 0), q) && h == LinkAt(q, n)
      requires cellsNow == ReleasedCells(before, q, n)
      modifies this`cellsNow, cells
      ensures Mirrored() && next == LinkAt(q, n + 1) && cellsNow == ReleasedCells(before, q, n + 1)
    {
      assert cellsNow[q[n]] == before[q[n]];
      next := cells[h].next;
      WriteCell(h, Reclaimed(cells[h]));
    }

    /** A row for a new triplet (arp_row_take). */
    method RowTake(now: u32) returns (i: nat)
      requires Live()
      modifies this`rowsNow, this`cellsNow, this`t, rows, cells
      ensures Live()
      ensures var (t', v) := TakeRow(old(t), now);
              t == t' && (if v.None? then i == NONE else i == v.value)
      ensures i != NONE ==> i < |t.rows| && t.queues[i] == [] && t.rows[i].state == Free
    {
      TakeRowKeeps(t, now);
      i := 0;
      while i < rows.Length
        invariant i <= rows.Length
        invariant FirstFree(t.rows, 0) == FirstFree(t.rows, i)
      {
        if rows[i].row.state == Free {
          return;
        }
        i := i + 1;
      }
      i := PickVictim(now);
      if i != NONE {
        RowFree(i);
      }
    }

    /** The second loop of arp_row_take: the row with no holds that has gone longest unseen. */
    method PickVictim(now: u32) returns (victim: nat)
      requires Live() && forall j :: 0 <= j < |t.rows| ==> t.rows[j].state != Free
      ensures var v := Victim(t, now, |t.rows|); if v.None? then victim == NONE else victim == v.value
    {
      victim := NONE;
      var oldest: u32 := 0;
      var i := 0;
      while i < rows.Length
        invariant i <= rows.Length
        invariant var v := Victim(t, now, i);
                  if v.None? then victim == NONE && oldest == 0
                  else victim == v.value && oldest == Age(t.rows[v.value], now)
      {
        var age := Sub32(now, rows[i].row.used);
        PendingEmpty(rowsNow, cellsNow, t, i);
        if rows[i].pending == NONE && age >= oldest {
          oldest := age;
          victim := i;
        }
        i := i + 1;
      }
    }

    /** The merge and the add over one triplet (arp_learn). */
    method Learn(spa: u32, sha: Mac, netif: u8, now: u32, add: bool) returns (i: nat, merged: bool)
      requires Live() && spa != 0
      modifies this`rowsNow, this`cellsNow, this`t, rows, cells
      ensures Live() && (t, i, merged) == ArpModel.Learn(old(t), spa, sha, netif, now, add)
    {
      LearnKeeps(t, spa, sha, netif, now, add);
      if sha[0] % 2 != 0 {
        return NONE, false;
      }
      i := RowFind(PRO_IPV4, spa);
      merged := i != NONE;
      if i == NONE {
        if !add {
          return;
        }
        i := RowTake(now);
        if i == NONE {
          return;
        }
        Resolve(i, spa, sha, netif, now, NONE);
      } else {
        Resolve(i, spa, sha, netif, now, rows[i].pending);
      }
    }

    /** The stores of arp_row_open and arp_learn: the row resolved, with the list head it has. */
    method Resolve(i: nat, spa: u32, sha: Mac, netif: u8, now: u32, pending: nat)
      requires Mirrored() && Abstracts(rowsNow, cellsNow, t) && i < |t.rows|
      requires (t.rows[i].state != Free && pending == rowsNow[i].pending) || (t.queues[i] == [] && pending == NONE)
      modifies this`rowsNow, this`t, rows
      ensures Mirrored() && Abstracts(rowsNow, cellsNow, t)
      ensures t == old(t).(rows := old(t).rows[i := StableRow(spa, sha, netif, now)])
    {
      var e := Entry(StableRow(spa, sha, netif, now), pending);
      PutRowAbstracts(rowsNow, cellsNow, t, i, e);
      WriteRow(i, e);
      t := t.(rows := t.rows[i := e.row]);
    }

    /** Merge one triplet the caller trusts (idemip_arp_add). */
    method Add(pro: u16, spa: u32, sha: Option<Mac>, netif: u8, now: u32)
      returns (status: Status, index: nat, merged: bool)
      requires Valid()
      modifies this`rowsNow, this`cellsNow, this`t, rows, cells
      ensures Valid()
      ensures !ready ==> status == ERR && index == NONE && t == old(t)
      ensures ready ==> (t, status, index, merged) == R.Add(old(t), pro, spa, sha, netif, now)
    {
      status, index, merged := ERR, NONE, false;
      if !ready || sha.None? || pro != PRO_IPV4 || spa == 0 {
        return;
      }
      LearnKeeps(t, spa, sha.value, netif, now, true);
      var i, m := Learn(spa, sha.value, netif, now, true);
      if i == NONE {
        return BUSY, NONE, false;
      }
      return OK, i, m;
    }

    /** The hardware address behind a pair (idemip_arp_find). */
    method Find(pro: u16, spa: u32) returns (got: R.Lookup)
      requires Valid()
      ensures got == if ready then R.Find(t, pro, spa) else R.Lookup(ERR, NONE, None)
    {
      got := R.Lookup(ERR, NONE, None);
      if !ready || pro != PRO_IPV4 || spa == 0 {
        return;
      }
      var i := RowFind(pro, spa);
      if i == NONE {
        return;
      }
      got := if rows[i].row.state == Pending then R.Lookup(BUSY, i, None) else R.Lookup(OK, i, Some(rows[i].row.sha));
    }

    /** Flush the row holding a pair (idemip_arp_remove). */
    method Remove(pro: u16, spa: u32) returns (status: Status, index: nat)
      requires Valid()
      modifies this`rowsNow, this`cellsNow, this`t, rows, cells
      ensures Valid()
      ensures !ready ==> status == ERR && index == NONE && t == old(t)
      ensures ready ==> (t, status, index) == R.Remove(old(t), pro, spa)
    {
      status, index := ERR, NONE;
      if !ready || pro != PRO_IPV4 || spa == 0 {
        return;
      }
      var i := RowFind(pro, spa);
      if i == NONE {
        return;
      }
      FreeRowKeeps(t, i);
      HeldSame(FreeRow(t, i).holds, t.holds);
      RowFree(i);
      status, index := OK, i;
    }

    /** RFC 826's reception of one payload (idemip_arp_input). */
    method Input(packet: Option<Packet>, local: u32, netif: u8, now: u32) returns (got: R.Received)
      requires Valid()
      modifies this`rowsNow, this`cellsNow, this`t, rows, cells
      ensures Valid()
      ensures !ready ==> got == R.REFUSED && t == old(t)
      ensures ready ==> (t, got) == R.Input(old(t), packet, local, netif, now)
    {
      got := R.REFUSED;
      if !ready || packet.None? || !IsEthernetIpv4(packet.value) {
        return;
      }
      var p := packet.value;
      var target := local != 0 && Tpa(p) == local;
      var spa := Spa(p);
      got := got.(conflict := local != 0 && spa == local);
      if spa != 0 && !got.conflict {
        LearnKeeps(t, spa, Sha(p), netif, now, target);
        var i, merged := Learn(spa, Sha(p), netif, now, target);
        got := got.(merged := merged, index := i);
      }
      got := got.(replyOwed := target && !got.conflict && IsRequest(p), status := OK);
    }

    // --- holds -----------------------------------------------------------------------

    /** The first free hold (arp_hold_free). */
    method HoldFree() returns (h: nat)
      requires Mirrored() && HoldsAgree(cellsNow, t)
      ensures var f := FirstHold(t.holds, 0); if f == |t.holds| then h == NONE else h == f
    {
      h := 0;
      while h < cells.Length
        invariant h <= cells.Length
        invariant FirstHold(t.holds, 0) == FirstHold(t.holds, h)
      {
        if cells[h].state == CellFree {
          return;
        }
        h := h + 1;
      }
      h := NONE;
    }

    /** The last hold of the list from `head`, which arp_hold_link walks to. */
    method Tail(head: nat, ghost q: seq<nat>) returns (cur: nat)
      requires Mirrored() && Chain(cellsNow, head, q) && NoRepeat(q) && q != []
      ensures cur == q[|q| - 1]
    {
      NoRepeatBound(q, |cellsNow|);
      cur := head;
      var n := 0;
      while n < cells.Length
        invariant n < |q| && cur == q[n]
      {
        if cells[cur].next == NONE {
          return;
        }
        cur := cells[cur].next;
        n := n + 1;
      }
    }

    /** Hold `h` at the tail of row `i`'s list (arp_hold_link). */
    method HoldLink(i: nat, h: nat, ghost q: seq<nat>)
      requires Mirrored() && i < |rowsNow| && h < |cellsNow| && h !in q
      requires Chain(cellsNow, rowsNow[i].pending, q) && NoRepeat(q)
      modifies this`rowsNow, this`cellsNow, rows, cells
      ensures Mirrored() && rowsNow == LinkedRows(old(rowsNow), i, q, h)
      ensures Below(q, |old(cellsNow)|) && cellsNow == LinkedCells(old(cellsNow), q, h, old(cellsNow)[h])
    {
      if rows[i].pending == NONE {
        WriteCell(h, cells[h].(next := NONE));
        WriteRow(i, rows[i].(pending := h));
        return;
      }
      var tail := Tail(rows[i].pending, q);
      WriteCell(h, cells[h].(next := NONE));
      WriteCell(tail, cells[tail].(next := h));
    }

    /** The hold before place `k` of the list, which arp_hold_unlink keeps in hand. */
    method WalkBefore(head: nat, h: nat, ghost q: seq<nat>, ghost k: nat) returns (prev: nat)
      requires Mirrored() && Chain(cellsNow, head, q) && NoRepeat(q) && k < |q| && q[k] == h
      ensures prev == if k == 0 then NONE else q[k - 1]
    {
      NoRepeatBound(q, |cellsNow|);
      var cur, n := head, 0;
      prev := NONE;
      while n < cells.Length && cur != NONE && cur != h
        invariant n <= k && cur == LinkAt(q, n)
        invariant prev == if n == 0 then NONE else q[n - 1]
        decreases cells.Length - n
      {
        assert n < k;
        assert cells[cur] == cellsNow[q[n]];
        prev := cur;
        cur := cells[cur].next;
        n := n + 1;
      }
    }

    /** Hold `h` off row `i`'s list, to hold `c` (arp_hold_unlink and the store that follows it). */
    method HoldUnlink(i: nat, h: nat, c: Cell, ghost q: seq<nat>, ghost k: nat)
      requires Mirrored() && i < |rowsNow| && Chain(cellsNow, rowsNow[i].pending, q) && NoRepeat(q)
      requires k < |q| && q[k] == h
      modifies this`rowsNow, this`cellsNow, rows, cells
      ensures Below(q, |old(cellsNow)|)
      ensures Mirrored() && rowsNow == UnlinkedRows(old(rowsNow), old(cellsNow), i, q, k)
      ensures cellsNow == UnlinkedCells(old(cellsNow), q, k, c)
    {
      var prev := WalkBefore(rows[i].pending, h, q, k);
      if prev == NONE {
        WriteRow(i, rows[i].(pending := cells[h].next));
      } else {
        WriteCell(prev, cells[prev].(next := cells[h].next));
      }
      WriteCell(h, c);
    }

    /** A waiting hold taken off its row, to hold `c` from here on. */
    method Unhold(h: nat, i: nat, c: Cell, ghost k: nat)
      requires Live() && i < |t.rows| && k < |t.queues[i]| && t.queues[i][k] == h
      requires c == ZERO_CELL || (HoldOf(c).Reclaim? && FrameOk(HoldOf(c).frame))
      modifies this`rowsNow, this`cellsNow, this`t, rows, cells
      ensures Live() && h < |old(t).holds| && t == Detach(old(t), i, k, HoldOf(c))
    {
      assert QueueOk(t, i);
      assert Chain(cellsNow, rowsNow[i].pending, t.queues[i]);
      UnlinkedAbstracts(rowsNow, cellsNow, t, i, k, c);
      DetachKeeps(t, i, k, HoldOf(c));
      HoldUnlink(i, h, c, t.queues[i], k);
      t := Detach(t, i, k, HoldOf(c));
    }

    /** A frame put in free hold `h` on live row `i`. */
    method Enhold(i: nat, h: nat, frame: Frame, deadline: u32)
      requires Live() && i < |t.rows| && h < |t.holds| && t.holds[h].NoFrame?
      requires t.rows[i].state != Free && t.rows[i].spa == frame.spa && FrameOk(frame)
      modifies this`rowsNow, this`cellsNow, this`t, rows, cells
      ensures Live() && t == Append(old(t), i, h, frame, deadline)
    {
      ghost var q, before := t.queues[i], cellsNow;
      var c := Cell(CellWait, deadline, frame.spa, frame.desc, frame.len, i, cells[h].next);
      assert QueueOk(t, i);
      NotQueued(t, h, i);
      LinkedAbstracts(rowsNow, cellsNow, t, i, h, c);
      AppendKeeps(t, i, h, frame, deadline);
      ChainApart(before, before[h := c], rowsNow[i].pending, q);
      LinkedFilled(before, q, h, c);
      WriteCell(h, c);
      HoldLink(i, h, q);
      t := Append(t, i, h, frame, deadline);
    }

    /** Row `i`, with no holds, opened for an address not yet resolved. */
    method RowOpen(i: nat, ip: u32, now: u32)
      requires Live() && i < |t.rows| && t.queues[i] == [] && ip != 0 && NoRowFor(t.rows, ip)
      modifies this`rowsNow, this`t, rows
      ensures Live() && t == old(t).(rows := old(t).rows[i := E.WaitingRow(ip, now)])
    {
      var e := Entry(E.WaitingRow(ip, now), NONE);
      PutRowAbstracts(rowsNow, cellsNow, t, i, e);
      PutRowKeeps(t, i, e.row);
      WriteRow(i, e);
      t := t.(rows := t.rows[i := e.row]);
    }

    /** A row opened for a frame whose address has none, and the frame held on it. */
    method OpenAndHold(frame: Frame, h: nat, now: u32) returns (i: nat)
      requires Live() && FrameOk(frame) && FindRow(t.rows, PRO_IPV4, frame.spa) == NONE
      requires h == FirstHold(t.holds, 0) && h < |t.holds|
      modifies this`rowsNow, this`cellsNow, this`t, rows, cells
      ensures Live()
      ensures var (t', v) := TakeRow(old(t), now);
              if v.None? then i == NONE && t == t'
              else
                && i == v.value && i < |t'.rows| == |t'.queues| && h < |t'.holds|
                && t == Append(t'.(rows := t'.rows[i := E.WaitingRow(frame.spa, now)]), i, h, frame,
                               Add32(now, MAXPENDING_MS))
    {
      E.TakeRowFreeHold(t, now, h);
      TakeRowKeeps(t, now);
      assert NoRowFor(t.rows, frame.spa);
      i := RowTake(now);
      if i != NONE {
        RowOpen(i, frame.spa, now);
        Enhold(i, h, frame, Add32(now, MAXPENDING_MS));
      }
    }

    /** A free hold given to a frame whose address is not resolved, on the row it has or on a new one. */
    method HoldFor(frame: Frame, i: nat, h: nat, now: u32) returns (index: nat)
      requires Live() && FrameOk(frame) && i == FindRow(t.rows, PRO_IPV4, frame.spa)
      requires (i != NONE ==> t.rows[i].state != Stable) && h == FirstHold(t.holds, 0) && h < |t.holds|
      modifies this`rowsNow, this`cellsNow, this`t, rows, cells
      ensures Live() && t.sweep == old(t).sweep
      ensures (t, if index == NONE then BUSY else OK, index) == E.Queue(old(t), frame, now)
    {
      TakeRowKeeps(t, now);
      index := i;
      if i == NONE {
        index := OpenAndHold(frame, h, now);
      } else {
        Enhold(i, h, frame, Add32(now, MAXPENDING_MS));
      }
    }

    /** A well-formed frame held, unless its address is resolved or no hold or row is to be had. */
    method TryHold(frame: Frame, now: u32) returns (status: Status, index: nat)
      requires Live() && FrameOk(frame) && held == InUse(t.holds)
      modifies this`rowsNow, this`cellsNow, this`t, rows, cells
      ensures Live() && t.sweep == old(t).sweep && (t, status, index) == E.Queue(old(t), frame, now)
    {
      var i := RowFind(PRO_IPV4, frame.spa);
      if i != NONE && rows[i].row.state == Stable {
        return ERR, i;
      }
      var h := HoldFree();
      E.FreeHoldExists(t.holds);
      if h == NONE || held >= cells.Length {
        return BUSY, NONE;
      }
      index := HoldFor(frame, i, h, now);
      return if index == NONE then BUSY else OK, index;
    }

    /** Hold a pinned descriptor until its address resolves (idemip_arp_queue). */
    method Queue(frame: Frame, now: u32) returns (status: Status, index: nat)
      requires Valid()
      modifies this`rowsNow, this`cellsNow, this`t, this`held, rows, cells
      ensures Valid()
      ensures !ready ==> status == ERR && index == NONE && t == old(t)
      ensures ready ==> (t, status, index) == E.Queue(old(t), frame, now)
    {
      status, index := ERR, NONE;
      if !ready || frame.spa == 0 || frame.len == 0 || frame.len > FRAME_MAX {
        return;
      }
      E.QueueKeeps(t, frame, now);
      status, index := TryHold(frame, now);
      if status == OK {
        held := held + 1;
      }
    }

    /** The first resolved row with holds waiting on it, which idemip_arp_dequeue walks to. */
    method FindResolved() returns (i: nat)
      requires Live()
      ensures i == E.FirstResolved(t, 0)
    {
      i := 0;
      while i < rows.Length
        invariant i <= rows.Length && E.FirstResolved(t, 0) == E.FirstResolved(t, i)
      {
        if rows[i].row.state == Stable {
          PendingEmpty(rowsNow, cellsNow, t, i);
          if rows[i].pending != NONE {
            return;
          }
        }
        i := i + 1;
      }
    }

    /** One hold whose row is resolved, oldest on that row first (idemip_arp_dequeue). */
    method Dequeue() returns (status: Status, out: Option<E.Release>)
      requires Valid()
      modifies this`rowsNow, this`cellsNow, this`t, this`held, rows, cells
      ensures Valid()
      ensures !ready ==> status == ERR && out.None? && t == old(t)
      ensures ready ==> (t, out) == E.Dequeue(old(t)) && status == if out.Some? then OK else BUSY
    {
      status, out := ERR, None;
      if !ready {
        return;
      }
      status := BUSY;
      var i := FindResolved();
      if i < rows.Length {
        E.DequeueKeeps(t);
        var handed := Hand(i);
        out, status := Some(handed), OK;
      }
    }

    /** The oldest hold of a resolved row, given up. */
    method Hand(i: nat) returns (out: E.Release)
      requires Live() && i < |t.rows| && t.rows[i].state != Free && t.queues[i] != []
      modifies this`rowsNow, this`cellsNow, this`t, this`held, rows, cells
      ensures Live() && old(t).queues[i][0] < |old(t).holds| && t == Detach(old(t), i, 0, NoFrame)
      ensures !old(t).holds[old(t).queues[i][0]].NoFrame?
      ensures out == E.Release(old(t).holds[old(t).queues[i][0]].frame, old(t).rows[i].sha, old(t).rows[i].netif, i)
      ensures held == if old(held) == 0 then 0 else old(held) - 1
    {
      var h := rows[i].pending;
      HeadWaits(i);
      var c := cells[h];
      out := E.Release(Frame(c.desc, c.len, c.spa), rows[i].row.sha, rows[i].row.netif, i);
      Unhold(h, i, ZERO_CELL, 0);
      if held != 0 {
        held := held - 1;
      }
    }

    /** The list head of a row with holds is its oldest hold, which waits. */
    lemma HeadWaits(i: nat)
      requires Live() && i < |t.rows| && t.rows[i].state != Free && t.queues[i] != []
      ensures rowsNow[i].pending == t.queues[i][0] < |t.holds|
      ensures t.holds[t.queues[i][0]].Wait? && HoldOf(cellsNow[t.queues[i][0]]) == t.holds[t.queues[i][0]]
    {
      assert QueueOk(t, i);
      assert Chain(cellsNow, rowsNow[i].pending, t.queues[i]);
      assert WaitsOn(t.holds[t.queues[i][0]], i, t.rows[i].spa);
    }

    // --- the tick --------------------------------------------------------------------

    /** Rows past their bound go free (arp_age_rows). */
    method AgeRows(now: u32)
      requires Live()
      modifies this`rowsNow, this`cellsNow, this`t, rows, cells
      ensures Live() && t == E.AgeRows(old(t), now, |old(t).rows|)
    {
      ghost var was := t;
      var i := 0;
      while i < rows.Length
        invariant i <= rows.Length == |was.rows|
        invariant Live() && t == E.AgeRows(was, now, i)
      {
        AgeRow(i, now);
        i := i + 1;
      }
    }

    method AgeRow(i: nat, now: u32)
      requires Live() && i < |t.rows|
      modifies this`rowsNow, this`cellsNow, this`t, rows, cells
      ensures Live() && t == E.AgeRow(old(t), now, i)
    {
      var row := rows[i].row;
      if row.state != Free {
        var bound := if row.state == Pending then MAXPENDING_MS else MAXAGE_MS;
        if Sub32(now, row.used) >= bound {
          RowFree(i);
        }
      }
    }

    /** Holds past their deadline stop waiting (arp_expire_holds). */
    method ExpireHolds(now: u32)
      requires Live()
      modifies this`rowsNow, this`cellsNow, this`t, rows, cells
      ensures Live() && t == E.ExpireHolds(old(t), now, |old(t).holds|)
    {
      ghost var was := t;
      var h := 0;
      while h < cells.Length
        invariant h <= cells.Length == |was.holds|
        invariant Live() && t == E.ExpireHolds(was, now, h)
      {
        ExpireHold(h, now);
        h := h + 1;
      }
    }

    method ExpireHold(h: nat, now: u32)
      requires Live() && h < |t.holds|
      modifies this`rowsNow, this`cellsNow, this`t, rows, cells
      ensures Live() && t == E.ExpireHold(old(t), now, h)
    {
      var c := cells[h];
      assert HoldOf(c) == t.holds[h] && HoldOk(t, h);
      if c.state == CellWait && Due(now, c.deadline) && c.entry != NONE {
        Unhold(h, c.entry, Reclaimed(c), E.PlaceIn(t.queues[c.entry], h));
      }
    }

    /** One reclaimable hold's descriptor, and the hold goes free (arp_report_reclaim). */
    method FindReclaim() returns (h: nat)
      requires Live()
      ensures h == E.FirstReclaim(t.holds, 0)
    {
      h := 0;
      while h < cells.Length && cells[h].state != CellReclaim
        invariant h <= cells.Length && E.FirstReclaim(t.holds, 0) == E.FirstReclaim(t.holds, h)
      {
        h := h + 1;
      }
    }

    /** The first row a REQUEST is due for (arp_report_request). */
    method FindAsk(now: u32) returns (i: nat)
      requires Live()
      ensures i == E.FirstAsk(t.rows, now, 0)
    {
      i := 0;
      while i < rows.Length && !E.AskDue(rows[i].row, now)
        invariant i <= rows.Length && E.FirstAsk(t.rows, now, 0) == E.FirstAsk(t.rows, now, i)
      {
        i := i + 1;
      }
    }

    /** Reclaimable hold `h` given up, its descriptor reported. */
    method GiveBack(h: nat) returns (frame: Frame)
      requires Live() && h < |t.holds| && t.holds[h].Reclaim?
      modifies this`cellsNow, this`t, this`held, cells
      ensures Live() && t == old(t).(holds := old(t).holds[h := NoFrame]) && frame == old(t).holds[h].frame
      ensures held == if old(held) == 0 then 0 else old(held) - 1
    {
      var c := cells[h];
      assert HoldOf(c) == t.holds[h];
      frame := Frame(c.desc, c.len, c.spa);
      ZeroedAbstracts(rowsNow, cellsNow, t, h);
      E.ReclaimKeeps(t, h);
      WriteCell(h, ZERO_CELL);
      t := t.(holds := t.holds[h := NoFrame]);
      if held != 0 {
        held := held - 1;
      }
    }

    /** A REQUEST reported for unresolved row `i`. */
    method AskFor(i: nat, now: u32) returns (out: E.Report)
      requires Live() && i < |t.rows| && t.rows[i].state == Pending
      modifies this`rowsNow, this`t, rows
      ensures Live() && t == old(t).(rows := old(t).rows[i := E.AskedRow(old(t).rows[i], now)])
      ensures out == E.Ask(old(t).rows[i].spa, i, old(t).rows[i].netif)
    {
      var e := Entry(E.AskedRow(rows[i].row, now), rows[i].pending);
      PutRowAbstracts(rowsNow, cellsNow, t, i, e);
      E.AskKeeps(t, i, now);
      WriteRow(i, e);
      t := t.(rows := t.rows[i := e.row]);
      out := E.Ask(e.row.spa, i, e.row.netif);
    }

    /** The one report a swept table has to make. */
    method MakeReport(now: u32) returns (out: E.Report)
      requires Live() && held == InUse(t.holds) && sweep == t.sweep
      modifies this`rowsNow, this`cellsNow, this`t, this`held, rows, cells
      ensures Live() && (t, out) == E.ReportOf(old(t), now) && held == InUse(t.holds) && sweep == t.sweep
    {
      var h := FindReclaim();
      if h < cells.Length {
        HeldDrop(t.holds, h);
        var frame := GiveBack(h);
        return E.Back(frame);
      }
      var i := FindAsk(now);
      if i < rows.Length {
        out := AskFor(i, now);
      } else {
        out := E.Nothing;
      }
    }

    /** The row sweep, at most once per interval, then the holds. */
    method Sweep(now: u32)
      requires Live() && sweep == t.sweep
      modifies this`rowsNow, this`cellsNow, this`t, this`sweep, rows, cells
      ensures Live() && t == E.Swept(old(t), now) && sweep == t.sweep && InUse(t.holds) == InUse(old(t).holds)
    {
      E.SweptKeeps(t, now);
      E.MarkKeeps(t, now);
      if sweep == 0 || Sub32(now, sweep) >= SWEEP_MS {
        sweep := now;
        t := t.(sweep := now);
        AgeRows(now);
      }
      ExpireHolds(now);
    }

    /** The sweep, then one report (idemip_arp_tick). */
    method Tick(now: u32) returns (status: Status, out: E.Report)
      requires Valid()
      modifies this`rowsNow, this`cellsNow, this`t, this`held, this`sweep, rows, cells
      ensures Valid()
      ensures !ready ==> status == ERR && out == E.Nothing && t == old(t)
      ensures ready ==> (t, out) == E.Tick(old(t), now) && status == if out == E.Nothing then BUSY else OK
    {
      status, out := ERR, E.Nothing;
      if ready {
        Sweep(now);
        out := MakeReport(now);
        status := if out == E.Nothing then BUSY else OK;
      }
    }
  }
}
