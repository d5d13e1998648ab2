/**
 * How src/arp/arp_table.c lays the value model out: the holds of a row threaded
 * by one-octet links from the row's `pending`, and what each store to a link
 * means for the queues.
 */
module ArpLinks {
  import opened Words
  import opened Counting
  import opened ArpModel

  /** One row of the table: the triplet's fields and the head of its holds. */
  datatype Entry = Entry(row: Row, pending: nat)

  datatype CellState = CellFree | CellWait | CellReclaim

  /** One hold of the pool. */
  datatype Cell = Cell(state: CellState, deadline: u32, spa: u32, desc: u16, len: u16, entry: nat, next: nat)

  /** What a clear leaves: a free row's list head reads zero, not the end of a list. */
  const ZERO_ENTRY: Entry := Entry(EMPTY_ROW, 0)
  const ZERO_CELL: Cell := Cell(CellFree, 0, 0, 0, 0, 0, 0)

  function HoldOf(c: Cell): Hold {
    match c.state
    case CellFree => NoFrame
    case CellWait => Wait(Frame(c.desc, c.len, c.spa), c.deadline, c.entry)
    case CellReclaim => Reclaim(Frame(c.desc, c.len, c.spa))
  }

  /** The links from `head` visit exactly `q`, then end. */
  ghost predicate Chain(cells: seq<Cell>, head: nat, q: seq<nat>) {
    && Below(q, |cells|)
    && head == LinkAt(q, 0)
    && forall k {:trigger cells[q[k]]} :: 0 <= k < |q| ==> cells[q[k]].next == LinkAt(q, k + 1)
  }

  ghost predicate RowsAgree(rows: seq<Entry>, t: Table) {
    |rows| == |t.rows| && forall i :: 0 <= i < |rows| ==> rows[i].row == t.rows[i]
  }

  ghost predicate HoldsAgree(cells: seq<Cell>, t: Table) {
    |cells| == |t.holds| && forall h :: 0 <= h < |cells| ==> HoldOf(cells[h]) == t.holds[h]
  }

  /** Only a live row's list head is read. */
  ghost predicate ChainsAgree(rows: seq<Entry>, cells: seq<Cell>, t: Table) {
    && |rows| == |t.rows| == |t.queues|
    && forall i :: 0 <= i < |rows| && t.rows[i].state != Free ==> Chain(cells, rows[i].pending, t.queues[i])
  }

  ghost predicate Abstracts(rows: seq<Entry>, cells: seq<Cell>, t: Table) {
    RowsAgree(rows, t) && HoldsAgree(cells, t) && ChainsAgree(rows, cells, t)
  }

  /** A live row heads no list exactly when no hold waits on it. */
  lemma PendingEmpty(rows: seq<Entry>, cells: seq<Cell>, t: Table, i: nat)
    requires Inv(t) && ChainsAgree(rows, cells, t) && |cells| <= NONE && i < |rows| && t.rows[i].state != Free
    ensures rows[i].pending == NONE <==> t.queues[i] == []
  {
    assert Chain(cells, rows[i].pending, t.queues[i]);
  }

  /** No hold is on two rows' queues. */
  lemma QueuesApart(t: Table, i: nat, j: nat, h: nat)
    requires Inv(t) && i < |t.rows| && j < |t.rows| && h in t.queues[i] && h in t.queues[j]
    ensures i == j
  {
    assert QueueOk(t, i);
    QueuedExactly(t, i, h);
    QueuedExactly(t, j, h);
  }

  lemma QueuesDisjoint(t: Table, i: nat, j: nat)
    requires Inv(t) && i < |t.rows| && j < |t.rows| && i != j
    ensures forall k :: 0 <= k < |t.queues[j]| ==> t.queues[j][k] !in t.queues[i]
  {
    forall k | 0 <= k < |t.queues[j]| ensures t.queues[j][k] !in t.queues[i] {
      if t.queues[j][k] in t.queues[i] {
        QueuesApart(t, i, j, t.queues[j][k]);
      }
    }
  }

  /** A hold that does not wait is on no queue. */
  lemma NotQueued(t: Table, h: nat, j: nat)
    requires Inv(t) && h < |t.holds| && !t.holds[h].Wait? && j < |t.rows|
    ensures h !in t.queues[j]
  {
    QueuedExactly(t, j, h);
  }

  /** Storing to cells off a list leaves the list as it was. */
  lemma ChainApart(cells: seq<Cell>, cells': seq<Cell>, head: nat, q: seq<nat>)
    requires Chain(cells, head, q) && |cells'| == |cells|
    requires forall k :: 0 <= k < |q| ==> cells'[q[k]] == cells[q[k]]
    ensures Chain(cells', head, q)
  {
  }

  // --- freeing a row ---------------------------------------------------------------

  function Reclaimed(c: Cell): Cell {
    c.(entry := NONE, next := NONE, state := CellReclaim)
  }

  /** The first `n` holds of a queue made reclaimable. */
  function ReleasedCells(cells: seq<Cell>, q: seq<nat>, n: nat): (r: seq<Cell>)
    requires Below(q, |cells|) && NoRepeat(q) && n <= |q|
    ensures |r| == |cells|
    ensures forall k :: n <= k < |q| ==> r[q[k]] == cells[q[k]]
    ensures forall h :: 0 <= h < |cells| ==>
              r[h] == if h in q[..n] then Reclaimed(cells[h]) else cells[h]
  {
    if n == 0 then cells
    else
      var r := ReleasedCells(cells, q, n - 1);
      assert q[..n] == q[..n - 1] + [q[n - 1]];
      r[q[n - 1] := Reclaimed(r[q[n - 1]])]
  }

  lemma FreeRowHoldsAgree(cells: seq<Cell>, t: Table, i: nat)
    requires Inv(t) && HoldsAgree(cells, t) && i < |t.rows| && Below(t.queues[i], |cells|) && NoRepeat(t.queues[i])
    ensures HoldsAgree(ReleasedCells(cells, t.queues[i], |t.queues[i]|), FreeRow(t, i))
  {
    var q := t.queues[i];
    assert q[..|q|] == q;
    var after := ReleasedCells(cells, q, |q|);
    forall h | 0 <= h < |cells| ensures HoldOf(after[h]) == Released(t.holds[h], i) {
      QueuedExactly(t, i, h);
    }
  }

  /** Another row's list is untouched by the release. */
  lemma ReleasedChain(cells: seq<Cell>, t: Table, i: nat, j: nat, head: nat)
    requires Inv(t) && i < |t.rows| && j < |t.rows| && i != j && Chain(cells, head, t.queues[j])
    requires Below(t.queues[i], |cells|) && NoRepeat(t.queues[i])
    ensures Chain(ReleasedCells(cells, t.queues[i], |t.queues[i]|), head, t.queues[j])
  {
    var q := t.queues[i];
    assert q[..|q|] == q;
    QueuesDisjoint(t, i, j);
    ChainApart(cells, ReleasedCells(cells, q, |q|), head, t.queues[j]);
  }

  lemma FreeRowChainsAgree(rows: seq<Entry>, cells: seq<Cell>, t: Table, i: nat)
    requires Inv(t) && ChainsAgree(rows, cells, t) && i < |t.rows|
    requires Below(t.queues[i], |cells|) && NoRepeat(t.queues[i])
    ensures ChainsAgree(rows[i := Entry(EMPTY_ROW, NONE)], ReleasedCells(cells, t.queues[i], |t.queues[i]|),
                        FreeRow(t, i))
  {
    forall j | 0 <= j < |rows| && j != i && t.rows[j].state != Free
      ensures Chain(ReleasedCells(cells, t.queues[i], |t.queues[i]|), rows[j].pending, t.queues[j])
    {
      ReleasedChain(cells, t, i, j, rows[j].pending);
    }
  }

  /** What arp_row_free stores is the value model's freed row. */
  lemma FreeRowAbstracts(rows: seq<Entry>, cells: seq<Cell>, t: Table, i: nat)
    requires Inv(t) && Abstracts(rows, cells, t) && i < |t.rows|
    ensures Below(t.queues[i], |cells|) && NoRepeat(t.queues[i])
    ensures Abstracts(rows[i := Entry(EMPTY_ROW, NONE)], ReleasedCells(cells, t.queues[i], |t.queues[i]|),
                      FreeRow(t, i))
  {
    assert QueueOk(t, i);
    FreeRowHoldsAgree(cells, t, i);
    FreeRowChainsAgree(rows, cells, t, i);
  }

  /** Rewriting a row in place: a live one keeps its list head, one with no holds has none. */
  lemma PutRowAbstracts(rows: seq<Entry>, cells: seq<Cell>, t: Table, i: nat, e: Entry)
    requires Abstracts(rows, cells, t) && i < |t.rows|
    requires (t.rows[i].state != Free && e.pending == rows[i].pending) || (t.queues[i] == [] && e.pending == NONE)
    ensures Abstracts(rows[i := e], cells, t.(rows := t.rows[i := e.row]))
  {
    var t' := t.(rows := t.rows[i := e.row]);
    forall j | 0 <= j < |rows| && t'.rows[j].state != Free ensures Chain(cells, rows[i := e][j].pending, t'.queues[j]) {
      if j != i {
        assert t.rows[j].state != Free;
      }
    }
  }

  // --- linking ---------------------------------------------------------------------

  /** The stores of arp_hold_link: the cell ends the list, and the old tail or the row leads to it. */
  function LinkedRows(rows: seq<Entry>, i: nat, q: seq<nat>, h: nat): seq<Entry>
    requires i < |rows|
  {
    if q == [] then rows[i := rows[i].(pending := h)] else rows
  }

  function LinkedCells(cells: seq<Cell>, q: seq<nat>, h: nat, c: Cell): seq<Cell>
    requires Below(q, |cells|) && h < |cells|
  {
    var s := cells[h := c.(next := NONE)];
    if q == [] then s else s[q[|q| - 1] := s[q[|q| - 1]].(next := h)]
  }

  /** Filling the cell before linking it comes to the same stores. */
  lemma LinkedFilled(cells: seq<Cell>, q: seq<nat>, h: nat, c: Cell)
    requires Below(q, |cells|) && h < |cells| && h !in q
    ensures LinkedCells(cells[h := c], q, h, c) == LinkedCells(cells, q, h, c)
  {
    assert cells[h := c][h := c.(next := NONE)] == cells[h := c.(next := NONE)];
  }

  lemma LinkedChain(cells: seq<Cell>, head: nat, q: seq<nat>, h: nat, c: Cell)
    requires Chain(cells, head, q) && NoRepeat(q) && h < |cells| && h !in q
    ensures Chain(LinkedCells(cells, q, h, c), if q == [] then h else head, q + [h])
  {
    var after, q' := LinkedCells(cells, q, h, c), q + [h];
    forall k | 0 <= k < |q'| ensures after[q'[k]].next == LinkAt(q', k + 1) {
      if k < |q| - 1 {
        assert after[q[k]] == cells[q[k]];
      }
    }
  }

  lemma LinkedHoldsAgree(cells: seq<Cell>, t: Table, i: nat, h: nat, c: Cell)
    requires Inv(t) && HoldsAgree(cells, t) && i < |t.rows| && h < |t.holds| && Below(t.queues[i], |cells|)
    requires c.state == CellWait && c.entry == i && t.holds[h].NoFrame?
    ensures HoldsAgree(LinkedCells(cells, t.queues[i], h, c),
                       Append(t, i, h, Frame(c.desc, c.len, c.spa), c.deadline))
  {
    NotQueued(t, h, i);
    assert QueueOk(t, i);
  }

  lemma LinkedAbstracts(rows: seq<Entry>, cells: seq<Cell>, t: Table, i: nat, h: nat, c: Cell)
    requires Inv(t) && Abstracts(rows, cells, t) && i < |t.rows| && h < |t.holds| && t.rows[i].state != Free
    requires c.state == CellWait && c.entry == i && t.holds[h].NoFrame?
    ensures Below(t.queues[i], |cells|)
    ensures Abstracts(LinkedRows(rows, i, t.queues[i], h), LinkedCells(cells, t.queues[i], h, c),
                      Append(t, i, h, Frame(c.desc, c.len, c.spa), c.deadline))
  {
    var q := t.queues[i];
    assert QueueOk(t, i);
    NotQueued(t, h, i);
    LinkedHoldsAgree(cells, t, i, h, c);
    assert Chain(cells, rows[i].pending, q);
    LinkedChain(cells, rows[i].pending, q, h, c);
    var rows', cells' := LinkedRows(rows, i, q, h), LinkedCells(cells, q, h, c);
    forall j | 0 <= j < |rows| && j != i && t.rows[j].state != Free
      ensures Chain(cells', rows'[j].pending, t.queues[j]) {
      NotQueued(t, h, j);
      QueuesDisjoint(t, i, j);
      ChainApart(cells, cells', rows[j].pending, t.queues[j]);
    }
  }

  // --- unlinking -------------------------------------------------------------------

  /** The stores of arp_hold_unlink, and of what the cell becomes. */
  function UnlinkedRows(rows: seq<Entry>, cells: seq<Cell>, i: nat, q: seq<nat>, k: nat): seq<Entry>
    requires i < |rows| && k < |q| && Below(q, |cells|)
  {
    if k == 0 then rows[i := rows[i].(pending := cells[q[0]].next)] else rows
  }

  function UnlinkedCells(cells: seq<Cell>, q: seq<nat>, k: nat, c: Cell): seq<Cell>
    requires Below(q, |cells|) && k < |q|
  {
    var s := if k == 0 then cells else cells[q[k - 1] := cells[q[k - 1]].(next := cells[q[k]].next)];
    s[q[k] := c]
  }

  lemma UnlinkedLink(cells: seq<Cell>, head: nat, q: seq<nat>, k: nat, c: Cell, j: nat)
    requires Chain(cells, head, q) && NoRepeat(q) && k < |q| && j < |q| - 1
    ensures UnlinkedCells(cells, q, k, c)[RemovedAt(q, k)[j]].next == LinkAt(RemovedAt(q, k), j + 1)
  {
    var after := UnlinkedCells(cells, q, k, c);
    if j < k - 1 {
      assert after[q[j]] == cells[q[j]];
    } else if j == k - 1 {
      assert after[q[j]].next == cells[q[k]].next;
    } else {
      assert after[q[j + 1]] == cells[q[j + 1]];
    }
  }

  lemma UnlinkedChain(cells: seq<Cell>, head: nat, q: seq<nat>, k: nat, c: Cell)
    requires Chain(cells, head, q) && NoRepeat(q) && k < |q|
    ensures Chain(UnlinkedCells(cells, q, k, c), if k == 0 then cells[q[0]].next else head, RemovedAt(q, k))
  {
    var after, q' := UnlinkedCells(cells, q, k, c), RemovedAt(q, k);
    RemovedOrder(q, |cells|, k);
    forall j | 0 <= j < |q'| ensures after[q'[j]].next == LinkAt(q', j + 1) {
      UnlinkedLink(cells, head, q, k, c, j);
    }
  }

  lemma UnlinkedHoldsAgree(cells: seq<Cell>, t: Table, i: nat, k: nat, c: Cell)
    requires Inv(t) && HoldsAgree(cells, t) && i < |t.rows| && k < |t.queues[i]| && Below(t.queues[i], |cells|)
    ensures HoldsAgree(UnlinkedCells(cells, t.queues[i], k, c), Detach(t, i, k, HoldOf(c)))
  {
  }

  lemma UnlinkedAbstracts(rows: seq<Entry>, cells: seq<Cell>, t: Table, i: nat, k: nat, c: Cell)
    requires Inv(t) && Abstracts(rows, cells, t) && i < |t.rows| && k < |t.queues[i]| && t.rows[i].state != Free
    ensures Below(t.queues[i], |cells|)
    ensures Abstracts(UnlinkedRows(rows, cells, i, t.queues[i], k), UnlinkedCells(cells, t.queues[i], k, c),
                      Detach(t, i, k, HoldOf(c)))
  {
    var q := t.queues[i];
    assert QueueOk(t, i);
    UnlinkedHoldsAgree(cells, t, i, k, c);
    assert Chain(cells, rows[i].pending, q);
    UnlinkedChain(cells, rows[i].pending, q, k, c);
    var rows', cells' := UnlinkedRows(rows, cells, i, q, k), UnlinkedCells(cells, q, k, c);
    forall j | 0 <= j < |rows| && j != i && t.rows[j].state != Free
      ensures Chain(cells', rows'[j].pending, t.queues[j]) {
      QueuesDisjoint(t, i, j);
      ChainApart(cells, cells', rows[j].pending, t.queues[j]);
    }
  }

  /** Zeroing a hold that is on no list. */
  lemma ZeroedAbstracts(rows: seq<Entry>, cells: seq<Cell>, t: Table, h: nat)
    requires Inv(t) && Abstracts(rows, cells, t) && h < |cells| && !t.holds[h].Wait?
    ensures Abstracts(rows, cells[h := ZERO_CELL], t.(holds := t.holds[h := NoFrame]))
  {
    var cells' := cells[h := ZERO_CELL];
    forall j | 0 <= j < |rows| && t.rows[j].state != Free ensures Chain(cells', rows[j].pending, t.queues[j]) {
      NotQueued(t, h, j);
      ChainApart(cells, cells', rows[j].pending, t.queues[j]);
    }
  }
}
