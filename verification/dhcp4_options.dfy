/**
 * DHCPv4 options (src/dhcp/dhcp4.c): the walk over a region, and a whole message parsed over the three regions of
 * section 4.1 of RFC 2131, against "the first of each option, in region order".
 */
module Dhcp4Options {
  import opened Words

  const OPT_PAD: u8 := 0
  const OPT_SUBNET_MASK: u8 := 1
  const OPT_ROUTER: u8 := 3
  const OPT_DNS_SERVER: u8 := 6
  const OPT_REQUESTED_IP: u8 := 50
  const OPT_LEASE_TIME: u8 := 51
  const OPT_OVERLOAD: u8 := 52
  const OPT_MSG_TYPE: u8 := 53
  const OPT_SERVER_ID: u8 := 54
  const OPT_PARAM_LIST: u8 := 55
  const OPT_MAX_MSG_SIZE: u8 := 57
  const OPT_T1: u8 := 58
  const OPT_T2: u8 := 59
  const OPT_END: u8 := 255

  const OFF_SNAME: nat := 44
  const OFF_FILE: nat := 108
  const OFF_COOKIE: nat := 236
  const OFF_OPTIONS: nat := 240

  type Data = s: seq<u8> | |s| < 0x100

  datatype Item = Item(code: u8, data: Data)

  /** What the client reads out of a message, each option taken once. */
  datatype Opts = Opts(mask: Option<u32>, router: Option<u32>, dns: Option<Data>, lease: Option<u32>,
                       overload: Option<u8>, kind: Option<u8>, server: Option<u32>, t1: Option<u32>, t2: Option<u32>)

  const NOTHING: Opts := Opts(None, None, None, None, None, None, None, None, None)

  // --- what a region holds ---------------------------------------------------------

  /** The options of a region up to its end option, or nothing where a length runs past it. */
  function Tokens(buf: seq<u8>): Option<seq<Item>>
    decreases |buf|
  {
    if buf == [] || buf[0] == OPT_END then Some([])
    else if buf[0] == OPT_PAD then Tokens(buf[1..])
    else if |buf| < 2 || 2 + buf[1] > |buf| then None
    else
      var rest := Tokens(buf[2 + buf[1]..]);
      if rest.None? then None else Some([Item(buf[0], buf[2..2 + buf[1]])] + rest.value)
  }

  /** The lengths, and for option 52 the values, that make a message one to keep. */
  predicate WellFormed(i: Item) {
    match i.code
    case 1 => |i.data| == 4
    case 3 => |i.data| >= 4 && |i.data| % 4 == 0
    case 6 => |i.data| >= 4 && |i.data| % 4 == 0
    case 51 => |i.data| == 4
    case 52 => |i.data| == 1 && 1 <= i.data[0] <= 3
    case 53 => |i.data| == 1
    case 54 => |i.data| == 4
    case 58 => |i.data| == 4
    case 59 => |i.data| == 4
    case _ => true
  }

  predicate AllWellFormed(items: seq<Item>) {
    forall k :: 0 <= k < |items| ==> WellFormed(items[k])
  }

  /** The data of the first option of a code. */
  function First(items: seq<Item>, code: u8): Option<Data> {
    if items == [] then None
    else if items[0].code == code then Some(items[0].data)
    else First(items[1..], code)
  }

  function Word(d: Option<Data>): Option<u32> {
    if d.Some? && |d.value| >= 4 then Some(Rd32(d.value)) else None
  }

  function Octet(d: Option<Data>): Option<u8> {
    if d.Some? && |d.value| >= 1 then Some(d.value[0]) else None
  }

  /** The first of each option the client reads. */
  function Firsts(items: seq<Item>): Opts {
    Opts(Word(First(items, OPT_SUBNET_MASK)), Word(First(items, OPT_ROUTER)), First(items, OPT_DNS_SERVER),
         Word(First(items, OPT_LEASE_TIME)), Octet(First(items, OPT_OVERLOAD)), Octet(First(items, OPT_MSG_TYPE)),
         Word(First(items, OPT_SERVER_ID)), Word(First(items, OPT_T1)), Word(First(items, OPT_T2)))
  }

  // --- taking options one by one ---------------------------------------------------

  function Keep<T>(held: Option<T>, new_: Option<T>): Option<T> {
    if held.Some? then held else new_
  }

  /** One option taken, where it is the first of its code. */
  function Take(o: Opts, i: Item): Opts
    requires WellFormed(i)
  {
    match i.code
    case 1 => o.(mask := Keep(o.mask, Some(Rd32(i.data))))
    case 3 => o.(router := Keep(o.router, Some(Rd32(i.data))))
    case 6 => o.(dns := Keep(o.dns, Some(i.data)))
    case 51 => o.(lease := Keep(o.lease, Some(Rd32(i.data))))
    case 52 => o.(overload := Keep(o.overload, Some(i.data[0])))
    case 53 => o.(kind := Keep(o.kind, Some(i.data[0])))
    case 54 => o.(server := Keep(o.server, Some(Rd32(i.data))))
    case 58 => o.(t1 := Keep(o.t1, Some(Rd32(i.data))))
    case 59 => o.(t2 := Keep(o.t2, Some(Rd32(i.data))))
    case _ => o
  }

  function TakeAll(o: Opts, items: seq<Item>): Opts
    requires AllWellFormed(items)
    decreases |items|
  {
    if items == [] then o else TakeAll(Take(o, items[0]), items[1..])
  }

  function Over(o: Opts, p: Opts): Opts {
    Opts(Keep(o.mask, p.mask), Keep(o.router, p.router), Keep(o.dns, p.dns), Keep(o.lease, p.lease),
         Keep(o.overload, p.overload), Keep(o.kind, p.kind), Keep(o.server, p.server), Keep(o.t1, p.t1),
         Keep(o.t2, p.t2))
  }

  lemma FirstOfOne(i: Item)
    ensures forall code: u8 :: First([i], code) == if i.code == code then Some(i.data) else None
  {
    assert [i][1..] == [];
  }

  lemma TakeIsOver(o: Opts, i: Item)
    requires WellFormed(i)
    ensures Take(o, i) == Over(o, Firsts([i]))
  {
    FirstOfOne(i);
  }

  lemma OverFirsts(items: seq<Item>)
    requires items != [] && AllWellFormed(items)
    ensures Firsts(items) == Over(Firsts([items[0]]), Firsts(items[1..]))
  {
    FirstOfOne(items[0]);
    assert WellFormed(items[0]);
  }

  lemma OverAssociates(o: Opts, p: Opts, q: Opts)
    ensures Over(Over(o, p), q) == Over(o, Over(p, q))
  {
  }

  /** Options taken one by one come to the first of each, after what was already held. */
  lemma {:induction false} TakeAllIsFirsts(o: Opts, items: seq<Item>)
    requires AllWellFormed(items)
    ensures TakeAll(o, items) == Over(o, Firsts(items))
    decreases |items|
  {
    if items != [] {
      TakeAllIsFirsts(Take(o, items[0]), items[1..]);
      TakeIsOver(o, items[0]);
      OverFirsts(items);
      OverAssociates(o, Firsts([items[0]]), Firsts(items[1..]));
    }
  }

  // --- the walk --------------------------------------------------------------------

  /** A region walked with what was already taken; nothing where an option makes the message one to discard. */
  function Walked(buf: seq<u8>, o: Opts): Option<Opts>
    decreases |buf|
  {
    if buf == [] || buf[0] == OPT_END then Some(o)
    else if buf[0] == OPT_PAD then Walked(buf[1..], o)
    else if |buf| < 2 || 2 + buf[1] > |buf| then None
    else
      var i := Item(buf[0], buf[2..2 + buf[1]]);
      if WellFormed(i) then Walked(buf[2 + buf[1]..], Take(o, i)) else None
  }

  predicate Sound(items: Option<seq<Item>>) {
    items.Some? && AllWellFormed(items.value)
  }

  lemma AllWellFormedFront(i: Item, rest: seq<Item>)
    ensures AllWellFormed([i] + rest) <==> WellFormed(i) && AllWellFormed(rest)
  {
    var all := [i] + rest;
    if AllWellFormed(all) {
      assert WellFormed(all[0]);
      forall k | 0 <= k < |rest| ensures WellFormed(rest[k]) {
        assert rest[k] == all[k + 1];
      }
    }
  }

  /** The walk refuses a region exactly when its lengths are wrong, and otherwise takes the first of each option. */
  lemma {:induction false} WalkedIsFirsts(buf: seq<u8>, o: Opts)
    ensures Walked(buf, o) == if Sound(Tokens(buf)) then Some(Over(o, Firsts(Tokens(buf).value))) else None
    decreases |buf|
  {
    if buf == [] || buf[0] == OPT_END {
      assert Over(o, Firsts([])) == o;
    } else if buf[0] == OPT_PAD {
      WalkedIsFirsts(buf[1..], o);
    } else if |buf| >= 2 && 2 + buf[1] <= |buf| {
      var i := Item(buf[0], buf[2..2 + buf[1]]);
      var rest := Tokens(buf[2 + buf[1]..]);
      if rest.Some? {
        AllWellFormedFront(i, rest.value);
      }
      if WellFormed(i) {
        WalkedIsFirsts(buf[2 + buf[1]..], Take(o, i));
        if Sound(rest) {
          TakeAllIsFirsts(o, [i] + rest.value);
          TakeAllIsFirsts(Take(o, i), rest.value);
          assert ([i] + rest.value)[1..] == rest.value;
        }
      }
    }
  }

  /** One region, option by option (dhcp4_walk). */
  method Walk(base: seq<u8>, held: Opts) returns (r: Option<Opts>)
    ensures r == if Sound(Tokens(base)) then Some(Over(held, Firsts(Tokens(base).value))) else None
  {
    WalkedIsFirsts(base, held);
    var o, i := held, 0;
    while i < |base|
      invariant i <= |base|
      invariant Walked(base[i..], o) == Walked(base, held)
    {
      var code := base[i];
      ghost var here := base[i..];
      if code == OPT_END {
        return Some(o);
      }
      if code == OPT_PAD {
        i := i + 1;
        assert here[1..] == base[i..];
        continue;
      }
      if i + 2 > |base| {
        return None;
      }
      var olen := base[i + 1];
      if i + 2 + olen > |base| {
        return None;
      }
      var item := Item(code, base[i + 2..i + 2 + olen]);
      assert here[2..2 + here[1]] == item.data;
      if !WellFormed(item) {
        return None;
      }
      o := Take(o, item);
      i := i + 2 + olen;
      assert here[2 + here[1]..] == base[i..];
    }
    return Some(o);
  }

  // --- a whole message -------------------------------------------------------------

  /** The options of a message in the order section 4.1 has them read: `options`, then `file`, then `sname`. */
  function InOrder(msg: seq<u8>): Option<seq<Item>>
    requires |msg| >= OFF_OPTIONS
  {
    var main := Tokens(msg[OFF_OPTIONS..]);
    if main.None? then None
    else
      var overload := Octet(First(main.value, OPT_OVERLOAD));
      var file := if overload.Some? && overload.value % 2 == 1 then Tokens(msg[OFF_FILE..OFF_COOKIE]) else Some([]);
      var sname := if overload.Some? && overload.value / 2 == 1 then Tokens(msg[OFF_SNAME..OFF_FILE]) else Some([]);
      if file.None? || sname.None? then None else Some(main.value + file.value + sname.value)
  }

  /** What a message says: the first of each option over the regions in order, or nothing if any is malformed. */
  function Declared(msg: seq<u8>): Option<Opts>
    requires |msg| >= OFF_OPTIONS
  {
    if Sound(InOrder(msg)) then Some(Firsts(InOrder(msg).value)) else None
  }

  lemma SoundConcat(a: seq<Item>, b: seq<Item>)
    ensures AllWellFormed(a + b) <==> AllWellFormed(a) && AllWellFormed(b)
  {
    var all := a + b;
    if AllWellFormed(all) {
      forall k | 0 <= k < |a| ensures WellFormed(a[k]) {
        assert a[k] == all[k];
      }
      forall k | 0 <= k < |b| ensures WellFormed(b[k]) {
        assert b[k] == all[|a| + k];
      }
    }
  }

  lemma TakeAllConcat(o: Opts, a: seq<Item>, b: seq<Item>)
    requires AllWellFormed(a) && AllWellFormed(b)
    ensures AllWellFormed(a + b) && TakeAll(o, a + b) == TakeAll(TakeAll(o, a), b)
    decreases |a|
  {
    SoundConcat(a, b);
    if a == [] {
      assert a + b == b;
    } else {
      assert (a + b)[1..] == a[1..] + b;
      TakeAllConcat(Take(o, a[0]), a[1..], b);
    }
  }

  lemma FirstsConcat(a: seq<Item>, b: seq<Item>)
    requires AllWellFormed(a) && AllWellFormed(b)
    ensures Firsts(a + b) == Over(Firsts(a), Firsts(b))
  {
    TakeAllConcat(NOTHING, a, b);
    TakeAllIsFirsts(NOTHING, a + b);
    TakeAllIsFirsts(NOTHING, a);
    TakeAllIsFirsts(Firsts(a), b);
  }

  /** Three regions, each refused or read, come to the concatenation refused or read. */
  lemma ThreeRegions(main: seq<Item>, file: Option<seq<Item>>, sname: Option<seq<Item>>)
    ensures file.Some? && sname.Some? ==>
      var all := main + file.value + sname.value;
      && (AllWellFormed(all) <==> AllWellFormed(main) && Sound(file) && Sound(sname))
      && (AllWellFormed(all) ==> Firsts(all) == Over(Over(Firsts(main), Firsts(file.value)), Firsts(sname.value)))
  {
    if file.Some? && sname.Some? {
      SoundConcat(main, file.value);
      SoundConcat(main + file.value, sname.value);
      if AllWellFormed(main + file.value + sname.value) {
        FirstsConcat(main, file.value);
        FirstsConcat(main + file.value, sname.value);
      }
    }
  }

  lemma OverNothing(o: Opts)
    ensures Over(o, Firsts([])) == o && Over(NOTHING, o) == o
  {
  }

  /** A message parsed (dhcp4_parse), each region read only within its own bounds. */
  method Parse(msg: seq<u8>) returns (r: Option<Opts>)
    requires |msg| >= OFF_OPTIONS
    ensures r == Declared(msg)
  {
    r := Walk(msg[OFF_OPTIONS..], NOTHING);
    ghost var main := Tokens(msg[OFF_OPTIONS..]);
    ghost var file, sname := Some([]), Some([]);
    if main.Some? {
      OverNothing(Firsts(main.value));
      var overload := Octet(First(main.value, OPT_OVERLOAD));
      file := if overload.Some? && overload.value % 2 == 1 then Tokens(msg[OFF_FILE..OFF_COOKIE]) else Some([]);
      sname := if overload.Some? && overload.value / 2 == 1 then Tokens(msg[OFF_SNAME..OFF_FILE]) else Some([]);
      ThreeRegions(main.value, file, sname);
    }
    if r.None? {
      return;
    }
    OverNothing(r.value);
    if r.value.overload.None? {
      return;
    }
    var overload := r.value.overload.value;
    if overload % 2 == 1 {
      r := Walk(msg[OFF_FILE..OFF_COOKIE], r.value);
      if r.None? {
        return;
      }
      OverNothing(r.value);
    }
    if overload / 2 == 1 {
      r := Walk(msg[OFF_SNAME..OFF_FILE], r.value);
    }
  }
}
