/**
 * The writer of the five DHCPv4 client messages (src/dhcp/dhcp4.c), filling the caller's buffer in place with the
 * 300 octets of section 2.1 of RFC 1542, and what the parse then reads back out of them.
 */
module Dhcp4Writer {
  import opened Words
  import opened Buffers
  import opened Dhcp4Options

  const MSG_LEN: nat := 300
  const OP_BOOTREQUEST: u8 := 1
  const MAGIC_COOKIE: u32 := 0x6382_5363
  const FLAG_BROADCAST: u16 := 0x8000
  const MSG_MIN: u16 := 576
  const CHADDR_LEN: nat := 16

  const DISCOVER: u8 := 1
  const OFFER: u8 := 2
  const REQUEST: u8 := 3
  const DECLINE: u8 := 4
  const ACK: u8 := 5
  const NAK: u8 := 6
  const RELEASE: u8 := 7
  const INFORM: u8 := 8

  type Chaddr = s: seq<u8> | 1 <= |s| <= CHADDR_LEN witness [0]

  /** The fixed fields of a message. */
  datatype Fixed = Fixed(htype: u8, chaddr: Chaddr, xid: u32, secs: u16, flags: u16, ciaddr: u32)

  /** What follows the type: the address asked for, the server named, the lease asked for, and the request list. */
  datatype Asked = Asked(requested: Option<u32>, server: Option<u32>, lease: Option<u32>, hints: bool)

  function WordItem(code: u8, v: Option<u32>): seq<Item> {
    if v.Some? then [Item(code, Wr32(v.value))] else []
  }

  function SizeItem(hints: bool): seq<Item> {
    if hints then [Item(OPT_MAX_MSG_SIZE, Wr16(MSG_MIN))] else []
  }

  function ListItem(hints: bool): seq<Item> {
    if hints then [Item(OPT_PARAM_LIST, [OPT_SUBNET_MASK, OPT_ROUTER, OPT_DNS_SERVER])] else []
  }

  /** The options of a message in the order they are written. */
  function Items(kind: u8, a: Asked): seq<Item> {
    [Item(OPT_MSG_TYPE, [kind])] + SizeItem(a.hints) + WordItem(OPT_REQUESTED_IP, a.requested)
    + WordItem(OPT_SERVER_ID, a.server) + WordItem(OPT_LEASE_TIME, a.lease) + ListItem(a.hints)
  }

  function Opt(i: Item): (s: seq<u8>)
    ensures |s| == 2 + |i.data|
  {
    [i.code, |i.data|] + i.data
  }

  function Encoded(items: seq<Item>): seq<u8> {
    if items == [] then [] else Opt(items[0]) + Encoded(items[1..])
  }

  /** The octets before the options: everything a client leaves zero is zero. */
  function Header(f: Fixed): (h: seq<u8>)
    ensures |h| == OFF_OPTIONS
  {
    Front(f) + Zeros(12) + f.chaddr + Zeros(OFF_COOKIE - 28 - |f.chaddr|) + Wr32(MAGIC_COOKIE)
  }

  /** The octets up to `yiaddr`. */
  function Front(f: Fixed): (h: seq<u8>)
    ensures |h| == 16
  {
    [OP_BOOTREQUEST, f.htype, |f.chaddr|, 0] + Wr32(f.xid) + (Wr16(f.secs) + Wr16(f.flags) + Wr32(f.ciaddr))
  }

  /** The fields a reader finds at their offsets. */
  lemma HeaderFields(f: Fixed)
    ensures Header(f)[4..8] == Wr32(f.xid) && Header(f)[28..28 + |f.chaddr|] == f.chaddr
    ensures Header(f)[OFF_COOKIE..] == Wr32(MAGIC_COOKIE)
  {
    assert Front(f)[4..8] == Wr32(f.xid);
    var front := Front(f) + Zeros(12);
    var whole := front + f.chaddr + Zeros(OFF_COOKIE - 28 - |f.chaddr|);
    assert |whole| == OFF_COOKIE && whole[28..28 + |f.chaddr|] == f.chaddr && whole[..28] == front;
    assert Header(f) == whole + Wr32(MAGIC_COOKIE);
  }

  lemma {:induction false} EncodedConcat(a: seq<Item>, b: seq<Item>)
    ensures Encoded(a + b) == Encoded(a) + Encoded(b)
    decreases |a|
  {
    if a == [] {
      assert a + b == b;
    } else {
      assert (a + b)[1..] == a[1..] + b;
      EncodedConcat(a[1..], b);
    }
  }

  lemma EncodedOne(i: Item)
    ensures Encoded([i]) == Opt(i)
  {
    assert [i][1..] == [];
  }

  lemma PartLengths(kind: u8, a: Asked)
    ensures |Encoded([Item(OPT_MSG_TYPE, [kind])])| == 3
    ensures |Encoded(SizeItem(a.hints))| == if a.hints then 4 else 0
    ensures |Encoded(ListItem(a.hints))| == if a.hints then 5 else 0
  {
    EncodedOne(Item(OPT_MSG_TYPE, [kind]));
    if a.hints {
      EncodedOne(SizeItem(true)[0]);
      EncodedOne(ListItem(true)[0]);
    }
  }

  lemma WordLength(code: u8, v: Option<u32>)
    ensures |Encoded(WordItem(code, v))| == if v.Some? then 6 else 0
  {
    if v.Some? {
      EncodedOne(WordItem(code, v)[0]);
    }
  }

  lemma EncodedParts(kind: u8, a: Asked)
    ensures Encoded(Items(kind, a)) ==
      Encoded([Item(OPT_MSG_TYPE, [kind])]) + Encoded(SizeItem(a.hints))
      + Encoded(WordItem(OPT_REQUESTED_IP, a.requested)) + Encoded(WordItem(OPT_SERVER_ID, a.server))
      + Encoded(WordItem(OPT_LEASE_TIME, a.lease)) + Encoded(ListItem(a.hints))
  {
    var p1 := [Item(OPT_MSG_TYPE, [kind])];
    var p2 := p1 + SizeItem(a.hints);
    var p3 := p2 + WordItem(OPT_REQUESTED_IP, a.requested);
    var p4 := p3 + WordItem(OPT_SERVER_ID, a.server);
    var p5 := p4 + WordItem(OPT_LEASE_TIME, a.lease);
    EncodedConcat(p1, SizeItem(a.hints));
    EncodedConcat(p2, WordItem(OPT_REQUESTED_IP, a.requested));
    EncodedConcat(p3, WordItem(OPT_SERVER_ID, a.server));
    EncodedConcat(p4, WordItem(OPT_LEASE_TIME, a.lease));
    EncodedConcat(p5, ListItem(a.hints));
  }

  /** Every option set a client writes leaves room for the end option inside the 300 octets. */
  lemma ItemsFit(kind: u8, a: Asked)
    ensures |Encoded(Items(kind, a))| <= 30
  {
    EncodedParts(kind, a);
    PartLengths(kind, a);
    WordLength(OPT_REQUESTED_IP, a.requested);
    WordLength(OPT_SERVER_ID, a.server);
    WordLength(OPT_LEASE_TIME, a.lease);
  }

  /** The options, the end option, and pads to the end of the message. */
  function Tail(kind: u8, a: Asked): (t: seq<u8>)
    ensures |t| == MSG_LEN - OFF_OPTIONS
  {
    ItemsFit(kind, a);
    var opts := Encoded(Items(kind, a));
    opts + [OPT_END] + Zeros(MSG_LEN - OFF_OPTIONS - |opts| - 1)
  }

  function Message(f: Fixed, kind: u8, a: Asked): (m: seq<u8>)
    ensures |m| == MSG_LEN
  {
    Header(f) + Tail(kind, a)
  }

  // --- reading a message back ------------------------------------------------------

  predicate Plain(items: seq<Item>) {
    forall k :: 0 <= k < |items| ==> items[k].code != OPT_PAD && items[k].code != OPT_END
  }

  /** Options laid end to end before an end option are the options the walk finds. */
  lemma {:induction false} TokensOfEncoded(items: seq<Item>, rest: seq<u8>)
    requires Plain(items)
    ensures Tokens(Encoded(items) + [OPT_END] + rest) == Some(items)
    decreases |items|
  {
    var buf := Encoded(items) + [OPT_END] + rest;
    if items != [] {
      var i := items[0];
      assert i.code != OPT_PAD && i.code != OPT_END;
      assert Plain(items[1..]);
      TokensOfEncoded(items[1..], rest);
      assert buf == Opt(i) + (Encoded(items[1..]) + [OPT_END] + rest);
      assert buf[0] == i.code && buf[1] == |i.data|;
      assert buf[2..2 + buf[1]] == i.data;
      assert buf[2 + buf[1]..] == Encoded(items[1..]) + [OPT_END] + rest;
      assert items == [i] + items[1..];
    }
  }

  /** A part of the option list: what it says, and that the walk will have it. */
  ghost predicate Says(items: seq<Item>, o: Opts) {
    Plain(items) && AllWellFormed(items) && Firsts(items) == o
  }

  lemma SaysNothing()
    ensures Says([], NOTHING)
  {
  }

  lemma OneSays(i: Item, o: Opts)
    requires i.code != OPT_PAD && i.code != OPT_END && WellFormed(i) && Take(NOTHING, i) == o
    ensures Says([i], o)
  {
    TakeIsOver(NOTHING, i);
  }

  lemma Together(a: seq<Item>, p: Opts, b: seq<Item>, q: Opts)
    requires Says(a, p) && Says(b, q)
    ensures Says(a + b, Over(p, q))
  {
    SoundConcat(a, b);
    FirstsConcat(a, b);
  }

  lemma HintsSayNothing(hints: bool)
    ensures Says(SizeItem(hints), NOTHING) && Says(ListItem(hints), NOTHING)
  {
    SaysNothing();
    if hints {
      OneSays(SizeItem(true)[0], NOTHING);
      OneSays(ListItem(true)[0], NOTHING);
    }
  }

  lemma WordSays(code: u8, v: Option<u32>, o: Opts)
    requires code == OPT_REQUESTED_IP || code == OPT_SERVER_ID || code == OPT_LEASE_TIME
    requires o == if code == OPT_SERVER_ID then NOTHING.(server := v)
                  else if code == OPT_LEASE_TIME then NOTHING.(lease := v) else NOTHING
    ensures Says(WordItem(code, v), o)
  {
    SaysNothing();
    if v.Some? {
      OneSays(WordItem(code, v)[0], o);
    }
  }

  lemma ItemsSay(kind: u8, a: Asked)
    ensures Says(Items(kind, a), NOTHING.(kind := Some(kind), server := a.server, lease := a.lease))
  {
    var p1, o1 := [Item(OPT_MSG_TYPE, [kind])], NOTHING.(kind := Some(kind));
    OneSays(p1[0], o1);
    HintsSayNothing(a.hints);
    var p2 := p1 + SizeItem(a.hints);
    Together(p1, o1, SizeItem(a.hints), NOTHING);
    var p3 := p2 + WordItem(OPT_REQUESTED_IP, a.requested);
    WordSays(OPT_REQUESTED_IP, a.requested, NOTHING);
    Together(p2, o1, WordItem(OPT_REQUESTED_IP, a.requested), NOTHING);
    var p4, o4 := p3 + WordItem(OPT_SERVER_ID, a.server), o1.(server := a.server);
    WordSays(OPT_SERVER_ID, a.server, NOTHING.(server := a.server));
    Together(p3, o1, WordItem(OPT_SERVER_ID, a.server), NOTHING.(server := a.server));
    var p5, o5 := p4 + WordItem(OPT_LEASE_TIME, a.lease), o4.(lease := a.lease);
    WordSays(OPT_LEASE_TIME, a.lease, NOTHING.(lease := a.lease));
    Together(p4, o4, WordItem(OPT_LEASE_TIME, a.lease), NOTHING.(lease := a.lease));
    Together(p5, o5, ListItem(a.hints), NOTHING);
  }

  /**
   * Every message written parses, to exactly the type, the server identifier and the lease time it was written
   * with, and no other option the client reads.
   */
  lemma MessageReadsBack(f: Fixed, kind: u8, a: Asked)
    ensures Declared(Message(f, kind, a)) == Some(NOTHING.(kind := Some(kind), server := a.server, lease := a.lease))
  {
    var items := Items(kind, a);
    TokensOfMessage(f, kind, a);
    ItemsSay(kind, a);
    assert Octet(First(items, OPT_OVERLOAD)) == Firsts(items).overload;
    assert items + [] + [] == items;
  }

  lemma TokensOfMessage(f: Fixed, kind: u8, a: Asked)
    ensures Tokens(Message(f, kind, a)[OFF_OPTIONS..]) == Some(Items(kind, a))
  {
    TokensOfTail(kind, a);
    Suffix(Header(f), Tail(kind, a));
  }

  lemma Suffix(a: seq<u8>, b: seq<u8>)
    ensures (a + b)[|a|..] == b
  {
  }

  lemma TokensOfTail(kind: u8, a: Asked)
    ensures Tokens(Tail(kind, a)) == Some(Items(kind, a))
  {
    ItemsSay(kind, a);
    ItemsFit(kind, a);
    TokensOfEncoded(Items(kind, a), Zeros(MSG_LEN - OFF_OPTIONS - |Encoded(Items(kind, a))| - 1));
  }

  // --- writing a message in place --------------------------------------------------

  /** An option's code, length and data (dhcp4_opt_u8, dhcp4_opt_u16, dhcp4_opt_u32). */
  method Put(out: array<u8>, at: nat, i: Item) returns (past: nat)
    requires at + 2 + |i.data| <= out.Length
    modifies out
    ensures past == at + 2 + |i.data| && out[..past] == old(out[..at]) + Opt(i)
    ensures forall j :: past <= j < out.Length ==> out[j] == old(out[j])
  {
    Fill(out, at, [i.code]);
    Fill(out, at + 1, [|i.data|]);
    Fill(out, at + 2, i.data);
    past := at + 2 + |i.data|;
  }

  /** The fixed fields, over a buffer already zeroed. */
  method WriteHeader(out: array<u8>, f: Fixed)
    requires out.Length >= MSG_LEN && out[..MSG_LEN] == Zeros(MSG_LEN)
    modifies out
    ensures out[..OFF_OPTIONS] == Header(f)
    ensures forall j :: OFF_OPTIONS <= j < out.Length ==> out[j] == old(out[j])
  {
    WriteFront(out, f);
    WriteRest(out, f.chaddr, Front(f));
  }

  method WriteFront(out: array<u8>, f: Fixed)
    requires out.Length >= MSG_LEN && out[3] == 0
    modifies out
    ensures out[..16] == Front(f)
    ensures forall j :: 16 <= j < out.Length ==> out[j] == old(out[j])
  {
    Fill(out, 0, [OP_BOOTREQUEST, f.htype, |f.chaddr|]);
    assert out[..4] == [OP_BOOTREQUEST, f.htype, |f.chaddr|, 0];
    Fill(out, 4, Wr32(f.xid));
    ghost var start := out[..8];
    Fill(out, 8, Wr16(f.secs));
    Fill(out, 10, Wr16(f.flags));
    Fill(out, 12, Wr32(f.ciaddr));
    assert out[..16] == start + (Wr16(f.secs) + Wr16(f.flags) + Wr32(f.ciaddr));
  }

  method WriteRest(out: array<u8>, chaddr: Chaddr, ghost all: seq<u8>)
    requires out.Length >= MSG_LEN && out[..16] == all && forall j :: 16 <= j < OFF_OPTIONS ==> out[j] == 0
    modifies out
    ensures out[..OFF_OPTIONS] == all + Zeros(12) + chaddr + Zeros(OFF_COOKIE - 28 - |chaddr|) + Wr32(MAGIC_COOKIE)
    ensures forall j :: OFF_OPTIONS <= j < out.Length ==> out[j] == old(out[j])
  {
    assert out[..28] == all + Zeros(12);
    Fill(out, 28, chaddr);
    assert out[..OFF_COOKIE] == out[..28 + |chaddr|] + Zeros(OFF_COOKIE - 28 - |chaddr|);
    Fill(out, OFF_COOKIE, Wr32(MAGIC_COOKIE));
  }

  method PutWord(out: array<u8>, at: nat, code: u8, v: Option<u32>) returns (past: nat)
    requires at + 6 <= out.Length
    modifies out
    ensures past == at + |Encoded(WordItem(code, v))| <= at + 6
    ensures out[..past] == old(out[..at]) + Encoded(WordItem(code, v))
    ensures forall j :: past <= j < out.Length ==> out[j] == old(out[j])
  {
    past := at;
    if v.Some? {
      past := Put(out, at, Item(code, Wr32(v.value)));
      EncodedOne(Item(code, Wr32(v.value)));
    }
  }

  method PutOpening(out: array<u8>, kind: u8, hints: bool) returns (at: nat)
    requires out.Length >= MSG_LEN
    modifies out
    ensures OFF_OPTIONS <= at <= OFF_OPTIONS + 7
    ensures out[..at] == old(out[..OFF_OPTIONS]) + Encoded([Item(OPT_MSG_TYPE, [kind])]) + Encoded(SizeItem(hints))
    ensures forall j :: at <= j < out.Length ==> out[j] == old(out[j])
  {
    at := Put(out, OFF_OPTIONS, Item(OPT_MSG_TYPE, [kind]));
    EncodedOne(Item(OPT_MSG_TYPE, [kind]));
    if hints {
      at := Put(out, at, Item(OPT_MAX_MSG_SIZE, Wr16(MSG_MIN)));
      EncodedOne(Item(OPT_MAX_MSG_SIZE, Wr16(MSG_MIN)));
    }
  }

  method PutList(out: array<u8>, at: nat, hints: bool) returns (past: nat)
    requires at + 5 <= out.Length
    modifies out
    ensures at <= past <= at + 5 && out[..past] == old(out[..at]) + Encoded(ListItem(hints))
    ensures forall j :: past <= j < out.Length ==> out[j] == old(out[j])
  {
    past := at;
    if hints {
      past := Put(out, at, Item(OPT_PARAM_LIST, [OPT_SUBNET_MASK, OPT_ROUTER, OPT_DNS_SERVER]));
      EncodedOne(ListItem(true)[0]);
    }
  }

  /** The options, over a buffer zeroed past the header. */
  method WriteOptions(out: array<u8>, kind: u8, a: Asked) returns (at: nat)
    requires out.Length >= MSG_LEN
    modifies out
    ensures OFF_OPTIONS <= at < MSG_LEN && out[..at] == old(out[..OFF_OPTIONS]) + Encoded(Items(kind, a))
    ensures forall j :: at <= j < out.Length ==> out[j] == old(out[j])
  {
    ghost var head := out[..OFF_OPTIONS];
    at := PutOpening(out, kind, a.hints);
    at := PutWord(out, at, OPT_REQUESTED_IP, a.requested);
    at := PutWord(out, at, OPT_SERVER_ID, a.server);
    at := PutWord(out, at, OPT_LEASE_TIME, a.lease);
    at := PutList(out, at, a.hints);
    EncodedParts(kind, a);
    Joined(head, Encoded([Item(OPT_MSG_TYPE, [kind])]), Encoded(SizeItem(a.hints)),
           Encoded(WordItem(OPT_REQUESTED_IP, a.requested)), Encoded(WordItem(OPT_SERVER_ID, a.server)),
           Encoded(WordItem(OPT_LEASE_TIME, a.lease)), Encoded(ListItem(a.hints)));
  }

  lemma Joined(h: seq<u8>, a: seq<u8>, b: seq<u8>, c: seq<u8>, d: seq<u8>, e: seq<u8>, f: seq<u8>)
    ensures h + a + b + c + d + e + f == h + (a + b + c + d + e + f)
  {
  }

  /** One message written whole (dhcp4_write), and nothing past its 300 octets touched. */
  method Write(out: array<u8>, f: Fixed, kind: u8, a: Asked)
    requires out.Length >= MSG_LEN
    modifies out
    ensures out[..MSG_LEN] == Message(f, kind, a)
    ensures forall j :: MSG_LEN <= j < out.Length ==> out[j] == old(out[j])
  {
    Clear(out, MSG_LEN);
    WriteHeader(out, f);
    var at := WriteOptions(out, kind, a);
    Fill(out, at, [OPT_END]);
    assert out[..MSG_LEN] == out[..at + 1] + Zeros(MSG_LEN - at - 1);
  }
}
