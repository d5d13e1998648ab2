/**
 * The writer of the eight DHCPv6 client messages (src/dhcp/dhcp6.c), filling the caller's buffer in place, and
 * what the option walk then reads back out of it.
 */
module Dhcp6Writer {
  import opened Words
  import opened Buffers
  import opened Dhcp6Codec

  type Address = s: seq<u8> | |s| == ADDR_LEN witness seq(ADDR_LEN, _ => 0)

  type Duid = s: seq<u8> | |s| <= DUID_MAX

  /** What the context puts in a message: `addr` is the address held, all zero when there is none. */
  datatype Fields = Fields(xid: u32, server: Duid, client: Duid, elapsed: u16, iaid: u32, addr: Address, rapid: bool)

  predicate HasAddr(addr: Address) {
    exists k :: 0 <= k < ADDR_LEN && addr[k] != 0
  }

  /** The types that carry a Server Identifier. */
  predicate WantsServer(kind: u8) {
    kind == REQUEST || kind == RENEW || kind == RELEASE || kind == DECLINE
  }

  predicate WantsOro(kind: u8) {
    kind == SOLICIT || kind == REQUEST || kind == RENEW || kind == REBIND || kind == INFORMATION_REQUEST
  }

  predicate WithAddr(kind: u8, f: Fields) {
    kind != SOLICIT && HasAddr(f.addr)
  }

  /** The held address, its two lifetimes zero. */
  function IaAddr(addr: Address): Data {
    addr + Wr32(0) + Wr32(0)
  }

  /** The IAID, T1 and T2 zero, then the address when there is one to carry. */
  function IaNa(iaid: u32, addr: Option<Address>): Data {
    Wr32(iaid) + Wr32(0) + Wr32(0) + if addr.Some? then Opt(OPT_IAADDR, IaAddr(addr.value)) else []
  }

  function Oro(info: bool): Data {
    (if info then Wr16(OPT_INF_MAX_RT) + Wr16(OPT_INFO_REFRESH) else Wr16(OPT_SOL_MAX_RT))
    + Wr16(OPT_DNS_SERVERS) + Wr16(OPT_DOMAIN_LIST)
  }

  function ServerPart(kind: u8, f: Fields): seq<Item> {
    if WantsServer(kind) then [Item(OPT_SERVERID, f.server)] else []
  }

  function IaPart(kind: u8, f: Fields): seq<Item> {
    if kind == INFORMATION_REQUEST then []
    else [Item(OPT_IA_NA, IaNa(f.iaid, if WithAddr(kind, f) then Some(f.addr) else None))]
  }

  function OroPart(kind: u8): seq<Item> {
    if WantsOro(kind) then [Item(OPT_ORO, Oro(kind == INFORMATION_REQUEST))] else []
  }

  function RapidPart(kind: u8, f: Fields): seq<Item> {
    if kind == SOLICIT && f.rapid then [Item(OPT_RAPID_COMMIT, [])] else []
  }

  /** The options a message of a type carries, in the order they are written. */
  function Items(kind: u8, f: Fields): seq<Item> {
    ServerPart(kind, f)
    + [Item(OPT_CLIENTID, f.client), Item(OPT_ELAPSED_TIME, Wr16(f.elapsed))]
    + IaPart(kind, f) + OroPart(kind) + RapidPart(kind, f)
  }

  /** The type octet and the three low octets of the transaction-id. */
  function Header(kind: u8, xid: u32): (h: seq<u8>)
    ensures |h| == FIXED_LEN
  {
    [kind, xid / 0x1_0000 % 0x100, xid / 0x100 % 0x100, xid % 0x100]
  }

  function Message(kind: u8, f: Fields): seq<u8> {
    Header(kind, f.xid) + Encoded(Items(kind, f))
  }

  // --- reading a message back ------------------------------------------------------

  lemma {:induction false} FirstOfConcat(a: seq<Item>, b: seq<Item>, code: u16)
    ensures First(a + b, code) == if First(a, code).Some? then First(a, code) else First(b, code)
    decreases |a|
  {
    if a == [] {
      assert a + b == b;
    } else {
      assert (a + b)[1..] == a[1..] + b;
      FirstOfConcat(a[1..], b, code);
    }
  }

  lemma FirstOfItems(kind: u8, f: Fields, code: u16)
    ensures First(Items(kind, f), code) ==
      if WantsServer(kind) && code == OPT_SERVERID then Some(f.server)
      else if code == OPT_CLIENTID then Some(f.client)
      else if code == OPT_ELAPSED_TIME then Some(Wr16(f.elapsed))
      else if kind != INFORMATION_REQUEST && code == OPT_IA_NA then
        Some(IaNa(f.iaid, if WithAddr(kind, f) then Some(f.addr) else None))
      else if WantsOro(kind) && code == OPT_ORO then Some(Oro(kind == INFORMATION_REQUEST))
      else if kind == SOLICIT && f.rapid && code == OPT_RAPID_COMMIT then Some([])
      else None
  {
    var ids := [Item(OPT_CLIENTID, f.client), Item(OPT_ELAPSED_TIME, Wr16(f.elapsed))];
    var a := ServerPart(kind, f);
    var b := a + ids;
    var c := b + IaPart(kind, f);
    FirstOfConcat(a, ids, code);
    FirstOfConcat(b, IaPart(kind, f), code);
    FirstOfConcat(c, OroPart(kind), code);
    FirstOfConcat(c + OroPart(kind), RapidPart(kind, f), code);
    FirstOfConcat([ids[0]], [ids[1]], code);
    assert ids == [ids[0]] + [ids[1]];
    assert First(ids, code) == if code == OPT_CLIENTID then Some(f.client)
                               else if code == OPT_ELAPSED_TIME then Some(Wr16(f.elapsed)) else None;
  }

  /**
   * Every message written passes the option check, and a search of it answers for every code: the client DUID
   * and the elapsed time in all of them, the server DUID in exactly the four types that carry it, the IA_NA
   * in all but the Information-request.
   */
  lemma MessageReadsBack(kind: u8, f: Fields, code: u16)
    ensures var opts := Message(kind, f)[FIXED_LEN..];
            && OptsOk(opts)
            && Find(opts, code) == First(Items(kind, f), code)
            && (code == OPT_CLIENTID ==> Find(opts, code) == Some(f.client))
            && (code == OPT_ELAPSED_TIME ==> Find(opts, code) == Some(Wr16(f.elapsed)))
            && (code == OPT_SERVERID ==> Find(opts, code) == if WantsServer(kind) then Some(f.server) else None)
            && (code == OPT_IA_NA ==> (Find(opts, code).Some? <==> kind != INFORMATION_REQUEST))
  {
    var opts := Message(kind, f)[FIXED_LEN..];
    assert opts == Encoded(Items(kind, f));
    DecodeUndoesEncode(Items(kind, f));
    FindIsFirst(opts, code);
    FirstOfItems(kind, f, code);
  }

  /** The IA_NA written names its IAID, and nests the held address where the type carries one. */
  lemma IaNaReadsBack(iaid: u32, addr: Option<Address>)
    ensures var ia := IaNa(iaid, addr);
            && |ia| >= IA_NA_FIXED_LEN && Rd32(ia) == iaid && Rd32(ia[4..]) == 0 && Rd32(ia[8..]) == 0
            && var sub := ia[IA_NA_FIXED_LEN..];
            && OptsOk(sub)
            && Find(sub, OPT_IAADDR) == (if addr.Some? then Some(IaAddr(addr.value)) else None)
            && (addr.Some? ==> IaAddr(addr.value)[..ADDR_LEN] == addr.value)
  {
    var ia := IaNa(iaid, addr);
    assert ia[..4] == Wr32(iaid) && ia[4..][..4] == Wr32(0) && ia[8..][..4] == Wr32(0);
    assert Rd32(ia) == Rd32(ia[..4]) && Rd32(ia[4..]) == Rd32(ia[4..][..4]) && Rd32(ia[8..]) == Rd32(ia[8..][..4]);
    var sub := ia[IA_NA_FIXED_LEN..];
    if addr.Some? {
      var items := [Item(OPT_IAADDR, IaAddr(addr.value))];
      assert items[1..] == [];
      assert sub == Opt(OPT_IAADDR, IaAddr(addr.value)) == Encoded(items);
      DecodeUndoesEncode(items);
      FindIsFirst(sub, OPT_IAADDR);
    }
  }

  // --- writing a message in place --------------------------------------------------

  lemma {:induction false} EncodedConcat(a: seq<Item>, b: seq<Item>)
    ensures Encoded(a + b) == Encoded(a) + Encoded(b)
    decreases |a|
  {
    if a == [] {
      assert a + b == b;
    } else {
      assert (a + b)[1..] == a[1..] + b;
      EncodedConcat(a[1..], b);
    }
  }

  /**
   * Everything so far is in the buffer and ends at `at`; or it did not fit, which an offset of zero carries
   * through every later write.
   */
  ghost predicate Laid(out: array<u8>, cap: nat, at: nat, all: seq<u8>)
    reads out
  {
    && 0 < |all| && cap <= out.Length
    && (at == 0 <==> |all| > cap)
    && (at != 0 ==> at == |all| && out[..at] == all)
  }

  /** An option's header, and its data where it is given; zero once the buffer is short (dhcp6_put). */
  method Put(out: array<u8>, cap: nat, at: nat, code: u16, data: Option<Data>, len: u16, ghost all: seq<u8>)
    returns (past: nat)
    requires Laid(out, cap, at, all) && (data.Some? ==> |data.value| == len)
    modifies out
    ensures forall j :: cap <= j < out.Length ==> out[j] == old(out[j])
    ensures past == if at == 0 || at + HDR + len > cap then 0 else at + HDR + len
    ensures past != 0 ==> out[..at + HDR] == all + Wr16(code) + Wr16(len)
    ensures data.Some? ==> Laid(out, cap, past, all + Opt(code, data.value))
  {
    if at == 0 || at + HDR + len > cap {
      return 0;
    }
    Fill(out, at, Wr16(code));
    Fill(out, at + 2, Wr16(len));
    if len != 0 && data.Some? {
      Fill(out, at + HDR, data.value);
    }
    past := at + HDR + len;
  }

  /** The elapsed time, its two octets written after the header is (dhcp6_write). */
  method PutElapsed(out: array<u8>, cap: nat, at: nat, elapsed: u16, ghost all: seq<u8>) returns (past: nat)
    requires Laid(out, cap, at, all)
    modifies out
    ensures forall j :: cap <= j < out.Length ==> out[j] == old(out[j])
    ensures Laid(out, cap, past, all + Opt(OPT_ELAPSED_TIME, Wr16(elapsed)))
  {
    past := Put(out, cap, at, OPT_ELAPSED_TIME, None, 2, all);
    if past == 0 {
      return;
    }
    Fill(out, past - 2, Wr16(elapsed));
  }

  /** The IA_NA, its fixed fields, then the nested address when asked for (dhcp6_put_ia_na). */
  method PutIaNa(out: array<u8>, cap: nat, at: nat, iaid: u32, addr: Option<Address>, ghost all: seq<u8>)
    returns (past: nat)
    requires Laid(out, cap, at, all)
    modifies out
    ensures forall j :: cap <= j < out.Length ==> out[j] == old(out[j])
    ensures Laid(out, cap, past, all + Opt(OPT_IA_NA, IaNa(iaid, addr)))
  {
    var body := IA_NA_FIXED_LEN;
    if addr.Some? {
      body := body + HDR + IAADDR_FIXED_LEN;
    }
    past := Put(out, cap, at, OPT_IA_NA, None, body, all);
    if past == 0 {
      return;
    }
    var ia := at + HDR;
    ghost var head := all + Wr16(OPT_IA_NA) + Wr16(body);
    FillIaFixed(out, ia, iaid, head);
    ghost var fixed := head + (Wr32(iaid) + Wr32(0) + Wr32(0));
    if addr.Some? {
      PutIaAddr(out, ia + IA_NA_FIXED_LEN, addr.value, fixed);
    }
    IaNaIs(all, iaid, addr);
  }

  lemma IaNaIs(all: seq<u8>, iaid: u32, addr: Option<Address>)
    ensures all + Opt(OPT_IA_NA, IaNa(iaid, addr)) ==
      all + Wr16(OPT_IA_NA) + Wr16(|IaNa(iaid, addr)|) + (Wr32(iaid) + Wr32(0) + Wr32(0))
      + if addr.Some? then Opt(OPT_IAADDR, IaAddr(addr.value)) else []
  {
  }

  method FillIaFixed(out: array<u8>, ia: nat, iaid: u32, ghost all: seq<u8>)
    requires ia + IA_NA_FIXED_LEN <= out.Length && out[..ia] == all
    modifies out
    ensures forall j :: ia + IA_NA_FIXED_LEN <= j < out.Length ==> out[j] == old(out[j])
    ensures out[..ia + IA_NA_FIXED_LEN] == all + (Wr32(iaid) + Wr32(0) + Wr32(0))
  {
    Fill(out, ia, Wr32(iaid));
    Fill(out, ia + 4, Wr32(0));
    Fill(out, ia + 8, Wr32(0));
  }

  method PutIaAddr(out: array<u8>, sub: nat, addr: Address, ghost all: seq<u8>)
    requires sub + HDR + IAADDR_FIXED_LEN <= out.Length && out[..sub] == all
    modifies out
    ensures forall j :: sub + HDR + IAADDR_FIXED_LEN <= j < out.Length ==> out[j] == old(out[j])
    ensures out[..sub + HDR + IAADDR_FIXED_LEN] == all + Opt(OPT_IAADDR, IaAddr(addr))
  {
    Fill(out, sub, Wr16(OPT_IAADDR));
    Fill(out, sub + 2, Wr16(IAADDR_FIXED_LEN));
    var a := sub + HDR;
    Fill(out, a, addr);
    Fill(out, a + ADDR_LEN, Wr32(0));
    Fill(out, a + ADDR_LEN + 4, Wr32(0));
  }

  /** The codes asked for, written after the header is (dhcp6_write). */
  method PutOro(out: array<u8>, cap: nat, at: nat, info: bool, ghost all: seq<u8>) returns (past: nat)
    requires Laid(out, cap, at, all)
    modifies out
    ensures forall j :: cap <= j < out.Length ==> out[j] == old(out[j])
    ensures Laid(out, cap, past, all + Opt(OPT_ORO, Oro(info)))
  {
    var olen := if info then 8 else 6;
    past := Put(out, cap, at, OPT_ORO, None, olen, all);
    if past == 0 {
      return;
    }
    var o := past - olen;
    if info {
      Fill(out, o, Wr16(OPT_INF_MAX_RT));
      Fill(out, o + 2, Wr16(OPT_INFO_REFRESH));
      o := o + 4;
    } else {
      Fill(out, o, Wr16(OPT_SOL_MAX_RT));
      o := o + 2;
    }
    Fill(out, o, Wr16(OPT_DNS_SERVERS));
    Fill(out, o + 2, Wr16(OPT_DOMAIN_LIST));
  }

  lemma MessageIs(kind: u8, f: Fields)
    ensures Message(kind, f) == Header(kind, f.xid) + Encoded(ServerPart(kind, f)) + Opt(OPT_CLIENTID, f.client)
                                + Opt(OPT_ELAPSED_TIME, Wr16(f.elapsed)) + Encoded(IaPart(kind, f))
                                + Encoded(OroPart(kind)) + Encoded(RapidPart(kind, f))
  {
    var id := Item(OPT_CLIENTID, f.client);
    var time := Item(OPT_ELAPSED_TIME, Wr16(f.elapsed));
    EncodedParts(ServerPart(kind, f), [id, time], IaPart(kind, f), OroPart(kind), RapidPart(kind, f));
    EncodedPair(id, time);
    MessageParts(Header(kind, f.xid), Encoded(ServerPart(kind, f)), Opt(id.code, id.data), Opt(time.code, time.data),
                 Encoded(IaPart(kind, f)), Encoded(OroPart(kind)), Encoded(RapidPart(kind, f)));
  }

  lemma EncodedParts(a: seq<Item>, b: seq<Item>, c: seq<Item>, d: seq<Item>, e: seq<Item>)
    ensures Encoded(a + b + c + d + e) == Encoded(a) + Encoded(b) + Encoded(c) + Encoded(d) + Encoded(e)
  {
    EncodedConcat(a, b);
    EncodedConcat(a + b, c);
    EncodedConcat(a + b + c, d);
    EncodedConcat(a + b + c + d, e);
  }

  lemma EncodedPair(x: Item, y: Item)
    ensures Encoded([x, y]) == Opt(x.code, x.data) + Opt(y.code, y.data)
  {
    EncodedOne(x);
    EncodedOne(y);
    EncodedConcat([x], [y]);
    assert [x] + [y] == [x, y];
  }

  lemma MessageParts(h: seq<u8>, a: seq<u8>, x: seq<u8>, y: seq<u8>, c: seq<u8>, d: seq<u8>, e: seq<u8>)
    ensures h + (a + (x + y) + c + d + e) == h + a + x + y + c + d + e
  {
  }

  lemma EncodedOne(item: Item)
    ensures Encoded([item]) == Opt(item.code, item.data)
  {
    assert [item][1..] == [];
  }

  /**
   * One message written (dhcp6_write). It goes in whole or not at all: written exactly when the buffer holds it
   * and a Server Identifier it needs is recorded, and no octet past the capacity is ever touched.
   */
  method Write(out: array<u8>, cap: nat, kind: u8, f: Fields) returns (n: nat)
    requires FIXED_LEN <= cap <= out.Length
    modifies out
    ensures forall j :: cap <= j < out.Length ==> out[j] == old(out[j])
    ensures n != 0 <==> (WantsServer(kind) ==> f.server != []) && |Message(kind, f)| <= cap
    ensures n != 0 ==> n == |Message(kind, f)| && out[..n] == Message(kind, f)
  {
    Fill(out, 0, Header(kind, f.xid));
    var at := FIXED_LEN;
    ghost var all := Header(kind, f.xid);
    MessageIs(kind, f);
    if WantsServer(kind) {
      if f.server == [] {
        return 0;
      }
      at := Put(out, cap, at, OPT_SERVERID, Some(f.server), |f.server|, all);
      EncodedOne(Item(OPT_SERVERID, f.server));
    }
    all := all + Encoded(ServerPart(kind, f));
    at := Put(out, cap, at, OPT_CLIENTID, Some(f.client), |f.client|, all);
    all := all + Opt(OPT_CLIENTID, f.client);
    at := PutElapsed(out, cap, at, f.elapsed, all);
    all := all + Opt(OPT_ELAPSED_TIME, Wr16(f.elapsed));
    if at == 0 {
      return 0;
    }
    if kind != INFORMATION_REQUEST {
      at := PutIaNa(out, cap, at, f.iaid, if WithAddr(kind, f) then Some(f.addr) else None, all);
      EncodedOne(IaPart(kind, f)[0]);
    }
    all := all + Encoded(IaPart(kind, f));
    at := Rest(out, cap, at, kind, f, all);
    return at;
  }

  method Rest(out: array<u8>, cap: nat, from: nat, kind: u8, f: Fields, ghost all: seq<u8>) returns (at: nat)
    requires Laid(out, cap, from, all)
    modifies out
    ensures forall j :: cap <= j < out.Length ==> out[j] == old(out[j])
    ensures Laid(out, cap, at, all + Encoded(OroPart(kind)) + Encoded(RapidPart(kind, f)))
  {
    at := from;
    if WantsOro(kind) {
      at := PutOro(out, cap, at, kind == INFORMATION_REQUEST, all);
      EncodedOne(OroPart(kind)[0]);
    }
    ghost var most := all + Encoded(OroPart(kind));
    if kind == SOLICIT && f.rapid {
      at := Put(out, cap, at, OPT_RAPID_COMMIT, Some([]), 0, most);
      EncodedOne(RapidPart(kind, f)[0]);
    }
  }
}
