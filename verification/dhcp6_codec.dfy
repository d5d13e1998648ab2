/**
 * DHCPv6 messages on the wire (src/dhcp/dhcp6.c): the option walk of section 21.1 of RFC 8415, the writer of the
 * eight client messages, and the two undoing each other.
 */
module Dhcp6Codec {
  import opened Words

  const HDR: nat := 4
  const FIXED_LEN: nat := 4
  const ADDR_LEN: nat := 16
  const IA_NA_FIXED_LEN: nat := 12
  const IAADDR_FIXED_LEN: nat := 24
  const DUID_MAX: nat := 130

  const OPT_CLIENTID: u16 := 1
  const OPT_SERVERID: u16 := 2
  const OPT_IA_NA: u16 := 3
  const OPT_IAADDR: u16 := 5
  const OPT_ORO: u16 := 6
  const OPT_PREFERENCE: u16 := 7
  const OPT_ELAPSED_TIME: u16 := 8
  const OPT_STATUS_CODE: u16 := 13
  const OPT_RAPID_COMMIT: u16 := 14
  const OPT_DNS_SERVERS: u16 := 23
  const OPT_DOMAIN_LIST: u16 := 24
  const OPT_INFO_REFRESH: u16 := 32
  const OPT_SOL_MAX_RT: u16 := 82
  const OPT_INF_MAX_RT: u16 := 83

  const SOLICIT: u8 := 1
  const ADVERTISE: u8 := 2
  const REQUEST: u8 := 3
  const CONFIRM: u8 := 4
  const RENEW: u8 := 5
  const REBIND: u8 := 6
  const REPLY: u8 := 7
  const RELEASE: u8 := 8
  const DECLINE: u8 := 9
  const INFORMATION_REQUEST: u8 := 11

  type Data = s: seq<u8> | |s| < 0x1_0000

  datatype Item = Item(code: u16, data: Data)

  // --- the walk --------------------------------------------------------------------

  /** The length of the option at the front, header and all; it may run past the region. */
  function Span(buf: seq<u8>): nat
    requires |buf| >= HDR
  {
    HDR + Rd16(buf[2..])
  }

  /** The first option of a code, stopping at a length that runs past the region (dhcp6_find). */
  function Find(buf: seq<u8>, code: u16): Option<Data>
    decreases |buf|
  {
    if |buf| < HDR || Span(buf) > |buf| then None
    else if Rd16(buf) == code then Some(buf[HDR..Span(buf)])
    else Find(buf[Span(buf)..], code)
  }

  /** No length runs past the region (dhcp6_opts_ok). */
  predicate OptsOk(buf: seq<u8>)
    decreases |buf|
  {
    |buf| < HDR || (Span(buf) <= |buf| && OptsOk(buf[Span(buf)..]))
  }

  /** The walk as the client makes it, by an offset: where the option's data lies and how long it is. */
  method FindAt(buf: seq<u8>, code: u16) returns (found: Option<nat>, len: u16)
    ensures found.None? <==> Find(buf, code).None?
    ensures found.Some? ==> found.value + len <= |buf| && Find(buf, code) == Some(buf[found.value..found.value + len])
  {
    var at := 0;
    len := 0;
    while at + HDR <= |buf|
      invariant at <= |buf|
      invariant Find(buf[at..], code) == Find(buf, code)
    {
      var c := Rd16(buf[at..]);
      var l := Rd16(buf[at + 2..]);
      var next := at + HDR + l;
      ghost var here := buf[at..];
      assert here[2..] == buf[at + 2..];
      if next > |buf| {
        return None, 0;
      }
      assert here[HDR..Span(here)] == buf[at + HDR..next];
      if c == code {
        return Some(at + HDR), l;
      }
      assert here[Span(here)..] == buf[next..];
      at := next;
    }
    return None, 0;
  }

  method CheckOpts(buf: seq<u8>) returns (ok: bool)
    ensures ok == OptsOk(buf)
  {
    var at := 0;
    while at + HDR <= |buf|
      invariant at <= |buf|
      invariant OptsOk(buf[at..]) == OptsOk(buf)
    {
      var next := at + HDR + Rd16(buf[at + 2..]);
      ghost var here := buf[at..];
      assert here[2..] == buf[at + 2..];
      if next > |buf| {
        return false;
      }
      assert here[Span(here)..] == buf[next..];
      at := next;
    }
    return true;
  }

  // --- options laid end to end -----------------------------------------------------

  function Opt(code: u16, data: Data): (s: seq<u8>)
    ensures |s| == HDR + |data|
  {
    Wr16(code) + Wr16(|data|) + data
  }

  function Encoded(items: seq<Item>): seq<u8> {
    if items == [] then [] else Opt(items[0].code, items[0].data) + Encoded(items[1..])
  }

  /** The options a region holds, up to the first that runs past it. */
  function Decoded(buf: seq<u8>): seq<Item>
    decreases |buf|
  {
    if |buf| < HDR || Span(buf) > |buf| then []
    else [Item(Rd16(buf), buf[HDR..Span(buf)])] + Decoded(buf[Span(buf)..])
  }

  function First(items: seq<Item>, code: u16): Option<Data> {
    if items == [] then None
    else if items[0].code == code then Some(items[0].data)
    else First(items[1..], code)
  }

  lemma FrontOf(code: u16, data: Data, rest: seq<u8>)
    ensures var buf := Opt(code, data) + rest;
            && |buf| >= HDR && Rd16(buf) == code && Span(buf) == HDR + |data| <= |buf|
            && buf[HDR..Span(buf)] == data && buf[Span(buf)..] == rest
  {
    var buf := Opt(code, data) + rest;
    assert buf[0] == Wr16(code)[0] && buf[1] == Wr16(code)[1];
    assert buf[2..][0] == Wr16(|data|)[0] && buf[2..][1] == Wr16(|data|)[1];
  }

  /** The walk reads back what was laid down: every option, in order, nothing else. */
  lemma {:induction false} DecodeUndoesEncode(items: seq<Item>)
    ensures Decoded(Encoded(items)) == items && OptsOk(Encoded(items))
  {
    if items != [] {
      FrontOf(items[0].code, items[0].data, Encoded(items[1..]));
      DecodeUndoesEncode(items[1..]);
      assert items == [items[0]] + items[1..];
    }
  }

  /** A search is for the first of the options a region holds, whatever the region. */
  lemma {:induction false} FindIsFirst(buf: seq<u8>, code: u16)
    ensures Find(buf, code) == First(Decoded(buf), code)
    decreases |buf|
  {
    if |buf| >= HDR && Span(buf) <= |buf| {
      FindIsFirst(buf[Span(buf)..], code);
      assert Decoded(buf)[1..] == Decoded(buf[Span(buf)..]);
    }
  }

  /** A region the check passes is exactly the options it holds and fewer than four octets more. */
  lemma {:induction false} EncodeUndoesDecode(buf: seq<u8>)
    ensures OptsOk(buf) <==>
      |Encoded(Decoded(buf))| <= |buf| < |Encoded(Decoded(buf))| + HDR && Encoded(Decoded(buf)) <= buf
    decreases |buf|
  {
    if |buf| >= HDR && Span(buf) <= |buf| {
      var rest := buf[Span(buf)..];
      EncodeUndoesDecode(rest);
      assert Decoded(buf)[1..] == Decoded(rest);
      HeadIs(buf);
      assert buf == Opt(Rd16(buf), buf[HDR..Span(buf)]) + rest;
    }
  }

  lemma HeadIs(buf: seq<u8>)
    requires |buf| >= HDR && Span(buf) <= |buf|
    ensures buf[..Span(buf)] == Opt(Rd16(buf), buf[HDR..Span(buf)])
  {
    assert Wr16(Rd16(buf)) == buf[..2];
    assert Wr16(Rd16(buf[2..])) == buf[2..4];
  }
}
