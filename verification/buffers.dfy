/** Writing into a caller's buffer (memcpy, memset and the big-endian stores of src/endian.c). */
module Buffers {
  import opened Words

  /** Octets copied in at an offset, and nothing else touched. */
  method Fill(out: array<u8>, at: nat, bytes: seq<u8>)
    requires at + |bytes| <= out.Length
    modifies out
    ensures out[..at + |bytes|] == old(out[..at]) + bytes
    ensures forall j :: at + |bytes| <= j < out.Length ==> out[j] == old(out[j])
  {
    var i := 0;
    while i < |bytes|
      invariant i <= |bytes|
      invariant out[..at] == old(out[..at]) && out[at..at + i] == bytes[..i]
      invariant forall j :: at + |bytes| <= j < out.Length ==> out[j] == old(out[j])
    {
      out[at + i] := bytes[i];
      i := i + 1;
    }
    assert bytes[..i] == bytes;
    assert out[..at + |bytes|] == out[..at] + out[at..at + |bytes|];
  }

  function Zeros(n: nat): (s: seq<u8>)
    ensures |s| == n && forall k :: 0 <= k < n ==> s[k] == 0
  {
    seq(n, _ => 0)
  }

  method Clear(out: array<u8>, n: nat)
    requires n <= out.Length
    modifies out
    ensures out[..n] == Zeros(n)
    ensures forall j :: n <= j < out.Length ==> out[j] == old(out[j])
  {
    var i := 0;
    while i < n
      invariant i <= n
      invariant forall j :: 0 <= j < i ==> out[j] == 0
      invariant forall j :: n <= j < out.Length ==> out[j] == old(out[j])
    {
      out[i] := 0;
      i := i + 1;
    }
  }
}
