/** The wrap-carrying millisecond clock (src/ms.c). */
module Ms {
  import opened Words

  /** An RFC lifetime in seconds as milliseconds, by three shifts and two subtractions. */
  function FromSeconds(seconds: u32): (ms: u64)
    ensures ms == 1000 * seconds
  {
    seconds * 1024 - seconds * 16 - seconds * 8
  }

  /** The high word after a reading: raised when the reading fell below the last one. */
  function HighAfter(last: u32, hi: u32, now: u32): u32 {
    if now < last then Wrap32(hi + 1) else hi
  }

  function Join(hi: u32, lo: u32): u64 {
    hi * TWO_32 + lo
  }

  /** One reading taken (ms_extend): the two words the caller keeps, and the epoch they name. */
  method Extend(last: u32, hi: u32, now: u32) returns (last': u32, hi': u32, epoch: u64)
    ensures last' == now && hi' == HighAfter(last, hi, now) && epoch == Join(hi', last')
  {
    hi' := hi;
    if now < last {
      hi' := Wrap32(hi' + 1);
    }
    last' := now;
    epoch := hi' * TWO_32 + last';
  }

  /** The epoch stays equal to true time across one reading exactly when less than 2^32 ms passed. */
  lemma ExtendKeepsTrueTime(before: int, after: int)
    requires 0 <= before <= after < TWO_64
    ensures var last, hi := before % TWO_32, before / TWO_32;
            Join(HighAfter(last, hi, after % TWO_32), after % TWO_32) == after <==> after - before < TWO_32
  {
    var last, hi, now := before % TWO_32, before / TWO_32, after % TWO_32;
    var epoch := Join(HighAfter(last, hi, now), now);
    if now < last {
      assert after / TWO_32 > hi;
      assert hi + 1 < TWO_32;
    }
  }

  /** Whatever was missed, the epoch never runs ahead of true time and never runs backwards. */
  lemma ExtendNeverAhead(epoch: int, before: int, after: int)
    requires 0 <= epoch <= before <= after < TWO_64
    requires epoch % TWO_32 == before % TWO_32
    ensures var now := after % TWO_32;
            var next := Join(HighAfter(epoch % TWO_32, epoch / TWO_32, now), now);
            epoch <= next <= after && next % TWO_32 == after % TWO_32
  {
    var now := after % TWO_32;
    var last, hi := epoch % TWO_32, epoch / TWO_32;
    if now < last {
      assert after / TWO_32 > before / TWO_32 >= hi;
    }
  }

  /** The epoch a run of true readings leaves, from the zeroed words of a cleared context. */
  function EpochAfter(readings: seq<int>): u64
    requires forall i :: 0 <= i < |readings| ==> 0 <= readings[i]
  {
    if |readings| == 0 then 0
    else
      var epoch := EpochAfter(readings[..|readings| - 1]);
      var now := readings[|readings| - 1] % TWO_32;
      Join(HighAfter(epoch % TWO_32, epoch / TWO_32, now), now)
  }

  /** Over a whole run with readings under 2^32 ms apart, the epoch is the true time of the last one. */
  lemma {:induction false} EpochIsTrueTime(readings: seq<int>)
    requires |readings| > 0 && 0 <= readings[0] < TWO_32
    requires forall i :: 0 <= i < |readings| ==> 0 <= readings[i] < TWO_64
    requires forall i :: 1 <= i < |readings| ==> 0 <= readings[i] - readings[i - 1] < TWO_32
    ensures EpochAfter(readings) == readings[|readings| - 1]
  {
    var k := |readings| - 1;
    if k > 0 {
      EpochIsTrueTime(readings[..k]);
      ExtendKeepsTrueTime(readings[k - 1], readings[k]);
    }
  }
}
