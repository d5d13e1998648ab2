/**
 * The deadline list of src/core/timeouts.c over values: a sequence of entries in
 * expiry order. With no assumption about the clock it is a finite map from
 * (unit, arg) to deadline.
 */
module DeadlineList {
  import opened Words

  const HALF_PERIOD: int := 0x7FFF_FFFF
  const FOREVER: u32 := 0xFFFF_FFFF
  const UNIT_COUNT: nat := 14

  /** A unit and an index into that unit's own table. */
  datatype Key = Key(unit: nat, arg: u8)

  datatype Entry = Entry(key: Key, deadline: u32, flags: u8)

  datatype State = State(list: seq<Entry>, now: u32)

  /** What one expiry hands back. */
  datatype Expiry = Expiry(status: Status, key: Key, deadline: u32)

  const NOTHING: Expiry := Expiry(BUSY, Key(0, 0), 0)

  /** A deadline names a unit when its id is neither zero nor past the last one. */
  predicate Named(key: Key) {
    0 < key.unit < UNIT_COUNT
  }

  /** Whether `a` precedes `b` on a count that wraps (timeouts_before). */
  predicate Before(a: u32, b: u32) {
    Sub32(a, b) > HALF_PERIOD
  }

  predicate Distinct(list: seq<Entry>) {
    forall i, j :: 0 <= i < j < |list| ==> list[i].key != list[j].key
  }

  /** The place of a key in the list, or the list's length when no entry carries it. */
  function Find(list: seq<Entry>, key: Key): (i: nat)
    ensures i <= |list|
    ensures i < |list| ==> list[i].key == key
    ensures forall j :: 0 <= j < i ==> list[j].key != key
  {
    if |list| == 0 || list[0].key == key then 0 else 1 + Find(list[1..], key)
  }

  /** Ahead of the first entry whose deadline the new one precedes. */
  function Insert(list: seq<Entry>, e: Entry): seq<Entry> {
    if |list| == 0 || Before(e.deadline, list[0].deadline) then [e] + list
    else [list[0]] + Insert(list[1..], e)
  }

  function Without(list: seq<Entry>, i: nat): seq<Entry>
    requires i < |list|
  {
    list[..i] + list[i + 1..]
  }

  /** The list an arm inserts into: the entry that already holds the pair is taken out first. */
  function Base(list: seq<Entry>, key: Key): seq<Entry> {
    var i := Find(list, key);
    if i < |list| then Without(list, i) else list
  }

  /** Arming keys an entry on its pair and moves an entry that already holds it. */
  function Arm(s: State, capacity: nat, e: Entry): (State, Status) {
    if !Named(e.key) then (s, ERR)
    else
      var i := Find(s.list, e.key);
      if i == |s.list| >= capacity then (s, BUSY)
      else (s.(list := Insert(Base(s.list, e.key), e)), OK)
  }

  function Cancel(s: State, key: Key): (State, Status) {
    if !Named(key) then (s, ERR)
    else
      var i := Find(s.list, key);
      if i == |s.list| then (s, BUSY) else (s.(list := Without(s.list, i)), OK)
  }

  function Tick(s: State, now: u32): State {
    s.(now := now)
  }

  predicate HeadDue(s: State) {
    |s.list| > 0 && !Before(s.now, s.list[0].deadline)
  }

  function Expire(s: State): (State, Expiry) {
    if !HeadDue(s) then (s, NOTHING)
    else (s.(list := s.list[1..]), Expiry(OK, s.list[0].key, s.list[0].deadline))
  }

  /** Milliseconds from the recorded count to the earliest deadline. */
  function Until(s: State): u32 {
    if |s.list| == 0 then FOREVER
    else if Before(s.now, s.list[0].deadline) then Sub32(s.list[0].deadline, s.now)
    else 0
  }

  // --- the list as a finite map ----------------------------------------------

  function AsMap(list: seq<Entry>): map<Key, u32> {
    if |list| == 0 then map[] else AsMap(list[1..])[list[0].key := list[0].deadline]
  }

  lemma {:induction false} AsMapKeys(list: seq<Entry>, key: Key)
    ensures key in AsMap(list) <==> Find(list, key) < |list|
  {
    if |list| > 0 {
      AsMapKeys(list[1..], key);
    }
  }

  lemma {:induction false} AsMapSize(list: seq<Entry>)
    requires Distinct(list)
    ensures |AsMap(list)| == |list|
  {
    if |list| > 0 {
      AsMapSize(list[1..]);
      AsMapKeys(list[1..], list[0].key);
    }
  }

  lemma {:induction false} InsertAsMap(list: seq<Entry>, e: Entry)
    requires Find(list, e.key) == |list|
    ensures AsMap(Insert(list, e)) == AsMap(list)[e.key := e.deadline]
    ensures |Insert(list, e)| == |list| + 1
  {
    if |list| == 0 || Before(e.deadline, list[0].deadline) {
      assert ([e] + list)[1..] == list;
    } else {
      InsertAsMap(list[1..], e);
      var rest := Insert(list[1..], e);
      assert ([list[0]] + rest)[1..] == rest;
    }
  }

  lemma {:induction false} InsertDistinct(list: seq<Entry>, e: Entry)
    requires Distinct(list) && Find(list, e.key) == |list|
    ensures Distinct(Insert(list, e))
    ensures forall x :: x in Insert(list, e) <==> x == e || x in list
  {
    if |list| == 0 || Before(e.deadline, list[0].deadline) {
    } else {
      InsertDistinct(list[1..], e);
      var rest := Insert(list[1..], e);
      forall j | 0 <= j < |rest| ensures rest[j].key != list[0].key {
        assert rest[j] in rest;
      }
      assert forall x :: x in list <==> x == list[0] || x in list[1..];
    }
  }

  lemma {:induction false} WithoutAsMap(list: seq<Entry>, i: nat)
    requires Distinct(list) && i < |list|
    ensures AsMap(Without(list, i)) == AsMap(list) - {list[i].key}
  {
    var rest := Without(list, i);
    if i == 0 {
      assert rest == list[1..];
      AsMapKeys(rest, list[0].key);
    } else {
      WithoutAsMap(list[1..], i - 1);
      assert rest[1..] == Without(list[1..], i - 1);
      assert AsMap(rest) == AsMap(rest[1..])[list[0].key := list[0].deadline];
    }
  }

  lemma WithoutDistinct(list: seq<Entry>, i: nat)
    requires Distinct(list) && i < |list|
    ensures Distinct(Without(list, i)) && Find(Without(list, i), list[i].key) == |list| - 1
  {
    var rest := Without(list, i);
    forall j | 0 <= j < |rest| ensures rest[j].key != list[i].key {
    }
  }

  /** Moving an entry that already holds the pair. */
  lemma RearmAsMap(list: seq<Entry>, i: nat, e: Entry)
    requires Distinct(list) && i < |list| && list[i].key == e.key
    ensures var list' := Insert(Without(list, i), e);
            Distinct(list') && |list'| == |list| && AsMap(list') == AsMap(list)[e.key := e.deadline]
  {
    var rest := Without(list, i);
    WithoutAsMap(list, i);
    WithoutDistinct(list, i);
    InsertAsMap(rest, e);
    InsertDistinct(rest, e);
    assert (AsMap(list) - {e.key})[e.key := e.deadline] == AsMap(list)[e.key := e.deadline];
  }

  /** Arming is map update, refused only when every slot holds another pair; no clock is assumed. */
  lemma ArmRefinesMap(s: State, capacity: nat, e: Entry)
    requires Distinct(s.list) && |s.list| <= capacity
    ensures var (s', status) := Arm(s, capacity, e);
            && Distinct(s'.list) && |s'.list| <= capacity && s'.now == s.now
            && (status == ERR <==> !Named(e.key))
            && (status == BUSY <==> Named(e.key) && e.key !in AsMap(s.list) && |AsMap(s.list)| == capacity)
            && AsMap(s'.list) == if status == OK then AsMap(s.list)[e.key := e.deadline] else AsMap(s.list)
  {
    AsMapKeys(s.list, e.key);
    AsMapSize(s.list);
    var i := Find(s.list, e.key);
    if i < |s.list| {
      RearmAsMap(s.list, i, e);
    } else {
      InsertAsMap(s.list, e);
      InsertDistinct(s.list, e);
    }
  }

  lemma CancelRefinesMap(s: State, key: Key)
    requires Distinct(s.list)
    ensures var (s', status) := Cancel(s, key);
            && Distinct(s'.list) && s'.now == s.now
            && (status == OK <==> Named(key) && key in AsMap(s.list))
            && AsMap(s'.list) == if status == OK then AsMap(s.list) - {key} else AsMap(s.list)
  {
    AsMapKeys(s.list, key);
    var i := Find(s.list, key);
    if i < |s.list| {
      WithoutAsMap(s.list, i);
      WithoutDistinct(s.list, i);
    }
  }

  /** An expiry takes out exactly the pair it reports, with the deadline the map held for it. */
  lemma ExpireRefinesMap(s: State)
    requires Distinct(s.list)
    ensures var (s', x) := Expire(s);
            && Distinct(s'.list) && s'.now == s.now
            && (x.status == OK ==> x.key in AsMap(s.list) && AsMap(s.list)[x.key] == x.deadline
                                   && AsMap(s'.list) == AsMap(s.list) - {x.key})
            && (x.status != OK ==> s' == s)
  {
    if HeadDue(s) {
      WithoutAsMap(s.list, 0);
      WithoutDistinct(s.list, 0);
      assert Without(s.list, 0) == s.list[1..];
      AsMapKeys(s.list, s.list[0].key);
    }
  }
}
