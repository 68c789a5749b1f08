/** The least-recently-used embedding cache with capacity and time to live. */
module LruCache {
  import opened Sequences
  import opened Status

  type Vec = seq<real>

  /** A stored vector, the buffer that holds it, and when it expires. */
  datatype Entry = Entry(vec: Vec, buffer: nat, expiresAt: int)

  /** The recency list (most recent first), the map behind it, and the name of the next buffer. */
  datatype Cache = Cache(capacity: nat, ttl: int, order: seq<string>, entries: map<string, Entry>, next: nat)

  ghost predicate Distinct(s: seq<string>) {
    forall i, j :: 0 <= i < j < |s| ==> s[i] != s[j]
  }

  /** List and map hold the same keys, each once, and no more than the capacity. */
  ghost predicate Valid(c: Cache) {
    && Distinct(c.order)
    && (forall k :: k in c.order <==> k in c.entries)
    && |c.order| <= c.capacity
  }

  /** No buffer is older than it seems, and no two entries share one. */
  ghost predicate OwnBuffers(c: Cache) {
    && (forall k :: k in c.entries ==> c.entries[k].buffer < c.next)
    && (forall k, k' :: k in c.entries && k' in c.entries && c.entries[k].buffer == c.entries[k'].buffer ==> k == k')
  }

  /** The buffers that are allocated: those of the entries. */
  ghost function Buffers(c: Cache): set<nat> {
    set k | k in c.entries :: c.entries[k].buffer
  }

  function Other(key: string): string -> bool { k => k != key }

  function Without(s: seq<string>, key: string): seq<string> { Filter(Other(key), s) }

  function Empty(capacity: nat, ttl: int): Cache { Cache(capacity, ttl, [], map[], 0) }

  predicate Expired(c: Cache, key: string, now: int)
    requires key in c.entries
  {
    c.ttl > 0 && now > c.entries[key].expiresAt
  }

  function Removed(c: Cache, key: string): Cache {
    c.(order := Without(c.order, key), entries := c.entries - {key})
  }

  function Refreshed(c: Cache, key: string): Cache {
    c.(order := [key] + Without(c.order, key))
  }

  /** The cache after a lookup: a hit becomes most recent, an expired entry is dropped, a miss changes nothing. */
  function AfterGet(c: Cache, key: string, now: int): Cache {
    if key !in c.entries then c
    else if Expired(c, key, now) then Removed(c, key)
    else Refreshed(c, key)
  }

  /** What a lookup hands out: the vector and the buffer it lives in. */
  datatype Handle = Handle(vec: Vec, buffer: nat)

  function Lookup(c: Cache, key: string, now: int): Option<Handle> {
    if key in c.entries && !Expired(c, key, now) then Some(Handle(c.entries[key].vec, c.entries[key].buffer)) else None
  }

  function Evicted(c: Cache): Cache {
    if |c.order| >= c.capacity && c.order != [] then Removed(c, c.order[|c.order| - 1]) else c
  }

  /** The cache made ready for storing `key`: its old entry goes, or else a full cache loses its last key. */
  function Room(c: Cache, key: string): Cache {
    if key in c.entries then Removed(c, key) else Evicted(c)
  }

  function Inserted(c: Cache, key: string, entry: Entry): Cache {
    c.(order := [key] + c.order, entries := c.entries[key := entry])
  }

  function Stamped(c: Cache, vec: Vec, now: int): Entry {
    Entry(vec, c.next, if c.ttl > 0 then now + c.ttl else 0)
  }

  /** The cache after an insertion: an existing key is overwritten and refreshed; a new one evicts the least
      recently used key of a full cache. With capacity 0 nothing is stored. */
  function AfterPut(c: Cache, key: string, vec: Vec, now: int): Cache {
    if c.capacity == 0 then c
    else Inserted(Room(c, key), key, Stamped(c, vec, now)).(next := c.next + 1)
  }

  // ----- filtering facts -----

  lemma {:induction false} FilterDistinct(p: string -> bool, s: seq<string>)
    requires Distinct(s)
    ensures Distinct(Filter(p, s)) && |Filter(p, s)| <= |s|
  {
    if s != [] {
      FilterDistinct(p, s[1..]);
      FilterMember(p, s[1..], s[0]);
      var rest := Filter(p, s[1..]);
      assert s[0] !in s[1..];
      assert Filter(p, s) == if p(s[0]) then [s[0]] + rest else rest;
    }
  }

  /** Filters that agree on the elements give the same list. */
  lemma {:induction false} FilterAgrees(p: string -> bool, q: string -> bool, s: seq<string>)
    requires forall k :: k in s ==> (p(k) <==> q(k))
    ensures Filter(p, s) == Filter(q, s)
  {
    if s != [] {
      assert s[0] in s;
      assert forall k :: k in s[1..] ==> k in s;
      FilterAgrees(p, q, s[1..]);
    }
  }

  lemma {:induction false} FilterTwice(p: string -> bool, q: string -> bool, r: string -> bool, s: seq<string>)
    requires forall k :: k in s ==> (r(k) <==> p(k) && q(k))
    ensures Filter(p, Filter(q, s)) == Filter(r, s)
  {
    if s != [] {
      assert s[0] in s;
      assert forall k :: k in s[1..] ==> k in s;
      FilterTwice(p, q, r, s[1..]);
      if q(s[0]) {
        assert Filter(q, s)[1..] == Filter(q, s[1..]);
      } else {
        assert Filter(q, s) == Filter(q, s[1..]);
      }
    }
  }

  lemma {:induction false} WithoutLength(s: seq<string>, key: string)
    requires Distinct(s)
    ensures |Without(s, key)| == if key in s then |s| - 1 else |s|
  {
    if s != [] {
      WithoutLength(s[1..], key);
      assert s == [s[0]] + s[1..];
      if s[0] == key {
        assert key !in s[1..];
      }
    }
  }

  // ----- every operation keeps the invariant -----

  lemma {:induction false} RemovedValid(c: Cache, key: string)
    requires Valid(c)
    ensures Valid(Removed(c, key))
    ensures |Removed(c, key).order| == if key in c.entries then |c.order| - 1 else |c.order|
    ensures key !in Removed(c, key).order
  {
    FilterDistinct(Other(key), c.order);
    WithoutLength(c.order, key);
    forall k ensures k in Removed(c, key).order <==> k in Removed(c, key).entries {
      FilterMember(Other(key), c.order, k);
    }
  }

  /** Refreshing is removing and storing again. */
  lemma RefreshedIsInserted(c: Cache, key: string)
    requires key in c.entries
    ensures Refreshed(c, key) == Inserted(Removed(c, key), key, c.entries[key])
  {
  }

  lemma InsertedValid(c: Cache, key: string, entry: Entry)
    requires Valid(c) && key !in c.order && |c.order| < c.capacity
    ensures Valid(Inserted(c, key, entry)) && |Inserted(c, key, entry).order| == |c.order| + 1
  {
  }

  lemma {:induction false} RefreshedValid(c: Cache, key: string)
    requires Valid(c) && key in c.entries
    ensures Valid(Refreshed(c, key)) && |Refreshed(c, key).order| == |c.order|
  {
    RemovedValid(c, key);
    RefreshedIsInserted(c, key);
    InsertedValid(Removed(c, key), key, c.entries[key]);
  }

  lemma {:induction false} GetKeepsValid(c: Cache, key: string, now: int)
    requires Valid(c)
    ensures Valid(AfterGet(c, key, now))
  {
    if key in c.entries {
      RemovedValid(c, key);
      RefreshedValid(c, key);
    }
  }

  lemma {:induction false} EvictedValid(c: Cache)
    requires Valid(c) && c.capacity > 0
    ensures Valid(Evicted(c)) && |Evicted(c).order| < c.capacity
    ensures forall k :: k in Evicted(c).entries ==> k in c.entries
  {
    if |c.order| >= c.capacity {
      var last := c.order[|c.order| - 1];
      assert last in c.order;
      RemovedValid(c, last);
    }
  }

  lemma {:induction false} RoomValid(c: Cache, key: string)
    requires Valid(c) && c.capacity > 0
    ensures Valid(Room(c, key)) && |Room(c, key).order| < c.capacity && key !in Room(c, key).order
  {
    if key in c.entries {
      RemovedValid(c, key);
    } else {
      EvictedValid(c);
    }
  }

  lemma {:induction false} PutKeepsValid(c: Cache, key: string, vec: Vec, now: int)
    requires Valid(c)
    ensures Valid(AfterPut(c, key, vec, now))
  {
    if c.capacity > 0 {
      RoomValid(c, key);
      InsertedValid(Room(c, key), key, Stamped(c, vec, now));
    }
  }

  // ----- buffers -----

  /** Removing an entry frees its buffer and no other. */
  lemma {:induction false} RemovedBuffers(c: Cache, key: string)
    requires OwnBuffers(c) && key in c.entries
    ensures OwnBuffers(Removed(c, key)) && Buffers(Removed(c, key)) == Buffers(c) - {c.entries[key].buffer}
  {
    var r := Removed(c, key);
    forall p ensures p in Buffers(r) <==> p in Buffers(c) && p != c.entries[key].buffer {
      if p in Buffers(c) && p != c.entries[key].buffer {
        var k :| k in c.entries && c.entries[k].buffer == p;
        assert k in r.entries && r.entries[k].buffer == p;
      }
    }
  }

  lemma {:induction false} RoomBuffers(c: Cache, key: string)
    requires Valid(c) && OwnBuffers(c)
    ensures OwnBuffers(Room(c, key)) && Buffers(Room(c, key)) <= Buffers(c)
    ensures forall k :: k in Room(c, key).entries ==> k in c.entries && Room(c, key).entries[k] == c.entries[k]
  {
    if key in c.entries {
      RemovedBuffers(c, key);
    } else if |c.order| >= c.capacity && c.order != [] {
      assert c.order[|c.order| - 1] in c.order;
      RemovedBuffers(c, c.order[|c.order| - 1]);
    }
  }

  /** A new entry in a buffer of its own. */
  lemma {:induction false} StoredBuffers(c: Cache, key: string, entry: Entry)
    requires OwnBuffers(c) && key !in c.entries && entry.buffer == c.next
    ensures var s := Inserted(c, key, entry).(next := c.next + 1);
      OwnBuffers(s) && Buffers(s) == Buffers(c) + {entry.buffer}
  {
    var s := Inserted(c, key, entry).(next := c.next + 1);
    forall p ensures p in Buffers(s) <==> p in Buffers(c) + {entry.buffer} {
      if p in Buffers(c) {
        var k :| k in c.entries && c.entries[k].buffer == p;
        assert k in s.entries && s.entries[k].buffer == p;
      }
      assert s.entries[key].buffer == entry.buffer;
    }
  }

  /** The buffers that making room for `key` frees. */
  ghost function FreedFor(c: Cache, key: string): set<nat>
    requires Valid(c)
  {
    if key in c.entries then {c.entries[key].buffer} else Dropped(c)
  }

  ghost function Dropped(c: Cache): set<nat>
    requires Valid(c)
  {
    if |c.order| >= c.capacity && c.order != [] then
      assert c.order[|c.order| - 1] in c.order;
      {c.entries[c.order[|c.order| - 1]].buffer}
    else {}
  }

  lemma {:induction false} RoomFrees(c: Cache, key: string)
    requires Valid(c) && OwnBuffers(c)
    ensures Buffers(Room(c, key)) == Buffers(c) - FreedFor(c, key)
    ensures c.next !in FreedFor(c, key) && FreedFor(c, key) <= Buffers(c)
  {
    if key in c.entries {
      RemovedBuffers(c, key);
    } else if |c.order| >= c.capacity && c.order != [] {
      assert c.order[|c.order| - 1] in c.order;
      RemovedBuffers(c, c.order[|c.order| - 1]);
    }
  }

  lemma {:induction false} GetBuffers(c: Cache, key: string, now: int)
    requires OwnBuffers(c)
    ensures OwnBuffers(AfterGet(c, key, now))
    ensures key in c.entries ==> c.entries[key].buffer in Buffers(c)
    ensures Buffers(AfterGet(c, key, now))
         == if key in c.entries && Expired(c, key, now) then Buffers(c) - {c.entries[key].buffer} else Buffers(c)
  {
    if key in c.entries && Expired(c, key, now) {
      RemovedBuffers(c, key);
    }
  }

  /** Allocating the next buffer disturbs nothing. */
  lemma StillValid(c: Cache, key: string)
    requires Valid(c)
    ensures var d := c.(next := c.next + 1);
      Valid(d) && Room(d, key) == Room(c, key).(next := c.next + 1) && FreedFor(d, key) == FreedFor(c, key)
    ensures forall k :: k in c.entries ==> c.entries[k].buffer in Buffers(c)
  {
  }

  lemma {:induction false} PutBuffers(c: Cache, key: string, vec: Vec, now: int)
    requires Valid(c) && OwnBuffers(c) && c.capacity > 0
    ensures OwnBuffers(AfterPut(c, key, vec, now))
    ensures Buffers(AfterPut(c, key, vec, now)) == Buffers(Room(c, key)) + {c.next}
  {
    RoomValid(c, key);
    RoomBuffers(c, key);
    hide Room, Buffers, OwnBuffers, Inserted, Filter;
    StoredBuffers(Room(c, key), key, Stamped(c, vec, now));
  }

  lemma {:induction false} ApplyKeepsBuffers(c: Cache, op: Op)
    requires Valid(c) && OwnBuffers(c)
    ensures OwnBuffers(Apply(c, op))
  {
    match op
    case Get(key, now) =>
      if key in c.entries && Expired(c, key, now) {
        RemovedBuffers(c, key);
      }
    case Put(key, vec, now) =>
      if c.capacity > 0 {
        PutBuffers(c, key, vec, now);
      }
    case Clear =>
  }

  /** When an operation frees the buffer of `key`: it overwrites, evicts or clears the key, or finds it expired. */
  predicate Frees(c: Cache, op: Op, key: string)
    requires key in c.entries
  {
    match op
    case Get(k, now) => k == key && Expired(c, key, now)
    case Put(k, vec, now) =>
      k == key || (k !in c.entries && |c.order| >= c.capacity && c.order != [] && c.order[|c.order| - 1] == key)
    case Clear => true
  }

  lemma {:induction false} PutBufferLifetime(c: Cache, k: string, vec: Vec, now: int, key: string)
    requires Valid(c) && OwnBuffers(c) && key in c.entries
    ensures c.entries[key].buffer in Buffers(AfterPut(c, k, vec, now)) <==> !Frees(c, Put(k, vec, now), key)
    ensures !Frees(c, Put(k, vec, now), key) ==>
      key in AfterPut(c, k, vec, now).entries && AfterPut(c, k, vec, now).entries[key] == c.entries[key]
  {
    assert key in c.order;
    PutBuffers(c, k, vec, now);
    var gone := if k in c.entries then Some(k)
                else if |c.order| >= c.capacity then Some(c.order[|c.order| - 1]) else None;
    if gone.Some? {
      assert gone.value in c.order;
      RemovedBuffers(c, gone.value);
    }
    assert key in Room(c, k).entries ==> c.entries[key].buffer in Buffers(Room(c, k));
  }

  /** A buffer that was handed out stays allocated, with the same contents, exactly as long as no operation overwrites,
      evicts or clears its key or finds it expired. */
  lemma {:induction false} BufferLifetime(c: Cache, op: Op, key: string)
    requires Valid(c) && OwnBuffers(c) && key in c.entries
    ensures c.entries[key].buffer in Buffers(Apply(c, op)) <==> !Frees(c, op, key)
    ensures !Frees(c, op, key) ==> key in Apply(c, op).entries && Apply(c, op).entries[key] == c.entries[key]
  {
    match op
    case Get(k, now) =>
      if k in c.entries && Expired(c, k, now) {
        RemovedBuffers(c, k);
      }
      if !Frees(c, op, key) {
        assert key in Apply(c, op).entries && Apply(c, op).entries[key] == c.entries[key];
      }
    case Put(k, vec, now) => PutBufferLifetime(c, k, vec, now, key);
    case Clear =>
  }

  /** All that an insertion does to list, map and buffers. */
  lemma {:induction false} PutResult(c: Cache, key: string, vec: Vec, now: int) returns (after: Cache, freed: set<nat>)
    requires Valid(c) && OwnBuffers(c) && c.capacity > 0
    ensures after == AfterPut(c, key, vec, now) && Valid(after) && OwnBuffers(after)
    ensures var d := c.(next := c.next + 1);
      && Valid(d) && freed == FreedFor(d, key)
      && after == Inserted(Room(d, key), key, Stamped(c, vec, now))
    ensures Buffers(after) == (Buffers(c) + {c.next}) - freed
    ensures forall k :: k in c.entries ==> c.entries[k].buffer in Buffers(c)
  {
    after, freed := AfterPut(c, key, vec, now), FreedFor(c, key);
    PutKeepsValid(c, key, vec, now);
    PutBuffers(c, key, vec, now);
    RoomFrees(c, key);
    StillValid(c, key);
    hide Valid, OwnBuffers, Buffers, Filter, Room, FreedFor;
  }

  // ----- the cache object -----

  class LRUCache {
    const capacity: nat
    const ttl: int
    var order: seq<string>
    var entries: map<string, Entry>
    var next: nat
    var live: set<nat>

    ghost function Model(): Cache
      reads this
    {
      Cache(capacity, ttl, order, entries, next)
    }

    /** List and map agree, and exactly the entries' buffers are allocated. */
    ghost predicate Intact()
      reads this
    {
      Valid(Model()) && OwnBuffers(Model()) && live == Buffers(Model())
    }

    constructor (capacity: nat, ttl: int)
      ensures Model() == Empty(capacity, ttl) && Intact()
    {
      this.capacity, this.ttl, order, entries, next, live := capacity, ttl, [], map[], 0, {};
    }

    /** Looks a key up; `now` is the clock. The handle names the cache's own buffer. */
    method Get(key: string, now: int) returns (found: Option<Handle>)
      requires Intact()
      modifies this
      ensures Intact()
      ensures found == Lookup(old(Model()), key, now)
      ensures Model() == AfterGet(old(Model()), key, now)
      ensures found.Some? ==> found.value.buffer in live
    {
      ghost var before := Model();
      GetKeepsValid(before, key, now);
      GetBuffers(before, key, now);
      hide Valid, OwnBuffers, Buffers, Filter;
      if key !in entries {
        return None;
      }
      if ttl > 0 && now > entries[key].expiresAt {
        Remove(key);
        return None;
      }
      found := Some(Handle(entries[key].vec, entries[key].buffer));
      order := [key] + Without(order, key);
    }

    method Put(key: string, vec: Vec, now: int)
      requires Intact()
      modifies this
      ensures Intact()
      ensures Model() == AfterPut(old(Model()), key, vec, now)
    {
      hide Valid, OwnBuffers, Buffers, Filter, Room, Inserted, Stamped, FreedFor;
      if capacity > 0 {
        ghost var before := Model();
        ghost var after, freed := PutResult(before, key, vec, now);
        CopyAndStore(key, vec, now, before, after, freed);
      }
    }

    /** Copies the vector into a buffer of its own and stores it, ending in the state `after` with `freed` released. */
    method CopyAndStore(key: string, vec: Vec, now: int, ghost before: Cache, ghost after: Cache, ghost freed: set<nat>)
      requires before == Model() && Valid(before.(next := next + 1))
      requires after == Inserted(Room(before.(next := next + 1), key), key, Stamped(before, vec, now))
      requires freed == FreedFor(before.(next := next + 1), key)
      requires forall k :: k in entries ==> entries[k].buffer in live
      modifies this
      ensures Model() == after && live == (old(live) + {before.next}) - freed
    {
      hide Valid, Filter, Inserted, Room, FreedFor;
      var copy := Malloc();
      var expiresAt := 0;
      if ttl > 0 {
        expiresAt := now + ttl;
      }
      Store(key, Entry(vec, copy, expiresAt));
    }

    /** Overwrites an existing key, or makes room and stores a new one. */
    method Store(key: string, entry: Entry)
      requires Valid(Model()) && forall k :: k in entries ==> entries[k].buffer in live
      modifies this`order, this`entries, this`live
      ensures Model() == Inserted(Room(old(Model()), key), key, entry)
      ensures live == old(live) - FreedFor(old(Model()), key)
    {
      hide Valid, Filter, Evicted, Dropped;
      if key in entries {
        Overwrite(key, entry);
        return;
      }
      MakeRoom();
      order := [key] + order;
      entries := entries[key := entry];
    }

    /** An existing key gets a new entry and becomes most recent; its old buffer is freed. */
    method Overwrite(key: string, entry: Entry)
      requires key in entries && entries[key].buffer in live
      modifies this`order, this`entries, this`live
      ensures Model() == Inserted(Removed(old(Model()), key), key, entry)
      ensures live == old(live) - {old(entries)[key].buffer}
    {
      Free(entries[key].buffer);
      entries := entries[key := entry];
      order := [key] + Without(order, key);
    }

    /** A full cache drops its last key. */
    method MakeRoom()
      requires Valid(Model()) && forall k :: k in entries ==> entries[k].buffer in live
      modifies this`order, this`entries, this`live
      ensures Model() == Evicted(old(Model()))
      ensures live == old(live) - Dropped(old(Model()))
    {
      SameSize(Model());
      if |entries| >= capacity && |entries| > 0 {
        assert order[|order| - 1] in order;
        Remove(order[|order| - 1]);
      }
    }

    method Malloc() returns (p: nat)
      modifies this`next, this`live
      ensures p == old(next) && next == p + 1 && live == old(live) + {p}
    {
      p := next;
      next, live := next + 1, live + {p};
    }

    /** Only an allocated buffer can be freed, so none is freed twice. */
    method Free(p: nat)
      requires p in live
      modifies this`live
      ensures live == old(live) - {p}
    {
      live := live - {p};
    }

    /** Takes one key out of the list and the map and frees its buffer; every other key keeps its entry and the
        others keep their order. */
    method Remove(key: string)
      requires Valid(Model()) && key in entries && entries[key].buffer in live
      modifies this`order, this`entries, this`live
      ensures Valid(Model()) && key !in entries && key !in order
      ensures forall k :: k != key ==>
        (k in entries <==> k in old(entries)) && (k in entries ==> entries[k] == old(entries)[k])
      ensures exists i :: 0 <= i <= |order| && old(order) == order[..i] + [key] + order[i..]
      ensures live == old(live) - {old(entries)[key].buffer}
      ensures Model() == Removed(old(Model()), key)
    {
      RemovedValid(Model(), key);
      ghost var i := WithoutSplits(order, key);
      Free(entries[key].buffer);
      order := Without(order, key);
      entries := entries - {key};
    }

    /** Frees every buffer and empties list and map. */
    method Clear()
      requires Intact()
      modifies this
      ensures Intact() && order == [] && entries == map[] && live == {}
      ensures Model() == Apply(old(Model()), Op.Clear)
    {
      ghost var before := Model();
      var keys := entries.Keys;
      AllOrNothing(before);
      hide Valid, OwnBuffers, Buffers, BuffersOf, Filter;
      while keys != {}
        invariant keys <= entries.Keys && Model() == before && live == BuffersOf(before, keys)
        decreases |keys|
      {
        var k :| k in keys;
        FreeOneOf(before, keys, k);
        Free(entries[k].buffer);
        keys := keys - {k};
      }
      order, entries := [], map[];
    }
  }

  ghost function BuffersOf(c: Cache, keys: set<string>): set<nat>
    requires keys <= c.entries.Keys
  {
    set k | k in keys :: c.entries[k].buffer
  }

  lemma {:induction false} FreeOneOf(c: Cache, keys: set<string>, k: string)
    requires OwnBuffers(c) && keys <= c.entries.Keys && k in keys
    ensures c.entries[k].buffer in BuffersOf(c, keys)
    ensures BuffersOf(c, keys - {k}) == BuffersOf(c, keys) - {c.entries[k].buffer}
  {
    forall p | p in BuffersOf(c, keys) && p != c.entries[k].buffer ensures p in BuffersOf(c, keys - {k}) {
      var j :| j in keys && c.entries[j].buffer == p;
      assert j in keys - {k};
    }
  }

  lemma {:induction false} AllOrNothing(c: Cache)
    ensures BuffersOf(c, c.entries.Keys) == Buffers(c) && BuffersOf(c, {}) == {}
    ensures Valid(Apply(c, Op.Clear)) && OwnBuffers(Apply(c, Op.Clear)) && Buffers(Apply(c, Op.Clear)) == {}
  {
  }

  lemma {:induction false} WithoutAt(s: seq<string>, key: string, i: nat)
    requires Distinct(s) && i < |s| && s[i] == key
    ensures Without(s, key) == s[..i] + s[i + 1..]
  {
    FilterSplit(Other(key), s, i);
    forall k | k in s[..i] || k in s[i + 1..] ensures k != key {
    }
    FilterAll(Other(key), s[..i]);
    FilterAll(Other(key), s[i + 1..]);
  }

  /** Leaving a key of a duplicate-free list out takes one element out and keeps the order of the others. */
  lemma {:induction false} WithoutSplits(s: seq<string>, key: string) returns (i: nat)
    requires Distinct(s) && key in s
    ensures i <= |Without(s, key)| && s == Without(s, key)[..i] + [key] + Without(s, key)[i..]
  {
    i :| 0 <= i < |s| && s[i] == key;
    WithoutAt(s, key, i);
    hide Filter, Distinct;
    assert Without(s, key)[..i] == s[..i] && Without(s, key)[i..] == s[i + 1..];
  }

  ghost predicate IsPlace(s: seq<string>, key: string, i: nat) { i < |s| && s[i] == key }

  function DropAt(s: seq<string>, i: nat): seq<string>
    requires i < |s|
  {
    s[..i] + s[i + 1..]
  }

  /** A lookup, entry by entry: a hit moves its key to the front of the list and changes nothing else; an entry past its
      time goes; otherwise nothing happens. */
  lemma {:induction false} LookupEffect(c: Cache, key: string, now: int) returns (i: nat)
    requires Valid(c)
    ensures key in c.entries ==> IsPlace(c.order, key, i)
    ensures var d := AfterGet(c, key, now);
      if key !in c.entries then d == c
      else if c.ttl > 0 && now > c.entries[key].expiresAt then
        d == c.(order := DropAt(c.order, i), entries := map k | k in c.entries && k != key :: c.entries[k])
      else d == c.(order := [key] + DropAt(c.order, i))
  {
    i := 0;
    if key in c.entries {
      i :| 0 <= i < |c.order| && c.order[i] == key;
      WithoutAt(c.order, key, i);
    }
  }

  /** An insertion brings its key to the front of the list; of the others only the last key of a full cache goes, and
      only for a new key. */
  lemma {:induction false} InsertionOrder(c: Cache, key: string, vec: Vec, now: int) returns (i: nat)
    requires Valid(c) && c.capacity > 0
    ensures key in c.entries ==> IsPlace(c.order, key, i)
    ensures key !in c.entries && |c.order| == c.capacity ==> i == |c.order| - 1
    ensures AfterPut(c, key, vec, now).order
         == [key] + if key in c.entries || |c.order| == c.capacity then DropAt(c.order, i) else c.order
  {
    i := RoomOrder(c, key);
    hide Room, Filter, Valid;
  }

  lemma {:induction false} RoomOrder(c: Cache, key: string) returns (i: nat)
    requires Valid(c) && c.capacity > 0
    ensures key in c.entries ==> IsPlace(c.order, key, i)
    ensures key !in c.entries && |c.order| == c.capacity ==> i == |c.order| - 1
    ensures Room(c, key).order
         == if key in c.entries || |c.order| == c.capacity then DropAt(c.order, i) else c.order
  {
    i := 0;
    if key in c.entries {
      assert key in c.order;
      i :| 0 <= i < |c.order| && c.order[i] == key;
      WithoutAt(c.order, key, i);
      hide Filter, Valid, Distinct;
    } else if |c.order| >= c.capacity {
      i := |c.order| - 1;
      WithoutAt(c.order, c.order[i], i);
      hide Filter, Valid, Distinct;
    }
  }

  /** An insertion stores the vector in a new buffer with a new time to live; the other keys that stay listed keep their
      entries. */
  lemma {:induction false} InsertionEntries(c: Cache, key: string, vec: Vec, now: int)
    requires Valid(c) && c.capacity > 0
    ensures var d := AfterPut(c, key, vec, now);
      && (forall k :: k in d.entries <==> k in d.order)
      && key in d.entries && d.entries[key] == Entry(vec, c.next, if c.ttl > 0 then now + c.ttl else 0)
      && d.next == c.next + 1
      && forall k :: k in d.entries && k != key ==> k in c.entries && d.entries[k] == c.entries[k]
  {
    PutKeepsValid(c, key, vec, now);
    hide Filter, Distinct;
  }

  lemma {:induction false} FilterSplit(p: string -> bool, s: seq<string>, i: nat)
    requires i < |s| && !p(s[i])
    ensures Filter(p, s) == Filter(p, s[..i]) + Filter(p, s[i + 1..])
  {
    if i > 0 {
      FilterSplit(p, s[1..], i - 1);
      assert s[..i][1..] == s[1..][..i - 1] && s[1..][i..] == s[i + 1..];
    }
  }

  lemma {:induction false} ListSize(s: seq<string>, keys: set<string>)
    requires Distinct(s) && forall k :: k in s <==> k in keys
    ensures |s| == |keys|
  {
    if s == [] {
      assert keys == {};
    } else {
      var n := |s| - 1;
      assert s == s[..n] + [s[n]];
      assert forall k :: k in s[..n] <==> k in keys - {s[n]};
      ListSize(s[..n], keys - {s[n]});
    }
  }

  lemma {:induction false} SameSize(c: Cache)
    requires Valid(c)
    ensures |c.order| == |c.entries|
  {
    ListSize(c.order, c.entries.Keys);
  }

  // ----- whole histories -----

  datatype Op = Get(key: string, now: int) | Put(key: string, vec: Vec, now: int) | Clear

  function Apply(c: Cache, op: Op): Cache {
    match op
    case Get(key, now) => AfterGet(c, key, now)
    case Put(key, vec, now) => AfterPut(c, key, vec, now)
    case Clear => Empty(c.capacity, c.ttl).(next := c.next)
  }

  function Run(c: Cache, ops: seq<Op>): Cache {
    if ops == [] then c else Apply(Run(c, ops[..|ops| - 1]), ops[|ops| - 1])
  }

  lemma {:induction false} ApplyKeepsValid(c: Cache, op: Op)
    requires Valid(c)
    ensures Valid(Apply(c, op))
    ensures Apply(c, op).capacity == c.capacity && Apply(c, op).ttl == c.ttl
  {
    match op
    case Get(key, now) => GetKeepsValid(c, key, now);
    case Put(key, vec, now) => PutKeepsValid(c, key, vec, now);
    case Clear =>
  }

  lemma {:induction false} RunKeepsValid(c: Cache, ops: seq<Op>)
    requires Valid(c)
    ensures Valid(Run(c, ops)) && Run(c, ops).capacity == c.capacity && Run(c, ops).ttl == c.ttl
  {
    if ops != [] {
      RunKeepsValid(c, ops[..|ops| - 1]);
      ApplyKeepsValid(Run(c, ops[..|ops| - 1]), ops[|ops| - 1]);
    }
  }

  lemma {:induction false} RunKeepsBuffers(c: Cache, ops: seq<Op>)
    requires Valid(c) && OwnBuffers(c)
    ensures OwnBuffers(Run(c, ops))
  {
    if ops != [] {
      RunKeepsBuffers(c, ops[..|ops| - 1]);
      RunKeepsValid(c, ops[..|ops| - 1]);
      ApplyKeepsBuffers(Run(c, ops[..|ops| - 1]), ops[|ops| - 1]);
    }
  }

  /** No operation of the history frees the buffer of `key`. */
  ghost predicate NeverFrees(c: Cache, ops: seq<Op>, key: string) {
    forall i :: 0 <= i < |ops| && key in Run(c, ops[..i]).entries ==> !Frees(Run(c, ops[..i]), ops[i], key)
  }

  /** The buffer a lookup handed out is still allocated and unchanged after every history that does not free it. */
  lemma {:induction false} HandleStaysAlive(c: Cache, ops: seq<Op>, key: string)
    requires Valid(c) && OwnBuffers(c) && key in c.entries && NeverFrees(c, ops, key)
    ensures key in Run(c, ops).entries && Run(c, ops).entries[key] == c.entries[key]
    ensures c.entries[key].buffer in Buffers(Run(c, ops))
  {
    if ops != [] {
      var n := |ops| - 1;
      var front := ops[..n];
      assert forall i :: 0 <= i < n ==> front[..i] == ops[..i];
      HandleStaysAlive(c, front, key);
      RunKeepsValid(c, front);
      RunKeepsBuffers(c, front);
      BufferLifetime(Run(c, front), ops[n], key);
    }
  }

  /** What was stored is found again, in its buffer, until it expires, after every history that does not free it. */
  lemma {:induction false} GetAfterPut(c: Cache, key: string, vec: Vec, now: int, ops: seq<Op>, later: int)
    requires Valid(c) && OwnBuffers(c) && c.capacity > 0 && NeverFrees(AfterPut(c, key, vec, now), ops, key)
    ensures Lookup(Run(AfterPut(c, key, vec, now), ops), key, later)
         == if c.ttl > 0 && later > now + c.ttl then None else Some(Handle(vec, c.next))
  {
    var stored := AfterPut(c, key, vec, now);
    PutKeepsValid(c, key, vec, now);
    PutBuffers(c, key, vec, now);
    RunKeepsValid(stored, ops);
    HandleStaysAlive(stored, ops, key);
  }

  // ----- inclusion: a larger cache contains a smaller one -----

  function KeyOf(c: Cache): string -> bool { k => k in c.entries }

  /** Entries of two caches that hold the same, each in its own buffer. */
  predicate SameContent(e: Entry, e': Entry) {
    e.vec == e'.vec && e.expiresAt == e'.expiresAt
  }

  /** The small cache's list is the large one's list with some keys left out, the shared entries hold the same, and the
      large cache is ahead by at most the difference in capacity. */
  ghost predicate Included(small: Cache, large: Cache) {
    && small.ttl == large.ttl && small.capacity <= large.capacity
    && small.order == Filter(KeyOf(small), large.order)
    && (forall k :: k in small.entries ==> k in large.entries && SameContent(small.entries[k], large.entries[k]))
    && |large.order| - |small.order| <= large.capacity - small.capacity
  }

  lemma {:induction false} RemovedIncluded(small: Cache, large: Cache, key: string)
    requires Valid(small) && Valid(large) && Included(small, large) && key in large.entries
    ensures Removed(small, key).order == Filter(KeyOf(Removed(small, key)), Removed(large, key).order)
    ensures key in small.entries ==> Included(Removed(small, key), Removed(large, key))
  {
    var s', l' := Removed(small, key), Removed(large, key);
    FilterTwice(Other(key), KeyOf(small), KeyOf(s'), large.order);
    FilterTwice(KeyOf(s'), Other(key), KeyOf(s'), large.order);
    RemovedValid(small, key);
    RemovedValid(large, key);
  }

  /** Refreshing in the large cache only: the small list does not notice. */
  lemma {:induction false} LargeRefreshed(small: Cache, large: Cache, key: string)
    requires Valid(small) && Valid(large) && Included(small, large)
    requires key in large.entries && key !in small.entries
    ensures Included(small, Refreshed(large, key))
  {
    FilterTwice(KeyOf(small), Other(key), KeyOf(small), large.order);
    RefreshedValid(large, key);
    var rest := Without(large.order, key);
    assert ([key] + rest)[1..] == rest;
  }

  lemma {:induction false} BothRefreshed(small: Cache, large: Cache, key: string)
    requires Valid(small) && Valid(large) && Included(small, large) && key in small.entries
    ensures Included(Refreshed(small, key), Refreshed(large, key))
  {
    RemovedIncluded(small, large, key);
    RemovedValid(large, key);
    RefreshedIsInserted(small, key);
    RefreshedIsInserted(large, key);
    InsertedIncluded(Removed(small, key), Removed(large, key), key, small.entries[key], large.entries[key]);
  }

  lemma {:induction false} GetIncluded(small: Cache, large: Cache, key: string, now: int)
    requires Valid(small) && Valid(large) && Included(small, large)
    ensures Included(AfterGet(small, key, now), AfterGet(large, key, now))
  {
    if key in small.entries {
      if Expired(small, key, now) {
        RemovedIncluded(small, large, key);
      } else {
        BothRefreshed(small, large, key);
      }
    } else if key in large.entries {
      if Expired(large, key, now) {
        LargeRemoved(small, large, key);
      } else {
        LargeRefreshed(small, large, key);
      }
    }
  }

  lemma {:induction false} LargeRemoved(small: Cache, large: Cache, key: string)
    requires Valid(small) && Valid(large) && Included(small, large)
    requires key in large.entries && key !in small.entries
    ensures Included(small, Removed(large, key))
  {
    FilterTwice(KeyOf(small), Other(key), KeyOf(small), large.order);
    RemovedValid(large, key);
  }

  lemma {:induction false} LastOfFilter(p: string -> bool, s: seq<string>)
    requires s != [] && p(s[|s| - 1])
    ensures Filter(p, s) != [] && Filter(p, s)[|Filter(p, s)| - 1] == s[|s| - 1]
  {
    if |s| > 1 {
      LastOfFilter(p, s[1..]);
    }
  }

  /** Leaving out a key that is not kept anyway makes no difference. */
  lemma {:induction false} StillFiltered(s: Cache, order: seq<string>, k: string)
    requires k !in s.entries
    ensures Filter(KeyOf(s), Without(order, k)) == Filter(KeyOf(s), order)
  {
    FilterTwice(KeyOf(s), Other(k), KeyOf(s), order);
  }

  /** The small cache with room made is still a filtered view of the large one as it was. */
  lemma {:induction false} EvictedOrder(small: Cache, large: Cache)
    requires Valid(small) && Included(small, large) && small.capacity > 0
    ensures Evicted(small).order == Filter(KeyOf(Evicted(small)), large.order)
    ensures |Evicted(small).order| == if |small.order| == small.capacity then |small.order| - 1 else |small.order|
  {
    if |small.order| >= small.capacity {
      var last := small.order[|small.order| - 1];
      assert last in small.order;
      RemovedValid(small, last);
      FilterTwice(Other(last), KeyOf(small), KeyOf(Evicted(small)), large.order);
    } else {
      FilterAgrees(KeyOf(small), KeyOf(Evicted(small)), large.order);
    }
  }

  /** When the large cache is full so is the small one, and the key the large one drops is not kept by the small. */
  lemma {:induction false} LargeDropsNothingKept(small: Cache, large: Cache)
    requires Valid(small) && Valid(large) && Included(small, large) && small.capacity > 0
    requires |large.order| == large.capacity
    ensures |small.order| == small.capacity
    ensures large.order[|large.order| - 1] !in Evicted(small).entries
  {
    var gone, last := large.order[|large.order| - 1], small.order[|small.order| - 1];
    if gone in small.entries {
      LastOfFilter(KeyOf(small), large.order);
      assert gone == last;
    }
  }

  /** Making room for a key that only the large cache holds. */
  lemma {:induction false} RoomForHeld(small: Cache, large: Cache, key: string)
    requires Valid(small) && Valid(large) && Included(small, large) && small.capacity > 0
    requires key !in small.entries && key in large.entries
    ensures Included(Evicted(small), Removed(large, key))
  {
    EvictedOrder(small, large);
    EvictedValid(small);
    StillFiltered(Evicted(small), large.order, key);
    RemovedValid(large, key);
  }

  /** Making room in both caches for a key that neither holds. */
  lemma {:induction false} RoomForNew(small: Cache, large: Cache)
    requires Valid(small) && Valid(large) && Included(small, large) && small.capacity > 0
    ensures Included(Evicted(small), Evicted(large))
  {
    EvictedOrder(small, large);
    if |large.order| >= large.capacity {
      var gone := large.order[|large.order| - 1];
      assert gone in large.order;
      LargeDropsNothingKept(small, large);
      StillFiltered(Evicted(small), large.order, gone);
      RemovedValid(large, gone);
    }
  }

  lemma {:induction false} RoomIncluded(small: Cache, large: Cache, key: string)
    requires Valid(small) && Valid(large) && Included(small, large) && small.capacity > 0
    ensures Included(Room(small, key), Room(large, key))
  {
    hide Filter, Removed, Evicted;
    if key in small.entries {
      RemovedIncluded(small, large, key);
    } else if key in large.entries {
      RoomForHeld(small, large, key);
    } else {
      RoomForNew(small, large);
    }
  }

  /** Storing the same at the front of both keeps the view. */
  lemma {:induction false} InsertedIncluded(small: Cache, large: Cache, key: string, entry: Entry, entry': Entry)
    requires Included(small, large) && key !in large.order && SameContent(entry, entry')
    ensures Included(Inserted(small, key, entry), Inserted(large, key, entry'))
  {
    var s' := Inserted(small, key, entry);
    assert ([key] + large.order)[1..] == large.order && ([key] + large.order)[0] == key;
    FilterAgrees(KeyOf(small), KeyOf(s'), large.order);
  }

  lemma {:induction false} StoredIncluded(small: Cache, large: Cache, key: string, e: Entry, e': Entry, n: nat, n': nat)
    requires Valid(small) && Valid(large) && Included(small, large) && small.capacity > 0 && SameContent(e, e')
    ensures Included(Inserted(Room(small, key), key, e).(next := n), Inserted(Room(large, key), key, e').(next := n'))
  {
    assert large.capacity > 0;
    hide Filter, Removed, Evicted, Room, Inserted, Valid, Included, SameContent;
    RoomIncluded(small, large, key);
    RoomValid(large, key);
    InsertedIncluded(Room(small, key), Room(large, key), key, e, e');
    NextDoesNotMatter(Inserted(Room(small, key), key, e), Inserted(Room(large, key), key, e'), n, n');
  }

  lemma {:induction false} PutIncluded(small: Cache, large: Cache, key: string, vec: Vec, now: int)
    requires Valid(small) && Valid(large) && Included(small, large)
    ensures Included(AfterPut(small, key, vec, now), AfterPut(large, key, vec, now))
  {
    if small.capacity == 0 {
      PutKeepsValid(large, key, vec, now);
      NothingKept(small, AfterPut(large, key, vec, now));
    } else {
      var e, e' := Stamped(small, vec, now), Stamped(large, vec, now);
      StoredIncluded(small, large, key, e, e', small.next + 1, large.next + 1);
      hide Filter, Room, Inserted, Valid;
    }
  }

  lemma {:induction false} NextDoesNotMatter(small: Cache, large: Cache, n: nat, n': nat)
    requires Included(small, large)
    ensures Included(small.(next := n), large.(next := n'))
  {
    FilterAgrees(KeyOf(small), KeyOf(small.(next := n)), large.order);
  }

  lemma {:induction false} NothingKept(small: Cache, large: Cache)
    requires Valid(small) && Valid(large) && small.capacity == 0 && small.ttl == large.ttl
    ensures Included(small, large)
  {
    FilterNone(KeyOf(small), large.order);
  }

  /** Under every history of lookups, insertions and clears, and with entries expiring in between, a cache of larger
      capacity holds everything a smaller one does, with the same values. */
  lemma {:induction false} LargerCacheIncludesSmaller(small: nat, large: nat, ttl: int, ops: seq<Op>)
    requires small <= large
    ensures Included(Run(Empty(small, ttl), ops), Run(Empty(large, ttl), ops))
  {
    var s0, l0 := Empty(small, ttl), Empty(large, ttl);
    if ops != [] {
      var front, op := ops[..|ops| - 1], ops[|ops| - 1];
      LargerCacheIncludesSmaller(small, large, ttl, front);
      RunKeepsValid(s0, front);
      RunKeepsValid(l0, front);
      match op
      case Get(key, now) => GetIncluded(Run(s0, front), Run(l0, front), key, now);
      case Put(key, vec, now) => PutIncluded(Run(s0, front), Run(l0, front), key, vec, now);
      case Clear =>
    }
  }

  /** A hit in the smaller cache is a hit with the same vector in the larger one. */
  lemma {:induction false} HitsAreMonotone(small: nat, large: nat, ttl: int, ops: seq<Op>, key: string, now: int)
    requires small <= large
    requires Lookup(Run(Empty(small, ttl), ops), key, now).Some?
    ensures Lookup(Run(Empty(large, ttl), ops), key, now).Some?
    ensures Lookup(Run(Empty(large, ttl), ops), key, now).value.vec
         == Lookup(Run(Empty(small, ttl), ops), key, now).value.vec
  {
    LargerCacheIncludesSmaller(small, large, ttl, ops);
  }

  // ----- recency -----

  /** The keys in front of `key` in the list. */
  ghost function Before(s: seq<string>, key: string): set<string> {
    if s == [] || s[0] == key then {} else {s[0]} + Before(s[1..], key)
  }

  lemma {:induction false} BeforeIsListed(s: seq<string>, key: string)
    ensures key !in Before(s, key) && forall k :: k in Before(s, key) ==> k in s
  {
    if s != [] && s[0] != key {
      BeforeIsListed(s[1..], key);
    }
  }

  lemma {:induction false} BeforeWithout(s: seq<string>, key: string, other: string)
    requires other != key
    ensures Before(Without(s, other), key) == Before(s, key) - {other}
  {
    if s != [] && s[0] != key {
      BeforeWithout(s[1..], key, other);
      var rest := Without(s[1..], other);
      if s[0] != other {
        assert Without(s, other) == [s[0]] + rest;
        BeforeFront(rest, key, s[0]);
      } else {
        assert Without(s, other) == rest;
      }
    } else if s != [] {
      assert Without(s, other)[0] == key;
    }
  }

  lemma BeforeFront(s: seq<string>, key: string, front: string)
    ensures Before([front] + s, key) == if front == key then {} else {front} + Before(s, key)
  {
    assert ([front] + s)[1..] == s;
  }

  /** The keys in front of a listed key are distinct: all the others when it comes last. */
  lemma {:induction false} BeforeSize(s: seq<string>, key: string)
    requires Distinct(s) && key in s
    ensures |Before(s, key)| < |s|
    ensures s[|s| - 1] == key ==> |Before(s, key)| == |s| - 1
  {
    if s[0] != key {
      TailDistinct(s);
      hide Distinct;
      BeforeSize(s[1..], key);
      BeforeIsListed(s[1..], key);
    }
  }

  lemma TailDistinct(s: seq<string>)
    requires Distinct(s) && s != []
    ensures Distinct(s[1..]) && s[0] !in s[1..]
  {
  }

  /** The operation stores its key or finds it. */
  predicate IsUse(c: Cache, op: Op) {
    op.Put? || (op.Get? && Lookup(c, op.key, op.now).Some?)
  }

  /** The keys that the operations store or find. */
  ghost function Used(c: Cache, ops: seq<Op>): set<string> {
    set i | 0 <= i < |ops| && IsUse(Run(c, ops[..i]), ops[i]) :: ops[i].key
  }

  lemma {:induction false} UsedSnoc(c: Cache, ops: seq<Op>, op: Op)
    ensures Used(c, ops + [op]) == Used(c, ops) + if IsUse(Run(c, ops), op) then {op.key} else {}
  {
    var all := ops + [op];
    assert forall i :: 0 <= i <= |ops| ==> all[..i] == ops[..i];
    assert ops[..|ops|] == ops;
    forall k ensures k in Used(c, all) <==> k in Used(c, ops) || (IsUse(Run(c, ops), op) && k == op.key) {
      if k in Used(c, ops) {
        var i :| 0 <= i < |ops| && IsUse(Run(c, ops[..i]), ops[i]) && k == ops[i].key;
        assert all[i] == ops[i] && IsUse(Run(c, all[..i]), all[i]);
      }
      if IsUse(Run(c, ops), op) {
        assert all[|ops|] == op && IsUse(Run(c, all[..|ops|]), all[|ops|]);
      }
    }
  }

  /** The operations leave `key` alone: none is on it, and none clears the cache. */
  ghost predicate Spares(ops: seq<Op>, key: string) {
    forall i :: 0 <= i < |ops| ==> !ops[i].Clear? && ops[i].key != key
  }

  /** The keys in front of `key` that one more operation on another key leaves. */
  ghost function AheadAfter(c: Cache, op: Op, key: string): set<string> {
    Before(c.order, key) + if IsUse(c, op) then {op.key} else {}
  }

  lemma {:induction false} FrontAhead(order: seq<string>, rest: seq<string>, key: string, k: string)
    requires k != key && Before(rest, key) - {k} == Before(order, key) - {k}
    ensures Before([k] + rest, key) == Before(order, key) + {k}
  {
    hide Before;
    BeforeFront(rest, key, k);
    assert {k} + Before(rest, key) == {k} + (Before(rest, key) - {k});
    assert {k} + Before(order, key) == {k} + (Before(order, key) - {k});
  }

  /** While `key` stays, the keys in front of it are those that were there and those used since. */
  lemma {:induction false} StepAhead(c: Cache, op: Op, key: string)
    requires Valid(c) && c.ttl <= 0 && !op.Clear? && op.key != key && key in Apply(c, op).entries && key in c.entries
    ensures Before(Apply(c, op).order, key) == AheadAfter(c, op, key)
  {
    var k := op.key;
    hide Before, Filter, Valid;
    if op.Put? {
      hide Room;
      RoomAhead(c, k, key);
      FrontAhead(c.order, Room(c, k).order, key, k);
    } else if k in c.entries {
      BeforeWithout(c.order, key, k);
      FrontAhead(c.order, Without(c.order, k), key, k);
    }
  }

  lemma RoomList(c: Cache, k: string)
    ensures Room(c, k).order
         == if k in c.entries then Without(c.order, k)
            else if |c.order| >= c.capacity && c.order != [] then Without(c.order, c.order[|c.order| - 1])
            else c.order
    ensures k !in c.entries && |c.order| >= c.capacity && c.order != [] ==>
      c.order[|c.order| - 1] !in Room(c, k).entries
  {
  }

  lemma {:induction false} RoomAhead(c: Cache, k: string, key: string)
    requires Valid(c) && k != key && key in c.entries && key in Room(c, k).entries
    ensures Before(Room(c, k).order, key) - {k} == Before(c.order, key) - {k}
  {
    assert key in c.order && Distinct(c.order);
    RoomList(c, k);
    hide Before, Filter, Valid, Room, Distinct;
    if k in c.entries {
      BeforeWithout(c.order, key, k);
    } else if |c.order| >= c.capacity {
      var last := c.order[|c.order| - 1];
      LastIsNotAhead(c.order, key);
      BeforeWithout(c.order, key, last);
      assert Before(c.order, key) - {last} == Before(c.order, key);
    }
  }

  lemma {:induction false} LastIsNotAhead(s: seq<string>, key: string)
    requires Distinct(s) && key in s
    ensures s[|s| - 1] !in Before(s, key)
  {
    if s[0] != key {
      LastIsNotAhead(s[1..], key);
    }
  }

  /** What an operation on another key does to the entry of `key`: nothing, or it drops the last key of a full cache. */
  lemma {:induction false} KeptOrLast(c: Cache, op: Op, key: string)
    requires Valid(c) && c.ttl <= 0 && !op.Clear? && op.key != key && key in c.entries
    ensures key in Apply(c, op).entries ==> Apply(c, op).entries[key] == c.entries[key]
    ensures key !in Apply(c, op).entries ==>
      op.Put? && op.key !in c.order && |c.order| == c.capacity && c.order[|c.order| - 1] == key
  {
    assert key in c.order;
    hide Filter;
  }

  /** One operation on another key drops `key` exactly when that makes `capacity` keys in front of it. */
  lemma {:induction false} StepSurvives(c: Cache, op: Op, key: string)
    requires Valid(c) && c.ttl <= 0 && !op.Clear? && op.key != key && key in c.entries
    ensures key in Apply(c, op).entries <==> |AheadAfter(c, op, key)| < c.capacity
    ensures key in Apply(c, op).entries ==> Apply(c, op).entries[key] == c.entries[key]
  {
    ApplyKeepsValid(c, op);
    KeptOrLast(c, op, key);
    hide Before, Filter, Apply;
    if key in Apply(c, op).entries {
      StepAhead(c, op, key);
      BeforeSize(Apply(c, op).order, key);
    } else {
      BeforeSize(c.order, key);
      BeforeIsListed(c.order, key);
    }
  }

  lemma {:induction false} StaysOut(c: Cache, op: Op, key: string)
    requires Valid(c) && key !in c.entries && !op.Clear? && op.key != key
    ensures key !in Apply(c, op).entries
  {
  }

  /** Where `key` stands after the operations: the keys in front of it are those that were and those used. */
  ghost predicate Stands(c: Cache, d: Cache, key: string, ahead: set<string>) {
    && (key in d.entries <==> |ahead| < c.capacity)
    && (key in d.entries ==> key in c.entries && d.entries[key] == c.entries[key] && Before(d.order, key) == ahead)
  }

  lemma {:induction false} StandsStep(c: Cache, d: Cache, op: Op, key: string, ahead: set<string>)
    requires key in c.entries && Valid(d) && d.ttl <= 0 && d.capacity == c.capacity && Stands(c, d, key, ahead)
    requires !op.Clear? && op.key != key
    ensures Stands(c, Apply(d, op), key, ahead + if IsUse(d, op) then {op.key} else {})
  {
    hide Before, Filter, IsUse, Apply, Valid;
    if key in d.entries {
      StepSurvives(d, op, key);
      if key in Apply(d, op).entries {
        StepAhead(d, op, key);
      }
    } else {
      StaysOut(d, op, key);
      SubsetCardinality(ahead, ahead + if IsUse(d, op) then {op.key} else {});
    }
  }

  /** The LRU law from any state, without expiry: after operations on other keys `key` is still stored if and only if
      the keys that were in front of it and those used since are fewer than the capacity. */
  lemma {:induction false} RunSurvives(c: Cache, ops: seq<Op>, key: string)
    requires Valid(c) && c.ttl <= 0 && key in c.entries && Spares(ops, key)
    ensures Stands(c, Run(c, ops), key, Before(c.order, key) + Used(c, ops))
  {
    hide Before, Used, Filter, IsUse, Apply, Stands, Valid;
    if ops == [] {
      StandsAtFirst(c, key);
    } else {
      var front, op := ops[..|ops| - 1], ops[|ops| - 1];
      assert ops == front + [op];
      RunSurvives(c, front, key);
      RunKeepsValid(c, front);
      UsedSnoc(c, front, op);
      StandsStep(c, Run(c, front), op, key, Before(c.order, key) + Used(c, front));
      UnionAssociates(Before(c.order, key), Used(c, front), if IsUse(Run(c, front), op) then {op.key} else {});
    }
  }

  lemma {:induction false} StandsAtFirst(c: Cache, key: string)
    requires Valid(c) && key in c.entries
    ensures Stands(c, c, key, Before(c.order, key) + Used(c, []))
  {
    assert Used(c, []) == {} && Before(c.order, key) + {} == Before(c.order, key);
    BeforeSize(c.order, key);
  }

  lemma UnionAssociates(a: set<string>, b: set<string>, d: set<string>)
    ensures a + (b + d) == a + b + d
  {
  }

  lemma {:induction false} RunConcat(c: Cache, a: seq<Op>, b: seq<Op>)
    ensures Run(c, a + b) == Run(Run(c, a), b)
  {
    if b == [] {
      assert a + b == a;
    } else {
      var n := |b| - 1;
      assert (a + b)[..|a + b| - 1] == a + b[..n];
      RunConcat(c, a, b[..n]);
    }
  }

  lemma RunOne(c: Cache, op: Op)
    ensures Run(c, [op]) == Apply(c, op)
  {
    assert [op][..0] == [];
  }

  /** The LRU law, exactly: without expiry, a key that was stored or found is found again after operations on other keys
      if and only if these used fewer than `capacity` keys. A lookup counts as a use like an insertion. */
  lemma {:induction false} FoundAgainIff(c: Cache, use: Op, ops: seq<Op>, later: int)
    requires Valid(c) && c.ttl <= 0 && c.capacity > 0 && IsUse(c, use) && Spares(ops, use.key)
    ensures Lookup(Run(c, [use] + ops), use.key, later).Some? <==> |Used(Run(c, [use]), ops)| < c.capacity
    ensures Lookup(Run(c, [use] + ops), use.key, later).Some? ==>
      Lookup(Run(c, [use] + ops), use.key, later) == Lookup(Run(c, [use]), use.key, later)
  {
    var d := Apply(c, use);
    RunOne(c, use);
    RunConcat(c, [use], ops);
    ApplyKeepsValid(c, use);
    assert d.order[0] == use.key && Before(d.order, use.key) == {};
    assert {} + Used(d, ops) == Used(d, ops);
    RunSurvives(d, ops, use.key);
    RunKeepsValid(d, ops);
  }

  /** A key that is left alone while `capacity` other keys are stored or found is gone. */
  lemma {:induction false} UnusedKeyIsEvicted(c: Cache, ops: seq<Op>, key: string, later: int)
    requires Valid(c) && c.ttl <= 0 && Spares(ops, key) && |Used(c, ops)| >= c.capacity
    ensures Lookup(Run(c, ops), key, later) == None
  {
    if key in c.entries {
      RunSurvives(c, ops, key);
      SubsetCardinality(Used(c, ops), Before(c.order, key) + Used(c, ops));
    } else {
      NeverStored(c, ops, key);
    }
  }

  lemma {:induction false} NeverStored(c: Cache, ops: seq<Op>, key: string)
    requires Valid(c) && key !in c.entries && Spares(ops, key)
    ensures key !in Run(c, ops).entries
  {
    if ops != [] {
      NeverStored(c, ops[..|ops| - 1], key);
      RunKeepsValid(c, ops[..|ops| - 1]);
      StaysOut(Run(c, ops[..|ops| - 1]), ops[|ops| - 1], key);
    }
  }

  ghost predicate Touches(ops: seq<Op>, keys: set<string>) {
    forall i :: 0 <= i < |ops| ==> !ops[i].Clear? && ops[i].key in keys
  }

  lemma {:induction false} FewKeysUsed(c: Cache, ops: seq<Op>, keys: set<string>)
    requires Touches(ops, keys)
    ensures Used(c, ops) <= keys && |Used(c, ops)| <= |keys|
  {
    SubsetCardinality(Used(c, ops), keys);
  }

  /** Without expiry, a stored key survives any history that touches fewer than `capacity` other keys, and is then found
      with its value in its original buffer. */
  lemma {:induction false} RecentKeysSurvive(c: Cache, key: string, vec: Vec, now: int, ops: seq<Op>,
                                             keys: set<string>, later: int)
    requires Valid(c) && c.ttl <= 0 && |keys| < c.capacity && Touches(ops, keys) && key !in keys
    ensures Lookup(Run(AfterPut(c, key, vec, now), ops), key, later) == Some(Handle(vec, c.next))
  {
    var put := Put(key, vec, now);
    RunOne(c, put);
    RunConcat(c, [put], ops);
    FewKeysUsed(Run(c, [put]), ops, keys);
    FoundAgainIff(c, put, ops, later);
  }

  /** So does a key that was found: a lookup makes it most recent. */
  lemma {:induction false} FoundKeysSurvive(c: Cache, key: string, now: int, ops: seq<Op>, keys: set<string>,
                                            later: int)
    requires Valid(c) && c.ttl <= 0 && key in c.entries
    requires |keys| < c.capacity && Touches(ops, keys) && key !in keys
    ensures Lookup(Run(c, [Op.Get(key, now)] + ops), key, later) == Lookup(c, key, now)
  {
    var get := Op.Get(key, now);
    RunOne(c, get);
    FewKeysUsed(Run(c, [get]), ops, keys);
    FoundAgainIff(c, get, ops, later);
  }
}
