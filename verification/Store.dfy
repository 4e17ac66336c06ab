/** The shared state of the daemon as values: what each section under the mutex does. */
module Stores {
  import opened Bytes
  import opened Ids
  import opened Eviction

  datatype Snapshot = Snapshot(top: seq<u64>)

  // ---- snapshots, pin counts and LRU order ----

  datatype Store = Store(counter: nat, snaps: map<Id, Snapshot>, pins: map<Id, int>, lru: seq<Id>)

  const EMPTY: Store := Store(1, map[], map[], [])

  /** pinned_counts[id] as a read: an absent entry counts as zero. */
  function PinCount(pins: map<Id, int>, id: Id): int {
    if id in pins then pins[id] else 0
  }

  function PinnedIds(pins: map<Id, int>): set<Id> {
    set id | id in pins && pins[id] > 0
  }

  /** The id the next insert uses. */
  function NextId(st: Store): (id: Id)
    ensures id != []
  {
    MakeSnapId(st.counter)
  }

  /** Issue an id, store the snapshot unless the key exists, append the id to the LRU list. */
  function Insert(st: Store, s: Snapshot): Store {
    var id := NextId(st);
    Store((st.counter + 1) % TWO64, if id in st.snaps then st.snaps else st.snaps[id := s], st.pins, st.lru + [id])
  }

  predicate EvictionEnds(st: Store, max: nat) {
    |Pinned(st.lru, PinnedIds(st.pins))| <= max
  }

  ghost function EvictedIds(st: Store, max: nat): set<Id>
    requires EvictionEnds(st, max)
  {
    Elements(Evicted(st.lru, PinnedIds(st.pins), max))
  }

  /** The eviction loop in closed form. */
  ghost function Evict(st: Store, max: nat): Store
    requires EvictionEnds(st, max)
  {
    var gone := EvictedIds(st, max);
    Store(st.counter, st.snaps - gone, st.pins - gone, Survivors(st.lru, PinnedIds(st.pins), max))
  }

  /** list::remove. */
  function Without<T(==)>(l: seq<T>, x: T): seq<T> {
    if l == [] then []
    else if l[0] == x then Without(l[1..], x)
    else [l[0]] + Without(l[1..], x)
  }

  /** Count one more reader; the pipe handler also moves the id to the back of the list. */
  function Pin(st: Store, id: Id, refresh: bool): Store {
    st.(pins := st.pins[id := PinCount(st.pins, id) + 1],
        lru := if refresh then Without(st.lru, id) + [id] else st.lru)
  }

  function Unpin(st: Store, id: Id): Store {
    st.(pins := st.pins[id := PinCount(st.pins, id) - 1])
  }

  // ---- persistent sessions ----

  datatype PersistentSession = PersistentSession(last: Id, subscribed: bool, lastActivity: int)

  /** What operator[] creates: empty id, not subscribed, the clock's epoch. */
  const BLANK: PersistentSession := PersistentSession([], false, 0)

  type Table = map<bytes, PersistentSession>

  datatype ClientSession = ClientSession(id: bytes, last: Id, subscribed: bool)

  const NEW_CLIENT: ClientSession := ClientSession([], [], false)

  function Entry(t: Table, key: bytes): PersistentSession {
    if key in t then t[key] else BLANK
  }

  /** Recover a known session into the handler's copy, or create it. */
  function AttachTable(t: Table, key: bytes, now: int): Table {
    t[key := if key in t then t[key].(lastActivity := now) else PersistentSession([], false, now)]
  }

  function AttachClient(t: Table, c: ClientSession, key: bytes): ClientSession {
    if key in t then ClientSession(key, t[key].last, t[key].subscribed) else c.(id := key)
  }

  /** The part of events.subscribe that follows the insert. */
  function SubscribeTable(t: Table, key: bytes, id: Id): Table {
    if key == [] then t else t[key := Entry(t, key).(subscribed := true, last := id)]
  }

  function UnsubscribeTable(t: Table, key: bytes): Table {
    if key == [] || key !in t then t else t[key := t[key].(subscribed := false, last := [])]
  }

  /** The part of a successful events.poll that follows the insert. */
  function RebaseTable(t: Table, key: bytes, id: Id): Table {
    if key == [] then t else t[key := Entry(t, key).(last := id)]
  }

  function TerminateTable(t: Table, key: bytes): Table {
    if key == [] then t else t - {key}
  }

  const NANOS: nat := 1_000_000_000

  /** Whole seconds between two nanosecond readings, truncated toward zero. */
  function ElapsedSeconds(now: int, last: int): int {
    if now >= last then (now - last) / NANOS else -((last - now) / NANOS)
  }

  predicate Expired(s: PersistentSession, now: int, ttl: int) {
    ElapsedSeconds(now, s.lastActivity) > ttl
  }

  function Sweep(t: Table, now: int, ttl: int): Table {
    map k | k in t && !Expired(t[k], now, ttl) :: t[k]
  }
}
