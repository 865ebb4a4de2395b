/**
  The fixed-window rate counter the worker keeps in Redis: one counter per
  (sender, UTC hour), incremented atomically, given an expiry of 3600 + 60
  seconds when the increment creates it. Expiry is applied lazily: a key whose
  expiry time has passed behaves as missing at its next increment.
*/
module RateLimit {
  import opened Domain

  /** The expiry set on a fresh counter, in milliseconds (3600 + 60 seconds). */
  const ExpiryMs: int := (3600 + 60) * 1000

  /** The counter key: a sender id and an hour number (whole hours since the epoch, UTC). */
  datatype RateKey = RateKey(senderId: string, hour: int)

  /** A counter value and the instant after which Redis drops it, if any. */
  datatype Entry = Entry(count: nat, expiresAt: Option<int>)

  type CounterStore = map<RateKey, Entry>

  /** The result of one increment: the new store and the count INCR returned. */
  datatype Counted = Counted(store: CounterStore, count: nat)

  /**
    The hour of `now`. For instants in the years 0000 to 9999 the ISO timestamp
    cut after its hour digits names exactly one UTC hour, so two such instants
    share it iff they share this number. Outside those years the timestamp
    starts with a signed six-digit year and the cut names a whole day; that
    case is not modelled.
  */
  function HourBucket(now: int): (hour: int)
    ensures hour * MsPerHour <= now < (hour + 1) * MsPerHour
  {
    now / MsPerHour
  }

  function KeyFor(senderId: string, now: int): (key: RateKey)
    ensures key.senderId == senderId
    ensures key.hour * MsPerHour <= now < (key.hour + 1) * MsPerHour
  {
    RateKey(senderId, HourBucket(now))
  }

  /** The key exists and its expiry, if any, has not passed. */
  predicate IsLive(store: CounterStore, key: RateKey, now: int)
  {
    key in store && (store[key].expiresAt.None? || now <= store[key].expiresAt.value)
  }

  /** The count a live key holds, 0 for a missing or expired one. */
  function CountAt(store: CounterStore, key: RateKey, now: int): nat
  {
    if IsLive(store, key, now) then store[key].count else 0
  }

  /** Redis INCR: counts up from what the key holds (0 if missing or expired) and keeps a live key's expiry. */
  function Incr(store: CounterStore, key: RateKey, now: int): (r: Counted)
    ensures r.count == CountAt(store, key, now) + 1
    ensures key in r.store && r.store[key].count == r.count
    ensures IsLive(store, key, now) ==> r.store[key].expiresAt == store[key].expiresAt
    ensures forall k :: k in store && k != key ==> k in r.store && r.store[k] == store[k]
    ensures forall k :: k in r.store ==> k in store || k == key
  {
    if IsLive(store, key, now) then
      Counted(store[key := Entry(store[key].count + 1, store[key].expiresAt)], store[key].count + 1)
    else
      Counted(store[key := Entry(1, None)], 1)
  }

  /**
    The worker's counting step: INCR on the sender's key for the current hour,
    then an expiry of 3660 seconds only when that INCR returned 1.
  */
  function CountAttempt(store: CounterStore, senderId: string, now: int): (r: Counted)
    ensures var key := KeyFor(senderId, now);
      && r.count == CountAt(store, key, now) + 1
      && key in r.store && r.store[key].count == r.count
      && (r.count == 1 ==> r.store[key].expiresAt == Some(now + ExpiryMs))
      && (r.count > 1 ==> r.store[key].expiresAt == store[key].expiresAt)
      && (forall k :: k in store && k != key ==> k in r.store && r.store[k] == store[k])
      && (forall k :: k in r.store ==> k in store || k == key)
  {
    var key := KeyFor(senderId, now);
    var incremented := Incr(store, key, now);
    if incremented.count == 1 then
      Counted(incremented.store[key := Entry(1, Some(now + ExpiryMs))], 1)
    else
      incremented
  }

  /** Every counter carries an expiry that lies at least 3660 s after the start of its hour. */
  ghost predicate WellFormed(store: CounterStore)
  {
    forall k :: k in store ==> store[k].expiresAt.Some? && store[k].expiresAt.value >= k.hour * MsPerHour + ExpiryMs
  }

  /** In a well-formed store a counter never expires while its own hour is current. */
  lemma LiveThroughoutItsHour(store: CounterStore, senderId: string, now: int)
    requires WellFormed(store)
    requires KeyFor(senderId, now) in store
    ensures IsLive(store, KeyFor(senderId, now), now)
  {
    var key := KeyFor(senderId, now);
    assert now < (key.hour + 1) * MsPerHour;
  }

  /**
    Counting preserves well-formedness and never resets a counter within its
    hour: the returned count is exactly one more than the stored one.
  */
  lemma CountAttemptNeverResets(store: CounterStore, senderId: string, now: int)
    requires WellFormed(store)
    ensures var key := KeyFor(senderId, now);
      var r := CountAttempt(store, senderId, now);
      && WellFormed(r.store)
      && r.count == (if key in store then store[key].count else 0) + 1
  {
    var key := KeyFor(senderId, now);
    if key in store {
      LiveThroughoutItsHour(store, senderId, now);
    }
    assert key.hour * MsPerHour <= now;
  }

  /** The wait until the next whole hour: positive, at most an hour, and landing on an hour boundary. */
  function NextHourDelay(now: int): (d: int)
    ensures 0 < d <= MsPerHour
    ensures (now + d) % MsPerHour == 0
    ensures HourBucket(now + d) == HourBucket(now) + 1
  {
    (HourBucket(now) + 1) * MsPerHour - now
  }
}
