/**
 The limiter object of internal/ratelimit/limiter.go: records and semaphores are heap objects that
 the methods update in place. The methods that answer requests or change the limit are tied to steps
 of `Limiter` on the object's `View`; those about delay slots say what they do to the semaphores.
 A method runs as one critical section; `DelaySlots` treats the interleavings of delay slots.
 */
module LimiterObject {
  import opened Wrappers
  import opened Limiter
  import DelaySlots

  class Record {
    var windowStart: int
    var count: int
    var bannedUntil: int
    var lastSeen: int

    constructor (now: int)
      ensures windowStart == now && count == 0 && bannedUntil == ZERO_TIME && lastSeen == ZERO_TIME
    {
      windowStart, count, bannedUntil, lastSeen := now, 0, ZERO_TIME, ZERO_TIME;
    }

    function Value(): Entry
      reads this
    {
      Entry(windowStart, count, bannedUntil, lastSeen)
    }
  }

  /** A bounded channel used as a counting semaphore. */
  class Semaphore {
    const capacity: int
    var tokens: int

    constructor (capacity: int)
      ensures this.capacity == capacity && tokens == 0
    {
      this.capacity, tokens := capacity, 0;
    }
  }

  class RateLimiter {
    var enabled: bool
    var requestsPerMin: int
    var banDuration: int
    var entries: map<string, Record>
    var lastCleanup: int
    var throttleDelay: int
    var maxDelaySlots: int
    var delaySem: Semaphore?

    /** No record is shared between two keys. */
    ghost predicate Valid()
      reads this
    {
      forall j, k :: j in entries && k in entries && j != k ==> entries[j] != entries[k]
    }

    ghost function View(): State
      reads this, entries.Values
    {
      State(enabled, requestsPerMin, banDuration, map key | key in entries :: entries[key].Value(), lastCleanup)
    }

    /** A semaphore of the configured size is in place exactly while there is a delay. */
    predicate DelayReady()
      reads this
    {
      && maxDelaySlots > 0
      && (delaySem != null <==> throttleDelay > 0)
      && (delaySem != null ==> delaySem.capacity == maxDelaySlots)
    }

    constructor (enabled: bool, requestsPerMin: int, banDuration: int, throttleDelay: int, maxDelaySlots: int, now: int)
      ensures Valid() && View() == New(enabled, requestsPerMin, banDuration, now)
      ensures this.enabled == enabled && this.requestsPerMin == requestsPerMin && this.banDuration == banDuration
      ensures entries == map[] && lastCleanup == now
      ensures this.throttleDelay == throttleDelay && DelayReady()
      ensures this.maxDelaySlots == if maxDelaySlots > 0 then maxDelaySlots else DelaySlots.DEFAULT_SLOTS
      ensures delaySem != null ==> fresh(delaySem) && delaySem.tokens == 0
    {
      var slots := if maxDelaySlots <= 0 then DelaySlots.DEFAULT_SLOTS else maxDelaySlots;
      var sem: Semaphore? := null;
      if throttleDelay > 0 {
        sem := new Semaphore(slots);
      }
      this.enabled, this.requestsPerMin, this.banDuration := enabled, requestsPerMin, banDuration;
      this.entries, this.lastCleanup := map[], now;
      this.throttleDelay, this.maxDelaySlots, this.delaySem := throttleDelay, slots, sem;
    }

    /** The loop of the clean-up: drops the records that are no longer needed, in any order. */
    method EvictStale(now: int)
      modifies this`entries
      ensures forall key :: key in entries <==> key in old(entries) && !Stale(old(entries[key].Value()), now)
      ensures forall key :: key in entries ==> entries[key] == old(entries)[key]
    {
      ghost var before := entries;
      var todo := entries.Keys;
      while todo != {}
        invariant todo <= entries.Keys <= before.Keys
        invariant forall key :: key in entries ==> entries[key] == before[key]
        invariant forall key :: key in before && key !in todo ==>
                    (key in entries <==> !Stale(before[key].Value(), now))
        decreases todo
      {
        var key :| key in todo;
        var rec := entries[key];
        if rec.bannedUntil < now && now - rec.lastSeen > 2 * WINDOW {
          entries := entries - {key};
        }
        todo := todo - {key};
      }
    }

    method CleanupLocked(now: int)
      requires Valid()
      modifies this`entries, this`lastCleanup
      ensures Valid() && View() == Cleanup(old(View()), now)
      ensures forall key :: key in entries ==> key in old(entries) && entries[key] == old(entries[key])
    {
      if now - lastCleanup < CLEANUP_INTERVAL {
        return;
      }
      EvictStale(now);
      lastCleanup := now;
      assert View().entries == Evict(old(View().entries), now);
    }

    /** The record of `key`, created when there is none. */
    method Find(key: string, now: int) returns (rec: Record)
      requires Valid()
      modifies this`entries
      ensures Valid() && key in entries && entries[key] == rec
      ensures if key in old(entries) then entries == old(entries)
              else entries == old(entries)[key := rec] && fresh(rec)
                   && rec.Value() == Entry(now, 0, ZERO_TIME, ZERO_TIME)
    {
      if key !in entries {
        rec := new Record(now);
        entries := entries[key := rec];
      }
      rec := entries[key];
    }

    /** Counts one request against `rec`. */
    method Charge(rec: Record, now: int) returns (allowed: bool, retryAfter: int)
      modifies rec
      ensures (rec.Value(), Answer(allowed, retryAfter))
              == Touch(Some(old(rec.Value())), now, requestsPerMin, banDuration)
    {
      rec.lastSeen := now;
      if rec.bannedUntil > now {
        return false, RetryAfterSeconds(rec.bannedUntil - now);
      }
      if now - rec.windowStart >= WINDOW {
        rec.windowStart := now;
        rec.count := 0;
      }
      rec.count := rec.count + 1;
      if rec.count > requestsPerMin {
        rec.bannedUntil := now + banDuration;
        return false, RetryAfterSeconds(rec.bannedUntil - now);
      }
      return true, 0;
    }

    /** Charges `key` for a request, after the clean-up. */
    method Account(key: string, now: int) returns (allowed: bool, retryAfter: int)
      requires Valid()
      modifies this`entries, entries.Values
      ensures Valid() && entries.Keys == old(entries.Keys) + {key}
      ensures forall k :: k in old(entries) && k != key ==> entries[k].Value() == old(entries[k].Value())
      ensures var rec := if key in old(entries) then Some(old(entries[key].Value())) else None;
              (entries[key].Value(), Answer(allowed, retryAfter)) == Touch(rec, now, requestsPerMin, banDuration)
    {
      ghost var was := if key in entries then Some(entries[key].Value()) else None;
      var rec := Find(key, now);
      TouchCreated(now, requestsPerMin, banDuration);
      assert Touch(Some(rec.Value()), now, requestsPerMin, banDuration) == Touch(was, now, requestsPerMin, banDuration);
      allowed, retryAfter := Charge(rec, now);
      assert entries[key] == rec;
      assert (rec.Value(), Answer(allowed, retryAfter)) == Touch(was, now, requestsPerMin, banDuration);
    }

    /** `now` is what the clock read when the request came in. */
    method Allow(key: string, now: int) returns (allowed: bool, retryAfter: int)
      requires Valid()
      modifies this`entries, this`lastCleanup, entries.Values
      ensures Valid()
      ensures (View(), Answer(allowed, retryAfter)) == Limiter.Allow(old(View()), key, now)
      ensures !old(enabled) || old(requestsPerMin) <= 0 ==> allowed && retryAfter == 0 && View() == old(View())
    {
      if !enabled || requestsPerMin <= 0 {
        return true, 0;
      }
      CleanupLocked(now);
      ghost var cleaned := View().entries;
      assert Lookup(cleaned, key) == if key in entries then Some(entries[key].Value()) else None;
      allowed, retryAfter := Account(key, now);
      ghost var after, charged := View().entries, cleaned[key := entries[key].Value()];
      assert after.Keys == charged.Keys;
      assert forall k :: k in after ==> after[k] == charged[k];
      assert after == charged;
    }

    method SetRequestsPerMin(limit: int)
      modifies this`requestsPerMin
      ensures View() == Step(old(View()), SetLimit(limit))
      ensures requestsPerMin == limit
    {
      requestsPerMin := limit;
    }

    method Enable()
      modifies this`enabled
      ensures View() == Step(old(View()), SetEnabled(true))
      ensures enabled
    {
      enabled := true;
    }

    method Disable()
      modifies this`enabled
      ensures View() == Step(old(View()), SetEnabled(false))
      ensures !enabled
    {
      enabled := false;
    }

    /** Never waits: without a semaphore, or with a full one, there is no slot. */
    method TryAcquireDelaySlot() returns (acquired: bool, sem: Semaphore?)
      modifies if delaySem == null then {} else {delaySem}
      ensures acquired <==> delaySem != null && old(delaySem.tokens) < delaySem.capacity
      ensures acquired ==> sem == delaySem && sem.tokens == old(delaySem.tokens) + 1
      ensures !acquired ==> sem == null && (delaySem != null ==> delaySem.tokens == old(delaySem.tokens))
    {
      if delaySem == null {
        return false, null;
      }
      if delaySem.tokens < delaySem.capacity {
        delaySem.tokens := delaySem.tokens + 1;
        return true, delaySem;
      }
      return false, null;
    }

    /** Gives the token back to the semaphore it came from, even if it was replaced since. A receive
        from an empty channel would wait; `DelaySlots.ReleaseNeverWaits` shows that it finds a token. */
    method ReleaseDelaySlot(sem: Semaphore?)
      requires sem != null ==> sem.tokens > 0
      modifies if sem == null then {} else {sem}
      ensures sem != null ==> sem.tokens == old(sem.tokens) - 1
    {
      if sem == null {
        return;
      }
      sem.tokens := sem.tokens - 1;
    }

    method SetThrottleDelay(delay: int)
      modifies this`throttleDelay, this`delaySem
      ensures throttleDelay == delay
      ensures old(DelayReady()) ==> (DelayReady() <==> delay >= 0 || old(delaySem) == null)
      ensures delaySem != old(delaySem) ==>
                || (delaySem == null && delay == 0)
                || (old(delaySem) == null && delay > 0 && fresh(delaySem) && delaySem.tokens == 0)
      ensures delay == 0 ==> delaySem == null
      ensures delay > 0 ==> delaySem != null
      ensures delay > 0 && old(delaySem) == null ==>
                delaySem.capacity == if maxDelaySlots > 0 then maxDelaySlots else DelaySlots.DEFAULT_SLOTS
    {
      throttleDelay := delay;
      if delay > 0 && delaySem == null {
        var slots := maxDelaySlots;
        if slots <= 0 {
          slots := DelaySlots.DEFAULT_SLOTS;
        }
        delaySem := new Semaphore(slots);
      } else if delay == 0 {
        delaySem := null;
      }
    }

    method SetMaxDelaySlots(slots: int)
      modifies this`maxDelaySlots, this`delaySem
      ensures maxDelaySlots == if slots > 0 then slots else DelaySlots.DEFAULT_SLOTS
      ensures old(delaySem) == null ==> delaySem == null
      ensures old(delaySem) != null ==>
              delaySem != null && fresh(delaySem) && delaySem.tokens == 0 && delaySem.capacity == maxDelaySlots
      ensures old(DelayReady()) ==> DelayReady()
    {
      maxDelaySlots := if slots <= 0 then DelaySlots.DEFAULT_SLOTS else slots;
      if delaySem != null {
        delaySem := new Semaphore(maxDelaySlots);
      }
    }
  }
}
