/**
  The sliding-window limiters of app/setup.py and app/web.py: deques of times that are popped from the left as they
  leave the window.  A thread reads the monotonic clock before it waits for the lock, so readings may come in late;
  `slack` is the most by which any of them has been behind the latest one, zero if all came in order.
*/
module RateLimits {
  import opened Sets

  const KEY_LENGTH := 256
  const OVERFLOW := "__overflow__"

  function Canonical(key: string): string {
    if |key| > KEY_LENGTH then key[..KEY_LENGTH] else key
  }

  function Max(a: real, b: real): real {
    if a >= b then a else b
  }

  predicate Skewed(times: seq<real>, slack: real) {
    forall i, j :: 0 <= i <= j < |times| ==> times[i] <= times[j] + slack
  }

  /** No time is later than `clock`, and none is followed by one more than `slack` earlier. */
  predicate UpTo(times: seq<real>, clock: real, slack: real) {
    Skewed(times, slack) && forall i :: 0 <= i < |times| ==> times[i] <= clock
  }

  /** How many of the times lie within the window that ends now. */
  function Recent(times: seq<real>, now: real, window: real): nat {
    if times == [] then 0
    else Recent(times[..|times| - 1], now, window) + if now - times[|times| - 1] < window then 1 else 0
  }

  lemma {:induction false} RecentCounts(times: seq<real>, now: real, window: real)
    ensures Recent(times, now, window) == |set i | 0 <= i < |times| && now - times[i] < window|
  {
    var here := set i | 0 <= i < |times| && now - times[i] < window;
    if times == [] {
      assert here == {};
    } else {
      var n := |times| - 1;
      RecentCounts(times[..n], now, window);
      var before := set i | 0 <= i < n && now - times[..n][i] < window;
      assert here == before + if now - times[n] < window then {n} else {};
    }
  }

  /** What the popping loop leaves. */
  function Popped(times: seq<real>, now: real, window: real): seq<real> {
    if times != [] && now - times[0] >= window then Popped(times[1..], now, window) else times
  }

  method PopExpired(deque: seq<real>, now: real, window: real) returns (left: seq<real>)
    ensures left == Popped(deque, now, window)
  {
    left := deque;
    while left != [] && now - left[0] >= window
      invariant Popped(left, now, window) == Popped(deque, now, window)
      decreases |left|
    {
      left := left[1..];
    }
  }

  lemma {:induction false} PoppedShorter(times: seq<real>, now: real, window: real)
    ensures |Popped(times, now, window)| <= |times|
  {
    if times == [] {
    } else if now - times[0] >= window {
      PoppedShorter(times[1..], now, window);
    }
  }

  /** What goes has left the window, whatever the order; what stays is inside, but for the slack. */
  lemma {:induction false} PoppedFacts(times: seq<real>, now: real, window: real, slack: real)
    requires Skewed(times, slack)
    ensures var d := |times| - |Popped(times, now, window)|;
      && 0 <= d && Popped(times, now, window) == times[d..]
      && (forall i :: 0 <= i < d ==> now - times[i] >= window)
      && (forall i :: d <= i < |times| ==> now - times[i] < window + slack)
      && Skewed(Popped(times, now, window), slack)
  {
    if times == [] {
    } else if now - times[0] >= window {
      PoppedFacts(times[1..], now, window, slack);
      var d := |times| - |Popped(times, now, window)|;
      assert times[1..][d - 1..] == times[d..];
      forall i | 0 < i < d ensures now - times[i] >= window { assert times[i] == times[1..][i - 1]; }
      forall i | d <= i < |times| ensures now - times[i] < window + slack { assert times[i] == times[1..][i - 1]; }
    }
  }

  lemma {:induction false} RecentAtMost(times: seq<real>, d: nat, now: real, window: real)
    requires d <= |times| && forall i :: 0 <= i < d ==> now - times[i] >= window
    ensures Recent(times, now, window) <= |times| - d
  {
    if times == [] {
    } else {
      var n := |times| - 1;
      RecentAtMost(times[..n], if d <= n then d else n, now, window);
    }
  }

  lemma {:induction false} RecentAtLeast(times: seq<real>, d: nat, now: real, window: real)
    requires d <= |times| && forall i :: d <= i < |times| ==> now - times[i] < window
    ensures Recent(times, now, window) >= |times| - d
  {
    if times == [] {
    } else {
      var n := |times| - 1;
      RecentAtLeast(times[..n], if d <= n then d else n, now, window);
    }
  }

  // ----------------------------------------------------------- setup limiter

  /** Any `limit + 1` successive times span at least a window. */
  ghost predicate Spaced(times: seq<real>, limit: nat, window: real) {
    forall i :: 0 <= i && i + limit < |times| ==> times[i + limit] - times[i] >= window
  }

  /** How many of the times lie in the half-open interval from `start`, one window long. */
  function Within(times: seq<real>, start: real, window: real): nat {
    if times == [] then 0
    else
      var last := times[|times| - 1];
      Within(times[..|times| - 1], start, window) + if start <= last < start + window then 1 else 0
  }

  lemma EarlierAreOut(times: seq<real>, limit: nat, window: real, slack: real, start: real)
    requires Skewed(times, slack) && Spaced(times, limit, window - slack) && times != []
    requires times[|times| - 1] < start + window - 2.0 * slack
    ensures forall i :: 0 <= i <= |times| - 1 - limit ==> times[i] < start
  {
    forall i | 0 <= i <= |times| - 1 - limit ensures times[i] < start {
      assert times[i + limit] - times[i] >= window - slack && times[i + limit] <= times[|times| - 1] + slack;
    }
  }

  /**
    At most `limit` of the times lie in any interval one window long; with late readings, shorter by twice the slack.
  */
  lemma {:induction false} NoIntervalHoldsMore(times: seq<real>, limit: nat, window: real, slack: real, start: real)
    requires Skewed(times, slack) && Spaced(times, limit, window - slack)
    ensures Within(times, start, window - 2.0 * slack) <= limit
  {
    if times == [] {
    } else {
      var n := |times| - 1;
      NoIntervalHoldsMore(times[..n], limit, window, slack, start);
      if start <= times[n] < start + window - 2.0 * slack {
        EarlierAreOut(times, limit, window, slack, start);
        WithinFrom(times[..n], if n >= limit then n - limit + 1 else 0, start, window - 2.0 * slack);
      }
    }
  }

  lemma {:induction false} WithinFrom(times: seq<real>, d: nat, start: real, window: real)
    requires d <= |times| && forall i :: 0 <= i < d ==> times[i] < start
    ensures Within(times, start, window) <= |times| - d
  {
    if times == [] {
    } else {
      var n := |times| - 1;
      WithinFrom(times[..n], if d <= n then d else n, start, window);
    }
  }

  /** The deque is what is left of all accepted times once those past the window are dropped. */
  ghost predicate Remembers(deque: seq<real>, accepted: seq<real>, now: real, window: real) {
    && |deque| <= |accepted| && deque == accepted[|accepted| - |deque|..]
    && forall i :: 0 <= i < |accepted| - |deque| ==> now - accepted[i] >= window
  }

  /** The state of one key: the deque, and every time the key was ever admitted. */
  ghost predicate SlotOk(deque: seq<real>, all: seq<real>, clock: real, slack: real, limit: nat, window: real) {
    && |deque| <= limit
    && UpTo(all, clock, slack)
    && Spaced(all, limit, window - slack)
    && Remembers(deque, all, clock, window)
  }

  lemma SlotLater(deque: seq<real>, all: seq<real>, clock: real, slack: real, now: real, limit: nat, window: real)
    requires SlotOk(deque, all, clock, slack, limit, window)
    ensures SlotOk(deque, all, Max(clock, now), Max(slack, clock - now), limit, window)
  {
  }

  /** What is popped has left the window, what stays is inside: exactly, if all readings came in order. */
  lemma SlotPopped(deque: seq<real>, all: seq<real>, now: real, clock: real, slack: real, limit: nat, window: real)
    requires SlotOk(deque, all, clock, slack, limit, window) && now <= clock <= now + slack
    ensures SlotOk(Popped(deque, now, window), all, clock, slack, limit, window)
    ensures Recent(all, now, window - slack) <= |Popped(deque, now, window)| <= Recent(all, now, window + slack)
  {
    SuffixSkewed(deque, all, slack);
    PoppedShorter(deque, now, window);
    StillRemembers(deque, all, now, clock, window, slack);
    PoppedCounts(Popped(deque, now, window), all, now, clock, slack, window);
  }

  lemma PoppedCounts(left: seq<real>, all: seq<real>, now: real, clock: real, slack: real, window: real)
    requires |left| <= |all| && clock <= now + slack
    requires forall i :: 0 <= i < |all| - |left| ==> clock - all[i] >= window
    requires forall i :: |all| - |left| <= i < |all| ==> now - all[i] < window + slack
    ensures Recent(all, now, window - slack) <= |left| <= Recent(all, now, window + slack)
  {
    RecentAtMost(all, |all| - |left|, now, window - slack);
    RecentAtLeast(all, |all| - |left|, now, window + slack);
  }

  lemma SuffixSkewed(deque: seq<real>, all: seq<real>, slack: real)
    requires |deque| <= |all| && deque == all[|all| - |deque|..] && Skewed(all, slack)
    ensures Skewed(deque, slack)
  {
  }

  lemma StillRemembers(deque: seq<real>, all: seq<real>, now: real, clock: real, window: real, slack: real)
    requires Remembers(deque, all, clock, window) && Skewed(deque, slack) && now <= clock
    ensures var left := Popped(deque, now, window);
      && Remembers(left, all, clock, window)
      && forall i :: |all| - |left| <= i < |all| ==> now - all[i] < window + slack
  {
    PoppedFacts(deque, now, window, slack);
    var left, gone := Popped(deque, now, window), |all| - |deque|;
    assert left == all[|all| - |left|..];
    forall i | 0 <= i < |all| - |left| ensures clock - all[i] >= window {
      if i >= gone { assert all[i] == deque[i - gone]; }
    }
    forall i | |all| - |left| <= i < |all| ensures now - all[i] < window + slack {
      assert all[i] == deque[i - gone];
    }
  }

  lemma SlotAdmits(deque: seq<real>, all: seq<real>, now: real, clock: real, slack: real, limit: nat, window: real)
    requires SlotOk(deque, all, clock, slack, limit, window) && now <= clock <= now + slack && |deque| < limit
    ensures SlotOk(deque + [now], all + [now], clock, slack, limit, window)
  {
    assert (all + [now])[|all| - |deque|..] == deque + [now];
  }

  /** Exactly right if all readings came in order; otherwise there is some doubt about the ends of the window. */
  ghost predicate Decided(admitted: bool, all: seq<real>, now: real, window: real, slack: real, limit: nat) {
    && (slack == 0.0 ==> (admitted <==> Recent(all, now, window) < limit))
    && (Recent(all, now, window + slack) < limit ==> admitted)
    && (admitted ==> Recent(all, now, window - slack) < limit)
  }

  lemma DecidedBy(count: nat, all: seq<real>, now: real, window: real, slack: real, limit: nat)
    requires Recent(all, now, window - slack) <= count <= Recent(all, now, window + slack)
    ensures Decided(count < limit, all, now, window, slack, limit)
  {
    if slack == 0.0 { assert window - slack == window && window + slack == window; }
  }

  /** What `consume` does to the key's deque. */
  method ConsumeSlot(deque: seq<real>, now: real, ghost all: seq<real>, ghost clock: real, ghost slack: real,
                     limit: nat, window: real)
    returns (admitted: bool, deque': seq<real>, ghost all': seq<real>)
    requires SlotOk(deque, all, clock, slack, limit, window) && now <= clock <= now + slack
    ensures SlotOk(deque', all', clock, slack, limit, window)
    ensures Decided(admitted, all, now, window, slack, limit)
    ensures all' == if admitted then all + [now] else all
  {
    deque' := PopExpired(deque, now, window);
    SlotPopped(deque, all, now, clock, slack, limit, window);
    DecidedBy(|deque'|, all, now, window, slack, limit);
    admitted, all' := |deque'| < limit, all;
    if admitted {
      SlotAdmits(deque', all, now, clock, slack, limit, window);
      deque', all' := deque' + [now], all + [now];
    }
  }

  class SetupRateLimiter {
    const maxAttempts: nat
    const window: real
    var attempts: map<string, seq<real>>
    ghost var accepted: map<string, seq<real>>    // for every key, when it was admitted
    ghost var clock: real                         // the latest reading
    ghost var slack: real

    constructor (maxAttempts: nat, window: real, ghost now: real)
      ensures this.maxAttempts == maxAttempts && this.window == window && Valid()
      ensures accepted == map[] && clock == now && slack == 0.0
    {
      this.maxAttempts, this.window, attempts, accepted := maxAttempts, window, map[], map[];
      clock, slack := now, 0.0;
    }

    ghost function Accepted(key: string): seq<real>
      reads this`accepted
    {
      if key in accepted then accepted[key] else []
    }

    function Deque(key: string): seq<real>
      reads this`attempts
    {
      if key in attempts then attempts[key] else []
    }

    ghost predicate Valid()
      reads this
    {
      slack >= 0.0 && forall key :: SlotOk(Deque(key), Accepted(key), clock, slack, maxAttempts, window)
    }

    /** Refuses exactly when `maxAttempts` of the key's calls were admitted within the window that ends now. */
    method Consume(key: string, now: real) returns (admitted: bool)
      requires Valid()
      modifies this
      ensures Valid() && clock == Max(old(clock), now) && slack == Max(old(slack), old(clock) - now)
      ensures Decided(admitted, old(Accepted(Canonical(key))), now, window, slack, maxAttempts)
      ensures forall k ::
                Accepted(k) == if admitted && k == Canonical(key) then old(Accepted(k)) + [now] else old(Accepted(k))
    {
      var slot := Canonical(key);
      ReadClock(now);
      var deque;
      ghost var all;
      admitted, deque, all := ConsumeSlot(Deque(slot), now, Accepted(slot), clock, slack, maxAttempts, window);
      Keep(slot, deque, all);
    }

    ghost method ReadClock(now: real)
      requires Valid()
      modifies this`clock, this`slack
      ensures Valid() && clock == Max(old(clock), now) && slack == Max(old(slack), old(clock) - now)
    {
      forall key
        ensures SlotOk(Deque(key), Accepted(key), Max(clock, now), Max(slack, clock - now), maxAttempts, window)
      {
        SlotLater(Deque(key), Accepted(key), clock, slack, now, maxAttempts, window);
      }
      clock, slack := Max(clock, now), Max(slack, clock - now);
    }

    method Keep(slot: string, deque: seq<real>, ghost all: seq<real>)
      requires Valid() && SlotOk(deque, all, clock, slack, maxAttempts, window)
      modifies this`attempts, this`accepted
      ensures Valid() && attempts == old(attempts)[slot := deque]
      ensures forall k :: Accepted(k) == if k == slot then all else old(Accepted(k))
    {
      attempts := attempts[slot := deque];
      accepted := accepted[slot := all];
      forall key ensures SlotOk(Deque(key), Accepted(key), clock, slack, maxAttempts, window) {
        if key != slot { assert Deque(key) == old(Deque(key)) && Accepted(key) == old(Accepted(key)); }
      }
    }
  }

  // ----------------------------------------------------------- login limiter

  type Slots = map<string, seq<real>>

  /** The slots without expired times, and without the slots left empty. */
  function Current(slots: Slots, now: real, window: real): Slots {
    map k | k in slots && Popped(slots[k], now, window) != [] :: Popped(slots[k], now, window)
  }

  /** No deque is empty or longer than the limit, however late the readings. */
  ghost predicate DequesOk(slots: Slots, maxAttempts: nat) {
    forall k :: k in slots ==> slots[k] != [] && |slots[k]| <= maxAttempts
  }

  ghost predicate InOrder(slots: Slots, clock: real, slack: real) {
    forall k :: k in slots ==> UpTo(slots[k], clock, slack)
  }

  predicate Fits(keys: set<string>, maxClients: nat) {
    |keys - {OVERFLOW}| <= maxClients
  }

  /** The deques are in bounds, and at most one slot is beyond the cap, for overflow. */
  ghost predicate SlotsOk(slots: Slots, maxAttempts: nat, maxClients: nat) {
    DequesOk(slots, maxAttempts) && Fits(slots.Keys, maxClients)
  }

  lemma SlotsBounded(slots: Slots, maxAttempts: nat, maxClients: nat)
    requires SlotsOk(slots, maxAttempts, maxClients)
    ensures |slots.Keys| <= maxClients + 1
  {
    SubsetSize(slots.Keys, (slots.Keys - {OVERFLOW}) + {OVERFLOW});
  }

  lemma FitsFewer(a: set<string>, b: set<string>, maxClients: nat)
    requires a <= b && Fits(b, maxClients)
    ensures Fits(a, maxClients)
  {
    SubsetSize(a - {OVERFLOW}, b - {OVERFLOW});
  }

  lemma FitsMore(keys: set<string>, key: string, maxClients: nat)
    requires Fits(keys, maxClients) && (key == OVERFLOW || key in keys || |keys| < maxClients)
    ensures Fits(keys + {key}, maxClients)
  {
    var others := keys - {OVERFLOW};
    if key == OVERFLOW || key in keys {
      assert keys + {key} - {OVERFLOW} == others;
    } else {
      SubsetSize(others, keys);
      assert keys + {key} - {OVERFLOW} == others + {key};
    }
  }

  lemma CurrentOk(slots: Slots, now: real, window: real, maxAttempts: nat, maxClients: nat)
    requires SlotsOk(slots, maxAttempts, maxClients)
    ensures SlotsOk(Current(slots, now, window), maxAttempts, maxClients)
  {
    var after := Current(slots, now, window);
    forall k | k in after ensures after[k] != [] && |after[k]| <= maxAttempts {
      PoppedShorter(slots[k], now, window);
    }
    FitsFewer(after.Keys, slots.Keys, maxClients);
  }

  /** Pruning keeps the order; what it drops has left the window, and what it leaves is inside but for the slack. */
  lemma CurrentInOrder(slots: Slots, clock: real, slack: real, now: real, window: real)
    requires InOrder(slots, clock, slack)
    ensures InOrder(Current(slots, now, window), Max(clock, now), Max(slack, clock - now))
    ensures forall k, i :: k in Current(slots, now, window) && 0 <= i < |Current(slots, now, window)[k]| ==>
              now - Current(slots, now, window)[k][i] < window + slack
  {
    var after := Current(slots, now, window);
    forall k | k in after
      ensures UpTo(after[k], Max(clock, now), Max(slack, clock - now))
      ensures forall i :: 0 <= i < |after[k]| ==> now - after[k][i] < window + slack
    {
      PoppedFacts(slots[k], now, window, slack);
    }
  }

  /** `_key_locked`. */
  function SlotKey(slots: Slots, key: string, maxClients: nat): string {
    if Canonical(key) !in slots && |slots.Keys| >= maxClients then OVERFLOW else Canonical(key)
  }

  /** The slots after one more failure in the slot the key falls into, unless that slot is full. */
  function Counted(slots: Slots, key: string, now: real, maxAttempts: nat, maxClients: nat): Slots {
    var slot := SlotKey(slots, key, maxClients);
    var deque := if slot in slots then slots[slot] else [];
    slots[slot := if |deque| < maxAttempts then deque + [now] else deque]
  }

  lemma CountedDeques(slots: Slots, slot: string, deque: seq<real>, maxAttempts: nat)
    requires DequesOk(slots, maxAttempts) && 0 < |deque| <= maxAttempts
    ensures DequesOk(slots[slot := deque], maxAttempts)
  {
  }

  lemma KeptOk(slots: Slots, key: string, deque: seq<real>, maxAttempts: nat, maxClients: nat)
    requires SlotsOk(slots, maxAttempts, maxClients) && 0 < |deque| <= maxAttempts
    ensures SlotsOk(slots[SlotKey(slots, key, maxClients) := deque], maxAttempts, maxClients)
  {
    CountedDeques(slots, SlotKey(slots, key, maxClients), deque, maxAttempts);
    SlotFits(slots, key, deque, maxClients);
  }

  lemma CountedOk(slots: Slots, key: string, now: real, maxAttempts: nat, maxClients: nat)
    requires SlotsOk(slots, maxAttempts, maxClients) && maxAttempts >= 1
    ensures SlotsOk(Counted(slots, key, now, maxAttempts, maxClients), maxAttempts, maxClients)
  {
    var slot := SlotKey(slots, key, maxClients);
    var deque := if slot in slots then slots[slot] else [];
    KeptOk(slots, key, if |deque| < maxAttempts then deque + [now] else deque, maxAttempts, maxClients);
  }

  lemma CountedInOrder(slots: Slots, key: string, now: real, clock: real, slack: real, maxAttempts: nat,
                       maxClients: nat)
    requires InOrder(slots, clock, slack) && now <= clock <= now + slack
    ensures InOrder(Counted(slots, key, now, maxAttempts, maxClients), clock, slack)
  {
    var slot := SlotKey(slots, key, maxClients);
    var deque := if slot in slots then slots[slot] else [];
    assert UpTo(deque, clock, slack);
    assert UpTo(deque + [now], clock, slack);
  }

  lemma SlotFits(slots: Slots, key: string, deque: seq<real>, maxClients: nat)
    requires Fits(slots.Keys, maxClients)
    ensures Fits(slots[SlotKey(slots, key, maxClients) := deque].Keys, maxClients)
  {
    var slot := SlotKey(slots, key, maxClients);
    FitsMore(slots.Keys, slot, maxClients);
    FitsFewer(slots[slot := deque].Keys, slots.Keys + {slot}, maxClients);
  }

  /**
    A full slot refuses exactly until its oldest failure is one window old.  It is not empty before all its failures
    are, and empty once its newest is, but for the slack.
  */
  lemma LockoutIff(deque: seq<real>, now: real, window: real, slack: real)
    requires Skewed(deque, slack) && deque != []
    ensures |Popped(deque, now, window)| == |deque| <==> now - deque[0] < window
    ensures Popped(deque, now, window) == [] ==> forall i :: 0 <= i < |deque| ==> now - deque[i] >= window
    ensures now - deque[|deque| - 1] >= window + slack ==> Popped(deque, now, window) == []
  {
    PoppedFacts(deque, now, window, slack);
    PoppedShorter(deque[1..], now, window);
  }

  function At(slots: Slots, slot: string): seq<real> {
    if slot in slots then slots[slot] else []
  }

  /** Each deque is what is left of the slot's history. */
  ghost predicate Histories(slots: Slots, failures: Slots, clock: real, slack: real, limit: nat, window: real) {
    forall k :: HistoryAt(slots, failures, k, clock, slack, limit, window)
  }

  ghost predicate HistoryAt(slots: Slots, failures: Slots, k: string, clock: real, slack: real, limit: nat,
                            window: real)
  {
    SlotOk(At(slots, k), At(failures, k), clock, slack, limit, window)
  }

  predicate Counts(deque: seq<real>, all: seq<real>, now: real, window: real, slack: real) {
    Recent(all, now, window - slack) <= |deque| <= Recent(all, now, window + slack)
  }

  /** The deques hold exactly the recent failures, but for the slack. */
  ghost predicate Pruned(slots: Slots, failures: Slots, now: real, window: real, slack: real) {
    forall k :: Counts(At(slots, k), At(failures, k), now, window, slack)
  }

  lemma HistoriesPruned(slots: Slots, failures: Slots, clock: real, slack: real, limit: nat, window: real, now: real)
    requires Histories(slots, failures, clock, slack, limit, window) && slack >= 0.0
    ensures var later, more := Max(clock, now), Max(slack, clock - now);
            && Histories(Current(slots, now, window), failures, later, more, limit, window)
            && Pruned(Current(slots, now, window), failures, now, window, more)
  {
    var later, more, after := Max(clock, now), Max(slack, clock - now), Current(slots, now, window);
    forall k
      ensures HistoryAt(after, failures, k, later, more, limit, window)
      ensures Counts(At(after, k), At(failures, k), now, window, more)
    {
      assert HistoryAt(slots, failures, k, clock, slack, limit, window);
      CurrentAt(slots, now, window, k);
      SlotLater(At(slots, k), At(failures, k), clock, slack, now, limit, window);
      SlotPopped(At(slots, k), At(failures, k), now, later, more, limit, window);
    }
  }

  lemma CurrentAt(slots: Slots, now: real, window: real, k: string)
    ensures At(Current(slots, now, window), k) == Popped(At(slots, k), now, window)
  {
  }

  lemma HistoriesCounted(slots: Slots, failures: Slots, clock: real, slack: real, limit: nat, window: real, now: real,
                         slot: string)
    requires Histories(slots, failures, clock, slack, limit, window) && now <= clock <= now + slack
    requires |At(slots, slot)| < limit
    ensures Histories(slots[slot := At(slots, slot) + [now]], failures[slot := At(failures, slot) + [now]],
                      clock, slack, limit, window)
  {
    var more, all := slots[slot := At(slots, slot) + [now]], failures[slot := At(failures, slot) + [now]];
    forall k ensures HistoryAt(more, all, k, clock, slack, limit, window) {
      CountedAt(slots, failures, clock, slack, limit, window, now, slot, k);
    }
  }

  lemma CountedAt(slots: Slots, failures: Slots, clock: real, slack: real, limit: nat, window: real, now: real,
                  slot: string, k: string)
    requires HistoryAt(slots, failures, k, clock, slack, limit, window) && now <= clock <= now + slack
    requires |At(slots, slot)| < limit
    ensures HistoryAt(slots[slot := At(slots, slot) + [now]], failures[slot := At(failures, slot) + [now]], k,
                      clock, slack, limit, window)
  {
    if k == slot {
      SlotAdmits(At(slots, k), At(failures, k), now, clock, slack, limit, window);
    } else {
      OtherKept(slots, slot, At(slots, slot) + [now], k);
      OtherKept(failures, slot, At(failures, slot) + [now], k);
    }
  }

  lemma OtherKept(slots: Slots, slot: string, deque: seq<real>, k: string)
    requires k != slot
    ensures At(slots[slot := deque], k) == At(slots, k) == At(slots - {slot}, k)
  {
  }

  lemma NothingHeld(clock: real, slack: real, limit: nat, window: real)
    ensures SlotOk([], [], clock, slack, limit, window)
  {
  }

  lemma HistoriesForgotten(slots: Slots, failures: Slots, clock: real, slack: real, limit: nat, window: real,
                           slot: string)
    requires Histories(slots, failures, clock, slack, limit, window)
    ensures Histories(slots - {slot}, failures - {slot}, clock, slack, limit, window)
  {
    forall k ensures HistoryAt(slots - {slot}, failures - {slot}, k, clock, slack, limit, window) {
      if k != slot {
        assert HistoryAt(slots, failures, k, clock, slack, limit, window);
        OtherKept(slots, slot, [], k);
        OtherKept(failures, slot, [], k);
      } else {
        NothingHeld(clock, slack, limit, window);
      }
    }
  }

  /** What a limiter keeps of its slots: in bounds, in order, and true to their histories. */
  ghost predicate Sound(slots: Slots, failures: Slots, clock: real, slack: real, maxAttempts: nat, window: real,
                        maxClients: nat)
  {
    && SlotsOk(slots, maxAttempts, maxClients) && InOrder(slots, clock, slack) && slack >= 0.0
    && Histories(slots, failures, clock, slack, maxAttempts, window)
  }

  lemma SoundPruned(slots: Slots, failures: Slots, clock: real, slack: real, maxAttempts: nat, window: real,
                    maxClients: nat, now: real)
    requires Sound(slots, failures, clock, slack, maxAttempts, window, maxClients)
    ensures var later, more := Max(clock, now), Max(slack, clock - now);
            && Sound(Current(slots, now, window), failures, later, more, maxAttempts, window, maxClients)
            && Pruned(Current(slots, now, window), failures, now, window, more)
  {
    CurrentOk(slots, now, window, maxAttempts, maxClients);
    CurrentInOrder(slots, clock, slack, now, window);
    HistoriesPruned(slots, failures, clock, slack, maxAttempts, window, now);
  }

  lemma SoundCounted(slots: Slots, failures: Slots, clock: real, slack: real, maxAttempts: nat, window: real,
                     maxClients: nat, key: string, now: real)
    requires Sound(slots, failures, clock, slack, maxAttempts, window, maxClients)
    requires now <= clock <= now + slack && maxAttempts >= 1
    ensures var slot := SlotKey(slots, key, maxClients);
            Sound(Counted(slots, key, now, maxAttempts, maxClients),
                  if |At(slots, slot)| < maxAttempts then failures[slot := At(failures, slot) + [now]] else failures,
                  clock, slack, maxAttempts, window, maxClients)
  {
    var slot := SlotKey(slots, key, maxClients);
    CountedOk(slots, key, now, maxAttempts, maxClients);
    CountedInOrder(slots, key, now, clock, slack, maxAttempts, maxClients);
    if |At(slots, slot)| < maxAttempts {
      HistoriesCounted(slots, failures, clock, slack, maxAttempts, window, now, slot);
    } else {
      assert Counted(slots, key, now, maxAttempts, maxClients) == slots;
    }
  }

  lemma SoundForgotten(slots: Slots, failures: Slots, clock: real, slack: real, maxAttempts: nat, window: real,
                       maxClients: nat, slot: string)
    requires Sound(slots, failures, clock, slack, maxAttempts, window, maxClients)
    ensures Sound(slots - {slot}, failures - {slot}, clock, slack, maxAttempts, window, maxClients)
  {
    FitsFewer((slots - {slot}).Keys, slots.Keys, maxClients);
    HistoriesForgotten(slots, failures, clock, slack, maxAttempts, window, slot);
  }

  /** The slots with a failure within the window that ends now. */
  function Live(failures: Slots, now: real, window: real): set<string> {
    set k | k in failures && Recent(failures[k], now, window) > 0
  }

  /** A client's failures count in a slot of its own while that has a recent one or there is room for another. */
  function SlotFor(failures: Slots, key: string, now: real, window: real, maxClients: nat): string {
    var own := if |key| > 256 then key[..256] else key;
    var live := Live(failures, now, window);
    if own in live || |live| < maxClients then own else "__overflow__"
  }

  /** The slot is one of the two the key can fall into; the right one, if all readings came in order. */
  predicate FallsInto(slot: string, failures: Slots, key: string, now: real, window: real, slack: real,
                      maxClients: nat)
  {
    && slot in {if |key| > 256 then key[..256] else key, "__overflow__"}
    && (slack == 0.0 ==> slot == SlotFor(failures, key, now, window, maxClients))
  }

  lemma PrunedIsLive(slots: Slots, failures: Slots, key: string, now: real, window: real, slack: real, maxClients: nat,
                     maxAttempts: nat)
    requires Pruned(slots, failures, now, window, slack) && DequesOk(slots, maxAttempts)
    ensures FallsInto(SlotKey(slots, key, maxClients), failures, key, now, window, slack, maxClients)
  {
    if slack == 0.0 {
      assert window - slack == window && window + slack == window;
      forall k ensures k in slots.Keys <==> k in Live(failures, now, window) {
        assert Counts(At(slots, k), At(failures, k), now, window, slack);
      }
      assert slots.Keys == Live(failures, now, window);
    }
  }

  lemma DecidesSlot(slots: Slots, failures: Slots, slot: string, now: real, window: real, slack: real, limit: nat)
    requires Pruned(slots, failures, now, window, slack)
    ensures Decided(|At(slots, slot)| < limit, At(failures, slot), now, window, slack, limit)
  {
    assert Counts(At(slots, slot), At(failures, slot), now, window, slack);
    DecidedBy(|At(slots, slot)|, At(failures, slot), now, window, slack, limit);
  }

  class LoginRateLimiter {
    const maxAttempts: nat
    const window: real
    const maxClients: nat
    var attempts: Slots
    ghost var failures: Slots     // for every slot, the failures counted in it since it was last reset
    ghost var clock: real         // the latest reading
    ghost var slack: real

    /** None of the limits may be below one. */
    constructor (maxAttempts: nat, window: real, maxClients: nat, ghost now: real)
      requires maxAttempts >= 1 && window > 0.0 && maxClients >= 1
      ensures this.maxAttempts == maxAttempts && this.window == window && this.maxClients == maxClients
      ensures Valid() && attempts == map[] && failures == map[] && clock == now && slack == 0.0
    {
      this.maxAttempts, this.window, this.maxClients, attempts := maxAttempts, window, maxClients, map[];
      failures, clock, slack := map[], now, 0.0;
    }

    ghost predicate Valid()
      reads this
    {
      && maxAttempts >= 1 && window > 0.0
      && Sound(attempts, failures, clock, slack, maxAttempts, window, maxClients)
    }

    /** What reading the clock leaves behind. */
    twostate predicate Read(now: real)
      reads this
    {
      clock == Max(old(clock), now) && slack == Max(old(slack), old(clock) - now)
    }

    /** `_prune_locked`, client by client. */
    method PruneLocked(now: real)
      requires Valid()
      modifies this
      ensures Valid() && Read(now) && attempts == Current(old(attempts), now, window)
      ensures failures == old(failures) && Pruned(attempts, failures, now, window, slack)
    {
      SoundPruned(attempts, failures, clock, slack, maxAttempts, window, maxClients, now);
      clock, slack := Max(clock, now), Max(slack, clock - now);
      PopAll(now);
    }

    method PopAll(now: real)
      modifies this`attempts
      ensures attempts == Current(old(attempts), now, window)
    {
      var rest := attempts.Keys;
      while rest != {}
        invariant rest <= old(attempts).Keys
        invariant Halfway(old(attempts), attempts, rest, now)
        decreases rest
      {
        var client :| client in rest;
        var left := PopExpired(attempts[client], now, window);
        HalfwayStep(old(attempts), attempts, rest, client, now);
        rest := rest - {client};
        attempts := if left == [] then attempts - {client} else attempts[client := left];
      }
    }

    /** The clients still to be visited are as they were, the others are pruned. */
    ghost predicate Halfway(before: Slots, slots: Slots, rest: set<string>, now: real) {
      var goal := Current(before, now, window);
      && (forall k :: k in rest ==> k in before && k in slots && slots[k] == before[k])
      && (forall k :: k in slots && k !in rest ==> k in goal && slots[k] == goal[k])
      && (forall k :: k in goal ==> k in slots)
    }

    lemma HalfwayStep(before: Slots, slots: Slots, rest: set<string>, client: string, now: real)
      requires Halfway(before, slots, rest, now) && client in rest
      ensures var left := Popped(slots[client], now, window);
              Halfway(before, if left == [] then slots - {client} else slots[client := left], rest - {client}, now)
    {
    }

    /**
      Refuses exactly when `maxAttempts` failures counted in the slot the key falls into lie within the window that ends
      now, and forgets none of them.
    */
    method Check(key: string, now: real) returns (admitted: bool, ghost slot: string)
      requires Valid()
      modifies this
      ensures Valid() && Read(now) && failures == old(failures)
      ensures attempts == Current(old(attempts), now, window) && slot == SlotKey(attempts, key, maxClients)
      ensures admitted <==> slot !in attempts || |attempts[slot]| < maxAttempts
      ensures FallsInto(slot, failures, key, now, window, slack, maxClients)
      ensures Decided(admitted, At(failures, slot), now, window, slack, maxAttempts)
    {
      PruneLocked(now);
      var mine := SlotKey(attempts, key, maxClients);
      slot := mine;
      PrunedIsLive(attempts, failures, key, now, window, slack, maxClients, maxAttempts);
      DecidesSlot(attempts, failures, slot, now, window, slack, maxAttempts);
      admitted := mine !in attempts || |attempts[mine]| < maxAttempts;
    }

    /** A failure is counted in the slot the key falls into, unless that is full of recent ones; and in no other. */
    method RecordFailure(key: string, now: real) returns (ghost slot: string, ghost counted: bool)
      requires Valid()
      modifies this
      ensures Valid() && Read(now)
      ensures attempts == Counted(Current(old(attempts), now, window), key, now, maxAttempts, maxClients)
      ensures slot == SlotKey(Current(old(attempts), now, window), key, maxClients)
      ensures FallsInto(slot, old(failures), key, now, window, slack, maxClients)
      ensures Decided(counted, At(old(failures), slot), now, window, slack, maxAttempts)
      ensures failures == if counted then old(failures)[slot := At(old(failures), slot) + [now]] else old(failures)
    {
      PruneLocked(now);
      slot := SlotKey(attempts, key, maxClients);
      PrunedIsLive(attempts, failures, key, now, window, slack, maxClients, maxAttempts);
      DecidesSlot(attempts, failures, slot, now, window, slack, maxAttempts);
      counted := |At(attempts, slot)| < maxAttempts;
      Count(key, now);
    }

    method Count(key: string, now: real)
      requires Valid() && now <= clock <= now + slack
      modifies this`attempts, this`failures
      ensures Valid() && attempts == Counted(old(attempts), key, now, maxAttempts, maxClients)
      ensures var slot := SlotKey(old(attempts), key, maxClients);
              failures == if |At(old(attempts), slot)| < maxAttempts
                          then old(failures)[slot := At(old(failures), slot) + [now]] else old(failures)
    {
      SoundCounted(attempts, failures, clock, slack, maxAttempts, window, maxClients, key, now);
      ghost var slot := SlotKey(attempts, key, maxClients);
      if |At(attempts, slot)| < maxAttempts { failures := failures[slot := At(failures, slot) + [now]]; }
      Append(key, now);
    }

    method Append(key: string, now: real)
      modifies this`attempts
      ensures attempts == Counted(old(attempts), key, now, maxAttempts, maxClients)
    {
      var slot := SlotKey(attempts, key, maxClients);
      var deque := if slot in attempts then attempts[slot] else [];
      if |deque| < maxAttempts { deque := deque + [now]; }
      attempts := attempts[slot := deque];
    }

    /** A success forgets the failures of the slot the key falls into, and no other. */
    method ResetOnSuccess(key: string, now: real) returns (ghost slot: string)
      requires Valid()
      modifies this
      ensures Valid() && Read(now)
      ensures var current := Current(old(attempts), now, window);
              slot == SlotKey(current, key, maxClients) && attempts == current - {slot}
      ensures FallsInto(slot, old(failures), key, now, window, slack, maxClients)
      ensures failures == old(failures) - {slot}
    {
      PruneLocked(now);
      PrunedIsLive(attempts, failures, key, now, window, slack, maxClients, maxAttempts);
      var mine := SlotKey(attempts, key, maxClients);
      slot := mine;
      Forget(mine);
    }

    method Forget(slot: string)
      requires Valid()
      modifies this`attempts, this`failures
      ensures Valid() && attempts == old(attempts) - {slot} && failures == old(failures) - {slot}
    {
      SoundForgotten(attempts, failures, clock, slack, maxAttempts, window, maxClients, slot);
      Drop(slot);
    }

    method Drop(slot: string)
      modifies this`attempts, this`failures
      ensures attempts == old(attempts) - {slot} && failures == old(failures) - {slot}
    {
      attempts, failures := attempts - {slot}, failures - {slot};
    }
  }
}
