/** The rate limiter of internal/server/ratelimit.go. Times are nanoseconds since
    the zero time. */
module RateLimiter {
  import opened Sets
  import opened TokenBucket

  const SWEEP_EVERY := 60_000_000_000

  /** When the plain bucket is full again. */
  function FullTime(l: Limits, b: Bucket): int {
    b.at + l.Cap() - b.level
  }

  /** What the limiter holds for a key says the same as a plain bucket from `clock` on. */
  ghost predicate Agrees(l: Limits, fullAt: map<Key, int>, key: Key, b: Bucket, clock: int) {
    if key in fullAt then fullAt[key] == FullTime(l, b) || (fullAt[key] <= clock && FullTime(l, b) <= clock)
    else FullTime(l, b) <= clock
  }

  /** Every key but the evicted ones is in agreement. */
  ghost predicate AllAgree(l: Limits, fullAt: map<Key, int>, evicted: set<Key>, history: seq<Request>, clock: int) {
    forall key: Key :: key !in evicted ==> Agrees(l, fullAt, key, After(l, history, key), clock)
  }

  ghost function LastAt(history: seq<Request>): int {
    if history == [] then 0 else history[|history| - 1].at
  }

  /** At most maxKeys buckets are held (one if maxKeys is less), and they agree. */
  ghost predicate IsValid(l: Limits, maxKeys: int, fullAt: map<Key, int>, evicted: set<Key>, history: seq<Request>) {
    && l.interval >= 0
    && IsMonotone(history)
    && |fullAt| <= (if maxKeys > 1 then maxKeys else 1)
    && AllAgree(l, fullAt, evicted, history, LastAt(history))
  }

  /** With the given buckets a request of key at time t would be accepted. */
  predicate AcceptsAt(l: Limits, fullAt: map<Key, int>, key: Key, t: int) {
    (if key in fullAt && fullAt[key] >= t then fullAt[key] else t) + l.interval - t <= l.Cap()
  }

  /** Decision i is that of the plain bucket, for every key whose bucket did not make
      room before; gone[i] are those that did. */
  ghost predicate AreDecisions(l: Limits, gone: seq<set<Key>>, evicted: set<Key>, history: seq<Request>,
                               decisions: seq<bool>) {
    && |decisions| == |history| == |gone|
    && (forall i :: 0 <= i < |history| && history[i].key !in gone[i] ==> (decisions[i] <==> Accepted(l, history, i)))
    && (forall i, j :: 0 <= i <= j < |gone| ==> gone[i] <= gone[j])
    && (forall i :: 0 <= i < |gone| ==> gone[i] <= evicted)
  }

  lemma DecidesMore(l: Limits, gone: seq<set<Key>>, evicted0: set<Key>, evicted: set<Key>, history: seq<Request>,
                    decisions: seq<bool>, key: Key, now: int, ok: bool)
    requires AreDecisions(l, gone, evicted0, history, decisions) && evicted0 <= evicted
    requires key !in evicted0 ==> (ok <==> HasToken(l, After(l, history, key), now))
    ensures AreDecisions(l, gone + [evicted0], evicted, history + [Request(key, now)], decisions + [ok])
  {
    hide HasToken, After;
    var more := history + [Request(key, now)];
    forall i | 0 <= i < |more| ensures more[..i] == history[..i] && (i < |history| ==> more[i] == history[i]) {
    }
    assert more[..|history|] == history;
  }

  /** The requests of a key in [i, j) the limiter accepted. */
  ghost function Admitted(history: seq<Request>, decisions: seq<bool>, key: Key, i: nat, j: nat): nat
    requires j <= |history| == |decisions|
    decreases j
  {
    if j <= i then 0
    else Admitted(history, decisions, key, i, j - 1) + if history[j - 1].key == key && decisions[j - 1] then 1 else 0
  }

  lemma {:induction false} AdmittedIsAccepted(l: Limits, gone: seq<set<Key>>, evicted: set<Key>, history: seq<Request>,
                                              decisions: seq<bool>, key: Key, i: nat, j: nat)
    requires AreDecisions(l, gone, evicted, history, decisions) && j <= |history| && (i < j ==> key !in gone[j - 1])
    ensures Admitted(history, decisions, key, i, j) == AcceptedIn(l, history, key, i, j)
    decreases j
  {
    hide Accepted;
    if j > i {
      AdmittedIsAccepted(l, gone, evicted, history, decisions, key, i, j - 1);
    }
  }

  /** Of the requests i to j - 1 the limiter accepts at most burst + T / interval of one
      key, T the time between the two, if the key's bucket did not make room before the last. */
  lemma LimiterIsBounded(limiter: RateLimiter, key: Key, i: nat, j: nat)
    requires limiter.Valid() && limiter.limits.interval > 0 && limiter.limits.burst >= 0
    requires i < j <= |limiter.history| == |limiter.decisions| == |limiter.gone| && key !in limiter.gone[j - 1]
    ensures Admitted(limiter.history, limiter.decisions, key, i, j)
            <= limiter.limits.burst + (limiter.history[j - 1].at - limiter.history[i].at) / limiter.limits.interval
  {
    hide AcceptedIn, Admitted, AllAgree;
    AdmittedIsAccepted(limiter.limits, limiter.gone, limiter.evicted, limiter.history, limiter.decisions, key, i, j);
    RateIsBounded(limiter.limits, limiter.history, key, i, j);
  }

  /** The limiter serves the first `burst` requests of a key, however fast they come, if its
      bucket did not make room before the last of them. */
  lemma LimiterServesBurst(limiter: RateLimiter, key: Key, i: nat, j: nat)
    requires limiter.Valid() && limiter.limits.burst >= 0
    requires i < j <= |limiter.history| == |limiter.decisions| == |limiter.gone| && key !in limiter.gone[j - 1]
    requires forall n :: 0 <= n < i ==> limiter.history[n].key != key
    requires AskedIn(limiter.history, key, i, j) <= limiter.limits.burst
    ensures Admitted(limiter.history, limiter.decisions, key, i, j) == AskedIn(limiter.history, key, i, j)
  {
    hide AcceptedIn, Admitted, AskedIn, AllAgree;
    AdmittedIsAccepted(limiter.limits, limiter.gone, limiter.evicted, limiter.history, limiter.decisions, key, i, j);
    BurstIsServed(limiter.limits, limiter.history, key, i, j);
  }

  class RateLimiter {
    const limits: Limits
    const maxKeys: int

    var fullAt: map<Key, int>
    var lastSweep: int

    /** All requests so far with their decisions, and the keys whose bucket had to make
        room while in use: by now, and before each request. */
    ghost var history: seq<Request>
    ghost var decisions: seq<bool>
    ghost var evicted: set<Key>
    ghost var gone: seq<set<Key>>

    constructor (burst: int, interval: int, maxKeys: int)
      requires interval >= 0
      ensures Valid() && limits == Limits(burst, interval) && this.maxKeys == maxKeys
      ensures fullAt == map[] && history == [] && evicted == {} && gone == []
    {
      limits, this.maxKeys := Limits(burst, interval), maxKeys;
      fullAt, lastSweep := map[], 0;
      history, evicted, decisions, gone := [], {}, [], [];
    }

    ghost function Clock(): int
      reads this
    {
      LastAt(history)
    }

    ghost predicate Valid()
      reads this
    {
      IsValid(limits, maxKeys, fullAt, evicted, history) && AreDecisions(limits, gone, evicted, history, decisions)
    }

    /** The time key's bucket is full again, at least now. */
    function FullAgain(key: Key, now: int): int
      reads this`fullAt
    {
      if key in fullAt && fullAt[key] >= now then fullAt[key] else now
    }

    /** A request of key at time t would be accepted. */
    predicate Accepts(key: Key, t: int)
      reads this`fullAt
    {
      AcceptsAt(limits, fullAt, key, t)
    }

    /** Takes a token from the bucket of key, or tells the time until the next one. */
    method Allow(key: Key, now: int) returns (ok: bool, wait: int)
      requires Valid() && now >= Clock()
      modifies this
      ensures Valid() && history == old(history) + [Request(key, now)] && decisions == old(decisions) + [ok]
      ensures gone == old(gone) + [old(evicted)]
      ensures ok <==> old(Accepts(key, now))
      // Unless its bucket once had to make room, a key is served as by a plain bucket.
      ensures key !in old(evicted) ==> (ok <==> HasToken(limits, After(limits, old(history), key), now))
      // A bucket in use makes room only for a new key when maxKeys buckets are in use.
      ensures Evicts(old(fullAt), key, now, old(evicted), evicted)
      // The wait of a denial ends at the earliest time at which the key is served.
      ensures !ok ==> wait > 0 && !Accepts(key, now)
      ensures !ok && limits.Cap() >= limits.interval ==> forall t :: t >= now ==> (Accepts(key, t) <==> t >= now + wait)
      // Buckets too small for one token never serve.
      ensures !ok && limits.Cap() < limits.interval ==> forall t :: t >= now ==> !Accepts(key, t)
      ensures ok ==> wait == 0 && key in fullAt && fullAt[key] == old(FullAgain(key, now)) + limits.interval
    {
      hide *;
      Start(key, now);
      ghost var fullAt0, clock0 := fullAt, Clock();
      if now - lastSweep >= SWEEP_EVERY {
        Sweep(now);
      }
      ghost var fullAt1 := fullAt;
      AllLater(limits, fullAt0, fullAt1, evicted, history, clock0, now);
      var known := key in fullAt;
      var full := if known then fullAt[key] else 0;
      if !known || full < now {
        full := now;
      }
      FullAgainIs(fullAt0, key, now, full);
      wait := full + limits.interval - now - limits.Cap();
      if wait > 0 {
        ok := false;
        ghost var before := history;
        history := history + [Request(key, now)];
        NoneEvicted(fullAt0, key, now, evicted);
        WaitIsEarliest(key, now, wait);
        DeniedEnds(limits, maxKeys, fullAt, gone, evicted, before, decisions, key, now, full);
        decisions, gone := decisions + [ok], gone + [evicted];
        End();
        return;
      }
      EvictsAlike(fullAt0, fullAt1, key, now);
      Grant(key, now, known, full);
      ok, wait := true, 0;
    }

    /** Takes the token, making room for a new bucket when maxKeys are held. */
    method Grant(key: Key, now: int, known: bool, full: int)
      requires limits.interval >= 0 && IsMonotone(history) && LastAt(history) <= now
          && |fullAt| <= (if maxKeys > 1 then maxKeys else 1)
      requires AllAgree(limits, fullAt, evicted, history, now)
          && AreDecisions(limits, gone, evicted, history, decisions)
      requires full == FullAgain(key, now) && full + limits.interval - now <= limits.Cap() && (known <==> key in fullAt)
      modifies this
      ensures Valid() && history == old(history) + [Request(key, now)] && decisions == old(decisions) + [true]
      ensures gone == old(gone) + [old(evicted)]
      ensures key !in old(evicted) ==> HasToken(limits, After(limits, old(history), key), now)
      ensures Evicts(old(fullAt), key, now, old(evicted), evicted)
      ensures key in fullAt && fullAt[key] == full + limits.interval
    {
      hide *;
      ghost var fullAt1, evicted0, before := fullAt, evicted, history;
      FullAgainValue(key, now);
      ghost var room: set<Key> := {};
      if !known && |fullAt| >= maxKeys {
        room := MakeRoom(now);
      }
      ghost var fullAt2 := fullAt;
      fullAt := fullAt[key := full + limits.interval];
      history, evicted := before + [Request(key, now)], evicted0 + room;
      RoomIsMade(fullAt1, fullAt1, key, now, evicted0, room);
      SizeAfter(fullAt1, fullAt2, room, now, key, full + limits.interval);
      ServedEnds(limits, maxKeys, fullAt1, fullAt2, gone, evicted0, room, before, decisions, key, now, full);
      decisions, gone := decisions + [true], gone + [evicted0];
      End();
    }

    /** What can make room does not depend on a sweep. */
    lemma EvictsAlike(before: map<Key, int>, swept: map<Key, int>, key: Key, now: int)
      requires InUse(swept, now) == InUse(before, now)
      requires forall k :: k in swept ==> k in before && swept[k] == before[k]
      ensures forall e0: set<Key>, e1: set<Key> :: Evicts(swept, key, now, e0, e1) ==> Evicts(before, key, now, e0, e1)
    {
      forall e0: set<Key>, e1: set<Key> | Evicts(swept, key, now, e0, e1) ensures Evicts(before, key, now, e0, e1) {
        if e1 != e0 {
          var e :| MadeRoom(swept, key, now, e) && e1 == e0 + {e};
          assert MadeRoom(before, key, now, e);
        }
      }
    }

    lemma Start(key: Key, now: int)
      requires Valid()
      ensures limits.interval >= 0 && IsMonotone(history) && |fullAt| <= (if maxKeys > 1 then maxKeys else 1)
      ensures Clock() == LastAt(history) && AllAgree(limits, fullAt, evicted, history, LastAt(history))
      ensures AreDecisions(limits, gone, evicted, history, decisions)
      ensures Accepts(key, now) <==> AcceptsAt(limits, fullAt, key, now)
      ensures FullAgain(key, now) == if key in fullAt && fullAt[key] >= now then fullAt[key] else now
    {
      hide AreDecisions, AcceptsAt;
      Unpack(limits, maxKeys, fullAt, evicted, history);
    }

    lemma End()
      requires IsValid(limits, maxKeys, fullAt, evicted, history)
          && AreDecisions(limits, gone, evicted, history, decisions)
      ensures Valid()
    {
      hide IsValid, AreDecisions;
    }

    lemma NoneEvicted(before: map<Key, int>, key: Key, now: int, evicted0: set<Key>)
      ensures Evicts(before, key, now, evicted0, evicted0)
    {
    }

    lemma FullAgainValue(key: Key, now: int)
      ensures FullAgain(key, now) == if key in fullAt && fullAt[key] >= now then fullAt[key] else now
    {
    }

    lemma FullAgainIs(before: map<Key, int>, key: Key, now: int, full: int)
      requires full == if key in fullAt && fullAt[key] >= now then fullAt[key] else now
      requires forall k :: k in fullAt ==> k in before && fullAt[k] == before[k]
      requires forall k :: k in before && k !in fullAt ==> before[k] <= now
      ensures full == FullAgain(key, now) == if key in before && before[key] >= now then before[key] else now
      ensures AcceptsAt(limits, before, key, now) <==> full + limits.interval - now - limits.Cap() <= 0
    {
      hide Limits.Cap;
    }

    /** e was the bucket, in use, that is full again first. */
    ghost predicate MadeRoom(before: map<Key, int>, key: Key, now: int, e: Key) {
      && key !in InUse(before, now) && e in InUse(before, now)
      && (forall k :: k in InUse(before, now) ==> before[e] <= before[k])
      && |InUse(before, now)| >= maxKeys
    }

    ghost predicate Evicts(before: map<Key, int>, key: Key, now: int, evicted0: set<Key>, evicted1: set<Key>) {
      evicted1 == evicted0 || exists e :: MadeRoom(before, key, now, e) && evicted1 == evicted0 + {e}
    }

    /** Nothing, while there is room; else the bucket that is full again first. */
    ghost predicate IsRoom(inUse: map<Key, int>, room: set<Key>) {
      if |inUse| < maxKeys || inUse == map[] then room == {}
      else exists e :: e in inUse && room == {e} && forall k :: k in inUse ==> inUse[e] <= inUse[k]
    }

    /** Drops the buckets that are full again. */
    method Sweep(now: int)
      modifies this`fullAt, this`lastSweep
      ensures lastSweep == now && fullAt == InUse(old(fullAt), now)
    {
      var todo := fullAt.Keys;
      ghost var before := fullAt;
      while todo != {}
        invariant todo <= before.Keys
        invariant forall k :: k in fullAt <==> k in before && (k in todo || before[k] > now)
        invariant forall k :: k in fullAt ==> fullAt[k] == before[k]
      {
        var k :| k in todo;
        todo := todo - {k};
        if fullAt[k] <= now {
          fullAt := fullAt - {k};
        }
      }
      lastSweep := now;
      assert fullAt == InUse(before, now);
    }

    /** Frees the slot of one bucket, of one in use when all are. */
    method MakeRoom(now: int) returns (ghost room: set<Key>)
      modifies this`fullAt, this`lastSweep
      ensures lastSweep == now && fullAt == Roomed(old(fullAt), now, room)
      ensures IsRoom(InUse(old(fullAt), now), room)
    {
      Sweep(now);
      room := {};
      if |fullAt| < maxKeys {
        return;
      }
      var oldest, oldestAt, found := "", 0, false;
      var todo := fullAt.Keys;
      while todo != {}
        invariant todo <= fullAt.Keys
        invariant found <==> todo != fullAt.Keys
        invariant found ==> oldest in fullAt && oldestAt == fullAt[oldest]
        invariant found ==> forall k :: k in fullAt && k !in todo ==> oldestAt <= fullAt[k]
      {
        var k :| k in todo;
        todo := todo - {k};
        if !found || fullAt[k] < oldestAt {
          oldest, oldestAt, found := k, fullAt[k], true;
        }
      }
      if found {
        room := {oldest};
      }
      fullAt := fullAt - {oldest};
    }

    lemma WaitIsEarliest(key: Key, now: int, wait: int)
      requires limits.interval >= 0 && wait == FullAgain(key, now) + limits.interval - now - limits.Cap() > 0
      ensures !Accepts(key, now)
      ensures limits.Cap() >= limits.interval ==> forall t :: t >= now ==> (Accepts(key, t) <==> t >= now + wait)
      ensures limits.Cap() < limits.interval ==> forall t :: t >= now ==> !Accepts(key, t)
    {
      hide Limits.Cap;
    }

    lemma RoomIsMade(fullAt0: map<Key, int>, fullAt1: map<Key, int>, key: Key, now: int, evicted0: set<Key>,
                     room: set<Key>)
      requires room != {} ==>
          InUse(fullAt1, now) == InUse(fullAt0, now) && key !in fullAt1 && IsRoom(InUse(fullAt1, now), room)
      ensures Evicts(fullAt0, key, now, evicted0, evicted0 + room)
    {
      var inUse := InUse(fullAt0, now);
      if room != {} {
        var e :| e in inUse && room == {e} && forall k :: k in inUse ==> inUse[e] <= inUse[k];
        assert MadeRoom(fullAt0, key, now, e);
      } else {
        assert evicted0 + room == evicted0;
      }
    }

    lemma SizeAfter(before: map<Key, int>, roomed: map<Key, int>, room: set<Key>, now: int, key: Key, next: int)
      requires |before| <= (if maxKeys > 1 then maxKeys else 1)
      requires if key in before || |before| < maxKeys then roomed == before
               else IsRoom(InUse(before, now), room) && roomed == Roomed(before, now, room)
      ensures |roomed[key := next]| <= (if maxKeys > 1 then maxKeys else 1)
    {
      var after := roomed[key := next];
      assert after.Keys == roomed.Keys + {key};
      if key !in before && |before| >= maxKeys {
        var inUse := InUse(before, now);
        SubsetSize(inUse.Keys, before.Keys);
        assert roomed.Keys == inUse.Keys - room;
      }
    }
  }

  /** The buckets that are not full at a time. */
  function InUse(fullAt: map<Key, int>, now: int): map<Key, int> {
    map k | k in fullAt && fullAt[k] > now :: fullAt[k]
  }

  /** The buckets in use, without those that made room. */
  function Roomed(fullAt: map<Key, int>, now: int, room: set<Key>): map<Key, int> {
    InUse(fullAt, now) - room
  }

  /** Sweeping and the passing of time keep a bucket in agreement. */
  lemma AgreesLater(l: Limits, fullAt: map<Key, int>, fullAt1: map<Key, int>, key: Key, b: Bucket, clock: int, now: int)
    requires Agrees(l, fullAt, key, b, clock) && clock <= now && (fullAt1 == fullAt || fullAt1 == InUse(fullAt, now))
    ensures Agrees(l, fullAt1, key, b, now)
  {
  }

  lemma OneMore(l: Limits, history: seq<Request>, key: Key, now: int, k: Key)
    ensures After(l, history + [Request(key, now)], k) ==
            if k == key then Take(l, After(l, history, k), now) else After(l, history, k)
  {
    assert (history + [Request(key, now)])[..|history|] == history;
  }

  /** The limiter and the plain bucket decide alike, and go on agreeing. */
  lemma SameDecision(l: Limits, fullAt: map<Key, int>, key: Key, b: Bucket, now: int, full: int)
    requires Agrees(l, fullAt, key, b, now)
    requires full == if key in fullAt && fullAt[key] >= now then fullAt[key] else now
    ensures HasToken(l, b, now) <==> full + l.interval - now <= l.Cap()
    ensures HasToken(l, b, now) ==> FullTime(l, Take(l, b, now)) == full + l.interval
  {
    hide Limits.Cap;
  }

  lemma Unpack(l: Limits, maxKeys: int, fullAt: map<Key, int>, evicted: set<Key>, history: seq<Request>)
    requires IsValid(l, maxKeys, fullAt, evicted, history)
    ensures l.interval >= 0 && IsMonotone(history) && |fullAt| <= (if maxKeys > 1 then maxKeys else 1)
    ensures AllAgree(l, fullAt, evicted, history, LastAt(history))
  {
    hide AllAgree, IsMonotone, LastAt;
  }

  lemma Pack(l: Limits, maxKeys: int, fullAt: map<Key, int>, evicted: set<Key>, history: seq<Request>, key: Key,
             now: int)
    requires l.interval >= 0 && IsMonotone(history) && LastAt(history) <= now
        && |fullAt| <= (if maxKeys > 1 then maxKeys else 1)
    requires AllAgree(l, fullAt, evicted, history + [Request(key, now)], now)
    ensures IsValid(l, maxKeys, fullAt, evicted, history + [Request(key, now)])
  {
    hide AllAgree;
    assert history != [] ==> history[|history| - 1].at >= 0;
  }

  lemma AllLater(l: Limits, fullAt: map<Key, int>, fullAt1: map<Key, int>, evicted: set<Key>, history: seq<Request>,
                 clock: int, now: int)
    requires AllAgree(l, fullAt, evicted, history, clock) && clock <= now
        && (fullAt1 == fullAt || fullAt1 == InUse(fullAt, now))
    ensures AllAgree(l, fullAt1, evicted, history, now)
    ensures InUse(fullAt1, now) == InUse(fullAt, now)
    ensures forall k :: k in fullAt1 ==> k in fullAt && fullAt1[k] == fullAt[k]
    ensures forall k :: k in fullAt && k !in fullAt1 ==> fullAt[k] <= now
    ensures fullAt1.Keys <= fullAt.Keys && |fullAt1| <= |fullAt|
  {
    hide After;
    SubsetSize(fullAt1.Keys, fullAt.Keys);
    forall key: Key | key !in evicted ensures Agrees(l, fullAt1, key, After(l, history, key), now) {
      AgreesLater(l, fullAt, fullAt1, key, After(l, history, key), clock, now);
    }
  }

  lemma Denied(l: Limits, fullAt: map<Key, int>, evicted: set<Key>, history: seq<Request>, key: Key, now: int,
               full: int)
    requires AllAgree(l, fullAt, evicted, history, now)
    requires full == (if key in fullAt && fullAt[key] >= now then fullAt[key] else now)
        && full + l.interval - now > l.Cap()
    ensures key !in evicted ==> !HasToken(l, After(l, history, key), now)
    ensures AllAgree(l, fullAt, evicted, history + [Request(key, now)], now)
  {
    hide After, Agrees;
    forall k: Key | k !in evicted ensures Agrees(l, fullAt, k, After(l, history + [Request(key, now)], k), now) {
      OneMore(l, history, key, now, k);
      SameDecision(l, fullAt, k, After(l, history, k), now, if k in fullAt && fullAt[k] >= now then fullAt[k] else now);
    }
    if key !in evicted {
      SameDecision(l, fullAt, key, After(l, history, key), now, full);
    }
  }

  lemma Served(l: Limits, fullAt: map<Key, int>, fullAt2: map<Key, int>, evicted: set<Key>, room: set<Key>,
               history: seq<Request>,
               key: Key, now: int, full: int)
    requires AllAgree(l, fullAt, evicted, history, now)
    requires full == (if key in fullAt && fullAt[key] >= now then fullAt[key] else now)
        && full + l.interval - now <= l.Cap()
    requires (fullAt2 == fullAt && room == {}) || fullAt2 == Roomed(fullAt, now, room)
    ensures key !in evicted ==> HasToken(l, After(l, history, key), now)
    ensures AllAgree(l, fullAt2[key := full + l.interval], evicted + room, history + [Request(key, now)], now)
  {
    hide After, Agrees;
    forall k: Key | k !in evicted + room
      ensures Agrees(l, fullAt2[key := full + l.interval], k, After(l, history + [Request(key, now)], k), now)
    {
      OneMore(l, history, key, now, k);
      if k == key {
        SameDecision(l, fullAt, key, After(l, history, key), now, full);
        AgreesAt(l, fullAt2[key := full + l.interval], key, Take(l, After(l, history, key), now), now);
      } else {
        AgreesLater(l, fullAt, if room == {} && fullAt2 == fullAt then fullAt
          else InUse(fullAt, now), k, After(l, history, k), now, now);
        AgreesSame(l, if room == {} && fullAt2 == fullAt then fullAt
          else InUse(fullAt, now), fullAt2[key := full + l.interval], k, After(l, history, k), now);
      }
    }
    if key !in evicted {
      SameDecision(l, fullAt, key, After(l, history, key), now, full);
    }
  }

  /** After a denial. */
  lemma DeniedEnds(l: Limits, maxKeys: int, fullAt: map<Key, int>, gone: seq<set<Key>>, evicted: set<Key>,
                   history: seq<Request>, decisions: seq<bool>,
                   key: Key, now: int, full: int)
    requires l.interval >= 0 && IsMonotone(history) && LastAt(history) <= now
        && |fullAt| <= (if maxKeys > 1 then maxKeys else 1)
    requires AllAgree(l, fullAt, evicted, history, now) && AreDecisions(l, gone, evicted, history, decisions)
    requires full == (if key in fullAt && fullAt[key] >= now then fullAt[key] else now)
        && full + l.interval - now > l.Cap()
    ensures key !in evicted ==> !HasToken(l, After(l, history, key), now)
    ensures IsValid(l, maxKeys, fullAt, evicted, history + [Request(key, now)])
    ensures AreDecisions(l, gone + [evicted], evicted, history + [Request(key, now)], decisions + [false])
  {
    hide *;
    Denied(l, fullAt, evicted, history, key, now, full);
    Pack(l, maxKeys, fullAt, evicted, history, key, now);
    DecidesMore(l, gone, evicted, evicted, history, decisions, key, now, false);
  }

  /** After an accepted request. */
  lemma ServedEnds(l: Limits, maxKeys: int, fullAt: map<Key, int>, fullAt2: map<Key, int>, gone: seq<set<Key>>,
                   evicted: set<Key>,
                   room: set<Key>, history: seq<Request>, decisions: seq<bool>, key: Key, now: int, full: int)
    requires l.interval >= 0 && IsMonotone(history) && LastAt(history) <= now
    requires |fullAt2[key := full + l.interval]| <= (if maxKeys > 1 then maxKeys else 1)
    requires AllAgree(l, fullAt, evicted, history, now) && AreDecisions(l, gone, evicted, history, decisions)
    requires full == (if key in fullAt && fullAt[key] >= now then fullAt[key] else now)
        && full + l.interval - now <= l.Cap()
    requires (fullAt2 == fullAt && room == {}) || fullAt2 == Roomed(fullAt, now, room)
    ensures key !in evicted ==> HasToken(l, After(l, history, key), now)
    ensures IsValid(l, maxKeys, fullAt2[key := full + l.interval], evicted + room, history + [Request(key, now)])
    ensures AreDecisions(l, gone + [evicted], evicted + room, history + [Request(key, now)], decisions + [true])
  {
    hide *;
    Served(l, fullAt, fullAt2, evicted, room, history, key, now, full);
    Pack(l, maxKeys, fullAt2[key := full + l.interval], evicted + room, history, key, now);
    DecidesMore(l, gone, evicted, evicted + room, history, decisions, key, now, true);
  }

  lemma AgreesAt(l: Limits, fullAt: map<Key, int>, key: Key, b: Bucket, clock: int)
    requires key in fullAt && fullAt[key] == FullTime(l, b)
    ensures Agrees(l, fullAt, key, b, clock)
  {
  }

  lemma AgreesSame(l: Limits, fullAt: map<Key, int>, fullAt1: map<Key, int>, key: Key, b: Bucket, clock: int)
    requires Agrees(l, fullAt, key, b, clock)
    requires (key in fullAt1 <==> key in fullAt) && (key in fullAt ==> fullAt1[key] == fullAt[key])
    ensures Agrees(l, fullAt1, key, b, clock)
  {
  }
}
