/** A plain token bucket per key, without bound and without sweeps. One token is
    worth `interval` units of time; a bucket refills one unit per unit. */
module TokenBucket {
  type Key = string

  datatype Limits = Limits(burst: int, interval: int) {
    /** burst tokens */
    function Cap(): int {
      burst * interval
    }
  }

  datatype Request = Request(key: Key, at: int)

  /** The level of a bucket at a time. */
  datatype Bucket = Bucket(level: int, at: int)

  function Min(a: int, b: int): int {
    if a < b then a else b
  }

  function Level(l: Limits, b: Bucket, now: int): int {
    Min(l.Cap(), b.level + (now - b.at))
  }

  predicate HasToken(l: Limits, b: Bucket, now: int) {
    Level(l, b, now) >= l.interval
  }

  function Take(l: Limits, b: Bucket, now: int): Bucket {
    if HasToken(l, b, now) then Bucket(Level(l, b, now) - l.interval, now) else b
  }

  /** The bucket of a key after some requests; it starts full. */
  function After(l: Limits, history: seq<Request>, key: Key): Bucket {
    if history == [] then Bucket(l.Cap(), 0)
    else
      var last := history[|history| - 1];
      var before := After(l, history[..|history| - 1], key);
      if last.key == key then Take(l, before, last.at) else before
  }

  /** Whether request i is accepted. */
  predicate Accepted(l: Limits, history: seq<Request>, i: int)
    requires 0 <= i < |history|
  {
    HasToken(l, After(l, history[..i], history[i].key), history[i].at)
  }

  /** Times do not decrease. */
  ghost predicate IsMonotone(history: seq<Request>) {
    && (forall i :: 0 <= i < |history| ==> history[i].at >= 0)
    && (forall i, j :: 0 <= i < j < |history| ==> history[i].at <= history[j].at)
  }

  /** How many requests of a key in [i, j) are accepted. */
  ghost function AcceptedIn(l: Limits, history: seq<Request>, key: Key, i: nat, j: nat): nat
    requires j <= |history|
    decreases j
  {
    if j <= i then 0
    else AcceptedIn(l, history, key, i, j - 1) + if history[j - 1].key == key && Accepted(l, history, j - 1) then 1
      else 0
  }

  lemma AfterOneMore(l: Limits, history: seq<Request>, key: Key, j: nat)
    requires 0 < j <= |history|
    ensures After(l, history[..j], key) ==
            if history[j - 1].key == key then Take(l, After(l, history[..j - 1], key), history[j - 1].at)
            else After(l, history[..j - 1], key)
  {
    assert history[..j][..j - 1] == history[..j - 1];
  }

  lemma {:induction false} BucketIsSane(l: Limits, history: seq<Request>, key: Key, j: nat)
    requires l.interval >= 0 && l.burst >= 0 && IsMonotone(history) && j <= |history|
    ensures
      var b := After(l, history[..j], key);
      0 <= b.level <= l.Cap() && 0 <= b.at && (b.at == 0 || (j > 0 && b.at <= history[j - 1].at))
  {
    hide IsMonotone;
    assert l.Cap() >= 0 by {
      CapIsNat(l);
    }
    if j > 0 {
      AfterOneMore(l, history, key, j);
      BucketIsSane(l, history, key, j - 1);
      Later(history, j);
      hide Limits.Cap;
    }
  }

  lemma CapIsNat(l: Limits)
    requires l.interval >= 0 && l.burst >= 0
    ensures l.Cap() >= 0
  {
  }

  lemma Later(history: seq<Request>, j: nat)
    requires IsMonotone(history) && 0 < j <= |history|
    ensures history[j - 1].at >= 0 && (j > 1 ==> history[j - 2].at <= history[j - 1].at)
  {
  }

  /** What was spent since request i came out of a full bucket and the refill since. */
  lemma {:induction false} SpentIsRefilled(l: Limits, history: seq<Request>, key: Key, i: nat, j: nat)
    requires l.interval >= 0 && l.burst >= 0 && IsMonotone(history) && i < j <= |history|
    ensures
      var b := After(l, history[..j], key);
      Level(l, b, history[j - 1].at) + SpentIn(l, history, key, i, j) <= l.Cap() + history[j - 1].at - history[i].at
  {
    AfterOneMore(l, history, key, j);
    Later(history, j);
    hide IsMonotone, Limits.Cap, After;
    assert SpentIn(l, history, key, i, j) ==
           SpentIn(l, history, key, i, j - 1) + if history[j - 1].key == key && Accepted(l, history, j - 1)
             then l.interval else 0;
    if j == i + 1 {
      assert SpentIn(l, history, key, i, j - 1) == 0;
    } else {
      SpentIsRefilled(l, history, key, i, j - 1);
    }
    hide SpentIn;
  }

  ghost function SpentIn(l: Limits, history: seq<Request>, key: Key, i: nat, j: nat): int
    requires j <= |history|
    decreases j
  {
    if j <= i then 0
    else SpentIn(l, history, key, i, j - 1) + if history[j - 1].key == key && Accepted(l, history, j - 1)
      then l.interval else 0
  }

  lemma {:induction false} SpentPerRequest(l: Limits, history: seq<Request>, key: Key, i: nat, j: nat)
    requires j <= |history|
    ensures SpentIn(l, history, key, i, j) == AcceptedIn(l, history, key, i, j) * l.interval
    decreases j
  {
    hide Accepted;
    if j > i {
      SpentPerRequest(l, history, key, i, j - 1);
      OneMoreTimes(AcceptedIn(l, history, key, i, j - 1), l.interval);
    }
  }

  lemma OneMoreTimes(n: int, d: int)
    ensures (n + 1) * d == n * d + d
  {
  }

  /** n accepted requests of one key from request i to request j - 1 satisfy
      n <= burst + T / interval, T the time between the two. */
  lemma RateIsBounded(l: Limits, history: seq<Request>, key: Key, i: nat, j: nat)
    requires l.interval > 0 && l.burst >= 0 && IsMonotone(history) && i < j <= |history|
    ensures AcceptedIn(l, history, key, i, j) <= l.burst + (history[j - 1].at - history[i].at) / l.interval
  {
    hide IsMonotone, After, AcceptedIn, SpentIn;
    SpentIsRefilled(l, history, key, i, j);
    BucketIsSane(l, history, key, j);
    SpentPerRequest(l, history, key, i, j);
    Later(history, j);
    CapIsNat(l);
    hide Limits.Cap, Level;
    LevelIsNat(l, After(l, history[..j], key), history[j - 1].at);
    QuotientAtLeast(l, AcceptedIn(l, history, key, i, j), history[j - 1].at - history[i].at);
  }

  lemma LevelIsNat(l: Limits, b: Bucket, now: int)
    requires l.Cap() >= 0 && b.level >= 0 && b.at <= now
    ensures Level(l, b, now) >= 0
  {
    hide Limits.Cap;
  }

  lemma QuotientAtLeast(l: Limits, n: int, t: int)
    requires l.interval > 0 && n * l.interval <= l.Cap() + t
    ensures n <= l.burst + t / l.interval
  {
    var d := l.interval;
    var r := t / d;
    assert t == r * d + t % d;
    assert (n - l.burst - r) * d == n * d - l.burst * d - r * d;
    MulBounds(n - l.burst - r, d);
  }

  lemma MulBounds(k: int, d: int)
    requires d > 0
    ensures k >= 1 ==> k * d >= d
  {
  }

  // --- what the bucket has to serve ---

  /** How many requests of a key in [i, j) there are. */
  ghost function AskedIn(history: seq<Request>, key: Key, i: nat, j: nat): nat
    requires j <= |history|
    decreases j
  {
    if j <= i then 0 else AskedIn(history, key, i, j - 1) + if history[j - 1].key == key then 1 else 0
  }

  /** The first `burst` requests of a key are accepted, however fast they come. */
  lemma {:induction false} BurstIsServed(l: Limits, history: seq<Request>, key: Key, i: nat, j: nat)
    requires l.interval >= 0 && l.burst >= 0 && IsMonotone(history) && i <= j <= |history|
    requires (forall n :: 0 <= n < i ==> history[n].key != key) && AskedIn(history, key, i, j) <= l.burst
    ensures AcceptedIn(l, history, key, i, j) == AskedIn(history, key, i, j)
    ensures After(l, history[..j], key).level >= l.Cap() - AskedIn(history, key, i, j) * l.interval
    decreases j
  {
    hide IsMonotone;
    if j == i {
      Untouched(l, history[..i], key);
    } else {
      BurstIsServed(l, history, key, i, j - 1);
      AfterOneMore(l, history, key, j);
      BucketIsSane(l, history, key, j - 1);
      Later(history, j);
      hide After;
      var asked := AskedIn(history, key, i, j - 1);
      if history[j - 1].key == key {
        EnoughLeft(l, After(l, history[..j - 1], key), asked, history[j - 1].at);
      }
    }
  }

  lemma EnoughLeft(l: Limits, b: Bucket, asked: nat, now: int)
    requires l.interval >= 0 && asked < l.burst && b.level >= l.Cap() - asked * l.interval && b.level <= l.Cap()
        && b.at <= now
    ensures HasToken(l, b, now) && Take(l, b, now).level >= l.Cap() - (asked + 1) * l.interval
  {
    OneMoreTimes(asked, l.interval);
    var left := l.burst - asked;
    assert left * l.interval == l.burst * l.interval - asked * l.interval;
    AtLeastOne(left, l.interval);
  }

  lemma AtLeastOne(n: int, d: int)
    requires n >= 1 && d >= 0
    ensures n * d >= d
  {
  }

  lemma {:induction false} Untouched(l: Limits, history: seq<Request>, key: Key)
    requires forall n :: 0 <= n < |history| ==> history[n].key != key
    ensures After(l, history, key) == Bucket(l.Cap(), 0)
    decreases |history|
  {
    hide Limits.Cap;
    if history != [] {
      Untouched(l, history[..|history| - 1], key);
    }
  }

  /** A request an interval after the last accepted one of its key, or the first one, is accepted. */
  lemma IntervalIsEnough(l: Limits, history: seq<Request>, j: nat)
    requires l.interval >= 0 && l.burst >= 1 && IsMonotone(history) && j < |history|
    requires var b := After(l, history[..j], history[j].key); b.level == l.Cap() || history[j].at - b.at >= l.interval
    ensures Accepted(l, history, j)
  {
    BucketIsSane(l, history, history[j].key, j);
    Later(history, j + 1);
    AtLeastOne(l.burst, l.interval);
    hide After, IsMonotone;
  }
}
