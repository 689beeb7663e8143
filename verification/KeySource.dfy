/** The key source of internal/auth/jwks.go: callers share one fetch at a time.
    Every critical section is one step; any interleaving of steps is a run. */
module KeySource {
  import opened Options

  type Channel = nat

  type KeySet = set<string>

  /** Where the goroutine of a fetch is: its channel is closed after the lock is released. */
  datatype Phase = Fetching | Stored | Done

  /** The source's fields, then what happened so far: the goroutine of every
      channel, the channels given to callers, the fetch starts and the closed channels. */
  datatype State = State(set_: Option<KeySet>, fetchedAt: int, lastAttempt: Option<int>, inflight: Option<Channel>,
                         closed: bool,
                         phases: map<Channel, Phase>, handed: set<Channel>, starts: seq<int>, closes: seq<Channel>)

  datatype Config = Config(refreshInterval: int, maxAge: int)

  datatype Step =
    | KeysEnters(kid: string, now: int, start: int) // the clock at the staleness check and at a fetch start
    | KeysLeaves
    | FetchStores(done: Channel, fetched: Option<KeySet>, now: int)
    | FetchCloses(done: Channel)
    | Closes

  const NEW := State(None, 0, None, None, false, map[], {}, [], [])

  /** startFetchLocked: joins the running fetch, starts one, or does nothing. */
  ghost predicate StartsFetch(cfg: Config, s: State, now: int, t: State, done: Option<Channel>) {
    if s.inflight.Some? then
      done == s.inflight && t == s.(handed := s.handed + {s.inflight.value})
    else if s.lastAttempt.Some? && now - s.lastAttempt.value < cfg.refreshInterval then
      done == None && t == s
    else
      && done.Some? && done.value !in s.phases
      && t == s.(lastAttempt := Some(now), inflight := done, phases := s.phases[done.value := Fetching],
                 handed := s.handed + {done.value}, starts := s.starts + [now])
  }

  predicate Serves(s: State, kid: string) {
    s.set_.Some? && (kid == "" || kid in s.set_.value)
  }

  ghost predicate Next(cfg: Config, s: State, step: Step, t: State) {
    match step
    case KeysEnters(kid, now, start) =>
      if s.closed || (Serves(s, kid) && now - s.fetchedAt < cfg.maxAge) then t == s
      else exists done :: StartsFetch(cfg, s, start, t, done)
    case KeysLeaves => t == s
    case FetchStores(done, fetched, now) =>
      && done in s.phases && s.phases[done] == Fetching
      && (fetched.Some? ==> fetched.value != {})
      && t == s.(set_ := if fetched.Some? then fetched else s.set_, fetchedAt := if fetched.Some? then now
        else s.fetchedAt,
                 inflight := None, phases := s.phases[done := Stored])
    case FetchCloses(done) =>
      && done in s.phases && s.phases[done] == Stored
      && t == s.(phases := s.phases[done := Done], closes := s.closes + [done])
    case Closes => t == s.(closed := true)
  }

  /** The states of a run of steps. */
  ghost predicate IsRun(cfg: Config, states: seq<State>, steps: seq<Step>) {
    && |states| == |steps| + 1
    && forall i :: 0 <= i < |steps| ==> Next(cfg, states[i], steps[i], states[i + 1])
  }

  ghost predicate IsSafe(cfg: Config, s: State) {
    // At most one fetch runs, and it owns inflight.
    && (forall c :: c in s.phases ==> (s.phases[c] == Fetching <==> s.inflight == Some(c)))
    && (s.inflight.Some? ==> s.inflight.value in s.phases)
    // Fetch starts lie refreshInterval apart.
    && (s.lastAttempt == if s.starts == [] then None else Some(s.starts[|s.starts| - 1]))
    && (forall i :: 0 < i < |s.starts| ==> s.starts[i] - s.starts[i - 1] >= cfg.refreshInterval)
    // One start per channel.
    && |s.starts| == |s.phases|
    // A loaded set is not empty.
    && (s.set_.Some? ==> s.set_.value != {})
    // Every channel is a fetch's, and closed once, when its goroutine is done.
    && s.handed <= s.phases.Keys
    && (forall c :: c in s.closes <==> c in s.phases && s.phases[c] == Done)
    && (forall i, j :: 0 <= i < j < |s.closes| ==> s.closes[i] != s.closes[j])
  }

  lemma NewIsSafe(cfg: Config)
    ensures IsSafe(cfg, NEW)
  {
  }

  lemma StartIsSafe(cfg: Config, s: State, now: int, t: State, done: Option<Channel>)
    requires IsSafe(cfg, s) && StartsFetch(cfg, s, now, t, done)
    ensures IsSafe(cfg, t)
    ensures done.Some? ==> done.value in t.handed && t.inflight == done
    ensures done == None ==> t == s && t.inflight == None
  {
    if s.inflight.None? && done.Some? {
      assert t.phases.Keys == s.phases.Keys + {done.value};
    }
  }

  lemma StepIsSafe(cfg: Config, s: State, step: Step, t: State)
    requires IsSafe(cfg, s) && Next(cfg, s, step, t)
    ensures IsSafe(cfg, t)
  {
    match step
    case KeysEnters(kid, now, start) =>
      if t != s {
        var done :| StartsFetch(cfg, s, start, t, done);
        StartIsSafe(cfg, s, start, t, done);
      }
    case KeysLeaves =>
    case FetchStores(done, fetched, now) =>
      assert t.phases.Keys == s.phases.Keys;
    case FetchCloses(done) =>
      assert t.phases.Keys == s.phases.Keys;
      assert forall i :: 0 <= i < |s.closes| ==> s.closes[i] in s.closes;
    case Closes =>
  }

  /** Every reachable state is safe. */
  lemma {:induction false} RunIsSafe(cfg: Config, states: seq<State>, steps: seq<Step>)
    requires IsRun(cfg, states, steps) && states[0] == NEW
    ensures forall i :: 0 <= i < |states| ==> IsSafe(cfg, states[i])
    decreases |steps|
  {
    hide Next, IsSafe;
    if steps == [] {
      NewIsSafe(cfg);
    } else {
      var n := |steps| - 1;
      assert states[..n + 1][0] == NEW;
      RunIsSafe(cfg, states[..n + 1], steps[..n]);
      assert states[..n + 1][n] == states[n];
      StepIsSafe(cfg, states[n], steps[n], states[n + 1]);
      forall i | 0 <= i < |states| ensures IsSafe(cfg, states[i]) {
        assert i <= n ==> states[..n + 1][i] == states[i];
      }
    }
  }

  /** What no later step undoes: t may come after s. */
  ghost predicate Later(s: State, t: State) {
    && s.starts <= t.starts && s.closes <= t.closes && s.handed <= t.handed
    && (s.set_.Some? ==> t.set_.Some?)
    && (s.closed ==> t.closed && t.starts == s.starts && t.phases.Keys == s.phases.Keys)
  }

  /** Over a whole run nothing is undone: a loaded set stays until a newer one
      comes, closed channels stay closed, and after Close no fetch starts. */
  lemma {:induction false} NothingIsUndone(cfg: Config, states: seq<State>, steps: seq<Step>, i: nat, j: nat)
    requires IsRun(cfg, states, steps) && i <= j < |states|
    ensures Later(states[i], states[j])
    decreases j
  {
    if i < j {
      NothingIsUndone(cfg, states, steps, i, j - 1);
      var s, step, t := states[j - 1], steps[j - 1], states[j];
      assert Next(cfg, s, step, t);
      StepIsLater(cfg, s, step, t);
    }
  }

  lemma StepIsLater(cfg: Config, s: State, step: Step, t: State)
    requires Next(cfg, s, step, t)
    ensures Later(s, t)
  {
    if step.FetchStores? || step.FetchCloses? {
      assert t.phases.Keys == s.phases.Keys;
    }
  }

  /** Any n + 1 successive fetch starts take n refresh intervals at least. */
  lemma {:induction false} StartsAreSpaced(cfg: Config, s: State, i: nat, j: nat)
    requires IsSafe(cfg, s) && i <= j < |s.starts|
    ensures s.starts[j] - s.starts[i] >= (j - i) * cfg.refreshInterval
    decreases j
  {
    if i < j {
      StartsAreSpaced(cfg, s, i, j - 1);
      assert (j - i) * cfg.refreshInterval == (j - 1 - i) * cfg.refreshInterval + cfg.refreshInterval;
    }
  }

  /** Whoever waits is woken: while the channel of a caller is open, the goroutine
      that closes it still has a step to take, and that step is possible. */
  lemma WaitersAreWoken(cfg: Config, s: State, c: Channel)
    requires IsSafe(cfg, s) && c in s.handed && c !in s.closes
    ensures s.phases[c] == Stored ==>
        Next(cfg, s, FetchCloses(c), s.(phases := s.phases[c := Done], closes := s.closes + [c]))
    ensures s.phases[c] == Fetching ==>
        s.inflight == Some(c) && Next(cfg, s, FetchStores(c, None, 0),
                                      s.(inflight := None, phases := s.phases[c := Stored]))
    ensures s.phases[c] != Done
  {
  }

  /** Once no goroutine is left, every channel ever given to a caller was closed exactly once. */
  lemma EveryoneWasWoken(cfg: Config, states: seq<State>, steps: seq<Step>, i: nat, c: Channel)
    requires IsRun(cfg, states, steps) && states[0] == NEW && i < |states|
    requires forall d :: d in states[i].phases ==> states[i].phases[d] == Done
    requires c in states[i].handed
    ensures multiset(states[i].closes)[c] == 1
  {
    hide Next, IsRun;
    RunIsSafe(cfg, states, steps);
    var closes := states[i].closes;
    assert c in closes;
    hide IsSafe;
    ClosedOnce(closes, c);
  }

  lemma ClosedOnce(closes: seq<Channel>, c: Channel)
    requires c in closes && forall i, j :: 0 <= i < j < |closes| ==> closes[i] != closes[j]
    ensures multiset(closes)[c] == 1
  {
    var k :| 0 <= k < |closes| && closes[k] == c;
    assert closes == closes[..k] + [c] + closes[k + 1..];
    assert c !in closes[..k] && c !in closes[k + 1..];
    assert multiset(closes) == multiset(closes[..k]) + multiset{c} + multiset(closes[k + 1..]);
  }

  /** Close returns when every goroutine is done; from then on nothing changes. */
  lemma {:induction false} ClosedIsFinal(cfg: Config, states: seq<State>, steps: seq<Step>, j: nat)
    requires IsRun(cfg, states, steps) && IsSafe(cfg, states[0]) && j < |states|
    requires states[0].closed && forall c :: c in states[0].phases ==> states[0].phases[c] == Done
    ensures states[j] == states[0] && states[0].inflight == None && states[0].handed <= states[0].phases.Keys
    ensures forall c :: c in states[0].handed ==> c in states[0].closes
    decreases j
  {
    if j > 0 {
      ClosedIsFinal(cfg, states, steps, j - 1);
      assert Next(cfg, states[j - 1], steps[j - 1], states[j]);
    }
  }

  /** A caller that finds no set, none with kid or one too old, while the source is open and no fetch runs. */
  ghost predicate Wants(cfg: Config, s: State, step: Step) {
    && step.KeysEnters? && !s.closed && s.inflight.None?
    && (s.set_.None? || (step.kid != "" && step.kid !in s.set_.value) || step.now - s.fetchedAt >= cfg.maxAge)
  }

  /** Two such callers a refresh interval apart, the first of which no attempt kept from
      fetching, see two fetches start. */
  lemma StartsAgain(cfg: Config, states: seq<State>, steps: seq<Step>, j: nat, k: nat)
    requires IsRun(cfg, states, steps) && states[0] == NEW && j < k < |steps|
    requires Wants(cfg, states[j], steps[j]) && Wants(cfg, states[k], steps[k])
    requires states[j].lastAttempt.None? || steps[j].start - states[j].lastAttempt.value >= cfg.refreshInterval
    requires steps[k].start - steps[j].start >= cfg.refreshInterval
    ensures |states[k + 1].starts| >= |states[j].starts| + 2
  {
    hide *;
    StepOf(cfg, states, steps, j);
    StepOf(cfg, states, steps, k);
    FirstStart(cfg, states[j], steps[j], states[j + 1]);
    NothingIsUndone(cfg, states, steps, j + 1, k);
    NothingIsUndone(cfg, states, steps, k, k + 1);
    if |states[k].starts| == |states[j].starts| + 1 {
      assert states[k].starts == states[j + 1].starts;
      LastIsAttempt(cfg, states[k]);
      FirstStart(cfg, states[k], steps[k], states[k + 1]);
    }
  }

  lemma StepOf(cfg: Config, states: seq<State>, steps: seq<Step>, i: nat)
    requires IsRun(cfg, states, steps) && states[0] == NEW && i < |steps|
    ensures |states| == |steps| + 1 && IsSafe(cfg, states[i]) && Next(cfg, states[i], steps[i], states[i + 1])
  {
    hide IsSafe, Next;
    RunIsSafe(cfg, states, steps);
  }

  lemma FirstStart(cfg: Config, s: State, step: Step, t: State)
    requires Next(cfg, s, step, t) && Wants(cfg, s, step)
    requires s.lastAttempt.None? || step.start - s.lastAttempt.value >= cfg.refreshInterval
    ensures t.starts == s.starts + [step.start] && t.inflight.Some?
  {
  }

  lemma LastIsAttempt(cfg: Config, s: State)
    requires IsSafe(cfg, s) && s.starts != []
    ensures s.lastAttempt == Some(s.starts[|s.starts| - 1])
  {
  }

  /** What the first critical section of Keys decides. */
  datatype Entered = Refused | Served(keys: KeySet) | Waits(done: Option<Channel>)

  datatype KeysResult = Keys(keys: KeySet) | SourceClosed | Unavailable

  class KeySource {
    const cfg: Config

    var set_: Option<KeySet>
    var fetchedAt: int
    var lastAttempt: Option<int>
    var inflight: Option<Channel>
    var closed: bool
    /** The channel the next make(chan) gives. */
    var fresh_: Channel

    ghost var phases: map<Channel, Phase>
    ghost var handed: set<Channel>
    ghost var starts: seq<int>
    ghost var closes: seq<Channel>

    ghost function Now(): State
      reads this
    {
      State(set_, fetchedAt, lastAttempt, inflight, closed, phases, handed, starts, closes)
    }

    ghost predicate Valid()
      reads this
    {
      IsSafe(cfg, Now()) && forall c :: c in phases ==> c < fresh_
    }

    constructor (cfg: Config)
      ensures Valid() && Now() == NEW && this.cfg == cfg
    {
      this.cfg := cfg;
      set_, fetchedAt, lastAttempt, inflight, closed, fresh_ := None, 0, None, None, false, 0;
      phases, handed, starts, closes := map[], {}, [], [];
    }

    /** The first critical section of Keys: serves the cached set, which starts a
        refresh when stale, or joins or starts a fetch. */
    method Enter(kid: string, now: int, start: int) returns (r: Entered)
      requires Valid()
      modifies this
      ensures Valid() && Next(cfg, old(Now()), KeysEnters(kid, now, start), Now())
      ensures r == Refused <==> old(closed)
      ensures r.Served? <==> !old(closed) && Serves(old(Now()), kid)
      ensures r.Served? ==> set_ == Some(r.keys) && (kid == "" || kid in r.keys)
      ensures r.Waits? && r.done.Some? ==> r.done == inflight && r.done.value in handed
      ensures r.Waits? && r.done.None? ==> inflight == None && starts == old(starts)
      // Without a set that has kid and is young enough a fetch starts, unless one runs or was tried lately.
      ensures !old(closed) && old(inflight).None?
              && (old(set_).None? || (kid != "" && kid !in old(set_).value) || now - old(fetchedAt) >= cfg.maxAge)
              && (old(lastAttempt).None? || start - old(lastAttempt).value >= cfg.refreshInterval) ==>
                && starts == old(starts) + [start] && lastAttempt == Some(start) && inflight.Some?
                && inflight.value in handed && inflight.value !in old(phases)
                && (old(set_).None? || (kid != "" && kid !in old(set_).value) ==> r == Waits(inflight))
      // With such a set nothing starts.
      ensures !old(closed) && old(set_).Some? && (kid == "" || kid in old(set_).value) ==> r == Served(old(set_).value)
      ensures !old(closed) && old(set_).Some? && (kid == "" || kid in old(set_).value)
              && now - old(fetchedAt) < cfg.maxAge ==>
                starts == old(starts) && inflight == old(inflight)
      // A fetch that runs is joined by a caller that waits.
      ensures !old(closed) && old(inflight).Some? && (old(set_).None? || (kid != "" && kid !in old(set_).value)) ==>
                r == Waits(old(inflight)) && starts == old(starts)
    {
      ghost var before := Now();
      if closed {
        return Refused;
      }
      if set_.Some? && (kid == "" || kid in set_.value) {
        r := Served(set_.value);
        if now - fetchedAt >= cfg.maxAge {
          var done := StartFetchLocked(start);
          assert StartsFetch(cfg, before, start, Now(), done);
        }
        return;
      }
      var done := StartFetchLocked(start);
      assert StartsFetch(cfg, before, start, Now(), done);
      r := Waits(done);
    }

    /** Joins the running fetch, or starts one if the refresh interval allows it. */
    method StartFetchLocked(now: int) returns (done: Option<Channel>)
      requires Valid() && !closed
      modifies this
      ensures Valid() && StartsFetch(cfg, old(Now()), now, Now(), done)
      ensures set_ == old(set_)
      ensures done.Some? ==> done == inflight && done.value in handed
      ensures done.None? ==> inflight == None && starts == old(starts)
      ensures old(inflight).Some? ==> done == old(inflight) == inflight && starts == old(starts)
      ensures old(inflight).None? && (old(lastAttempt).None? || now - old(lastAttempt).value >= cfg.refreshInterval) ==>
                done.Some? && done.value !in old(phases) && starts == old(starts) + [now] && lastAttempt == Some(now)
    {
      ghost var before := Now();
      if inflight.Some? {
        handed := handed + {inflight.value};
        StartIsSafe(cfg, before, now, Now(), inflight);
        return inflight;
      }
      if lastAttempt.Some? && now - lastAttempt.value < cfg.refreshInterval {
        return None;
      }
      lastAttempt := Some(now);
      done := Some(fresh_);
      inflight := done;
      phases, handed, starts := phases[fresh_ := Fetching], handed + {fresh_}, starts + [now];
      fresh_ := fresh_ + 1;
      StartIsSafe(cfg, before, now, Now(), done);
    }

    /** The second critical section of Keys, after the wait. */
    method Leave() returns (r: KeysResult)
      requires Valid()
      ensures Next(cfg, Now(), KeysLeaves, Now())
      ensures if closed then r == SourceClosed
              else if set_.None? then r == Unavailable
              else r == Keys(set_.value) && r.keys != {}
    {
      if closed {
        return SourceClosed;
      }
      if set_.None? {
        return Unavailable;
      }
      return Keys(set_.value);
    }

    /** The critical section of fetch; an empty document counts as a failure. */
    method Store(done: Channel, document: Option<KeySet>, now: int)
      requires Valid() && done in phases && phases[done] == Fetching
      modifies this
      ensures Valid()
      ensures Next(cfg, old(Now()), FetchStores(done, if document == Some({}) then None else document, now), Now())
      ensures document.Some? && document.value != {} ==> set_ == document && fetchedAt == now
      ensures document.None? || document.value == {} ==> set_ == old(set_) && fetchedAt == old(fetchedAt)
      ensures inflight == None && lastAttempt == old(lastAttempt)
    {
      ghost var before := Now();
      var fetched := if document.Some? && document.value == {} then None else document;
      if fetched.Some? {
        set_ := fetched;
        fetchedAt := now;
      }
      inflight := None;
      phases := phases[done := Stored];
      StepIsSafe(cfg, before, FetchStores(done, fetched, now), Now());
    }

    /** close(done), after the lock was released. */
    ghost method CloseDone(done: Channel)
      requires Valid() && done in phases && phases[done] == Stored
      modifies this
      ensures Valid() && Next(cfg, old(Now()), FetchCloses(done), Now())
    {
      ghost var before := Now();
      phases, closes := phases[done := Done], closes + [done];
      StepIsSafe(cfg, before, FetchCloses(done), Now());
    }

    method Close()
      requires Valid()
      modifies this
      ensures Valid() && Next(cfg, old(Now()), Closes, Now()) && closed
    {
      closed := true;
    }
  }
}
