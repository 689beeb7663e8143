/** What every interleaving of the registry's critical sections keeps. */
module AdhocSafety {
  import opened Options
  import opened AdhocState

  // --- one step ---

  lemma RegisterIsSafe(env: Env, s: State, thread: Thread, settings: string, now: int)
    requires IsSafe(env, s)
    ensures IsSafe(env, Register(env, s, thread, settings, now))
  {
    hide KeysCoincide, EntriesMatch, DecodersOwned, JanitorComes, AdhocName, Touch;
    var name, t := AdhocName(env, settings), Register(env, s, thread, settings, now);
    if !Refuses(env, s, settings) {
      if name in s.clusters {
        TouchIsSafe(env, s, name, now);
      } else {
        NewEntryIsSafe(env, s, thread, settings, now, t);
        KeepsOwned(s, t);
      }
    }
  }

  lemma NewEntryIsSafe(env: Env, s: State, thread: Thread, settings: string, now: int, t: State)
    requires KeysCoincide(s) && EntriesMatch(env, s) && JanitorComes(s)
    requires AdhocName(env, settings) !in s.clusters && t == Register(env, s, thread, settings, now)
    ensures KeysCoincide(t) && EntriesMatch(env, t) && JanitorComes(t)
  {
    NewKeys(env, s, thread, settings, now, t);
    var name := AdhocName(env, settings);
    assert name == ADHOC_PREFIX + env.short(env.digestOf(settings));
    assert !Refuses(env, s, settings);
    hide Refuses, AdhocName, IsAdhocName, KeysCoincide;
    assert thread in t.starters;
  }

  lemma NewKeys(env: Env, s: State, thread: Thread, settings: string, now: int, t: State)
    requires KeysCoincide(s)
    requires AdhocName(env, settings) !in s.clusters && t == Register(env, s, thread, settings, now)
    ensures KeysCoincide(t)
  {
    hide AdhocName, IsAdhocName;
  }

  lemma TouchIsSafe(env: Env, s: State, name: Name, now: int)
    requires IsSafe(env, s)
    ensures IsSafe(env, Touch(s, name, now))
    ensures Touch(s, name, now).clusters == s.clusters && Touch(s, name, now).decoders == s.decoders
    ensures Touch(s, name, now).lookups == s.lookups && Touch(s, name, now).run == s.run
  {
    hide KeysCoincide, EntriesMatch, DecodersOwned, JanitorComes;
    var t := Touch(s, name, now);
    TouchedFields(env, s, t);
    KeepsOwned(s, t);
  }

  lemma TouchedFields(env: Env, s: State, t: State)
    requires t == s.(lastUsed := t.lastUsed) && t.lastUsed.Keys == s.lastUsed.Keys
    ensures KeysCoincide(s) ==> KeysCoincide(t)
    ensures EntriesMatch(env, s) ==> EntriesMatch(env, t)
    ensures JanitorComes(s) ==> JanitorComes(t)
  {
    hide IsAdhocName;
    assert t.lastUsed == map[] ==> t.lastUsed.Keys == {};
    assert forall name :: name in t.lastUsed <==> name in t.lastUsed.Keys;
  }

  /** With the same decoders and calls in flight, more clusters are no harm. */
  lemma KeepsOwned(s: State, t: State)
    requires DecodersOwned(s) && t.decoders == s.decoders && t.lookups == s.lookups
        && s.clusters.Keys <= t.clusters.Keys
    requires s.run.Cleaning? ==> t.run == s.run
    ensures DecodersOwned(t)
  {
    forall name | name in t.decoders ensures name in t.clusters || WillDrop(t, name, t.decoders[name]) {
      assert name in s.clusters || WillDrop(s, name, s.decoders[name]);
    }
  }

  /** What is evicted of the decoders is owned by the janitor's run. */
  lemma EvictIsSafe(env: Env, s: State, cutoff: int)
    requires IsSafe(env, s) && s.run == Holding
    ensures IsSafe(env, Evict(s, cutoff))
  {
    hide KeysCoincide, EntriesMatch, DecodersOwned, JanitorComes, Evict;
    EvictKeys(env, s, cutoff);
    EvictOwned(s, cutoff);
  }

  lemma EvictKeys(env: Env, s: State, cutoff: int)
    requires KeysCoincide(s) && EntriesMatch(env, s) && JanitorComes(s) && s.run == Holding
    ensures KeysCoincide(Evict(s, cutoff)) && EntriesMatch(env, Evict(s, cutoff)) && JanitorComes(Evict(s, cutoff))
  {
    hide *;
    EvictCoincides(s, cutoff);
    EvictMatches(env, s, cutoff);
    EvictHasJanitor(s, cutoff);
  }

  lemma EvictCoincides(s: State, cutoff: int)
    requires KeysCoincide(s)
    ensures KeysCoincide(Evict(s, cutoff))
  {
    EvictedFields(s, cutoff);
    hide IsAdhocName, IdleNames, Evict;
    var idle := IdleNames(s, cutoff);
    MinusKeys(s.clusters, idle);
    MinusKeys(s.masking, idle);
    MinusKeys(s.lastUsed, idle);
    MinusKeys(s.digests, idle);
    MinusKeys(s.clients, idle);
    MinusKeys(s.caps, idle);
  }

  lemma EvictedFields(s: State, cutoff: int)
    ensures
      var t, idle := Evict(s, cutoff), IdleNames(s, cutoff);
      && t.clusters == s.clusters - idle && t.masking == s.masking - idle && t.lastUsed == s.lastUsed - idle
      && t.digests == s.digests - idle && t.clients == s.clients - idle && t.caps == s.caps - idle
  {
    hide IdleNames;
  }

  lemma MinusKeys<V>(m: map<Name, V>, names: set<Name>)
    ensures (m - names).Keys == m.Keys - names
    ensures forall name :: name in m - names <==> name in m && name !in names
  {
  }

  lemma EvictMatches(env: Env, s: State, cutoff: int)
    requires EntriesMatch(env, s)
    ensures EntriesMatch(env, Evict(s, cutoff))
  {
    hide IdleNames;
  }

  lemma EvictHasJanitor(s: State, cutoff: int)
    requires JanitorComes(s) && s.run == Holding
    ensures JanitorComes(Evict(s, cutoff))
  {
    hide IdleNames;
    var t := Evict(s, cutoff);
    assert t.lastUsed == map[] || |t.lastUsed| > 0;
  }

  lemma EvictOwned(s: State, cutoff: int)
    requires KeysCoincide(s) && DecodersOwned(s) && s.run == Holding
    ensures DecodersOwned(Evict(s, cutoff))
  {
    hide IsAdhocName;
    var t := Evict(s, cutoff);
    forall name | name in t.decoders ensures name in t.clusters || WillDrop(t, name, t.decoders[name]) {
      assert name in s.clusters || WillDrop(s, name, s.decoders[name]);
    }
  }

  lemma StoreIsSafe(env: Env, s: State, thread: Thread, d: Decoder)
    requires IsSafe(env, s) && Enabled(s, StoreDecoder(thread, d))
    ensures IsSafe(env, Apply(env, s, StoreDecoder(thread, d)))
  {
    var t := Apply(env, s, StoreDecoder(thread, d));
    var stored := s.lookups[thread].name;
    forall name | name in t.decoders ensures name in t.clusters || WillDrop(t, name, t.decoders[name]) {
      if name == stored {
        assert WillCheck(t.lookups[thread], name, t.decoders[name]);
      } else {
        assert name in s.clusters || WillDrop(s, name, s.decoders[name]);
        if name !in s.clusters && !(s.run.Cleaning? && name in s.run.names) {
          var o :| o in s.lookups && WillCheck(s.lookups[o], name, s.decoders[name]);
          assert o != thread && WillCheck(t.lookups[o], name, t.decoders[name]);
        }
      }
    }
  }

  lemma CheckIsSafe(env: Env, s: State, thread: Thread, now: int)
    requires IsSafe(env, s) && Enabled(s, CheckCluster(thread, now))
    ensures IsSafe(env, Apply(env, s, CheckCluster(thread, now)))
  {
    var l := s.lookups[thread];
    TouchIsSafe(env, s, l.name, now);
    var t := Apply(env, s, CheckCluster(thread, now));
    forall name | name in t.decoders ensures name in t.clusters || WillDrop(t, name, t.decoders[name]) {
      assert name in s.clusters || WillDrop(s, name, s.decoders[name]);
      if name !in s.clusters && !(s.run.Cleaning? && name in s.run.names) {
        var o :| o in s.lookups && WillCheck(s.lookups[o], name, s.decoders[name]);
        assert o in t.lookups && WillCheck(t.lookups[o], name, t.decoders[name]);
      }
    }
  }

  lemma DropIsSafe(env: Env, s: State, thread: Thread)
    requires IsSafe(env, s) && Enabled(s, DropDecoder(thread))
    ensures IsSafe(env, Apply(env, s, DropDecoder(thread)))
  {
    var l := s.lookups[thread];
    var t := Apply(env, s, DropDecoder(thread));
    forall name | name in t.decoders ensures name in t.clusters || WillDrop(t, name, t.decoders[name]) {
      assert name in s.clusters || WillDrop(s, name, s.decoders[name]);
      if name !in s.clusters && !(s.run.Cleaning? && name in s.run.names) {
        var o :| o in s.lookups && WillCheck(s.lookups[o], name, s.decoders[name]);
        assert o != thread && WillCheck(t.lookups[o], name, t.decoders[name]);
      }
    }
  }

  lemma DropDecodersIsSafe(env: Env, s: State)
    requires IsSafe(env, s) && s.run.Cleaning?
    ensures IsSafe(env, Apply(env, s, DropDecoders))
  {
    var t := Apply(env, s, DropDecoders);
    forall name | name in t.decoders ensures name in t.clusters || WillDrop(t, name, t.decoders[name]) {
      assert name in s.clusters || WillDrop(s, name, s.decoders[name]);
    }
  }

  lemma BeginIsSafe(env: Env, s: State, thread: Thread, name: Name)
    requires IsSafe(env, s) && thread !in s.lookups
    ensures IsSafe(env, Apply(env, s, BeginLookup(thread, name)))
  {
    var t := Apply(env, s, BeginLookup(thread, name));
    hide EntriesMatch, JanitorComes, KeysCoincide;
    if t != s {
      forall n | n in t.decoders ensures n in t.clusters || WillDrop(t, n, t.decoders[n]) {
        assert n in s.clusters || WillDrop(s, n, s.decoders[n]);
        if n !in s.clusters && !(s.run.Cleaning? && n in s.run.names) {
          var o :| o in s.lookups && WillCheck(s.lookups[o], n, s.decoders[n]);
          assert o in t.lookups && WillCheck(t.lookups[o], n, t.decoders[n]);
        }
      }
      SameFields(env, s, t);
    }
  }

  lemma SameFields(env: Env, s: State, t: State)
    requires t == s.(lookups := t.lookups)
    ensures KeysCoincide(s) ==> KeysCoincide(t)
    ensures EntriesMatch(env, s) ==> EntriesMatch(env, t)
    ensures JanitorComes(s) ==> JanitorComes(t)
  {
  }

  lemma ClientIsSafe(env: Env, s: State, name: Name, created: Option<nat>)
    requires IsSafe(env, s)
    ensures IsSafe(env, Client(s, name, created))
  {
    var t := Client(s, name, created);
    ClientKeys(s, name, created);
    hide Client, KeysCoincide, EntriesMatch, DecodersOwned, WillDrop, JanitorComes;
    KeepsOwned(s, t);
    CachesAside(env, s, t);
  }

  lemma ClientKeys(s: State, name: Name, created: Option<nat>)
    requires KeysCoincide(s)
    ensures KeysCoincide(Client(s, name, created))
    ensures var t := Client(s, name, created); t == s.(clients := t.clients, caps := t.caps)
  {
    hide IsAdhocName;
  }

  lemma JanitorIsSafe(env: Env, s: State, step: Step)
    requires IsSafe(env, s) && Enabled(s, step)
    requires step.StartJanitor? || step.TimerFires? || step.EndRun? || step.StopJanitor?
    ensures IsSafe(env, Apply(env, s, step))
  {
    var t := Apply(env, s, step);
    JanitorFields(env, s, step);
    hide Apply, Enabled, KeysCoincide, EntriesMatch, DecodersOwned, WillDrop, JanitorComes;
    KeepsOwned(s, t);
    JanitorAside(env, s, t);
  }

  lemma JanitorFields(env: Env, s: State, step: Step)
    requires IsSafe(env, s) && Enabled(s, step)
    requires step.StartJanitor? || step.TimerFires? || step.EndRun? || step.StopJanitor?
    ensures
      var t := Apply(env, s, step);
      && t == s.(janitor := t.janitor, janitorClosed := t.janitorClosed, run := t.run, starters := t.starters)
      && !s.run.Cleaning? && !t.run.Cleaning? && JanitorComes(t)
  {
    hide KeysCoincide, EntriesMatch, DecodersOwned;
  }

  lemma JanitorAside(env: Env, s: State, t: State)
    requires t == s.(janitor := t.janitor, janitorClosed := t.janitorClosed, run := t.run, starters := t.starters)
    ensures KeysCoincide(s) ==> KeysCoincide(t)
    ensures EntriesMatch(env, s) ==> EntriesMatch(env, t)
  {
  }

  lemma CapsAreSafe(env: Env, s: State, step: Step)
    requires IsSafe(env, s) && (step.StoreCaps? || step.RefreshCaps? || step.CloseClients?)
    ensures IsSafe(env, Apply(env, s, step))
  {
    hide DecodersOwned, WillDrop, EntriesMatch, JanitorComes, KeysCoincide;
    var t := Apply(env, s, step);
    assert t == s.(clients := t.clients, caps := t.caps);
    CapKeys(env, s, step);
    KeepsOwned(s, t);
    CachesAside(env, s, t);
  }

  lemma CapKeys(env: Env, s: State, step: Step)
    requires KeysCoincide(s) && (step.StoreCaps? || step.RefreshCaps? || step.CloseClients?)
    ensures KeysCoincide(Apply(env, s, step))
  {
    hide IsAdhocName;
  }

  lemma CachesAside(env: Env, s: State, t: State)
    requires t == s.(clients := t.clients, caps := t.caps)
    ensures EntriesMatch(env, s) ==> EntriesMatch(env, t)
    ensures JanitorComes(s) ==> JanitorComes(t)
  {
    hide KeysCoincide;
  }

  lemma StepIsSafe(env: Env, s: State, step: Step)
    requires IsSafe(env, s) && Enabled(s, step)
    ensures IsSafe(env, Apply(env, s, step))
  {
    hide IsSafe, Touch, Register, Evict, Client;
    match step
    case UseAdhoc(t, settings, now) => RegisterIsSafe(env, s, t, settings, now);
    case Use(name, now) => TouchIsSafe(env, s, name, now);
    case GetClient(name, use, now, created) =>
      TouchIsSafe(env, s, name, now);
      ClientIsSafe(env, if use then Touch(s, name, now) else s, name, created);
    case BeginLookup(t, name) => BeginIsSafe(env, s, t, name);
    case StoreDecoder(t, d) => StoreIsSafe(env, s, t, d);
    case CheckCluster(t, now) => CheckIsSafe(env, s, t, now);
    case DropDecoder(t) => DropIsSafe(env, s, t);
    case EvictIdle(cutoff) => EvictIsSafe(env, s, cutoff);
    case DropDecoders => DropDecodersIsSafe(env, s);
    case StoreCaps(name, c) => CapsAreSafe(env, s, step);
    case RefreshCaps(name) => CapsAreSafe(env, s, step);
    case CloseClients => CapsAreSafe(env, s, step);
    case StartJanitor(t) => JanitorIsSafe(env, s, step);
    case TimerFires => JanitorIsSafe(env, s, step);
    case EndRun => JanitorIsSafe(env, s, step);
    case StopJanitor => JanitorIsSafe(env, s, step);
  }

  // --- whole runs ---

  /** The registry of the configured clusters, none of which has an ad-hoc name. */
  ghost predicate IsNew(s: State) {
    && s.masking.Keys == s.clusters.Keys && (forall name :: name in s.clusters ==> !IsAdhocName(name))
    && s.lastUsed == map[] && s.digests == map[] && s.clients == map[] && s.caps == map[] && s.decoders == map[]
    && !s.janitor && !s.janitorClosed && s.run == Idle && s.starters == {} && s.lookups == map[]
  }

  ghost predicate IsRun(env: Env, states: seq<State>, steps: seq<Step>) {
    && |states| == |steps| + 1 && IsNew(states[0])
    && forall i :: 0 <= i < |steps| ==> Enabled(states[i], steps[i]) && states[i + 1] == Apply(env, states[i], steps[i])
  }

  lemma NewIsSafe(env: Env, s: State)
    requires IsNew(s)
    ensures IsSafe(env, s)
  {
  }

  /** Every reachable state is safe. */
  lemma {:induction false} RunIsSafe(env: Env, states: seq<State>, steps: seq<Step>, i: nat)
    requires IsRun(env, states, steps) && i < |states|
    ensures IsSafe(env, states[i])
  {
    hide IsNew, IsSafe, Enabled, Apply;
    if i == 0 {
      NewIsSafe(env, states[0]);
    } else {
      RunIsSafe(env, states, steps, i - 1);
      StepIsSafe(env, states[i - 1], steps[i - 1]);
    }
  }

  /** When no call is in flight, decoders are only kept for registered clusters, and
      registered ad-hoc clusters have a janitor or the registry is closed. */
  lemma QuietIsClean(env: Env, states: seq<State>, steps: seq<Step>, i: nat)
    requires IsRun(env, states, steps) && i < |states|
    requires states[i].run == Idle && states[i].starters == {} && states[i].lookups == map[]
    ensures states[i].decoders.Keys <= states[i].clusters.Keys
    ensures states[i].lastUsed != map[] ==> states[i].janitor || states[i].janitorClosed
  {
    RunIsSafe(env, states, steps, i);
    hide IsRun, KeysCoincide, EntriesMatch;
  }

  // --- entries ---

  /** Digests of different settings differ. */
  ghost predicate IsInjective(f: string -> string) {
    forall x, y :: f(x) == f(y) ==> x == y
  }

  /** A definition UseAdhoc accepts is registered under the returned name with exactly its own settings. */
  lemma NeverSomeoneElses(env: Env, s: State, thread: Thread, settings: string, now: int)
    requires IsSafe(env, s) && IsInjective(env.digestOf) && !Refuses(env, s, settings)
    ensures
      var t, name := Register(env, s, thread, settings, now), AdhocName(env, settings);
      && name in t.clusters && t.clusters[name].settings == settings && t.clusters[name].name == name
      && name in t.lastUsed && t.lastUsed[name] == now
  {
    hide DecodersOwned, JanitorComes, AdhocName, IsAdhocName;
    var name := AdhocName(env, settings);
    if name in s.clusters {
      EntryOf(env, s, name);
      SameDigest(env, s.clusters[name].settings, settings);
    }
  }

  /** And it refuses only a definition whose name other settings have taken. */
  lemma RefusesOthersOnly(env: Env, s: State, settings: string)
    requires IsSafe(env, s) && IsInjective(env.digestOf)
    ensures
      var name := "__adhoc_" + env.short(env.digestOf(settings));
      Refuses(env, s, settings) <==> name in s.clusters && s.clusters[name].settings != settings
  {
    hide DecodersOwned, JanitorComes, IsAdhocName;
    var name := AdhocName(env, settings);
    assert name == "__adhoc_" + env.short(env.digestOf(settings));
    hide AdhocName;
    if name in s.clusters {
      EntryOf(env, s, name);
      SameDigest(env, s.clusters[name].settings, settings);
    }
  }

  lemma EntryOf(env: Env, s: State, name: Name)
    requires KeysCoincide(s) && EntriesMatch(env, s) && name in s.clusters && IsAdhocName(name)
    ensures name in s.lastUsed && name in s.digests && s.clusters[name].name == name
    ensures s.digests[name] == env.digestOf(s.clusters[name].settings)
  {
    hide IsAdhocName;
  }

  lemma SameDigest(env: Env, x: string, y: string)
    requires IsInjective(env.digestOf)
    ensures env.digestOf(x) == env.digestOf(y) ==> x == y
  {
  }

  /** A registered cluster keeps its settings, and only eviction removes one: an
      ad-hoc one that was idle. Configured clusters stay. */
  lemma OnlyIdleIsEvicted(env: Env, s: State, step: Step, name: Name)
    requires IsSafe(env, s) && Enabled(s, step) && name in s.clusters
    ensures
      var t := Apply(env, s, step);
      && (name in t.clusters ==> t.clusters[name] == s.clusters[name])
      && (name !in t.clusters ==>
        step.EvictIdle? && IsAdhocName(name) && name in s.lastUsed && s.lastUsed[name] <= step.cutoff)
      && (name in s.lastUsed && name in t.lastUsed && t.lastUsed[name] != s.lastUsed[name] ==>
            !step.EvictIdle? && (step.UseAdhoc? || step.Use? || (step.GetClient? && step.use) || step.CheckCluster?))
  {
    if step.EvictIdle? {
      EvictKeeps(s, step.cutoff, name);
    } else {
      OthersKeep(env, s, step, name);
    }
  }

  lemma OthersKeep(env: Env, s: State, step: Step, name: Name)
    requires Enabled(s, step) && name in s.clusters && !step.EvictIdle?
    ensures
      var t := Apply(env, s, step);
      && name in t.clusters && t.clusters[name] == s.clusters[name]
      && (name in s.lastUsed && name in t.lastUsed && t.lastUsed[name] != s.lastUsed[name] ==>
            step.UseAdhoc? || step.Use? || (step.GetClient? && step.use) || step.CheckCluster?)
  {
    hide *;
    match step
    case UseAdhoc(t, settings, now) => RegisterKeeps(env, s, t, settings, now, name); Applied(env, s, step);
    case GetClient(n, use, now, created) =>
      ClientKeeps(if use then Touch(s, n, now) else s, n, created);
      TouchKeeps(s, n, now);
      Applied(env, s, step);
    case _ => Applied(env, s, step);
  }

  lemma Applied(env: Env, s: State, step: Step)
    requires Enabled(s, step)
    ensures step.UseAdhoc? ==> Apply(env, s, step) == Register(env, s, step.thread, step.settings, step.now)
    ensures step.GetClient? ==>
        Apply(env, s, step) == Client(if step.use then Touch(s, step.name, step.now) else s, step.name, step.created)
    ensures !step.UseAdhoc? && !step.GetClient? && !step.EvictIdle? ==> Apply(env, s, step).clusters == s.clusters
    ensures !step.UseAdhoc? && !step.GetClient? && !step.EvictIdle? && !step.Use? && !step.CheckCluster? ==>
              Apply(env, s, step).lastUsed == s.lastUsed
  {
    hide Register, Client, Evict, Touch, Winner;
    if step.Use? {
      TouchKeeps(s, step.name, step.now);
    } else if step.CheckCluster? {
      TouchKeeps(s, s.lookups[step.thread].name, step.now);
    } else if step.UseAdhoc? || step.GetClient? {
    } else if !step.EvictIdle? {
      OtherFields(env, s, step);
    }
  }

  lemma OtherFields(env: Env, s: State, step: Step)
    requires Enabled(s, step)
    requires !step.UseAdhoc? && !step.GetClient? && !step.EvictIdle? && !step.Use? && !step.CheckCluster?
    ensures Apply(env, s, step).clusters == s.clusters && Apply(env, s, step).lastUsed == s.lastUsed
  {
    hide Register, Client, Evict, Touch, Winner;
  }

  lemma TouchKeeps(s: State, name: Name, now: int)
    ensures Touch(s, name, now).clusters == s.clusters
  {
  }

  lemma RegisterKeeps(env: Env, s: State, thread: Thread, settings: string, now: int, name: Name)
    requires name in s.clusters
    ensures var t := Register(env, s, thread, settings, now); name in t.clusters && t.clusters[name] == s.clusters[name]
  {
    hide AdhocName, IsAdhocName, Refuses, Touch;
    var n, t := AdhocName(env, settings), Register(env, s, thread, settings, now);
    if Refuses(env, s, settings) {
      assert t == s;
    } else if n in s.clusters {
      TouchKeeps(s, n, now);
      assert t == Touch(s, n, now);
    } else {
      assert t.clusters == s.clusters[n := ClusterConfig(n, settings, "")];
    }
  }

  lemma ClientKeeps(s: State, name: Name, created: Option<nat>)
    ensures Client(s, name, created).clusters == s.clusters && Client(s, name, created).lastUsed == s.lastUsed
  {
  }

  lemma EvictKeeps(s: State, cutoff: int, name: Name)
    requires KeysCoincide(s) && name in s.clusters
    ensures
      var t := Evict(s, cutoff);
      && (name in t.clusters ==> t.clusters[name] == s.clusters[name])
      && (name !in t.clusters ==> IsAdhocName(name) && name in s.lastUsed && s.lastUsed[name] <= cutoff)
      && (name in s.lastUsed && name in t.lastUsed ==> t.lastUsed[name] == s.lastUsed[name])
  {
    hide IsAdhocName;
  }

  /** An eviction takes everything kept under mu for the clusters it removes. */
  lemma EvictionIsComplete(env: Env, s: State, cutoff: int, name: Name)
    requires IsSafe(env, s) && s.run == Holding && name in s.lastUsed
    ensures
      var t := Evict(s, cutoff);
      if s.lastUsed[name] <= cutoff
      then name !in t.clusters && name !in t.masking && name !in t.lastUsed && name !in t.digests && name !in t.clients
        && name !in t.caps
           && t.run.Cleaning? && name in t.run.names
      else name in t.clusters && name in t.masking && name in t.lastUsed && name in t.digests
           && (name in t.clients <==> name in s.clients) && (name in t.caps <==> name in s.caps)
  {
    hide EntriesMatch, DecodersOwned, JanitorComes;
  }

  // --- clusters in use ---

  /** A use happens at u or later, an eviction takes what was last used before u. */
  predicate IsFrom(step: Step, u: int) {
    match step
    case UseAdhoc(t, settings, now) => now >= u
    case Use(name, now) => now >= u
    case GetClient(name, use, now, created) => now >= u
    case CheckCluster(t, now) => now >= u
    case EvictIdle(cutoff) => cutoff < u
    case _ => true
  }

  lemma UseMoves(env: Env, s: State, step: Step, name: Name, u: int)
    requires Enabled(s, step) && IsFrom(step, u) && name in s.lastUsed && s.lastUsed[name] >= u
    ensures
      var t := Apply(env, s, step);
      name in t.lastUsed && t.lastUsed[name] >= u
  {
    hide *;
    Applied(env, s, step);
    FromIs(step, u);
    match step
    case UseAdhoc(t, settings, now) =>
      RegisterMoves(env, s, t, settings, now);
      TouchedMoves(s.lastUsed, AdhocName(env, settings), now, name, u);
    case Use(n, now) =>
      UseTouches(env, s, step, n, now);
      TouchedMoves(s.lastUsed, n, now, name, u);
    case CheckCluster(t, now) =>
      LookupOf(s, step);
      UseTouches(env, s, step, s.lookups[t].name, now);
      TouchedMoves(s.lastUsed, s.lookups[t].name, now, name, u);
    case GetClient(n, use, now, created) =>
      ClientKeeps(if use then Touch(s, n, now) else s, n, created);
      TouchIs(s, n, now);
      TouchedMoves(s.lastUsed, n, now, name, u);
    case EvictIdle(cutoff) => EvictMoves(env, s, cutoff, name, u);
    case _ =>
  }

  lemma FromIs(step: Step, u: int)
    requires IsFrom(step, u)
    ensures step.UseAdhoc? || step.Use? || step.GetClient? || step.CheckCluster? ==> step.now >= u
    ensures step.EvictIdle? ==> step.cutoff < u
  {
  }

  lemma LookupOf(s: State, step: Step)
    requires Enabled(s, step) && step.CheckCluster?
    ensures step.thread in s.lookups
  {
  }

  lemma RegisterMoves(env: Env, s: State, thread: Thread, settings: string, now: int)
    ensures
      var name, used := AdhocName(env, settings), Register(env, s, thread, settings, now).lastUsed;
      used == s.lastUsed || used == s.lastUsed[name := now]
  {
    hide AdhocName, IsAdhocName, Refuses, Touched, Touch;
    var name, t := AdhocName(env, settings), Register(env, s, thread, settings, now);
    if Refuses(env, s, settings) {
      assert t == s;
    } else if name in s.clusters {
      assert t == Touch(s, name, now);
      TouchIs(s, name, now);
      TouchedIs(s.lastUsed, name, now);
    } else {
      assert t.lastUsed == s.lastUsed[name := now];
    }
  }

  lemma TouchedIs(used: map<Name, int>, name: Name, now: int)
    ensures Touched(used, name, now) == used || Touched(used, name, now) == used[name := now]
  {
  }

  lemma UseTouches(env: Env, s: State, step: Step, name: Name, now: int)
    requires Enabled(s, step)
    requires (step == Use(name, now)) || (step.CheckCluster? && step.now == now && s.lookups[step.thread].name == name)
    ensures Apply(env, s, step).lastUsed == Touched(s.lastUsed, name, now)
  {
    hide Touched;
  }

  lemma TouchIs(s: State, name: Name, now: int)
    ensures Touch(s, name, now).lastUsed == Touched(s.lastUsed, name, now)
  {
    hide Touched;
  }

  lemma TouchedMoves(used: map<Name, int>, n: Name, now: int, name: Name, u: int)
    requires now >= u && name in used && used[name] >= u
    ensures name in Touched(used, n, now) && Touched(used, n, now)[name] >= u
    ensures name in used[n := now] && used[n := now][name] >= u
  {
  }

  lemma EvictMoves(env: Env, s: State, cutoff: int, name: Name, u: int)
    requires Enabled(s, EvictIdle(cutoff)) && cutoff < u && name in s.lastUsed && s.lastUsed[name] >= u
    ensures
      var t := Apply(env, s, EvictIdle(cutoff));
      name in t.lastUsed && t.lastUsed[name] >= u
  {
    EvictedFields(s, cutoff);
    hide Without, Evict;
  }

  /** An ad-hoc cluster used at u or later is still registered, as it was, while no
      eviction takes what was used then. */
  lemma {:induction false} UsedIsKept(env: Env, states: seq<State>, steps: seq<Step>, name: Name, u: int, i: nat,
                                      j: nat)
    requires IsRun(env, states, steps) && i <= j < |states|
    requires name in states[i].lastUsed && states[i].lastUsed[name] >= u
    requires forall k :: i <= k < j ==> IsFrom(steps[k], u)
    ensures name in states[j].lastUsed && states[j].lastUsed[name] >= u
    ensures name in states[i].clusters && name in states[j].clusters
        && states[j].clusters[name] == states[i].clusters[name]
  {
    hide *;
    if i == j {
      RunIsSafe(env, states, steps, i);
      UsedIsRegistered(env, states[i], name);
    } else {
      UsedIsKept(env, states, steps, name, u, i, j - 1);
      RunIsSafe(env, states, steps, j - 1);
      RunIsSafe(env, states, steps, j);
      RunSteps(env, states, steps, j - 1);
      UseMoves(env, states[j - 1], steps[j - 1], name, u);
      UsedIsRegistered(env, states[j], name);
      OnlyIdleIsEvicted(env, states[j - 1], steps[j - 1], name);
    }
  }

  lemma UsedIsRegistered(env: Env, s: State, name: Name)
    requires IsSafe(env, s) && name in s.lastUsed
    ensures name in s.clusters
  {
    hide EntriesMatch, DecodersOwned, JanitorComes;
  }

  lemma RunSteps(env: Env, states: seq<State>, steps: seq<Step>, i: nat)
    requires IsRun(env, states, steps) && i + 1 < |states|
    ensures |states| == |steps| + 1 && Enabled(states[i], steps[i])
        && states[i + 1] == Apply(env, states[i], steps[i])
  {
    hide IsNew, Enabled, Apply;
  }
}
