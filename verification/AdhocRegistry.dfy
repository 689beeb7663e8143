/** Connections of internal/kafka/registry.go with its ad-hoc clusters
    (internal/kafka/adhoc.go): each method is one critical section, and does what
    the state machine's step says. */
module AdhocRegistry {
  import opened Options
  import opened AdhocState
  import opened AdhocSafety

  /** t is s after the step. */
  ghost predicate Did(env: Env, s: State, step: Step, t: State) {
    Enabled(s, step) && t == Apply(env, s, step)
  }

  datatype ClientResult = UnknownCluster | NewClientFailed | Client(client: nat)

  datatype UseResult = Registered(name: Name) | NoBrokers | EmptyBroker | NameInUse

  class Connections {
    const env: Env

    var clusters: map<Name, ClusterConfig>
    var masking: map<Name, string>
    var lastUsed: map<Name, int>
    var digests: map<Name, string>
    var clients: map<Name, nat>
    var caps: map<Name, nat>
    var decoders: map<Name, Decoder>
    var janitor: bool
    var janitorClosed: bool

    /** The calls in flight. */
    ghost var run: JanitorRun
    ghost var starters: set<Thread>
    ghost var lookups: map<Thread, Lookup>

    ghost function Now(): State
      reads this
    {
      State(clusters, masking, lastUsed, digests, clients, caps, decoders, janitor, janitorClosed, run, starters,
            lookups)
    }

    ghost predicate Valid()
      reads this
    {
      IsSafe(env, Now())
    }

    constructor (env: Env, configured: map<Name, ClusterConfig>)
      requires forall name :: name in configured ==> !IsAdhocName(name)
      ensures Valid() && IsNew(Now()) && clusters == configured && this.env == env
    {
      this.env := env;
      clusters, masking := configured, map name | name in configured :: configured[name].masks;
      lastUsed, digests, clients, caps, decoders := map[], map[], map[], map[], map[];
      janitor, janitorClosed := false, false;
      run, starters, lookups := Idle, {}, map[];
      new;
      NewIsSafe(env, Now());
    }

    /** Registers an ad-hoc cluster or reuses its entry. A new entry is followed by StartJanitor. */
    method UseAdhoc(thread: Thread, brokers: seq<string>, settings: string, now: int) returns (r: UseResult)
      requires Valid() && thread !in starters
      modifies this
      ensures Valid()
      ensures brokers == [] ==> r == NoBrokers && Now() == old(Now())
      ensures brokers != [] && "" in brokers ==> r == EmptyBroker && Now() == old(Now())
      ensures brokers != [] && "" !in brokers ==>
                && Did(env, old(Now()), Step.UseAdhoc(thread, settings, now), Now())
                && Enrolled(env, old(Now()), thread, settings, now, r, Now())
    {
      if |brokers| == 0 {
        return NoBrokers;
      }
      if "" in brokers {
        return EmptyBroker;
      }
      r := Enroll(thread, settings, now);
    }

    /** The critical section of UseAdhoc. */
    method Enroll(thread: Thread, settings: string, now: int) returns (r: UseResult)
      requires Valid() && thread !in starters
      modifies this
      ensures Valid() && Did(env, old(Now()), Step.UseAdhoc(thread, settings, now), Now())
      ensures Enrolled(env, old(Now()), thread, settings, now, r, Now())
    {
      hide *;
      ghost var s := Start();
      ghost var t := TakenUse(env, s, thread, settings, now);
      RefusesIs(env, s, settings);
      var digest := env.digestOf(settings);
      var name := AdhocName(env, settings);
      if name in clusters {
        if name !in digests || digests[name] != digest {
          End(t);
          IsEnrolled(env, s, thread, settings, now, NameInUse, t);
          return NameInUse;
        }
        TouchLocked(name, now);
        End(t);
        IsEnrolled(env, s, thread, settings, now, Registered(name), t);
        return Registered(name);
      }
      clusters, masking := clusters[name := ClusterConfig(name, settings, "")], masking[name := ""];
      lastUsed, digests := lastUsed[name := now], digests[name := digest];
      starters := starters + {thread};
      End(t);
      r := Registered(name);
      IsEnrolled(env, s, thread, settings, now, r, t);
    }

    lemma Start() returns (s: State)
      requires Valid()
      ensures s == Now() && IsSafe(env, s)
      ensures s == State(clusters, masking, lastUsed, digests, clients, caps, decoders, janitor, janitorClosed, run,
                         starters, lookups)
    {
      hide IsSafe;
      s := Now();
    }

    lemma End(t: State)
      requires t == State(clusters, masking, lastUsed, digests, clients, caps, decoders, janitor, janitorClosed, run,
                          starters, lookups)
      requires IsSafe(env, t)
      ensures Valid() && Now() == t
    {
      hide IsSafe;
    }

    /** Arms the timer unless it is armed or the registry is closed. */
    method StartJanitor(ghost thread: Thread)
      requires Valid() && thread in starters && run == Idle
      modifies this`janitor, this`starters
      ensures Valid() && Did(env, old(Now()), Step.StartJanitor(thread), Now())
      ensures janitor == (old(janitor) || !janitorClosed) && starters == old(starters) - {thread}
    {
      hide *;
      ghost var s := Start();
      ghost var t := TakenStart(env, s, thread);
      if !janitor && !janitorClosed {
        janitor := true;
      }
      starters := starters - {thread};
      End(t);
    }

    method TouchLocked(name: Name, now: int)
      modifies this`lastUsed
      ensures lastUsed == Touched(old(lastUsed), name, now)
      ensures lastUsed == if name in old(lastUsed) then old(lastUsed)[name := now] else old(lastUsed)
    {
      if name in lastUsed {
        lastUsed := lastUsed[name := now];
      }
    }

    /** A lookup of a cluster, which counts as a use. */
    method ConfigFor(name: Name, now: int) returns (found: bool, config: ClusterConfig)
      requires Valid()
      modifies this`lastUsed
      ensures Valid() && Did(env, old(Now()), Use(name, now), Now())
      ensures lastUsed == if name in old(lastUsed) then old(lastUsed)[name := now] else old(lastUsed)
      ensures found <==> name in clusters
      ensures found ==> config == clusters[name]
    {
      hide *;
      ghost var s := Start();
      ghost var t := TakenUseOf(env, s, name, now);
      TouchLocked(name, now);
      End(t);
      found := name in clusters;
      config := if found then clusters[name] else ClusterConfig("", "", "");
    }

    /** The client of a registered cluster; `created` is what kgo.NewClient would give. */
    method Client(name: Name, use: bool, now: int, created: Option<nat>) returns (r: ClientResult)
      requires Valid()
      modifies this`lastUsed, this`clients
      ensures Valid() && Did(env, old(Now()), GetClient(name, use, now, created), Now())
      ensures r == UnknownCluster <==> name !in clusters
      ensures r == NewClientFailed <==> name in clusters && name !in old(clients) && created.None?
      ensures r.Client? ==> name in clients && r.client == clients[name]
      ensures r.Client? && name in old(clients) ==> r.client == old(clients)[name]
      ensures !r.Client? ==> clients == old(clients)
      ensures r.Client? ==> clients == old(clients)[name := r.client]
      ensures lastUsed == if use && name in old(lastUsed) then old(lastUsed)[name := now] else old(lastUsed)
    {
      hide *;
      ghost var s := Start();
      ghost var t := TakenClient(env, s, name, use, now, created);
      if use {
        TouchLocked(name, now);
      }
      if name in clients {
        End(t);
        return ClientResult.Client(clients[name]);
      }
      if name !in clusters {
        End(t);
        return UnknownCluster;
      }
      if created.None? {
        End(t);
        return NewClientFailed;
      }
      clients := clients[name := created.value];
      End(t);
      return ClientResult.Client(created.value);
    }

    /** Closes and forgets every client. */
    method CloseAll()
      requires Valid()
      modifies this`clients
      ensures Valid() && Did(env, old(Now()), CloseClients, Now()) && clients == map[]
    {
      hide *;
      ghost var s := Start();
      ghost var t := TakenClose(env, s);
      var todo := clients.Keys;
      while todo != {}
        invariant todo == clients.Keys
      {
        var name :| name in todo;
        todo := todo - {name};
        clients := clients - {name};
      }
      assert clients == map[];
      End(t);
    }

    /** The first section of srDecoderFor: a cached decoder, or a lookup in flight. */
    method LookUpDecoder(thread: Thread, name: Name) returns (cached: bool, d: Decoder)
      requires Valid() && thread !in lookups
      modifies this`lookups
      ensures Valid() && Did(env, old(Now()), BeginLookup(thread, name), Now())
      ensures cached <==> name in decoders
      ensures if cached then d == decoders[name] && lookups == old(lookups)
              else lookups == old(lookups)[thread := Building(name)]
    {
      hide *;
      ghost var s := Start();
      ghost var t := TakenLookUp(env, s, thread, name);
      if name in decoders {
        End(t);
        return true, decoders[name];
      }
      lookups := lookups[thread := Building(name)];
      End(t);
      return false, NoDecoder;
    }

    /** The second section: the decoder cached in the meantime wins. */
    method CacheDecoder(ghost thread: Thread, name: Name, built: Decoder) returns (d: Decoder)
      requires Valid() && thread in lookups && lookups[thread] == Building(name)
      modifies this`decoders, this`lookups
      ensures Valid() && Did(env, old(Now()), StoreDecoder(thread, built), Now())
      ensures name in decoders && decoders[name] == d && lookups[thread] == Stored(name, d)
      ensures if name in old(decoders) then d == old(decoders)[name] else d == built
      ensures decoders == old(decoders)[name := d]
    {
      hide *;
      ghost var s := Start();
      ghost var t := TakenStore(env, s, thread, name, built);
      if name in decoders {
        d := decoders[name];
      } else {
        d := built;
        decoders := decoders[name := d];
      }
      lookups := lookups[thread := Stored(name, d)];
      End(t);
    }

    /** The third: whether the cluster is still registered. */
    method Recheck(ghost thread: Thread, name: Name, d: Decoder, now: int) returns (registered: bool)
      requires Valid() && thread in lookups && lookups[thread] == Stored(name, d)
      modifies this`lastUsed, this`lookups
      ensures Valid() && Did(env, old(Now()), CheckCluster(thread, now), Now())
      ensures registered <==> name in clusters
      ensures lastUsed == if name in old(lastUsed) then old(lastUsed)[name := now] else old(lastUsed)
      ensures lookups == if registered then old(lookups) - {thread} else old(lookups)[thread := Dropping(name, d)]
    {
      hide *;
      ghost var s := Start();
      ghost var t := TakenCheck(env, s, thread, name, d, now);
      TouchLocked(name, now);
      registered := name in clusters;
      lookups := if registered then lookups - {thread} else lookups[thread := Dropping(name, d)];
      End(t);
    }

    /** The last: drops the decoder unless another one took its place. */
    method DropCached(ghost thread: Thread, name: Name, d: Decoder)
      requires Valid() && thread in lookups && lookups[thread] == Dropping(name, d)
      modifies this`decoders, this`lookups
      ensures Valid() && Did(env, old(Now()), DropDecoder(thread), Now()) && lookups == old(lookups) - {thread}
      ensures decoders == if name in old(decoders) && old(decoders)[name] == d then old(decoders) - {name}
              else old(decoders)
    {
      hide *;
      ghost var s := Start();
      ghost var t := TakenDrop(env, s, thread, name, d);
      if name in decoders && decoders[name] == d {
        decoders := decoders - {name};
      }
      lookups := lookups - {thread};
      End(t);
    }

    /** Removes everything mu guards for a cluster. */
    method Forget(name: Name)
      modifies this`clusters, this`masking, this`lastUsed, this`digests, this`clients, this`caps
      ensures clusters == old(clusters) - {name} && masking == old(masking) - {name}
          && lastUsed == old(lastUsed) - {name}
      ensures digests == old(digests) - {name} && clients == old(clients) - {name} && caps == old(caps) - {name}
    {
      clusters, masking, lastUsed := clusters - {name}, masking - {name}, lastUsed - {name};
      digests, clients, caps := digests - {name}, clients - {name}, caps - {name};
    }

    /** The section of evictIdleAdhoc under mu: removes every ad-hoc cluster last
        used at the cutoff or before. */
    method EvictIdleAdhoc(cutoff: int) returns (evicted: set<Name>, closing: set<nat>, remaining: nat)
      requires Valid() && run == Holding
      modifies this
      ensures Valid() && Did(env, old(Now()), EvictIdle(cutoff), Now())
      ensures forall name :: name in evicted <==> name in old(lastUsed) && old(lastUsed)[name] <= cutoff
      ensures Lost(old(Now()), Now(), evicted) && remaining == |lastUsed|
      ensures closing == ClientsOf(old(clients), evicted)
    {
      hide *;
      ghost var s := Start();
      ghost var t := TakenEvict(env, s, cutoff);
      evicted, closing := {}, {};
      WithoutNone(s);
      ClientsOfNone(s.clients);
      var todo := lastUsed.Keys;
      while todo != {}
        invariant todo <= s.lastUsed.Keys
        invariant Without(s, evicted) ==
          State(clusters, masking, lastUsed, digests, clients, caps, decoders, janitor, janitorClosed, run, starters,
                lookups)
        invariant forall name :: name in evicted <==> name in s.lastUsed && name !in todo && s.lastUsed[name] <= cutoff
        invariant closing == ClientsOf(s.clients, evicted)
      {
        var name :| name in todo;
        WithoutMore(s, evicted, name);
        ClientsOfMore(s.clients, evicted, name);
        todo := todo - {name};
        if lastUsed[name] > cutoff {
          continue;
        }
        if name in clients {
          closing := closing + {clients[name]};
        }
        evicted := evicted + {name};
        Forget(name);
      }
      remaining := |lastUsed|;
      run := if evicted == {} then Finishing(remaining) else Cleaning(evicted, remaining);
      IdleNamesAre(s, cutoff, evicted);
      LostByEviction(s, cutoff, evicted);
      End(t);
    }

    /** The section of evictIdleAdhoc under srMu. */
    method DropEvictedDecoders(evicted: set<Name>)
      requires Valid() && run.Cleaning? && run.names == evicted
      modifies this`decoders, this`run
      ensures Valid() && Did(env, old(Now()), DropDecoders, Now()) && decoders == old(decoders) - evicted
      ensures run == Finishing(old(run).remaining)
    {
      hide *;
      ghost var s := Start();
      ghost var t := TakenDropAll(env, s, evicted);
      var todo := evicted;
      DecodersWithoutNone(s.decoders);
      while todo != {}
        modifies this`decoders
        invariant todo <= evicted && decoders == s.decoders - (evicted - todo)
      {
        var name :| name in todo;
        MinusOne(s.decoders, evicted - todo, name);
        assert evicted - todo + {name} == evicted - (todo - {name});
        todo := todo - {name};
        decoders := decoders - {name};
      }
      assert evicted - todo == evicted;
      run := Finishing(run.remaining);
      End(t);
    }

    /** The start of runJanitor: the timer fired and janitorMu is taken. */
    method BeginRun() returns (goes: bool)
      requires Valid() && janitor && run == Idle
      modifies this`run
      ensures Valid() && Did(env, old(Now()), TimerFires, Now())
      ensures goes <==> !janitorClosed
      ensures run == if goes then Holding else Idle
    {
      hide *;
      ghost var s := Start();
      ghost var t := TakenTimer(env, s);
      goes := !janitorClosed;
      run := if goes then Holding else Idle;
      End(t);
    }

    /** The end of runJanitor: the timer is set again while entries are left. */
    method FinishRun(remaining: nat)
      requires Valid() && run == Finishing(remaining)
      modifies this`janitor, this`run
      ensures Valid() && Did(env, old(Now()), EndRun, Now()) && run == Idle && (janitor <==> remaining > 0)
    {
      hide *;
      ghost var s := Start();
      JanitorIsArmed(env, s);
      ghost var t := TakenEnd(env, s, remaining);
      if remaining == 0 {
        janitor := false;
      }
      run := Idle;
      End(t);
    }

    method StopTheJanitor()
      requires Valid() && run == Idle
      modifies this`janitor, this`janitorClosed
      ensures Valid() && Did(env, old(Now()), StopJanitor, Now()) && janitorClosed && !janitor
    {
      hide *;
      ghost var s := Start();
      ghost var t := TakenStop(env, s);
      janitorClosed := true;
      if janitor {
        janitor := false;
      }
      End(t);
    }
  }

  // --- what single steps do ---

  /** The outcome of a step, which is safe. */
  lemma Taken(env: Env, s: State, step: Step) returns (t: State)
    requires IsSafe(env, s) && Enabled(s, step)
    ensures Did(env, s, step, t) && t == Apply(env, s, step) && IsSafe(env, t)
  {
    hide IsSafe, Apply, Enabled;
    StepIsSafe(env, s, step);
    t := Apply(env, s, step);
  }

  lemma TakenStart(env: Env, s: State, thread: Thread) returns (t: State)
    requires IsSafe(env, s) && thread in s.starters && s.run == Idle
    ensures Did(env, s, Step.StartJanitor(thread), t) && IsSafe(env, t)
    ensures t == s.(starters := s.starters - {thread}, janitor := s.janitor || !s.janitorClosed)
  {
    hide IsSafe;
    t := Taken(env, s, Step.StartJanitor(thread));
  }

  lemma TakenUseOf(env: Env, s: State, name: Name, now: int) returns (t: State)
    requires IsSafe(env, s)
    ensures Did(env, s, Use(name, now), t) && IsSafe(env, t)
    ensures t == s.(lastUsed := Touched(s.lastUsed, name, now))
  {
    hide IsSafe, Touched;
    t := Taken(env, s, Use(name, now));
  }

  lemma TakenClose(env: Env, s: State) returns (t: State)
    requires IsSafe(env, s)
    ensures Did(env, s, CloseClients, t) && IsSafe(env, t) && t == s.(clients := map[])
  {
    hide IsSafe;
    t := Taken(env, s, CloseClients);
  }

  lemma TakenLookUp(env: Env, s: State, thread: Thread, name: Name) returns (t: State)
    requires IsSafe(env, s) && thread !in s.lookups
    ensures Did(env, s, BeginLookup(thread, name), t) && IsSafe(env, t)
    ensures t == if name in s.decoders then s else s.(lookups := s.lookups[thread := Building(name)])
  {
    hide IsSafe;
    t := Taken(env, s, BeginLookup(thread, name));
  }

  lemma TakenTimer(env: Env, s: State) returns (t: State)
    requires IsSafe(env, s) && s.janitor && s.run == Idle
    ensures Did(env, s, TimerFires, t) && IsSafe(env, t) && t == s.(run := if s.janitorClosed then Idle else Holding)
  {
    hide IsSafe;
    t := Taken(env, s, TimerFires);
  }

  lemma TakenEnd(env: Env, s: State, remaining: nat) returns (t: State)
    requires IsSafe(env, s) && s.run == Finishing(remaining)
    ensures Did(env, s, EndRun, t) && IsSafe(env, t) && t == s.(janitor := remaining != 0, run := Idle)
  {
    hide IsSafe;
    t := Taken(env, s, EndRun);
  }

  lemma TakenStop(env: Env, s: State) returns (t: State)
    requires IsSafe(env, s) && s.run == Idle
    ensures Did(env, s, StopJanitor, t) && IsSafe(env, t) && t == s.(janitorClosed := true, janitor := false)
  {
    hide IsSafe;
    t := Taken(env, s, StopJanitor);
  }

  lemma TakenUse(env: Env, s: State, thread: Thread, settings: string, now: int) returns (t: State)
    requires IsSafe(env, s) && thread !in s.starters
    ensures Did(env, s, Step.UseAdhoc(thread, settings, now), t) && IsSafe(env, t)
    ensures KeysCoincide(s) && t == Register(env, s, thread, settings, now)
    ensures
      var name := AdhocName(env, settings);
      if Refuses(env, s, settings) then t == s
      else if name in s.clusters then t == s.(lastUsed := Touched(s.lastUsed, name, now))
      else t == s.(clusters := s.clusters[name := ClusterConfig(name, settings, "")], masking := s.masking[name := ""],
                   lastUsed := s.lastUsed[name := now], digests := s.digests[name := env.digestOf(settings)],
                   starters := s.starters + {thread})
  {
    hide AdhocName, IsAdhocName, Touched, Refuses, IsSafe;
    t := Taken(env, s, Step.UseAdhoc(thread, settings, now));
    SafeKeys(env, s);
  }

  lemma SafeKeys(env: Env, s: State)
    requires IsSafe(env, s)
    ensures KeysCoincide(s)
  {
    hide KeysCoincide, EntriesMatch, DecodersOwned, JanitorComes;
  }

  /** A name that other settings have taken is refused and nothing changes; a registered
      definition is only marked as used; a new one gets its entries. */
  ghost predicate Enrolled(env: Env, s: State, thread: Thread, settings: string, now: int, r: UseResult, t: State) {
    var digest := env.digestOf(settings);
    var name := "__adhoc_" + env.short(digest);
    var known := name in s.clusters && name in s.digests && s.digests[name] == digest;
    if name in s.clusters && !known then r == NameInUse && t == s
    else if known then r == Registered(name) && name in s.lastUsed && t == s.(lastUsed := s.lastUsed[name := now])
    else
      && r == Registered(name)
      && t == s.(clusters := s.clusters[name := ClusterConfig(name, settings, "")], masking := s.masking[name := ""],
                 lastUsed := s.lastUsed[name := now], digests := s.digests[name := digest],
                 starters := s.starters + {thread})
  }

  lemma IsEnrolled(env: Env, s: State, thread: Thread, settings: string, now: int, r: UseResult, t: State)
    requires KeysCoincide(s) && t == Register(env, s, thread, settings, now)
    requires r == if Refuses(env, s, settings) then NameInUse else Registered(AdhocName(env, settings))
    ensures Enrolled(env, s, thread, settings, now, r, t)
  {
    hide IsAdhocName;
    assert AdhocName(env, settings) == "__adhoc_" + env.short(env.digestOf(settings));
    hide AdhocName;
  }

  lemma RefusesIs(env: Env, s: State, settings: string)
    ensures
      var name := AdhocName(env, settings);
      Refuses(env, s, settings) <==>
        name in s.clusters && (name !in s.digests || s.digests[name] != env.digestOf(settings))
  {
    hide AdhocName;
  }

  lemma TakenClient(env: Env, s: State, name: Name, use: bool, now: int, created: Option<nat>) returns (t: State)
    requires IsSafe(env, s)
    ensures Did(env, s, GetClient(name, use, now, created), t) && IsSafe(env, t)
    ensures t == s.(lastUsed := if use then Touched(s.lastUsed, name, now) else s.lastUsed,
                    clients := if name in s.clients || name !in s.clusters || created.None? then s.clients
                      else s.clients[name := created.value])
    ensures s.clients.Keys <= s.clusters.Keys
  {
    hide Touched, EntriesMatch, DecodersOwned, JanitorComes;
    t := Taken(env, s, GetClient(name, use, now, created));
  }

  lemma TakenStore(env: Env, s: State, thread: Thread, name: Name, built: Decoder) returns (t: State)
    requires IsSafe(env, s) && thread in s.lookups && s.lookups[thread] == Building(name)
    ensures Did(env, s, StoreDecoder(thread, built), t) && IsSafe(env, t)
    ensures
      var d := if name in s.decoders then s.decoders[name] else built;
      t == s.(decoders := s.decoders[name := d], lookups := s.lookups[thread := Stored(name, d)])
    ensures name in s.decoders ==> s.decoders[name := s.decoders[name]] == s.decoders
  {
    hide IsSafe;
    t := Taken(env, s, StoreDecoder(thread, built));
  }

  lemma TakenCheck(env: Env, s: State, thread: Thread, name: Name, d: Decoder, now: int) returns (t: State)
    requires IsSafe(env, s) && thread in s.lookups && s.lookups[thread] == Stored(name, d)
    ensures Did(env, s, CheckCluster(thread, now), t) && IsSafe(env, t)
    ensures t == s.(lastUsed := Touched(s.lastUsed, name, now),
                    lookups := if name in s.clusters then s.lookups - {thread}
                      else s.lookups[thread := Dropping(name, d)])
  {
    hide Touched, IsSafe;
    t := Taken(env, s, CheckCluster(thread, now));
  }

  lemma TakenDrop(env: Env, s: State, thread: Thread, name: Name, d: Decoder) returns (t: State)
    requires IsSafe(env, s) && thread in s.lookups && s.lookups[thread] == Dropping(name, d)
    ensures Did(env, s, DropDecoder(thread), t) && IsSafe(env, t)
    ensures t == s.(decoders := if name in s.decoders && s.decoders[name] == d then s.decoders - {name} else s.decoders,
                    lookups := s.lookups - {thread})
  {
    hide IsSafe;
    t := Taken(env, s, DropDecoder(thread));
  }

  lemma TakenDropAll(env: Env, s: State, names: set<Name>) returns (t: State)
    requires IsSafe(env, s) && s.run.Cleaning? && s.run.names == names
    ensures Did(env, s, DropDecoders, t) && IsSafe(env, t)
    ensures t == s.(decoders := s.decoders - names, run := Finishing(s.run.remaining))
  {
    hide IsSafe;
    t := Taken(env, s, DropDecoders);
  }

  lemma DecodersWithoutNone(decoders: map<Name, Decoder>)
    ensures forall names: set<Name> :: decoders - (names - names) == decoders
  {
  }

  lemma TakenEvict(env: Env, s: State, cutoff: int) returns (t: State)
    requires IsSafe(env, s) && s.run == Holding
    ensures Did(env, s, EvictIdle(cutoff), t) && t == Evict(s, cutoff) && IsSafe(env, t)
  {
    hide Evict, IsSafe;
    t := Taken(env, s, EvictIdle(cutoff));
  }

  /** The clients kept for some clusters. */
  function ClientsOf(clients: map<Name, nat>, names: set<Name>): set<nat> {
    set name | name in names && name in clients :: clients[name]
  }

  lemma ClientsOfNone(clients: map<Name, nat>)
    ensures ClientsOf(clients, {}) == {}
  {
  }

  lemma ClientsOfMore(clients: map<Name, nat>, names: set<Name>, name: Name)
    ensures ClientsOf(clients, names + {name}) == ClientsOf(clients, names) + if name in clients then {clients[name]}
        else {}
  {
  }

  lemma WithoutNone(s: State)
    ensures Without(s, {}) == s
  {
  }

  /** Everything mu guards for some names is gone and their decoders are to go; nothing else changed. */
  ghost predicate Lost(s: State, t: State, names: set<Name>) {
    && t.clusters == s.clusters - names && t.masking == s.masking - names && t.lastUsed == s.lastUsed - names
    && t.digests == s.digests - names && t.clients == s.clients - names && t.caps == s.caps - names
    && t.run == (if names == {} then Finishing(|t.lastUsed|) else Cleaning(names, |t.lastUsed|))
    && t.decoders == s.decoders && t.janitor == s.janitor && t.janitorClosed == s.janitorClosed
    && t.starters == s.starters && t.lookups == s.lookups
  }

  lemma LostByEviction(s: State, cutoff: int, names: set<Name>)
    requires names == IdleNames(s, cutoff)
    ensures Lost(s, Evict(s, cutoff), names)
  {
    hide IdleNames;
  }

  /** Removing one more entry that is still there. */
  lemma WithoutMore(s: State, names: set<Name>, name: Name)
    ensures
      var t := Without(s, names);
      && Without(s, names + {name}) ==
           t.(clusters := t.clusters - {name}, masking := t.masking - {name}, lastUsed := t.lastUsed - {name},
              digests := t.digests - {name}, clients := t.clients - {name}, caps := t.caps - {name})
      && (name !in names ==> (name in t.lastUsed <==> name in s.lastUsed) && (name in t.clients <==> name in s.clients))
      && (name !in names && name in s.lastUsed ==> t.lastUsed[name] == s.lastUsed[name])
      && (name !in names && name in s.clients ==> t.clients[name] == s.clients[name])
  {
    MinusOne(s.clusters, names, name);
    MinusOne(s.masking, names, name);
    MinusOne(s.lastUsed, names, name);
    MinusOne(s.digests, names, name);
    MinusOne(s.clients, names, name);
    MinusOne(s.caps, names, name);
  }

  lemma MinusOne<V>(m: map<Name, V>, names: set<Name>, name: Name)
    ensures (m - names) - {name} == m - (names + {name})
  {
  }

  lemma IdleNamesAre(s: State, cutoff: int, names: set<Name>)
    requires forall name :: name in names <==> name in s.lastUsed && s.lastUsed[name] <= cutoff
    ensures names == IdleNames(s, cutoff)
    ensures
      var left := Without(s, names);
      Evict(s, cutoff) == left.(run := if names == {} then Finishing(|left.lastUsed|)
        else Cleaning(names, |left.lastUsed|))
  {
    hide Without;
  }

  lemma JanitorIsArmed(env: Env, s: State)
    requires IsSafe(env, s) && s.run != Idle
    ensures s.janitor
  {
  }
}
