/** The connection registry as a state machine: every critical section of
    internal/kafka/adhoc.go and internal/kafka/registry.go is one step. */
module AdhocState {
  import opened Options

  type Name = string

  type Thread = nat

  /** A *SRDecoder; None is nil. */
  datatype Decoder = NoDecoder | Decoder(id: nat)

  /** `settings` stands for everything the fingerprint covers, `masks` for the masking rules. */
  datatype ClusterConfig = ClusterConfig(name: Name, settings: string, masks: string)

  /** The keyed digest, and its short form, of settings. The short forms of two digests may coincide. */
  datatype Env = Env(digestOf: string -> string, short: string -> string)

  const ADHOC_PREFIX := "__adhoc_"

  predicate IsAdhocName(name: Name) {
    ADHOC_PREFIX <= name
  }

  function AdhocName(env: Env, settings: string): (name: Name)
    ensures IsAdhocName(name)
  {
    ADHOC_PREFIX + env.short(env.digestOf(settings))
  }

  /** Where a call of srDecoderFor is. */
  datatype Lookup = Building(name: Name) | Stored(name: Name, decoder: Decoder) | Dropping(name: Name, decoder: Decoder)

  /** Where the run of the janitor is; janitorMu is held outside Idle. */
  datatype JanitorRun = Idle | Holding | Cleaning(names: set<Name>, remaining: nat) | Finishing(remaining: nat)

  /** The fields of Connections, then the calls in flight: `starters` have registered
      a cluster and are about to call startJanitor. `janitor` is whether the timer is set. */
  datatype State = State(
    clusters: map<Name, ClusterConfig>, masking: map<Name, string>,
    lastUsed: map<Name, int>, digests: map<Name, string>,
    clients: map<Name, nat>, caps: map<Name, nat>, decoders: map<Name, Decoder>,
    janitor: bool, janitorClosed: bool,
    run: JanitorRun, starters: set<Thread>, lookups: map<Thread, Lookup>)

  /** A use of an ad-hoc cluster; other names are left alone. */
  function Touched(lastUsed: map<Name, int>, name: Name, now: int): map<Name, int> {
    if name in lastUsed then lastUsed[name := now] else lastUsed
  }

  function Touch(s: State, name: Name, now: int): State {
    s.(lastUsed := Touched(s.lastUsed, name, now))
  }

  datatype Step =
    | UseAdhoc(thread: Thread, settings: string, now: int)
    | StartJanitor(thread: Thread)
    | Use(name: Name, now: int)                           // ConfigFor, MaskingPolicy and other lookups
    | GetClient(name: Name, use: bool, now: int, created: Option<nat>)
    | StoreCaps(name: Name, caps: nat)
    | RefreshCaps(name: Name)
    | CloseClients
    | BeginLookup(thread: Thread, name: Name)
    | StoreDecoder(thread: Thread, decoder: Decoder)
    | CheckCluster(thread: Thread, now: int)
    | DropDecoder(thread: Thread)
    | TimerFires
    | EvictIdle(cutoff: int)
    | DropDecoders
    | EndRun
    | StopJanitor

  /** The step can be taken: its caller is there and its lock is free. */
  predicate Enabled(s: State, step: Step) {
    match step
    case UseAdhoc(t, settings, now) => t !in s.starters
    case StartJanitor(t) => t in s.starters && s.run == Idle
    case BeginLookup(t, name) => t !in s.lookups
    case StoreDecoder(t, d) => t in s.lookups && s.lookups[t].Building?
    case CheckCluster(t, now) => t in s.lookups && s.lookups[t].Stored?
    case DropDecoder(t) => t in s.lookups && s.lookups[t].Dropping?
    case TimerFires => s.janitor && s.run == Idle
    case EvictIdle(cutoff) => s.run == Holding
    case DropDecoders => s.run.Cleaning?
    case EndRun => s.run.Finishing?
    case StopJanitor => s.run == Idle
    case _ => true
  }

  /** UseAdhoc refuses a definition whose short name is taken by another one. */
  predicate Refuses(env: Env, s: State, settings: string) {
    var name := AdhocName(env, settings);
    name in s.clusters && (name !in s.digests || s.digests[name] != env.digestOf(settings))
  }

  function Register(env: Env, s: State, thread: Thread, settings: string, now: int): State {
    var name := AdhocName(env, settings);
    if Refuses(env, s, settings) then s
    else if name in s.clusters then Touch(s, name, now)
    else s.(clusters := s.clusters[name := ClusterConfig(name, settings, "")], masking := s.masking[name := ""],
            lastUsed := s.lastUsed[name := now], digests := s.digests[name := env.digestOf(settings)],
            starters := s.starters + {thread})
  }

  /** The ad-hoc clusters last used at the cutoff or before. */
  function IdleNames(s: State, cutoff: int): set<Name> {
    set name | name in s.lastUsed && s.lastUsed[name] <= cutoff
  }

  /** The registry without everything mu guards for some clusters. */
  function Without(s: State, names: set<Name>): State {
    s.(clusters := s.clusters - names, masking := s.masking - names, lastUsed := s.lastUsed - names,
       digests := s.digests - names, clients := s.clients - names, caps := s.caps - names)
  }

  function Evict(s: State, cutoff: int): State {
    var idle := IdleNames(s, cutoff);
    var left := Without(s, idle);
    left.(run := if idle == {} then Finishing(|left.lastUsed|) else Cleaning(idle, |left.lastUsed|))
  }

  /** `created` is what kgo.NewClient gives, None when it fails. */
  function Client(s: State, name: Name, created: Option<nat>): State {
    if name in s.clients || name !in s.clusters || created.None? then s
      else s.(clients := s.clients[name := created.value])
  }

  /** The decoder a lookup goes on with: a cached one wins. */
  function Winner(s: State, name: Name, d: Decoder): Decoder {
    if name in s.decoders then s.decoders[name] else d
  }

  function Apply(env: Env, s: State, step: Step): State
    requires Enabled(s, step)
  {
    match step
    case UseAdhoc(t, settings, now) => Register(env, s, t, settings, now)
    case StartJanitor(t) => s.(starters := s.starters - {t}, janitor := s.janitor || !s.janitorClosed)
    case Use(name, now) => Touch(s, name, now)
    case GetClient(name, use, now, created) => Client(if use then Touch(s, name, now) else s, name, created)
    case StoreCaps(name, c) => if name in s.clusters then s.(caps := s.caps[name := c]) else s
    case RefreshCaps(name) => s.(caps := s.caps - {name})
    case CloseClients => s.(clients := map[])
    case BeginLookup(t, name) => if name in s.decoders then s else s.(lookups := s.lookups[t := Building(name)])
    case StoreDecoder(t, d) =>
      var name := s.lookups[t].name;
      var w := Winner(s, name, d);
      s.(decoders := s.decoders[name := w], lookups := s.lookups[t := Stored(name, w)])
    case CheckCluster(t, now) =>
      var l := s.lookups[t];
      Touch(s, l.name, now).(lookups := if l.name in s.clusters then s.lookups - {t}
        else s.lookups[t := Dropping(l.name, l.decoder)])
    case DropDecoder(t) =>
      var l := s.lookups[t];
      s.(decoders := if l.name in s.decoders && s.decoders[l.name] == l.decoder then s.decoders - {l.name}
        else s.decoders,
         lookups := s.lookups - {t})
    case TimerFires => if s.janitorClosed then s else s.(run := Holding)
    case EvictIdle(cutoff) => Evict(s, cutoff)
    case DropDecoders => s.(decoders := s.decoders - s.run.names, run := Finishing(s.run.remaining))
    case EndRun => s.(janitor := s.run.remaining != 0, run := Idle)
    case StopJanitor => s.(janitorClosed := true, janitor := false)
  }

  // --- what every step keeps ---

  /** The ad-hoc names of all maps coincide; clients and capabilities only exist for registered clusters. */
  ghost predicate KeysCoincide(s: State) {
    && s.masking.Keys == s.clusters.Keys
    && s.digests.Keys == s.lastUsed.Keys
    && (forall name :: name in s.lastUsed <==> name in s.clusters && IsAdhocName(name))
    && s.clients.Keys <= s.clusters.Keys
    && s.caps.Keys <= s.clusters.Keys
  }

  /** Every ad-hoc entry holds the settings its digest and its name were made of. */
  ghost predicate EntriesMatch(env: Env, s: State) {
    forall name :: name in s.digests && name in s.clusters ==>
      && s.clusters[name].name == name
      && s.digests[name] == env.digestOf(s.clusters[name].settings)
      && name == ADHOC_PREFIX + env.short(s.digests[name])
  }

  /** The lookup has yet to check that its cluster is still registered, or to drop its decoder. */
  predicate WillCheck(l: Lookup, name: Name, d: Decoder) {
    !l.Building? && l.name == name && l.decoder == d
  }

  /** A call in flight will see that the decoder of this name goes. */
  ghost predicate WillDrop(s: State, name: Name, d: Decoder) {
    || (s.run.Cleaning? && name in s.run.names)
    || exists t :: t in s.lookups && WillCheck(s.lookups[t], name, d)
  }

  /** A decoder is cached for a registered cluster, or a call in flight drops it. */
  ghost predicate DecodersOwned(s: State) {
    forall name :: name in s.decoders ==> name in s.clusters || WillDrop(s, name, s.decoders[name])
  }

  /** While ad-hoc clusters are registered the janitor comes, unless the registry is closed. */
  ghost predicate JanitorComes(s: State) {
    && (s.run != Idle ==> s.janitor && !s.janitorClosed)
    && (s.lastUsed != map[] ==>
          s.janitorClosed || s.starters != {} || (s.janitor && !(s.run.Cleaning? && s.run.remaining == 0)
            && s.run != Finishing(0)))
  }

  ghost predicate IsSafe(env: Env, s: State) {
    KeysCoincide(s) && EntriesMatch(env, s) && DecodersOwned(s) && JanitorComes(s)
  }
}
