/** Probe cycles and configuration reloads running against each other: main.go, cycle/runner.go. */
module Reload {
  import opened Wrappers

  // ----- state -----

  /**
   * A delegation walk: when it began, whose configuration had bound the roots it starts from, and
   * whose address mappings it has read, one at each hop.
   */
  datatype Walk = Walk(started: nat, roots: nat, mappings: set<nat>)

  /** Where one zone's goroutine is with its delegation. */
  datatype Task = Pending | Walking(walk: Walk) | Have(walk: Walk) | Done(used: Option<Walk>)

  /** Where one call of `runCycle` is. */
  datatype Cycle = Idle | Holding | Running(cfg: nat, tasks: seq<Task>) | Built(cfg: nat, tasks: seq<Task>) | Stored

  /** Where one reload is: its steps are not atomic together. */
  datatype Reloading = Off | ConfigStored(cfg: nat) | ResolverBound(cfg: nat) | RootsBound(cfg: nat)

  /** The registry of a finished cycle: its configuration and what each zone used. */
  datatype Published = Published(cfg: nat, tasks: seq<Task>)

  /** Configurations are numbered; `resolver` and `roots` name the one that bound the prober's globals. */
  datatype State = State(
    config: nat, resolver: nat, roots: nat, cache: map<string, Walk>, token: bool,
    cycles: seq<Cycle>, reloads: seq<Reloading>, registry: Option<Published>, clock: nat)

  /** The zones of each configuration. */
  type Zones = nat -> seq<string>

  // ----- steps -----

  /** `p` is a caller of `runCycle`, `i` a zone of its configuration, `q` a reloader. */
  datatype Action =
    | Acquire(p: nat) | LoadConfig(p: nat)
    | CacheHit(p: nat, i: nat) | CacheMiss(p: nat, i: nat)
    | WalkHop(p: nat, i: nat) | WalkDone(p: nat, i: nat) | WalkFailed(p: nat, i: nat)
    | Use(p: nat, i: nat)
    | Wait(p: nat) | StoreRegistry(p: nat) | Release(p: nat)
    | StoreConfig(q: nat, cfg: nat) | BindResolver(q: nat) | BindRoots(q: nat) | Invalidate(q: nat)

  predicate HasTask(s: State, p: nat, i: nat) {
    p < |s.cycles| && s.cycles[p].Running? && i < |s.cycles[p].tasks|
  }

  predicate Enabled(zones: Zones, s: State, a: Action) {
    match a
    case Acquire(p) => p < |s.cycles| && s.cycles[p].Idle? && !s.token
    case LoadConfig(p) => p < |s.cycles| && s.cycles[p].Holding?
    case CacheHit(p, i) =>
      && HasTask(s, p, i) && s.cycles[p].tasks[i].Pending?
      && i < |zones(s.cycles[p].cfg)| && zones(s.cycles[p].cfg)[i] in s.cache
    case CacheMiss(p, i) => HasTask(s, p, i) && s.cycles[p].tasks[i].Pending?
    case WalkHop(p, i) => HasTask(s, p, i) && s.cycles[p].tasks[i].Walking?
    case WalkDone(p, i) => HasTask(s, p, i) && s.cycles[p].tasks[i].Walking? && i < |zones(s.cycles[p].cfg)|
    case WalkFailed(p, i) => HasTask(s, p, i) && s.cycles[p].tasks[i].Walking?
    case Use(p, i) => HasTask(s, p, i) && s.cycles[p].tasks[i].Have?
    case Wait(p) => p < |s.cycles| && s.cycles[p].Running? && AllDone(s.cycles[p].tasks)
    case StoreRegistry(p) => p < |s.cycles| && s.cycles[p].Built?
    case Release(p) => p < |s.cycles| && s.cycles[p].Stored?
    case StoreConfig(q, _) => q < |s.reloads| && s.reloads[q].Off?
    case BindResolver(q) => q < |s.reloads| && s.reloads[q].ConfigStored?
    case BindRoots(q) => q < |s.reloads| && s.reloads[q].ResolverBound?
    case Invalidate(q) => q < |s.reloads| && s.reloads[q].RootsBound?
  }

  predicate AllDone(tasks: seq<Task>) {
    forall i :: 0 <= i < |tasks| ==> tasks[i].Done?
  }

  function SetTask(s: State, p: nat, i: nat, task: Task): State
    requires HasTask(s, p, i)
  {
    s.(cycles := s.cycles[p := Running(s.cycles[p].cfg, s.cycles[p].tasks[i := task])])
  }

  /** The effect of a step, but for the clock. */
  function Effect(zones: Zones, s: State, a: Action): State
    requires Enabled(zones, s, a)
  {
    match a
    case Acquire(p) => s.(token := true, cycles := s.cycles[p := Holding])
    case LoadConfig(p) => s.(cycles := s.cycles[p := Running(s.config, seq(|zones(s.config)|, _ => Pending))])
    case CacheHit(p, i) => SetTask(s, p, i, Have(s.cache[zones(s.cycles[p].cfg)[i]]))
    case CacheMiss(p, i) => SetTask(s, p, i, Walking(Walk(s.clock, s.roots, {})))
    case WalkHop(p, i) =>
      var w := s.cycles[p].tasks[i].walk;
      SetTask(s, p, i, Walking(w.(mappings := w.mappings + {s.resolver})))
    case WalkDone(p, i) =>
      var w := s.cycles[p].tasks[i].walk;
      SetTask(s, p, i, Have(w)).(cache := s.cache[zones(s.cycles[p].cfg)[i] := w])
    case WalkFailed(p, i) => SetTask(s, p, i, Done(None))
    case Use(p, i) => SetTask(s, p, i, Done(Some(s.cycles[p].tasks[i].walk)))
    case Wait(p) => s.(cycles := s.cycles[p := Built(s.cycles[p].cfg, s.cycles[p].tasks)])
    case StoreRegistry(p) =>
      s.(registry := Some(Published(s.cycles[p].cfg, s.cycles[p].tasks)), cycles := s.cycles[p := Stored])
    case Release(p) => s.(token := false, cycles := s.cycles[p := Idle])
    case StoreConfig(q, c) => s.(config := c, reloads := s.reloads[q := ConfigStored(c)])
    case BindResolver(q) => s.(resolver := s.reloads[q].cfg, reloads := s.reloads[q := ResolverBound(s.reloads[q].cfg)])
    case BindRoots(q) => s.(roots := s.reloads[q].cfg, reloads := s.reloads[q := RootsBound(s.reloads[q].cfg)])
    case Invalidate(q) => s.(cache := map[], reloads := s.reloads[q := Off])
  }

  function Next(zones: Zones, s: State, a: Action): State
    requires Enabled(zones, s, a)
  {
    Effect(zones, s, a).(clock := s.clock + 1)
  }

  // ----- runs -----

  predicate CanRun(zones: Zones, s: State, run: seq<Action>)
    decreases |run|
  {
    run == [] || (Enabled(zones, s, run[0]) && CanRun(zones, Next(zones, s, run[0]), run[1..]))
  }

  function After(zones: Zones, s: State, run: seq<Action>): State
    requires CanRun(zones, s, run)
    decreases |run|
  {
    if run == [] then s else After(zones, Next(zones, s, run[0]), run[1..])
  }

  /** Startup: everything bound by configuration 0, nothing cached, nothing published. */
  ghost predicate Init(s: State) {
    && s.config == s.resolver == s.roots == 0 && s.cache == map[] && !s.token && s.registry == None && s.clock == 0
    && (forall p :: 0 <= p < |s.cycles| ==> s.cycles[p].Idle?)
    && (forall q :: 0 <= q < |s.reloads| ==> s.reloads[q].Off?)
  }

  // ----- one cycle at a time, and whole registries -----

  /** A finished run over one configuration: every zone of it accounted for. */
  ghost predicate Whole(zones: Zones, cfg: nat, tasks: seq<Task>) {
    |tasks| == |zones(cfg)| && AllDone(tasks)
  }

  ghost predicate Inv(zones: Zones, s: State) {
    && (forall p, q ::
          0 <= p < |s.cycles| && 0 <= q < |s.cycles| && !s.cycles[p].Idle? && !s.cycles[q].Idle? ==> p == q)
    && (s.token <==> exists p :: 0 <= p < |s.cycles| && !s.cycles[p].Idle?)
    && (forall p :: 0 <= p < |s.cycles| && s.cycles[p].Running? ==> |s.cycles[p].tasks| == |zones(s.cycles[p].cfg)|)
    && (forall p :: 0 <= p < |s.cycles| && s.cycles[p].Built? ==> Whole(zones, s.cycles[p].cfg, s.cycles[p].tasks))
    && (s.registry.Some? ==> Whole(zones, s.registry.value.cfg, s.registry.value.tasks))
    && WalksBefore(s, s.clock)
  }

  /** Every walk under way, in use or cached satisfies a bound on its start. */
  ghost predicate WalksBefore(s: State, t: nat) {
    && (forall z <- s.cache :: s.cache[z].started < t)
    && (forall p: nat, i: nat ::
          HasTask(s, p, i) && HasWalk(s.cycles[p].tasks[i]) ==> s.cycles[p].tasks[i].walk.started < t)
  }

  predicate HasWalk(task: Task) {
    task.Walking? || task.Have?
  }

  lemma StepKeepsInv(zones: Zones, s: State, a: Action)
    requires Inv(zones, s) && Enabled(zones, s, a)
    ensures Inv(zones, Next(zones, s, a))
  {
    var s' := Next(zones, s, a);
    StepKeepsToken(zones, s, a);
    StepKeepsWhole(zones, s, a);
    StepKeepsWalks(zones, s, a);
  }

  ghost predicate TokenInv(s: State) {
    && (forall p, q ::
          0 <= p < |s.cycles| && 0 <= q < |s.cycles| && !s.cycles[p].Idle? && !s.cycles[q].Idle? ==> p == q)
    && (s.token <==> exists p :: 0 <= p < |s.cycles| && !s.cycles[p].Idle?)
  }

  lemma StepKeepsToken(zones: Zones, s: State, a: Action)
    requires TokenInv(s) && Enabled(zones, s, a)
    ensures TokenInv(Next(zones, s, a))
  {
    var s' := Next(zones, s, a);
    assert a.Acquire? ==> !s'.cycles[a.p].Idle?;
    if s.token && !a.Release? {
      var p :| 0 <= p < |s.cycles| && !s.cycles[p].Idle?;
      assert !s'.cycles[p].Idle?;
    }
  }

  lemma StepKeepsWhole(zones: Zones, s: State, a: Action)
    requires Inv(zones, s) && Enabled(zones, s, a)
    ensures
      var s' := Next(zones, s, a);
      && (forall p :: 0 <= p < |s'.cycles| && s'.cycles[p].Running? ==>
            |s'.cycles[p].tasks| == |zones(s'.cycles[p].cfg)|)
      && (forall p :: 0 <= p < |s'.cycles| && s'.cycles[p].Built? ==>
            Whole(zones, s'.cycles[p].cfg, s'.cycles[p].tasks))
      && (s'.registry.Some? ==> Whole(zones, s'.registry.value.cfg, s'.registry.value.tasks))
  {
  }

  lemma StepKeepsWalks(zones: Zones, s: State, a: Action)
    requires Inv(zones, s) && Enabled(zones, s, a)
    ensures WalksBefore(Next(zones, s, a), s.clock + 1)
  {
  }

  /** Safety over every run: see `Inv`. */
  lemma {:induction false} RunKeepsInv(zones: Zones, s: State, run: seq<Action>)
    requires Inv(zones, s) && CanRun(zones, s, run)
    ensures Inv(zones, After(zones, s, run))
    decreases |run|
  {
    if run != [] {
      StepKeepsInv(zones, s, run[0]);
      RunKeepsInv(zones, Next(zones, s, run[0]), run[1..]);
    }
  }

  // ----- the published registry -----

  predicate HasConfig(c: Cycle) {
    c.Running? || c.Built?
  }

  /** The configurations that were current when some cycle of the run took its snapshot. */
  function Snapshots(zones: Zones, s: State, run: seq<Action>): set<nat>
    requires CanRun(zones, s, run)
    decreases |run|
  {
    if run == [] then {}
    else (if run[0].LoadConfig? then {s.config} else {}) + Snapshots(zones, Next(zones, s, run[0]), run[1..])
  }

  ghost predicate ConfigsIn(s: State, among: set<nat>) {
    && (forall p :: 0 <= p < |s.cycles| && HasConfig(s.cycles[p]) ==> s.cycles[p].cfg in among)
    && (s.registry.Some? ==> s.registry.value.cfg in among)
  }

  lemma {:induction false} ConfigsAreSnapshots(zones: Zones, s: State, run: seq<Action>, among: set<nat>)
    requires CanRun(zones, s, run) && ConfigsIn(s, among)
    ensures ConfigsIn(After(zones, s, run), among + Snapshots(zones, s, run))
    decreases |run|
  {
    if run != [] {
      var s' := Next(zones, s, run[0]);
      var more := if run[0].LoadConfig? then {s.config} else {};
      assert ConfigsIn(s', among + more);
      ConfigsAreSnapshots(zones, s', run[1..], among + more);
      assert among + more + Snapshots(zones, s', run[1..]) == among + Snapshots(zones, s, run);
    }
  }

  lemma {:induction false} RegistryStays(zones: Zones, s: State, run: seq<Action>)
    requires CanRun(zones, s, run)
    ensures After(zones, s, run).registry.Some? <==> s.registry.Some? || exists a <- run :: a.StoreRegistry?
    decreases |run|
  {
    if run != [] {
      RegistryStays(zones, Next(zones, s, run[0]), run[1..]);
      assert run == [run[0]] + run[1..];
    }
  }

  /**
   * Over every run from startup: cycles never overlap; the registry is missing exactly until the
   * first cycle has stored one; and what it then holds is one whole cycle's outcome for all zones
   * of a single configuration, the one current when a cycle took its snapshot.
   */
  lemma CycleSafety(zones: Zones, s: State, run: seq<Action>)
    requires Init(s) && CanRun(zones, s, run)
    ensures
      var t := After(zones, s, run);
      && TokenInv(t)
      && (t.registry.None? <==> forall a <- run :: !a.StoreRegistry?)
      && (t.registry.Some? ==>
            && Whole(zones, t.registry.value.cfg, t.registry.value.tasks)
            && t.registry.value.cfg in Snapshots(zones, s, run))
  {
    RunKeepsInv(zones, s, run);
    RegistryStays(zones, s, run);
    ConfigsAreSnapshots(zones, s, run, {});
    assert {} + Snapshots(zones, s, run) == Snapshots(zones, s, run);
  }

  // ----- does a reload force fresh walks? -----

  /** Some zone's goroutine is between the start of a walk, or a cache hit, and the end of its use. */
  ghost predicate InFlight(s: State) {
    exists p: nat, i: nat :: HasTask(s, p, i) && HasWalk(s.cycles[p].tasks[i])
  }

  /** A zone is about to be probed with a delegation whose walk began before `t`. */
  ghost predicate UsesOld(s: State, p: nat, i: nat, t: nat) {
    HasTask(s, p, i) && s.cycles[p].tasks[i].Have? && s.cycles[p].tasks[i].walk.started < t
  }

  ghost predicate CanUseOld(zones: Zones, s: State, t: nat) {
    exists run, p, i :: CanRun(zones, s, run) && UsesOld(After(zones, s, run), p, i, t)
  }

  /** Every walk under way, in use or cached began at `t` or later, and, if asked for, from these roots. */
  ghost predicate WalksFrom(s: State, t: nat, roots: Option<nat>) {
    && (forall z <- s.cache :: IsFrom(s.cache[z], t, roots))
    && (forall p: nat, i: nat :: HasTask(s, p, i) && HasWalk(s.cycles[p].tasks[i]) ==>
          IsFrom(s.cycles[p].tasks[i].walk, t, roots))
  }

  predicate IsFrom(w: Walk, t: nat, roots: Option<nat>) {
    w.started >= t && (roots.Some? ==> w.roots == roots.value && w.mappings <= {roots.value})
  }

  lemma {:induction false} RunKeepsWalksFrom(zones: Zones, s: State, run: seq<Action>, t: nat)
    requires CanRun(zones, s, run) && WalksFrom(s, t, None) && t <= s.clock
    ensures WalksFrom(After(zones, s, run), t, None)
    decreases |run|
  {
    if run != [] {
      StepKeepsWalksFrom(zones, s, run[0], t, None);
      RunKeepsWalksFrom(zones, Next(zones, s, run[0]), run[1..], t);
    }
  }

  lemma StepKeepsWalksFrom(zones: Zones, s: State, a: Action, t: nat, roots: Option<nat>)
    requires Enabled(zones, s, a) && WalksFrom(s, t, roots) && t <= s.clock
    requires roots.Some? ==> s.roots == s.resolver == roots.value
    ensures WalksFrom(Next(zones, s, a), t, roots)
  {
  }

  /**
   * The reload comment says the next cycle re-walks. That holds exactly when no zone has a walk
   * or a delegation in hand at the moment of the invalidation: then nothing used later is older
   * than it, and otherwise some continuation uses an older one.
   */
  lemma ReloadForcesFreshWalksIff(zones: Zones, s: State)
    requires Inv(zones, s) && s.cache == map[]
    ensures !CanUseOld(zones, s, s.clock) <==> !InFlight(s)
  {
    if InFlight(s) {
      var p: nat, i: nat :| HasTask(s, p, i) && HasWalk(s.cycles[p].tasks[i]);
      if s.cycles[p].tasks[i].Have? {
        NoStep(zones, s);
        assert UsesOld(After(zones, s, []), p, i, s.clock);
      } else {
        var a := WalkDone(p, i);
        NoStep(zones, Next(zones, s, a));
        OneStep(zones, s, a, []);
        assert [a] == [a] + [];
        assert CanRun(zones, s, [a]) && After(zones, s, [a]) == Next(zones, s, a);
        assert UsesOld(After(zones, s, [a]), p, i, s.clock);
      }
    } else {
      forall run, p, i | CanRun(zones, s, run) ensures !UsesOld(After(zones, s, run), p, i, s.clock) {
        RunKeepsWalksFrom(zones, s, run, s.clock);
      }
    }
  }

  // ----- does a reload take effect as a whole? -----

  ghost predicate Quiet(s: State) {
    forall q :: 0 <= q < |s.reloads| ==> s.reloads[q].Off?
  }

  ghost predicate Agree(s: State) {
    s.config == s.resolver == s.roots
  }

  lemma {:induction false} NoReloadKeepsWalksFrom(zones: Zones, s: State, run: seq<Action>, t: nat)
    requires CanRun(zones, s, run) && WalksFrom(s, t, Some(s.roots)) && t <= s.clock
    requires Quiet(s) && s.resolver == s.roots && forall a <- run :: !a.StoreConfig?
    ensures WalksFrom(After(zones, s, run), t, Some(s.roots)) && After(zones, s, run).config == s.config
    decreases |run|
  {
    if run != [] {
      var a, s' := run[0], Next(zones, s, run[0]);
      assert a in run && forall b <- run[1..] :: b in run;
      StepKeepsWalksFrom(zones, s, a, t, Some(s.roots));
      assert s'.roots == s.roots && s'.resolver == s.resolver && s'.config == s.config && Quiet(s');
      NoReloadKeepsWalksFrom(zones, s', run[1..], t);
    }
  }

  /**
   * A reload that ended with no zone in flight and no other reload under way is in force: until
   * the next one starts, whatever is probed was walked after it, from its own configuration's
   * roots and with its own configuration's address mapping at every hop.
   */
  lemma ReloadIsInForce(zones: Zones, s: State, run: seq<Action>, p: nat, i: nat)
    requires s.cache == map[] && !InFlight(s) && Quiet(s) && Agree(s)
    requires CanRun(zones, s, run) && forall a <- run :: !a.StoreConfig?
    requires HasTask(After(zones, s, run), p, i) && After(zones, s, run).cycles[p].tasks[i].Have?
    ensures
      var t := After(zones, s, run);
      && t.config == s.config
      && t.cycles[p].tasks[i].walk.started >= s.clock
      && t.cycles[p].tasks[i].walk.roots == s.config
      && t.cycles[p].tasks[i].walk.mappings <= {s.config}
  {
    NoReloadKeepsWalksFrom(zones, s, run, s.clock);
  }

  /** With one reloader, how far it has got tells which globals already follow the configuration. */
  ghost predicate SoleReloader(s: State) {
    && |s.reloads| <= 1
    && (s.reloads == [] ==> Agree(s))
    && (s.reloads != [] ==>
          match s.reloads[0]
          case Off => Agree(s)
          case ConfigStored(c) => s.config == c
          case ResolverBound(c) => s.config == s.resolver == c
          case RootsBound(c) => s.config == s.resolver == s.roots == c)
  }

  lemma {:induction false} SoleReloaderKeeps(zones: Zones, s: State, run: seq<Action>)
    requires CanRun(zones, s, run) && SoleReloader(s)
    ensures SoleReloader(After(zones, s, run))
    decreases |run|
  {
    if run != [] {
      SoleReloaderKeeps(zones, Next(zones, s, run[0]), run[1..]);
    }
  }

  /** Two reloaders, interleaved: the second one's configuration and resolver, the first one's roots. */
  const OVERLAP: seq<Action> := [StoreConfig(0, 1), BindResolver(0), StoreConfig(1, 2), BindResolver(1)]
  const REORDER: seq<Action> := [BindRoots(1), Invalidate(1), BindRoots(0), Invalidate(0)]

  lemma {:induction false} AfterConcat(zones: Zones, s: State, a: seq<Action>, b: seq<Action>)
    requires CanRun(zones, s, a) && CanRun(zones, After(zones, s, a), b)
    ensures CanRun(zones, s, a + b) && After(zones, s, a + b) == After(zones, After(zones, s, a), b)
    decreases |a|
  {
    if a == [] {
      assert a + b == b;
    } else {
      assert (a + b)[1..] == a[1..] + b;
      AfterConcat(zones, Next(zones, s, a[0]), a[1..], b);
    }
  }

  lemma OneStep(zones: Zones, s: State, a: Action, rest: seq<Action>)
    requires Enabled(zones, s, a) && CanRun(zones, Next(zones, s, a), rest)
    ensures CanRun(zones, s, [a] + rest)
    ensures After(zones, s, [a] + rest) == After(zones, Next(zones, s, a), rest)
  {
    assert ([a] + rest)[1..] == rest;
  }

  lemma NoStep(zones: Zones, s: State)
    ensures CanRun(zones, s, []) && After(zones, s, []) == s
  {
  }

  lemma FourSteps(zones: Zones, s: State, a: Action, b: Action, c: Action, d: Action)
    requires Enabled(zones, s, a)
    requires var s1 := Next(zones, s, a);
      Enabled(zones, s1, b) &&
      var s2 := Next(zones, s1, b);
      Enabled(zones, s2, c) && Enabled(zones, Next(zones, s2, c), d)
    ensures CanRun(zones, s, [a, b, c, d])
    ensures After(zones, s, [a, b, c, d]) == Next(zones, Next(zones, Next(zones, Next(zones, s, a), b), c), d)
  {
    assert [d] == [d] + [] && [c, d] == [c] + [d] && [b, c, d] == [b] + [c, d] && [a, b, c, d] == [a] + [b, c, d];
    var s1 := Next(zones, s, a);
    var s2 := Next(zones, s1, b);
    var s3 := Next(zones, s2, c);
    NoStep(zones, Next(zones, s3, d));
    OneStep(zones, s3, d, []);
    OneStep(zones, s2, c, [d]);
    OneStep(zones, s1, b, [c, d]);
    OneStep(zones, s, a, [b, c, d]);
  }

  function ReloadSteps(q: nat, cfg: nat): seq<Action> {
    [StoreConfig(q, cfg), BindResolver(q), BindRoots(q), Invalidate(q)]
  }

  /** The four steps of one reload, one by one. */
  lemma ReloadEffect(zones: Zones, s: State, q: nat, cfg: nat, s1: State, s2: State, s3: State)
    requires q < |s.reloads| && s.reloads[q].Off?
    requires s1 == s.(config := cfg, reloads := s.reloads[q := ConfigStored(cfg)], clock := s.clock + 1)
    requires s2 == s1.(resolver := cfg, reloads := s.reloads[q := ResolverBound(cfg)], clock := s.clock + 2)
    requires s3 == s2.(roots := cfg, reloads := s.reloads[q := RootsBound(cfg)], clock := s.clock + 3)
    ensures Enabled(zones, s, StoreConfig(q, cfg)) && Next(zones, s, StoreConfig(q, cfg)) == s1
    ensures Enabled(zones, s1, BindResolver(q)) && Next(zones, s1, BindResolver(q)) == s2
    ensures Enabled(zones, s2, BindRoots(q)) && Next(zones, s2, BindRoots(q)) == s3
    ensures Enabled(zones, s3, Invalidate(q))
    ensures Next(zones, s3, Invalidate(q)) == s3.(cache := map[], reloads := s.reloads, clock := s.clock + 4)
  {
    assert s3.reloads[q := Off] == s.reloads;
  }

  /** What an undisturbed reload comes to: everything bound by the new configuration, nothing cached. */
  lemma UndisturbedReload(zones: Zones, s: State, q: nat, cfg: nat, run: seq<Action>)
    requires q < |s.reloads| && s.reloads[q].Off? && run == ReloadSteps(q, cfg)
    ensures CanRun(zones, s, run)
    ensures After(zones, s, run)
         == s.(config := cfg, resolver := cfg, roots := cfg, cache := map[], clock := s.clock + 4)
  {
    var s1 := s.(config := cfg, reloads := s.reloads[q := ConfigStored(cfg)], clock := s.clock + 1);
    var s2 := s1.(resolver := cfg, reloads := s.reloads[q := ResolverBound(cfg)], clock := s.clock + 2);
    var s3 := s2.(roots := cfg, reloads := s.reloads[q := RootsBound(cfg)], clock := s.clock + 3);
    ReloadEffect(zones, s, q, cfg, s1, s2, s3);
    FourSteps(zones, s, StoreConfig(q, cfg), BindResolver(q), BindRoots(q), Invalidate(q));
  }

  lemma ReloadsOverlap(zones: Zones, s: State)
    requires Quiet(s) && |s.reloads| >= 2
    ensures CanRun(zones, s, OVERLAP)
    ensures
      var t := After(zones, s, OVERLAP);
      t == s.(config := 2, resolver := 2, clock := s.clock + 4,
              reloads := s.reloads[0 := ResolverBound(1)][1 := ResolverBound(2)])
  {
    FourSteps(zones, s, StoreConfig(0, 1), BindResolver(0), StoreConfig(1, 2), BindResolver(1));
  }

  lemma RootsReorder(zones: Zones, s: State)
    requires |s.reloads| >= 2 && s.reloads[0] == ResolverBound(1) && s.reloads[1] == ResolverBound(2)
    ensures CanRun(zones, s, REORDER)
    ensures
      var t := After(zones, s, REORDER);
      t.config == s.config && t.roots == 1 && t.reloads == s.reloads[0 := Off][1 := Off]
  {
    FourSteps(zones, s, BindRoots(1), Invalidate(1), BindRoots(0), Invalidate(0));
  }

  lemma ReloadersMix(zones: Zones, s: State)
    requires Init(s) && |s.reloads| >= 2
    ensures CanRun(zones, s, OVERLAP + REORDER)
    ensures Quiet(After(zones, s, OVERLAP + REORDER)) && !Agree(After(zones, s, OVERLAP + REORDER))
  {
    ReloadsOverlap(zones, s);
    RootsReorder(zones, After(zones, s, OVERLAP));
    AfterConcat(zones, s, OVERLAP, REORDER);
  }

  /**
   * Whether the configuration pointer and the two prober globals always agree once no reload is
   * under way: exactly if there is at most one reloader. The program has two kinds, the HTTP
   * handler and the signal loop, and does not make them wait for each other.
   */
  lemma GlobalsAgreeIff(zones: Zones, s: State)
    requires Init(s)
    ensures (forall run :: CanRun(zones, s, run) && Quiet(After(zones, s, run)) ==> Agree(After(zones, s, run)))
       <==> |s.reloads| <= 1
  {
    if |s.reloads| <= 1 {
      forall run | CanRun(zones, s, run) && Quiet(After(zones, s, run)) ensures Agree(After(zones, s, run)) {
        SoleReloaderKeeps(zones, s, run);
      }
    } else {
      ReloadersMix(zones, s);
    }
  }
}
