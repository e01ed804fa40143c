/** The running exporter's shared state, one caller at a time: main.go. `Reload` has the interleavings. */
module Exporter {
  import opened Wrappers
  import opened Results
  import opened Config
  import opened DelegationCache
  import Delegation
  import ProbeLoop
  import Registry
  import Runner

  const DEFAULT_ROOTS: seq<string> := [
    "198.41.0.4:53", "170.247.170.2:53", "192.33.4.12:53", "199.7.91.13:53", "192.203.230.10:53"]

  /** Each configured zone's probers label their results with the zone and their own name. */
  ghost predicate ProbesZones(probe: Config -> seq<ProbeLoop.Outcomes>, cfg: Config) {
    && |probe(cfg)| == |cfg.zones|
    && forall i :: 0 <= i < |cfg.zones| ==> ProbeLoop.Named(probe(cfg)[i], cfg.zones[i])
  }

  class Exporter {
    const parse: Parser
    const cache: Cache<Delegation.DelegationResult>
    var config: Config
    /** The configuration whose address mapping the prober calls. */
    var resolver: Config
    var rootServers: seq<string>
    var registry: Option<Registry.Metrics>
    var running: bool
    const gauges: Runner.CycleRunner
    /** The cycles completed so far: the configuration of each, and what it gathered. */
    ghost var cycles: seq<(Config, seq<ProbeResult>)>

    /** The registry is that of the last completed cycle; there is none until one has completed. */
    ghost predicate Valid()
      reads this`registry, this`cycles, cache, gauges
    {
      && cache.Valid()
      && (registry.None? <==> cycles == [])
      && (cycles != [] ==>
            && Registry.IsBuilt(registry.value, cycles[|cycles| - 1].1)
            && Runner.Aggregates(gauges.Published(), cycles[|cycles| - 1].0.zones, cycles[|cycles| - 1].1))
    }

    /** The prober's two globals are the ones this configuration asks for. */
    ghost predicate InForce(cfg: Config)
      reads this
    {
      && (forall ip :: ResolveAddress(parse, resolver, ip) == ResolveAddress(parse, cfg, ip))
      && rootServers == (if cfg.rootServers == [] then DEFAULT_ROOTS else cfg.rootServers)
    }

    constructor (parse: Parser, cfg: Config, ttl: int)
      ensures Valid() && fresh(cache) && fresh(gauges) && cache.history == [] && cycles == []
      ensures this.parse == parse && config == cfg && InForce(cfg) && !running
    {
      this.parse := parse;
      config, resolver := cfg, cfg;
      rootServers := if |cfg.rootServers| > 0 then cfg.rootServers else DEFAULT_ROOTS;
      registry, running, cycles := None, false, [];
      cache := new Cache(ttl);
      gauges := new Runner.CycleRunner();
    }

    /** Nothing of the previous configuration survives, an override or root list it had included. */
    method ApplyReloadedConfig(newCfg: Config)
      requires Valid()
      modifies this`config, this`resolver, this`rootServers, cache
      ensures Valid() && config == newCfg && InForce(newCfg)
      ensures cache.history == old(cache.history) + [Cleared]
    {
      config := newCfg;
      resolver := newCfg;
      if |newCfg.rootServers| > 0 {
        rootServers := newCfg.rootServers;
      } else {
        rootServers := DEFAULT_ROOTS;
      }
      cache.Invalidate();
    }

    /** The reload endpoint and the SIGHUP loop: a configuration that does not load changes nothing. */
    method Reload(loaded: Result<Config>) returns (ok: bool)
      requires Valid()
      modifies this`config, this`resolver, this`rootServers, cache
      ensures Valid() && ok == loaded.Success?
      ensures ok ==> config == loaded.value && InForce(loaded.value) && cache.history == old(cache.history) + [Cleared]
      ensures !ok ==> unchanged(this) && unchanged(cache)
    {
      if loaded.Failure? {
        return false;
      }
      ApplyReloadedConfig(loaded.value);
      return true;
    }

    /** `probe` is what the probers come to, zone by zone, over the configuration at hand. */
    method RunCycle(probe: Config -> seq<ProbeLoop.Outcomes>)
      requires Valid() && ProbesZones(probe, config)
      modifies this`running, this`registry, this`cycles, gauges
      ensures Valid() && running == old(running)
      ensures old(running) ==> cycles == old(cycles) && registry == old(registry) && unchanged(gauges)
      ensures !old(running) ==>
                exists results :: ProbeLoop.Gathers(probe(config), config.zones, results)
                                  && cycles == old(cycles) + [(config, results)]
    {
      if running {
        return;
      }
      running := true;
      var cfg := config;
      var results := ProbeLoop.GatherAll(probe(cfg), cfg.zones);
      Publish(cfg, results);
      running := false;
      assert ProbeLoop.Gathers(probe(config), config.zones, results);
    }

    /** The end of a cycle: gauges and registry from what it gathered. */
    method Publish(cfg: Config, results: seq<ProbeResult>)
      requires Valid()
      modifies this`registry, this`cycles, gauges
      ensures Valid() && cycles == old(cycles) + [(cfg, results)]
    {
      gauges.Aggregate(cfg.zones, results);
      var built := Registry.BuildRegistry(results);
      registry := Some(built);
      cycles := cycles + [(cfg, results)];
    }

    /** The /metrics handler. None, the 503, is served exactly until the first cycle has completed. */
    method Metrics() returns (r: Option<Registry.Metrics>)
      requires Valid()
      ensures r.None? <==> cycles == []
      ensures r.Some? ==> Registry.IsBuilt(r.value, cycles[|cycles| - 1].1)
    {
      var reg := registry;
      if reg.None? {
        return None;
      }
      return reg;
    }
  }
}
