/** Address overrides: config/config.go. */
module Config {
  import opened Wrappers

  /** `net.ParseIP(s).String()`: the canonical text of an address, if it is one. */
  type Parser = string -> Option<string>

  datatype Config = Config(zones: seq<string>, overrides: map<string, string>, rootServers: seq<string>)

  /** Two keys for one address with different destinations. */
  ghost predicate Collide(parse: Parser, overrides: map<string, string>, k: string, k': string) {
    && k in overrides && k' in overrides
    && parse(k).Some? && parse(k) == parse(k')
    && overrides[k] != overrides[k']
  }

  /** Every address some key denotes, with that key's destination. */
  ghost predicate IsCanonical(
    parse: Parser, overrides: map<string, string>, keys: set<string>, m: map<string, string>)
  {
    && (forall k <- keys ::
          k in overrides && parse(k).Some? && parse(k).value in m && m[parse(k).value] == overrides[k])
    && (forall c <- m :: exists k <- keys :: parse(k) == Some(c))
  }

  /**
   * Rejects exactly the maps with a key that is no address or with two keys that collide, whatever
   * order the map is read in; otherwise rewrites every key and keeps every destination.
   */
  method CanonicaliseOverrideKeys(parse: Parser, overrides: map<string, string>)
    returns (r: Result<map<string, string>>)
    ensures r.Failure? <==>
              (exists k <- overrides :: parse(k).None?) || exists k, k' :: Collide(parse, overrides, k, k')
    ensures r.Success? ==> IsCanonical(parse, overrides, overrides.Keys, r.value)
  {
    var canonical := map[];
    var left := overrides.Keys;
    while left != {}
      invariant left <= overrides.Keys
      invariant IsCanonical(parse, overrides, overrides.Keys - left, canonical)
      decreases left
    {
      var k :| k in left;
      left := left - {k};
      if parse(k).None? {
        return Failure;
      }
      var key := parse(k).value;
      if key in canonical && canonical[key] != overrides[k] {
        ghost var k' :| k' in overrides.Keys - left - {k} && parse(k') == Some(key);
        assert Collide(parse, overrides, k, k');
        return Failure;
      }
      canonical := canonical[key := overrides[k]];
    }
    assert overrides.Keys - left == overrides.Keys;
    return Success(canonical);
  }

  /** `net.JoinHostPort(ip, "53")`. */
  function WithDefaultPort(ip: string): string {
    if ':' in ip then "[" + ip + "]:53" else ip + ":53"
  }

  function ResolveAddress(parse: Parser, cfg: Config, ip: string): string {
    var key := if parse(ip).Some? then parse(ip).value else ip;
    if key in cfg.overrides then cfg.overrides[key] else WithDefaultPort(ip)
  }

  /**
   * What an operator's override map means once loaded: an address goes where a key for it says, in
   * whatever form either is written, and any other address goes to its own port 53.
   */
  lemma OverridesApplyToEveryForm(parse: Parser, written: map<string, string>, cfg: Config, ip: string)
    requires IsCanonical(parse, written, written.Keys, cfg.overrides)
    requires parse(ip).Some?
    ensures forall k <- written :: parse(k) == parse(ip) ==> ResolveAddress(parse, cfg, ip) == written[k]
    ensures (forall k <- written :: parse(k) != parse(ip)) ==>
              ResolveAddress(parse, cfg, ip) == if (exists c <- ip :: c == ':') then "[" + ip + "]:53" else ip + ":53"
  {
    if parse(ip).value in cfg.overrides {
      var k :| k in written && parse(k) == Some(parse(ip).value);
    }
  }
}
