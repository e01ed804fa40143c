/** What a probe hands to the cycle: prober/result.go. */
module Results {
  import opened Text

  datatype ProbeResult = ProbeResult(
    zone: string, check: string, nameserver: string, ip: string, success: bool, timedOut: bool,
    duration: real, metrics: map<string, real>, labels: map<string, string>)

  /** The case-folded FQDN under which DNS names are compared. */
  function CanonName(name: string): string {
    ToLower(if name != [] && name[|name| - 1] == '.' then name else name + ".")
  }

  lemma CanonNameIsIdempotent(name: string)
    ensures CanonName(CanonName(name)) == CanonName(name)
  {
    var c := CanonName(name);
    assert c[|c| - 1] == '.';
    assert ToLower(c) == c;
  }
}
