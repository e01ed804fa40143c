/** What the canonical form of a DNS name is, and which names share it: prober/ns_classification.go. */
module Names {
  import opened Text
  import opened TextMeaning
  import opened Results
  import Dns

  /** The name as an absolute one, letter by letter in lower case. */
  lemma CanonNameIsLowered(name: string)
    ensures SameWord(CanonName(name), Dns.Fqdn(name))
    ensures forall i, c <- UPPER :: 0 <= i < |CanonName(name)| ==> CanonName(name)[i] != c
  {
    var full := Dns.Fqdn(name);
    assert CanonName(name) == ToLower(full);
    assert ToLower(CanonName(name)) == CanonName(name) by {
      assert forall i :: 0 <= i < |full| ==> LowerChar(LowerChar(full[i])) == LowerChar(full[i]);
    }
    FoldIsSameWord(CanonName(name), full);
    forall i, c | c in UPPER && 0 <= i < |CanonName(name)| ensures CanonName(name)[i] != c {
      var k :| 0 <= k < 26 && UPPER[k] == c;
      Alphabet(k);
    }
  }

  /** Two names share it exactly if they differ at most in letter case and in having a final dot. */
  lemma CanonNameIff(a: string, b: string)
    ensures CanonName(a) == CanonName(b) <==> SameWord(Dns.Fqdn(a), Dns.Fqdn(b))
  {
    assert CanonName(a) == ToLower(Dns.Fqdn(a)) && CanonName(b) == ToLower(Dns.Fqdn(b));
    FoldIsSameWord(Dns.Fqdn(a), Dns.Fqdn(b));
  }
}
