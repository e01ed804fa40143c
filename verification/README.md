# DNS health exporter: a verified model

The exporter walks the DNS from its root servers to each configured zone's parent, discovers the
zone's nameservers, runs its probers against them in periodic cycles and publishes the outcome as
gauges. Configurations can be reloaded while it runs, and a generated dashboard shows the gauges as
PASS, FAIL, N/A or WARN. This project models the logic of those parts in Dafny and proves what they
promise, for every record, every network, every schedule and every metric store. Loops and objects
of the program are methods and classes here, each proved against a specification function; the
theorems are about those functions and about whole runs.

| module | models | main results |
|---|---|---|
| `SpfRecord`, `SpfText`, `SpfLookup`, `SpfVerdict`, `SpfExample` | SPF parsing and the lookup budget of RFC 7208, sections 4.6.4 and 6.1, down to the words of a record | `VerdictByText`, `TermMeans`, `VerdictMeetsReference`, `OverBudgetIff`, `CounterIsMonotone`, `FetchesAreBounded` |
| `Dns`, `Sections`, `Resolver`, `NextHop`, `Delegation`, `DelegationVerdict`, `Walkers`, `TxtVerdict`, `TxtProvenance` | the four root-to-authority walks over an arbitrary network | `QueriesAreBounded`, `HostnamesHaveProvenance`, `WalkFailsIff`, `DelegationHasProvenance`, `TXTHasProvenance` |
| `Starvation`, `Nesting`, `History`, `ServerFailure`, `CnameVerdict`, `Siblings`, `Evaluation`, `ResolverExample` | what those walks depend on, what their verdicts mean, and how they compare | `UnstarvedRun`, `TracesAgreeIff`, `PromiseFromRootIff`, `CommentHoldsIff`, `SiblingsWalkTogether`, `SPFEvaluationIsBounded` |
| `Discovery` | nameserver discovery for one zone | `DiscoveryIsExact`, `GlueIsKeptIff` |
| `FanOut`, `ProbeLoop`, `ZoneView`, `Runner`, `CycleValues`, `Priority`, `Results`, `Names` | a probe cycle: the goroutines, the probers each one runs, and the aggregation of what they gather | `WaitGathersEveryBatchOnce`, `CyclesEnd`, `GaugesDependOnOutcomesOnly`, `CycleRunner.Aggregate`, `GaugesByFields` |
| `Mx`, `MxResults`, `MxCycle`, `NsClassification`, `ClassificationResults` | two probers, from answers to published counts | `ResolvedEqualsCountIff`, `NullMXIsExact`, `PrimariesAreExact`, `ClassCountsAreExact` |
| `Registry`, `RegistryValues`, `RegistryCycle`, `ProberShapes` | the per-cycle metric registry | `QueryGaugesAreExact`, `MetricGaugesAreExact`, `FirstRegistrationWins`, `OrderMattersIff`, `RegistryIsScheduleIndependent` |
| `DelegationCache`, `Reload`, `Config`, `Exporter` | cache, configuration, and cycles running against reloads | `GetReturnsLastFreshSet`, `CycleSafety`, `ReloadForcesFreshWalksIff`, `GlobalsAgreeIff` |
| `PromQL`, `StatusExpr`, `MxStatus`, `MxRowText` | the status-expression builder and the PromQL it writes | `ComposeIsItsText`, `ComposedRowShowsStatus`, `OrNoDataIff`, `ResolveRowIsExact` |

`Text`, `Sequences` and `Wrappers` hold strings, permutations and result types; `TextMeaning` says what the
string functions mean, in terms of characters and positions.

## Where the code and its comments differ

The model follows the code. For each point the lemmas named show the difference and say when the
promise holds, exactly.

- prober/spf_lookup.go:25-34 calls 0-10 the exact total and explains the rest by cycles. The visited
  set is never popped, so two includes of one name that merely stand side by side also read as eleven
  (`SpfExample.RepeatedIncludeReadsOverBudget`). `SpfLookup.VerdictMeetsReference` and
  `SpfLookup.OverBudgetIff` say exactly which records read over budget.
- prober/prober.go:302 promises an error for SERVFAIL. The response code is never read
  (`ServerFailure.RunIgnoresRcode`), so a bare SERVFAIL is "no records"
  (`ResolverExample.ServerFailureReadsAsNoData`). The last server of a walk decides its outcome
  (`ServerFailure.WalkIsItsLastHop`); the exact condition follows for a SERVFAIL met on the way
  (`ServerFailureIsErrorIff`), for one walk (`WalkKeepsPromiseIff`), for all resolutions, which start
  at the root (`PromiseFromRootIff`), and for walks from every server (`PromiseHoldsIff`).
- prober/prober.go:284-290 calls the referral budget headroom. A larger budget can also lose an
  answer (`ResolverExample.LargerBudgetCanLoseTheAnswer`), but only to a run that starves: one that
  somewhere meets, without budget, a referral that names hosts and gives no usable glue. All other
  runs are the same under every larger budget (`Starvation.UnstarvedRun`), and at every budget
  starving is the exact condition for a larger one to show in what is resolved inside what
  (`Nesting.TracesAgreeIff`).
- prober/ns_hostname.go:136-138 says true iff the authoritative answer contains the host's CNAME
  record, and lines 190-193 that no usable referral means a healthy authoritative answer without one.
  Both directions fail. Any CNAME record in any Answer section counts
  (`CnameVerdict.ForeignCNAMEReadsAsTrue`), and a referral without glue, which is how a zone with
  out-of-bailiwick name servers is delegated, reads as false without the authoritative server ever
  being asked (`CnameVerdict.GluelessReferralReadsAsFalse`). `CnameVerdict.LookupAgreesIff` gives the
  condition for one lookup, `CommentFromRootIff` for all lookups from the root, and `CommentHoldsIff`
  for lookups from every server.
- main.go:188-192 says that after a reload the next cycle re-walks. A walk or delegation in hand at
  that moment can still be stored and used (`Reload.ReloadForcesFreshWalksIff`), and two reloads at
  once can leave one configuration with the other's roots (`Reload.GlobalsAgreeIff`).
- demo/dashboard/panels_status.go:439-448, "All MX targets resolve", compares a count of records
  with a count of distinct targets; `MxStatus.ResolveRowIsExact` says exactly when it shows PASS.
- demo/dashboard/panels_status.go:328-330 argues that on an unreachable zone the base predicate is
  empty. The MX gauges are set to 0 for every configured zone, so it is not, and the no-data guard
  of rows B to D never decides anything after a cycle (`MxStatus.OrNoDataIff`,
  `MxStatus.NoDataGuardIsHidden`).

## Reading the specifications

- The functions that methods and theorems share (what a term denotes, which addresses an answer holds,
  what a result offers the registry) each have a lemma that says what they mean of the raw text, message,
  result or oracle: in `SpfText`, `Sections`, `NextHop`, `DelegationVerdict`, `TxtVerdict`, `MxResults`,
  `ClassificationResults`, `RegistryValues`, `CycleValues` and `Names`. Lists are described by the
  positions they are read from.
- A query log (`sent`) is part of every walk's specification, so query bounds and agreement of walks
  are statements about the same functions the methods are proved against.
- `SpfVerdict.DemandOf` describes what the words of a record ask for, and `SpfLookup.FullCount` and its
  companions the include/redirect tree of its mechanisms, without any guard and to a
  given depth. The counter's results are stated for every depth from ten on, and for the limit.
- `Resolver.Closed` describes the sets of servers closed under root, glue and fallback. The
  provenance theorems hold for every closed set, hence for the least one.
- `Runner.Aggregates` describes every gauge in terms of the results alone; `AggregatesIsFunctional`
  shows that it leaves no freedom, so it is a complete specification of the published values.
- `FanOut.StepOf` splits the append to the shared slice into a load and a store, so that a lost
  update would be possible without the mutex.
- Every iteration over a Go map is a loop that picks an arbitrary remaining key, the one over the
  registered probers in `ProbeLoop.RunProbers` included.
- `ProbeLoop.Gathers` relates probers' outcomes to everything a cycle over them can gather: any order
  of the probers in each zone, and any schedule of the zones.
- `RegistryCycle.Conforms` says what the registry theorem asks of a prober: each metric belongs to one
  check and comes with one set of extra labels. `ProberShapes` shows it for the modelled probers.

## Model

| member | source | states |
|---|---|---|
| `SpfRecord.ParseSPFMechanisms` | prober/spf.go:83-120 | the classified terms in order, version tokens dropped wherever they stand; the `all` flag is up iff one of the terms is an `all` |
| `SpfRecord.TerminalAllQualifier` | prober/spf.go:143-158 | the last `all` term decides, and the answer is "none" iff the tokenizer finds no `all` either |
| `SpfRecord.ReadersAgreeOnAll` | prober/spf.go:83-158 | for every record the two readers, which split qualifiers differently, agree on whether there is an `all` |
| `SpfRecord.SPFMalformed` | prober/spf.go:166-187 | true iff there is no term at all or some term after the first is a bare qualifier or an include/redirect without target |
| `SpfRecord.FirstFieldIsVersion` | prober/spf.go:126-134 | a record the selector accepts has the version token, and nothing more, as its first term, so skipping that term skips no mechanism |
| `SpfRecord.WellFormedRecordHasTargets` | prober/spf.go:83-187 | selected and not malformed implies that every include and redirect the counter sees has a non-empty target |
| `SpfRecord.AnalyzeSPF` | prober/spf.go:25-57 | presence, count, validity, qualifier and raw text of a zone's SPF records; valid iff exactly one is selected and it is not malformed, and then all its targets are non-empty; the qualifier is that of its last `all` term |
| `SpfText.TermMeans` | prober/spf.go:83-120 | what each term denotes, by its spelling alone, for every qualifier or none, every letter case and every suffix: all, include:, redirect=, a a: a/, mx mx: mx/, ptr ptr:, exists:, each as an iff |
| `SpfText.TargetMeans` | prober/spf.go:98-106 | the target of an include or redirect is what stands after the word, case kept, and it is a macro iff "%{" occurs in it |
| `SpfText.AllQualifierMeans` | prober/spf.go:143-158 | pass, fail, softfail and neutral are all or +all, -all, ~all and ?all in any letter case; none is everything else |
| `SpfText.LastAllDecides` | prober/spf.go:136-158 | the terminal qualifier is that of the last `all` term, whatever stands around it |
| `SpfText.IsSPFRecordIff` | prober/spf.go:122-134 | leading white space apart, the version token in any case, and then nothing but white space, or a space or tab and anything |
| `SpfText.BrokenIff` | prober/spf.go:171-186 | a term is objected to iff it is a lone qualifier, or an include or redirect of nothing, in any case and with any qualifier |
| `SpfText.SelectedAt` | prober/spf.go:25-31 | the selected records are exactly the SPF records among the strings, trimmed, in published order |
| `TextMeaning.FoldIsSameWord` | prober/spf.go:83-85 | case folding compares letter by letter, upper and lower case alike, and nothing else alike |
| `TextMeaning.FieldsOfSpread` | prober/spf.go:84-84 | words with white space around and between them, of whatever length and kind, are the fields of that text |
| `TextMeaning.EveryTextIsSpread` | prober/spf.go:84-84 | and every text is its fields with white space around and between them |
| `TextMeaning.TrimSpaceIsExact` | prober/spf.go:127-127 | trimming cuts white space only, at both ends, and all of it |
| `SpfLookup.SpfCounter.constructor` | prober/spf_lookup.go:35-49 | a fresh counter is in the start state of the reference walk |
| `SpfLookup.SpfCounter.WalkRecord` | prober/spf_lookup.go:54-82 | the mutable counter ends in the state of the functional walk; it terminates for every resolver by (lookups left, phase, terms left) |
| `SpfLookup.SpfCounter.WalkTerms` | prober/spf_lookup.go:54-82 | the early-exit loop is that walk, whatever the state it starts from |
| `SpfLookup.SpfCounter.WalkTerm` | prober/spf_lookup.go:60-80 | one term's effect on all four pieces of state, redirect ignored beside `all` |
| `SpfLookup.SpfCounter.RecurseInto` | prober/spf_lookup.go:84-109 | macro, repeated key, depth, unanswered target and recursion: the new state in each case |
| `SpfLookup.CountSPFLookups` | prober/spf_lookup.go:35-42 | count and flag of the verdict; the clamp to eleven changes nothing because the counter never passes eleven |
| `SpfLookup.WalkMeetsReference` | prober/spf_lookup.go:54-109 | every walk, from every state, is decided by the size, the targets and the resolution of the unguarded include/redirect tree under its terms |
| `SpfLookup.StepMeetsReference` | prober/spf_lookup.go:57-109 | the same for one term, recursion included |
| `SpfLookup.VerdictMeetsReference` | prober/spf_lookup.go:21-42 | at most ten: exactly the full recursive count, the fetches are exactly the tree's targets, and complete iff all of them resolve; eleven iff the full count is above ten or a resolved target is reached twice; eleven and complete only for the former |
| `SpfLookup.OverBudgetIff` | prober/spf_lookup.go:21-42 | over budget iff some finite part of the (possibly infinite) tree holds more than ten lookups, or a resolved target repeats |
| `SpfVerdict.VerdictByText` | prober/spf_lookup.go:21-109 | the verdict in terms of the words of the record and of those it includes: at most ten, exactly the lookups the words ask for, with the fetches their targets in order, complete iff all of them resolve and none is a macro; eleven iff the words ask for more than ten or name one resolved target twice |
| `SpfVerdict.DemandIsTree` | prober/spf_lookup.go:54-109 | the demand of words, defined on their spelling, is the size, targets and resolution of the mechanisms' tree, at every depth |
| `SpfVerdict.WordAsks` | prober/spf_lookup.go:60-80 | which words cost a lookup and which ask for a record: includes always, a redirect only in a record without `all` |
| `SpfVerdict.KeyIsName` | prober/spf_lookup.go:91-91 | two targets have one key iff they differ at most in letter case and one final dot |
| `SpfVerdict.PlainRecordCounts` | prober/spf_lookup.go:57-62 | a record built from any words and gaps that asks for no other counts its lookup words, eleven standing for more than ten; complete, and nothing fetched |
| `SpfLookup.FullCountGrows` | prober/spf_lookup.go:21-34 | the reference count never shrinks with the expansion depth, so it has a limit |
| `SpfLookup.FetchesAreBounded` | prober/spf_lookup.go:84-109 | for every resolver: at most ten fetches, and no fetch under a key an earlier fetch resolved |
| `SpfLookup.WalkKeepsBounds` | prober/spf_lookup.go:54-109 | the invariant behind that, kept by every walk from every state: fetches bounded by lookups, resolved keys visited and pairwise distinct |
| `SpfLookup.DepthGuardIsIdle` | prober/spf_lookup.go:9-13 | the depth-20 guard never decides anything: every guard from ten up gives the same walk |
| `SpfLookup.WalkIsMonotone` | prober/spf_lookup.go:54-109 | two walks against resolvers of which one answers more, identically: the count of the better-informed one is never behind |
| `SpfLookup.CompleteWalkIsStable` | prober/spf_lookup.go:54-109 | a complete walk is the same walk against any better-informed resolver |
| `SpfLookup.CounterIsMonotone` | prober/spf_lookup.go:101-106 | the two-run theorem for whole verdicts: an unreachable include cannot create an over-budget verdict |
| `SpfExample.RepeatedIncludeReadsOverBudget` | prober/spf_lookup.go:25-34 | the doc comment's "exact total" fails for `v=spf1 include:x include:x`: two lookups, no cycle, verdict eleven and incomplete |
| `Dns.CollectAddresses` | prober/prober.go:340-352 | the addresses of the queried family in the Answer section, in order, none of the other family |
| `Dns.ReferralGlue` | prober/prober.go:359-371 | the glue map gives each name its last A address, or else its first AAAA, and has no other names |
| `Dns.GlueIgnoresInterleaving` | prober/prober.go:99-113 | how A and AAAA records are mixed, and with what, never changes the glue of any name |
| `Dns.PickFromSection` | prober/prober.go:373-381 | the one-pass choice takes the first NS in Authority order that has glue |
| `Dns.CollectNSHosts` | prober/spf_resolve.go:106-114 | the NS host names of a section, in order |
| `Dns.PickFromHosts` | prober/prober.go:129-135 | the choice over collected names is the same function of the referral as the one-pass choice |
| `Sections.IPv4At` | prober/prober.go:340-352 | the addresses collected for an A question are those of the A records at exactly their positions, none missing, in order |
| `Sections.IPv6At` | prober/prober.go:340-352 | and for an AAAA question those of the AAAA records |
| `Sections.NSHostsAt` | prober/prober.go:92-98 | the collected hosts are those of the NS records at exactly their positions, in order |
| `Sections.GlueIsExact` | prober/prober.go:99-113 | a name's glue is the address of its last A record, or, if it has none, of its first AAAA record; nothing iff it has neither |
| `Sections.FqdnIsAbsolute` | prober/prober.go:260-260 | a name is asked for as it is if it ends in a dot, and otherwise with one |
| `Resolver.ResolveOneFamilyWithBudget` | prober/prober.go:327-423 | result and complete query log equal the functional walk from the root, for every network; terminates by (budget, 10 - depth, NS left) |
| `Resolver.OutOfBandServer` | prober/prober.go:389-411 | the fallback tries the listed hosts in order, each on one budget less, and stops at the first that resolves |
| `Resolver.ResolveHostnames` | prober/prober.go:259-282 | IPv4 then IPv6, failing iff both fail, and the log of both walks |
| `Resolver.HopsAreBounded` | prober/prober.go:327-423 | queries from any hop on, against any network whose referrals name at most n servers |
| `Resolver.QueriesAreBounded` | prober/prober.go:284-291 | Q(0) = 10, Q(b) = 10 * (1 + n * Q(b - 1)) bounds one family, twice that both |
| `Resolver.DefaultBound` | prober/prober.go:291 | the bound at the fixed budget of three, as a polynomial in n |
| `NextHop.FallbackTakesFirst` | prober/prober.go:389-411 | the fallback's server is that of the first address of the first listed host that has an IPv4 address on one budget less, and none if no host has, whatever was asked before |
| `NextHop.ResolverTakesNext` | prober/prober.go:359-411 | the next server is where the glue of the first listed host with glue leads; if it leads nowhere, or no host has glue, the fallback's, on what budget there is |
| `NextHop.ResolverGivesUp` | prober/prober.go:330-422 | where every server refers on by glue, a resolution asks exactly ten times and errs |
| `Starvation.UnstarvedRun` | prober/prober.go:383-411 | a resolution in which no walk or nested fallback meets, without budget, a referral that names hosts but has no usable glue is the same, query for query, under every larger budget |
| `Starvation.UnstarvedWalk` | prober/prober.go:327-423 | the same for a walk from any hop and any server |
| `Starvation.FallbackMattersIff` | prober/prober.go:383-411 | the run is the same under all budgets iff the run without budget does not starve |
| `Nesting.TracesAgreeIff` | prober/prober.go:284-291 | at every budget and under every larger one: a resolution runs the same queries in the same nested resolutions iff it does not starve |
| `Nesting.WalkTracesAgreeIff` | prober/prober.go:327-423 | the same for a walk from any hop and server |
| `Nesting.TraceIsLog` | prober/prober.go:327-423 | the nested queries, read from left to right, are the query log the program's methods are proved against |
| `Starvation.StarvedWalkFindsNothing` | prober/prober.go:413-418 | without budget, a walk that starves ends there as "no records" |
| `Starvation.GlueOnlyWalkIgnoresBudget` | prober/prober.go:383-418 | corollary: if budget 0 gives addresses or an error, every budget gives the same outcome after the same queries |
| `History.RunIgnoresPast` | prober/prober.go:327-423 | a resolution does not depend on what was asked before it, nested resolutions included: its result is the same and it asks the same further queries |
| `Resolver.WalkStaysInside` | prober/prober.go:327-423 | a walk never asks a server outside a set closed under root, referral glue and answers for referred hosts, and its answer comes from inside |
| `Resolver.AddressesHaveProvenance` | prober/prober.go:327-423 | so the returned addresses are one Answer section's records of the asked family, sent by a server in the least such set |
| `Resolver.HostnamesHaveProvenance` | prober/prober.go:241-282 | the result is all addresses of every family that did not fail, the A answer's in order and then the AAAA answer's, each family's one Answer section of a server in the least closed set; error iff both families error |
| `ResolverExample.LargerBudgetCanLoseTheAnswer` | prober/prober.go:383-411 | a run that starves can be the better one: a network on which budget 1 starves and still finds the address, while budget 2 fails |
| `ResolverExample.ServerFailureReadsAsNoData` | prober/prober.go:297-302 | the comment promises an error for SERVFAIL; a bare SERVFAIL from the root is in fact "no records", at every budget |
| `ServerFailure.RunIgnoresRcode` | prober/prober.go:327-423 | the response code is never read: environments that differ only in response codes give equal resolutions, query logs included |
| `ServerFailure.WalkIsItsLastHop` | prober/prober.go:327-423 | at every budget, a walk's outcome is decided by its last server alone: an error iff that exchange failed or the server leads past the hop limit, else that server's addresses, or none |
| `ServerFailure.ServerFailureIsErrorIff` | prober/prober.go:335-422 | a walk that meets a SERVFAIL, at whatever hop, ends in an error iff that reply leads on (no address, and a server follows from it) and the last server's exchange fails or that server leads past the hop limit |
| `ServerFailure.BareFailureReadsAsNoData` | prober/prober.go:413-418 | at any hop and budget a SERVFAIL without records ends the walk as "no records" |
| `ServerFailure.WalkKeepsPromiseIff` | prober/prober.go:297-302 | for one walk: it ends at no SERVFAIL without returning an error, iff a SERVFAIL as its last reply works as a referral, leading on past the last hop |
| `ServerFailure.PromiseFromRootIff` | prober/prober.go:297-302 | for resolutions, which start at the root: the promise holds of all hosts iff no walk from the root has a SERVFAIL that leads nowhere as its last reply |
| `ServerFailure.PromiseHoldsIff` | prober/prober.go:297-302 | for walks from every server: the promise holds of all iff every SERVFAIL in the network works as a referral, with no addresses and with NS records that lead on |
| `Delegation.ExtractDelegation` | prober/prober.go:187-239 | both lists equal their functional description |
| `Delegation.CollectGlueLists` | prober/prober.go:198-213 | per name, the distinct addresses in first-seen order |
| `Delegation.GlueListIsExact` | prober/prober.go:190-213 | no address twice, none missing, none invented, and a longer section only appends |
| `Delegation.AllGlueIsGlued` | prober/prober.go:215-236 | `Glue` is exactly the subsequence of `NSRecords` with an address |
| `Delegation.ExtractionIsExact` | prober/prober.go:180-239 | which (host, address) pairs are listed: the glue addresses of each named host, or one empty sentinel iff it has none |
| `Delegation.QueryFallback` | prober/prober.go:139-160 | one query to the referring server; the first address of the family that maps to a server |
| `Delegation.ChooseServer` | prober/prober.go:129-168 | glue first, then A, then AAAA, with the log of what was asked |
| `Delegation.JudgeReply` | prober/prober.go:86-127 | an authoritative answer or a referral headed by the zone gives the delegation, a reply without NS records an error, anything else a referral to follow |
| `Delegation.WalkDelegation` | prober/prober.go:70-178 | result and query log equal the functional walk |
| `Delegation.FollowDelegation` | prober/prober.go:74-178 | its loop, from any hop and server on |
| `DelegationVerdict.WalkIsItsLastReply` | prober/prober.go:70-178 | the last server's reply decides: the walk succeeds iff that exchange succeeds and the reply is authoritative with an answer, or names NS hosts under the zone's own name; the delegation is read from the answer when both hold |
| `DelegationVerdict.WalkFailsIff` | prober/prober.go:82-178 | every failure, and nothing else, is at the last server a lost exchange, a reply that delegates nothing and names no NS host or leads to no server, or the tenth referral |
| `NextHop.DelegationTakesFirst` | prober/prober.go:129-168 | the next server is the glued one at no query; or else, of the first listed host, the first address the referring server's A answer maps, and only if there is none of its AAAA answer, with what that asks |
| `NextHop.DelegationGivesUp` | prober/prober.go:74-178 | where every server refers on by glue, a walk asks exactly ten times and errs |
| `Delegation.ExtractionKeepsOrder` | prober/prober.go:187-239 | both lists keep the order of the section |
| `Delegation.WalkIsBounded` | prober/prober.go:74-178 | at most three queries a hop, thirty in all, on any network |
| `Delegation.DelegationHasProvenance` | prober/prober.go:70-178 | a successful result is read from one message, the reply of `parentServer`, the last server asked, to the zone's NS question; on the referral branch that section is headed by the zone itself |
| `Walkers.LookupCNAME` | prober/ns_hostname.go:146-200 | result and query log equal the functional walk |
| `Walkers.NextReferralServer` | prober/spf_resolve.go:93-130 | glue without a query, or else the first listed host that resolves, with the log |
| `Walkers.IterativeResolveTXT` | prober/spf_resolve.go:41-87 | records and query log equal the functional walk, the empty root list included |
| `Walkers.FollowTXT` | prober/spf_resolve.go:48-86 | its loop, from any hop and server on |
| `Walkers.ReadTXTReply` | prober/spf_resolve.go:61-77 | nothing for any failure code but NXDOMAIN, the TXT strings of a final reply, and neither for a referral |
| `Walkers.ResolveSPFRecord` | prober/spf_resolve.go:27-34 | the first SPF record among the TXT strings, trimmed |
| `TxtVerdict.WalkIsItsLastReply` | prober/spf_resolve.go:41-87 | the last server's reply decides: all its TXT records if it concludes (authoritative, no such name, or no Authority section) with a good code, otherwise none |
| `TxtVerdict.StopsForAReason` | prober/spf_resolve.go:48-86 | the walk stops only at a reply that does not refer on to another server, or at the sixteenth |
| `TxtVerdict.TextRecordsAt` | prober/spf_resolve.go:68-75 | the records are those of the TXT records at exactly their positions, in order, each its strings concatenated whole, in order, with nothing between |
| `TxtVerdict.FirstSPFIsFirst` | prober/spf_resolve.go:27-34 | the record found is the first string that is an SPF record, trimmed; none iff none is one |
| `NextHop.AnyResolvedTakesFirst` | prober/spf_resolve.go:122-130 | the out-of-band choice is the first address of the first listed host that has one of either family, IPv4 before IPv6 |
| `NextHop.TXTTakesNext` | prober/spf_resolve.go:93-130 | the TXT resolver resolves a host only if no listed host has glue, whether or not that glue leads anywhere |
| `NextHop.TXTGivesUp` | prober/spf_resolve.go:48-87 | where every server refers on by glue to another, a TXT resolution asks exactly sixteen times and has no records |
| `NextHop.LookupGivesUp` | prober/ns_hostname.go:150-200 | and a CNAME lookup asks exactly ten times and errs |
| `Walkers.WalkersAgreeOnGlue` | prober/spf_resolve.go:89-121 | on a referral whose glue leads to a server the resolver, the delegation walk and the TXT resolver choose, and the CNAME lookup goes on at, the first glued NS in Authority order, at no further query |
| `TxtProvenance.TXTWalkHasProvenance` | prober/spf_resolve.go:48-86 | from any hop: the walk asks only servers of a set closed under root, glue and address resolution for referred hosts, and strings it returns are the TXT data of a final reply, NOERROR or NXDOMAIN, that one of them gave to the last question asked |
| `TxtProvenance.TXTHasProvenance` | prober/spf_resolve.go:41-87 | so for a whole TXT resolution, at every budget and for the least such set |
| `CnameVerdict.LookupIsItsTrail` | prober/ns_hostname.go:146-200 | what a lookup computes on every network: it asks along one chain of glue; true iff the last reply's Answer section holds a CNAME record anywhere, error iff the last exchange failed or the chain is longer than the hop limit |
| `CnameVerdict.VerdictAgreesIff` | prober/ns_hostname.go:136-138 | for one lookup: a true verdict agrees with the comment iff the last reply is authoritative and holds a CNAME record of the host; a false one iff the last reply is authoritative |
| `CnameVerdict.LookupAgreesIff` | prober/ns_hostname.go:136-138 | hence for one lookup: the comment is right iff the server it ends at is honest, that is, sends CNAME records only with authority and the host's own among them, and sends a dead end only with authority |
| `CnameVerdict.CommentFromRootIff` | prober/ns_hostname.go:146-200 | the comment is right about all lookups the program makes, which start at the root, iff each of them ends at an honest server |
| `CnameVerdict.CommentHoldsIff` | prober/ns_hostname.go:136-138 | the comment is right about all lookups on a network iff each reply with a CNAME record is authoritative and holds the host's own, and each reply without one and without usable glue is authoritative |
| `CnameVerdict.ForeignCNAMEReadsAsTrue` | prober/ns_hostname.go:160-164 | first failing input: the root volunteers another name's CNAME record and the lookup returns true |
| `CnameVerdict.GluelessReferralReadsAsFalse` | prober/ns_hostname.go:190-195 | second failing input: the root refers the host without glue to a name server that resolves, at every budget, and answers with authority with the host's CNAME record; the lookup never asks it and returns false |
| `Siblings.SiblingsWalkTogether` | prober/ns_hostname.go:140-145 | where every server loses both questions or neither, and refers both alike by glue unless it has an answer to one: one walk asks a prefix of the servers the other asks; whichever finds nothing asked at least as far; "no records" excludes a lookup error and "no CNAME" excludes a resolver error |
| `Siblings.ResolutionAndLookupWalkTogether` | prober/prober.go:284-291 | the same for the resolution from the root at every budget, if it meets no referral that names hosts and gives no usable glue |
| `Walkers.TXTWalkIsBounded` | prober/spf_resolve.go:48-86 | exchanges of a TXT walk from any hop on, given a bound for one hop |
| `Walkers.TXTFromRootIsBounded` | prober/spf_resolve.go:41-87 | exchanges of one TXT resolution, against any network whose referrals name at most n servers |
| `Evaluation.ResolutionIgnoresPast` | prober/spf_resolve.go:41-87 | a TXT resolution, out-of-band walks included, does not depend on what was asked before it |
| `Evaluation.FetchesReplay` | prober/email_auth.go:84-87 | fetching any targets in sequence, each answers as the closure passed to the counter does |
| `Evaluation.SPFEvaluationIsBounded` | prober/email_auth.go:83-87 | counting a record's lookups with the injected resolver makes the verdict's fetches and at most ten TXT resolutions' worth of exchanges, whatever the record includes; with retries at most twice as many messages |
| `Discovery.BuildInitialNameservers` | cycle/runner.go:521-536 | list and seen-set: each key at its first glued record |
| `Discovery.FirstByKeyIsExact` | cycle/runner.go:517-536 | keys pairwise distinct, only glued records kept, and every glued record's key kept |
| `Discovery.FirstByKeyAt` | cycle/runner.go:521-536 | the kept records are those at exactly the positions where a glued record has a key no glued record before it has, in order |
| `Discovery.GlueIsKeptIff` | cycle/runner.go:517-536 | all parent glue survives iff no two glued records share a key |
| `Discovery.KeyIsInjective` | cycle/runner.go:528 | the key determines the pair for absolute host names and printed addresses, however many colons either has |
| `Discovery.AllGlueIsKept` | cycle/runner.go:517-536 | so no receivable glue is ever dropped but repeated pairs |
| `Discovery.CollectFamilies` | cycle/runner.go:554-566 | per listed host, which families its glue covers |
| `Discovery.HostsNeedingAugmentation` | cycle/runner.go:549-575 | exactly the listed hosts missing a family, each once, in any map order |
| `Discovery.DiscoverNameservers` | cycle/runner.go:479-495 | starts with the parent glue, adds only wanted pairs, has a key for every wanted pair, and resolves exactly the hosts missing a family, once each |
| `Discovery.AddAddresses` | cycle/runner.go:488-494 | extends the list by the new keys of one host and keeps list and seen-set in step |
| `Discovery.DiscoveryIsExact` | cycle/runner.go:469-495 | no repeated pair, and as a set exactly parent glue plus resolved addresses of hosts missing a family, so every map order discovers the same set |
| `Priority.PaddedParsesBack` | prober/mx.go:132-141 | every 16-bit preference survives `%05d` and the parse |
| `Priority.PaddedOrderIsNumeric` | prober/mx.go:132-141 | string order of padded preferences is numeric order |
| `Priority.LessIsNumeric` | prober/mx.go:132-141 | the same for all digit strings of one length |
| `Results.CanonNameIsIdempotent` | prober/ns_classification.go:196-200 | canonical names are fixed points of canonicalisation |
| `Names.CanonNameIff` | prober/ns_classification.go:195-200 | two names have one canonical form iff they differ at most in letter case and in having a final dot |
| `Names.CanonNameIsLowered` | prober/ns_classification.go:195-200 | the canonical form is the absolute name letter by letter, without a capital |
| `Runner.CycleRunner.constructor` | cycle/runner.go:91-179 | counters start empty |
| `Runner.CycleRunner.Aggregate` | cycle/runner.go:193-432 | every gauge meets its description in terms of the results alone, nothing of the previous cycle is left in one, and the per-server counters advance by exactly this cycle's results |
| `CycleValues.GaugesByFields` | cycle/runner.go:301-377 | the counted MX gauges in terms of result fields: of mx_count the results of the zone's MX check with mx_info, of the three others those whose metric is exactly 1, unreadable records passed over |
| `CycleValues.ClassesByFields` | cycle/runner.go:277-299 | the class gauges likewise: results of the zone's classification check with that label |
| `CycleValues.RecordsByFields` | cycle/runner.go:334-358 | which MX records the cycle knows of: those some result tells, with its target label and its parsed preference |
| `CycleValues.NullMXByFields` | cycle/runner.go:379-400 | the null-MX gauges in terms of results that tell the record `0 .`, and of how many tell a record |
| `CycleValues.CountersByFields` | cycle/runner.go:264-275 | a server's query counter gains the number of results with its address, its timeout counter the number of those that timed out |
| `CycleValues.TimesAt` | cycle/runner.go:264-275 | its time counter gains the sum of exactly their durations |
| `CycleValues.TimeByFields` | cycle/runner.go:264-275 | so the published time of an address grows by that sum, and is published iff it was before or some result has the address |
| `Runner.CycleRunner.Derive` | cycle/runner.go:193-432 | gauges and counters equal their folds over the results, the gauges from scratch |
| `Runner.CycleRunner.CountServers` | cycle/runner.go:264-275 | queries, time and timeouts per address; results without one count nowhere |
| `Runner.CycleRunner.CountClasses` | cycle/runner.go:283-299 | three zeros per configured zone, then one increment per classified result |
| `Runner.CycleRunner.DeriveMX` | cycle/runner.go:307-429 | the seven MX gauges, the classification gauge untouched |
| `Runner.CycleRunner.CountMX` | cycle/runner.go:308-377 | the four counted gauges, the records in arrival order and the least-priority table |
| `Runner.CycleRunner.CountOneMX` | cycle/runner.go:334-376 | one result's effect, a missing or unreadable priority leaving the body early after mx_count only |
| `Runner.CycleRunner.CountValidity` | cycle/runner.go:368-376 | the three validity series move by one result exactly where their metric is 1 |
| `Runner.CycleRunner.FlagNullMX` | cycle/runner.go:379-400 | both Null MX gauges, for every map iteration order |
| `Runner.CountRRs` | cycle/runner.go:387-394 | records per zone, and the zones with a "0 ." record |
| `Runner.LeastPriority` | cycle/runner.go:412-419 | the minimum of a row, attained, for every iteration order |
| `Runner.MarkRow` | cycle/runner.go:420-426 | 1 exactly for the targets no other target of the zone beats |
| `Runner.Primary` | cycle/runner.go:407-428 | all is_primary values, zones in any order |
| `Runner.TableIsMin` | cycle/runner.go:359-366 | the table holds exactly the (zone, target) pairs seen, each with a priority some record has and none undercuts |
| `Runner.PrimaryVectorIsPrimaries` | cycle/runner.go:402-428 | is_primary is 1 iff some record for the target has the least priority among all records of the zone; one value per (zone, target) seen and no others |
| `Runner.ComputedAggregates` | cycle/runner.go:256-432 | the folds meet the description of every gauge |
| `Runner.FoldAdvances` | cycle/runner.go:264-299 | incrementing a vector once per result adds the number of matching results to each series and creates only those |
| `Runner.FoldTimeAdvances` | cycle/runner.go:264-275 | the same for the time counter |
| `Runner.CountIgnoresOrder` | cycle/runner.go:264-377 | the number of matching results is the same for every permutation |
| `Runner.AggregatesIgnoresOrder` | cycle/runner.go:256-432 | gauges that meet the description for one order of the results meet it for all |
| `Runner.AggregatesIsFunctional` | cycle/runner.go:256-432 | the description leaves no freedom: two sets of gauges that meet it are equal |
| `Runner.GaugesAreScheduleIndependent` | cycle/runner.go:224-432 | permuted results publish equal gauges |
| `Runner.CountersAreScheduleIndependent` | cycle/runner.go:264-275 | permuted results leave equal query and timeout counters |
| `Runner.QueryTimeIsScheduleIndependent` | cycle/runner.go:264-275 | permuted results leave equal time counters, over exact numbers |
| `FanOut.StepKeepsInv` | cycle/runner.go:224-247 | mutual exclusion, no lost update (a loaded slice is still the shared one) and "the shared slice is the stored batches in store order" are kept by every step of every goroutine |
| `FanOut.RunKeepsInv` | cycle/runner.go:224-247 | so they hold over every interleaving |
| `FanOut.SomeStepIsEnabled` | cycle/runner.go:230-247 | no deadlock: until all zones are finished some goroutine can step |
| `FanOut.CyclesEnd` | cycle/runner.go:230-247 | every interleaving is at most five steps per zone long, and is that long iff all zones are finished |
| `FanOut.WaitGathersEveryBatchOnce` | cycle/runner.go:224-247 | after `Wait` each zone's batch is there whole, exactly once |
| `FanOut.RunsGatherTheSame` | cycle/runner.go:224-247 | two schedules of batches that are, zone by zone, permutations of each other gather permutations of each other |
| `FanOut.CycleIsScheduleIndependent` | cycle/runner.go:224-432 | so they publish equal gauges |
| `ProbeLoop.RunProbers` | cycle/runner.go:502-514 | the successful probers' results, one prober after the other in some order; failed probers are skipped |
| `ProbeLoop.GatherAll` | cycle/runner.go:224-247 | probes every zone and gathers; the result is one that some schedule of the zones and some order of the probers gathers, so the theorems about schedules apply to it |
| `ProbeLoop.BatchesPermute` | cycle/runner.go:502-514 | any two map orders give permutations of the same results |
| `ProbeLoop.BatchKeepsEachCheckWhole` | cycle/runner.go:502-514 | of each check a batch has exactly what its prober returned, in its order, and nothing of one that failed |
| `ProbeLoop.CycleKeepsEachCheckWhole` | cycle/runner.go:224-247 | and so has a whole cycle, of each zone and check, under every schedule |
| `ProbeLoop.GaugesDependOnOutcomesOnly` | cycle/runner.go:224-514 | the gauges are a function of the probers' outcomes: neither the schedule nor the order of the probers shows |
| `ProbeLoop.CountersDependOnOutcomesOnly` | cycle/runner.go:264-275 | and so are the counters that outlive a cycle, from equal values before it |
| `ZoneView.WaitKeepsEachZoneWhole` | cycle/runner.go:230-247 | what a cycle holds of a zone and a check is what that zone's goroutine returned for it, in its order, under every schedule |
| `ZoneView.CountIsOwn` | cycle/runner.go:289-377 | a per-zone series depends only on that zone's results of one check |
| `Mx.CollectExchanges` | prober/mx.go:242-253 | the MX records of the answer, targets canonical, other records dropped |
| `Mx.QueryServers` | prober/mx.go:36-71 | the failover loop ends with the first answer, or else the last failure, or no attempt |
| `Mx.FirstReplyIsFirst` | prober/mx.go:36-71 | the answer is the earliest answering server's, with the records of its Answer section; failure means every address failed, and names the last; no attempt means there was no address |
| `Mx.ProbeMX` | prober/mx.go:27-226 | the zone's results in each of the four outcomes |
| `Mx.ProbeRecords` | prober/mx.go:99-223 | one info result per record and one validity result per distinct target, caches and seen-set without effect on the outcome |
| `Mx.ProbeTarget` | prober/mx.go:158-220 | a validity result read through sound caches is the one without caches, and the caches stay sound |
| `MxResults.ExchangesAt` | prober/mx.go:241-254 | the records read from an answer are those of the MX records at exactly their positions, in order, targets canonical, preferences unchanged |
| `MxResults.ValidityMeans` | prober/mx.go:146-220 | a target's result in the oracles' terms: mx_resolves is 1 iff resolution succeeds with some address, mx_is_cname iff the lookup succeeds with true, 0 otherwise; the root has the syntax metric only |
| `MxResults.RecordResultsMean` | prober/mx.go:94-223 | one result per record, in order, and after the first record with a target one for the target; no others |
| `MxResults.ProbeMeans` | prober/mx.go:27-226 | the whole probe: first a result about the query that names the server which answered, or the last that failed and whether it timed out |
| `MxCycle.InfoReadsBack` | prober/mx.go:124-147 | the runner reads from an info result exactly the record the prober put in |
| `MxCycle.RecordResultsCount` | prober/mx.go:103-223 | what the results of a record list add up to in each of the per-zone series: records, or distinct targets with the property |
| `MxCycle.EveryCycleObserves` | cycle/runner.go:224-514 | the hypothesis of the following rows is met by every cycle, for every schedule and every order of the probers |
| `MxCycle.PublishedCounts` | cycle/runner.go:301-377 | mx_count is the number of records; the three others are the numbers of distinct targets other than the root for which resolution succeeds with some address, for which the CNAME lookup succeeds with true, and that are well-formed (the root included) |
| `MxCycle.ResolvedEqualsCountIff` | cycle/runner.go:334-377 | resolved count = count iff no target repeats, none is the root and for all resolution succeeds with some address; "all resolve" alone is not enough |
| `MxCycle.NullMXIsExact` | cycle/runner.go:379-400 | null_mx is 1 iff the record set is exactly `0 .` (RFC 7505, section 3); has_null_mx_rr is 1 iff it contains that record |
| `MxCycle.PrimariesAreExact` | cycle/runner.go:402-428 | through the text labels: one is_primary value per distinct target, 1 iff some record for it has the least preference, at least one 1 per zone with records |
| `NsClassification.BuildParent` | prober/ns_classification.go:39-49 | the parent's canonical names, and per name its first non-empty address |
| `NsClassification.BuildSelf` | prober/ns_classification.go:56-67 | the union of what all addresses report; each address is asked once, and skipping repeats loses no name |
| `NsClassification.LeastString` | prober/ns_classification.go:213-217 | the least element in string order |
| `NsClassification.UnionSorted` | prober/ns_classification.go:205-219 | strictly sorted, with exactly the members of both sets |
| `NsClassification.SortedUnionIsUnique` | prober/ns_classification.go:202-219 | there is only one such sequence, so map order cannot show |
| `NsClassification.ClassifyHost` | prober/ns_classification.go:183-194 | the class of a host decides, and is decided by, its membership in the two sets |
| `NsClassification.ProbeNSClassification` | prober/ns_classification.go:33-120 | one result per host of the sorted union, in its order, with class, parent address and reachability of self-only hosts |
| `NsClassification.ProbeHosts` | prober/ns_classification.go:78-117 | the same for the emitting loop; the reachability cache never hits |
| `ClassificationResults.ProbeMeans` | prober/ns_classification.go:33-120 | the results in the probe's inputs: one per host that parent or zone name, in string order; its class by who names it, its address the first the parent gives, and, for one the parent does not name, ns_stealth_reachable 1 iff it was reached |
| `NsClassification.HostResultsCount` | cycle/runner.go:289-298 | results of a class = hosts of the class |
| `NsClassification.EveryCycleObserves` | cycle/runner.go:224-514 | the hypothesis of the next row is met by every cycle, for every schedule and every order of the probers |
| `NsClassification.ClassCountsAreExact` | cycle/runner.go:277-299 | both + parent-only = size of the parent's set, both + self-only = size of the zone's own; parent-only and self-only are both 0 iff the sets are equal |
| `Registry.RegisterGauge` | prober/registry.go:54-66 | a new family, a new series of a known one, or no change at all where the shape differs or the series exists; every other family is untouched |
| `Registry.RegisterResult` | prober/registry.go:12-49 | one result's offers in order, its metrics in any map order |
| `Registry.BuildRegistry` | prober/registry.go:9-52 | per metric name, the family its offers leave when made in result order |
| `RegistryValues.QueryGaugesAreExact` | prober/registry.go:24-42 | query success and duration are served for exactly the zone, server, address and check of some result; 1 iff the first such result succeeded, and that result's duration |
| `RegistryValues.MetricGaugesAreExact` | prober/registry.go:12-49 | for results that keep to one schema, a metric is served under exactly the labels of the results that have it, zone, server, address and their own, with the value of the first |
| `Registry.FirstRegistrationWins` | prober/registry.go:54-66 | the first offer fixes help and label names; each series of that shape has the value of its first offer; no other series exist |
| `Registry.OrderMattersIff` | prober/registry.go:54-66 | two batches without a common series build the same family in both orders iff their first offers have the same shape |
| `Registry.FamilyIgnoresOrder` | prober/registry.go:9-66 | disjoint batches of one shape build the same family in every order |
| `Registry.RegistryIgnoresOrder` | prober/registry.go:9-66 | and so the same registry |
| `RegistryCycle.OfferIsTypical` | prober/registry.go:12-49 | the name of a gauge fixes its help and label names, and its labels and name tell the zone and check it came from |
| `RegistryCycle.ValueIsOwn` | prober/registry.go:12-66 | a series' value depends only on the results of one zone and check |
| `RegistryCycle.RegistryIsScheduleIndependent` | cycle/runner.go:224-514 | the registry is a function of the probers' outcomes: no schedule of the zones and no order of the probers within a zone shows in any series |
| `ProberShapes.MxIsProper` | prober/mx.go:60-225 | the MX prober's results meet the hypotheses of that theorem: own check, own zone, one set of label names per metric |
| `ProberShapes.ClassificationIsProper` | prober/ns_classification.go:80-117 | and so do the classification prober's |
| `Registry.ZonesShareNoSeries` | prober/registry.go:12-49 | batches of different zones are disjoint under every name, as long as no result overwrites the label "zone" |
| `DelegationCache.Cache.constructor` | cache/delegation.go:26-31 | an empty cache, with its time to live |
| `DelegationCache.Cache.Get` | cache/delegation.go:35-47 | the last store for the zone since the last clearing, unless older than the time to live |
| `DelegationCache.Cache.Set` | cache/delegation.go:50-58 | appends one store to the history the cache stands for |
| `DelegationCache.Cache.Invalidate` | cache/delegation.go:61-66 | appends one clearing |
| `DelegationCache.Cache.Len` | cache/delegation.go:69-73 | the number of zones with a store since the last clearing, expired ones included |
| `DelegationCache.LastSetIsLast` | cache/delegation.go:33-66 | "last store" means a position in the history with no store for the zone and no clearing after it, and conversely |
| `DelegationCache.GetReturnsLastFreshSet` | cache/delegation.go:33-47 | exactly which data a `Get` can return, in terms of positions and times in the history |
| `Reload.RunKeepsInv` | main.go:206-228 | over every interleaving of cycles and reloads: one cycle at a time, the token held exactly then, whole task lists and whole registries |
| `Reload.CycleSafety` | main.go:206-228 | cycles never overlap; the registry is nil exactly until the first store; afterwards it is one whole cycle over one configuration, and one that was current when a cycle took its snapshot |
| `Reload.RegistryStays` | main.go:109-117 | the registry is present iff it was or a cycle of the run stored one |
| `Reload.ConfigsAreSnapshots` | main.go:217-223 | running cycles and the registry only ever use configurations current at some snapshot of the run |
| `Reload.ReloadForcesFreshWalksIff` | main.go:188-204 | after an invalidation nothing older is ever used iff no zone has a walk or a delegation in hand at that moment; the comment's "the next cycle re-walks" lacks that condition |
| `Reload.UndisturbedReload` | main.go:193-204 | four uninterrupted steps bind configuration, mapping and roots and empty the cache, and change nothing else |
| `Reload.ReloadIsInForce` | main.go:188-204 | until the next reload, every delegation used was walked after it, from its own roots and with its own address mapping at every hop, given that none was in flight |
| `Reload.GlobalsAgreeIff` | main.go:132-146 | configuration pointer and prober globals always agree when no reload is under way iff there is at most one reloader; the HTTP handler and the SIGHUP loop are two |
| `Reload.ReloadersMix` | main.go:193-204 | the interleaving that ends with one reload's configuration and the other's roots |
| `Config.CanonicaliseOverrideKeys` | config/config.go:101-120 | fails iff a key is no address or two keys for one address disagree, in every map order; otherwise each key's destination is kept under its canonical form |
| `Config.OverridesApplyToEveryForm` | config/config.go:44-69 | an address goes where a key for it says in whatever form either is written, and to its own port 53, bracketed if it has a colon, when no key denotes it |
| `Exporter.Exporter.constructor` | main.go:44-92 | startup binds both globals by the configuration, with an empty cache, no completed cycle and so no registry |
| `Exporter.Exporter.ApplyReloadedConfig` | main.go:193-204 | afterwards mapping and roots are the new configuration's, the defaults where it has none, and the cache has been cleared |
| `Exporter.Exporter.Reload` | main.go:122-161 | a configuration that does not load changes nothing at all; one that does is applied |
| `Exporter.Exporter.RunCycle` | main.go:206-228 | skipped without effect while another cycle runs; otherwise one cycle is completed, with what some schedule gathers from the probers' outcomes over the current configuration, registry and gauges are built from that, and the token is free again |
| `Exporter.Exporter.Publish` | main.go:221-223 | gauges and registry are those of the results a cycle gathered, and the cycle counts as completed |
| `Exporter.Exporter.Metrics` | main.go:109-117 | the 503 iff no cycle has completed yet; otherwise the registry built from everything the last completed cycle gathered |
| `PromQL.MaxExists` | demo/dashboard/panels_status.go:49-59 | `max` is defined on every non-empty vector |
| `PromQL.MapOne` | demo/dashboard/panels_status.go:49-59 | arithmetic on one sample drops the metric name and nothing else |
| `PromQL.MatchOne` | demo/dashboard/panels_status.go:54-56 | one-to-one matching of two samples with equal signatures gives one sample under that signature |
| `StatusExpr.ComposeIsItsText` | demo/dashboard/panels_status.go:57-92 | the concatenated string is, character by character, the text of the expression tree that the other rows give a meaning to |
| `StatusExpr.ScalarizeMeans` | demo/dashboard/panels_status.go:49-59 | on every store a scalarized predicate is one label-less sample, its maximum capped at 1, or 0 if it matched nothing; it errs iff the predicate errs |
| `StatusExpr.FlagIsTruth` | demo/dashboard/panels_status.go:49-56 | for predicates that yield counts that sample is 1 iff some sample is at least 1, and 0 otherwise |
| `StatusExpr.ComposeEvaluates` | demo/dashboard/panels_status.go:61-92 | the value is 2·na + (1-na)·hard·(1+2·warn), on every store |
| `StatusExpr.ComposedRowShowsStatus` | demo/dashboard/panels_status.go:27-42 | on every store, series absent or not: exactly one label-less sample, with priority N/A, FAIL, WARN, PASS |
| `StatusExpr.ComposedRowFailsIff` | demo/dashboard/panels_status.go:74-92 | the row is a query error iff one of its predicates is |
| `MxStatus.NoRealTargetsIsDisjunction` | demo/dashboard/panels_status.go:401-410 | whenever both series exist the clamped sum is 1 iff there is no record or the record is a Null MX |
| `MxStatus.OrOfTestsIsTheFirst` | demo/dashboard/panels_status.go:404-409 | the spelling the source warns against ignores its second test altogether |
| `MxStatus.OrNoDataIff` | demo/dashboard/panels_status.go:318-333 | with the no-data guard a predicate is true iff it is true itself, or there is no SOA data and it has no sample labelled with the zone alone; the comment leaves the last condition out |
| `MxStatus.NoDataGuardIsHidden` | demo/dashboard/panels_status.go:412-421 | once both MX series exist the guard changes nothing, SOA data or not |
| `MxStatus.ResolveRowHard` | demo/dashboard/panels_status.go:440-441 | row B's hard predicate is one sample, 1 iff the two counts are equal |
| `MxRowText.HardText` | demo/dashboard/panels_status.go:441-441 | the hard predicate's tree is, character by character, what the source writes, for every zone |
| `MxRowText.NoRealTargetsText` | demo/dashboard/panels_status.go:410-410 | and so is the shared predicate of no real targets |
| `MxRowText.NotApplicableText` | demo/dashboard/panels_status.go:316-333 | and the not-applicable predicate with its no-data guard |
| `MxStatus.ResolveRowShows` | demo/dashboard/panels_status.go:439-448 | row B's cell in terms of the three published values |
| `MxStatus.ResolveRowIsExact` | demo/dashboard/panels_status.go:439-448 | from records to cell: N/A iff no records or a sole Null MX; else PASS iff no target repeats, none is the root and resolution finds every one an address; else FAIL |

## Left out

- Wire format, sockets, retries, timeouts and context deadlines: one exchange is one question to an oracle that may fail; the oracle answers the same question the same way throughout a walk.
- Logging, HTTP serving, signals, flags and YAML; `Exporter.Reload` takes the outcome of loading as a parameter.
- Unicode: text is ASCII as far as case and spaces are concerned.
- `net.ParseIP` and address formatting: addresses are opaque strings; `Config.Parser` and `Discovery.Oracles.isIPv6` stand for the library.
- Escaped trailing dots in `dns.Fqdn`.
- SOA, recursion, glue, NS-hostname, DMARC and e-mail probers, host-name syntax and configuration defaults: copying of fields and easy predicates.
- The cycle duration, zone count, cache hit and miss, and parent-delegation gauges, and a `Runner` built without a registerer.
- Panels, tables and the other status rows; of the rows only MX row B and its shared predicates are taken down to the records.
- PromQL parsing: `StatusExpr.ComposeIsItsText` fixes the text that is written; that the library parses it back to the same tree, by its precedence rules, is outside the model, as are regular-expression matchers, other aggregations and not-a-number samples.
- The NS row G of panels_status.go:260: it does not test what its comment says, and no property of it is stated.
- Time: durations and sample values are exact reals, so the rounding of float64 sums is not modelled; in `Reload` an entry may expire at any moment.
- Resolver.ResolveOneFamilyWithBudget: requires a non-empty root list, which startup and reload both guarantee; the source would panic on an empty one.
- Resolver.ResolveHostnames: takes the referral budget as a parameter; the source always starts with `DEFAULT_BUDGET`.
- Walkers.NextReferralServer: takes the budget of its out-of-band resolutions as a parameter, for the same reason.
- Walkers.TXTWalkIsBounded: counts exchanges; a failed TXT exchange is repeated once, and `Evaluation.Packets` counts the repetitions.
- Evaluation.SPFEvaluationIsBounded: every fetch is over one unchanging network.
- Siblings.SiblingsWalkTogether: compares with the resolver without its fallback, which the CNAME lookup does not have; `ResolutionAndLookupWalkTogether` covers every budget as far as the fallback is not needed.
- Priority.PaddedParsesBack: parsing is modelled for digit strings, all that the prober emits; signs, exponents and infinities that `ParseFloat` also accepts read as errors here.
- Mx.ProbeMX: address and CNAME lookups are oracles here; their own walks are in `Resolver` and `Walkers`.
- MxCycle.EveryCycleObserves: assumes that the configured zones are distinct, which the configuration check does not enforce, and that each prober labels its results with its zone and its registered name.
- NsClassification.ProbeNSClassification: what a server reports and whether a host is reached are oracles here.
- NsClassification.UnionSorted: the library sort is replaced by repeatedly taking the least element; `SortedUnionIsUnique` shows that nothing else could come out.
- Registry.RegisterGauge: invalid metric or label names, which the library refuses too, are not modelled.
- RegistryCycle.RegistryIsScheduleIndependent: assumes of the probers that are not modelled what `ProberShapes` proves of the other two; `Registry.OrderMattersIff` shows that one shape per name is needed.
- ProbeLoop.RunProbers: the outcomes are those of one list of nameservers; out-of-band hosts stand in that list in map order, and a prober that fails over between servers may see that.
- Starvation.FallbackMattersIff: compares outcome and flat query log, and so is stated for the budget 0, where nothing is nested. `Nesting.TracesAgreeIff` is exact at every budget; it compares the nested queries, because a flat log does not show where nested resolutions begin and end, and that two differently nested runs never share one is not proved.
- Exporter.Exporter.RunCycle: one caller at a time, the interleavings being in `Reload`; what the probers come to is a parameter. `ProbeLoop.GatherAll` lets the zones take turns and promises no more than that some schedule gathers its result; the other schedules are in `FanOut`.
- Discovery.DiscoveryIsExact: for host names that end in a dot and addresses without ".:", as the DNS library reads the one and prints the other.
