# ReconHive: a verified model of its scope guard, scan runner, live updates and search

ReconHive scans networks it has been authorized to scan. This project models the parts of it
that decide *what may be touched* and that run *concurrently*, and proves what they promise:

* **Scope** (`Cidr`, `Summarize`, `Collapse`, `Guard`, `Planning`). CIDR blocks are (version, aligned base,
  prefix length) as in section 3.1 of RFC 4632; alignment, halving, supernets, `collapse_addresses`
  and `address_exclude` are written out and verified. The main results: a collapsed list is the
  list of maximal blocks of its address set, so it is determined by that set; subtraction is
  exact; bulk planning partitions the requested addresses and lets through only what the per-host
  gate lets through; a planned job expands to a duplicate-free, capped list on which the gate
  never fires (`hosts()` follows section 2.6.1 of RFC 4291 for IPv6).
* **A scan run** (`Progress`, `Conservation`, `ScanRun`, `Liveness`, `RunCounters`, `Reports`, `Runner`). The
  progress accumulator is a class whose counters and bounded windows are proved to show exactly the
  replay of its events. The run itself is a state machine of host tasks, port tasks that wait for
  the rate limiter and then for a connection, two semaphores, a bounded queue and one coordinator,
  with every interleaving allowed, including port tasks that go on after a sibling raised and
  cancellation after a coordinator failure. Proved: contacts only to authorized addresses, a bound
  on the length of every run, exactly when no run can get stuck, exactly when the counters,
  which are keyed by address, are conserved, that a host's result carries exactly what its ports
  reported, and that every outcome of every port can happen.
* **Pacing** (`RateLimit`). The token bucket over `real`, with a clock that advances by at least
  the requested sleep: a bound on every time window, and termination of `acquire`.
* **Job lifecycle and live updates** (`Lifecycle`, `LiveUpdates`). Any number of concurrent run
  requests against one row; the hub, the snapshot-after-register socket protocol and the client's
  newest-version merge, with convergence at every quiet moment, and a quiet moment within reach of
  every state.
* **Search and ports** (`Lexer`, `SearchQuery`, `Grammar`, `PyText`, `Ilike`, `Compiler`, `Execution`, `Ports`).
  The index-based lexer proved equal to a scanner of the remaining text, the grammar in the lexer's
  header proved unambiguous and to be what it reads, the parser with a printer that is its exact
  inverse, `ILIKE`, the compilation of filters to conditions under SQL's three-valued logic, which
  compiled queries are refused and what the others select, and port specifications.

Code that updates state in place is modelled by classes and methods with loops, each proved
against a specification function; protocols are state machines over a `Next` relation, and their
results are about every reachable state of every run.

## Where the code does not do what it says

Each of these is kept as the code has it; a lemma shows it, and the exact condition is proved.

* `app/scope/guard.py:160-161` pass a generator to `_collapse`, whose first comprehension (line
  134) exhausts it, so the IPv6 comprehension (line 135) sees nothing: `_allow_nets` and
  `_deny_nets` never hold an IPv6 block. Bulk planning therefore rejects every IPv6 address, also
  those the per-host gate authorizes. `Guard.BulkAgreesIff` gives the exact condition for the two
  to agree, `Guard.Ipv6PlanningRejectsWhatTheGateAdmits` an instance. Planning stays on the safe
  side, and the partition, re-filtering and host-count results hold regardless.
* `evaluate` says that it never raises (`app/scope/guard.py:173`). It raises exactly for a text that
  is no address and no network, or has a prefix longer than the address
  (`Guard.ScopeGuard.Evaluate`); `Guard.EvaluateRaises` is the instance of an IPv4 prefix of 33,
  a text `authorize_host` may be given.
* The host counters are not conserved in every scan. With ports, a scan that can get through keeps
  them exactly if no admitted address is listed twice, since they are keyed by address
  (`app/scan/progress.py:56-59`); without ports, which a specification of separators such as `","`
  denotes (`Ports.CommaMeansNoPorts`), exactly if no listed address is admitted. A scan that cannot
  get through counts nothing but failures and keeps them. `RunCounters.ConservedIff` is the
  equivalence for every configuration; `RunCounters.TwiceListed` and `RunCounters.NothingToScan` are
  instances. A planned job never lists an address twice, so its counters are conserved
  (`Runner.PlannedRunConserves`).
* A scan can wait for ever: with a host limit of zero, or, if a port of an admitted host is to be
  connected, with a connection limit of zero or a rate above zero but below one token a second, as
  the limiter's capacity is its rate (`app/scan/scanner.py:73`, `app/scan/scanner.py:82`).
  `Liveness.NeverStuckIff` is the exact condition; `Liveness.ZeroHostLimitIsStuck` and
  `Liveness.BlockedIsStuck` give reachable stuck states.
* `acquire` of more tokens than the capacity is never granted, however long it is watched
  (`RateLimit.RateLimiter.Acquire`), and at no sequence of clock readings
  (`RateLimit.GrantedIffCapacity`, an equivalence).
* Text filters put the value between `%` signs unescaped, so they mean "contains, ignoring case"
  if and only if the value holds no `%`, `_` or backslash (`Ilike.SubstringIffNoWildcard`).
* A minus sign, wherever the lexer takes a turn at it, is read as a term of its own if and only if a
  space or a tab follows (`SearchQuery.DetachedMinusIff`), and then it is ignored
  (`SearchQuery.DetachedMinusIsIgnored`); `SearchQuery.MinusAddsNothingIff` adds the end of the
  text and the empty quotation.
* The bounds of a range of two numbers may be exchanged exactly if both or neither are written with
  a minus sign: in search, `5--3` is a range and `-3-5` a syntax error
  (`Compiler.RangeBoundsCommuteIff`); likewise in port specifications (`Ports.RangeBoundsCommuteIff`).
* The compiler builds conditions whose values the driver or the database then refuses, so a query
  that parses and compiles may still fail when it is run. A network text is validated with
  `strict=False` (`app/search/compiler.py:68`), but the text itself is cast to a CIDR value, which
  may not have host bits; an integer is bound to an `Integer` column (`app/db/models.py:153`,
  `app/db/models.py:191`), which asyncpg (`app/config.py:18`) holds to 32 bits; and PostgreSQL text
  cannot hold the character NUL. `Execution.SelectsExactly` states that a query is refused exactly if
  one of its filters or text terms has such a value, which can be read off the query before it is
  run; `Execution.WideAsnIsRefused` (`asn:4200000000`, a four-byte ASN) and
  `Execution.HostBitsAreRefused` (`net:10.0.0.5/24`) are instances.

## Model

| member | source | states |
|---|---|---|
| Cidr.NestedIntervals | app/scope/guard.py:21-22 | aligned power-of-two intervals that share one point are nested, the shorter in the longer |
| Cidr.DisjointOrNested | app/scope/guard.py:21-22 | the documented law: two CIDR blocks that share any address are nested, in the direction their prefix lengths say |
| Cidr.HasIsMasking | app/scope/guard.py:185 | containment computed by masking host bits is interval membership |
| Cidr.AddressSpaces | app/scope/guard.py:99-100 | an address space has 2^32 or 2^128 addresses |
| Cidr.SubnetMeansSubset | app/scope/guard.py:109-111 | `subnet_of`, a comparison of end points, holds exactly when every address of one block is in the other; false across versions |
| Cidr.SubnetPlen | app/scope/guard.py:109-111 | a block inside another has at least its prefix length, and equals it at the same length |
| Cidr.Lower | app/scope/guard.py:128 | a well-formed block inside, one bit longer, that starts where the block starts |
| Cidr.Upper | app/scope/guard.py:128 | a well-formed block inside, one bit longer, that ends where the block ends |
| Cidr.Supernet | app/scope/guard.py:138 | a well-formed block around, one bit shorter; a /0 is its own |
| Cidr.HalvesAreSiblings | app/scope/guard.py:128 | the two halves of a block have it as common supernet, are disjoint and cover it |
| Cidr.HalfOf | app/scope/guard.py:128 | a block one bit longer inside another is one of its two halves |
| Cidr.MergeSiblings | app/scope/guard.py:138 | two different blocks with one supernet have exactly the supernet's addresses together |
| Summarize.FirstBlock | app/scope/guard.py:138 | the next block of a range is well-formed, starts where the range does and stays inside it |
| Summarize.FirstBlockIsLargest | app/scope/guard.py:138 | every block with that start inside the range lies in it |
| Summarize.SummarizeRange | app/scope/guard.py:138 | disjoint blocks with exactly the addresses of the range, also at the end of the address space |
| Summarize.FindRanges | app/scope/guard.py:138 | the loop finds the runs of consecutive values |
| Summarize.RunsExact | app/scope/guard.py:138 | the runs hold exactly the values, in order, with a gap between any two |
| Summarize.SummarizeValues | app/scope/guard.py:138 | blocks with exactly the given single addresses |
| Summarize.GatherSingles | app/scope/guard.py:138 | gathering the one-address blocks of a list, repeated ones included, keeps its union |
| Collapse.MergeBySupernet | app/scope/guard.py:138 | the worklist keyed by supernet terminates and keeps the union; no two blocks of the table are siblings |
| Collapse.MergeLast | app/scope/guard.py:138 | one turn of that worklist keeps union and table invariant and lowers a measure |
| Collapse.Insert | app/scope/guard.py:138 | sorted insertion by base address, larger blocks first |
| Collapse.SortedValues | app/scope/guard.py:138 | the table's values in the order the final sweep relies on, none lost or added |
| Collapse.DropSubsumed | app/scope/guard.py:138 | the sweep that compares each block with the last kept one leaves an ascending disjoint list with the same union |
| Collapse.CollapseAddresses | app/scope/guard.py:137-140 | for any list of one version: ascending, disjoint, without siblings, same union |
| Collapse.OfVersion | app/scope/guard.py:134-135 | exactly the blocks of one version |
| Collapse.CollapseNets | app/scope/guard.py:133-141 | canonical result; a list keeps all its addresses, a generator only its IPv4 addresses |
| Collapse.WithinOne | app/scope/guard.py:133-141 | in a list without siblings, a block covered by the union lies in a single member |
| Collapse.CanonicalIsMaximal | app/scope/guard.py:133-141 | the members of a canonical list are exactly the maximal CIDR blocks inside its union |
| Collapse.CanonicalUnique | app/scope/guard.py:133-141 | canonical lists with equal unions are equal, whatever the order or repetition of what was collapsed |
| Guard.Intersection | app/scope/guard.py:105-113 | the common addresses of two blocks, None exactly for disjoint ones |
| Guard.AddressExclude | app/scope/guard.py:128 | repeated halving yields disjoint blocks with exactly the addresses outside the inner block, one per bit of difference |
| Guard.SplitOff | app/scope/guard.py:128 | one halving step emits the half without the inner block, disjoint from what was emitted before |
| Guard.PunchHole | app/scope/guard.py:120-129 | removing one hole from disjoint pieces removes exactly its addresses and keeps them disjoint |
| Guard.Subtract | app/scope/guard.py:116-130 | disjoint blocks whose union is the block minus all holes, for overlapping, nested and other-version holes |
| Guard.HostNet | app/scope/guard.py:100 | the one-address block of an address contains that address only |
| Guard.ParseTarget | app/scope/guard.py:92-102 | fails exactly for a text that is no address and no network, or has a prefix longer than the address; a block has the prefix length written and contains the address written |
| Guard.Filter | app/scope/guard.py:157-169 | exactly the entries of one kind without an expiry or with one still ahead, allow and deny alike |
| Guard.KeptInOrder | app/scope/guard.py:157-169 | filtering works entry by entry: it keeps list order and repetition |
| Guard.FirstMatchIsFirst | app/scope/guard.py:184-191 | the rule reported in a decision is the first in list order that contains the address |
| Guard.ScopeGuard.Decide | app/scope/guard.py:184-193 | authorized exactly if some active allow and no active deny rule contains the address; denied exactly if a deny rule does |
| Guard.ScopeGuard.Evaluate | app/scope/guard.py:172-193 | raises exactly for a text that is no target; authorized exactly for one admitted address, denied exactly for a range or an address under a deny rule |
| Guard.ScopeGuard.AssertAuthorized | app/scope/guard.py:198-206 | succeeds exactly when the evaluation succeeds with an authorized verdict |
| Guard.EvaluateRaises | app/scope/guard.py:172-178 | an IPv4 prefix of 33 makes evaluation and gate raise, whatever the rules |
| Guard.GateVerdict | app/scope/guard.py:172-206 | for an address, the gate opens exactly if the rules admit it, and `a` and `a/32` or `a/128` are judged alike |
| Guard.FromEntries | app/scope/guard.py:150-170 | a loaded guard, on the entries themselves: its allow and its deny side cover exactly the addresses of the unexpired entries of that kind, and its gate opens exactly for an address with such an allow entry and no such deny entry; collapsed lists hold exactly the IPv4 addresses of the rules |
| Guard.GuardUnique | app/scope/guard.py:157-161 | rules and clock determine the guard, collapsed lists included |
| Guard.ParseAll | app/scope/guard.py:211 | succeeds exactly if every requested target parses, keeping order |
| Guard.MeetAll | app/scope/guard.py:214-218 | the request's addresses that lie in the union of the allow blocks |
| Guard.FilterOne | app/scope/guard.py:213-229 | splits one request's addresses by what the bulk lists admit |
| Guard.FilterTargets | app/scope/guard.py:208-233 | fails only on a malformed target; otherwise both lists are canonical and split the requested addresses by what bulk planning admits |
| Guard.PartitionUnique | app/scope/guard.py:208-233 | requests with the same addresses get equal results |
| Guard.PartitionExact | app/scope/guard.py:211-233 | authorized and rejected blocks are disjoint and their union is the union of all requests, also overlapping ones |
| Guard.RefilterIsIdentity | app/scope/guard.py:208-233 | filtering the authorized list again returns it unchanged with nothing rejected |
| Guard.BulkImpliesGate | app/scope/guard.py:198-233 | every address of an authorized block passes the per-host gate |
| Guard.BulkAgreesIff | app/scope/guard.py:160-161 | bulk planning authorizes exactly what the gate does if and only if no IPv6 request meets an IPv6 allow rule outside the deny rules |
| Guard.Ipv6PlanningRejectsWhatTheGateAdmits | app/scope/guard.py:133-141 | with `::1` allowed and nothing denied the gate admits `::1` and planning rejects it |
| Guard.RulesAreMonotone | app/scope/guard.py:14-19 | one more allow rule never shrinks, one more deny rule never grows the authorized set; an expired rule changes nothing |
| Guard.HostCountIsCardinality | app/scope/guard.py:88-89 | for disjoint blocks the host count is the number of distinct addresses |
| Guard.HostCountsBalance | app/scope/guard.py:88-89 | authorized plus rejected host counts are the number of distinct requested addresses |
| Planning.HostsOfBlock | app/scan/runner.py:52-55 | a block lists each usable address once, ascending: every address but network and broadcast for an IPv4 prefix below 31, every one but the first for an IPv6 prefix below 127, else every one |
| Planning.ExpandTargets | app/scan/runner.py:47-56 | the loop appends the addresses of every block in order |
| Planning.ExpansionMembers | app/scan/runner.py:47-56 | for any list of blocks, what is listed is exactly their usable addresses, network and broadcast addresses of IPv4 blocks excluded |
| Planning.ExpansionExact | app/scan/runner.py:47-56 | for disjoint blocks: no duplicates, every usable address, never more than the host count, non-empty for a non-empty list |
| Planning.LoadGuard | app/scope/service.py:62-95 | fails exactly for a missing, disabled or closed engagement; else the gate of the guard opens exactly for addresses that an unexpired allow row and no unexpired deny row of the engagement contains, before the window ends |
| Planning.CappedRule | app/scope/service.py:85-94 | capping ends every row with the engagement and changes nothing before |
| Planning.EffectiveExpiryIsFaithful | app/scope/service.py:85-94 | before the window ends the cap changes no verdict, capped deny rules included; at its last instant nothing is authorized |
| Planning.ScopeSession.constructor | app/scope/service.py:55-58 | a session starts without pending rows |
| Planning.ScopeSession.AuthorizeHost | app/scope/service.py:99-133 | agrees with the gate and adds one audit row with the decision, also for a refusal |
| Planning.OutcomeMeans | app/scope/service.py:153-203 | an accepted job has exactly the requested addresses that may be scanned as authorized, the others as rejected, and between one and the cap of them; a refusal means that no address may be scanned, or that more than the cap may |
| Planning.AuditTells | app/scope/service.py:157-219 | the audit row names the job, and says fully authorized exactly if every requested address is in it |
| Planning.ScopeSession.PlanUnder | app/scope/service.py:153-219 | the outcome is fixed by the partition: cap first, then emptiness; one audit row either way, a job row only on success |
| Planning.ScopeSession.PlanJob | app/scope/service.py:137-219 | the same from the engagement's own rows on: every error path, what is accepted and why a request is refused, and what is written |
| Planning.PlannedJobPassesTheGate | app/scope/service.py:152-203 | an accepted job expands to a non-empty duplicate-free list within host count and cap, and the same guard's gate admits all of it |
| Planning.PlannedJobObeysTheRows | app/scope/service.py:152-203 | every address an accepted job expands to is IPv4, inside the window, under an unexpired allow row and under no unexpired deny row |
| Planning.NothingPlannedAtClosing | app/scope/service.py:72-94 | at the closing instant a guard still loads, but no job can be planned under it |
| Progress.AppendShows | app/scan/progress.py:68-70 | appending to a bounded window keeps it the last `limit` entries of the full history, with the flag set exactly if one was dropped, for every limit |
| Progress.OpenPortsInOrder | app/scan/progress.py:101-110 | open ports are listed in the order of the results |
| Progress.HistoriesInOrder | app/scan/progress.py:51-141 | the histories behind the windows are those of the parts of a stream, one after the other |
| Progress.HistoryOfOne | app/scan/progress.py:51-141 | what each event adds to each history: the port, the host with alive, open ports and error, its services, its enrichment |
| Progress.WindowIsTail | app/scan/progress.py:68-70 | a window is the end of the history, of the limit's length at most |
| Progress.ScanProgress.constructor | app/scan/progress.py:15-49 | a fresh accumulator shows the empty history |
| Progress.ScanProgress.SetPhase | app/scan/runner.py:116 | assigning the phase changes nothing else |
| Progress.ScanProgress.RecordPort | app/scan/progress.py:51-70 | afterwards counters and windows show the replay of the extended history; `CountersCount` and `HistoryOfOne` say what that is |
| Progress.ScanProgress.CountPort | app/scan/progress.py:51-70 | the same as one step of the unbounded view |
| Progress.ScanProgress.BumpCounters | app/scan/progress.py:52-59 | the in-place counter updates are one step of the counter function |
| Progress.ScanProgress.RecordScanError | app/scan/progress.py:72-82 | afterwards counters and windows show the replay of the extended history |
| Progress.ScanProgress.CountError | app/scan/progress.py:72-82 | the same as one step of the unbounded view |
| Progress.ScanProgress.RecordHostResult | app/scan/progress.py:89-141 | the same for a host's result, its services and its enrichment |
| Progress.ScanProgress.CountHost | app/scan/progress.py:98-141 | the same as one step of the unbounded view |
| Progress.ScanProgress.BumpHosts | app/scan/progress.py:98-100 | the in-place counter updates are one step of the counter function |
| Progress.ScanProgress.AppendServices | app/scan/progress.py:110-128 | the service window shows the history extended by one entry per open port |
| Conservation.HostFacts | app/scan/runner.py:124-135 | in every stream a scan can produce a host reports at most as many ports as there are, ends at most once, and a failed host never reports all ports |
| Conservation.CountersCount | app/scan/progress.py:51-100 | for every stream whatever: each state counter is the number of its port reports with that state, hosts_up the number of results with an open or a closed port, hosts_analyzed and errors the numbers of results and failures |
| Conservation.HostScannedOnce | app/scan/progress.py:56-59 | no host is counted scanned twice, not even one whose late ports report after its error |
| Conservation.CountersBalance | app/scan/progress.py:51-100 | every counter equals the sum of the hosts' shares in the stream |
| Conservation.TotalsBounded | app/scan/progress.py:51-100 | these sums are bounded by hosts and ports |
| Conservation.ProgressConserved | app/scan/progress.py:51-100 | hosts_analyzed + errors <= hosts_scanned <= hosts_total, and the port states sum to ports_scanned <= ports_total |
| Conservation.CompletionExact | app/scan/runner.py:140-164 | once every host has ended: hosts_analyzed + errors = hosts_scanned = hosts_total, and without errors ports_scanned = ports_total |
| ScanRun.NextInv | app/scan/runner.py:120-182 | every step of every task keeps the protocol invariant |
| ScanRun.RunInv | app/scan/runner.py:120-182 | the invariant holds in every state of every run |
| ScanRun.ProbesAuthorized | app/scan/runner.py:151-153 | HTTP and TLS probes follow a host's result, so they go to an authorized address |
| ScanRun.OnlyAuthorizedContacts | app/scan/scanner.py:133-141 | in every run, for any target list, all contacts go to addresses the run's guard admits; semaphores and queue keep their bounds |
| ScanRun.RunLogOk | app/scan/runner.py:122-156 | whatever the schedule, the coordinator consumes a stream in which every host reports at most as many ports as there are and ends once at most, with a result only after all its reports |
| Reports.ResultsAreTheReports | app/scan/scanner.py:141-144 | in every reachable state a consumed host result has one entry a port, in port order, each reported before it, and every report of the host is in it |
| Reports.PortsReportOnce | app/scan/scanner.py:135-139 | in every reachable state no port of a host has been reported twice |
| Reports.ContactsAreConnects | app/scan/scanner.py:82-89 | in every reachable state every port that has begun to connect is a contact, and every contact is such a port or one cancelled since |
| Reports.ProbesRevisit | app/scan/runner.py:151-153 | follow-up probes go to ports the scan has connected to and found open |
| Reports.ProbesAreOpenPorts | app/scan/runner.py:151-153 | while a host's result is handled, what may be probed is exactly its open ports |
| Reports.FailedRunStops | app/scan/runner.py:176-180 | after a result could not be handled, every host task has ended or is cancelled; ports go on only beside one that has raised |
| Reports.SemaphoresHold | app/scan/runner.py:72 | in every reachable state the number of hosts being scanned and of ports connecting are within the two limits |
| Reports.AnyOutcomeHappens | app/scan/scanner.py:80-145 | whatever reading or exception each port of each host is to yield, a scan that has what it needs has a run that consumes exactly that: results with those readings, and an error for each host that is refused or has a port that raises |
| RunCounters.RunConserves | app/scan/runner.py:137-164 | the counters, keyed by address, are conserved in every reachable state if no admitted address is listed twice, or, without ports, none is admitted |
| RunCounters.SentAdmitted | app/scan/scanner.py:133-139 | only admitted hosts report ports or results |
| RunCounters.SeenIsReplay | app/scan/progress.py:56-59 | where no admitted address is listed twice, counting by address is counting by position |
| RunCounters.EndsCounted | app/scan/progress.py:72-98 | analyzed plus failed hosts are the ended ones, and the port states sum to the scanned ports, for every log |
| RunCounters.NoPortsSeen | app/scan/progress.py:58-74 | with an empty port list exactly the failed hosts count as scanned |
| RunCounters.ScannedIsReached | app/scan/progress.py:56-74 | for every log, hosts_scanned is errors plus addresses that have reported as many ports as there are |
| RunCounters.ReportedName | app/scan/progress.py:56-57 | port counts are held only under admitted addresses |
| RunCounters.ScannedBelow | app/scan/progress.py:56-59 | a repeated admitted address adds nothing to hosts_scanned |
| RunCounters.CompleteRun | app/scan/runner.py:137-182 | a scan that has what it needs has, for every outcome of its ports, a run that follows it until every host has ended |
| RunCounters.FailuresSeen | app/scan/progress.py:72-74 | where only failures are recorded, nothing is analyzed and exactly the failed hosts count as scanned |
| RunCounters.StuckConserves | app/scan/runner.py:137-182 | a scan that cannot get through consumes nothing but failures, so its counters are conserved |
| RunCounters.ConservedIff | app/scan/progress.py:51-100 | the counters are conserved in every reachable state if and only if the scan cannot get through, or no admitted address is listed twice, or, without ports, none is admitted |
| RunCounters.TwiceListed | app/scan/progress.py:56-59 | one admitted address listed twice with one port: some reachable counters are not conserved |
| RunCounters.NothingToScan | app/scan/progress.py:58-59 | one admitted address and no ports: likewise |
| ScanRun.PortSent | app/scan/scanner.py:135-139 | a port's report keeps the stream well-formed, also after its host has failed |
| ScanRun.HostEnds | app/scan/runner.py:127-135 | a host's end event keeps the stream well-formed: a failed host has an unreported port (what its result carries: `Reports.ResultsAreTheReports`) |
| Liveness.StepRank | app/scan/runner.py:137-182 | every step, cancellation included, lowers a natural-number rank |
| Liveness.RunsEnd | app/scan/runner.py:137-182 | no schedule takes more than four steps a host, five a port, and one |
| Liveness.NeverStuck | app/scan/runner.py:140-141 | while a host is unfinished some step other than a failure is possible, if the scan has what it needs |
| Liveness.ZeroHostLimitIsStuck | app/scan/runner.py:72 | with a host semaphore of zero and a host to scan, the first state is reachable, unfinished and stuck |
| Liveness.PacesIff | app/scan/scanner.py:73-82 | the limiter ever grants a port its one token exactly if the rate is not positive or at least one |
| Liveness.Furthest | app/scan/runner.py:137-182 | every run that follows given outcomes of the ports can be continued so until no step is left |
| Liveness.ManyAtOnce | app/scan/runner.py:72 | up to both limits, admitted hosts are scanned and connect at the same time in some reachable state |
| Liveness.RunStill | app/scan/scanner.py:82-89 | without a connection limit or a limiter that grants, no port ever gets to a connection |
| Liveness.StillNeverEnds | app/scan/scanner.py:141-145 | then an admitted host never ends |
| Liveness.BlockedIsStuck | app/scan/scanner.py:82-83 | then a reachable state is unfinished and stuck |
| Liveness.NeverStuckIff | app/scan/runner.py:140-182 | no reachable unfinished state is stuck if and only if there is nothing to scan, or the host limit is positive and ports are not needed or can be connected |
| RunCounters.DrainedRunIsComplete | app/scan/runner.py:181-182 | when the drain loop ends every host task has ended, so the final gather does not block |
| RunCounters.DrainedCountersExact | app/scan/runner.py:140-182 | then hosts_analyzed + errors = hosts_scanned = hosts_total, and without errors ports_scanned = ports_total |
| ScanRun.WhyHostsFail | app/scan/runner.py:13-15 | a host fails because the gate refused it before any port started, or because one of its ports raised |
| Runner.Handle | app/scan/runner.py:142-164 | one event is recorded; the phase becomes analyzing exactly when all ports are in |
| Runner.Drain | app/scan/runner.py:138-175 | the loop consumes up to the last host's end or the first result that cannot be handled, and no further; snapshots are ordered exact replays and follow exactly the events after which half a second has passed, a service is new or the last host has ended; the phase turns when all ports are in |
| Runner.DrainTurn | app/scan/runner.py:141-175 | one turn keeps that: it publishes exactly if half a second has passed since the last snapshot, the host has an open port, or it was the last |
| Runner.Conclude | app/scan/runner.py:184-192 | ends completed; an extra snapshot goes out exactly if analyzing was never entered and something was recorded |
| Runner.Coordinate | app/scan/runner.py:115-208 | both outcomes: a completed run's final counters replay the consumed events; a failed one records nothing of the event it fails on and keeps the statistics of its last publication; the publications are the first, those of the drain loop, and one more exactly if a completed run never showed analyzing and recorded something |
| Runner.LastIsUrgent | app/scan/runner.py:166-175 | the event that ends the last host is always published |
| Runner.LastShows | app/scan/runner.py:166-175 | so the last publication of a drained run shows every consumed event |
| Runner.PublicationsConserved | app/scan/runner.py:173-174 | every snapshot published during a run, failed or not, is conserved |
| Runner.PlannedRunHasNoGateErrors | app/scan/scanner.py:133 | a job planned and run under one guard never fails a host at the gate |
| Runner.PlannedRunConserves | app/scope/service.py:152-203 | from an accepted plan to the run: whatever the guard of the run, its counters are conserved and its hosts within the cap |
| Runner.PlannedRunCompletes | app/scan/runner.py:140-182 | and exact when the drain loop ends |
| RateLimit.RateLimiter.constructor | app/scan/ratelimit.py:20-25 | a new bucket is full and has granted nothing |
| RateLimit.RateLimiter.Acquire | app/scan/ratelimit.py:27-42 | no-op for a non-positive rate; otherwise granted exactly if it fits the capacity and at most one sleep is waited for, at once if min(capacity, tokens + elapsed * rate) suffices, else after one sleep of (amount - ready) / rate; new tokens and time stated |
| RateLimit.RateLimiter.AcquireLocked | app/scan/ratelimit.py:30-42 | the loop under the lock, likewise |
| RateLimit.RateLimiter.TryTake | app/scan/ratelimit.py:32-38 | one iteration grants exactly if the refilled bucket holds enough, and says what is left |
| RateLimit.RateLimiter.Read | app/scan/ratelimit.py:32-35 | reading the clock refills up to the capacity and keeps the history legal |
| RateLimit.RateLimiter.Take | app/scan/ratelimit.py:37-38 | a grant is recorded and leaves the rest |
| RateLimit.PacedRefill | app/scan/ratelimit.py:35 | refilling keeps the bucket below what capacity and elapsed time allow since the last grant |
| RateLimit.PacedGrant | app/scan/ratelimit.py:36-37 | a grant keeps the history legal |
| RateLimit.SleptEnough | app/scan/ratelimit.py:41-42 | after sleeping at least the deficit the bucket holds the amount |
| RateLimit.WindowSums | app/scan/ratelimit.py:16 | a window's tokens are the sum of those of the grants in it |
| RateLimit.WindowBound | app/scan/ratelimit.py:16 | in every window of time the tokens granted are at most capacity + rate * length |
| RateLimit.UnitAcquiresTakeTime | app/scan/ratelimit.py:27-42 | k consecutive unit acquires take at least (k - capacity) / rate seconds |
| RateLimit.GrantedIffCapacity | app/scan/ratelimit.py:31-42 | some sequence of clock readings makes a request succeed if and only if it does not exceed the capacity |
| Lifecycle.NextInv | app/api/routers/jobs.py:121-151 | every step of every request keeps the invariant |
| Lifecycle.LifecycleSound | app/api/routers/jobs.py:121-151 | at most one request gets past the claim; the audit trail is submitted, started, finished with the verdict, as far as the status has come; announcements are the committed rows in order |
| Lifecycle.AnnouncementIsCommittedRow | app/scan/runner.py:79-88 | what a runner announces is the row committed at that moment |
| Lifecycle.RunnerFindsItRunning | app/scan/runner.py:92-107 | after a claim the runner always finds the job running |
| Lifecycle.TerminalIsFinal | app/scan/runner.py:190-218 | a completed or failed row never changes again, and an audit trail only grows |
| Lifecycle.AnyLifeHappens | app/api/routers/jobs.py:121-151 | whichever request comes first can claim the job, show any progress, and complete or fail it: rows, trails and announcements of that life |
| Lifecycle.LateRequestIsRefused | app/api/routers/jobs.py:130-141 | a request on a job that is no longer pending is refused and changes nothing else |
| LiveUpdates.SortJobs | frontend/src/views/JobsView.vue:61 | the same jobs, newest creation first, those of one instant in the order they had |
| LiveUpdates.FindIndex | frontend/src/views/JobsView.vue:52 | the first position of the id |
| LiveUpdates.OrderIrrelevantIffTimesDiffer | frontend/src/views/JobsView.vue:53-58 | two versions of a job may arrive in either order if and only if their timestamps differ |
| LiveUpdates.JobsView.constructor | frontend/src/views/JobsView.vue:51-62 | an empty list |
| LiveUpdates.JobsView.UpsertJob | frontend/src/views/JobsView.vue:51-62 | afterwards the list holds the incoming job in place of one with its id unless that one is strictly newer, and every other job; sorted, each id once, the order of jobs created at one instant kept |
| LiveUpdates.JobsView.MergeJobs | frontend/src/views/JobsView.vue:64-66 | merging a list is merging its jobs one by one |
| LiveUpdates.MergeInOrder | frontend/src/views/JobsView.vue:64-66 | merging two lists one after the other is merging their concatenation |
| LiveUpdates.JobEventHub.constructor | app/api/job_events.py:24-25 | no sockets |
| LiveUpdates.JobEventHub.Connect | app/api/job_events.py:27-29 | afterwards exactly the socket is registered in addition, for its engagement |
| LiveUpdates.JobEventHub.Disconnect | app/api/job_events.py:31-37 | afterwards exactly the socket is gone from its engagement; an emptied entry is dropped, unknown sockets are tolerated |
| LiveUpdates.JobEventHub.PublishJob | app/api/job_events.py:39-52 | delivers to every registered socket whose send succeeds and prunes exactly the others |
| LiveUpdates.PrunedExactly | app/api/job_events.py:31-37 | pruning takes the dead sockets from their engagement and nothing from any other |
| LiveUpdates.NextInv | app/api/routers/jobs.py:96-118 | every step keeps: what is anywhere on its way is a committed version, and the last version of every job is held or on its way once the snapshot was read |
| LiveUpdates.ClientConverges | app/api/routers/jobs.py:96-111 | for every interleaving and any reconnects, when all is published and delivered the client holds exactly the committed jobs |
| LiveUpdates.QuietCanCome | frontend/src/composables/useJobUpdates.ts:77-92 | from every reachable state a run can go on, with nothing more committed, until the client holds exactly the committed jobs |
| LiveUpdates.ClientNeverStepsBack | frontend/src/views/JobsView.vue:53-57 | the client shows committed versions only and never replaces one by an older one |
| LiveUpdates.StepNeverStepsBack | frontend/src/composables/useJobUpdates.ts:77-92 | no single delivery drops a job or turns one back |
| LiveUpdates.StaleIsIgnored | frontend/src/composables/useJobUpdates.ts:76-77 | what an earlier connection still delivers changes nothing the client holds |
| LiveUpdates.DeliveredIsShown | frontend/src/composables/useJobUpdates.ts:77-92 | every job delivered on the client's connection or in a list response is then held in that version or a newer one |
| LiveUpdates.EventReachesRegistered | app/api/job_events.py:39-46 | a published event is sent to every socket the hub has for the engagement |
| Lexer.ScanStops | app/search/lexer.py:68-69 | each inner scan stops at the first stopping character or the end |
| Lexer.ReadQuoted | app/search/lexer.py:32-41 | the index loop reads the quoted value of the remaining text; an unclosed quote runs to the end |
| Lexer.Term | app/search/lexer.py:60-94 | a term takes no text only in front of a blank |
| Lexer.LexOne | app/search/lexer.py:48-94 | one outer iteration always advances, also on a lone minus sign or a leading colon |
| Lexer.ReadAfterColon | app/search/lexer.py:73-89 | operator and value by index are those of the remaining text |
| Lexer.ReadTerm | app/search/lexer.py:60-94 | the same for a whole term |
| Lexer.ReadWord | app/search/lexer.py:66-94 | the same for a term that is not quoted |
| Lexer.ReadField | app/search/lexer.py:71-89 | the same for a filter |
| Lexer.ReadText | app/search/lexer.py:90-94 | the same for a bare word |
| Lexer.ReadOne | app/search/lexer.py:48-94 | the same for one outer iteration, which advances the index |
| Lexer.Tokenize | app/search/lexer.py:44-96 | terminates on every text with the tokens of the text |
| Lexer.LowerTextIs | app/search/lexer.py:73 | field names are lowered letter by letter |
| Grammar.LexIsTheReading | app/search/lexer.py:3-14 | the header's grammar, stated on how a text is written, is unambiguous, and its reading of every text is what the scanner returns: quotes, barewords, fields, operators and minus signs, with what ends each |
| Grammar.LexOneReads | app/search/lexer.py:48-96 | one outer iteration reads a term, a blank or a last minus sign by the grammar |
| Grammar.ReadsOnce | app/search/lexer.py:48-96 | what the grammar allows at the front of a text is what one outer iteration reads |
| Grammar.OperatorsAre | app/search/lexer.py:20 | the longest operator at the front is taken |
| Grammar.SpacesAre | app/search/lexer.py:49 | the white space of `str.isspace` |
| SearchQuery.Parse | app/search/parser.py:46-60 | the loop yields the query of the token list, or a syntax error at the first bad token |
| SearchQuery.ClausesInOrder | app/search/parser.py:46-60 | the query of a token list is that of its parts, one after the other, and an error exactly if a part is |
| SearchQuery.OneClause | app/search/parser.py:48-59 | one token is a text term unless empty, a clause on a known field with a value, which only has_tls and has_cpe may lack, or an error |
| SearchQuery.RoundTrip | app/search/parser.py:46-60 | parsing what is printed gives the query back, for every printable query |
| SearchQuery.ParserImage | app/search/parser.py:46-60 | a query is printable if and only if some text parses to it |
| SearchQuery.ReparseIsIdentity | app/search/parser.py:46-60 | for every accepted text, printing and parsing its query again changes nothing |
| SearchQuery.LexSplits | app/search/lexer.py:48-51 | where the outer loop takes a turn, the rest is read as a text of its own |
| SearchQuery.DetachedMinusIff | app/search/lexer.py:53-69 | a minus sign before the last character is read as an empty negated term of one character if and only if a space or a tab follows |
| SearchQuery.DetachedMinusIsIgnored | app/search/lexer.py:53-58 | such a minus negates nothing: the rest is read as if it were not there |
| SearchQuery.MinusAddsNothingIff | app/search/parser.py:49-52 | a minus sign adds nothing to the query exactly if it ends the text or a space, a tab or an empty quotation follows; a line break after it belongs to a word |
| Ilike.LikeIsContains | app/search/compiler.py:47-48 | `ILIKE` with `%` on both sides of a value without wildcards is containment ignoring case |
| Ilike.SubstringIffNoWildcard | app/search/compiler.py:47-48 | it is so on all texts exactly for values without a wildcard |
| Ilike.LikeInTwo | app/search/compiler.py:47-48 | two patterns one after the other match exactly the texts that can be cut into a match of each |
| Ilike.LikePiece | app/search/compiler.py:47-48 | `%` matches every text, `_` one character, a quoted or ordinary character itself in either case |
| Ilike.ContainsIs | app/search/compiler.py:47-48 | containment ignores case and nothing else |
| Compiler.NumericMeans | app/search/compiler.py:34-44 | the condition holds exactly for the numbers the text asks for, NULL for NULL |
| Compiler.TextMeans | app/search/compiler.py:84-93 | text fields: NULL for NULL columns, else containment |
| Compiler.FieldMeans | app/search/compiler.py:80-100 | every field's condition has the value the field promises of its own column, on every row |
| Compiler.FilterMeans | app/search/compiler.py:103-105 | a clause's condition has the clause's three-valued truth, negation included |
| Compiler.PicksOnce | app/search/compiler.py:128-130 | the values of the positive search are those of the terms without a minus sign, all of them, in order |
| Execution.FieldAccepted | app/search/compiler.py:34-100 | the values a filter binds can be sent exactly if its numbers fit 32 bits, its text has no NUL and its network no host bits |
| Execution.StatementAccepted | app/search/compiler.py:125-141 | all values of a compiled query can be sent exactly if none of its filters and text terms is refused |
| Compiler.StatementSelects | app/search/compiler.py:118-141 | the rows of the engagement on which every clause is true, no term with a minus sign matches, and the other terms, joined by blanks in order, match as one search |
| Compiler.RankedIff | app/search/compiler.py:143-149 | a search is ranked exactly if some term stands without a minus sign |
| Compiler.CompilesIff | app/search/compiler.py:26-105 | a query compiles exactly if every clause has a known field and a text of that field's kind |
| Compiler.KnownFieldsAreBuilt | app/search/compiler.py:80-100 | the parser's list of fields and the compiler's table have the same fields |
| Compiler.UpperIs | app/search/compiler.py:92 | countries are compared in capitals |
| Compiler.FalseyWords | app/search/compiler.py:23 | the words that turn a presence filter round |
| Compiler.BuildConditions | app/search/compiler.py:125 | all conditions in order, or the first failure |
| Compiler.Compile | app/search/compiler.py:108-151 | the compiled statement, term loops included |
| Execution.SelectsExactly | app/search/compiler.py:108-141 | a compiled query is refused exactly if one of its values is, read off its filters and terms; otherwise it selects exactly the rows of its engagement on which every clause is true, no negated term matches and the others match as one search; unknown is not true |
| Execution.WideAsnIsRefused | app/search/compiler.py:82 | `asn:4200000000` parses, compiles and is refused |
| Execution.HostBitsAreRefused | app/search/compiler.py:66-71 | `net:10.0.0.5/24` parses, compiles and is refused |
| Compiler.NegationPartitions | app/search/compiler.py:103-105 | the conditions of a filter and its negation never both hold and together cover exactly the rows where the column is not NULL |
| Compiler.RangeBoundsCommute | app/search/compiler.py:36-39 | bounds without a minus sign may come in either order, also malformed ones |
| Compiler.BoundsBuild | app/search/compiler.py:36-40 | a range of two numbers is built exactly if the first is written without a minus sign |
| Compiler.RangeBoundsCommuteIff | app/search/compiler.py:36-40 | two numbers may be exchanged as bounds if and only if both or neither are written with a minus sign |
| Compiler.ParsedQueriesCompile | app/search/parser.py:53-59 | a parsed query compiles or is a syntax error; no field is missing from the builder table |
| PyText.FindAt | app/search/compiler.py:37 | partitioning at the first separator |
| PyText.JoinInOrder | app/search/compiler.py:132 | the separator stands between neighbours and nowhere else |
| PyText.SplitExact | app/scan/ports.py:29 | the pieces contain no separator and give the text back when joined by it |
| PyText.DigitsExact | app/scan/ports.py:35 | digits are accepted exactly with single underscores between them, with the value they have read from the left |
| PyText.DecimalReadsBack | app/scan/ports.py:35 | a number in decimal is read back, with either sign, within blanks |
| PyText.StripWindow | app/scan/ports.py:30 | stripping takes exactly the outer blanks |
| PyText.NumberShape | app/scan/ports.py:35 | what `int` accepts has a digit, and a minus sign at most in front of it |
| PyText.StripAround | app/scan/ports.py:30 | stripping a range strips only the outer sides of its bounds |
| Ports.ParsePortSpec | app/scan/ports.py:28-44 | accepted exactly if every chunk parses and all ports are from 0 to 65535; the result is the ascending list of the denoted ports |
| Ports.SortedPorts | app/scan/ports.py:44 | ascending, no port lost, added or repeated |
| Ports.AscendingUnique | app/scan/ports.py:44 | the list is determined by the set of ports |
| Ports.SpecIsUnion | app/scan/ports.py:29-40 | a specification denotes the union of its chunks, and is malformed exactly if one chunk is |
| Ports.CommaMeansNoPorts | app/scan/ports.py:29-32 | separators alone are accepted and denote no ports |
| Ports.SingleChunk | app/scan/ports.py:30-40 | a chunk without a minus sign denotes the one port it names, nothing if blank, else is malformed |
| Ports.RangeBoundsCommute | app/scan/ports.py:35-38 | bounds without a minus sign may come in either order, also malformed or blank ones |
| Ports.RangeChunk | app/scan/ports.py:33-38 | a range without a minus sign in its first bound denotes the span of its bounds, blanks aside, or is malformed |
| Ports.RangeBoundsCommuteIff | app/scan/ports.py:33-38 | two numbers may be exchanged as bounds if and only if both or neither are written with a minus sign |

## Left out

- Guard.ParseTarget: starts from parsed addresses and prefix lengths; IP text, zone ids, masks in dotted form and the wording of reasons are not modelled.
- LiveUpdates.ClientConverges: assumes that the timestamps of one job strictly increase with its commits; `OrderIrrelevantIffTimesDiffer` says why.
- Lifecycle.LifecycleSound: assumes that commits succeed and processes do not crash, and covers runs through the claim; the publish after a submission is not part of it.
- Progress.ScanProgress.RecordScanError: every recorded error names its host, as the runner's only call does.
- Progress.ScanProgress.RecordHostResult: service entries carry host and port result and enrichment entries the host, not the fingerprint, certificate and location fields copied into them.
- Runner.Coordinate: a guard that cannot be loaded and failing commits are not among the faults; a result that cannot be fingerprinted, enriched or stored is.
- Ports.ParsePortSpec: text specifications only; iterables and the default list of top ports are table lookups.
- Execution.SelectsExactly: full-text search is an uninterpreted predicate without errors of its own, and limit, offset and ranking order are not modelled; lone surrogates are not characters of the model, nor are zone ids and dotted masks part of its address texts.
- Letter case and decimal digits outside ASCII, in search text and port specifications, and the limit of 4300 digits that `int` sets.
- Sockets, TLS, HTTP probing, banner reading, fingerprints, GeoIP, certificate parsing and text sanitizing: a port scan is open, closed, filtered or an exception.
- PostgreSQL, SQLAlchemy and migrations beyond committed rows with an uncommitted overlay; the scan's host and service rows.
- Durability of audit rows for rejected submissions, since the request's session rolls back.
- Rounding of floating-point tokens and the fairness of the limiter's lock.
- Reconnect timers, payload validation and engagement switches in the browser: one fixed engagement view.
- The liveness check `is_alive`, Vue templates, routing and stores.
