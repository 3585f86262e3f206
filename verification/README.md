# OrcheRoute: verified models of the policy core

OrcheRoute decides, from what its adapters observe, which server carries traffic, which routes
bypass it, and who may use it. This project models those decisions in Dafny and proves what they
promise over every input and every run.

- **Routes.** `Cidr` and `CidrShape` are the greedy split of an address range into prefixes, for any
  address width. `Routes` parses entries, `RouteEntries` says which are accepted and which count as the
  same, and `RouteCompiler` deduplicates them and flattens the three lists into one first-match plan.
- **Failover.** `Controller` is the step of the failover controller, as methods that follow the source
  and as a function. `ControllerChoice` is about single decisions, `ControllerRuns`,
  `ControllerBatches` and `ControllerRank` about whole runs, `ControllerLadders`, `ControllerReturns` and
  `ControllerProgress` about runs with fixed measurements. `ControllerHistory` and `ControllerLedger` tell
  every decision, counter and cooldown from what happened before, `ControllerFailback` the way back to the
  primary pool. `Rank` is the server rating and
  `ServerChoice` the ranking by operating mode.
- **Restricted-network pool.** `Whitelist` is the pool, `WhitelistForm` its canonical form,
  `WhitelistAnswers` what each command answers and leaves, `WhitelistStore` its persistence,
  `WhitelistScan` and `WhitelistUpdate` the results of a scan, `Orchestrator`, `OrchestratorRuns` and
  `OrchestratorHistory` the event machine on top.
- **Sign-in limiter.** `AuthLimiter` is the table of token buckets, `AuthRuns` its bound over runs,
  `AuthCache` its equivalence with a limiter that never forgets a peer, `AuthAnswers` when it refuses.
- **Connectivity.** `Connectivity` confirms network states, `ConnectivityMonitor` is a monitor cycle,
  `Stability` the window of successes.
- **Call server.** `RuleChain` is a live firewall chain, `RuleOrder` says where rules end up in it,
  `LanPolicy` and `LanIsolation` are the rules put into it and `LiveRules` what the chain then decides.
  `PeerAddresses` is the tunnel addresses, `Traffic` and `PacketTraffic` the byte accounting.
- **Qualification.** `SpeedTest` judges speed samples, `Qualification` is the pipeline,
  `QualificationStages` who goes on from stage to stage, `QualificationReport` its counting loops and `QualificationCounts` what the counts add up to.

`Powers`, `Sorting` (modules `Lex` and `StableSort`), `Seqs` and `Wrappers` are shared helpers.

Where the source changes state, a method does the same step by step and is proved equal to a function
of the old state; the lemmas are about that function. Run lemmas quantify over sequences of
events or cycles of any length.

## Where the code keeps less than one might expect

Each of these has the condition under which the property holds and a concrete counterexample, or an
equivalence.

- Requests for requalification are a retry period apart unless the second one comes from the failure
  batch (`RequestsAreSpaced`). A policy spaces all of them exactly without a batch, and without a refresh
  period below the retry period (`SpacedIffKeptApart`); the default policy does, the managed one does not
  (`ManagedRequestsCanBeClose`).
- With fixed measurements, how often runs switch is decided by the node list alone (`SwitchesIffLadder`).
  The bound of 13 holds when no node scores above the first one of its name (`AtMostThirteenSwitches`),
  as with unique names. A run can return to a node exactly if two names each have a node 75 points above
  the first node of the other (`ReturnsIffRivals`); from the initial state, exactly if these are the two
  best names (`FreshReturnsIffSwap`).
- The provider files fall behind the stored pool exactly when what they are derived from changed after
  each was last written (`SyncIff`); the step that causes it reports it (`LagIsReportedAndEnds`).
- The comment at internal/callserver/backend_packet_linux.go:126-131 says peer isolation and the LAN block
  are always evaluated before the accept. Each rule has a place before the start: where it stands, or behind
  as many rules as the chain has of those before it in the list. Two rules end up in list order exactly if
  their places are (`RuleOrder.OrderIff`), so isolation, overrides and LAN block all stand before the accept
  exactly if those the chain had stood before the accept's place (`AcceptComesLastIff`). If no other rule
  touches new traffic from the tunnel, all of it is decided by the policy exactly if this holds for every
  two rules that disagree about some of it (`NewTrafficDecidedIff`, and `InputDecidedIff` for traffic to the
  server itself); a drop without it lets a forbidden packet through (`MisplacedDropLeaks`), as a lone LAN
  drop behind an unrelated rule does (`LanBlockIsOvertaken`). With other rules that do touch it, the rules
  of the list must also have been at the head of the chain (`LiveChainImplementsPolicy`): an accept found
  there stays there if the isolation rule is in the chain (`HeadOfChainDecides`).
- A start is refused a position exactly if repeated rules leave a new one behind the end (`FailsIff`), as
  two peers with one address can (`SharedAddressFails`).
- `replace_source` drops a selection of that source even if the same node comes back (`OpsOutcome`).

## Model

| member | source | states |
|---|---|---|
| Cidr.LowZeroBits | internal/routes/routes.go:375-381 | the bit loop finds the largest power of two that divides the address, capped by the width |
| Cidr.NextHostBitsIsLargest | internal/routes/routes.go:375-388 | the size chosen at each step is the largest aligned block that starts there and stays inside the range |
| Cidr.SummarizeRange | internal/routes/routes.go:368-394 | the loop over `current` terminates and returns the greedy split, for any width |
| Cidr.SplitTiles | internal/routes/routes.go:368-394 | every prefix is aligned, fits the address width and the range, starts where the one before ends, and the last ends behind `last` |
| Cidr.SplitOrdered | internal/routes/routes.go:368-394 | later prefixes lie behind earlier ones |
| Cidr.SplitIsExact | internal/routes/routes.go:368-394 | an address is in some prefix if and only if it is in the range |
| Cidr.SplitDisjoint | internal/routes/routes.go:368-394 | no address is in two prefixes |
| Cidr.BlockInsideSplit | internal/routes/routes.go:368-394 | every aligned block inside the range lies inside one emitted prefix |
| Cidr.SplitIsShortest | internal/routes/routes.go:368-394 | no list of prefixes with the same union is shorter: the greedy choice is optimal |
| CidrShape.SplitRisesThenFalls | internal/routes/routes.go:368-394 | block sizes strictly rise to a peak used at most twice, then strictly fall |
| CidrShape.SplitLength | internal/routes/routes.go:368-394 | at most 2·width−2 prefixes: 62 for IPv4, 254 for IPv6 |
| CidrShape.SplitLengthIsTight | internal/routes/routes.go:368-394 | the range without the first and last address needs exactly that many |
| Routes.CollectPorts | internal/routes/routes.go:252-276 | port pieces are checked and deduplicated in order, the first bad one is the error |
| Routes.Parse | internal/routes/routes.go:83-130 | every form of entry gives the key, rules or error of the parsing function |
| RouteEntries.EntryOutcome | internal/routes/routes.go:83-130 | an entry parses if and only if it is acceptable by its text alone (bounds of one family in order, a star alone and with a protocol, ports in 1-65535); otherwise the error is that of its form and of its first bad piece |
| RouteEntries.PortsAreMentions | internal/routes/routes.go:252-276 | a port list keeps each port or span once, in the order of first mention |
| RouteEntries.SameKeyIff | internal/routes/routes.go:83-130 | two acceptable entries are duplicates if and only if they are the same host, subnet, range, protocol, port list up to repetitions, or symbol |
| Routes.ParsePreservesMeaning | internal/routes/routes.go:83-130 | the rules of an entry match exactly the connections the entry means |
| Routes.RangeMeaning | internal/routes/routes.go:117-121 | an `ip_range` entry matches exactly the addresses in its range |
| Routes.SubnetMeaning | internal/routes/routes.go:94-101 | a subnet matches the addresses that share its leading bits, also when written with host bits |
| Routes.TransportMeaning | internal/routes/routes.go:222-291 | a transport entry matches its protocol and the ports of its list |
| Routes.KeyDeterminesRules | internal/routes/routes.go:177-181 | entries with one deduplication key parse to the same rules, so skipping a repeated key loses nothing |
| RouteCompiler.AppendNew | internal/routes/routes.go:187-194 | appends each rule not seen before, once, and keeps the seen set equal to the list |
| RouteCompiler.CompileList | internal/routes/routes.go:168-197 | one list compiles to the normalized entries, rules, items and counts, or to its first error |
| RouteCompiler.CompileEntriesOutcome | internal/routes/routes.go:171-176 | a list compiles if and only if all its entries are acceptable; otherwise the first one that is not is named, with index and the code of its form |
| RouteCompiler.CompileKeepsOrder | internal/routes/routes.go:177-195 | the compiled keys and rules are those of the entries, each once, in the order of first mention; an item stands for the first entry of its key, and ranges are counted |
| RouteCompiler.CompileAllOutcome | internal/routes/routes.go:160-176 | all lists compile if and only if none has more than 10 000 entries and all entries are acceptable; otherwise the first list that does not comply is reported, for its size first
| RouteCompiler.CompileListPreservesMeaning | internal/routes/routes.go:160-198 | range splitting and both deduplications change no verdict of the list |
| RouteCompiler.CompileCounts | internal/routes/routes.go:178-197 | source entries = normalized entries + duplicates; nothing kept is repeated; the items' rules are the compiled rules |
| RouteCompiler.CompileLists | internal/routes/routes.go:132-200 | unknown, missing and oversized lists are refused in the source's order, by the alphabetically first name; otherwise all three compile |
| RouteCompiler.Compile | internal/core/routing/routing.go:26-44 | the plan exists if and only if the default is known and the lists compile, and lists block, direct, proxy and the default in this order |
| RouteCompiler.CompilePreservesMeaning | internal/core/routing/routing.go:26-44 | for every connection the first match in the plan is block over direct over proxy over default on the source entries |
| Rank.ScoreIsBounded | internal/core/noderank/rank.go:26-42 | the score is between 0 and 1000 whatever the logarithm, if it is not negative |
| Rank.BetterScoresHigher | internal/core/noderank/rank.go:26-42 | a server no worse in delay, speed, history and stability ratio does not score lower |
| Rank.MissingIsNeutral | internal/core/noderank/rank.go:23-36 | missing evidence is neutral: no delay counts as 150 ms, no speed as half the scale, an even history as none, an invalid stability ratio as none |
| Rank.PartsCount | internal/core/noderank/rank.go:26-42 | what delay, speed, stability ratio and failures move, from the 500 points of an unknown server |
| ServerChoice.Rank | internal/core/noderank/rank.go:44-60 | the ranking is the stable sort by alive, score and original position |
| ServerChoice.RankingMembers | internal/core/noderank/rank.go:44-60 | the ranking is sorted and holds every node once, with its score and position |
| ServerChoice.Select | internal/core/noderank/rank.go:65-85 | emergency mode never leaves its pool; otherwise emergency is used only without a living primary; the choice is the best score, earliest among equals; none exactly if none is usable |
| Controller.Step | internal/controller/controller.go:109-302 | the whole decision cycle, field by field, equals the step function the lemmas are about |
| Controller.StepQualifying | internal/controller/controller.go:160-175 | resume, retry or wait while a requalification is pending |
| ControllerChoice.ManualSelectsIff | internal/controller/controller.go:177-195 | manual control selects exactly when the first node of the chosen name is alive and not in use, and then that node, whatever its pool, score or cooldown |
| ControllerChoice.ManualModeStaysOnNode | internal/controller/controller.go:177-195 | in every cycle under manual control nothing but the chosen node, alive, is selected by an enabled service; rank fields stay, no requalification starts and the failure batch does not grow |
| Controller.StepHealthy | internal/controller/controller.go:210-267 | rank checks and failback while the active node works |
| Controller.StepFailback | internal/controller/controller.go:234-265 | failback from emergency to a retested primary node |
| Controller.StepDegraded | internal/controller/controller.go:269-302 | failure threshold, cooldown, batch and replacement |
| Controller.StepEmergency | internal/controller/controller.go:308-355 | strict emergency mode |
| Controller.BeginRequalification | internal/controller/controller.go:357-367 | cools down the pool and dates the request |
| Controller.CollectCandidates | internal/controller/controller.go:397-421 | filters and sorts the candidate list |
| Controller.CollectTestedSince | internal/controller/controller.go:376-386 | filters the candidates tested since the request |
| ControllerChoice.HeadIsBest | internal/controller/controller.go:397-421 | the head of the candidates is the maximum by pool priority, score and name; empty exactly if nothing is eligible |
| ControllerChoice.BestMeans | internal/controller/controller.go:408-421 | the maximum is a primary node if one is eligible, of the highest score, and of equal scores the one with the smallest name |
| ControllerChoice.AutomaticSelectsBest | internal/controller/controller.go:200-302 | every automatic or emergency selection names an alive node that is not cooling down and that no such node outranks |
| ControllerChoice.EmergencyModeStaysInPool | internal/controller/controller.go:308-344 | in emergency mode every selection of an enabled service names an alive emergency node |
| ControllerRuns.CooldownSafety | internal/controller/controller.go:119-123 | under a clock that does not run back, a cooled-down node is not selected before its time, unless a resume came in between |
| ControllerRuns.GivenUpNodeCools | internal/controller/controller.go:278-292 | whenever the active node is given up as failed it is cooled down for the full period |
| ControllerBatches.BatchStaysOpen | internal/controller/controller.go:278-287 | in every reachable state with a failure limit, no pending requalification means fewer failed nodes than the limit |
| ControllerBatches.NothingSelectedWhileQualifying | internal/controller/controller.go:160-175 | with WAN and control enabled nothing is selected while a requalification is pending |
| ControllerBatches.LatestRequest | internal/controller/controller.go:357-367 | a pending requalification is dated by the latest request of the run |
| ControllerBatches.PendingRequestsAreSpaced | internal/controller/controller.go:168-174 | while one stays pending, requests are at least the retry period apart, whatever the clock does |
| ControllerBatches.RequestsAreSpaced | internal/controller/controller.go:284-299 | with a clock that does not run back, and a refresh period no shorter than the retry period, two consecutive requests are the retry period apart, resumed or not in between, unless the second comes from the failure batch |
| ControllerBatches.SpacedIffKeptApart | internal/controller/controller.go:278-300 | a policy spaces the requests of every run if and only if it has no failure batch and no suspension with a shorter refresh period (or no retry period at all) |
| ControllerBatches.RequestsCanBeClose | internal/controller/controller.go:284-286 | for every policy with a failure batch and every pace of the cycles that fits a batch into the retry period: a run from the initial state with two requests closer than it, in which as many named nodes as the batch takes fail in turn and the transport follows the selections |
| ControllerBatches.ManagedRequestsCanBeClose | internal/controller/controller.go:101-107 | the managed policy as it is: a request, a resume and the next request 80 seconds later, with a retry period of 300, while three nodes fail in turn |
| ControllerBatches.RefreshBringsRequestCloser | internal/controller/controller.go:256-260 | without a batch, a shorter refresh period does it: a run for every such policy, with an emergency node that comes and goes |
| ControllerBatches.ResumeNamesRetestedNode | internal/controller/controller.go:160-167 | a resume names the best node tested since the latest request, from the emergency pool in emergency mode |
| ControllerHistory.DecisionsFollowLedger | internal/controller/controller.go:109-355 | over every run from the initial state the counters and times are those of a ledger of its observations and decisions, and each decision is the one the ledger calls for: outage, grace period, switch-off, requalification, manual control, failure threshold, batch, replacement, exhaustion |
| ControllerLedger.CooldownsFollowLedger | internal/controller/controller.go:119-123 | the cooldowns of every run are exactly those its decisions started and neither time nor a resume ended |
| ControllerLedger.RankFollowsEntries | internal/controller/controller.go:206-230 | every cycle, in any mode, keeps the rank counters and switches by them: the second check in a row that names a node, with the same active node and no failure between |
| ControllerLedger.CycleReports | internal/controller/controller.go:109-355 | the reported time, mode, network and status go with the decision |
| ControllerLedger.ActivePoolIs | internal/controller/controller.go:152-195 | the pool on file is that of the node in use, of the chosen one under manual control, none when switched off |
| ControllerLedger.DownSince | internal/controller/controller.go:133-145 | the reported start of an outage is its first cycle |
| ControllerFailback.GoesBackExactly | internal/controller/controller.go:234-255 | a run goes back to a primary node in exactly the checks that name it as the best retested one when, with this one, as many in a row did as the policy asks for, with no other node and no refresh in between |
| ControllerFailback.AsksRefreshExactly | internal/controller/controller.go:256-262 | the primary pool is refreshed in exactly the checks that see no retested node, once and then again after the refresh period |
| ControllerFailback.ChecksAreSpaced | internal/controller/controller.go:234-236 | two successive checks are the recovery interval apart |
| ControllerFailback.DefaultGoesBackAtSecond | internal/controller/controller.go:92-98 | the default policy goes back at the second such check: a run |
| ControllerRank.RankStep | internal/controller/controller.go:206-230 | what any cycle can do to the rank check time, target and streak |
| ControllerRank.SwitchesAreSpaced | internal/controller/controller.go:212-225 | two consecutive rank switches are at least 60 s plus the check interval apart |
| ControllerRank.SwitchWasConfirmedTwice | internal/controller/controller.go:216-225 | a switch follows two checks, an interval apart, at both of which the target was best and 75 points better |
| ControllerLadders.CalmCycle | internal/controller/controller.go:206-230 | without failures the only selection is a rank switch and cooldowns only expire |
| ControllerLadders.RunsClimb | internal/controller/controller.go:206-230 | the names a run with fixed measurements switches through form a ladder of the node list |
| ControllerLadders.LadderRuns | internal/controller/controller.go:206-230 | every ladder is switched through by some run, from a stored state with suitable cooldowns |
| ControllerLadders.SwitchesIffLadder | internal/controller/controller.go:206-230 | some run with fixed measurements switches k times if and only if the node list has a ladder of k steps (and rank checks are on) |
| ControllerLadders.AtMostThirteenSwitches | internal/controller/controller.go:206-230 | with fixed measurements, no failures, bounded scores and no node scoring above the first one of its name, a run of any length has at most 13 switches |
| ControllerLadders.AtMostThirteenByScore | internal/core/noderank/rank.go:26-42 | the same for the score itself, with any logarithm that is not negative |
| ControllerReturns.ThirteenIsReached | internal/controller/controller.go:206-230 | from a stored state with suitable cooldowns 13 is reached: a list of fourteen nodes with unique names and a run over it |
| ControllerLadders.SwitchesNeverReturn | internal/controller/controller.go:206-230 | and none goes back to a node already left |
| ControllerReturns.ReturnsIffRivals | internal/controller/controller.go:388-395 | some run with fixed measurements goes back to a node it had left if and only if two names each have a node 75 points above the first node of the other; then runs switch any number of times |
| ControllerReturns.FreshSwitchesIffSwap | internal/controller/controller.go:206-230 | from the initial state a run switches at most twice unless the best name and the best one besides it outdo each other, and then any number of times |
| ControllerReturns.FreshReturnsIffSwap | internal/controller/controller.go:206-230 | and it returns to a node if and only if they do |
| ControllerReturns.UniqueNamesAreBest | internal/controller/controller.go:388-395 | with unique names the first node of a name is the best one |
| ControllerReturns.SwitchHappens | internal/controller/controller.go:216-225 | a run from the initial state, with unique names, that does switch |
| ControllerProgress.SwitchesExactly | internal/controller/controller.go:211-230 | with fixed measurements a run from the initial state switches to a node in exactly the cycles that check ranks, find it best and 75 points better, and follow a check that found the same, with nothing cleared in between |
| ControllerProgress.DueAgain | internal/controller/controller.go:212-215 | after a check without a switch the next one is in the first cycle an interval later, and not before |
| ControllerProgress.SwitchIsMade | internal/controller/controller.go:211-230 | a node that stays the best and 75 points better from one check on is switched to by the next one |
| ControllerProgress.RestsIffNoneAbove | internal/controller/controller.go:211-230 | without cooldowns a run rests from a check until an interval later if and only if no other node is 75 points above the active one: runs end within 75 points of the best |
| ControllerReturns.SharedNameAlternates | internal/controller/controller.go:388-395 | a run from the initial state, with bounded scores and a shared name, that goes back and forth as often as one likes |
| Whitelist.Pool.constructor | internal/core/whitelist/pool.go:166-187 | loading any stored state gives its normal form |
| Whitelist.Pool.ReindexNodes | internal/core/whitelist/pool.go:247-271 | scores, sorts and renumbers the nodes in place |
| Whitelist.Pool.ValidateSelection | internal/core/whitelist/pool.go:217-224 | drops a selection outside the pool and a pending node that is not selected |
| Whitelist.Pool.DropSource | internal/core/whitelist/pool.go:225-235 | removes one source's nodes and revalidates |
| Whitelist.Pool.DropNode | internal/core/whitelist/pool.go:236-246 | removes one node and revalidates |
| Whitelist.Pool.InsertNodes | internal/core/whitelist/pool.go:78-91 | adds the available nodes whose ID is new |
| Whitelist.Pool.PickCandidate | internal/core/whitelist/pool.go:189-213 | the pending node, else the selected one, else the first available one |
| Whitelist.Pool.FailNode | internal/core/whitelist/pool.go:125-144 | gives up a node and picks the next |
| Whitelist.Pool.Run | internal/core/whitelist/pool.go:63-155 | every command changes the pool as the command function says, or is refused |
| Whitelist.RunTransition | internal/core/whitelist/pool.go:58-158 | normalize, run, compare: the whole transition |
| WhitelistForm.TransitionIsCanonical | internal/core/whitelist/pool.go:58-187 | from any input every command ends with unique named IDs, canonical order, priority = index+1, selection inside the pool, pending empty or selected |
| WhitelistForm.CanonicalIffFixed | internal/core/whitelist/pool.go:166-187 | exactly these states are fixed points of normalizing |
| WhitelistForm.CanonicalUnique | internal/core/whitelist/pool.go:247-271 | canonical lists with the same nodes are equal, element by element |
| WhitelistForm.TransitionSeesNormalForm | internal/core/whitelist/pool.go:58-60 | normalizing first changes no answer |
| WhitelistAnswers.CanonicalOrder | internal/core/whitelist/pool.go:247-271 | verified nodes first, then higher scores, then smaller IDs |
| WhitelistAnswers.RequestAnswers | internal/core/whitelist/pool.go:189-213 | asking answers the pending node, else the selected one if usable, else the first usable one, and selects it; none exactly if none is usable |
| WhitelistAnswers.ChooseAnswers | internal/core/whitelist/pool.go:106-115 | choosing selects a usable node and is refused for any other |
| WhitelistAnswers.ChosenIsAsked | internal/core/whitelist/pool.go:102-115 | what was chosen is what is asked for next, and stays selected |
| WhitelistAnswers.ConfirmAnswers | internal/core/whitelist/pool.go:116-124 | confirming the selected node ends its being pending; any other confirmation changes nothing |
| WhitelistAnswers.ScanAnswers | internal/core/whitelist/pool.go:64-152 | what begin, complete, deactivate and clear leave |
| WhitelistAnswers.RefusedIff | internal/core/whitelist/pool.go:63-155 | exactly which commands are refused, and why |
| WhitelistAnswers.RemovalAnswers | internal/core/whitelist/pool.go:92-101 | removing a source or a node leaves exactly the others and a selection that is still there |
| WhitelistAnswers.SourceAnswers | internal/core/whitelist/pool.go:71-91 | adding a source adds exactly its usable nodes with IDs new to the pool and to the list; replacing is removing and adding |
| WhitelistAnswers.FailAnswers | internal/core/whitelist/pool.go:125-144 | giving a node up leaves exactly the others and offers the first usable one |
| WhitelistStore.Store.WriteProvider | internal/serverruntime/whitelist.go:33-53 | writes the alive proxies and then their metadata; the first failed write ends it and leaves the later file |
| WhitelistStore.ProxiesOfParts | internal/serverruntime/whitelist.go:33-45 | the proxy list of the pool is that of its parts, in order |
| WhitelistStore.ProxiesOfOne | internal/serverruntime/whitelist.go:33-45 | a node is on it exactly if it was verified and has a proxy |
| WhitelistStore.SourcesAre | internal/serverruntime/whitelist.go:36-49 | the metadata describe exactly the named proxies of the list, each by the last node that has it |
| WhitelistStore.Store.Apply | internal/serverruntime/whitelist.go:15-31 | saves state and provider files only when something changed, with each of the three writes allowed to fail |
| WhitelistStore.FilesAreOfLastWrite | internal/serverruntime/whitelist.go:15-53 | over every run with failing writes, each provider file is that of the pool as it was when the file was last written |
| WhitelistStore.SyncIff | internal/serverruntime/whitelist.go:15-53 | after every such run the provider files are in step with the stored pool if and only if what they are derived from did not change since |
| WhitelistStore.LagHappens | internal/serverruntime/whitelist.go:22-29 | the first node of any pool, stored while the proxy list is not, leaves that list behind |
| WhitelistStore.LagIsReportedAndEnds | internal/serverruntime/whitelist.go:22-29 | a lag is reported by the step that causes it, and the next change written completely ends it |
| WhitelistStore.StoredIsCanonical | internal/serverruntime/whitelist.go:15-31 | the stored pool is canonical after every such run |
| WhitelistStore.SavingOnChangeSuffices | internal/serverruntime/whitelist.go:15-53 | over every run, saving on change gives the files and answers of saving always, and stays in step |
| WhitelistScan.OpOutcome | internal/core/whitelist/pool.go:71-96 | one replace or remove touches exactly its source's nodes and its source's selection |
| WhitelistScan.OpsOutcome | internal/serverruntime/whitelist_scan.go:183-195 | closed form of any number of them for distinct sources, without reference to order |
| WhitelistScan.ScanOrderIsIrrelevant | internal/serverruntime/whitelist_scan.go:183-195 | applying them in any order ends in the identical state: list order, priorities and selection |
| WhitelistScan.UntouchedSourcesKeepNodes | internal/serverruntime/whitelist_scan.go:183-195 | every source not named keeps exactly its nodes |
| WhitelistScan.StableIdTellsSource | internal/core/whitelist/pool.go:160-164 | the source can be read off a generated node ID |
| WhitelistUpdate.Select | internal/updater/whitelist.go:40-53 | which subscriptions are tested and which are reported excluded |
| WhitelistUpdate.RunWhitelist | internal/updater/whitelist.go:31-111 | a source is complete only with all nodes of a finished test, excluded only as a left-out emergency source, failed only for its test's reason; uncancelled, every eligible source is one or the other |
| WhitelistUpdate.ApplyResult | internal/serverruntime/whitelist_scan.go:183-195 | the loops of transitions apply exactly the result's removals and replacements |
| WhitelistUpdate.ScanIsSourceAtomic | internal/serverruntime/whitelist_scan.go:183-195 | for a finished or cancelled scan, sources neither complete nor excluded keep their nodes, the order of storing does not matter and IDs stay per source |
| Orchestrator.Handle | internal/core/orchestrator/state.go:97-179 | every event changes the session and chooses the action as the event function says |
| Orchestrator.Accepted | internal/core/orchestrator/state.go:108-173 | the pool commands whose error the source ignores cannot fail |
| OrchestratorRuns.NextOffers | internal/core/orchestrator/state.go:97-179 | one event keeps the pool ready, and a connect action carries an offered node |
| OrchestratorRuns.ConnectsAreOffers | internal/core/orchestrator/state.go:134-173 | in every run from the empty state a connect action carries an available pool node that is both selected and pending |
| OrchestratorRuns.FailuresOfferEachOnce | internal/core/orchestrator/state.go:152-160 | failing the offered node again and again offers every other node once, in canonical order |
| OrchestratorRuns.FailuresEndInScan | internal/core/orchestrator/state.go:158-160 | then the pool is empty and a full scan is asked for |
| OrchestratorRuns.FailureShrinksPool | internal/core/whitelist/pool.go:125-144 | each failure removes exactly one node, so this ends |
| OrchestratorHistory.SessionFollowsEvents | internal/core/orchestrator/state.go:97-179 | after every run the session is enabled, connected or exhausted exactly if an event made it so and none undid it since, and its modes are those probed last |
| OrchestratorHistory.PoolFollowsCommands | internal/core/orchestrator/state.go:97-179 | every accepted event sends the pool its commands and nothing else |
| OrchestratorHistory.RefusedIff | internal/core/orchestrator/state.go:113-179 | exactly which events are refused, and why |
| OrchestratorHistory.ActionsFollowEvents | internal/core/orchestrator/state.go:97-179 | every action is told from the event, the mode probed last, the connection and the pool's answer: ordinary operation is restored exactly when the restricted network is left, and so on |
| AuthLimiter.Limiter.EvictIdle | internal/serverruntime/web_auth_limit.go:52-56 | forgets exactly the peers idle for five minutes with nothing in flight |
| AuthLimiter.Limiter.Lookup | internal/serverruntime/web_auth_limit.go:49-63 | the peer's bucket, a new full one, or none when the table is full |
| AuthLimiter.Limiter.Take | internal/serverruntime/web_auth_limit.go:64-73 | refills and takes one attempt if there is one |
| AuthLimiter.Limiter.Start | internal/serverruntime/web_auth_limit.go:41-83 | the whole `begin`: new table, admission and retry delay |
| AuthLimiter.Limiter.Settle | internal/serverruntime/web_auth_limit.go:74-82 | the returned closure: a success refunds its attempt up to a full bucket |
| AuthRuns.SpendingIsBounded | internal/serverruntime/web_auth_limit.go:33-83 | over every run a peer's failed and in-flight attempts are at most 32 + (time since first contact) / 3 s, across evictions |
| AuthRuns.IdleIsForgotten | internal/serverruntime/web_auth_limit.go:52-56 | an evicted peer would have had a full bucket |
| AuthAnswers.ExhaustedIff | internal/serverruntime/web_auth_limit.go:64-82 | over every run, an attempt that finds the limiter neither busy nor full is refused exactly if, since some event, the peer's attempts that did not succeed, this one included, exceed 32 and one for every three seconds |
| AuthAnswers.RefusedHaveSpent | internal/serverruntime/web_auth_limit.go:23-26 | only a peer with 32 attempts that did not succeed is refused: signing in successfully spends nothing |
| AuthAnswers.RetryAfterSuffices | internal/serverruntime/web_auth_limit.go:64-70 | three seconds after such a refusal the next attempt is admitted |
| AuthAnswers.BusyOrFullIff | internal/serverruntime/web_auth_limit.go:43-60 | busy exactly with 32 attempts in flight; full exactly for an unknown peer while 4096 known ones are in flight or not idle for five minutes |
| AuthCache.EvictionIsUnobservable | internal/serverruntime/web_auth_limit.go:33-83 | except for the table-full refusal, every answer of every run is that of a limiter that never forgets |
| AuthCache.InflightIsExact | internal/serverruntime/web_auth_limit.go:33-83 | the global count is the sum over mapped buckets and at most 32 |
| Connectivity.Confirm | internal/core/connectivity/connectivity.go:172-215 | the reassigned locals compute the confirmation function |
| Connectivity.ClassifiedByProbes | internal/core/connectivity/connectivity.go:137-152 | open on the configured target or both anchors, cut off if nothing answers, else restricted: one anchor alone never counts as open |
| Connectivity.RefusedIff | internal/core/connectivity/connectivity.go:172-178 | exactly which observations and stored states are refused, and why |
| Connectivity.MissingIsUnknown | internal/core/connectivity/connectivity.go:179-182 | over every history, monitoring that starts without a stored state carries the fields of one that starts from an unknown state |
| Connectivity.MonitorRefinesHistory | internal/core/connectivity/connectivity.go:172-215 | the carried fields always agree with a definition over the whole observation history |
| Connectivity.ChangesExactlyWhenConvincing | internal/core/connectivity/connectivity.go:172-215 | a state is confirmed exactly when the unbroken trailing run is long enough: allowlist 3 and 20 000 ms, offline 3 from a known state, normal at once |
| Connectivity.TrailingIsLongestRun | internal/core/connectivity/connectivity.go:184-198 | the trailing run of the definition, equal observations on one network, is the maximal one |
| ConnectivityMonitor.DirectNetworkFingerprint | internal/serverruntime/connectivity.go:144-166 | the search loop finds the first interface of the name, its first inet address and first gateway |
| ConnectivityMonitor.FingerprintTells | internal/serverruntime/connectivity.go:139-166 | on one interface two fingerprints are equal if and only if the first address and the first gateway are |
| ConnectivityMonitor.CycleRecords | internal/serverruntime/connectivity.go:106-137 | what a cycle records of its observation or of its error |
| ConnectivityMonitor.ConfirmedAtIs | internal/serverruntime/connectivity.go:125-128 | the recorded time is that of the last confirmed change, or of the first observation |
| ConnectivityMonitor.RunCycle | internal/serverruntime/connectivity.go:90-137 | one cycle: classification, candidate reset on a network change, confirmation, stored snapshot with its times; an error keeps the state and is recorded |
| ConnectivityMonitor.MonitorFollowsSamples | internal/serverruntime/connectivity.go:106-135 | the stored fields are those the history of observations, each with its network, defines |
| ConnectivityMonitor.MonitorConfirmsExactly | internal/serverruntime/connectivity.go:106-135 | a cycle confirms a change exactly when the trailing run of its observation on this very network is convincing, the 20 s of an allowlist included |
| ConnectivityMonitor.ConfirmingRunSharesNetwork | internal/serverruntime/connectivity.go:106-135 | even with a clock that runs back, all observations of a run that confirms a change share interface, network and observed state |
| Stability.StabilityWindow.Observe | internal/core/connectivity/stability.go:13-27 | true exactly when the trailing run of successes under one key, without a backward clock step, has enough distinct times and spans the minimum |
| Stability.SamplesGrow | internal/core/connectivity/stability.go:21-26 | the counter counts distinct times of the run |
| RuleChain.Backend.Configure | internal/callserver/backend_packet_linux.go:132-151 | the insert loop: skip what is there, insert at the index, stop at a refused position |
| RuleChain.Backend.Close | internal/callserver/backend_packet_linux.go:349-363 | removes the recorded rules from both chains |
| RuleChain.CloseRestoresChain | internal/callserver/backend_packet_linux.go:349-363 | closing after any start, complete or failed half way, restores any chain exactly |
| RuleChain.OwnedAreNew | internal/callserver/backend_packet_linux.go:132-151 | rules already present are not claimed and survive; each inserted rule is claimed once |
| RuleChain.DistinctRulesNeverFail | internal/callserver/backend_packet_linux.go:132-151 | for distinct rules every insert position is valid and all rules end up in the chain |
| RuleChain.RulesComeFirstIff | internal/callserver/backend_packet_linux.go:126-142 | distinct rules end up first and in their order if and only if those found in the chain were its head, in list order; then the missing ones are put between them |
| RuleChain.FreshRulesComeFirst | internal/callserver/backend_packet_linux.go:132-151 | from a chain holding none of them the result is rules ++ chain |
| RuleChain.RestartChangesNothing | internal/callserver/backend_packet_linux.go:132-151 | a start that finds its own rules in place changes nothing |
| RuleChain.FailsIff | internal/callserver/backend_packet_linux.go:132-151 | a start fails if and only if some new rule's position lies behind the chain together with the distinct new rules before it |
| RuleChain.PresentRulesKeepTheirOrder | internal/callserver/backend_packet_linux.go:132-151 | for every chain and list, leaving out what was inserted gives the chain back: rules found in it keep their order |
| RuleOrder.OrderIff | internal/callserver/backend_packet_linux.go:132-142 | two of the distinct rules stand in list order after a start if and only if their places before it were, a missing rule's place being behind as many rules as the chain has of those before it |
| RuleOrder.AheadIff | internal/callserver/backend_packet_linux.go:126-142 | all rules before the k-th one stand before it if and only if those found in the chain stood before its place |
| RuleOrder.FirstPlacesIff | internal/callserver/backend_packet_linux.go:132-142 | the first k rules fill the first k places, in any order, if and only if those found in the chain were at its head |
| RuleOrder.InsertedAtIndex | internal/callserver/backend_packet_linux.go:132-142 | a rule that is inserted ends up at its own index, whatever is inserted later |
| LanPolicy.PrivateV4Is | internal/callserver/lan_isolation.go:9-17 | the private IPv4 ranges, by first and last address |
| LanPolicy.PrivateV6Is | internal/callserver/lan_isolation.go:21-26 | the private IPv6 ranges |
| LanPolicy.PacketForwardRules | internal/callserver/backend_packet_linux.go:215-228 | isolation first, then private destinations unless allowed, then the accepts |
| LanPolicy.PacketClientForwardRules | internal/callserver/backend_packet_linux.go:230-246 | the same with the clients' overrides behind the isolation rule |
| LanPolicy.PacketClientInputRules | internal/callserver/backend_packet_linux.go:248-268 | overrides, then private destinations unless allowed |
| LanPolicy.ForwardImplementsPolicy | internal/callserver/backend_packet_linux.go:215-246 | traffic from the tunnel never goes back into it and otherwise reaches a private destination exactly if the client's setting, or the global one when unset, allows it |
| LanPolicy.InputImplementsPolicy | internal/callserver/backend_packet_linux.go:248-268 | traffic to the server itself is dropped exactly when that policy forbids it |
| LanPolicy.SkippingChangesNothing | internal/callserver/backend_packet_linux.go:230-246 | leaving out overrides equal to the global setting changes no verdict |
| LanPolicy.OrdinaryEgressRules | internal/callserver/ordinary.go:85-97 | the global reject list |
| LanPolicy.OrdinaryClientEgressRules | internal/callserver/ordinary.go:99-114 | the clients' overrides before it |
| LanPolicy.OrdinaryImplementsPolicy | internal/callserver/ordinary.go:85-114 | the proxy core decides every request by the same policy |
| LanPolicy.BackendsAgree | internal/callserver/ordinary.go:85-114 | both backends give one answer for one setting and IPv4 destination |
| LanIsolation.ForwardRulesDistinct | internal/callserver/backend_packet_linux.go:230-246 | peers with different addresses give rules without repeats |
| LiveRules.LiveChainImplementsPolicy | internal/callserver/backend_packet_linux.go:126-142 | in a live FORWARD chain, whatever else it holds, as long as rules found in it were at its head and those that disagree in list order, tunnel traffic is decided by the policy, a restart changes nothing and closing restores the chain |
| LiveRules.AcceptComesLastIff | internal/callserver/backend_packet_linux.go:126-142 | isolation, overrides and LAN block all end up before the tunnel's accept if and only if those found in the chain stood before the place of the accept |
| LiveRules.NewTrafficDecidedIff | internal/callserver/backend_packet_linux.go:126-142 | if no other rule touches new traffic from the tunnel, all of it is decided by the policy if and only if every two rules that disagree about some of it had their places in list order |
| LiveRules.MisplacedDropLeaks | internal/callserver/backend_packet_linux.go:126-142 | any drop whose place is not before that of the accept lets a forbidden packet through |
| LiveRules.LanBlockIsOvertaken | internal/callserver/backend_packet_linux.go:126-142 | with one LAN drop found behind an unrelated rule the network it is about can be reached from the tunnel |
| LanIsolation.HeadOfChainDecides | internal/callserver/backend_packet_linux.go:126-142 | a chain that holds the isolation rule keeps its head, so the tunnel's accept found there lets traffic back into the tunnel |
| LanIsolation.AcceptOvertakesIsolation | internal/callserver/backend_packet_linux.go:126-142 | with only the isolation rule present, behind another rule, the others are put before it and traffic back into the tunnel passes whenever it may reach its destination |
| LanIsolation.SharedAddressFails | internal/callserver/backend_packet_linux.go:132-142 | two peers with one address and the same override make a start on a short chain fail |
| LiveRules.LiveInputImplementsPolicy | internal/callserver/backend_packet_linux.go:143-151 | in a live INPUT chain, under the same condition, the policy's drops and permissions come first, the rest is left to the rules that were there, and closing restores the chain |
| LiveRules.InputDecidedIff | internal/callserver/backend_packet_linux.go:143-151 | if no other rule touches new traffic to the server, it is dropped just where the policy forbids it if and only if every permission and the drop of its network had their places in list order |
| PeerAddresses.NextPacketClientAddress | internal/callserver/identity.go:107-135 | the first unused address of the pool; none exactly if all are used |
| PeerAddresses.PoolIs | internal/callserver/identity.go:107-135 | the pool is 10.77.0.0/16 without the addresses that end in 0, 1 or 255 |
| PeerAddresses.ExhaustedMeansAllTaken | internal/callserver/identity.go:107-135 | running out means at least 64 768 addresses are in use |
| PeerAddresses.Config.EnsureIdentity | internal/callserver/identity.go:65-105 | attaching keeps existing addresses and keeps addresses distinct, and serves every client or stops at the first key fault, rejected profile or exhausted pool |
| Traffic.CreditIsPeakSum | internal/callserver/backend_packet_linux.go:342-347 | differenced readings add up, per direction, to the value before each drop plus the last value |
| Traffic.SteadyCreditIsLast | internal/callserver/backend_packet_linux.go:342-347 | for a counter that only grows and then disappears they add up to its last value |
| Traffic.OrdinaryRuntime.PollTrafficOnce | internal/callserver/ordinary_linux.go:201-234 | the accounting loop and the removal of vanished connections |
| Traffic.OrdinaryRuntime.DrainTraffic | internal/callserver/ordinary_linux.go:236-245 | hands out the pending bytes and starts from nothing |
| Traffic.LedgerFollowsRuntime | internal/callserver/ordinary_linux.go:201-245 | the ledger of the run lemmas keeps the runtime's books |
| Traffic.BooksBalance | internal/callserver/ordinary_linux.go:201-245 | over every interleaving of polls and drains, pending plus drained bytes of a user are the credits of the user's connections |
| Traffic.BytesAreCountedOnce | internal/callserver/ordinary_linux.go:201-245 | with growing counters and IDs never reused that is the sum of the last observed counters |
| PacketTraffic.PacketRuntime.ReadDump | internal/callserver/backend_packet_linux.go:301-330 | the line loop flushes each peer's block once, the last one at the end |
| PacketTraffic.BlockTells | internal/callserver/backend_packet_linux.go:314-330 | a dump has a block for every key, which tells the last received and sent counts between it and the next key |
| PacketTraffic.PacketRuntime.DrainTraffic | internal/callserver/backend_packet_linux.go:293-340 | the whole drain, with the proxy core's bytes added per client; nothing is touched when the dump fails |
| PacketTraffic.DrainingIsExact | internal/callserver/backend_packet_linux.go:293-347 | over every run of drains a client's deltas sum to its peer's counter before each restart plus the last value, plus what the proxy core drained |
| PacketTraffic.PacketRuntime.constructor | internal/callserver/backend_packet_linux.go:63-67 | builds the map from key to client, a later peer replacing an earlier one |
| PacketTraffic.PeersAreOnly | internal/callserver/manager.go:403-418 | with the client IDs of a validated configuration no client has two keys |
| PacketTraffic.ClientsAreGivenTheirBytes | internal/callserver/backend_packet_linux.go:293-347 | so every client is given exactly its peer's bytes plus what the proxy core drained, or only the latter if a later client has the same key |
| PacketTraffic.TwoPeersOfOneClientLoseBytes | internal/callserver/backend_packet_linux.go:304-313 | of any two peers of one client in one dump the later one would be given alone |
| SpeedTest.EvaluateSpeed | internal/core/qualification/qualify.go:420-473 | the verdict on all samples: first faulty one, rate so far, or the judged pair |
| SpeedTest.QualifiesIff | internal/core/qualification/qualify.go:420-473 | a node qualifies exactly with two complete finite samples, neither below the threshold, close enough to each other, at the lower rate |
| SpeedTest.RejectedUnseen | internal/core/qualification/qualify.go:420-435 | a failed core and excluded or unknown countries are rejected before any sample; otherwise countries make no difference |
| SpeedTest.UnfinishedVerdict | internal/core/qualification/qualify.go:436-443 | unfinished samples make a node slow exactly if one ran below the threshold, else its speed counts as unavailable |
| SpeedTest.FaultyVerdict | internal/core/qualification/qualify.go:444-462 | the first incomplete sample decides, with the highest rate before it |
| SpeedTest.PairVerdict | internal/core/qualification/qualify.go:463-473 | the verdict on two complete samples, with its rate |
| QualificationStages.AnsweringGoOn | internal/core/qualification/qualify.go:216-256 | exactly the proxies that answered by TCP, and of the first of these those that answered by URL, go on, with their latency and as often as they were given |
| QualificationStages.AdmissibleGoOn | internal/core/qualification/qualify.go:258-306 | exactly those go on whose country is known and not excluded, or whose evidence says so |
| QualificationStages.MeasuredQualify | internal/core/qualification/qualify.go:328-402 | exactly those qualify whose verdict is qualified or unavailable, with the measured rate |
| Qualification.StagesShrink | internal/core/qualification/qualify.go:206-402 | every stage is a sub-multiset of the stage before |
| Qualification.CountsNarrow | internal/core/qualification/qualify.go:206-417 | Retained ≤ Qualified ≤ passed ≤ URLAlive ≤ TCPAlive ≤ Input, and the returned proxies are a sub-multiset of the input |
| Qualification.FastestAreKept | internal/core/qualification/qualify.go:394-402 | with speed measured, no dropped qualified node is faster than a kept one |
| Qualification.QuickestGoOn | internal/core/qualification/qualify.go:231-328 | what a limit cuts off, before the URL test, before the speed test or from a result without one, is not quicker than what goes on |
| QualificationReport.CheckCountries | internal/core/qualification/qualify.go:280-306 | the country loop: statuses, who passed, and both sets of counts |
| QualificationReport.CheckSpeed | internal/core/qualification/qualify.go:360-393 | the measurement loop: verdicts, who is fast, and both sets of counts |
| Qualification.SpeedPlanHolds | internal/core/qualification/qualify.go:309-326 | speed is skipped exactly on request or when the link can be measured and turns out unusable; then nothing is tested; otherwise a node that qualifies reached the threshold, a tenth of a measured link |
| QualificationReport.Qualify | internal/core/qualification/qualify.go:206-417 | the whole pass for any backend answers: the error of the first failing stage, or the proxies and the report of the stages |
| QualificationCounts.SourcesAddUp | internal/core/qualification/qualify.go:206-417 | each report total and each outcome count is the sum over its source reports |
| QualificationCounts.ReportTells | internal/core/qualification/qualify.go:403-417 | the report counts every stage and every verdict, two speed runs or none, and names the source of the threshold |
| QualificationCounts.SourceReportsNarrow | internal/core/qualification/qualify.go:206-417 | a source report counts exactly the source's proxies at every stage, and they narrow like the totals |

## Left out

- Text lexing of route entries (regular expressions, IP and prefix syntax, IPv6 zones, IDNA, presets, geo and domain names): entries arrive in one of their forms, and preset, geo and domain entries are a function from kind and canonical text to rules.
- Integer widths: Go's int, int64 and uint64 are unbounded here, so counter wrap-around at 2^64 and clock overflow are not modelled. Addresses do have a width.
- Floating point: scores, rates and thresholds are reals without rounding, except where the code rounds; the limiter's tokens are integers in nanoseconds, one attempt being 3·10^9. Latencies and the link baseline are finite; a speed sample may be NaN or infinite.
- Rank.ScoreIsBounded: the logarithm is an arbitrary function that is not negative for a positive speed.
- SHA-256 and JSON: the digest is a function with 16-character results, and `Changed` is structural inequality.
- WhitelistAnswers.RequestAnswers: like the other laws on commands, stated for canonical states; every command leaves one, and the answer to any other state is that to its normal form (`TransitionSeesNormalForm`).
- WhitelistScan.ScanOrderIsIrrelevant: needs node IDs that tell their source; generated IDs do (`StableIdTellsSource`), IDs supplied by a caller need not.
- The controller's `Cooldowns` map is a value: in the source the returned state shares it with the input state, and slices are filtered in place over their old storage.
- ControllerRuns.CooldownSafety: runs are sequences of stored cycles; a decision whose execution failed, or a cycle that could not be stored, is not part of a run, apart from the runtime's reset of the failure and rank counters.
- ControllerLadders.SwitchesIffLadder: "fixed measurements" is one node list in every cycle, an enabled service in automatic mode, WAN, a working primary node in use and a transport that follows every selection; cooldowns left from before only expire.
- ControllerReturns.ThirteenIsReached: like `LadderRuns` and `SwitchesIffLadder`, it starts from a stored state with any cooldowns, whatever the policy's cooldown is. A run of the managed policy from the initial state does not leave these under a clock that does not run back: the last one needed ends 960 s after the start, a cooldown after 900 s. What runs with fixed measurements do from the initial state is `FreshSwitchesIffSwap`.
- ControllerProgress.SwitchesExactly: about runs with fixed measurements from the initial state; the runtime's reset of the rank counters is the `Kept` of its condition.
- LiveRules.NewTrafficDecidedIff: established traffic is in `LiveChainImplementsPolicy` only, and so are chains whose other rules touch new traffic from the tunnel; there the condition is sufficient, as what such rules say is not part of the list.
- A failback check without a fresh primary does not reset the recovery streak; the model does the same and no claim is made about consecutive checks.
- Connectivity.ChangesExactlyWhenConvincing: clocks are positive; a clock of zero, for which the code skips the hold time, is in `Confirm` but not in the history theorem.
- ConnectivityMonitor.MonitorConfirmsExactly: interfaces of the topology have names, and the clock of the confirmation is positive and does not run back; the probes are five answers, and errors of profile, policy and probe come as a code.
- Stability.StabilityWindow.Observe: times are integers other than zero, which stands for the zero time.
- The limiter's `begin` takes a host; splitting the remote address is not modelled, nor are mutexes: every call is one step. The closure is used once per admitted attempt, as its callers do.
- The orchestrator's event names are one of the known events or unknown; trimming, lower-casing and the message texts are not modelled. `DecideNetwork` is a table without state and is left out.
- The scan's cancellation files and the settings store are not modelled; a test of one subscription is a function of its ID, and cancellation an arbitrary answer per step.
- iptables, ip and Mihomo processes: a chain is a sequence of rules, an insert fails exactly when its position is behind the end, and deleting removes the first equal rule. Nothing else changes a chain between start and close.
- LanPolicy.SkippingChangesNothing: about forwarding; for traffic to the server `InputImplementsPolicy` gives the same drops with and without the left-out rules.
- Peers in the packet backend are IPv4 addresses, and its rules are IPv4 rules, as in the source.
- Traffic.BytesAreCountedOnce: a connection belongs to one user in the whole run.
- The packet device's dump is a sequence of lines with numbers already parsed; a line the code ignores is `Other`.
- Qualification: node metrics, counts per excluded country, rounded Mbps figures, timestamps, the adaptive sample size and settings parsing are left out; country codes arrive trimmed and in upper case.
- Share links, certificates, WireGuard keys, HTTP, SQLite, systemd, the web UI, Android, packaging and self-update.
