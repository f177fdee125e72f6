# singlink, modelled and proved

singlink is a proxy runtime. This project models the parts of it that are state machines or
algorithms, and proves what they promise for every input, every run or every reachable state.

* **DNS rules** (`DnsRules`, `DnsRuleMode`, `DnsRuleEngine`, `DnsLegacyEngine`, `DnsRouter`,
  `RuleSetReloads`).
  A static analysis over rule trees picks one of two interpreters, each of which ignores some
  options. The analysis is proved to mean what it says at every depth, both interpreters are
  loops proved against recursive specifications, and both are proved equal to an interpreter that
  ignores nothing. That survives every schedule of rule-set reloads, and it is stated exactly when
  the mode still fits the metadata after them.
* **DNS servers** (`TransportManager`). The list, the table and the default server; the
  dependency-ordered start, which succeeds exactly when it can; and a diagnosis that is true.
* **DNS cache** (`DnsTtl`, `DnsClient`, `SingleFlight`). What is stored, how it ages, when an
  expired answer may be served, and the per-key lock with its background refreshes.
* **Daemon** (`ServiceLifecycle`, `InstanceClose`, `ConnectionEvents`). Start, reload and close
  with a lock that is dropped in the middle; closing an instance once; and the stream of
  connection events, judged by a client that replays it.
* **Relays, USB, records** (`Relay`, `UsbRequests`, `UsbSnapshots`, `ByteStream`, `RecordCodecs`).

Protocols of several threads are state machines: each stretch of code between two lock, channel or
atomic operations is one step, any number of threads take steps in any order, and a theorem is
about `Execute(INITIAL, run)` for every executable `run`. Objects changed by one caller at a time
are classes whose methods are proved against functions of their old state. What the code asks of
the outside (does a rule match, what does a server answer, does a Start fail, what time is it) is a
parameter or an arbitrary function.

Some results are about properties that do not hold without a condition. Each has an input at which
the property fails and the exact condition under which it holds:

* Calling SetError while a close is under way can lose an instance; in a state reached without such
  a call it can if and only if the status is STOPPING (`SetErrorSafeUnlessStopping`, reached in
  `StoppingIsReachable`).
* A rule set's metadata is checked first and installed later. Without legacy mode, two updates that
  were each accepted can together turn the rules into rules that want legacy mode
  (`UnserialisedUpdatesCanFlipTheMode`). In every schedule of checks and installations the mode is
  right exactly if the analysis would still pick it (`NonLegacyRunsAreSoundIff`); in legacy mode it
  is always right (`LegacyRunsStaySound`).
* A starting router builds its rules first and publishes them later. A reload in between can leave it
  running in a mode that does not fit (`ReloadDuringTheStart`); `Router.PublishStart` and
  `EveryRunIgnoresNothing` state exactly when the mode fits.
* The comment at `dns/router.go:1076` says that a rule is refused only when every set it names
  holds nothing but addresses. The code refuses it when one of them does (`OnePureSetIsEnough`), so
  it keeps to the comment if and only if all of the sets are of that kind or none is
  (`RefusesOnlyPureRulesIff`).
* The default DNS server is the table's server of its tag until it is recreated without becoming the
  default again (`StrandedDefault`); `Manager.Create` states exactly when.
* A start with the fallback server succeeds unless its tag is taken, which a refused server can
  bring about (`ClashingFallback`); `Manager.Start` states exactly when it panics.
* A SavedBinary survives its encoding if and only if its time has whole seconds
  (`RoundTripIffWholeSeconds`). Decoding panics on lengths that no slice can have on the platform,
  and on nothing else: `PanicsIffHuge` says so for every such limit up to 2^63.
* The totals a client of the connection stream adds up stay right through a tick if and only if no
  counter went back (`TickExactIff`; `CounterGoesBack` is one that did).
* In a packet relay an end may be closed, and a copier be done, before the callback has run
  (`ClosedBeforeTheCallback`); what holds in every state is that it has run or that exactly one
  copier owes it, and that no end is closed before the flag is set (`EveryRelayClosesOnce`).

## Model

| member | source | states |
|---|---|---|
| `ServiceLifecycle.EveryRunIsSafe` | daemon/started_service.go:181-269 | in every interleaving of starts, reloads, closes and errors: STARTING or STARTED means there is an instance, the current instance was never handed to Close, STARTED is only published for the instance whose own Start succeeded, and no instance is handed to Close twice |
| `ServiceLifecycle.ConsiderateRunsLoseNothing` | daemon/started_service.go:189-263 | if no SetError falls into a close window, every instance ever made is current or was handed to Close, and STOPPING means exactly that one caller is closing |
| `ServiceLifecycle.RunsWithoutSetError` | daemon/started_service.go:189-263 | without SetError nothing is lost and there is an instance exactly while STARTING or STARTED |
| `ServiceLifecycle.SetErrorSafeUnlessStopping` | daemon/started_service.go:265-269 | SetError can cost an instance if and only if it comes while the status is STOPPING |
| `ServiceLifecycle.StoppingIsReachable` | daemon/started_service.go:189-194 | two starts in a row reach a state in which SetError can cost an instance |
| `ServiceLifecycle.ReloadWindowLeak` | daemon/started_service.go:189-207 | from any state inside a reload's close window, a schedule in which SetError loses the next instance |
| `ServiceLifecycle.CloseWindowLeak` | daemon/started_service.go:247-261 | the same for the close window of CloseService |
| `ServiceLifecycle.StepKeepsInv` | daemon/started_service.go:181-269 | every step keeps the safety invariant |
| `ServiceLifecycle.StepKeepsClean` | daemon/started_service.go:181-263 | every step but SetError in a close window keeps the invariant that nothing is lost |
| `InstanceClose.EveryRunClosesOnce` | daemon/instance.go:175-219 | in every interleaving the underlying close runs at most once, the done channel is closed at most once, all Close calls return the first closer's result, and once one has returned the underlying service has been closed |
| `InstanceClose.NoStartAfterClose` | daemon/instance.go:158-200 | once Close has begun, only Start calls that had read the service before still run it |
| `InstanceClose.WaitersAreServed` | daemon/instance.go:181-216 | a waiting Close can go on, or the first closer can |
| `InstanceClose.StepKeepsInv` | daemon/instance.go:158-219 | every step keeps the close-once invariant |
| `InstanceClose.StepKeepsAccount` | daemon/instance.go:189-213 | every step keeps track of the underlying service: with the instance, with the first closer, or closed |
| `ConnectionEvents.Stream.BuildInitial` | daemon/started_service.go:770-796 | the first batch announces the active connections and lists the closed ones; afterwards the client holds exactly the active ones open, with their totals |
| `ConnectionEvents.Stream.ApplyChange` | daemon/started_service.go:798-836 | snapshots and replaying client stay in agreement; which event is sent, with which closing time, in every case |
| `ConnectionEvents.Stream.BuildTrafficUpdates` | daemon/started_service.go:838-934 | after a tick snapshots and client hold exactly the active connections; every UPDATE is about an open connection and not negative; one CLOSED for each connection that is gone; totals that were right stay right if and only if no counter went back, and are then the counters |
| `ConnectionEvents.Stream.Tick` | daemon/started_service.go:843-902 | event and snapshot of one active connection |
| `ConnectionEvents.Stream.CloseGone` | daemon/started_service.go:904-931 | the loop over gone connections: one CLOSED each, with its closing time, in any order |
| `ConnectionEvents.TickMirrors` | daemon/started_service.go:838-902 | replaying the events of a tick keeps the client's open set and activity flags equal to the snapshots |
| `ConnectionEvents.TickExactIff` | daemon/started_service.go:860-875 | the client's totals stay right through a tick and its closings if and only if no counter went back |
| `ConnectionEvents.CounterGoesBack` | daemon/started_service.go:862-875 | a connection counted from zero again leaves the client with its old total |
| `ConnectionEvents.TickOneMore` | daemon/started_service.go:843-902 | event and snapshot of a connection depend only on what was sent for it before the tick |
| `ConnectionEvents.IdlingIsAnnouncedOnce` | daemon/started_service.go:860-901 | a connection that stops moving is sent one zero UPDATE if its last was not zero, then nothing |
| `ConnectionEvents.ClosingForgets` | daemon/started_service.go:904-931 | replaying the CLOSED events removes what they are about and nothing else |
| `ConnectionEvents.InitialMirrors` | daemon/started_service.go:770-796 | replaying the first batch gives the snapshots |
| `TransportManager.StartTransports` | dns/transport_manager.go:90-146 | starts each tag at most once and after its dependencies; succeeds if and only if tags are distinct, dependencies present and acyclic, and no server fails; panics if and only if only the distinct tags are missing; every other report is true |
| `TransportManager.StartPass` | dns/transport_manager.go:94-117 | one pass starts what has become startable; if it starts nothing, nothing can be started |
| `TransportManager.Lint` | dns/transport_manager.go:127-142 | terminates; a circular report ends in a real cycle, a not-found report names a missing dependency of the named server |
| `TransportManager.FirstUnstarted` | dns/transport_manager.go:129-131 | finds a dependency that has not started whenever there is one |
| `TransportManager.OrderedTableIsAcyclic` | dns/transport_manager.go:96-120 | servers that can all be listed in dependency order have complete and acyclic dependencies |
| `TransportManager.AllStarted` | dns/transport_manager.go:118-120 | counting the started tags tells whether all servers have started, if and only if tags are distinct |
| `TransportManager.NotBoth` | dns/transport_manager.go:132-140 | a true report excludes that the dependencies are complete and acyclic |
| `TransportManager.Manager.constructor` | dns/transport_manager.go:37-46 | an empty table without a default server |
| `TransportManager.Manager.Create` | dns/transport_manager.go:245-300 | list and table keep agreeing and the default server is never fakeip; exactly when a server is refused, and the whole new state in every case; the default stays the table's server of its tag if and only if the call does not replace it without making the new one the default |
| `TransportManager.StrandedDefault` | dns/transport_manager.go:263-288 | two servers created under one tag, after which the default is one the table does not know |
| `TransportManager.Manager.Install` | dns/transport_manager.go:263-279 | the new server goes to the end of the list and replaces the one with its tag |
| `TransportManager.Manager.RemoveFromList` | dns/transport_manager.go:270-276 | cuts the server with this tag out of the list and keeps the order of the others |
| `TransportManager.Manager.Start` | dns/transport_manager.go:52-88 | at the server stage succeeds if and only if there is a default server, the fallback's tag is not taken, and dependencies and servers allow it, with all calls in dependency order; exactly when it panics; at other stages calls in list order up to the first failure |
| `TransportManager.ClashingFallback` | dns/transport_manager.go:64-73 | a refused fakeip server named like the fallback makes the later start panic |
| `TransportManager.FallbackIsCovered` | dns/transport_manager.go:70-72 | adding the fallback keeps list and table in agreement if and only if its tag is free |
| `TransportManager.StartInOrder` | dns/transport_manager.go:80-85 | calls every server in list order up to the first failure |
| `DnsRuleMode.SetRequirementsMeaning` | dns/router.go:981-998 | what the loop over a rule's rule sets adds to the flags |
| `DnsRuleMode.RuleRequirementsMeaning` | dns/router.go:950-999 | the flags of a rule tree are those of all its rules at any depth |
| `DnsRuleMode.ForestRequirementsMeaning` | dns/router.go:938-948 | the flags of a rule list are those of all its rules at any depth; an error means exactly that a rule set is missing |
| `DnsRuleMode.LegacyModeMeaning` | dns/router.go:924-936 | legacy mode if and only if some rule needs it and none rules it out; refused if and only if a rule set is missing or a strategy meets a rule that rules legacy mode out |
| `DnsRuleMode.ValidateSetsMeaning` | dns/router.go:1079-1089 | accepted if and only if every named rule set exists and is not made of addresses only |
| `DnsRuleMode.RefusesOnlyPureRulesIff` | dns/router.go:1076-1088 | for sets that exist, refusing only rules all of whose sets are made of addresses holds if and only if all sets are or none is |
| `DnsRuleMode.OnePureSetIsEnough` | dns/router.go:1079-1088 | a rule over one set of addresses and one of domains is refused |
| `DnsRuleMode.ValidateTreeMeaning` | dns/router.go:1052-1094 | a tree is accepted if and only if all its rules are, and needs a response if and only if one of them does |
| `DnsRuleMode.ValidationMeaning` | dns/router.go:1014-1029 | a list is accepted if and only if every rule at any depth is acceptable and every rule that uses a response, at any depth, comes after a top-level evaluate rule |
| `DnsRuleMode.NonLegacyHasNoStrategy` | dns/router.go:352-355 | without legacy mode no rule at any depth has a strategy |
| `DnsRuleMode.LegacyHasNoEvaluate` | dns/router.go:903-910 | in legacy mode no rule at any depth evaluates, responds or disables the optimistic cache |
| `DnsRuleMode.OverridesActLikeTheTable` | dns/router.go:1001-1012 | analysing overrides over a table is analysing the table with the overrides installed |
| `DnsRuleMode.AcceptedIffSound` | dns/router.go:256-273 | an update is accepted if and only if the mode in force fits the metadata it would install |
| `DnsRuleMode.UpdatesKeepSound` | dns/router.go:227-274 | any sequence of updates, each installed if accepted, keeps the mode right |
| `DnsRuleMode.LegacyUpdatesCombine` | dns/router.go:260-269 | in legacy mode updates accepted independently can be installed together |
| `DnsRuleMode.NonLegacyUpdatesCombine` | dns/router.go:270-273 | otherwise they can if and only if some rule still rules legacy mode out or no rule needs it |
| `DnsRuleMode.UnserialisedUpdatesCanFlipTheMode` | route/rule/rule_set_local.go:143-156 | two updates, each accepted against the same metadata, after which the mode no longer fits |
| `DnsRuleMode.EarlierModeFitsIff` | dns/router.go:246-273 | for metadata under which the rules are sound in some mode: legacy mode fits if and only if no rule rules it out, the other if and only if the analysis picks it |
| `RuleSetReloads.EveryRunIgnoresNothing` | dns/router.go:138-152 | in every schedule of checks, installations, build and publication, a running router holds nothing its interpreter ignores, and its mode fits if and only if the analysis of the metadata says so |
| `RuleSetReloads.LegacyRunsStaySound` | route/rule/rule_set_local.go:143-156 | in legacy mode every schedule of checks and installations, by any number of rule sets, keeps the mode right |
| `RuleSetReloads.NonLegacyRunsAreSoundIff` | route/rule/rule_set_local.go:143-156 | otherwise, in every state of every schedule, the mode is right if and only if the analysis would still pick it |
| `RuleSetReloads.ReloadDuringTheStart` | dns/router.go:138-152 | a schedule in which a reload between build and publication leaves the router in a mode that does not fit |
| `RuleSetReloads.StepKeepsInv` | dns/router.go:138-152 | every step keeps that the mode fixed by a build ignores nothing and that rule sets stay present |
| `RuleSetReloads.StepKeepsRunning` | dns/router.go:256-273 | on a running router every step keeps what independent acceptances guarantee together |
| `DnsRuleEngine.ExchangeWithRules` | dns/router.go:414-523 | outcome and queries are those of the first deciding rule of the recursive specification, or of the default server |
| `DnsRuleEngine.OptionsMeaning` | dns/router.go:352-371 | the options at a rule are the caller's, overridden field by field by the matching route-options rules before it and by nothing else |
| `DnsRuleEngine.EvaluatedMeaning` | dns/router.go:433-455 | the response and server known at a rule are those of the last matching evaluate rule; a failed one erases both |
| `DnsRuleEngine.MissingResponseMeaning` | dns/router.go:456-465 | the missing-response error occurs exactly at a respond rule before which no evaluate matched or the last one that did failed |
| `DnsRuleEngine.SkippingStrategyIsComplete` | dns/router.go:352-371 | without strategies in the rules, skipping them gives the same decision and the same queries |
| `DnsRuleEngine.QueriesAvoidFakeIP` | dns/router.go:381-395 | with fakeip not allowed and no evaluate rule naming a fakeip server, no query goes to one |
| `DnsLegacyEngine.MatchDNS` | dns/router.go:276-350 | finds the next candidate rule, or none, with the server and options of the attempt made there |
| `DnsLegacyEngine.LegacyQuery` | dns/router.go:671-726 | the retry loop ends, and answers as the first rule that pre-matches, can be used and is not rejected, else as the default server |
| `DnsLegacyEngine.NoRuleAskedTwice` | dns/router.go:281-285 | the rules asked are strictly increasing, up to the deciding one |
| `DnsLegacyEngine.EarlierCandidatesWereRejected` | dns/router.go:721-724 | every earlier candidate was asked under its address limit and its answer made the search go on |
| `DnsLegacyEngine.LegacyQueriesAvoidFakeIP` | dns/router.go:305-308 | with fakeip not allowed only the default server could be one |
| `DnsLegacyEngine.LegacyIsComplete` | dns/router.go:298-345 | for rules legacy mode allows, ignoring evaluate, respond and the optimistic flag gives the same decision and the same queries |
| `DnsRouter.ValidateEvaluateFakeIP` | dns/router.go:1031-1050 | accepts if and only if no evaluate rule names a fakeip server of the table |
| `DnsRouter.BuildRules` | dns/router.go:177-219 | succeeds if and only if no nested rule has an action, the rules are sound in the mode picked for them, evaluate rules avoid fakeip, every rule can be made (conditions, action, server, type, logical mode) and every rule starts |
| `DnsRouter.StaysBuildable` | route/rule/rule_dns.go:18-66 | rules that could be built can be built under any metadata for which the analysis finds them sound |
| `DnsRouter.BuiltRulesFitTheirMode` | dns/router.go:177-219 | a build contains nothing its interpreter ignores |
| `DnsRouter.RespondFollowsEvaluate` | dns/router.go:1021-1026 | in an accepted list every respond rule comes after an evaluate rule |
| `DnsRouter.Router.Initialize` | dns/router.go:119-127 | takes the rules and reports exactly whether they can be built |
| `DnsRouter.Router.Start` | dns/router.go:129-161 | without a reload meanwhile: runs if and only if the build succeeded and the router is not closing; mode and rules are those of the build and the mode fits |
| `DnsRouter.Router.BuildForStart` | dns/router.go:137-142 | the build without the lock: succeeds exactly when the rules can be built and started, and fixes the mode |
| `DnsRouter.Router.PublishStart` | dns/router.go:143-152 | the publication: runs if and only if not closing; after reloads in between the mode fits if and only if no rule rules legacy mode out, or the analysis would not pick it |
| `DnsRouter.Router.Close` | dns/router.go:163-175 | closing drops the rules, once |
| `DnsRouter.Router.ValidateRuleSetMetadataUpdate` | dns/router.go:227-274 | accepts exactly the updates that fit the mode in force, or before the start the mode that would be picked |
| `DnsRouter.Router.ReloadRuleSet` | route/rule/rule_set_local.go:143-156 | a reload that is checked and installed in one go keeps the mode of a running router fitting, and a router that can be started startable, also between build and publication |
| `DnsRouter.Router.Exchange` | dns/router.go:621-744 | a preset server is asked directly; otherwise in both modes answer and queries are those of a complete interpreter; which errors come first; the reverse mapping learns the addresses of the answer, but none from a fakeip server |
| `DnsRouter.Router.Remember` | dns/router.go:731-742 | the loop that fills the reverse mapping |
| `DnsRouter.LearnMeaning` | dns/router.go:733-740 | exactly the addresses of the records lead to the domain, the others where they did before |
| `DnsRouter.Router.Lookup` | dns/router.go:746-842 | a preset server is asked directly; otherwise the lookups made by strategy and mode, each as by a complete interpreter, and no fakeip server is ever asked; the addresses returned, in order, none meaning an error |
| `DnsRouter.MergeMeaning` | dns/client.go:318-324 | merging keeps every address of both families, each in its order, the preferred family in front |
| `DnsRouter.OfFamilyMembers` | dns/router.go:548-561 | exactly the addresses of the family asked for are kept |
| `DnsRouter.Router.RunRules` | dns/router.go:597-619 | the interpreter without legacy mode is complete and avoids fakeip servers when told to |
| `DnsRouter.Router.RunLegacy` | dns/router.go:793-835 | the same for the legacy interpreter |
| `DnsTtl.ExtractNegativeTTL` | dns/client.go:110-122 | the smaller of TTL and MINIMUM of the first SOA record, if there is one |
| `DnsTtl.ComputeTimeToLive` | dns/client.go:124-142 | the SOA rule for an empty answer (section 5 of RFC 2308), else the least positive TTL of all records but OPT |
| `DnsTtl.LifetimeIsUnique` | dns/client.go:124-142 | that rule determines the lifetime |
| `DnsTtl.NormalizeTTL` | dns/client.go:144-153 | in place, every record gets the TTL, OPT records and all other data stay |
| `DnsClient.ApplyResponseOptions` | dns/client.go:458-481 | filtered hints, one TTL on all records but OPT, and that TTL is the rewritten one or the answer's own lifetime |
| `DnsClient.FilterHintsMembers` | dns/client.go:466-471 | exactly the hints of the excluded family are dropped |
| `DnsClient.FilterHintsOneMore` | dns/client.go:466-471 | filtering works hint by hint: order and number of occurrences are kept |
| `DnsClient.FilteringKeepsLifetime` | dns/client.go:459-475 | filtering does not change the lifetime |
| `DnsClient.ServeIsRight` | dns/client.go:416-429 | a fresh answer's age plus served TTL never exceeds the stored TTL and falls short of it by less than two seconds; a stale one is served strictly before expiry plus the optimistic timeout, with TTL 1 (section 4 of RFC 8767) |
| `DnsClient.ServedDataIsTheServers` | dns/client.go:432-456 | what is served is the answer of the exchange that stored it, with filtered hints and rewritten TTLs only |
| `DnsClient.Present` | dns/client.go:405-429 | a fresh copy with rewritten TTLs, or nothing once the entry is too old |
| `DnsClient.Client.StoreCache` | dns/client.go:326-347 | the new caches; every entry comes from a store of a successful or name-error answer that its checker accepted, with a positive lifetime that all records but OPT carry |
| `DnsClient.Client.LoadResponse` | dns/client.go:397-456 | what is served for a question was stored earlier for the same server, name and type and is served rightly; when nothing is served, and what is dropped then |
| `DnsClient.Client.LoadCached` | dns/client.go:195-207 | when Exchange answers from the cache, and that such an answer is genuine |
| `DnsClient.Client.Exchange` | dns/client.go:155-259 | which kind of result comes back in every case, whatever others do to the caches meanwhile; cached answers are genuine, other answers the server's, adjusted to the request's EDNS; accepted answers are stored, rejected ones never |
| `DnsClient.Client.Meanwhile` | dns/client.go:222-245 | any sequence of answers and refreshes of others, losses and writes to disk keeps every entry genuine |
| `DnsClient.Client.Receive` | dns/client.go:226-258 | the same behind the server's answer, with the memory of rejected answers; what is stored is not affected by the EDNS adjustment |
| `DnsClient.AdjustEDNSMeaning` | dns/client.go:247-256 | other records stay; a request without EDNS gets none back, any other gets it exactly if the server sent it, in a version it knows, with the server's size and DO bit |
| `DnsClient.Client.Accept` | dns/client.go:242-245 | rewriting and storing an accepted answer |
| `DnsClient.Client.Refresh` | dns/client.go:489-521 | a background refresh stores exactly the answers that are acceptable |
| `DnsClient.Client.Flush` | experimental/cachefile/dns_cache.go:56-60 | writing to disk drops the fraction of a second and keeps the entry genuine |
| `DnsClient.Client.Evict` | experimental/cachefile/dns_cache.go:176-207 | entries and rejections may go at any time; what stays is genuine |
| `SingleFlight.EveryRunIsSafe` | dns/client.go:180-194 | in every interleaving the lock map holds for each key the channel of exactly one unfinished thread, each channel is closed once, no wake-up is lost, and at most one refresh per key is under way |
| `SingleFlight.WaitersCanProceed` | dns/client.go:182-193 | from any reachable state a waiter gets going after at most two steps of its channel's owner |
| `SingleFlight.StepKeepsLocks` | dns/client.go:181-193 | every step keeps the lock map and the holders in agreement |
| `SingleFlight.StepKeepsChannels` | dns/client.go:190-193 | every step keeps each channel closed once or owned by one thread |
| `SingleFlight.StepKeepsWaiters` | dns/client.go:183-188 | no step loses a wake-up |
| `SingleFlight.StepKeepsRefreshes` | dns/client.go:483-490 | every step keeps one refresh per key |
| `Relay.EveryRelayClosesOnce` | route/conn.go:273-290 | with swap, callback and each close as separate actions: the callback never runs twice; when a relay is over it ran exactly once and both ends are closed; a packet relay whose flag is set has called back or exactly one copier owes it, and no end is closed before; a TCP relay calls back, or owes it, exactly when both copiers have swapped; a failed handshake starts no copier |
| `Relay.EveryRelayEnds` | route/conn.go:144-153 | every schedule takes at most 22 steps, and a relay that can take no further step is over, and only then |
| `Relay.ClosedBeforeTheCallback` | route/conn.go:387-392 | a schedule in which a packet copier is done and both ends are closed before the callback has run |
| `Relay.StepKeepsInv` | route/conn.go:348-393 | every single action of TCP relays, packet relays and handshakes keeps the close-once invariant |
| `UsbRequests.EveryResponseReachesItsRequest` | daemon/started_service_usbip.go:339-423 | in every interleaving a Submit only gets the response bearing its own number and leaves nothing pending; everything pending belongs to one running Submit |
| `UsbRequests.StepKeepsPending` | daemon/started_service_usbip.go:342-353 | every step keeps the pending map equal to the registered submits |
| `UsbRequests.StepKeepsResults` | daemon/started_service_usbip.go:376-389 | every step keeps returned submits matched and unregistered |
| `UsbSnapshots.SnapshotsArriveInOrder` | daemon/started_service_usbip.go:213-227 | snapshots arrive in order and none twice, the newest always arrives, and the second attempt to send never fails |
| `ByteStream.Uvarint64Parses` | adapter/experimental.go:69-99 | reading a variable-length integer gives back what was written, with anything behind it |
| `ByteStream.NumeralParses` | adapter/experimental.go:99-99 | at most ten bytes, only the last below 128, parse to their seven-bit digits, lowest first |
| `ByteStream.ParsedNumeral` | adapter/experimental.go:99-99 | whatever parses is such a numeral of that value |
| `ByteStream.Buffer.WriteUvarint` | adapter/experimental.go:69-69 | appends the encoding of the integer |
| `ByteStream.Reader.ReadUvarint` | adapter/experimental.go:99-99 | reads the integer or fails, as the recursive parser does |
| `ByteStream.Int64RoundTrip` | adapter/experimental.go:77-113 | the eight bytes of a signed integer give it back |
| `RecordCodecs.MarshalBinary` | adapter/experimental.go:63-90 | writes the encoding step by step |
| `RecordCodecs.UnmarshalBinary` | adapter/experimental.go:92-125 | reads the value, fails or panics, for any bytes and any limit on slice lengths, as the recursive parser does |
| `RecordCodecs.DecodeEncode` | adapter/experimental.go:63-125 | decoding an encoding, whatever follows it, gives the value back less the fraction of a second |
| `RecordCodecs.RoundTripIffWholeSeconds` | adapter/experimental.go:77-113 | the round trip is exact if and only if the time has whole seconds |
| `RecordCodecs.CutEncodingFails` | adapter/experimental.go:92-125 | every strict prefix of an encoding is an error, and never a panic |
| `RecordCodecs.PanicsIffHuge` | adapter/experimental.go:99-118 | decoding panics if and only if the bytes announce a length beyond the platform's limit where the format has a length |
| `RecordCodecs.ReadsExactlyTheFormat` | adapter/experimental.go:92-125 | decoding succeeds if and only if the bytes are a byte, a block, eight bytes of time and a block, with anything behind, and gives just these |
| `RecordCodecs.HugeLengthsPanic` | adapter/experimental.go:99-103 | every 64-bit length beyond the limit is such an input |
| `RecordCodecs.MarshalFields` | adapter/fakeip_metadata.go:20-32 | writes the fields behind 16-bit lengths, or fails exactly if a field does |
| `RecordCodecs.UnmarshalFields` | adapter/fakeip_metadata.go:34-50 | reads the fields, fails or panics, for any bytes |
| `RecordCodecs.FieldsRoundTrip` | adapter/fakeip_metadata.go:20-50 | fields under 65536 bytes come back, for any invertible codec of the fields and whatever follows |
| `RecordCodecs.CutFieldsFail` | adapter/fakeip_metadata.go:34-50 | no strict prefix is read successfully |

## Left out

- TransportManager.Remove and the manager's Close: not modelled; neither keeps list, table and default server in the relation the rest relies on. The reverse dependency map is only read by Remove.
- TransportManager.Manager.Start: the fallback is the `local` server without dependencies (box.go:383-391); servers that share a tag fail to start together or not at all.
- TransportManager.Manager.Create: the registry returns a server with the tag it was asked for; its own starting and closing are parameters.
- DnsRouter.BuildRules: whether a rule's other conditions can be parsed is a field of the rule. A missing router service is a router without rule sets, which fails for the same rules with another error; a missing server table is an empty one.
- DnsRouter.Router.Exchange: logging, message ids and the lifetime of entries in the reverse mapping are not modelled.
- DnsRouter.Router.Lookup: the order of the two concurrent queries, which error is returned, and the client's own lookup of both families are not modelled.
- DnsRouter.Router.ReloadRuleSet: checks and installs in one call, as one reload alone does; reloads that interleave are RuleSetReloads.
- RuleSetReloads: closing is left out, after which nothing is checked any more.
- Rule matching, address limits and the answers of servers are arbitrary functions of the rule and its inputs within one query.
- DnsClient.Client.Exchange: the test for a bare question, the preparation of the request and the loop check are parameters; it starts where waiting for another exchange is over, and that waiting is SingleFlight.
- The cache is described per key as the source forms it: client subnets, and strategies that share HTTPS answers, are not part of the key; the persistent key has no query class.
- Unpacking of a stored message is assumed to undo packing; the memory cache and the persistent store may drop any entry at any time.
- Time does not run backwards; durations are exact, without the rounding of floating-point seconds.
- ConnectionEvents: counters do not change during a call and are unbounded integers; identifiers of active connections are distinct; what a client does with an event is defined by the model. The subscription loop and its draining are left out.
- ServiceLifecycle: status subscribers, log resets, the start time and attached services are left out; resource release is what being handed to Close means.
- Relay: starts where the copiers or the write handshakes are launched; failures reported before that are left out.
- UsbRequests: sequence numbers are unbounded; payload conversion, abort messages and removal of the device from its provider are left out.
- UsbSnapshots: one sender at a time, as the listener runs under the broadcast lock (daemon/started_service_usbip.go:157-166).
- RecordCodecs: the largest length a slice can have is a parameter; a length within it that exhausts memory, and the codecs of the addresses themselves, are not modelled. The version byte of a SavedBinary is read and ignored, as in the source.
- Fairness: waiting threads are shown to be able to go on, not that a scheduler lets them.
- Generated gRPC code, option parsing, registries, network monitors, inbounds, outbounds, TLS, SSH and platform calls: input and output, or easy members.
