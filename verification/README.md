# RelayForge: what the panel and its agents keep together

RelayForge is a control panel that drives forwarding agents over a command channel. This
project models the parts of it in which several pieces of state must stay consistent, and
proves what they keep, for every input, every run or every reachable state:

- **Agent** (`Settings`, `AgentTables`, `AgentAgreement`, `AgentCoverage`, `AgentReplay`,
  `AgentEffects`, `AgentServer`, `AgentChains`): the live registry of services and the
  configuration list, two stores that every command changes in phases. `AgentTables` says what
  each command does; the classes `Server` and `ChainServer` run the phased loops and are proved to
  do exactly that; `AgentEffects` tells the outcome by names, serving and stored configurations.
- **Provisioning** (`Protocol`, `Fleet`, `Compensation`, `Replay`, `NodeNames`, `Provisioning`,
  `Wiring`, `SyncedWiring`, `RowWiring`, `ReplayOutcome`, `Removal`, `RemovalRuns`, `SyncedRemoval`,
  `Permissions`): service names, the creation of a forward over two nodes with its compensation,
  the replay of a tunnel to nodes that reconnect, the panel's tables and all nodes as one machine
  in which creation is all or nothing in both parts after every run, failed node commands
  included, what the configured services and chains do for the row of their forward, and what a
  deletion leaves when the tunnel or the permissions have changed since.
- **Panel** (`PortPool`, `PanelTables`, `PanelRequests`, `PortExclusivity`, `QuotaMachine`,
  `QuotaRuns`, `Ledgers`, `PanelService`): the tables as maps from id to row, every request as one
  step, which requests are accepted and what they write, and what runs of such steps keep:
  exclusive ports, quotas, three traffic ledgers.
- **Reporting** (`Reporting`, `Accounting`): the traffic counter of a service and its reports,
  with traffic during a report and lost replies, and the way of the bytes from the services of a
  forward to its ledger.
- **Algorithms** (`Base32`, `Totp`, `LoginLimiter`, `Gateway`, `Routes`, `RouteReuse`,
  `Selector`, on top of `Text` and `Arithmetic`): the secret codec on a 32-bit accumulator, the
  login limiter with lazy cleanup, the table of pending requests, nested routes over shared
  transports, and weighted and round-robin selection.

Where a property that one would expect turns out not to hold of the code, the model keeps the
code as it is, and the project proves, for all inputs, exactly when the property holds. The main
such results:

- A failed creation, and creation followed by deletion, restore both nodes exactly unless the
  tunnel is a reverse tunnel over plain TLS or TCP, where the compensation asks to delete a UDP
  service that was never made and is refused (`Compensation.RollbackRestoresExactly`).
- A permission row that exists but is disabled makes creation and deletion use different
  service names (`Compensation.CreateThenDeleteByPermission`). Over whole runs the names agree
  exactly when there was an enabled permission at creation or there is none at deletion
  (`Permissions.SamePermissionFoundExactly`).
- A synchronised configuration is the one found under its name exactly when the name was listed
  just when it was registered, or was listed with that configuration already; a stale list entry
  hides a new one (`AgentReplay.PutStoresExactly`).
- A resume that fails at one of its services loses exactly this name and changes nothing else
  (`AgentEffects.FailedResumeEffect`).
- A deletion leaves services behind when the permission found or the tunnel's protocol has
  changed since the creation; the exact condition is proved without and with a synchronisation
  in between (`RemovalRuns.DeletionLeavesNothingExactly`, `SyncedRemoval.SyncThenDeleteExactly`).
- The pause list of an explicit request is accepted by the node of a freshly created forward
  exactly on reverse tunnels over AnyTLS or QUIC; everywhere else it names a service that was
  never made (`Compensation.CreatedPauseExactly`). The list sent when a quota runs out is refused
  on every kind of tunnel (`Compensation.FlowPauseIsRefused`).
- An agent loses an instance exactly when an update, a sync or a resume reaches a failing parse
  of a registered service (`AgentAgreement.CommandKeepsExactly`). A sync starts even what it
  marks as paused, so it keeps the agreement exactly when no winning entry carries the mark
  (`AgentReplay.SyncAgreesExactly`).
- Pausing and resuming restores the configuration list to the letter exactly when the named
  configurations carried neither a mark nor an empty metadata map
  (`AgentReplay.PauseResumeRestoresExactly`).
- A forward update can give a forward the same port twice on one node
  (`PortExclusivity.UpdateClashesExactly`).
- A report from a forward that is not running leaves its siblings running over the tunnel's
  limit (`QuotaMachine.ReportKeepsQuotaExactly`), and an unacknowledged pause leaves its forward
  running; for every request, the quota is lost exactly then (`QuotaRuns.StepKeepsQuotaExactly`).
- Reading and resetting the traffic counter as two steps loses exactly the bytes moved in
  between (`Reporting.SplitResetLosesExactly`).
- A failed report is sent again exactly when further traffic is seen
  (`Reporting.ResentExactlyAfterTraffic`).
- The cleanup of the login limiter can be noticed as soon as time passes between the two clock
  readings of a call (`LoginLimiter.CleanupIsUnobservableExactly`).
- Two hops that multiplex over one transport make `routePath` run forever
  (`Routes.PathIsSelectionExactly`), because copying a transport returns the original. For the
  same reason a later call can rewrite the path of an earlier route; its new path is given
  exactly (`RouteReuse.LaterCallReroutes`, `RouteReuse.EarlierPathStaysExactly`).
- Whole rounds of round robin over one wrap of the counter are fair exactly when the wrap ends a
  round or the number of items divides the counter's period; over several wraps, exactly in the
  latter case (`Selector.RoundRobinIsFairExactly`).
- A session teardown that is not one step can remove the newest session
  (`Gateway.SplitRemovalSparesNewestExactly`).

Check the project with `dafny verify dfyconfig.toml`.

## Model

| member | source | states |
|---|---|---|
| `AgentAgreement.CreateKeeps` | go-gost/x/socket/service.go:16-82 | adding services keeps names, configurations and running flags of the two stores in agreement, whatever parses |
| `AgentAgreement.CreateAllOrNothing` | go-gost/x/socket/service.go:16-82 | a failing add changes neither the registered names nor the configuration list nor what serves, and it fails exactly when the list is empty or some name is blank, taken, repeated or does not parse |
| `AgentAgreement.DeleteAllOrNothing` | go-gost/x/socket/service.go:176-231 | a failing delete changes nothing, and it fails exactly when the list is empty or names something blank or not registered |
| `AgentAgreement.UpdateKeepsExactly` | go-gost/x/socket/service.go:84-148 | an update with trimmed names keeps the agreement if and only if it is refused up front or every service parses again |
| `AgentAgreement.SyncKeepsExactly` | go-gost/x/socket/service.go:152-174 | a sync keeps the agreement exactly when it does not reach a failing parse of a service registered before or earlier in the same request |
| `AgentAgreement.DeleteKeeps` | go-gost/x/socket/service.go:176-231 | a delete keeps the agreement |
| `AgentAgreement.PauseKeepsAlways` | go-gost/x/socket/service.go:233-342 | from agreeing stores a pause keeps the agreement and never reaches its missing-configuration rollback |
| `AgentCoverage.CommandCovers` | go-gost/x/socket/service.go:16-467 | every command, whatever parses and whatever names and marks it carries, leaves each registered name with a configuration |
| `AgentCoverage.ConfigurationsAreNeverMissing` | go-gost/x/socket/service.go:233-467 | in every run from empty stores neither pause nor resume misses a configuration, so the rollback of a pause is never reached |
| `AgentCoverage.PauseRollbackRestoresExactly` | go-gost/x/socket/service.go:469-504 | on any agent where it were reached, the rollback leaves what serves as it was if and only if no service before the missing one was serving |
| `AgentAgreement.ResumeKeepsExactly` | go-gost/x/socket/service.go:344-467 | a resume keeps the agreement exactly when it is refused up front or every paused service parses again |
| `AgentAgreement.CommandKeepsExactly` | go-gost/x/socket/service.go:16-467 | for each of the six commands, the agreement survives exactly when no instance is lost to a failing parse |
| `AgentAgreement.RunKeepsAgreement` | go-gost/x/socket/service.go:16-467 | every run of well-formed commands that loses no instance keeps the agreement |
| `AgentAgreement.AgreementFromEmpty` | go-gost/x/config/config.go:29-50 | from empty stores every such run leaves distinct names, the same in both stores, and a service serves exactly when it is not marked paused |
| `AgentReplay.SyncSucceedsExactly` | go-gost/x/socket/service.go:152-174 | a sync succeeds if and only if it has entries, all named and all parsed, and has then put them in place one after the other |
| `AgentReplay.SyncOverrides` | go-gost/x/socket/service.go:152-174 | every successful sync is a map override of the configurations by the request, the last entry of a name winning, and exactly what it names or what served before serves |
| `AgentReplay.SyncAgreesExactly` | go-gost/x/socket/service.go:152-174 | a successful sync keeps the agreement if and only if no winning entry is marked as paused |
| `AgentReplay.SyncTwice` | go-gost/x/socket/service.go:152-174 | repeating a successful sync with success changes neither list, nor registered names, nor what serves |
| `AgentReplay.PauseResumeRestoresExactly` | go-gost/x/socket/service.go:233-467 | pausing registered services and resuming them succeeds if and only if all parse again, then serves what served or was named, and gives back the configuration list if and only if the named configurations carried no mark and no empty metadata map |
| `AgentReplay.LaunchThenDrop` | go-gost/x/registry/registry.go:63-95 | registering fresh names and unregistering them in any order restores registry and running instances |
| `AgentReplay.AttemptThenDelete` | go-gost/x/socket/service.go:16-82 | an attempted add of names that are neither registered nor listed, followed by their deletion, restores both stores, whether or not the add succeeded and whether or not the stores agreed |
| `AgentReplay.PutStoresExactly` | go-gost/x/socket/service.go:152-174 | after one synchronised entry its configuration is the one found under its name if and only if the name was in both stores or in neither, or that configuration was found before |
| `AgentEffects.AddEffect` | go-gost/x/socket/service.go:16-82 | a successful add registers and starts what it names and appends the configurations, with trimmed names, in order |
| `AgentEffects.UpdateEffect` | go-gost/x/socket/service.go:84-148 | an update of registered names restarts them and stores under each name the last configuration sent with exactly it; at the first failing parse that service is gone, those before it are restarted and no configuration is stored |
| `AgentEffects.FailedSyncEffect` | go-gost/x/socket/service.go:152-174 | a sync that breaks off at an entry has done exactly the entries before it, and the entry's name is not registered any more |
| `AgentEffects.DeleteEffect` | go-gost/x/socket/service.go:176-231 | a successful delete unregisters, stops and unlists what it names and leaves every other name as it was |
| `AgentEffects.PauseEffect` | go-gost/x/socket/service.go:293-342 | a successful pause stops what it names and sets its mark and nothing else in the metadata; everything else stays |
| `AgentEffects.ResumeEffect` | go-gost/x/socket/service.go:404-467 | from agreeing stores, when all paused services parse, a resume starts what it names and takes the marks away, leaving no empty metadata; everything else stays |
| `AgentEffects.FailedResumeEffect` | go-gost/x/socket/service.go:421-426 | when the k-th of the paused services is the first that fails to parse, this name is not registered any more and all others are; the same services serve as before, none of the paused ones, and the configuration list is the old one |
| `AgentEffects.RefusedForFirst` | go-gost/x/socket/service.go:22-48 | an add, update, delete or pause that is turned down names the first name at fault, with the error of its fault, and changes nothing |
| `AgentEffects.RefusedForRepeat` | go-gost/x/socket/service.go:50-64 | an add of otherwise good names that repeat is turned down for the first repetition |
| `AgentEffects.ResumeTurnedDown` | go-gost/x/socket/service.go:344-402 | a resume that is turned down names the first name that is blank or not registered and changes nothing |
| `AgentServer.Server.constructor` | go-gost/x/config/config.go:17-36 | an agent starts with empty stores |
| `AgentServer.Server.Register` | go-gost/x/registry/registry.go:63-72 | inserts exactly when the name is absent |
| `AgentServer.Server.Unregister` | go-gost/x/registry/registry.go:74-81 | closes the instance and removes the name |
| `AgentServer.Server.CreateServices` | go-gost/x/socket/service.go:16-82 | the four phases with their rollback compute the specified result, error and both stores |
| `AgentServer.Server.ParseAll` | go-gost/x/socket/service.go:22-48 | the first phase finds the earliest refusal and changes nothing |
| `AgentServer.Server.RegisterAll` | go-gost/x/socket/service.go:50-64 | the second phase registers in order; the first repeated name takes everything back |
| `AgentServer.Server.TakeBack` | go-gost/x/socket/service.go:54-60 | the rollback leaves the stores as before the request |
| `AgentServer.Server.ServeAll` | go-gost/x/socket/service.go:66-71 | the third phase serves exactly the registered instances |
| `AgentServer.Server.CheckRegistered` | go-gost/x/socket/service.go:90-102 | the shared first phase finds the earliest blank or missing name |
| `AgentServer.Server.UpdateServices` | go-gost/x/socket/service.go:84-148 | closes, re-registers and rewrites the list as specified |
| `AgentServer.Server.RestartAll` | go-gost/x/socket/service.go:104-132 | each service is closed and dropped before it is parsed anew; the first failure ends the request |
| `AgentServer.Server.ReplaceConfigs` | go-gost/x/socket/service.go:134-145 | the list is rewritten under the names as sent |
| `AgentServer.Server.SyncServices` | go-gost/x/socket/service.go:152-174 | each entry goes through update or create, the first failure ends the request |
| `AgentServer.Server.DeleteServices` | go-gost/x/socket/service.go:176-231 | unregisters every name and filters the list as specified |
| `AgentServer.Server.PauseServices` | go-gost/x/socket/service.go:233-342 | closes, and marks the list, as specified, with the rollback as it behaves |
| `AgentServer.Server.RollbackPaused` | go-gost/x/socket/service.go:469-504 | since every name is still registered, the rollback changes nothing |
| `AgentServer.Server.ResumeServices` | go-gost/x/socket/service.go:344-467 | closes, relaunches and unmarks the paused services as specified |
| `AgentServer.Server.RelaunchAll` | go-gost/x/socket/service.go:404-439 | one paused service after the other is dropped and launched again; a failing parse starts the rollback |
| `AgentServer.Server.RollbackResumed` | go-gost/x/socket/service.go:506-531 | the rollback closes and re-marks the services resumed so far |
| `AgentChains.AllOrNothing` | go-gost/x/socket/chain.go:13-111 | a refused chain command leaves registry and list as they were |
| `AgentChains.CommandsKeepMatch` | go-gost/x/socket/chain.go:13-111 | create, update and delete keep registry and list holding the same entries |
| `AgentChains.AttemptThenDelete` | go-gost/x/socket/chain.go:13-111 | an attempted add of a free chain name followed by its deletion restores the store |
| `AgentChains.SyncSets` | dotnet-backend/Application/ForwardOperations.cs:296-302 | update-else-add of a chain succeeds exactly when it parses, sets that one name, and repeating it changes nothing |
| `AgentChains.EnsureTwice` | dotnet-backend/Application/ForwardOperations.cs:312-340 | ensuring a limiter twice is ensuring it once |
| `AgentChains.ChainServer.CreateChain` | go-gost/x/socket/chain.go:13-40 | registers and appends, or refuses without a change |
| `AgentChains.ChainServer.UpdateChain` | go-gost/x/socket/chain.go:42-74 | replaces in both stores, or refuses without a change |
| `AgentChains.ChainServer.DeleteChain` | go-gost/x/socket/chain.go:76-111 | removes from both stores, or refuses without a change |
| `Protocol.ReportsFindTheirForward` | dotnet-backend/Application/FlowOperations.cs:9-10 | whatever service of a forward reports, the panel recovers the id of exactly that forward |
| `Protocol.ServiceNameInjective` | dotnet-backend/Application/ForwardOperations.cs:62 | service names identify forward, owner and permission |
| `Fleet.UndoDirect` | dotnet-backend/Application/ForwardOperations.cs:137-158 | on a direct tunnel the compensation restores the node's tables whatever failed |
| `Fleet.UndoRelay` | dotnet-backend/Application/ForwardOperations.cs:137-158 | on a relay tunnel it restores both nodes' tables whatever failed |
| `Fleet.UndoReverse` | dotnet-backend/Application/ForwardOperations.cs:137-158 | on a reverse tunnel it restores them exactly outside the plain protocols with both adds done |
| `Compensation.RollbackRestoresExactly` | dotnet-backend/Application/ForwardOperations.cs:65-98 | for every tunnel type and protocol and any subset of failing commands, the compensation restores all tables if and only if it does not ask to delete a service that was never made |
| `Compensation.FailedCreateRestores` | dotnet-backend/Application/ForwardOperations.cs:65-98 | when a node command of a creation fails, every node is left as before, with the same exact exception |
| `Compensation.CreateThenDelete` | dotnet-backend/Application/ForwardOperations.cs:123-135 | creation followed at once by deletion under a later name restores all tables if and only if the name is unchanged and the tunnel is not a plain reverse tunnel |
| `Compensation.CreateThenDeleteByPermission` | dotnet-backend/Application/ForwardOperations.cs:26-27 | with an unchanged permission row this holds if and only if the row is absent or enabled |
| `Compensation.CreatedPauseExactly` | dotnet-backend/Application/ForwardOperations.cs:173-180 | the list an explicit pause sends is accepted on a freshly created forward if and only if its tunnel is a reverse one over AnyTLS or QUIC; a refused one changes nothing |
| `Compensation.FlowPauseIsRefused` | dotnet-backend/Application/FlowOperations.cs:79-95 | the list sent when a quota runs out is refused by the reporting node of every freshly created forward, on every kind of tunnel |
| `Provisioning.RollbackAnywhere` | dotnet-backend/Application/ForwardOperations.cs:137-158 | with any nodes offline, the compensation restores the nodes that are there, with the same exact exception |
| `NodeNames.AnswerIsSound` | go-gost/x/socket/service.go:16-531 | after every command, failed ones included, what serves was registered at some time and chain registry and list match |
| `NodeNames.AnswerOnlyAdds` | go-gost/x/socket/service.go:16-531 | no command, failed ones included, lists or registers a name that it was not given |
| `Provisioning.StepIsCoherent` | dotnet-backend/Application/ForwardOperations.cs:60-62 | every event of the joint machine, with node commands that fail and lose instances and nodes that come and go, keeps the tables well formed and the numbers still to be given unused on every node |
| `Provisioning.FailedCreateRestoresBoth` | dotnet-backend/Application/ForwardOperations.cs:5-99 | a creation that is refused anywhere, by the panel, at the limiter or at a node, leaves the rows of the panel and the tables of all nodes as before, except exactly when the compensation gets stuck |
| `Provisioning.CreationIsAllOrNothing` | dotnet-backend/Application/ForwardOperations.cs:5-99 | so after every run of the panel and its nodes from the start |
| `Provisioning.CreateThenDeleteInBoth` | dotnet-backend/Application/ForwardOperations.cs:123-135 | a created forward that is deleted at once is gone from the panel, and from the nodes if and only if the same permission is found and the tunnel is not a plain reverse one |
| `Wiring.CreatedIsWired` | dotnet-backend/Domain/Domain.cs:189-285 | after a successful creation the services found under the literal names listen on the row's entry port, at the tunnel's listen addresses, or on its relay port, with the tunnel's protocol and password, forward to the row's targets where the source says so, and the chain dials exactly the address, protocol, password and credentials of the service at its other end |
| `Wiring.TargetsReadBack` | dotnet-backend/Domain/Domain.cs:210-214 | the target list of a forwarder is the list of addresses the target text was joined from |
| `SyncedWiring.SyncedIsWired` | dotnet-backend/Application/ForwardOperations.cs:202-239 | the same after a successful synchronisation, for every forward of the tunnel, whatever the nodes held before, provided its names were listed just where they were registered |
| `ReplayOutcome.SynchronisationSucceedsExactly` | dotnet-backend/Application/ForwardOperations.cs:202-239 | a synchronisation with its nodes online succeeds if and only if every service and chain that it sends for any forward parses |
| `ReplayOutcome.OfflineFails` | dotnet-backend/Application/ForwardOperations.cs:202-239 | with a node of the tunnel offline and any forward on it, it fails |
| `ReplayOutcome.FailedSynchronisationStops` | dotnet-backend/Application/ForwardOperations.cs:202-239 | one that fails at a forward has wired those before it and leaves what is found under the names of those after it |
| `ReplayOutcome.ReplaySucceedsExactly` | dotnet-backend/Application/ForwardOperations.cs:241-294 | the replay for a node that is online succeeds if and only if what is for this node parses, whether or not the other node is online |
| `ReplayOutcome.BothReplaysSucceedExactly` | dotnet-backend/Application/ForwardOperations.cs:202-294 | with both nodes online the synchronisation succeeds if and only if both replays do |
| `RowWiring.EnsuredIsLimited` | dotnet-backend/Application/ForwardOperations.cs:312-330 | once the limiters are ensured, a tunnel with a speed has its own limiter, at that speed in bytes, on every node it uses, and one without has none |
| `RowWiring.SyncedIsLimited` | dotnet-backend/Application/ForwardOperations.cs:202-239 | after a successful synchronisation the limiters are set so, and every forward is wired with them |
| `RowWiring.CreatedRowIsWired` | dotnet-backend/Application/ForwardOperations.cs:5-99 | in the joint machine, a creation that is done has added exactly the row of the request, and the nodes are wired and limited as this row and its tunnel say, under the name made of its number, its owner and the owner's first enabled permission, or zero |
| `Permissions.RunKeepsSole` | dotnet-backend/Api/RelayForgeApi.cs:380-387 | in every run there is at most one permission per owner and tunnel |
| `Permissions.PermissionOutlivesForward` | dotnet-backend/Api/RelayForgeApi.cs:404-410 | in every run of the joint machine, a permission on a tunnel stays as long as a forward of its owner on that tunnel does |
| `Permissions.SamePermissionFoundExactly` | dotnet-backend/Application/ForwardOperations.cs:123-135 | whatever happens in between, deletion finds the permission that creation found if and only if there was an enabled one at creation or there is none at deletion |
| `Permissions.DeletionClearsAfterRuns` | dotnet-backend/Application/ForwardOperations.cs:123-158 | after any run from the start, a creation, and any run that registers and drops no name of the forward, deletion leaves nothing of it if and only if this holds and it names the services that creation made |
| `Removal.DeletionClearsExactly` | dotnet-backend/Application/ForwardOperations.cs:123-158 | whatever the nodes hold of a forward and whichever are online, its deletion leaves nothing of it if and only if all that is there stands in a list the deletion sends and that is there completely |
| `Removal.MadeIsCoveredExactly` | dotnet-backend/Application/ForwardOperations.cs:137-158 | what a creation made is covered in that sense if and only if deletion uses the same name and names the same services |
| `RemovalRuns.OthersLeaveAlone` | go-gost/x/socket/service.go:16-531 | no command about another forward, and no pause, registers or drops a name of this one |
| `RemovalRuns.DeletionLeavesNothingExactly` | dotnet-backend/Application/ForwardOperations.cs:123-135 | after any run in between that registers and drops none of its names, deleting a created forward leaves nothing of it on the nodes if and only if deletion finds the permission creation found, and the protocols at both times name the same services |
| `SyncedRemoval.SyncThenDeleteExactly` | dotnet-backend/Application/ForwardOperations.cs:202-239 | with a successful synchronisation of the changed tunnel in between, nothing is left if and only if creation, synchronisation and deletion used one name and the protocol did not change from one with a UDP service to AnyTLS, or, on a reverse tunnel, is AnyTLS or QUIC |
| `Replay.RunSyncTunnel` | dotnet-backend/Application/ForwardOperations.cs:202-239 | the full synchronisation loop, first failure ending it |
| `Replay.RunSyncTunnelFor` | dotnet-backend/Application/ForwardOperations.cs:241-294 | the per-node replay loop, first failure ending it |
| `Replay.NodeReplayMatchesFullSync` | dotnet-backend/Application/ForwardOperations.cs:202-340 | for every tunnel type, protocol, forward list and agent behaviour, when the full synchronisation succeeds the replay for either node succeeds and leaves that node the same |
| `Replay.ReplayingBothNodesIsFullSync` | dotnet-backend/Application/ForwardOperations.cs:202-340 | replaying the entry node and then the exit node gives all nodes the tables of the full synchronisation |
| `Replay.AgentsRepeatLimiter` | dotnet-backend/Application/ForwardOperations.cs:312-340 | the agents of this model do not mind that one variant sets the limiter twice |
| `Replay.AgentsReplay` | dotnet-backend/Application/ForwardOperations.cs:202-340 | the two replays and the full synchronisation agree on these agents |
| `PortPool.ParseBounds` | dotnet-backend/Domain/Domain.cs:150-173 | one part of a pool text is accepted exactly as one or two in-bounds numbers in order |
| `PortPool.ParsePool` | dotnet-backend/Domain/Domain.cs:142-186 | a pool text is accepted exactly when all its parts are, with ranges from 1 to 65535 and the normalized text |
| `PortPool.ParseOptionalPool` | dotnet-backend/Domain/Domain.cs:129-140 | a blank text is an accepted empty pool; a normalized text denotes the same ranges again |
| `PortPool.NormalizedDenotes` | dotnet-backend/Domain/Domain.cs:142-186 | the normalized text of in-bounds ranges parses back to exactly those ranges, whatever the fallback |
| `PortPool.NormalizationIsStable` | dotnet-backend/Domain/Domain.cs:142-186 | every accepted text has in-bounds ranges and a normalized form with the same ranges and the same normalized form |
| `PortPool.NextPort` | dotnet-backend/Application/ForwardOperations.cs:184-192 | the first pool port, in pool order, that is neither used nor reserved |
| `PortPool.NextPortIsUnique` | dotnet-backend/Application/ForwardOperations.cs:184-192 | that description determines the port |
| `PortPool.NextPortZero` | dotnet-backend/Application/ForwardOperations.cs:184-192 | zero exactly when the pool is invalid or exhausted |
| `PanelRequests.CreatedExactly` | dotnet-backend/Application/ForwardOperations.cs:18-59 | a creation is done if and only if its nodes go along, it is permitted (named, with a target, on an enabled tunnel below its limit, by an administrator or under an enabled permission) and it is acceptable (ports in range, free and there to be had, no negative limit, no identical forward when no port is given) |
| `PanelRequests.ExistingExactly` | dotnet-backend/Application/ForwardOperations.cs:28-33 | a permitted creation without an entry port answers with an identical forward of the owner if and only if there is one, and writes nothing |
| `PanelRequests.CreationAddsItsRow` | dotnet-backend/Application/ForwardOperations.cs:34-59 | a creation that is done adds one row, with the request's owner, tunnel, trimmed name and target and limit, the requested ports or the first free ones of the pools, no flow, running; every other row and table stays |
| `PanelRequests.RefusalsHaveTheirCause` | dotnet-backend/Application/ForwardOperations.cs:18-58 | a creation that is not done writes no row, and the reason it gives is true of the request |
| `PanelRequests.UpdatedExactly` | dotnet-backend/Application/ForwardOperations.cs:101-117 | an update is accepted if and only if the caller may reach the forward, the limit is not negative, the ports sent are in range and the new ports are free where the forward listens; otherwise nothing changes |
| `PanelRequests.UpdateWritesItsRow` | dotnet-backend/Application/ForwardOperations.cs:119-120 | an accepted update writes name, target, limit and the ports that were sent, keeps owner, tunnel and flows, and otherwise moves only statuses of the tunnel: exhausted or running by the new limits where the node goes along |
| `PanelRequests.StatusFollowsReply` | dotnet-backend/Application/ForwardOperations.cs:160-182 | a confirmed pause is written as paused, a confirmed resume within the limits as running, and in every other case nothing is written and the reason is given |
| `PanelRequests.DeletionDropsItsRow` | dotnet-backend/Application/ForwardOperations.cs:123-135 | deletion drops exactly its row if and only if an administrator or the owner asks |
| `PanelRequests.LimitInBytes` | dotnet-backend/Application/FlowOperations.cs:67 | a limit in gigabytes is that many bytes, zero when it is not positive and the largest 64-bit number beyond it |
| `PanelRequests.TunnelUsageIsSum` | dotnet-backend/Application/FlowOperations.cs:69-77 | a tunnel's usage is nothing without forwards, and each forward adds its inbound bytes and, unless only these count, its outbound ones |
| `PanelRequests.ExceededExactly` | dotnet-backend/Application/FlowOperations.cs:45-53 | a forward exceeds if and only if a positive limit is reached by its own usage or its tunnel's |
| `PanelRequests.ScaledBytes` | dotnet-backend/Application/FlowOperations.cs:16-18 | reported bytes are scaled to the nearest byte, halves upwards, never below zero |
| `PanelRequests.ReportsAreBookedExactly` | dotnet-backend/Application/FlowOperations.cs:9-15 | a report under the name of any service of a forward is booked on it if and only if it and its owner exist and the node is the one that carries its traffic, and on nothing else |
| `PanelRequests.ReportsAreCredited` | dotnet-backend/Application/FlowOperations.cs:16-20 | such a report adds the scaled uploaded bytes to the inbound and the scaled downloaded ones to the outbound flow |
| `PanelRequests.ShortNamesAreNotBooked` | dotnet-backend/Application/FlowOperations.cs:9-10 | names of fewer than three parts are booked on nothing |
| `PanelRequests.NodesHaveTheirPool` | dotnet-backend/Api/RelayForgeApi.cs:217-241 | a node added or changed with a valid range has exactly the pool of that text |
| `PanelRequests.BlankPoolsAreEmpty` | dotnet-backend/Domain/Domain.cs:129-140 | a node added with a blank range has no port to give |
| `PanelRequests.TunnelIsAddedExactly` | dotnet-backend/Api/RelayForgeApi.cs:322-339 | a tunnel is added, enabled and as asked for, if and only if its nodes exist and suit its kind and its limit is not negative |
| `PanelRequests.TunnelUpdateIsFollowed` | dotnet-backend/Api/RelayForgeApi.cs:341-371 | a changed tunnel keeps kind, nodes and switch, and its forwards follow the new limit if and only if the synchronisation succeeded and their node goes along |
| `PortExclusivity.NextPortOnIs` | dotnet-backend/Application/ForwardOperations.cs:184-200 | the port picked for a node of the tables is the next port of its pool |
| `PortExclusivity.AutomaticPortsAreAccepted` | dotnet-backend/Application/ForwardOperations.cs:40-55 | an automatically assigned entry or relay port is never refused by the later conflict checks |
| `PortExclusivity.CreateKeepsPorts` | dotnet-backend/Application/ForwardOperations.cs:37-59 | creating a forward keeps the ports of distinct forwards apart on every node |
| `PortExclusivity.UpdateKeepsPorts` | dotnet-backend/Application/ForwardOperations.cs:101-121 | so does updating one |
| `PortExclusivity.StepKeepsPorts` | dotnet-backend/Api/RelayForgeApi.cs:322-378 | so does every request of the panel |
| `PortExclusivity.PortsNeverClash` | dotnet-backend/Application/ForwardOperations.cs:194-200 | in every state reached by any requests, no two forwards hold the same port on the same node, counting entry and relay ports where they listen |
| `PortExclusivity.CreationKeepsOwnPortsApart` | dotnet-backend/Application/ForwardOperations.cs:53-54 | a created forward's own two ports differ when they are on one node |
| `PortExclusivity.UpdateMergesOwnPorts` | dotnet-backend/Application/ForwardOperations.cs:108-118 | an administrator's update of any reverse forward to a port nobody else uses, for both its ports at once, is accepted |
| `PortExclusivity.UpdateClashesExactly` | dotnet-backend/Application/ForwardOperations.cs:108-118 | an accepted update makes a forward's own two ports collide on one node if and only if the tunnel is a reverse one and the requested or kept ports are equal |
| `QuotaMachine.ReconcileSettles` | dotnet-backend/Application/FlowOperations.cs:41-65 | with all commands successful, paused rows stay, every other row of the tunnel ends exhausted exactly when a limit is reached, and a second run finds nothing to do |
| `QuotaMachine.ReconcileFollowsReplies` | dotnet-backend/Application/FlowOperations.cs:41-65 | with arbitrary replies, a row of the tunnel that is not paused and whose command is not refused ends exhausted if a limit is reached and running otherwise; every other row keeps its status, and nothing but statuses changes |
| `QuotaMachine.ReportStopsExactly` | dotnet-backend/Application/FlowOperations.cs:7-39 | a report changes a row's status, to exhausted, if and only if it is booked on a running forward, the row is running, and with the booked bytes the limit of their common tunnel is reached or the row is that forward and reaches its own |
| `QuotaMachine.ReconcileEnforcesExactly` | dotnet-backend/Application/FlowOperations.cs:41-65 | with arbitrary replies the quota holds on the tunnel afterwards exactly when every running row over its limit was acknowledged |
| `QuotaMachine.ReportKeepsQuotaExactly` | dotnet-backend/Application/FlowOperations.cs:20-39 | a report keeps the quota if and only if its forward is running, or the tunnel stays below its limit, or no forward of the tunnel is running |
| `QuotaMachine.LateReportLeavesSiblingRunning` | dotnet-backend/Application/FlowOperations.cs:34 | whenever the report of a forward that is not running takes its tunnel to the limit, every running sibling keeps running over it |
| `QuotaRuns.StepKeepsQuotaExactly` | dotnet-backend/Application/FlowOperations.cs:20-95 | from tables that keep it, a request keeps every running forward below its own and its tunnel's limit if and only if it neither fails to pause a running row over a limit nor is a late report with a running sibling |
| `QuotaRuns.RunKeepsQuotaExactly` | dotnet-backend/Application/FlowOperations.cs:20-95 | a run keeps the quota throughout if and only if each of its steps does so in this sense |
| `QuotaRuns.QuotaHoldsInOrderlyRuns` | dotnet-backend/Application/FlowOperations.cs:20-95 | so in every orderly run from the initial tables no forward rests at running over a limit |
| `QuotaRuns.MovesAreLegal` | dotnet-backend/Application/ForwardOperations.cs:160-182 | from every well-formed table and for every request, paused is left only by an explicit acknowledged resume and entered only by an explicit pause, running is re-entered only with both quotas open, and exhausted is entered only from running with a limit reached |
| `QuotaRuns.MovesAreLegalInRuns` | dotnet-backend/Application/FlowOperations.cs:20-95 | so in all runs, at every step, whatever the nodes answer and whoever reports |
| `Ledgers.ReportMovesLedgersTogether` | dotnet-backend/Application/FlowOperations.cs:16-22 | an accepted report adds the same amounts to forward, owner and permission and to nothing else; any other report changes nothing |
| `Ledgers.ForwardLedger` | dotnet-backend/Application/FlowOperations.cs:20 | in every run a forward's ledger equals the credits it received |
| `Ledgers.UserLedger` | dotnet-backend/Api/RelayForgeApi.cs:192-197 | in every run a user's ledger equals the credits of the user's forwards since creation or the last reset |
| `Ledgers.PermissionLedger` | dotnet-backend/Application/FlowOperations.cs:22 | in every run a permission's ledger equals the credits of its owner's forwards on its tunnel since assignment or the last reset |
| `Ledgers.RoundingIsBounded` | dotnet-backend/Application/FlowOperations.cs:16-18 | after n accepted reports the ledger is within n/2 of ratio times raw bytes, and exact for whole ratios |
| `PanelService.Service.AssignPort` | dotnet-backend/Application/ForwardOperations.cs:184-200 | the loop over the pool returns the next port for the tables as they are |
| `PanelService.Service.PickPorts` | dotnet-backend/Application/ForwardOperations.cs:37-59 | picking and checking the ports one after the other, with the pool loops, gives the specified refusal or ports |
| `PanelService.Service.FindTwin` | dotnet-backend/Application/ForwardOperations.cs:28-33 | the search finds the first identical forward, or none |
| `PanelService.Service.ReconcileTunnel` | dotnet-backend/Application/FlowOperations.cs:41-65 | the loop over the rows does what the specification says and sends exactly one command per row that has to change |
| `PanelService.SecondReconcileSendsNothing` | dotnet-backend/Application/FlowOperations.cs:41-65 | after a run whose commands all succeed, a second run sends no command |
| `PanelService.Service.PauseTunnelForwards` | dotnet-backend/Application/FlowOperations.cs:79-88 | every running row of the tunnel ends exhausted |
| `PanelService.Service.Apply` | dotnet-backend/Application/FlowOperations.cs:7-39 | three ledger updates and the quota checks give the specified tables |
| `PanelService.Service.Update` | dotnet-backend/Application/ForwardOperations.cs:101-121 | the checks in their order, the row update and the reconciliation loop give the specified tables and result |
| `PanelService.Service.Create` | dotnet-backend/Application/ForwardOperations.cs:5-99 | the checks in their order, the port loops, insertion before the node commands and deletion after a failure give the specified tables and result |
| `Reporting.StepConserves` | go-gost/x/service/service.go:345-422 | traffic, ticks, reports handled by the panel, acknowledgements and lost replies all keep bytes accounted for |
| `Reporting.BytesAreConserved` | go-gost/x/service/service.go:358-417 | in every run, bytes moved equal bytes in the counter plus bytes acknowledged, in each direction |
| `Reporting.BookingPanelExceedsByUnacknowledged` | dotnet-backend/Api/RelayForgeApi.cs:647-667 | a panel that books every report it handles exceeds the acknowledged total by exactly the handled reports without an acknowledgement |
| `Reporting.SplitResetLosesExactly` | go-gost/x/observer/stats/stats.go:69-72 | if the counter is read and stored in two steps, exactly the bytes moved in between are lost, and for a handled report bytes are conserved if and only if there are none |
| `Reporting.FailedReportWaitsForTraffic` | go-gost/x/service/service.go:375-381 | the bytes of a failed report stay in the counter, and no run without new traffic sends them again |
| `Reporting.ResentExactlyAfterTraffic` | go-gost/x/service/service.go:358-417 | as long as nothing was sent since a failed report, the next tick sends if and only if there was traffic and no event is pending, and then it sends the whole counter; a pending event delays it by one tick |
| `Accounting.LedgerFollowsTraffic` | dotnet-backend/Application/FlowOperations.cs:7-22 | in every joint run of the services of a forward and the panel at a steady ratio, ten times the forward's ledger is within five per booked report of the ratio in tenths times the bytes moved, less those still counted or answered without booking, plus those booked without acknowledgement |
| `Base32.RegroupKeeps` | dotnet-backend/Infrastructure/Security.cs:50-64 | regrouping bits through the accumulator neither loses nor invents one, with or without 32-bit wrapping |
| `Base32.EncodeMeetsStandard` | dotnet-backend/Infrastructure/Security.cs:48-66 | the encoding loop computes the encoding of section 6 of RFC 4648 without padding |
| `Base32.EncodingIsUnique` | dotnet-backend/Infrastructure/Security.cs:48-66 | the standard determines the digits |
| `Base32.WrappingDoesNotMatter` | dotnet-backend/Infrastructure/Security.cs:52-57 | the 32-bit accumulator writes the same secret as an unbounded one |
| `Base32.DecodeInvertsEncoding` | dotnet-backend/Infrastructure/Security.cs:117-127 | reading any standard encoding gives back the bytes, with or without wrapping |
| `Totp.SecretRoundTrip` | dotnet-backend/Infrastructure/Security.cs:85-129 | a generated secret typed in any case, with spaces anywhere and padding signs at the end, decodes to its bytes if and only if there are at least ten, and counts as valid if and only if there are at least sixteen |
| `Totp.SecretReadsBack` | dotnet-backend/Infrastructure/Security.cs:48-129 | the secret as generated decodes to its bytes if and only if there are at least ten, for every byte string |
| `Totp.GenerateSecret` | dotnet-backend/Infrastructure/Security.cs:48-66 | the loop writes the specified secret |
| `Totp.EmitDigits` | dotnet-backend/Infrastructure/Security.cs:58-62 | its inner loop emits five bits at a time |
| `Totp.DecodeSecret` | dotnet-backend/Infrastructure/Security.cs:113-129 | normalization, the format check and the loop give the specified bytes or the format error |
| `Totp.ReadDigits` | dotnet-backend/Infrastructure/Security.cs:117-128 | the loop collects eight bits at a time |
| `LoginLimiter.CleanupIsUnobservableExactly` | dotnet-backend/Infrastructure/RateLimiting.cs:58-75 | with a monotone clock the cleaning limiter answers like one that never cleans on every run if and only if no time passes between the two clock readings of a call |
| `LoginLimiter.RunsAlike` | dotnet-backend/Infrastructure/RateLimiting.cs:14-75 | with one reading per call, two limiters in corresponding states answer alike on every run, one cleaning and one not |
| `LoginLimiter.LateEntryIsNoticed` | dotnet-backend/Infrastructure/RateLimiting.cs:77-82 | a run of seven calls, one of them a tick late, on which the two limiters differ |
| `LoginLimiter.FifthFailureRefusesTheKey` | dotnet-backend/Infrastructure/RateLimiting.cs:14-54 | with one login at a time per key, the fifth failure in a window refuses the key for the full fifteen minutes, whatever happens to other keys, and the next attempt is accepted with an empty window |
| `LoginLimiter.NineFailuresLock` | dotnet-backend/Infrastructure/RateLimiting.cs:38-54 | in every run, nine failures of one key within a minute without a success lock it |
| `LoginLimiter.EightFailuresAreTheMost` | dotnet-backend/Infrastructure/RateLimiting.cs:38-54 | some run from the start has n failures of a key within a minute, no success between them and no lock, if and only if n is at most eight |
| `LoginLimiter.FiveFailuresLockExactly` | dotnet-backend/Infrastructure/RateLimiting.cs:38-54 | in every run from the start, when a failure is the first of its window and three more follow, with other calls and removals in between, none of them locks and the fifth does if and only if it falls in the window of the first |
| `LoginLimiter.RefusedExactly` | dotnet-backend/Infrastructure/RateLimiting.cs:14-36 | an attempt is refused, with the time that is left, if and only if its key is locked |
| `LoginLimiter.OtherKeysStay` | dotnet-backend/Infrastructure/RateLimiting.cs:14-75 | a call changes no entry of another key, except that expired ones may be removed |
| `LoginLimiter.SuccessStartsOver` | dotnet-backend/Infrastructure/RateLimiting.cs:56 | after a success and any calls for other keys, the next attempt is accepted with an empty window and the next failure is the first of its window |
| `LoginLimiter.LoginRateLimiter.constructor` | dotnet-backend/Infrastructure/RateLimiting.cs:10-12 | a limiter starts without entries |
| `LoginLimiter.LoginRateLimiter.TryAcquire` | dotnet-backend/Infrastructure/RateLimiting.cs:14-36 | answer and new state as specified |
| `LoginLimiter.LoginRateLimiter.RegisterFailure` | dotnet-backend/Infrastructure/RateLimiting.cs:38-54 | new state as specified |
| `LoginLimiter.LoginRateLimiter.RegisterSuccess` | dotnet-backend/Infrastructure/RateLimiting.cs:56 | removes the key |
| `LoginLimiter.LoginRateLimiter.CleanupExpired` | dotnet-backend/Infrastructure/RateLimiting.cs:58-75 | the loop removes exactly the expired entries, at most once a minute |
| `Gateway.RunKeeps` | dotnet-backend/Infrastructure/NodeGateway.cs:140-203 | under every interleaving pending ids belong to unanswered, unreturned requests and answers come from what was taken |
| `Gateway.NothingFinishedIsPending` | dotnet-backend/Infrastructure/NodeGateway.cs:167 | no returned request stays pending, and when all have returned the table is empty |
| `Gateway.ResponseIsFinal` | dotnet-backend/Infrastructure/NodeGateway.cs:140-168 | a request completes at most once |
| `Gateway.LateRepliesChangeNothing` | dotnet-backend/Infrastructure/NodeGateway.cs:191-203 | a reply for a returned, already answered or unknown request changes nothing |
| `Gateway.AnswersBearTheirId` | dotnet-backend/Infrastructure/NodeGateway.cs:191-203 | a request is answered only with a reply that arrived under its own id |
| `Gateway.RepliesReachTheirCaller` | dotnet-backend/Infrastructure/NodeGateway.cs:140-168 | after every run, a reply that is taken for a pending request whose caller waits is returned to this caller |
| `Gateway.EarlyRepliesReachTheirCaller` | dotnet-backend/Infrastructure/NodeGateway.cs:148-157 | so is a reply that arrives while the command is still being sent |
| `Gateway.OutcomesHaveTheirCause` | dotnet-backend/Infrastructure/NodeGateway.cs:153-168 | in every run an answered request had a reply delivered, one that timed out was expired or its sending canceled, and one that failed with a message had this error when it was sent |
| `Gateway.EveryRequestCanReturn` | dotnet-backend/Infrastructure/NodeGateway.cs:153-168 | from every reachable state every request can return within four steps of its own, without any reply |
| `Gateway.AtomicTeardownSparesNewest` | dotnet-backend/Infrastructure/NodeGateway.cs:84-124 | with check and removal as one step, no run loses the newest session before its own teardown |
| `Gateway.SplitRemovalSparesNewestExactly` | dotnet-backend/Infrastructure/NodeGateway.cs:117-119 | as two steps, a removal spares the newest session if and only if the node has not connected again since the check |
| `Gateway.SplitTeardownSparesNewest` | dotnet-backend/Infrastructure/NodeGateway.cs:117-119 | runs in which every removal meets that condition never lose the newest session |
| `Gateway.ReconnectDuringTeardown` | dotnet-backend/Infrastructure/NodeGateway.cs:86-119 | a run of four steps that loses it |
| `Routes.PathIsSelectionExactly` | go-gost/x/chain/router.go:198-209 | the path of a built route is the selected nodes in hop order up to the first hop that selects nothing if no two of them multiplex over one transport, and otherwise the recursion never ends |
| `Routes.BuildIsClean` | go-gost/x/chain/chain.go:92-112 | while transports are distinct, every inner route leads to an older one and the current route's path is the nodes so far |
| `RouteReuse.LaterCallReroutes` | go-gost/x/chain/transport.go:102-106 | after a later call, an earlier route whose last transport shared with that call is its i-th and the call's j-th leads along the call's first j nodes and then its own from the i-th on |
| `RouteReuse.EarlierPathStaysExactly` | go-gost/x/chain/transport.go:102-106 | so it keeps its path if and only if it shares no transport or the two beginnings are the same |
| `RouteReuse.SharedExitReroutes` | go-gost/x/chain/transport.go:102-106 | two calls that end in one multiplexing transport: the route of the first then starts with the node only the second selected |
| `RouteReuse.RepeatedCallKeepsPath` | go-gost/x/chain/chain.go:92-112 | repeating the very same call keeps the path of the first |
| `RouteReuse.EarlierPathStays` | go-gost/x/chain/transport.go:102-106 | a route keeps its path under any later call that multiplexes over none of its transports |
| `Routes.Network.constructor` | go-gost/x/chain/route.go:112-124 | a network starts without routes |
| `Routes.Network.AddNode` | go-gost/x/chain/chain.go:102-110 | the body of the loop, writing to the shared transport |
| `Routes.Network.Route` | go-gost/x/chain/chain.go:82-113 | the loop builds the specified routes, or returns nothing for a chain without hops |
| `Selector.FallbackIsUnreachable` | go-gost/x/selector/weighted.go:38-46 | every draw selects an item inside the loop, whatever the weights |
| `Selector.DrawsMatchWeightsExactly` | go-gost/x/selector/weighted.go:31-47 | every item is selected by exactly as many draws as its weight if and only if no weight is negative |
| `Selector.EveryCandidateIsDrawn` | go-gost/x/selector/strategy.go:50-71 | every candidate is selected by as many draws as its label, at least one |
| `Selector.RandomWeighted.constructor` | go-gost/x/selector/weighted.go:19-23 | starts empty |
| `Selector.RandomWeighted.Add` | go-gost/x/selector/weighted.go:25-29 | appends the item and keeps the sum |
| `Selector.RandomWeighted.Reset` | go-gost/x/selector/weighted.go:49-52 | empties the list, and the sum becomes zero |
| `Selector.RandomWeighted.Next` | go-gost/x/selector/weighted.go:31-47 | the subtracting loop selects the first item whose cumulated weight exceeds the draw |
| `Selector.ApplyRandom` | go-gost/x/selector/strategy.go:50-71 | the rebuilt list selects the candidate the draw falls on |
| `Selector.RoundRobinIsFairExactly` | go-gost/x/selector/strategy.go:28-35 | over any k times n consecutive calls on n items every item is chosen exactly k times if and only if the counter does not wrap, its period is a multiple of n, or it wraps once, at the end of a round |
| `Selector.WrapIsUnfair` | go-gost/x/selector/strategy.go:33-34 | with three items, every round in which the counter wraps is unfair |
| `Selector.RoundRobin.constructor` | go-gost/x/selector/strategy.go:18-26 | the counter starts at zero |
| `Selector.RoundRobin.Apply` | go-gost/x/selector/strategy.go:28-35 | takes the turn of the counter and advances it, or nothing on an empty list |

## Left out

- SQL, MySQL transactions and the schema: tables are maps and every panel request is one atomic step, so interleavings of two panel requests are not modelled.
- HTTP routing, JSON, WebSocket framing, AES, HMAC, password hashing and TOTP code comparison: library code around the modelled logic.
- Parsing of services, chains and limiters on the agent: an oracle says for each configuration whether it parses. Closing of instances that were parsed but never registered is not modelled.
- The running services themselves: an instance is a number that serves or does not.
- Restarts of a service between its reports: a new instance counts from zero, and the bytes its predecessor had not reported are outside the runs of `Reporting` and `Accounting`.
- Agreement between the panel's status column and the services that run on the agents: the code does not maintain it.
- Undelivered commands during creation, compensation and replay: every command reaches its node; a node outside the fleet is offline. The panel machine itself lets every node command fail.
- The 3x-ui lookup that may replace name and target when a forward is created.
- RemovalRuns.DeletionLeavesNothingExactly: assumes that no command in between registers or drops a name of the forward itself; Removal.DeletionClearsExactly says what deletion leaves on nodes in any other state, SyncedRemoval.SyncThenDeleteExactly what it leaves after a synchronisation.
- Deletion with the force flag, which skips the nodes: it is the table step alone.
- Columns that take no part in ports, quotas or ledgers are left out of the panel's tables: per-user counts and expiry dates, time stamps. Addresses, protocols, passwords, speed limits, strategies and secrets are parameters of provisioning. A ratio is a number of tenths, as the column type has it.
- The tuning entries in the metadata of relay services and chains (multiplexing, delay, binding, keep-alive, datagram size).
- SyncedWiring.SyncedIsWired: assumes that the forward's names were listed just where they were registered; AgentReplay.PutStoresExactly says when a single entry is stored without it.
- Overflow of 64-bit counters, ledgers and weight sums; the saturation of byte limits is modelled.
- Cutting the open connections of a paused port, and the waiting time before a resumed service is parsed.
- Telegram notices and threshold warnings.
- The observer events next to traffic reports, except that a failed one makes later ticks resend it instead of reporting.
- Upper-casing of secrets outside ASCII, and culture-dependent signs when numbers are parsed.
- Concurrent calls of the login limiter: every call is one step. Its entries are values in the dictionary.
- The random sources: a draw, a Guid and a secret's bytes are parameters. Guids are fresh.
- The node status column and broadcasts around session changes.
- Routes.PathIsSelectionExactly: assumes that transports which do not multiplex were configured without an inner route.
- Chain groups, hop selection and dialing along a route.
- The first-in-first-out and hash strategies, and the fail filter: one expression each.
- `go-gost/x/api/config_*.go`, the HTTP forms of the same table updates, and the React front end.
