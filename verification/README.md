# NAMIB MUD controller: a verified model

The controller learns devices from DHCP leases, fetches and caches their manufacturer usage
descriptions (RFC 8520), compiles them to firewall rules and serves versioned configurations to
polling enforcers. This project models that logic in Dafny and proves what it promises: over every
input, over every run of operations, and over every interleaving of writers and polls.

`dafny verify dfyconfig.toml` checks the whole project.

| file | what it models |
|---|---|
| `Distribution.dfy` | the polling protocol as interleaved steps, its convergence and its progress |
| `Writers.dfy` | every operation as a path of protocol steps, and which of them are disciplined |
| `Divergence.dfy` | what each breach of the discipline does to an enforcer, with runs from empty tables |
| `Controller.dfy` | every operation on the tables as a function, and the theorems about runs of them |
| `Polling.dfy` | what a polling enforcer is given |
| `Announcements.dfy` | which operations change the configuration without changing the version |
| `Database.dfy` | the tables as an object with an invariant, whose methods update them in place, each proved to be its operation |
| `MudCache.dfy` | the profile cache: expiry, stale fallback, overrides, the refresh job |
| `DeviceTable.dfy` | the device table under DHCP leases |
| `Firewall.dfy` | merging of ACLs, the rule compiler, first-match packet semantics |
| `MudJson.dfy`, `MudParser.dfy` | decoded MUD files and the policy parser with its loops |
| `Pipeline.dfy` | parser and compiler together |
| `Fetch.dfy` | the streaming decode loop over a fixed buffer |
| `ConfigVersion.dfy`, `Decimal.dfy` | the version kept as text and bumped as a wrapping u64; decimal text |
| `CertCache.dfy` | the certificate cache under its lock, with concurrent resolvers and updaters |
| `Roles.dfy` | comma-joined roles and permissions |
| `Models.dfy`, `Prelude.dfy` | shared records and small datatypes |

Conventions. Time is an integer number of nanoseconds. Clock readings, fetch results, room lookups
and the order of a listing are parameters (`Visit`, `Trip`, `Visits`, `trips`), so the theorems hold
for all of them. What foreign libraries decide about text (is this a URL, which address does this
spell) is a function parameter. Database errors are not modelled, a stored profile is its parsed
value, and tables start empty.

Some statements turned out to need a condition, or to be false, and are proved in exact form:

- Convergence needs four things of the code that it does not always do: an operation that wrote must
  reach its bump, no read may refresh a stored profile, the bump must be atomic, and nobody may set or
  delete the version row through the configuration routes. `Writers.DisciplinedIff` says, by guards on
  the inputs and the tables, exactly which operations keep to this. One breach is unexpected: creating
  a device loads it again after the bump, for the reply, and that load may refresh its profile.
  `Divergence.CreationDivergesIff` says exactly when an enforcer that polls in between diverges.
- `Announcements.UnannouncedIff` says exactly when a single operation changes the configuration and not
  the version: a lease that cannot load its device and takes an address some row holds, a read that
  refetches an expired profile in force with other rules, and, from 2060 on, a refresh job that does so
  and then meets an expired custom name. `Divergence.OperationDivergesIff` carries this over to enforcers
  in every reachable state of the protocol.
- Bumps read and write the version in two statements
  (`src/services/firewall_configuration_service.rs:133-136`). `Divergence.SplitBumpDivergesIff` shows
  three overlapping deletions that take the version back.
- `MAX_LEN` is documented as the maximum response body size, but a chunk is compared with it together
  with the decoded bytes already pushed, and without those still in the buffer. `Fetch.FetchMud` says
  what is accepted, chunk by chunk, and bounds the body by the limit plus one buffer for decoders that
  never shrink; `Fetch.FetchBeyondLimit` is an accepted body above the limit, in two chunks. For one chunk
  the limit is exact. The decoded result has no such limit: `Fetch.FetchEuros` is a fetch whose result is
  almost three times as long, and `Fetch.ResultLimitHoldsIff` says for which body sizes that cannot happen.
- The rules forget ports and protocol numbers. Nothing accepted in detail is lost if no denial narrows
  them (`Firewall.ExactDenialsComplete`), nothing more is accepted if no acceptance narrows them
  (`Firewall.ExactAcceptancesSound`), and an entry that does narrow them is never safe in its direction
  (`Firewall.DenialSafeIff`, `Firewall.AcceptanceSafeIff`).
- A role listing rebuilds a user's roles if and only if no role name holds a comma
  (`Roles.RolesRebuiltIff`); only permission names are checked for commas.
- Version texts repeat after 2^64 bumps, and exactly then (`ConfigVersion.VersionTextsRepeatIff`).

## Model

| member | source | states |
|---|---|---|
| `Distribution.Convergence` | src/rpc_server.rs:43-66 | in every disciplined interleaving with fewer than 2^64 bumps, whenever no writer is between write and bump, an enforcer holding the current version holds exactly the configuration compiled from the current tables; configuration rows other than the version are free |
| `Distribution.StepKeepsInv` | src/rpc_server.rs:43-66 | every disciplined step keeps the protocol invariant: a poll or enforcer whose version is current and undisturbed holds what the tables hold |
| `Distribution.CompletePoll` | src/rpc_server.rs:51-62 | a poll that loaded its whole list while nothing changed has gathered exactly the current snapshot |
| `Distribution.AnsweredPollCatchesUp` | src/rpc_server.rs:43-66 | after every disciplined run, a poll begun while no writer is half way and answered before the next write leaves its enforcer with the current version and exactly the current configuration, whatever other polls do meanwhile |
| `Distribution.EveryoneCatchesUp` | src/rpc_server.rs:43-66 | after every disciplined run with no writer half way, every enforcer is in step, or a poll of it can be run to the end and brings it in step |
| `Distribution.PollLeads` | src/rpc_server.rs:43-66 | a poll that is not interrupted goes through from every sound state and serves exactly the current snapshot |
| `Writers.OperationIsPath` | src/services/device_service.rs:15-203 | every operation (lease, device and MUD routes, lookup, job, configuration routes) is a path of protocol steps in the code's order, ending in exactly the tables of the sequential operation with nothing else disturbed |
| `Writers.LeaseIsPath` | src/services/device_service.rs:15-40 | for a lease the steps are: clear each address, store the profile if it was fetched, then store the device and bump, or give up |
| `Writers.DisciplinedIff` | src/routes/device_controller.rs:58-79 | an operation keeps to the discipline if and only if it is not a lease that cannot load its device, a read that replaces a stored profile, a creation whose second load does so, a job that meets an expired name that is no https URL, or a write to the version row |
| `Writers.CarefulRunConverges` | src/services/firewall_configuration_service.rs:126-143 | after any disciplined run and any run of careful operations, an up-to-date enforcer holds the configuration of the operations' own tables |
| `Divergence.OperationDivergesIff` | src/services/device_service.rs:34-36 | from every reachable state with the enforcer in step, an operation that runs without interruption leaves it diverged if and only if the guard of the quiet operations holds of its inputs and the tables |
| `Divergence.QuietRunDiverges` | src/rpc_server.rs:43-66 | every quiet operation after every run from empty tables makes an enforcer diverge that polled before it |
| `Divergence.FailedLeaseDiverges` | src/services/device_service.rs:30-36 | a run from empty tables: a lease that fails after clearing an address leaves the enforcer diverged |
| `Divergence.QuietReadDiverges` | src/services/mud_service/mod.rs:129-148 | a run from empty tables: a read that refetches an expired profile leaves the enforcer diverged |
| `Divergence.QuietJobDiverges` | src/services/mud_service/mod.rs:176-198 | a run from empty tables: a refresh job that an expired custom name stops after it refreshed a profile leaves the enforcer diverged |
| `Divergence.CreationDivergesIff` | src/routes/device_controller.rs:73-78 | from every reachable state, an enforcer that polls between the bump of a creation and its second load ends diverged if and only if that load stores other rules for the profile the first load left, and some device with an address, new or old, uses it |
| `Divergence.CreationDiverges` | src/routes/device_controller.rs:73-78 | a run from empty tables: the first load of a creation falls back to the stale profile, the second refetches it, and the enforcer that polled in between is left diverged |
| `Divergence.ResetDivergesIff` | src/routes/config_controller.rs:51-69 | setting the version row back after a deletion leaves an enforcer in step diverged if and only if the device was there and had an address |
| `Divergence.EraseDiverges` | src/routes/config_controller.rs:71-86 | a run from empty tables: deleting the version row makes it read "0" again and leaves an enforcer diverged |
| `Divergence.SplitBumpDivergesIff` | src/services/firewall_configuration_service.rs:132-143 | from every reachable state with no writer half way, three overlapping deletions whose bumps read and write in two steps take the version back, and an enforcer served in between, new or served before, ends diverged if and only if the third device was still there and had an address; it must not already hold the next version, which no enforcer in step does |
| `Announcements.UnannouncedIff` | src/services/device_service.rs:15-203 | an operation changes the configuration and not the version text if and only if it is a lease whose load fails and whose device's address a row holds, a read that stores other rules for a profile of an addressed device, or a job that does so before it meets a stuck name |
| `Announcements.SnapshotsDifferIff` | src/services/firewall_configuration_service.rs:30-37 | two tables compile to different configurations if and only if the entry of some device differs |
| `Announcements.ReadChangesIff` | src/services/mud_service/mod.rs:98-148 | a lookup changes the configuration if and only if the profile is stored, expired, https, refetched with other rules under the kept override, and used by a device with an address |
| `Announcements.JobsAnnounceBefore2060` | src/services/mud_service/mod.rs:176-198 | before 2060 no refresh job changes the configuration without the version |
| `Announcements.FailedLeaseHappens` | src/services/device_service.rs:30-36 | a concrete run after which a failing lease changes the configuration and not the version |
| `Announcements.QuietReadHappens` | src/services/mud_service/mod.rs:129-148 | a concrete run after which a read changes the configuration and not the version |
| `Announcements.QuietJobHappens` | src/services/mud_service/mod.rs:176-198 | a concrete run after which a job in 2060 changes the configuration and not the version |
| `Controller.ReferentialIntegrity` | src/models/device_model.rs:92-106 | after every run of leases, device routes, MUD routes, configuration routes, lookups and jobs, every device's MUD URL names a stored row, and rows agree with their profiles |
| `Controller.TotalLookup` | src/services/mud_service/mod.rs:98-174 | after every run, before 2060-01-31, a stored key loads whatever the fetch and the parse give |
| `Controller.DevicesAlwaysLoad` | src/models/device_model.rs:92-106 | after every run every stored device whose room exists loads |
| `Polling.HeartbeatServes` | src/rpc_server.rs:43-66 | every reply on valid tables before 2060 with rooms in place, expired profiles included: nothing if and only if the version is current; otherwise the current version and one entry for exactly the addressed rows in the order of their ids, each compiled from the profile its load returned |
| `Polling.HeartbeatNeverFallsBack` | src/rpc_server.rs:54-58 | after every run, before 2060 and with rooms in place, the reply to an out-of-date enforcer has an entry for every device with an address and for no other |
| `Polling.HeartbeatExact` | src/rpc_server.rs:43-66 | while the used profiles are fresh, an out-of-date enforcer gets the current version with exactly the current configuration, and nothing is written |
| `Controller.RunKeepsUnique` | src/services/device_service.rs:15-109 | over every run of the controller without the device create and update routes, no two devices share an address or a MAC |
| `Controller.LeaseStores` | src/services/device_service.rs:15-40 | a successful lease leaves its device in the row it matches or in a new one, which collects data if and only if the lease has no MUD URL and the setting says "true" |
| `Controller.CreatedDevice` | src/routes/dtos/device_dto.rs:74-95 | the create route stores one row with every field from the request and touches no other, if and only if the clipart is short enough, a given MAC is readable, and room and profile load; otherwise nothing |
| `Controller.UpdatedDevice` | src/routes/dtos/device_dto.rs:97-131 | the update route replaces exactly the given fields of that one row, if it is there and loads; otherwise nothing |
| `Controller.UpdatedMud` | src/routes/mud_controller.rs:60-88 | an update stores the given overrides, or none, in that row, touches nothing else of the table, and bumps |
| `Controller.CreatedMud` | src/routes/mud_controller.rs:121-159 | a name that is no URL gets an empty profile with the given overrides until 2060; a taken key and a URL that is not https are refused; no other row is touched |
| `Controller.RefreshedProfiles` | src/services/mud_service/mod.rs:176-198 | before 2060 a job succeeds, looks up exactly the listed profiles that had expired, each as if alone, leaves every other row alone, and bumps once if there was any |
| `Controller.StoredKeys` | src/services/mud_service/mod.rs:98-174 | after every run each stored key is a URL that begins with "https://", or no URL with the 2060 expiration |
| `Controller.StepKeepsInv` | src/routes/mud_controller.rs:60-159 | every operation keeps table validity, references, the key discipline and row agreement |
| `Controller.LoadRefsFacts` | src/models/device_model.rs:92-106 | a successful load leaves the device's MUD row behind, a failed one writes nothing |
| `Database.Pool.HandleAll` | src/services/device_service.rs:15-203 | any sequence of calls on the object, failed ones included, ends in the tables of the sequential run, keeps every reference, and leaves every stored profile loadable before 2060 |
| `Database.Pool.Handle` | src/routes/mud_controller.rs:60-159 | any one call does what its operation says and keeps the object's invariant |
| `Database.Pool.GetOrFetchMud` | src/services/mud_service/mod.rs:98-148 | result and table are those of the lookup function on every branch; a key that does not begin with "https://" leaves the table alone and fails when it is not stored; on a valid database a stored key loads before 2060, and a failed fetch or parse returns the stale profile and leaves the table alone |
| `Database.Pool.UpdateMudUrls` | src/services/mud_service/mod.rs:191-198 | the loop stops at the first failure, with the table and outcome of the refresh function |
| `Database.Pool.UpdateOutdatedProfiles` | src/services/mud_service/mod.rs:176-189 | selects the outdated profiles, and moves the version once, only after all lookups succeeded; keeps the invariant |
| `Database.Pool.CreateMudProfile` | src/routes/mud_controller.rs:121-159 | conflict, fetched profile, or custom profile expiring in 2060; keeps the invariant |
| `Database.Pool.DeleteMudProfile` | src/routes/mud_controller.rs:91-118 | refuses unknown and used profiles, the latter found by a search of the devices, and so keeps every reference |
| `Database.Pool.FirstRow` | src/services/device_service.rs:87-109 | the search returns the lowest id whose row satisfies the condition, and finds one if there is one |
| `Database.Pool.FindByMacOrDuid` | src/services/device_service.rs:87-109 | the lowest id with the MAC, else the lowest id with the DUID, and none only if no row has either |
| `Database.Pool.UpsertDeviceFromDhcpLease` | src/services/device_service.rs:15-40 | the whole new tables of a lease, found or new, loading or failing; keeps the invariant |
| `Database.Pool.LoadDeviceRefs` | src/models/device_model.rs:92-106 | room first, then the profile, failure at either; on a valid database every stored device with its room loads before 2060 |
| `Database.Pool.CreateDeviceFromDto` | src/routes/device_controller.rs:58-79 | the whole new tables, including the second load for the reply; keeps the invariant |
| `Database.Pool.UpdateDeviceFromDto` | src/routes/device_controller.rs:82-124 | the whole new tables; keeps the invariant |
| `Database.Pool.Heartbeat` | src/rpc_server.rs:43-66 | nothing for the current version, else the loop's configuration, with the empty fallback on a failed load; keeps the invariant |
| `Database.Pool.ClearAddresses` | src/services/device_service.rs:42-56 | the two updates clear exactly the rows holding either address |
| `Database.Pool.UpdateConfigVersion` | src/services/firewall_configuration_service.rs:132-143 | the config row holds the wrapped successor of the stored number, or of zero |
| `MudCache.LookupKeeps` | src/services/mud_service/mod.rs:98-148 | a lookup never drops a row, never alters an override or another row, and keeps the key discipline |
| `MudCache.StoredLookupFailsIff` | src/services/mud_service/mod.rs:98-128 | a stored key fails to load if and only if it has expired and is no https URL |
| `MudCache.OnlyHttpsIsFetched` | src/services/mud_service/mod.rs:101-114 | the network is asked exactly for URLs that begin with "https://" and have no fresh row; any other key leaves the table alone and fails when it is not stored |
| `MudCache.UnknownUrlLoadsIff` | src/services/mud_service/mod.rs:112-148 | an https URL that is not stored loads if and only if what is fetched is a well-formed MUD file, and otherwise the cause is reported |
| `MudCache.FetchedRowExpiry` | src/services/mud_service/mod.rs:134-144 | every row a lookup writes expires 1 to 168 hours after it was parsed |
| `MudCache.JobRefetches` | src/services/mud_service/mod.rs:176-198 | the job asks the network for every URL it selects, never fails before 2060, and if all fetches parse leaves no row that expires before its start |
| `MudCache.RefreshRows` | src/services/mud_service/mod.rs:191-198 | the job stops exactly at the first expired name that is no https URL; each URL before it ends as if refreshed alone, and every other row is untouched |
| `MudCache.OverridesSurvive` | src/services/mud_service/mod.rs:129-132 | over any run of lookups and jobs every override is unchanged and rows agree with their profiles |
| `DeviceTable.DevicesStayUnique` | src/services/device_service.rs:15-109 | over every run of leases, failing ones included, and deletions no two rows share an IPv4 address, an IPv6 address or a MAC |
| `DeviceTable.LeaseIdempotent` | src/services/device_service.rs:15-40 | repeating a successful lease with a MAC or DUID leaves the device table unchanged |
| `DeviceTable.SecondLeaseFindsTarget` | src/services/device_service.rs:87-109 | the lookup of a repeated lease finds the row the first one wrote |
| `DeviceTable.LeaseFrame` | src/services/device_service.rs:42-56 | other rows change only by losing an address the lease's device has |
| `DeviceTable.LeaseRow` | src/models/device_model.rs:132-187 | the row a lease leaves: the lease's address, and MAC, DUID and hostname where it carries them, the MUD URL only if none was set, everything else kept; or a new row made from the lease alone when no row has its MAC or else its DUID |
| `DeviceTable.MudUrlFixed` | src/models/device_model.rs:184-186 | no run of leases changes a MUD URL once set |
| `DeviceTable.Lowest` | src/services/device_service.rs:87-109 | the lowest id that satisfies the condition, if any does |
| `Firewall.CompilerCorrect` | src/services/firewall_configuration_service.rs:39-124 | first-match over the compiled rules decides exactly the packets with an end on the device: by the first covering DNS-named entry of the profile's lists that no override names, or else of the overrides, accepting if and only if that entry accepts, and rejects where none covers |
| `Firewall.EffectiveLayout` | src/services/firewall_configuration_service.rs:55-59 | the lists that take part are exactly the profile's lists that no override names, in their order, followed by every override |
| `Firewall.AcceptOnlyComplete` | src/services/firewall_configuration_service.rs:61-100 | with only accepting entries, what an entry accepts under a reading that also checks protocol numbers and ports is accepted |
| `Firewall.ExactDenialsComplete` | src/services/firewall_configuration_service.rs:61-100 | if no denial narrows ports or the protocol number, every packet that first-match over the entries in full detail accepts is accepted by the rules |
| `Firewall.ExactAcceptancesSound` | src/services/firewall_configuration_service.rs:61-100 | if no acceptance narrows ports or the protocol number, the rules accept no packet that first-match over the entries in full detail does not |
| `Firewall.ExactProfileAgrees` | src/services/firewall_configuration_service.rs:61-100 | if no DNS-named entry narrows them, both accept the same packets |
| `Firewall.DenialSafeIff` | src/services/firewall_configuration_service.rs:61-100 | a denial may precede any entry without losing packets accepted in full detail if and only if it leaves every protocol number and every 16-bit port in |
| `Firewall.AcceptanceSafeIff` | src/services/firewall_configuration_service.rs:61-100 | an accepting entry lets through only what it says if and only if it leaves every protocol number and every 16-bit port in |
| `Firewall.ConvertDeviceToFwRules` | src/services/firewall_configuration_service.rs:39-124 | the method gives the device's compiled configuration, the shortcut for empty overrides included |
| `Firewall.PushAclRules` | src/services/firewall_configuration_service.rs:61-100 | the loops push one rule per DNS-named entry, numbered by entry |
| `Firewall.PushAceRules` | src/services/firewall_configuration_service.rs:62-99 | the inner loop appends one list's rules and advances the number by its length |
| `Firewall.RuleNamesDistinct` | src/services/firewall_configuration_service.rs:63-115 | no two rules of a device share a name |
| `Firewall.ConfigurationsLayout` | src/services/firewall_configuration_service.rs:30-46 | one entry for exactly the devices with an address, in order, with the device's id, addresses and collect flag, the rules of its profile, and no rules without one |
| `Firewall.MergeLayout` | src/services/firewall_configuration_service.rs:21-28 | the originals not overridden, in order, then all overrides |
| `Firewall.MergePerName` | src/services/firewall_configuration_service.rs:21-28 | per name the override's lists replace the original's |
| `Firewall.MergeAssociative` | src/services/firewall_configuration_service.rs:21-28 | merging is associative |
| `Firewall.MergeIdentity` | src/services/firewall_configuration_service.rs:55-59 | the empty list is a unit, so the shortcut equals the general path |
| `Firewall.MergeIdempotent` | src/services/firewall_configuration_service.rs:21-28 | applying an override twice is applying it once |
| `MudParser.ParseMud` | src/services/mud_service/parser.rs:17-79 | the parser's outcome is the first problem in reading order, or the profile |
| `MudParser.ParseDevicePolicy` | src/services/mud_service/parser.rs:82-194 | appends every reference resolved, or reports the first problem |
| `MudParser.ParseReference` | src/services/mud_service/parser.rs:88-191 | the search loop finds the first ACL of the name, or reports a dangling reference |
| `MudParser.ParseAce` | src/services/mud_service/parser.rs:98-173 | reports the first problem, or gives an entry that says what the entry of the file says: accept if and only if forwarding is "accept", the destination's DNS name before the source's and IPv6 before IPv4, the protocol number or else the transport, ports and direction |
| `MudParser.ParseSucceedsIff` | src/services/mud_service/parser.rs:17-194 | parsing succeeds if and only if the version is 1, the validity is in range, every referenced name exists, and no first-named referenced ACL has a family clash or a bad TCP direction |
| `MudParser.ParseReports` | src/services/mud_service/parser.rs:20-34 | a bad version is reported before a bad validity, and both before the lists; a dangling reference is reported only if there is one |
| `MudParser.ParsedLists` | src/services/mud_service/parser.rs:47-59 | the lists are the from-policy references then the to-policy references, in order, each its first match, and every entry says, field by field, what the entry of the file says |
| `MudParser.IrrelevantAclIgnored` | src/services/mud_service/parser.rs:88-184 | unreferenced ACLs and later duplicates never affect the outcome |
| `MudParser.ParsedExpiry` | src/services/mud_service/parser.rs:27-34 | a profile expires 1 to 168 hours after parsing and starts without overrides |
| `MudParser.ParsedHeader` | src/services/mud_service/parser.rs:27-74 | a profile expires by the file's own cache validity, after 48 hours where it has none; the MASA server counts only with the extension; all other fields are the file's |
| `MudParser.NamedEntriesHaveNoTransport` | src/services/mud_service/parser.rs:105-153 | an entry with a DNS name carries no Tcp or Udp marker |
| `Pipeline.ParsedRulesAllProtocols` | src/services/mud_service/parser.rs:105-153 | every rule compiled from a parsed file without overrides is for all protocols |
| `Pipeline.ParsedProfileIgnoresTransport` | src/services/mud_service/parser.rs:105-153 | so packets with the same ends get the same verdict |
| `Pipeline.FileDecides` | src/services/mud_service/parser.rs:82-194 | the rules compiled from a parsed file accept a packet if and only if the first entry of the file to cover it, reference by reference, says "accept" |
| `Fetch.FetchMud` | src/services/mud_service/fetch.rs:55-102 | for every chunking and decoder, success gives the one-shot decoding of the concatenated chunks, bounded by the expansion times MAX_LEN plus a buffer, and for decoders that never shrink a body below MAX_LEN plus a buffer; chunks that stay below the limit with what is decoded before them, or come while all of that waits in the buffer, are accepted, accepted ones stay below it plus a buffer, and a single chunk is accepted if and only if it decodes and is below the limit |
| `Fetch.FetchChunks` | src/services/mud_service/fetch.rs:55-102 | the nested loops together: the decoding, the refusals and both bounds on the chunks |
| `Fetch.ReadChunk` | src/services/mud_service/fetch.rs:63-85 | one chunk: the length check sees what is pushed and not what waits in the buffer, and a chunk that passes is decoded |
| `Fetch.DecodeChunk` | src/services/mud_service/fetch.rs:65-85 | the inner loop terminates and adds exactly the chunk's decoding, failing exactly on malformed input |
| `Fetch.Finish` | src/services/mud_service/fetch.rs:87-101 | the last loop terminates and adds exactly what the decoder held back |
| `Fetch.SmallBodyWithinLimit` | src/services/mud_service/fetch.rs:64 | a body that cannot decode to the limit is within it in every chunking, and so is its result |
| `Fetch.FetchWindows1252` | src/services/mud_service/fetch.rs:55-102 | with a windows-1252 decoder an unmarked body in one chunk is accepted if and only if it, not its decoding, is below the limit |
| `Fetch.FetchInTwo` | src/services/mud_service/fetch.rs:63-64 | in two chunks, the first of which fits into the buffer, an unmarked body is accepted if and only if the second chunk alone is below the limit |
| `Fetch.FetchBeyondLimit` | src/services/mud_service/fetch.rs:21-22 | an accepted body above the maximum response size |
| `Fetch.FetchEuros` | src/services/mud_service/fetch.rs:64 | a fetch that succeeds with a result almost three times the limit |
| `Fetch.ResultLimitHoldsIff` | src/services/mud_service/fetch.rs:64 | the decoded results of accepted one-chunk bodies of a size all stay below the limit if and only if three times the size does, or the size is refused |
| `ConfigVersion.VersionTextsRepeatIff` | src/services/firewall_configuration_service.rs:126-143 | two texts of one run of bumps are equal if and only if a multiple of 2^64 bumps lies between them and the earlier one is canonical |
| `ConfigVersion.VersionTextsDistinct` | src/services/firewall_configuration_service.rs:126-143 | fewer than 2^64 bumps never show a text twice |
| `ConfigVersion.BumpChangesText` | src/services/firewall_configuration_service.rs:126-143 | a bump changes the text whatever was stored |
| `ConfigVersion.BumpWrites` | src/services/firewall_configuration_service.rs:132-143 | a bump writes 1 when no number was stored, and touches no other key |
| `ConfigVersion.BumpOfNumber` | src/services/firewall_configuration_service.rs:132-143 | a bump writes the next number, and zero after the largest |
| `CertCache.CacheCoherent` | src/services/acme_service.rs:85-121 | whenever no updater is between save and clear, what is cached or about to be is what is on disk |
| `CertCache.AnswersAreFresh` | src/services/acme_service.rs:177-181 | no client gets a certificate older than the newest cleared one when its resolver began |
| `CertCache.StepKeepsInv` | src/services/acme_service.rs:85-121 | every step of resolvers and updaters keeps the cache invariant |
| `Roles.PermissionsSurviveIff` | src/services/role_service/service.rs:19-69 | a list survives join and split if and only if it is non-empty and comma-free |
| `Roles.ValidatePermissionNames` | src/services/role_service/service.rs:123-132 | accepts exactly the comma-free lists |
| `Roles.GetRoles` | src/services/user_service.rs:66-83 | the pairs are the ids, read as i64, and the names at the same places, up to the first unreadable id or the end of either side |
| `Roles.RolesRebuiltIff` | src/services/user_service.rs:66-83 | the joined columns give the roles back, decimal ids included, if and only if no name holds a comma |
| `Roles.BulkMatchesSingle` | src/services/user_service.rs:46-131 | the listing's permissions are the single user's without empty ones |

## Left out

- JSON decoding, URL and address text, host name resolution: function parameters.
- Database errors and uniqueness constraints of the schema: operations on the tables always succeed.
- Distribution.Convergence: does not cover runs in which a stored profile is refreshed on a read, a writer gives up after writing, bumps are not atomic, or the version row is written by the configuration routes, because the code does diverge there, as `Divergence.dfy` shows.
- The configuration routes set and delete several keys one after another: each key is an operation of its own.
- Races between deleting a profile and storing a device that uses it: the operations of `Controller.dfy` are sequential, and the protocol checks and writes in one step.
- The lock-protected certificate slot is modelled on values as a state machine, not as an object: aliasing of the shared slot is not captured. Lock poisoning, ordering a certificate and its validity check are not modelled.
- Fetch.FetchWindows1252: does not cover bodies whose first byte could start a byte order mark, because the library may then choose another decoder; nor does `Fetch.FetchInTwo`.
- Character decoders other than windows-1252 are parameters with their contract; which decoder a charset label selects is not modelled.
- Address uniqueness under the device routes, and DUID uniqueness: the code keeps neither.
- DHCP events other than an added or updated lease: the server ignores them (src/rpc_server.rs:73-76).
- Rooms: only whether a device's room is found.
- `DeviceType`, device DTOs of replies, guesses and the calls to the thing-description service: plain copying and I/O.
- HTTP, TLS, DNS-SD and RPC transport, authentication, users and their passwords, logs, enforcer registration: I/O or easy members.
- The `SELECT` order of devices is by id; the roles of a user are given in one order to all three joined columns.
