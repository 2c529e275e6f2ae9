# Service registry: lease protocol, discovery, observer, join token

The registry keeps nodes, leases, services and its own servers' addresses in etcd. Any number of
registry servers act on it at once, each through a few requests per call, while leases expire. This
project models that system and proves what its users rely on.

- **Protocol** (`Etcd`, `Protocol`, `Invariant`, `Steps`, `Runs`, `Indexes`, `Timed`). The store is a map from byte
  strings to versioned entries, with live leases, all leases ever granted, a clock and the history of changes.
  A call in progress is a program counter with its local variables. One action is one request
  of one call, the arrival of a call, a failing request, a lease expiry or the passing of time, and a run is any
  sequence of enabled actions. All statements about runs hold for any number of servers and calls.
  `Witness` builds runs that show what can go wrong.
- **The calls as code** (`Server`, `NodeApi`). `GetNodeLease` with its retry loop, `Register`, `Deregister`, `Reset`,
  `Heartbeat` and `AddNode` are methods on an etcd object. Between any two of their requests anything else may
  happen (`Interference`). Each request is recorded as an action of the run the store is a state of, so the theorems
  about runs are theorems about these methods.
- **Discovery** (`PrefixRange`, `Keys`, `Discover`, `Scopes`, `SharedBuffers`, `Dns`). The text of the keys, the range end for a
  prefix, the four nested searches, the byte buffers the prefixes share, and the DNS labels that lead to a request.
- **Observer** (`Observer`, `Convergence`, `WatchLog`, `ObserverState`, `TargetsFile`). The merge of a snapshot with a
  watch stream into the scrape targets, and the file they are written to.
- **Join token** (`Base64`, `Token`). Its text, and the file that keeps it.

Assumed of the environment, and built into `Etcd` and `Protocol`: transactions and revocations are atomic; lease ids are
fresh; a put with a dead lease fails; the end of a lease deletes its keys; a renewal fails exactly when the lease is
not live; a lease expires no earlier than it is due; a watch delivers the history in order. Callers hand in names,
services and instances without `/` (`CleanActions`). `UnambiguousIffSlashFree` says when keys are unambiguous,
`SecondRegistrationKeepsPair` and `DeregistrationKeepsPair` exactly when a stored pair stays together, and
`SlashesBreakPairs` that names with a `/` break it. `Fail` ends a call early; it never stands for a failed
renewal, after which GetNodeLease goes on to grant a lease.

Where the code does something its readers may not expect, the model follows the code:

- `PrefixEnd` increments the last byte below 0xff but does not cut off what follows, so the range is exact only if
  that byte is the last one (`PrefixEndExact`). Every prefix the registry searches for meets this.
- Discover with an instance formats the address of the variable, not its value; `pointer` stands for that text.
- Discover with a datacenter but no location, or a node but no datacenter, can return services outside the scope it
  names (`ScopesHoldIffHierarchical`).
- DNS names: the node label is read only from five labels, the instance never, and with four or five labels the first
  label has no influence (`LabelsReach`). The class field of a question is compared with the type codes of A and AAAA.
- A service put again without a metrics port keeps its old target (`ConvergesIffNeverDowngrades`). A bulk update
  that comes after later events can bring a deleted target back (`LateBulkResurrects`). A snapshot taken before the
  watch starts, which nothing prevents, can miss a service for as long as it is not put again
  (`EarlySnapshotMissesService`). `AgreesIffUnharmed` is the exact condition, for any order and any history.
- All discovery labels but the instance carry the location.
- Heartbeat answers the same whether or not the lease could be renewed or replaced.
- The first load of a fresh token returns a start time with its nanoseconds, every later load one in whole
  milliseconds (`LoadAgain`).

## Model

| member | source | states |
|---|---|---|
| Steps.NextOk | registry/utils/utils.go:143-229 | Every request of every kind of call, every expiry and every failure keeps the whole invariant (typed entries, paired services, one lease lineage per node with only its last member alive), and only lets revisions, versions, node records and lineages grow |
| Runs.RunInv | registry/utils/utils.go:143-229 | The invariant holds in every state of every run |
| Runs.ReplacedLeasesAreDead | registry/utils/utils.go:160-223 | A lease once stored for a node and stored no longer is dead, in that and every later state |
| Runs.ServicesHangOnStoredLease | registry/agent_api/register.go:77-103 | In every reachable state each service entry of a node is attached to the lease under the node's lease key, and that lease is live |
| Runs.LostLeasesOwnNothing | registry/utils/utils.go:169-228 | A lease granted in a lost compare-and-swap round never owns a key and is never stored, at any later time |
| Runs.WinnerReplacesWhatItSaw | registry/utils/utils.go:153-223 | A swap that wins replaces exactly the lease and version its call read, found dead, and raises the version by one |
| Runs.VersionsOnlyGrow | registry/utils/utils.go:194-223 | Lease keys are never deleted, their versions never fall, and an equal version means an equal lease |
| Runs.OneWinnerPerVersion | registry/utils/utils.go:194-223 | No two swaps win against the same observed version of a node's lease key |
| Runs.LoopCountsWins | registry/utils/utils.go:146-228 | While a call is in GetNodeLease the lineage of its node has grown by exactly the swaps that other calls won since its first read of the lease key, and its rounds are the swaps it has tried |
| Runs.GivingUpMeansContention | registry/utils/utils.go:146-228 | GetNodeLease gives up after exactly five swaps of its own, all lost; since its first read the key's version has grown by at least five and at least five swaps by others have succeeded |
| Runs.ServiceOrigin | registry/agent_api/register.go:82-103 | Every stored service entry is as some Register transaction of the run put it |
| Runs.ResetIsComplete | registry/agent_api/delete.go:76-105 | In every interleaving, once Reset has succeeded every service entry of the node was put by a Register transaction later than Reset's read of the lease key |
| Runs.CallsKeepToTheirNode | registry/agent_api/delete.go:76-105 | Every request of every call changes only entries of its own node, or the address it announces, and renews or ends only leases published for that node: a Reset takes nothing of another node |
| Steps.RequestTouches | registry/agent_api/register.go:82-103 | A request changes no key but the ones its call names: a swap the lease key, Register and Deregister their two keys, AddNode the record, an announcement the address, a revocation what hangs on the lease, all others none |
| Runs.NodeRecordsAreFixed | registry/peer_api/peer_api.go:116-141 | A stored node record is the same in every later state |
| Runs.NodesAreAddedOnce | registry/peer_api/peer_api.go:92-141 | Over a whole run at most one AddNode succeeds for a datacenter and name |
| Indexes.IndexesAgree | registry/agent_api/register.go:51-103 | In every reachable state the svc and dcsvc keys are in bijection, with equal entries whose fields match the key components, at the location of the stored node record |
| Indexes.OneLocation | registry/agent_api/register.go:51-60 | A service instance of a node is never stored at two locations |
| Indexes.DeregisterClears | registry/agent_api/delete.go:23-73 | Deregister removes exactly the entries of that service and instance of the node, under whatever key; every other entry of the store is as before |
| Indexes.SecondRegistrationKeepsPair | registry/agent_api/register.go:51-103 | For any two registrations, slash-free or not, the second leaves the first one's two entries equal if and only if they share both keys or neither |
| Indexes.DeregistrationKeepsPair | registry/agent_api/delete.go:23-60 | For any stored pair and any deregistration, slash-free or not, the pair stays or goes together if and only if the deregistration names both its keys or neither |
| Indexes.SlashesCollide | registry/agent_api/register.go:61-69 | Two registrations with a slash in a component share one key and not the other |
| Indexes.SlashesBreakPairs | registry/agent_api/register.go:51-103 | From any store without them, registering both leaves the first one's two entries different, and deregistering the second leaves one entry of the first without the other |
| Timed.CallSecures | registry/utils/utils.go:153-223 | Every heartbeat or registration that gets its lease got it by renewing the live lease it read, or by winning the swap of a lease granted to it |
| Timed.Younger | registry/utils/utils.go:153-223 | A lease stored after another one was secured was also granted after that |
| Timed.StoredIsFresh | registry/utils/utils.go:160-223 | Once a node's lease has been secured, every live lease stored for the node since, the same or a later one, is due no earlier than a full TTL after that renewal or grant |
| Timed.HeldUntilReset | registry/agent_api/node_api.go:78-94 | While the node's lease has always been secured less than a TTL ago, a held lease stays stored, live and not yet due until a Reset revokes it |
| Timed.RegistrationsLive | registry/agent_api/node_api.go:78-94 | In every run, with any Resets and whatever leases come and go: at a step at which a node's lease was secured less than a TTL ago, the stored lease does not expire, and a service entry of the node disappears only in a Deregister that names it or a Reset that revokes the stored lease |
| Timed.BeatsSecure | registry/agent_api/node_api.go:78-94 | Successive heartbeats less than a TTL apart keep the node's lease secured at every step after the first |
| Timed.ServedPeriodSuffices | node-utils/helpers.go:42-53 | Under the heartbeat loop, at a period of at most half the TTL and with less than a period lost to delays, the stored lease never expires and registrations go only by Deregister or Reset, in every run |
| Server.RenewStored | registry/utils/utils.go:147-167 | First half of a round: a lease comes back exactly if the call goes on with it, and then it is the one stored now; otherwise the call stands before the grant, with what it read |
| Server.SwapIn | registry/utils/utils.go:169-225 | Second half: a lease comes back only if the swap won and it is stored now; otherwise the call stands before its next round or has given up |
| Server.GetNodeLease | registry/utils/utils.go:143-229 | Whatever happens between its requests: the lease returned is stored under the node's key at that moment, an error means five lost swaps, and the call is a part of a run of the protocol |
| Server.AuthenticateAgent | registry/utils/utils.go:75-97 | The record returned is stored, names the caller, and the call goes on with it; there is none only if the call's own request found no record under the caller's key |
| Server.PutIn | registry/agent_api/register.go:82-112 | The put with the lease that the call got succeeds exactly if that lease is still live, and changes the two keys only |
| Server.RegisterService | registry/agent_api/register.go:17-118 | On success both keys, and no others, were put by the latest transaction with the spec the caller asked for, at the location of its stored record, on the node's stored and live lease; it fails only for a caller without a record, after five lost swaps, or because the lease it got was dead when it put exactly that spec |
| Server.DeregisterService | registry/agent_api/delete.go:17-74 | It fails only for a caller without a record; otherwise its last request took exactly the caller's entries of that service and instance out of the store, and none is left |
| Server.ResetLease | registry/agent_api/delete.go:82-104 | Reading and revoking, with anything in between, ends in a completed Reset whose read is no older than the call |
| Server.ResetNode | registry/agent_api/delete.go:76-105 | On success Reset read the lease key after it was called, and no service entry of the caller is older than that read |
| Server.HeartbeatNode | registry/agent_api/node_api.go:78-94 | It answers alike whether the caller's stored lease was renewed or replaced, or five swaps were lost |
| Server.AddNode | registry/peer_api/peer_api.go:92-154 | On success the record asked for is stored and no other entry changed; the error means there is one already, and the request left the store as it was |
| NodeApi.AddressesOnly | registry/agent_api/node_api.go:61-64 | In every reachable store the search for the bare namespace selects all registry addresses and nothing else |
| NodeApi.AnnouncedIsStored | registry/etcd/etcd.go:50-57 | What a server announces is stored under its key, on no lease |
| NodeApi.AddressesStay | registry/etcd/etcd.go:50-57 | A server's stored address changes in no step but its own next announcement |
| NodeApi.Config | registry/agent_api/node_api.go:40-73 | The node is told every registered address once, in key order, and a heartbeat period of fifteen seconds, half the lease TTL |
| PrefixRange.PrefixEnd | registry/utils/utils.go:231-243 | The loop over a copy yields the prefix with its last byte below 0xff incremented and nothing cut off; its argument is not written |
| PrefixRange.PrefixRangeCovers | registry/utils/utils.go:231-243 | With a byte below 0xff in the prefix, every key with the prefix lies in the range |
| PrefixRange.PrefixEndExact | registry/utils/utils.go:231-243 | The range holds exactly the keys with the prefix if and only if the prefix's last byte is below 0xff |
| Keys.PrintParse | registry/agent_api/register.go:51-69 | A key printed from slash-free components is read back as that key: the formats are injective and the namespaces disjoint |
| Keys.Formats | registry/agent_api/register.go:51-69 | The five kinds of keys, letter by letter |
| Keys.ParsePrint | registry/agent_api/observer.go:90-100 | Whatever can be read as a key was printed, from slash-free components |
| Keys.UnambiguousIffSlashFree | registry/agent_api/register.go:51-69 | A key determines its components if and only if none of them holds a slash |
| Keys.TierRange | registry/agent_api/discover.go:89-92 | A key lies in a tier's range if and only if its leading components are the tier's |
| Keys.AddressRange | registry/agent_api/node_api.go:61-64 | The range for the unterminated address namespace holds a printed key if and only if it is an address key |
| Discover.RangeSearch | registry/agent_api/discover.go:26-30 | A limited range request yields the first keys of the interval in byte order, as many as the limit allows |
| Discover.GetServiceInternal | registry/agent_api/discover.go:21-46 | Each result is stored in the prefix's tier and there are min(limit, tier size) of them; it fails only if the tier holds something that does not decode |
| Discover.FillServices | registry/agent_api/discover.go:48-66 | In whatever order the extra services are walked, all earlier keys stay, whatever is new was stored in the tier, and in the end there are three or the whole tier is there |
| Discover.Outwards | registry/agent_api/discover.go:103-116 | One more search, over a store that may have changed, keeps what was promised of every nearer search |
| Discover.NextTier | registry/agent_api/discover.go:103-116 | One conditional fill extends the nearest-first guarantee by its search, and does nothing for a tier not wanted |
| Discover.DiscoverServices | registry/agent_api/discover.go:68-120 | With any store contents at each of the searches: everything found was stored when its search ran, and without an instance each search and the nearer ones have together yielded at least min(3, the size of its tier) |
| Discover.StillStore | registry/agent_api/discover.go:68-120 | If the store does not change between the searches, the result meets every searched tier in exactly min(3, its size) services |
| Discover.NearestAreFound | registry/agent_api/discover.go:75-116 | Over a store that stays as it is, at every depth that is searched exactly three, or all if fewer, are found of the stored services of that name whose location, datacenter and node down to that depth are the request's where it names them and the caller's own where it does not; nothing is found from further out |
| Discover.Discover | registry/agent_api/discover.go:68-123 | The response lists those services once each, in any order, never more than three, and over a store that stays as it is they are the nearest to the caller |
| Discover.WithinWidest | registry/agent_api/discover.go:89-116 | Every search selects only keys of the widest tier, in the store it runs over |
| Discover.FoundMatch | registry/agent_api/discover.go:79-116 | For a hierarchical request every service found matches every scope the request names, whatever happens between the searches |
| Scopes.ScopesHoldIffHierarchical | registry/agent_api/discover.go:79-116 | Over all runs, with the searches at any moments, a caller can rely on the scopes it names if and only if the request names a node only with a datacenter and a datacenter only with a location; otherwise a run of AddNode and Register leads to a store that shows it |
| SharedBuffers.Append | registry/agent_api/discover.go:89-97 | An append writes only past its operand's end, so no slice of the same buffer that ends no later reads differently |
| SharedBuffers.BuildPrefixes | registry/agent_api/discover.go:89-116 | After all appends and all range ends each of the four prefixes reads as first built, and each range end belongs to its prefix, however much the buffers are shared |
| Dns.ServeDNS | agent/dns.go:33-74 | The requests are those of the questions looked at, in order, all hierarchical and without instance; only a question of an address class with too many labels or without an answer stops the loop; the response code stays as received if every question is in the cluster domain and, when of an address class, short enough and answered, and is the name error otherwise |
| Dns.WantedExactly | agent/dns.go:41-67 | A request is made exactly for a question of class 1 or 28 with at most five labels |
| Dns.LabelsReach | agent/dns.go:51-67 | Location is named exactly from two labels on, datacenter from three on, the node exactly by five, the instance never, each by its own label; the first of four or five labels has no influence |
| Scopes.ReachableIsWellKeyed | registry/agent_api/register.go:71-103 | In every reachable store what lies under svc decodes as the service its key names |
| Scopes.ReachableDecodes | registry/agent_api/discover.go:36-43 | In every reachable store no service search meets a value that does not decode |
| Dns.NamesFindWhatTheySay | agent/dns.go:45-69 | With the searches made at any moments of any run, every service found for a name's request is within every scope the name spells out |
| Dns.NamesFindExactly | agent/dns.go:45-69 | Over the store at any moment of any run, what is found for a name are stored services at exactly the places its labels spell out, three of them or all if there are fewer |
| Observer.DeleteParsingInvertsPutPrinting | registry/agent_api/observer.go:90-110 | The node, service and instance read off a deleted key are those of the spec put under it |
| Observer.MessageNamesKey | registry/agent_api/observer.go:71-117 | Every watched event yields a message for exactly the service of its key |
| Observer.FedHears | prom-sd-observer/main.go:43-55 | The stream moves the target of each service by the events on its key and by no others |
| Observer.BulkSets | prom-sd-observer/state/state.go:145-154 | The bulk update sets exactly the targets of the snapshot's services that have a port |
| Observer.ObservedTargets | prom-sd-observer/main.go:26-55 | Service by service what any interleaving of bulk and events leaves, whatever the positions of watch start, snapshot and bulk |
| Convergence.GoneOrPortedIsExact | prom-sd-observer/main.go:26-55 | With a snapshot no older than the events handled before it, every service that is gone or can be scraped has exactly the right target, without further conditions |
| Convergence.Converges | prom-sd-observer/main.go:26-55 | If moreover no service is put again without its port, the target map is the projection of the store, at every later position |
| Convergence.ConvergesIffNeverDowngrades | prom-sd-observer/state/state.go:95-134 | It is so for all positions if and only if no watched service is put without a port over itself with one |
| Convergence.DowngradeLeavesStaleTarget | prom-sd-observer/state/state.go:96-99 | Each such put leaves a target that the store no longer justifies |
| Convergence.AgreesIffUnharmed | prom-sd-observer/main.go:26-39 | For every history and every order of watch start, snapshot and bulk the targets agree with the store if and only if each service that is gone or can be scraped is settled by an event after the bulk, or is in the snapshot as it was when the bulk was applied, or is missing there and either was settled by the stream before or had nothing to scrape, and each service stored without a port was last settled by a deletion or was never known |
| WatchLog.LateBulkResurrects | prom-sd-observer/main.go:31-39 | In a run in which any service is registered and then deregistered, a bulk from before and applied after brings its target back |
| WatchLog.EarlySnapshotMissesService | prom-sd-observer/main.go:26-39 | In a run in which any service is first registered between the snapshot and the start of the watch, the service is stored and has no target |
| WatchLog.ReachableLog | registry/agent_api/observer.go:61-88 | In every reachable state each event names its key's service, and replaying the history gives the store |
| WatchLog.TargetsMirrorStore | prom-sd-observer/main.go:26-55 | From the registry's calls to the scrape targets: every service of the datacenter in a reachable store that has a metrics port has a target with one host and port per stored address, each with that port, and every service that is not stored has none |
| TargetsFile.ReadOneWay | prom-sd-observer/state/state.go:74-85 | The text of an array of self-delimiting elements can be read as one array only |
| TargetsFile.ArrayForm | prom-sd-observer/state/state.go:74-85 | The text is a bracket, the elements with commas between them, and a bracket (section 5 of RFC 8259) |
| TargetsFile.FileTellsTargets | prom-sd-observer/state/state.go:69-93 | Two target maps that the same file may show have each target equally often |
| ObserverState.State.constructor | prom-sd-observer/state/state.go:43-67 | The observer starts without targets and with a file that says so |
| ObserverState.State.WriteServices | prom-sd-observer/state/state.go:69-93 | For any map order and any previous file length the file becomes an array of exactly the current targets, each once |
| ObserverState.State.UpdateServiceInternal | prom-sd-observer/state/state.go:95-134 | Under the spec's node, service and instance: one host and port per address, in order, each that address with the metrics port, and the labels; all other targets stay, and a spec without a metrics port changes nothing |
| Observer.UpdatedIs | prom-sd-observer/state/state.go:107-133 | The same of the function that the convergence theorems are about |
| ObserverState.State.UpdateService | prom-sd-observer/state/state.go:136-143 | The same, and the file shows it |
| ObserverState.State.UpdateServiceBulk | prom-sd-observer/state/state.go:145-154 | All services of a snapshot in turn, and the file shows it |
| ObserverState.State.DeleteService | prom-sd-observer/state/state.go:156-167 | Removes exactly one service's target, and the file shows it |
| ObserverState.State.ReceiveEvents | prom-sd-observer/main.go:43-55 | The receive loop brings the targets where the stretch of history leads, with the file true to them |
| ObserverState.GetDatacenterServices | registry/agent_api/observer.go:26-53 | The snapshot has every service under the datacenter's prefix, in key order, and fails exactly if one does not decode |
| ObserverState.Observe | prom-sd-observer/main.go:26-55 | The interleaving of loop and bulk load ends in the targets the convergence theorems are about, with the file true to them, or stops exactly if the snapshot does not decode |
| Base64.RoundTrip | registry/state/state.go:173-174 | Decoding undoes encoding for every byte string (section 4 of RFC 4648) |
| Base64.EncodeSpells | registry/state/state.go:173-174 | Every group of four characters spells the 24 bits of its three bytes, with padding exactly where bytes are missing (section 4 of RFC 4648) |
| Base64.EncodedLength | registry/state/state.go:173 | The text fills exactly the buffer made for it |
| Base64.AlphabetIs | registry/state/state.go:173-174 | The characters are those of table 1 of RFC 4648 |
| Base64.DecodeExact | registry/state/state.go:150-155 | Exactly the texts of a multiple of four characters of the alphabet, with padding only as the last one or two, decode |
| Base64.DecodeCarries | registry/state/state.go:150-155 | Every group of four characters is decoded to the bytes its 24 bits carry, whatever bits are left over |
| Base64.DecodedLength | registry/state/state.go:150-155 | Whatever decodes fits the buffer made for it and leaves at most two bytes unused |
| Token.Separator | registry/state/state.go:141 | The text is split at the first double colon, if there is one |
| Token.ParseIntExact | registry/state/state.go:143-146 | A time is read exactly from an optional sign and decimal digits, as the sum of the digits times powers of ten, if it fits into 64 bits |
| Token.DecodeTokenExact | registry/state/state.go:140-156 | A token text decodes exactly if it is such a number, a double colon and Base64, and then to those |
| Token.DecimalParse | registry/state/state.go:143-177 | Every 64-bit number survives printing and parsing, and its text holds no colon |
| Token.TokenRoundTrip | registry/state/state.go:140-180 | Reading the stored text gives back token and milliseconds, for every byte string and every 64-bit time |
| Token.TokenDir.LoadStateToken | registry/state/state.go:158-192 | An existing file decides and stays; otherwise the initial or the random token is taken, and the file then decodes to it, rounded down to milliseconds |
| Token.LoadAgain | registry/state/state.go:158-192 | Every later load, however many, returns the first load's token and its start truncated to milliseconds, which is the same start if and only if that was a whole number of them |

## Left out

- etcd itself: consensus, storage, compaction and watch delivery are the rules assumed above.
- Certificates, TLS, key derivation and the caller's role: a call starts with the datacenter and name its certificate holds.
- JSON: values are stored as data; only the targets file is text, with the element encoding as a parameter that is self-delimiting.
- Server.EtcdServer.Interference: its body does nothing; callers see only its contract, which allows any continuation of the run.
- Server.GetNodeLease: the loop body is split into its two halves, and requests that fail outright occur in the state machine (`Fail`) but not in the methods.
- Discover.DiscoverServices: for requests with an instance it promises only that what is found was stored in the widest tier searched, and at most three services.
- Dns.ServeDNS: splitting the name into labels and building the answer records are not modelled.
- ObserverState.State.ReceiveEvents: an event that cannot be read ends the original's stream; in a reachable history there is none, so the loop has no such exit.
- ObserverState.State.UpdateServiceInternal: a target is a host and a port; how an IPv6 host is bracketed in text is not modelled.
- ObserverState.Observe: the mutex is represented by each update being one step.
- Token.LoadAgain: the original ends the process on a token it cannot decode; here the loads are of tokens that decode.
- Base64.RoundTrip: the library's decoder also skips carriage returns and line feeds, which no encoded token holds.
- File-system failures of the token file and the targets file.
- NodeApi.Config: certificate renewal and its arithmetic are not modelled.
- AddSelfPeer, GetPeers, etcd membership, configuration, CLI and start-up wiring.
- Docker events, image signatures, interface selection and address parsing: calls into libraries.
