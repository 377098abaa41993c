# nxpose: a verified model of its shared state

nxpose gives a local service a public address. A server keeps a registry of tunnels, a map of WebSocket
connections to the clients and a map of requests that wait for an answer; a client keeps its own tunnels, a
table of TCP connections for each and some counters. All of these are shared by goroutines and guarded by
locks. This project states what that shared state guarantees, and proves it.

Each piece is modelled as a state machine, and where the source has sequential code beside its interleavings, as
code too. A **state machine** has one step per critical section, channel operation or
Redis call, and a *behaviour* is any sequence of steps that any number of goroutines can produce; the theorems
hold for every behaviour. Beside it stands a **class** with the code of the source: its fields, its loops,
its branches, each method proved against a function of the state before. Where the machine and the class meet
(`Multiplexer.HandleResponseIsItsSteps`, `TcpTable.CloseConnectionIsItsSteps`, `TcpTable.StopIsItsSteps`,
`Quota.DrainIsTheLoop`, `Registry.Server.RemovePresent`, the steps of
`Serial` that the methods of `Registry.Server` are shown to be) a lemma or a contract says that an
uninterrupted run of the steps is the sequential code.

| module | what it is about |
|---|---|
| `Multiplexer` | visitors that wait for a response, responders, timeouts and the shutdown broadcast |
| `Quota`, `Redis`, `Sweeps` | the server's registry, its three removers and the counter of each user |
| `Registry`, `Dashboard`, `PublicUrl` | the server's handlers and cleaners as code; the admin pages; URLs and host names |
| `Serial` | the same operations one after another: whole runs in which counters are exact and the limit holds |
| `Limit`, `RedisLimit` | the limit on a user's tunnels when handlers overlap, counted by the server or by Redis |
| `Ownership` | which WebSocket connection serves which tunnel |
| `Locks` | the thirteen mutexes of server and client, the order in which they nest, and why nobody waits for ever |
| `Manager`, `ManagerQuota`, `Persistence` | the client's tunnel manager: index, limits, cleanup, Redis, save, load and close |
| `Lifetime` | the goroutine that runs a client tunnel, and those that are to stop it |
| `TcpTable`, `TcpStream` | the client's TCP connection table and its forwarding loop |
| `TcpAccounting` | the counters of the server-side TCP handler |
| `Common` | facts about finite sets |

## What is assumed

- Request and tunnel identifiers are uuids: whoever makes one gets one never used before, and it holds no dot.
- A Redis call succeeds, and the Decr and Set of `DecrementTunnelCount` are one step.
- Clocks, random numbers, the outcome of a dial, of a send and of an accept, and what a peer writes are
  parameters. `handleTunnel` reads the clock several times; the model reads it once.
- Integers, times and counters are unbounded. A time that is never set is `None`.
- The removers of `Quota` are given arbitrary lists of candidates, so what is proved there does not depend on
  how a sweep chooses them; `Sweeps` and `Registry` say which it chooses.
- A map is iterated in an arbitrary order; loops take any remaining element.
- An RWMutex prefers writers: a reader waits for a writer that is already waiting.
- Unregistering a WebSocket and closing its socket, which the source does right after, are one step. A socket
  that the peer has closed counts as closed once its connection ends.
- A server starts with an empty registry and empty counters.
- Writing a list of tunnels as JSON and reading it back loses nothing. Paths are joined as text: the
  directory is clean and an identifier is a plain file name part, as a uuid is.

## Where the code does not keep what one would expect

Each of these is a lemma with a concrete case or an exact condition, next to what does hold.

- A tunnel removed between its insertion and its increment leaves the Redis counter of its user too high for
  good (`Quota.EarlyKillDrifts`). The drift is exactly the largest number by which decrements ever overtook
  increments (`Quota.DriftIsTheWorstOvertaking`), so the counter is exact if and only if they never did
  (`Quota.CounterIsExactIffNeverOvertaken`).
- The server's limit is checked and used in two critical sections, so `K` overlapping handlers can exceed
  it by `K - 1`, and do, whether the server counts (`Limit.OvershootIsReached`) or Redis does
  (`RedisLimit.OvershootIsReached`); never by more.
- `extractSubdomain` does not look at the character between subdomain and base domain
  (`PublicUrl.TheDotIsNotChecked`; `PublicUrl.HostsOfASubdomain` says which hosts it accepts), and a base domain
  with a colon breaks the way back from the URL (`PublicUrl.UrlRoundTrip` is an equivalence).
- A WebSocket entry outlives its tunnel if and only if it was admitted while the tunnel was live and stored
  after the remover had unregistered the tunnel (`Ownership.LingersIffStoredTooLate`), which happens
  (`Ownership.AnEntryCanLinger`); it still belongs to the owner.
- `UnregisterWebSocketTunnel` removes whatever connection is registered and closes its socket. The end of an old
  connection takes the entry of a newer one, which loses its socket too (`Ownership.AnOldEndTakesANewEntry`), if
  and only if the old one last registered for the same tunnel and was not closed before
  (`Ownership.AnothersEntryGoesExactlyWhen`).
- A live tunnel can be registered to a connection whose socket is closed: one that served two tunnels and ended
  (`Ownership.AnEntryCanBeStale`), or one whose other tunnel was killed
  (`Ownership.AKillClosesAnothersConnection`). `Ownership.StaleIffWentStale` has every way and no other.
- `LoadTunnels` does not fill the per-user index, which then agrees with the tunnels if and only if none of
  them has a user (`Persistence.IndexAfterLoad`); a user at the limit gets another tunnel
  (`Persistence.LoadedTunnelsEscapeTheUserLimit`), and nothing else changes for a create
  (`Persistence.LoadedTunnelsEscapeExactlyWhen`).
- `Close` clears the tunnels and not the index, which then agrees with the tunnels if and only if it was empty
  (`Manager.IndexAfterClose`). A create after it is refused by the stale index if and only if the index
  had all the tunnels allowed for its user (`Manager.StaleIndexRefusesExactlyWhen`). Whenever in its life a
  manager counts that many, the user is refused from then on if and only if no tunnel is removed that is then
  present under one of the identifiers counted (`Manager.ClosedOutUntilLetIn`): after `Close`, that takes a load.
  `Manager.LoadedBackAndLetIn` and `Persistence.LoadingBackLetsIn` are the way back in.
- `LoadTunnels` and `Close` do not call Redis either. At rest the client's counter is then exact if and only if as
  many tunnels came uncounted as decrements ever exceeded increments (`ManagerQuota.CounterIsExactIff`), and a user
  can exceed the limit (`ManagerQuota.ALoadOvershoots`).
- A client tunnel can run on outside its manager with nobody left who would stop it
  (`Lifetime.AbandonedForGood`): removed before `startTunnel` has marked it active
  (`Lifetime.RemovedWhileStarting`), or after a late restart has marked it inactive
  (`Lifetime.RemovedAfterALateMark`), replaced by a load (`Lifetime.ReplacedByALoad`), or created while `Close` is
  at work (`Lifetime.CreatedWhileClosing`). `Lifetime.AbandonedExactlyWhen` is the exact condition.
- A save whose list fails half way through its write leaves no list at all (`Persistence.SaveTunnels`).
- A certificate that cannot be written is lost without an error, and is the only thing that does not come
  back (`Persistence.RoundTrip` is an equivalence).
- Two live tunnels of a client have the same public URL if and only if both are tcp tunnels to the same server
  and port (`Manager.LiveTunnelsShareAUrlExactlyWhen`), which happens (`Manager.TwoTunnelsShareAUrl`).
- `GetTunnelsByUserID("")` finds nothing although tunnels without a user exist
  (`Manager.TunnelManager.IndexFindsWhatAScanFinds`).

## Model

| member | source | states |
|---|---|---|
| Multiplexer.NoLostWakeup | internal/server/websocket.go:112-148 | in every interleaving a visitor that has not left its wait is in `requests` under its own channel, or its channel holds a value |
| Multiplexer.ShutdownWakesEveryVisitor | internal/server/server.go:1377-1400 | from the end of `CloseAll`'s critical section on, every visitor registered before has left its wait or can receive at once |
| Multiplexer.RepliesReachTheirRequest | internal/server/websocket.go:402-442 | what a visitor got is the first value ever put on its own channel: a response of a call that named its request, or the shutdown's nil |
| Multiplexer.AtMostTwoValuesArePut | internal/server/websocket.go:117-121 | a channel is given at most two values in its life, at most one before its visitor has left its wait |
| Multiplexer.ResponsesStayOnTheirChannel | internal/server/websocket.go:131-148 | `HandleResponse` reports true exactly when its response was put on the channel of the request it named; it is never on another channel |
| Multiplexer.EntriesStayGone | internal/server/websocket.go:124-128 | an entry of `requests` once deleted never comes back |
| Multiplexer.NoEntryIsLeaked | internal/server/websocket.go:402-404 | when all visitors have returned, `requests` is empty |
| Multiplexer.HandledRequestsAreGone | internal/server/websocket.go:139-142 | once a call has handled its response its request is not in `requests`, then or in any later state |
| Multiplexer.LateResponsesAreRefused | internal/server/websocket.go:131-148 | a second response for that request is turned away when its call begins, or looks for the channel, after that, whether or not the visitor has returned |
| Multiplexer.AResponseReachesItsVisitor | internal/server/websocket.go:402-442 | in every behaviour, a response that comes for a visitor waiting for its first is there for it to take, and the entry is gone |
| Multiplexer.StepKeepsInv | internal/server/websocket.go:112-148 | every step keeps the invariant: private channels, owned entries, nobody lost, first value taken, provenance of responses |
| Multiplexer.RunKeepsInv | internal/server/websocket.go:112-148 | the invariant holds in every state of every behaviour |
| Multiplexer.HandleResponseIsItsSteps | internal/server/websocket.go:131-148 | the steps of one undisturbed call add up to what the method does: handled exactly when the entry exists and its channel is empty, and then, and only then, the response is in the channel and the entry gone |
| Multiplexer.Channel.TrySend | internal/server/websocket.go:138-146 | a non-blocking send puts the value exactly when the channel is empty |
| Multiplexer.WebSocketManager.RegisterRequest | internal/server/websocket.go:113-121 | adds the request with a fresh empty channel and nothing else |
| Multiplexer.WebSocketManager.UnregisterRequest | internal/server/websocket.go:124-128 | removes the request and touches no channel |
| Multiplexer.WebSocketManager.HandleResponse | internal/server/websocket.go:131-148 | handled exactly when the request is registered and its channel empty; then the response lies in that channel and the entry is gone; no other channel or entry changes |
| Multiplexer.WebSocketManager.Cancel | internal/server/server.go:1393-1399 | one round of the shutdown offers nil to one channel and removes its entry |
| Multiplexer.WebSocketManager.CloseAll | internal/server/server.go:1380-1400 | in whatever order, every registered channel holds nil or what it held before, no other is touched, no entry is left |
| Quota.ClaimTakesThePresent | internal/server/monitoring.go:83-100 | the loop under the lock takes each candidate still present once, with the owner in the registry |
| Quota.StepKeepsInv | internal/server/server.go:681-710 | every step of creators and removers keeps who claimed what and what is left to do for it |
| Quota.RunKeepsInv | internal/server/server.go:681-710 | that invariant holds in every behaviour |
| Quota.EachTunnelIsRemovedOnce | internal/server/admin_provider.go:89-107 | however kill and both sweeps race, a tunnel's counter is decremented at most once and its WebSocket unregistered at most once, both by the remover that deleted it |
| Quota.ClaimsAreFinal | internal/server/admin_provider.go:89-97 | the remover that deleted a tunnel never changes and the tunnel never comes back |
| Quota.DoneRemoversLeaveNothing | internal/server/monitoring.go:103-110 | a remover that is done has decremented, where there is an owner, and unregistered everything it deleted |
| Quota.CounterIsConserved | internal/server/redis.go:124-149 | counter + increments due = live + decrements due + decrements lost at zero, for every user in every state |
| Quota.BalanceIsConservation | internal/server/redis.go:124-149 | increments less decrements made balance the counter exactly when live tunnels and pending calls do |
| Quota.DriftIsTheWorstOvertaking | internal/server/redis.go:135-149 | the decrements lost at zero are exactly the largest excess of decrements over increments so far |
| Quota.OrderedRunNeverClamps | internal/server/server.go:1183-1203 | when each tunnel's decrement follows its own increment, the clamp never fires and counter + increments due = live + decrements due |
| Quota.CounterIsExactIffNeverOvertaken | internal/server/redis.go:135-149 | once nothing is due the counter is the number of live tunnels if and only if decrements never overtook increments |
| Quota.EarlyKillDrifts | internal/server/admin_provider.go:89-107 | a behaviour after which the counter says one and no tunnel is live |
| Quota.ReduceSubtracts | internal/server/monitoring.go:103-110 | in whatever order the items come, the loop of decrements takes one per item from each user's counter, down to zero |
| Quota.DrainIsTheLoop | internal/server/monitoring.go:103-110 | an undisturbed remover's steps have the effect of the sequential loop on counters, registry and WebSockets |
| Redis.RedisClient.GetTunnelCount | internal/server/redis.go:106-121 | a missing key counts as zero |
| Redis.RedisClient.IncrementTunnelCount | internal/server/redis.go:124-132 | one more for this user, which is also the answer |
| Redis.RedisClient.DecrementTunnelCount | internal/server/redis.go:135-149 | one less for this user but never below zero, which is also the answer |
| Limit.LimitIsOvershotByTheOverlap | internal/server/server.go:1129-1156 | with at most K handlers of a user between count and insert, live and pending tunnels never exceed MaxPerUser - 1 + K |
| Limit.PassesExactlyWhen | internal/server/server.go:1129-1156 | a handler passes the check exactly when its user is not known, or there is no limit, or the user has fewer tunnels in the registry; those about to be inserted do not count |
| Limit.OvershootIsReached | internal/server/server.go:1183-1197 | for every limit and every K some behaviour reaches that bound |
| Limit.StepKeepsBound | internal/server/server.go:1129-1197 | every check, insertion and removal keeps the bound |
| RedisLimit.RedisLimitIsOvershotByTheOverlap | internal/server/server.go:1129-1204 | with Redis and at most K handlers of a user between read and increment, neither the counter nor live and admitted tunnels together ever exceed MaxPerUser - 1 + K, whatever removers and clamps do |
| RedisLimit.PassesExactlyWhen | internal/server/server.go:1129-1156 | the same with Redis: what is compared is live tunnels, decrements due and decrements lost, less increments due |
| RedisLimit.StepKeepsBound | internal/server/server.go:1133-1138 | every check, insertion, increment, decrement and removal keeps the bound |
| RedisLimit.OvershootIsReached | internal/server/server.go:1195-1204 | for every limit and every K some behaviour reaches that bound |
| Sweeps.SweepsCommute | internal/server/monitoring.go:37-117 | for one clock value both sweeps give the same registry, activity times and WebSocket map in either order |
| Sweeps.SparedExactlyWhen | internal/server/monitoring.go:45-76 | a sweep leaves an unconnected tunnel for an hour after its last activity, and any tunnel for a day after it was made; the other one leaves those whose time is not over |
| Sweeps.SweepsCommuteOnCounters | internal/server/monitoring.go:102-110 | and the same counters: a tunnel that both would take counts once |
| Sweeps.SweepsTakeWhatIsLeft | internal/server/monitoring.go:45-76 | the second sweep takes exactly what the first has left of its own |
| Sweeps.SweepsAreIdempotent | internal/server/server.go:671-711 | a second sweep at the same moment finds nothing and changes nothing |
| Sweeps.ReduceLeaves | internal/server/monitoring.go:102-110 | the decrements for distinct removed tunnels leave each user's counter less its removed tunnels, not below zero |
| Sweeps.RemovalKeepsExact | internal/server/monitoring.go:80-111 | an undisturbed removal keeps every counter equal to the number of live tunnels |
| Sweeps.OpeningKeepsExact | internal/server/server.go:1183-1197 | so does an undisturbed creation |
| Serial.StepIsSound | internal/server/server.go:1129-1204 | every complete operation keeps the limit, and with Redis keeps the counters exact |
| Serial.TakingTurnsIsExact | internal/server/server.go:1129-1204 | when operations take turns no user ever exceeds MaxPerUser, counted either way, and every Redis counter equals the live tunnels |
| Serial.OpenedExactlyBelowTheLimit | internal/server/server.go:1129-1197 | when operations take turns a tunnel is opened exactly when its user is not known, there is no limit, or the user has fewer tunnels than that |
| Serial.KillUncounts | internal/server/admin_provider.go:100-104 | one decrement is what removing one tunnel takes from all counters |
| Registry.Server.RemovePresent | internal/server/monitoring.go:88-100 | the loop under the lock takes exactly what `Quota.Claim` takes, and removes that from the registry |
| Registry.Server.UnregisterWebSocketTunnel | internal/server/websocket.go:93-102 | removes the entry, whatever connection it holds, and closes that connection |
| Registry.Server.CleanUp | internal/server/monitoring.go:102-111 | decrements once for each item with an owner, unregisters every item, closes their connections |
| Registry.Server.Inspect | internal/server/monitoring.go:45-76 | chooses a tunnel exactly when it is unconnected and more than 3600 s after its last activity, or more than 86400 s old; a connected one takes over the activity of its connection |
| Registry.Server.CollectInactive | internal/server/monitoring.go:42-77 | the list holds exactly the inactive tunnels, none twice, and only activity times change |
| Registry.Server.CleanupInactiveTunnels | internal/server/monitoring.go:37-117 | an unconnected tunnel stays exactly for an hour after its last activity and a day after its creation, a connected one for the day; those that go take their connections, which are closed, and one count of their owner each; the others take over the activity of their connections |
| Registry.Server.CollectExpired | internal/server/server.go:674-698 | takes exactly the tunnels whose time is over, each once with its owner; those without an end stay |
| Registry.Server.CleanupExpiredTunnels | internal/server/server.go:671-711 | a tunnel stays exactly until its time is over; those that go take their connections, which are closed, and one count of their owner each |
| Registry.Server.KillTunnel | internal/server/admin_provider.go:87-108 | removes one tunnel with its connection, which is closed, and one count of its owner; if it is gone already, changes nothing and says so |
| Registry.Server.CountTunnels | internal/server/server.go:1140-1149 | the number of the user's tunnels in the registry |
| Registry.Server.Refuse | internal/server/server.go:1074-1156 | the first of maintenance, missing certificate, unknown protocol and reached limit, each told by the fields of the request and the tunnels counted, or none |
| Registry.Server.HandleTunnel | internal/server/server.go:1074-1271 | who is refused and why, by the fields of the request, with nothing changed; otherwise the tunnel stored has the owner, protocol, port, end and drawn subdomain asked for, is counted once, and the URL answered names that very subdomain |
| Registry.Server.OpenAndVisit | internal/server/server.go:1074-1271 | a visitor of the URL that `handleTunnel` has just answered is led to the tunnel it has stored, or else to an older one with the same subdomain |
| Registry.Server.NewTunnelIsSpared | internal/server/server.go:1164-1192 | a new tunnel survives the expiry sweep exactly while connections may last, and the inactivity sweep exactly for an hour, or a day while connected |
| Registry.Server.FindTunnel | internal/server/server.go:388-402 | finds a tunnel with the host's subdomain if and only if one exists |
| Registry.Server.FollowUrl | internal/server/server.go:1228-1249 | a visitor of a tunnel's URL is led to it, unless another tunnel drew the same subdomain |
| Registry.Server.GetClients | internal/server/admin_provider.go:25-56 | one entry for every client, with exactly its tunnels and the latest of their activities |
| Registry.Server.GetStats | internal/server/admin_provider.go:59-84 | the number of tunnels, of clients with a connected tunnel, and the sum of connections |
| Dashboard.AddKeepsGroups | internal/server/admin_provider.go:30-49 | whichever tunnel comes next, the groups stay a partition by client with counts and latest activity |
| Dashboard.OrderDoesNotMatter | internal/server/admin_provider.go:25-56 | two answers for one registry have the same entries |
| Dashboard.EntriesShowTheirTunnels | internal/server/admin_provider.go:25-56 | an entry shows the tunnels of its client as they are, whether each is connected, their number and the latest of their activities |
| Dashboard.EveryTunnelIsShown | internal/server/admin_provider.go:25-56 | every tunnel is shown in the entry of its client |
| Dashboard.ClientsAddUpToStats | internal/server/admin_provider.go:59-84 | tunnel counts add up to ActiveTunnels, connections to TotalConnections, clients with a connected tunnel to ConnectedClients |
| Dashboard.TotalAdd | internal/server/admin_provider.go:64-68 | the sum over the registry does not depend on the order of iteration |
| Dashboard.Flatten | internal/server/admin_provider.go:51-55 | every value of the map once |
| PublicUrl.ExtractSubdomain | internal/server/server.go:243-297 | cuts at the first colon, then the base domain and one character off the end; empty where that is impossible |
| PublicUrl.GenerateSubdomain | internal/server/server.go:1323-1334 | the letters and digits drawn, in order; lower case, neither dot nor colon |
| PublicUrl.HostsOfASubdomain | internal/server/server.go:243-297 | exactly which hosts lead to a subdomain |
| PublicUrl.TheDotIsNotChecked | internal/server/server.go:243-297 | a host that is no subdomain and is taken for one |
| PublicUrl.UrlNamesTheHost | internal/server/server.go:1228-1249 | the host in the URL is the subdomain, a dot and the base domain, and the port for http but on 80 and https but on 443 |
| PublicUrl.UrlRoundTrip | internal/server/server.go:1228-1249 | reading the host of the URL back gives the subdomain if and only if the base domain has no colon |
| PublicUrl.DecimalIsInjective | internal/server/server.go:1246-1249 | no two ports are written alike |
| PublicUrl.DistinctSubdomainsHaveDistinctHosts | internal/server/server.go:243-297 | distinct subdomains are never reached through the same URL host |
| Ownership.StepKeepsInv | internal/server/websocket.go:267-310 | every creation, removal, registration, close and forward keeps owners in agreement |
| Ownership.RunKeepsInv | internal/server/websocket.go:267-310 | owners agree in every state of every behaviour |
| Ownership.ConnectionsBelongToTheOwner | internal/server/websocket.go:267-310 | at any time a connection registered for a tunnel has the client that the tunnel was created for |
| Ownership.RequestsReachTheOwner | internal/server/server.go:388-455 | a request is only forwarded to a connection of the owner of a tunnel with the subdomain asked for |
| Ownership.ForwardedExactlyWhen | internal/server/server.go:388-455 | a request is forwarded to the connection that its tunnel is registered to when it is looked up, and fails exactly when there is none; that is final |
| Ownership.TheOwnerCanServe | internal/server/websocket.go:267-310 | whatever happened before, a connection of the owner that registers for a live tunnel gets the next request for its subdomain |
| Ownership.LingersIffStoredTooLate | internal/server/websocket.go:267-310 | an entry ever lingers after its tunnel is removed and cleaned up if and only if it is stored when the tunnel is neither live nor about to be unregistered |
| Ownership.LingeringWasStored | internal/server/websocket.go:305-310 | the store that made an entry linger is found in the behaviour |
| Ownership.AnEntryCanLinger | internal/server/websocket.go:268-310 | a behaviour in which the entry outlives its tunnel |
| Ownership.EntryGoesExactlyWhen | internal/server/websocket.go:93-102 | an entry goes exactly with its remover, with the shutdown, or with the end of an unclosed connection that last registered for the tunnel |
| Ownership.AnothersEntryGoesExactlyWhen | internal/server/websocket.go:232-246 | when the end of one connection takes the entry of another, and that its socket is then closed |
| Ownership.AnOldEndTakesANewEntry | internal/server/websocket.go:93-102 | a behaviour after which a live tunnel has no entry, and the newer connection that was registered for it has lost its socket |
| Ownership.StaleIffWentStale | internal/server/websocket.go:93-102 | an entry ever holds a closed socket if and only if another tunnel sharing its connection is removed, a connection ends and leaves the entry while its socket goes, the shutdown closes it, or a closed connection stores it |
| Ownership.StaleAfterStep | internal/server/websocket.go:93-102 | the same for one step, in both directions |
| Ownership.AnEntryCanBeStale | internal/server/websocket.go:305-310 | a behaviour without shutdown after which a live tunnel is registered to a closed connection |
| Ownership.AKillClosesAnothersConnection | internal/server/websocket.go:93-102 | a behaviour in which the removal of one tunnel closes the connection of another that is live |
| Locks.PathIsOrderly | internal/server/websocket.go:232-246 | any sequence of the ways in which the source nests its locks, so every code path with every early return and loop, takes locks in rising rank and gives all back |
| Locks.SectionIsOrderly | internal/tunnel/tcp.go:93-126 | each of these nestings does, however many tunnels or connections it goes over |
| Locks.StepIsSound | internal/server/server.go:1377-1406 | every step keeps locks exclusive and threads orderly |
| Locks.SomebodyCanStep | internal/tunnel/tcp.go:93-126 | whoever is blocked, some thread can step |
| Locks.RunIsSound | internal/tunnel/tunnel.go:480-531 | locks are exclusive and threads orderly in every behaviour |
| Locks.NoDeadlock | internal/server/admin_provider.go:12-108 | in every behaviour of any number of threads, while one has something left to do, one can step |
| Locks.EverybodyFinishes | internal/tunnel/tcp.go:299-318 | from every such state a schedule lets all threads finish, with every lock free |
| Locks.ClosingUnderTheLockDeadlocks | internal/server/server.go:1400-1406 | closing tunnels inside `CloseAll`'s critical section would deadlock with a connection that ends |
| Manager.RemoveUndoesCreate | internal/tunnel/tunnel_manager.go:533-562 | removing a tunnel just created restores both maps |
| Manager.CreatedTunnelLivesItsTime | internal/tunnel/tunnel_manager.go:352-356 | a new tunnel survives a cleanup if and only if its time is not over, or time is unlimited |
| Manager.TunnelsLiveTheirTime | internal/tunnel/tunnel_manager.go:246-287 | over every run, started, stopped and touched as may be, a tunnel not removed by hand is there exactly as long as no cleanup came after its creation plus the time allowed |
| Manager.UrlsAgreeExactlyWhen | internal/tunnel/tunnel_manager.go:376-389 | the URLs of two tunnels agree exactly for one protocol and host and, for tcp, one port, otherwise one identifier |
| Manager.RunNamesItsTunnels | internal/tunnel/tunnel_manager.go:359-389 | over every run the URL of a live tunnel is "http://" id "." host, "https://" id "-s." host or "tcp://" host ":" port, by its protocol |
| Manager.LiveTunnelsShareAUrlExactlyWhen | internal/tunnel/tunnel_manager.go:376-389 | at any time of any run two live tunnels share a URL if and only if both are tcp with the same host and port |
| Manager.TwoTunnelsShareAUrl | internal/tunnel/tunnel_manager.go:384-386 | a run after which two live tunnels share a URL |
| Manager.IndexAfterClose | internal/tunnel/tunnel_manager.go:859-862 | after `Close` the index agrees with a scan if and only if it was empty |
| Manager.StaleIndexRefusesExactlyWhen | internal/tunnel/tunnel_manager.go:859-862 | a create after `Close` fares otherwise than in a new manager if and only if the index had all the tunnels allowed for its user, whatever was loaded before; then it is refused |
| Manager.IndexLosesExactlyWhen | internal/tunnel/tunnel_manager.go:551-561 | an identifier leaves the index of a user exactly with the removal or cleanup of a tunnel of that user present under it, whatever was loaded or closed before |
| Manager.FullRefuses | internal/tunnel/tunnel_manager.go:308-343 | the user limit refuses a create exactly when the index says that its user has all the tunnels allowed and there is room |
| Manager.RefusedExactlyWhen | internal/tunnel/tunnel_manager.go:308-350 | which check refuses a create, by the fields of the request and the tunnels present, in the order of the source |
| Manager.ClosedOutUntilLetIn | internal/tunnel/tunnel_manager.go:859-862 | in the life of any manager, a user for whom the index has all the tunnels allowed is refused in every later state if and only if no tunnel present under one of those identifiers was removed |
| Manager.FullUntilLetIn | internal/tunnel/tunnel_manager.go:859-862 | until then the index holds exactly those identifiers for the user |
| Manager.LifeKeepsWithin | internal/tunnel/tunnel_manager.go:318-342 | whatever is created, removed, loaded and closed, the index never has more for a user than the limit |
| Manager.LiveKeepsWithin | internal/tunnel/tunnel_manager.go:391-400 | every operation keeps that |
| Manager.LoadedBackAndLetIn | internal/tunnel/tunnel_manager.go:772-775 | a life in which a user is closed out, and let in after a load and a removal |
| Manager.CreateKeepsIndex | internal/tunnel/tunnel_manager.go:391-400 | after an insertion the index is still the one a scan gives |
| Manager.RemoveKeepsIndex | internal/tunnel/tunnel_manager.go:551-562 | after a removal too, with no empty set left |
| Manager.RemoveIsWithout | internal/tunnel/tunnel_manager.go:256-287 | removing tunnels one after another is removing them all at once, whether or not the index agrees with the tunnels |
| Manager.WithoutKeepsGood | internal/tunnel/tunnel_manager.go:256-287 | a cleanup keeps index, limits and unique ports |
| Manager.CreateKeepsGood | internal/tunnel/tunnel_manager.go:308-400 | a create keeps index, limits and unique ports |
| Manager.RemoveKeepsGood | internal/tunnel/tunnel_manager.go:533-562 | a removal keeps them |
| Manager.RunStaysGood | internal/tunnel/tunnel_manager.go:308-400 | over every run from a new manager the index is that of a scan, both limits hold, ports are unique |
| Manager.IndexHas | internal/tunnel/tunnel_manager.go:391-400 | a user is in the index if and only if it is not empty and has a tunnel |
| Manager.ManagedTunnel.Stop | internal/tunnel/tunnel_manager.go:55-58 | the first call closes the channel and no later one does, so it is closed once |
| Manager.TunnelManager.FindPort | internal/tunnel/tunnel_manager.go:345-350 | finds a tunnel with that protocol and port if and only if one exists |
| Manager.TunnelManager.Refuse | internal/tunnel/tunnel_manager.go:308-389 | the first check that fails, or none |
| Manager.TunnelManager.CreateTunnel | internal/tunnel/tunnel_manager.go:308-428 | which check refuses, by the fields, with nothing changed; otherwise the tunnel stored and answered has the fields of the request, the URL of its protocol, the time and end, and is indexed under its user alone |
| Manager.TunnelManager.RemoveTunnel | internal/tunnel/tunnel_manager.go:533-562 | removes the tunnel and its one index entry and nothing else, stops it if active, says whether it was there |
| Manager.TunnelManager.CleanupStaleTunnels | internal/tunnel/tunnel_manager.go:246-287 | in whatever order, and whatever the index holds, a tunnel stays exactly until its time is over; those that go leave both maps, and the active ones among them are told to stop |
| Manager.TunnelManager.GetTunnelByPort | internal/tunnel/tunnel_manager.go:517-528 | finds a tunnel with that protocol and port if and only if there is one; with unique ports the order of the map plays no part |
| Manager.TunnelManager.GetTunnelsByUserID | internal/tunnel/tunnel_manager.go:874-890 | each tunnel that the index names for the user, once |
| Manager.TunnelManager.IndexFindsWhatAScanFinds | internal/tunnel/tunnel_manager.go:874-890 | where the index agrees with a scan those are exactly the tunnels of that user; none for the empty user |
| Manager.TunnelManager.Close | internal/tunnel/tunnel_manager.go:831-866 | undisturbed: every tunnel is told to stop, the map is empty, the index as it was |
| ManagerQuota.StepKeepsInv | internal/tunnel/tunnel_manager.go:309-343 | every step keeps the lock and the counter right: a creator that holds the lock has passed the limit, and no counter exceeds it |
| ManagerQuota.StepAccounts | internal/tunnel/tunnel_manager.go:551-577 | in every step each tunnel of a user that comes or goes is one inserted, removed, loaded, replaced or dropped |
| ManagerQuota.StepCounts | internal/tunnel/tunnel_manager.go:401-407 | every step changes the counter by its increment, its decrement, and the loss of one that found zero |
| ManagerQuota.RunKeepsInv | internal/tunnel/tunnel_manager.go:391-407 | the lock and the counter are right in every behaviour |
| ManagerQuota.CounterIsConserved | internal/tunnel/tunnel_manager.go:289-304 | over the whole life, loads and closes included: counter + increment due = live + decrements due + decrements lost at zero - tunnels that came uncounted |
| ManagerQuota.LostIsTheWorstExcess | internal/tunnel/tunnel_manager.go:569-577 | the decrements lost at zero are exactly the largest excess of decrements over increments so far |
| ManagerQuota.NothingIsLost | internal/tunnel/tunnel_manager.go:569-577 | without loads and closes that excess is nothing, and no tunnel comes uncounted |
| ManagerQuota.CounterIsExactIff | internal/tunnel/tunnel_manager.go:289-304 | at rest the counter is the number of live tunnels if and only if as many tunnels came uncounted as decrements ever exceeded increments |
| ManagerQuota.CounterTellsTheTruth | internal/tunnel/tunnel_manager.go:289-304 | without loads and closes: the counter is live plus decrements due, never above the limit, and no decrement finds zero |
| ManagerQuota.LimitHolds | internal/tunnel/tunnel_manager.go:309-343 | without loads and closes a user never has more live tunnels than the limit; with them, never more than the limit and the tunnels that came uncounted |
| ManagerQuota.AdmittedExactlyBelowTheLimit | internal/tunnel/tunnel_manager.go:318-342 | without loads and closes a user may create a tunnel exactly when the live ones and the decrements due are fewer than the limit |
| ManagerQuota.ALoadOvershoots | internal/tunnel/tunnel_manager.go:772-775 | a behaviour after which a user with a limit of one has two tunnels |
| Persistence.PathsAreDistinct | internal/tunnel/tunnel_manager.go:692-703 | certificate paths are equal exactly for equal identifiers, and none is the list |
| Persistence.LoadedLaysOver | internal/tunnel/tunnel_manager.go:743-776 | loading lays the restored tunnels over those present, in whatever order they are listed |
| Persistence.UnlistedStay | internal/tunnel/tunnel_manager.go:743-776 | what no entry of the list names is as it was |
| Persistence.LoadedByTheLastEntry | internal/tunnel/tunnel_manager.go:743-776 | what the list names has the fields of its last entry, inactive, with the certificate found in its file or none |
| Persistence.LoadIsAfterLoad | internal/tunnel/tunnel_manager.go:743-776 | a load lays the restored tunnels over those present, as in the lives of `Manager` |
| Persistence.LoadAfterSave | internal/tunnel/tunnel_manager.go:719-783 | loading what was saved puts every saved tunnel back under its identifier, whatever else the disk and the manager hold |
| Persistence.RoundTrip | internal/tunnel/tunnel_manager.go:644-716 | a tunnel comes back with all fields and certificate, inactive, if and only if its certificate is empty or could be written in full; otherwise with all but the certificate |
| Persistence.IndexAfterLoad | internal/tunnel/tunnel_manager.go:772-775 | after a load into a new manager the index agrees with a scan if and only if no tunnel has a user |
| Persistence.SaveCloseLoadAgrees | internal/tunnel/tunnel_manager.go:719-783 | saved, closed and loaded, a manager has an index that agrees with a scan |
| Persistence.LoadingBackLetsIn | internal/tunnel/tunnel_manager.go:719-783 | a user whom the stale index refuses is let in by loading what was saved and removing any one tunnel |
| Persistence.CleanupAfterLoad | internal/tunnel/tunnel_manager.go:256-287 | a cleanup of a manager that has loaded its tunnels removes exactly the expired ones and leaves the index empty |
| Persistence.LoadedTunnelsEscapeTheUserLimit | internal/tunnel/tunnel_manager.go:772-775 | a user whose loaded tunnels reach the limit still gets another |
| Persistence.LoadedTunnelsEscapeExactlyWhen | internal/tunnel/tunnel_manager.go:318-342 | a create after a load fares otherwise than with a full index if and only if there is room and its user has all the tunnels allowed |
| Persistence.Snapshot | internal/tunnel/tunnel_manager.go:660-684 | every tunnel once, as it is |
| Persistence.WriteCerts | internal/tunnel/tunnel_manager.go:686-700 | every certificate that can be written is, none overwrites another, nothing else changes |
| Persistence.SaveTunnels | internal/tunnel/tunnel_manager.go:644-716 | on success the disk holds the list and the certificates and nothing else changed; on failure the old list stays, unless the write failed half way, which leaves none |
| Persistence.LoadTunnels | internal/tunnel/tunnel_manager.go:719-783 | a missing list is no error; otherwise the listed tunnels are laid over those present, and the index is untouched |
| Lifetime.StepKeepsInv | internal/tunnel/tunnel_manager.go:448-501 | every step of `startTunnel`, removal, restart, stop of all, load and `Close` keeps marks and signals in agreement |
| Lifetime.RunKeepsInv | internal/tunnel/tunnel_manager.go:448-501 | they agree in every behaviour |
| Lifetime.AbandonedExactlyWhen | internal/tunnel/tunnel_manager.go:542-567 | a tunnel that left the map and runs later without having given up is told by nobody if and only if no `Close` had copied it, no removal found it marked active, and no restart or stop of all still holds it |
| Lifetime.AbandonedForGood | internal/tunnel/tunnel_manager.go:485-494 | then no step of anybody but its own giving up ever ends it |
| Lifetime.RemovalStopsTheActive | internal/tunnel/tunnel_manager.go:542-567 | a removal that finds the tunnel active closes both channels, so that it wakes; one that does not closes neither |
| Lifetime.ToldBeforeOrNever | internal/tunnel/tunnel_manager.go:542-567 | once a tunnel has left the map nobody tells it to stop who was not about to |
| Lifetime.OthersAreStopped | internal/tunnel/tunnel_manager.go:485-494 | every other tunnel that runs outside the map can wake now or once a call that holds it goes on |
| Lifetime.RemovedWhileStarting | internal/tunnel/tunnel_manager.go:542-549 | a tunnel removed while it starts is abandoned once it has started |
| Lifetime.RemovedAfterALateMark | internal/tunnel/tunnel_manager.go:583-600 | a running tunnel that a restart has marked inactive too late is abandoned when it is removed |
| Lifetime.ReplacedByALoad | internal/tunnel/tunnel_manager.go:772-775 | an active tunnel is abandoned when a load stores another one under its identifier |
| Lifetime.CreatedWhileClosing | internal/tunnel/tunnel_manager.go:838-862 | an active tunnel created after the copy of `Close` is abandoned when it clears the map |
| TcpTable.StepKeepsInv | internal/tunnel/tcp.go:94-126 | every step of handlers, forwarders, remote writers and `Stop` keeps table, sockets and closers in order |
| TcpTable.RunKeepsInv | internal/tunnel/tcp.go:155-187 | that invariant holds in every behaviour |
| TcpTable.TableIsBoundedAndSocketsCloseOnce | internal/tunnel/tcp.go:169-186 | the table never exceeds MaxConnections and no accepted socket is closed twice |
| TcpTable.EveryEntryHasACloser | internal/tunnel/tcp.go:190-201 | an entry is open with a live forwarder, or closed with its closer still on the way to the table |
| TcpTable.NothingIsLeftOpen | internal/tunnel/tcp.go:299-318 | when all threads are done the table is empty and every socket was closed exactly once, also after `Stop` |
| TcpTable.SomebodyCanGoOn | internal/tunnel/tcp.go:94-126 | while not all are done, some thread already there can take its next step |
| TcpTable.StepsWearDown | internal/tunnel/tcp.go:190-210 | every step of a thread already there lowers the number of steps that remain |
| TcpTable.EverybodyFinishes | internal/tunnel/tcp.go:299-318 | from every such state all threads finish within the steps that remain, and then nothing is left open |
| TcpTable.ServedExactlyWhenThereWasRoom | internal/tunnel/tcp.go:169-181 | in every behaviour a socket is ever served exactly when the table had room when its handler took the lock; the others are turned away |
| TcpTable.RegisterIsItsStep | internal/tunnel/tcp.go:169-181 | the step of the handler registers exactly when there is room, as `TCPTunnel.Register` does |
| TcpTable.CloseConnectionIsItsSteps | internal/tunnel/tcp.go:299-318 | the steps of one undisturbed `closeConnection` add up to the method: an open connection is closed once and forgotten, a closed one left alone |
| TcpTable.HandleRemoteDataIsItsSteps | internal/tunnel/tcp.go:260-296 | one undisturbed call closes and forgets the connection exactly when it is in the table and open and the write fails; otherwise table and sockets are as before |
| TcpTable.StopIsItsSteps | internal/tunnel/tcp.go:94-126 | the steps of one undisturbed `Stop` close every open connection of the table once and empty it |
| TcpTable.TCPConnection.Shutdown | internal/tunnel/tcp.go:114-122 | closes the socket unless that was done |
| TcpTable.TCPTunnel.Register | internal/tunnel/tcp.go:169-181 | admits the connection exactly when there is room |
| TcpTable.TCPTunnel.CloseConnection | internal/tunnel/tcp.go:299-318 | closes and forgets a connection once |
| TcpTable.TCPTunnel.Stop | internal/tunnel/tcp.go:94-126 | the first call closes and forgets every connection, later ones change nothing |
| TcpStream.StepKeepsInv | internal/tunnel/tcp.go:190-257 | every step keeps messages, buffer and counters in agreement with what was read |
| TcpStream.RunKeepsInv | internal/tunnel/tcp.go:190-257 | that agreement holds in every behaviour |
| TcpStream.SentIsAPrefixOfRead | internal/tunnel/tcp.go:193-253 | the data sent, as it lies in the messages now, is a prefix of the bytes read, short by one buffer at most |
| TcpStream.DeliveredIsFinal | internal/tunnel/tcp.go:218-226 | what lies in the array of a message sent is the same in every later state, however often the buffer is read into |
| TcpStream.StepKeepsMessages | internal/tunnel/tcp.go:218-226 | no step writes to an array that was sent or is about to be |
| TcpStream.SendingTheBufferWouldNotDo | internal/tunnel/tcp.go:218-220 | had a message been given the buffer itself, the next read would change it, unless it reads the same bytes |
| TcpStream.CountersStayWithinOneBuffer | internal/tunnel/tcp.go:277-292 | BytesReceived less the remote bytes in it less BytesSent is between 0 and 4096, and 0 while a read is awaited |
| TcpStream.OnlyTheLastChunkIsLost | internal/tunnel/tcp.go:193-253 | every chunk read is sent in order but one whose send failed, which ends the loop |
| TcpStream.TheFirstOtherRoundEndsIt | internal/tunnel/tcp.go:193-253 | the loop goes up to the first round that is not an accepted chunk: a stop, a failed read or a failed send; all chunks before it are sent |
| TcpStream.OverIsOver | internal/tunnel/tcp.go:244-248 | nothing is read or sent after the loop is over |
| TcpStream.TCPConnection.Forward | internal/tunnel/tcp.go:215-253 | one round counts what it read, sends a fresh copy of it, and counts that when it was accepted |
| TcpStream.TCPConnection.ForwardLocalToRemote | internal/tunnel/tcp.go:190-257 | the messages hold the chunks of the rounds before the first that is not an accepted chunk, each in an array of its own, in order; BytesSent grows by their lengths, BytesReceived by those and a refused chunk |
| TcpAccounting.StepKeepsSum | internal/protocol/protocol.go:89-98 | every update keeps the counters equal to the sum of what connections added, plus failed accepts |
| TcpAccounting.MoveAddsItsDelta | internal/protocol/protocol.go:521-608 | a goroutine adds exactly what its connection's share grows by |
| TcpAccounting.CountersAreTheShares | internal/protocol/protocol.go:521-608 | in every interleaving each connection's share is told by where it is, and the counters are their sum |
| TcpAccounting.ActiveIsTheNumberOfHandlers | internal/protocol/protocol.go:521-530 | activeConnections is the number of handlers between their +1 and -1 |
| TcpAccounting.FinalAccount | internal/protocol/protocol.go:521-608 | when all are done: none active, two requests per dialled connection, the bytes and errors of both directions |
| TcpAccounting.BaseHandler.UpdateMetrics | internal/protocol/protocol.go:89-98 | adds each argument to its counter |
| TcpAccounting.BaseHandler.ReportCopy | internal/protocol/protocol.go:557-581 | a direction that ended adds one request, its bytes and an error if it failed |
| TcpAccounting.BaseHandler.HandleConnection | internal/protocol/protocol.go:521-608 | one undisturbed connection adds exactly its share |

## Left out

- Locks.PathIsOrderly: the code paths are written down as sequences of nested critical sections and do not come from the classes of the other modules; locks inside libraries are left out.
- TcpStream.SentIsAPrefixOfRead: bytes that a failing read returns together with its error are not counted as read; the source drops them.
- Registry.Server.HandleTunnel: the clock is read once, and the protocol of the stored tunnel is corrected before anybody else looks.
- Registry.Server.FindTunnel: what `handleTunnelRequest` does after the lookup (counting the visit, redirecting between http and https, the error pages) is left out; forwarding is in `Ownership` and `Multiplexer`.
- Manager.TunnelManager.RemoveTunnel: the stop of the inner tunnel is in `Lifetime` and the Redis call in `ManagerQuota`.
- Manager.TunnelManager.Close: covers a call that nothing interrupts; what is created while it is at work is in `Lifetime`.
- ManagerQuota.CounterIsConserved: counters start at zero; the Redis keys of this manager's users belong to this manager alone; a cleanup is a sequence of removals.
- Persistence.RoundTrip: reading a file that exists succeeds; what the goroutine started for every loaded tunnel does is in `Lifetime`.
- `StartAllTunnels`, `ListTunnels`, the autosave and reconnect loops of the client: no guarantee beyond the maps they read; the reconnect loop only logs, so a restart starts nothing.
- The client's goroutines `handleMessages`, `startHeartbeat`, `handleWebSocketErrors` and `registerTunnel`: they overlap on one connection without a stated guarantee.
- WebSocket and TLS dialling, HTTP proxying and JSON: foreign libraries.
- The `connections` map of `TCPHandler`, and its `Stop`: bookkeeping of sockets next to the counters.
- OAuth, certificates, ACME, DNS, MongoDB and session stores: thin clients of other systems.
- Configuration, YAML, commands, logging, templates, the admin HTML and its middleware: no invariant of shared state.
- `internal/server/tcp.go`: repeats the client's connection table and is never given a connection to send on; its locks are in `Locks`.
- Back-off delays, tickers and real time: only the order of events is modelled.
