# istio-oidc: a verified model

istio-oidc is an external authorization server for Envoy. Each replica keeps the login
sessions of its users, replicates them to its peers, decides requests from a signed bearer
token, maps claims of an OpenID provider to roles, and writes the Envoy patches that send
requests to it in the first place. This project models those parts in Dafny and proves what
they promise, for all inputs and all runs, and where the code does less than it appears to
promise, proves exactly when it does.

`dafny verify dfyconfig.toml` checks everything.

## Modules

- `Sessions.dfy`: the store of one replica: the class `SessionStore` (`Get`, `Set`, `Stream`, `Clean`, `Delete`)
  and the value functions it is proved against. `SessionProperties.dfy`: sequences of operations on it.
- `Streaming.dfy`: a stream while other goroutines set sessions, and the receiving side of a catch-up.
- `Replication.dfy`: version vectors, their encoding, and the handlers of client and server.
- `Peers.dfy`: the class of connections, the table of them, and the handshake. `Readiness.dfy`: all goroutines of one
  replica interleaved, and the once-only readiness signal.
- `Cluster.dfy`: any number of replicas and the messages between them, as a state machine over all runs.
- `Auth.dfy`, `AuthServer.dfy`: the answer to one request, as a value and as the object that computes it.
- `RolePath.dfy`, `Providers.dfy`, `Roles.dfy`: the role-path parser, provider conversion, role extraction, role matching.
- `Policies.dfy`, `EnvoyFilters.dfy`, `Reconciler.dfy`: from policy resources to Envoy patches and back to a route.

## Main results

- In every run, with sessions lost, duplicated and overtaken and entries expiring at any time, every stamped
  session in a store or in flight is the one its origin minted under that serial
  (`Cluster.EverySessionIsIssued`), and a local session is refused exactly when the 64-bit counter wraps
  (`Cluster.LocalSetRefusedExactly`).
- In every run an OK answer means the token was minted earlier at some replica, verifies, is valid, and that each
  role of the route was granted by a role mapping when it was minted, from tokens that a request had obtained
  (`Cluster.OkMeansMinted`); the state token of a login never authenticates (`Cluster.StateTokenNeverAuthenticates`).
- Every answer is pinned case by case (`Auth.AnswerExact`), and so is every way to end the process (`CrashExact`).
- A stream with sets and cleaning around it emits each list as the walk left it and misses nothing that was there
  when it took the delete lock (`Streaming.StreamAmongCleans`); the receiver accepts it in full exactly when nothing
  in it is out of order for it (`Streaming.CatchUpUnderSets`).
- A replica with endpoints is ready only with a tracked connection whose peer named no newer serial than accepted
  here, or whose whole stream was accepted (`Readiness.ReadyOnceForAReason`). In the second case it accepted all that
  peer held from the requested serials on (`WholeStreamHasWhatPeerHeld`); what the first leaves open is said below.
- A new replica that streams from the start ends with the sender's lists, whatever the sender's index is
  (`Streaming.FreshReceiverCopies`).
- The path parser is exactly a grammar (`RolePath.ParserIsGrammar`), panics exactly on empty input and behind a
  valid path and a dot (`RolePath.PanicExact`), and reports each error exactly where it should (`FailureExact`).
- Every Envoy patch leads back to the very route that asked for it, of a policy with the credentials of its secret
  (`EnvoyFilters.EveryPatchResolves`), every route has its patch (`EveryRoutePatched`), and apart from enforced routes
  authorization is off (`CheckedExactly`, `NewEnvoyFilter`).

## Where the code does less than one would expect

The model follows the code; each of these is a theorem.

- A cleaning pass removes one expired entry per list, because the successor of a removed list element is nil:
  `SessionProperties.CleanPassRemovesOldestExpired`, and `PassesDone` says how many passes it takes.
- Two sessions may have the same id: a token is a deterministic function of its claims and expiry. Then expiry of
  one can hide an unexpired other (`SessionProperties.SharedIdHidesUnexpired`); `UnexpiredHiddenExactly` says exactly
  when, for every store, and `SetBreaksIndexExactly` which set leads there.
- A stream asks for serials from the recorded one on, inclusive, while a serial that is not newer is refused, and
  streamed sessions are not recorded: a stream that was accepted and sent anything is refused when it is asked
  for again (`Streaming.CatchUpNotRepeatable`), and a replica asks although it holds every session there is
  (`Cluster.AsksForWhatItHolds`; `UpdateAskedExactly` says when it asks). `Streaming.CatchUpRefusedAgain` says when a
  later stream is accepted, after any changes on both sides.
- Agreeing vectors do not mean agreeing stores: a session that a newer one of its origin overtakes is refused from
  then on (`Cluster.VectorsAgreeStoresDiffer`, `OvertakenStaysOut`, `OvertakenUntilExpiry`). So a replica can be ready
  without it (`Readiness.ReadyWithoutOlder`); `AcceptedAllUpToExactly` and `Cluster.HoldsAllUpToExactly` say when
  nothing is missing.
- The index of a new replica can differ from the sender's when sessions share an id (`Streaming.FreshCopyFindsMore`);
  `FreshIndexExact` and `FreshIndexAlways` say exactly when it does not.
- Before a request is looked at, its location is prepared for the log by a loop that panics on more code than state
  values, and nothing recovers (`Auth.LocationExact`, `CodeWithoutStateCrashes`). A provider's answer without an ID
  token is the only other panic there (`Auth.CrashExact`).
- The escape reader skips one character behind the backslash. Paths printed as section 7 of RFC 8259 has it are
  read back exactly when they need no escape (`RolePath.StandardRoundTripExact`). The printer is the usual one: short
  escapes where there are some, \u00xx for the other control characters, and nothing else escaped.
- A policy is stored under "namespace/name" but deleted by its bare name (`Policies.DeletingByNameMisses`).
- Duplicate Envoy filters are cleared down to one in every order exactly when one is strictly oldest
  (`Reconciler.OneLeftExactly`); two tied for the oldest can always both stay.
- A filter that is gone between the read and the listing makes the reconciler panic, exactly if no other filter of its
  selector is listed (`Reconciler.Reconcile`).

## Assumptions

- Peer ids are distinct and not empty, and a restarted process takes a new one. In `Cluster` no replica issues
  2^64 sessions; `Sessions.Put` itself wraps.
- Sections under a lock and single list operations are atomic; steps of different goroutines interleave freely.
  A streamed element may be any qualifying entry, which allows more runs than the code has.
- `Auth.Lawful`: the hash is injective, a signed token is not empty and decodes and verifies under its own key.
  `Auth.KeyBound`, that it verifies under no other key, is used only where it is named.
- Character tables of Unicode are parameters; only "the dot is pattern syntax" is used. URL parsing, cookie
  printing, the formatting of numbers, the clock, the provider's answers and Kubernetes' lists are parameters too.

## Model

| member | source | states |
|---|---|---|
| Sessions.SessionStore.constructor | state/session/store.go:44-54 | a new store is empty and keeps its invariants |
| Sessions.SessionStore.Get | state/session/store.go:56-62 | the index entry; one that is found has the asked id and a matching list entry |
| Sessions.SessionStore.Set | state/session/store.go:64-94 | the whole new state and result equal `Put`; order and index stay sound |
| Sessions.SessionStore.Stream | state/session/store.go:96-122 | each list once, filtered from the requested serial on, in some order of the map |
| Sessions.SessionStore.StreamList | state/session/store.go:111-116 | the elements of one list with at least the requested serial |
| Sessions.SessionStore.Clean | state/session/store.go:137-153 | the state after one pass, whatever order the lists are visited in |
| Sessions.SessionStore.CleanList | state/session/store.go:144-151 | the walk over a list ends at its first removal |
| Sessions.SessionStore.Delete | state/session/store.go:155-162 | takes one entry off its list and drops its id from the index |
| Sessions.SetKeepsOrder | state/session/store.go:77-90 | a set keeps every list its peer's own and strictly increasing |
| Sessions.SetHolds | state/session/store.go:90-93 | after a set the store holds what it held, and the new entry exactly if it was accepted |
| Sessions.SetKeepsIndexSound | state/session/store.go:90-91 | every index entry still has a matching list entry |
| Sessions.SetKeepsNoZero | state/session/store.go:68-71 | no entry ever carries the stamp that means unstamped |
| Sessions.RefusedSetChangesNothing | state/session/store.go:81-83 | a refused stamped session leaves the store as it was, a refused local one only counts up |
| Sessions.RemoveHolds | state/session/store.go:155-162 | a removal takes that one entry and nothing else |
| Sessions.RemoveKeeps | state/session/store.go:155-162 | a removal keeps order, index soundness and stamps |
| Sessions.RemoveKeepsIndexComplete | state/session/store.go:159-161 | after a removal the index is complete if and only if every other entry was found before and none shares the id |
| Sessions.FirstExpired | state/session/store.go:144-146 | the first expired index, or the length |
| Sessions.CleanOneMore | state/session/store.go:143-151 | visiting one more list is one removal or nothing, in any order |
| SessionProperties.CleanPassRemovesOldestExpired | state/session/store.go:137-162 | a pass takes from each list exactly its oldest expired entry and keeps the order |
| SessionProperties.CleanPassKeepsIndexSound | state/session/store.go:137-162 | after a pass every index entry has a matching list entry |
| SessionProperties.DropFirstCounts | state/session/store.go:144-151 | a pass keeps a list's unexpired entries in order and lowers the expired ones by one |
| SessionProperties.PassesCount | state/session/store.go:137-162 | after n passes a list has n expired entries fewer, and its unexpired ones in order |
| SessionProperties.PassesDone | state/session/store.go:124-153 | no expired entry is left exactly when there were as many passes as any list had expired entries |
| SessionProperties.LookupAfterClean | state/session/store.go:137-162 | for every well-kept store: a pass hides an id exactly if some list's oldest expired entry has it, and changes no other lookup |
| SessionProperties.UnexpiredHiddenExactly | state/session/store.go:137-162 | a pass keeps every unexpired session but stops finding it exactly if an entry it takes has the same id |
| SessionProperties.CleanKeepsIndexExact | state/session/store.go:137-162 | after a pass the index is complete exactly when every entry it leaves was found and none has the id of one it takes |
| SessionProperties.SetBreaksIndexExactly | state/session/store.go:90-91 | a set breaks a complete index exactly if it is accepted and another session with its id is held |
| SessionProperties.IndexAlwaysSound | state/session/store.go:56-94 | after any sequence of sets, removals and passes every index entry has a list entry |
| SessionProperties.AcceptedIsNewer | state/session/store.go:77-90 | an accepted session is newer than all its list held |
| SessionProperties.IndexStaysComplete | state/session/store.go:64-94 | with distinct ids per stamp every list entry stays in the index over any sequence |
| SessionProperties.IndexMatchesScan | state/session/store.go:56-62 | with distinct ids per stamp a lookup equals a scan of all lists |
| SessionProperties.SharedIdHidesUnexpired | state/session/store.go:155-162 | such a store exists: an unexpired session that was found becomes unknown |
| SessionProperties.NoGapsExactly | state/session/store.go:77-90 | a list has all serials up to m exactly when its m-th positive entry is number m |
| SessionProperties.CompleteExactly | state/session/store.go:77-90 | and all up to its last serial exactly when it has that many entries |
| SessionProperties.LastRecord | state/session/store.go:78-84 | the last strict left-to-right maximum is the largest serial |
| SessionProperties.DeliveriesLeaveRecords | state/session/store.go:73-93 | for any order and repetition of deliveries a list is the strict left-to-right maxima of its peer's serials |
| Streaming.SinceFilters | state/session/store.go:111-116 | the emitted part of a list is exactly its qualifying entries |
| Streaming.SinceKeepsOrder | state/session/store.go:111-116 | and in strictly increasing order |
| Streaming.RunKeepsProgress | state/session/store.go:106-120 | in any interleaving the output is the finished lists and the seen part of the current one |
| Streaming.StreamUnderSets | state/session/store.go:96-122 | a completed stream emits each list as it was when the walk left it; that list had only grown |
| Streaming.StreamPerPeer | state/session/store.go:106-120 | per peer the output is strictly increasing and misses no qualifying entry present at the start |
| Streaming.QuietStream | state/session/store.go:106-120 | without sets in between the walk emits what the sequential stream does |
| Streaming.RemovalWaitsForWalk | state/session/store.go:105-120 | with the cleaner and the delete lock as steps: no removal falls into a walk |
| Streaming.LocksAreLocks | state/session/store.go:105-160 | who may go on after taking or giving back the delete lock, and from which store a stream walks |
| Streaming.StreamAmongCleans | state/session/store.go:96-153 | with sets and cleaning at any time a finished stream has every qualifying entry of the moment it took the delete lock, each list in order |
| Streaming.IngestAppend | replication/connection.go:143-166 | receiving in two parts is receiving the whole, unless the first part is refused |
| Streaming.IngestListAccepts | replication/connection.go:160-165 | one peer's increasing entries are all accepted exactly if the first is |
| Streaming.IngestOrderEntries | replication/connection.go:143-166 | after acceptance each list is the old one followed by what was sent of it |
| Streaming.CatchUpExact | replication/connection.go:127-169 | a catch-up is accepted in full exactly when the sender holds nothing from the start up to the receiver's last serial |
| Streaming.CatchUpUnderSets | replication/connection.go:127-169 | the same with any sets at the sender during the stream |
| Streaming.CatchUpNotRepeatable | replication/connection.go:127-169 | an accepted stream that sent anything is refused when repeated, in whatever order of the lists |
| Streaming.CatchUpRefusedAgain | replication/connection.go:127-169 | after any sets and removals on both sides a repeated stream is accepted exactly when nothing the sender still holds is out of order, so it is refused while both keep an entry of the first |
| Streaming.IngestLookup | replication/connection.go:143-166 | after an accepted stream an id is found as its last entry has it |
| Streaming.FreshReceiverCopies | replication/connection.go:127-169 | for every sender a new replica ends with its lists, and finds each id as it comes last in the stream |
| Streaming.FreshIndexExact | replication/connection.go:127-169 | its index is the sender's exactly when the sender finds what comes last in the stream of each id |
| Streaming.FreshIndexAlways | state/session/store.go:110-117 | it is so in every order of the map exactly when the sender finds, of each list and id, the latest entry |
| Streaming.FreshCopyFindsMore | state/session/store.go:155-162 | after a cleaning pass that hides a session a new replica finds what the sender does not |
| Replication.RaiseKeepsMaximum | replication/self.go:53-60 | an update keeps the vector the maximum of all updates and only grows it |
| Replication.UpdateOrderIrrelevant | replication/self.go:53-60 | the order and repetition of updates do not matter |
| Replication.BehindExact | replication/self.go:39-51 | an update is asked for exactly when the peer's vector is not pointwise below one's own |
| Replication.NobodyBehindExact | replication/connection.go:94-98 | neither side asks exactly when the vectors agree everywhere, missing counting as zero |
| Replication.LatestToProto | replication/maps.go:39-45 | every entry of the vector once, in any order |
| Replication.LatestFromProto | replication/maps.go:47-53 | the vector that the stamps decode to |
| Replication.DecodeExact | replication/maps.go:47-53 | the last stamp of a peer wins |
| Replication.VectorRoundTrip | replication/maps.go:39-53 | decoding an encoding gives the vector back, whatever the order |
| Replication.HandshakeExact | replication/connection.go:41-63 | over the wire too, nobody asks exactly when the vectors agree |
| Replication.Self.constructor | replication/self.go:19-26 | starts with nothing recorded |
| Replication.Self.CopyLatest | replication/self.go:28-37 | the copy equals the vector |
| Replication.Self.NeedsUpdate | replication/self.go:39-51 | true exactly if the peer's vector is somewhere larger |
| Replication.Self.Update | replication/self.go:53-60 | records a larger serial and changes nothing else |
| Peers.ServerHandshake | replication/server.go:20-42 | one's own id is turned away without a trace; any other peer gets an encoding of the vector and a connection, and a live one is updated |
| Replication.ServerSetSession | replication/server.go:44-64 | sets the session and records its stamp exactly if it was accepted |
| Replication.ClientSetSession | replication/client.go:13-21 | records the serial under the own id and starts one send per connection |
| Replication.StreamSessions | replication/connection.go:127-169 | stops at the first refusal; live exactly if all was accepted and the stream ended by itself; records nothing |
| Replication.PushedInAnyOrder | replication/server.go:54-57 | for pushes in any order the lists are the maxima and the recorded serial is the largest delivered |
| Peers.Connection.Update | replication/connection.go:94-107 | live exactly when nothing was to fetch or the stream was accepted in full |
| Readiness.UpdateIsSteps | replication/connection.go:94-107 | undisturbed, the steps of an update do the same |
| Peers.Connection.Reestablish | replication/connection.go:65-88 | clears live exactly if the guard was free, and leaves the guard taken exactly if it was or the connection was cancelled |
| Peers.Table.Refresh | replication/peers.go:36-59 | keeps the connections of the found endpoints, drops the others, and exactly those are dead; a failed lookup changes nothing |
| Peers.Table.GetConnection | replication/peers.go:61-73 | the endpoint's one connection, new exactly if there was none |
| Peers.Table.GetConnections | replication/peers.go:75-84 | each connection once |
| Readiness.OneReestablishes | replication/connection.go:65-88 | in every interleaving at most one goroutine re-establishes a connection, and it has the guard |
| Readiness.GivenUpForGood | replication/connection.go:75-86 | after a cancellation the guard is never reset |
| Readiness.ReestablishIsSteps | replication/connection.go:65-88 | undisturbed, the steps of a call do what the method promises |
| Readiness.StepKeepsTable | replication/peers.go:36-73 | endpoints keep connections of their own; dropped ones are dead and only those |
| Readiness.DeadExactlyWhenDropped | replication/peers.go:43-73 | in every interleaving exactly the connections that no endpoint uses are dead |
| Readiness.RunKeepsInv | replication/worker.go:35-71 | in every interleaving a live flag has an update behind it that caught up, and all such an update stands for was accepted |
| Readiness.ReadyAtOnce | replication/worker.go:43-63 | a refresh without endpoints, and a look at a live connection, close the channel |
| Readiness.ReadyOnceForAReason | replication/worker.go:15-71 | closed at most once, and only with no endpoints or a tracked connection whose update found nothing beyond what was accepted here, or got a whole stream accepted |
| Readiness.WholeStreamHasWhatPeerHeld | replication/connection.go:127-169 | an update that received a peer's whole stream had everything accepted that the peer held from the requested serials on |
| Readiness.AcceptedAllUpToExactly | replication/connection.go:94-105 | while nothing expires, all sessions of an origin up to number m were accepted exactly when the m-th entry is number m |
| Readiness.ReadyWithoutOlder | replication/connection.go:94-105 | a replica can be ready although a session older than the vectors name was never accepted |
| Cluster.PutKeepsGood | state/session/store.go:64-94 | setting an issued session keeps a store genuine and in order |
| Cluster.OwnSessionAccepted | state/session/store.go:68-90 | a local session gets the next serial and is accepted |
| Cluster.LoginKeepsInv | auth/check.go:184-185 | minting keeps the invariant of all replicas |
| Cluster.DeliverKeepsInv | replication/server.go:44-64 | receiving a push keeps it |
| Cluster.RecordKeepsInv | replication/self.go:53-60 | recording a serial keeps it |
| Cluster.SendKeepsInv | replication/connection.go:109-125 | sending sessions and vectors keeps it |
| Cluster.IngestKeepsInv | replication/connection.go:143-166 | receiving one streamed session keeps it |
| Cluster.ExpireKeepsInv | state/session/store.go:137-162 | deleting any entry at any time keeps it |
| Cluster.RunKeepsInv | replication/client.go:13-21 | the invariant holds after every run |
| Cluster.EverySessionIsIssued | state/session/store.go:64-94 | in every run each session around is what its origin issued, and one stamp means one session |
| Cluster.LocalSetRefusedExactly | auth/check.go:184-185 | in every run a local session is refused exactly if the counter wraps while the replica holds sessions of its own |
| Cluster.RequestIsLogin | auth/check.go:158-185 | in every run a request that is answered stores, records and pushes one fresh session or changes nothing |
| Cluster.PushIsSteps | replication/server.go:44-64 | receiving a push is a delivery, and a record if it was accepted |
| Cluster.StreamIsSteps | state/session/store.go:110-117 | each element of an answering stream is a step of the cluster |
| Cluster.CatchUpIsSteps | replication/connection.go:143-166 | receiving a stream is a sequence of steps, up to the first refusal |
| Cluster.CleanIsSteps | state/session/store.go:137-153 | a cleaning pass is a sequence of deletions, in any order |
| Cluster.VectorInEveryRun | replication/server.go:54-57 | in every run a vector is the maximum of its updates, names only stamps its own store accepted, and none above the origin's counter |
| Cluster.VectorsOnlyGrow | replication/self.go:53-60 | over a run a vector only grows for as long as its replica is there |
| Cluster.UpdateAskedExactly | replication/connection.go:94-98 | in every run a replica asks exactly if the peer names an issued serial newer than all it has recorded of that origin |
| Cluster.AsksForWhatItHolds | replication/connection.go:160 | it may hold that session all the same: a streamed one is not recorded |
| Cluster.VectorsAgreeStoresDiffer | state/session/store.go:78-84 | vectors can agree although one store lacks a session that the other holds |
| Cluster.HeldAnewExactly | state/session/store.go:78-93 | a replica comes to hold a session exactly by setting it while nothing as new of that origin is in its list |
| Cluster.OvertakenStaysOut | state/session/store.go:78-84 | in every run an overtaken session is kept out for as long as a newer one of its origin is in the list |
| Cluster.OvertakenUntilExpiry | state/session/store.go:155-162 | only a deletion of that origin's entries can end that |
| Cluster.HoldsAllUpToExactly | state/session/store.go:77-90 | in every run a replica holds an origin's first m sessions exactly when its m-th entry of it is number m |
| Cluster.KnownTokenIsMinted | auth/check.go:76-81 | a token whose hash is in an index was minted at some replica |
| Cluster.OkMeansMinted | auth/check.go:25-82 | an OK answer in any run means an earlier mint that verifies, is valid now, and granted every role by a mapping; mappings and claims are those of the policy and tokens of a request that obtained them |
| Cluster.StateTokenNeverAuthenticates | auth/check.go:96-97 | a login state token is never accepted as a bearer token |
| Auth.LocationExact | auth/messages.go:29-40 | logging the location panics exactly with more code than state values, else replaces the state values only |
| Auth.BearerExact | auth/messages.go:42-50 | the value of the first cookie named "bearer", or nothing |
| Auth.AuthenticateExact | auth/check.go:64-82 | known exactly with a token that verifies, is read and is in the store |
| Auth.ValidExact | auth/jwt.go:14-18 | expired exactly if before, after, or issued in the future |
| Auth.AnswerExact | auth/check.go:25-204 | the whole answer case by case: status, headers, store, vector, mint and what is sent |
| Auth.OkExact | auth/check.go:25-82 | OK exactly for a known, valid token that covers the route's roles, on a request whose location can be logged |
| Auth.NewMintExact | state/openidprovider/token.go:12-62 | what is minted of the provider's answer, field by field, and when |
| Auth.MintIsObtained | auth/check.go:110-185 | every mint is made of the tokens that the request itself obtained, by its policy's mappings |
| Auth.GrantedExact | auth/check.go:216-223 | of each name the last header that the caller has the roles for |
| Auth.CrashExact | auth/check.go:25-62 | the process ends exactly on more code than state values, or on a usable answer of the provider without an ID token |
| Auth.CodeWithoutStateCrashes | auth/messages.go:35-37 | any request with a code and no state ends it |
| Auth.HeaderSentExact | auth/check.go:216-223 | a header is sent exactly if the caller has the roles of some header of that name |
| Auth.LastEligibleWins | auth/check.go:216-221 | of several such headers the last one's value is sent |
| Auth.CheckMintsOrKeeps | auth/check.go:25-43 | every request mints one session that way, or leaves the lists alone |
| Auth.LoginRoundTrip | auth/check.go:84-140 | a whole login returns to the path asked for, and the cookie then authenticates with the granted roles |
| AuthServer.Server.Check | auth/check.go:25-62 | a panic, or answer, store, vector and sends as specified |
| AuthServer.Server.IsAuthenticated | auth/check.go:64-82 | claims and session of a verified token in the store |
| AuthServer.Server.FinishOidc | auth/check.go:110-140 | bad callbacks are refused without change, a good one sets a token |
| AuthServer.Server.UpdateToken | auth/check.go:142-156 | a failed refresh is refused without change |
| AuthServer.Server.SetToken | auth/check.go:158-204 | sets the session, records and pushes it, redirects |
| AuthServer.Server.Authorize | auth/check.go:206-224 | decision and headers |
| AuthServer.BearerLoop | auth/messages.go:42-50 | the first bearer cookie, or nothing |
| AuthServer.LocationLoops | auth/messages.go:29-40 | the two loops compute the logged query or panic |
| RolePath.Span | state/openidprovider/path.go:79-86 | the longest run of continuing characters |
| RolePath.UnquotedLoop | state/openidprovider/path.go:73-91 | an unquoted identifier at maximal length |
| RolePath.QuotedLoop | state/openidprovider/path.go:93-118 | the loop computes the quoted identifier |
| RolePath.ParseRolePath | state/openidprovider/path.go:9-40 | the loop computes the parse on every input, the panic included |
| RolePath.EscapedExact | state/openidprovider/path.go:120-166 | what is read behind a backslash is exactly one skipped character and a letter or four hexadecimal digits |
| RolePath.ShortReads | state/openidprovider/path.go:128-145 | what each letter stands for |
| RolePath.NumberReads | state/openidprovider/path.go:152-166 | four digits in either case are read as the character of that number, and a surrogate half as U+FFFD |
| RolePath.HexExact | state/openidprovider/path.go:160-163 | there are no other digits |
| RolePath.NameExact | state/openidprovider/path.go:42-71 | which characters start and continue an identifier |
| RolePath.BodyFailsExact | state/openidprovider/path.go:93-166 | which error a quoted identifier is refused with, and where |
| RolePath.FailureExact | state/openidprovider/path.go:9-40 | the parser reports an error exactly where, behind whole identifiers and dots, reading stops with it |
| RolePath.PieceParses | state/openidprovider/path.go:97-115 | each piece of a quoted identifier is read with its meaning; surrogate codes mean U+FFFD |
| RolePath.BodyIsPieces | state/openidprovider/path.go:93-118 | whatever is read as quoted is a sequence of pieces |
| RolePath.SegmentParses | state/openidprovider/path.go:13-26 | each identifier of the grammar is read with its meaning |
| RolePath.IdentifierIsSegment | state/openidprovider/path.go:73-118 | whatever is read is one, and a bare one is as long as possible |
| RolePath.PathParses | state/openidprovider/path.go:9-40 | every path of the grammar is parsed with its meaning, nothing left over |
| RolePath.ParsedIsPath | state/openidprovider/path.go:9-40 | whatever is parsed is a path of the grammar |
| RolePath.ParserIsGrammar | state/openidprovider/path.go:9-40 | the parser yields a list on exactly the texts of the grammar that mean it |
| RolePath.ParsedIdentifiers | state/openidprovider/path.go:24-39 | success leaves nothing over and yields non-empty identifiers |
| RolePath.PanicExact | state/openidprovider/path.go:15 | the out-of-range read happens exactly on empty input and behind a valid path and a dot |
| RolePath.RoundTrip | state/openidprovider/path.go:120-126 | printing with one filler behind each backslash, control characters escaped too, and parsing gives the list back |
| RolePath.BodyConsumes | state/openidprovider/path.go:120-126 | what is read is longer than the standard spelling of its value, by one for each character that needs an escape |
| RolePath.CrossingTheQuote | state/openidprovider/path.go:93-118 | a parse can run over a closing quote only by reading it as an escaped one |
| RolePath.StandardRoundTripExact | state/openidprovider/path.go:120-150 | standard quoting is read back exactly when no character needs an escape: no quote, backslash or control character |
| RolePath.PlainExact | state/openidprovider/path.go:101-104 | what needing no escape means, character by character |
| Providers.ConvertMappingsLoop | state/openidprovider/convert.go:37-54 | the loop returns the mappings or what is wrong with the first bad one |
| Providers.ConvertedAreFaithful | state/openidprovider/convert.go:37-54 | each mapping says what its entry writes in the path grammar, and has a path of non-empty identifiers |
| Providers.SourceExact | state/openidprovider/convert.go:10-14 | the access token by its name or by none, the ID token by its name, nothing else |
| Providers.ConvertsExact | state/openidprovider/convert.go:37-54 | conversion succeeds exactly if every source is known and every path is one of the grammar |
| Providers.FirstBadDecides | state/openidprovider/convert.go:39-49 | the first bad entry decides what is reported |
| Providers.ConvertedNeverLackPath | state/openidprovider/roles.go:8-11 | extraction by a converted provider fails only on claims of the wrong shape |
| Roles.ConvertSliceLoop | state/openidprovider/roles.go:44-54 | all elements as text, or an error at the first that is no scalar |
| Roles.ConvertValueExact | state/openidprovider/roles.go:56-69 | the text of each scalar, and none for arrays and objects |
| Roles.ConvertSliceExact | state/openidprovider/roles.go:44-54 | the texts of the elements in order, and an error exactly if one is no scalar |
| Roles.ExtractExact | state/openidprovider/roles.go:8-42 | exactly the roles written at the path, and an error exactly on a wrong shape |
| Roles.CollectRolesLoop | state/openidprovider/token.go:37-54 | the loop collects the roles of all mappings by prefix or fails |
| Roles.CollectFails | state/openidprovider/token.go:47-51 | it fails exactly if some mapping has no path or finds a wrong shape in the token it names |
| Roles.CollectExact | state/openidprovider/token.go:37-54 | a role is collected exactly if some mapping gives it |
| Roles.HasRoles | auth/roles.go:3-32 | allowed exactly if every required role is a prefix followed by one of its roles |
| Roles.AccessExact | auth/roles.go:3-32 | access is granted exactly if every required role comes from some mapping |
| Roles.MappingOrderIrrelevant | state/openidprovider/token.go:37-54 | the order and repetition of mappings matter for nothing |
| Policies.ConvertRoutesLoop | state/accesspolicy/convert.go:30-39 | the loop fills the routes and the default |
| Policies.ConvertRouteLoop | state/accesspolicy/convert.go:85-120 | a route with its headers, enforced unless switched off |
| Policies.ConvertRoutesExact | state/accesspolicy/convert.go:30-39 | a name stands for the last route of that name, "" for the default |
| Policies.EnforcedExact | state/accesspolicy/convert.go:89-93 | a route is enforced exactly if its last entry does not switch that off |
| Policies.LastNamedExact | state/accesspolicy/convert.go:32-39 | the last entry of a name |
| Policies.MeansExact | state/accesspolicy/convert.go:85-120 | what a route means: enforced unless switched off, its roles, its headers in order |
| Policies.ConvertExact | state/accesspolicy/convert.go:21-83 | conversion succeeds exactly with a parsable callback and all three keys, and every field is what the resource and the secret say |
| Policies.ConversionsAgree | state/accesspolicy/convert.go:55-83 | without credentials it needs the callback only, and the rest agrees |
| Policies.PolicyNameInjective | state/accesspolicy/convert.go:21-25 | "namespace/name" is the same exactly for the same resource |
| Policies.StoreHasCurrent | state/accesspolicy/store.go:33-40 | over any sequence of reconciles the store has what each resource's last convertible version says |
| Policies.ResolveFindsMeant | auth/server.go:28-38 | the names of a policy and route find the policy as its resource and secret say, and the very route; an unknown route is an error |
| Policies.KnownExact | state/accesspolicy/store.go:33-40 | a policy is known by exactly the names of resources that converted |
| Policies.UnknownExact | auth/server.go:28-31 | without a known name there is no policy |
| Policies.DeletingByNameMisses | controller/accesspolicy/worker.go:97-102 | deleting by the bare name removes nothing |
| EnvoyFilters.NewEnvoyFilter | controller/envoyfilter/envoyfilter.go:16-73 | exactly one patch concerns the whole gateway and disables; one filter asks the cluster by its name; a cluster is renamed exactly if it is Istio's; all others are those of the policies, in any map order |
| EnvoyFilters.FilterExact | controller/envoyfilter/envoyfilter.go:23-50 | the fixed patches and those of the policies make just that |
| EnvoyFilters.CheckedExactly | controller/envoyfilter/envoyfilter.go:108-122 | checking is switched on exactly by enforced routes, each under its policy's and its own name |
| EnvoyFilters.AllPatchesExact | controller/envoyfilter/envoyfilter.go:52-72 | a patch of a policy is one of its default or named routes on one of its hosts |
| EnvoyFilters.FetchExact | controller/envoyfilter/reconciler.go:94-115 | what is fetched is what the convertible resources of the selector say |
| EnvoyFilters.PolicyLoop | controller/envoyfilter/envoyfilter.go:53-71 | the patches of one policy, host by host |
| EnvoyFilters.VhostLoop | controller/envoyfilter/envoyfilter.go:54-70 | one patch for the host and one for each route |
| EnvoyFilters.AllPatchesSize | controller/envoyfilter/envoyfilter.go:52-72 | one patch per virtual host and one per virtual host and route |
| EnvoyFilters.EveryPatchResolves | controller/envoyfilter/envoyfilter.go:108-129 | a patch is disabled exactly if its route is, and otherwise, once the worker has that version of the resource, its names lead the server to that route |
| EnvoyFilters.EveryRoutePatched | controller/envoyfilter/envoyfilter.go:52-72 | every virtual host and route of a resource has its patch |
| Reconciler.IsDuplicate | controller/envoyfilter/reconciler.go:69-92 | panics exactly if no filter of the selector is listed; else a duplicate is a filter not named as the one sorted first, which is one of the oldest |
| Reconciler.FetchAccessPolicies | controller/envoyfilter/reconciler.go:94-115 | the convertible policies of the selector, without credentials |
| Reconciler.Reconcile | controller/envoyfilter/reconciler.go:22-67 | panics in that case only, deletes a duplicate or a filter to which no convertible policy applies, otherwise fills in the expected patches |
| Reconciler.ReconcileIsTurn | controller/envoyfilter/reconciler.go:34-41 | the decision on a listed filter is one turn of the runs below, and no panic |
| Reconciler.OldestAgeStays | controller/envoyfilter/reconciler.go:34-41 | no order of reconciles deletes the last filter of the oldest age |
| Reconciler.SurvivorsAreOldest | controller/envoyfilter/reconciler.go:69-92 | once each had its turn only filters of the oldest age are left |
| Reconciler.OnlyTheOldestIsLeft | controller/envoyfilter/reconciler.go:22-67 | a strictly oldest filter is never deleted and ends up alone |
| Reconciler.TiedFiltersCanBothStay | controller/envoyfilter/reconciler.go:85-91 | of any filters with two oldest ones both can stay although each had its turn |
| Reconciler.OneLeftExactly | controller/envoyfilter/reconciler.go:69-92 | every complete run ends with one filter exactly when one is strictly oldest |

## Left out

- Dialing, back-off, connection states, logging and metrics: a failing connection is a step that may happen at any time.
- Liveness, missed wake-ups on condition variables and deadlock: the code promises none.
- Cryptography, token serialization, the OAuth2 exchange, fetching keys and claims: parameters with stated laws.
- A message of a peer without its session or stamp: peers send both.
- Conversion of sessions and stamps to and from messages: field by field, the identity.
- Taking the configured cluster name apart and formatting the timeout: both are parameters of `EnvoyFilters.Config`.
- Envoy's own merging of patches, and the reconciliation of gateways, secrets and status by the leader.
- Validation and defaults of resources, configuration, telemetry, discovery of endpoints.
- That goroutines share a connection's flags without a lock is modelled as steps in any order; waiting on the
  condition variable, resetting the back-off and closing the transport have no effect in the model.
- The cleaner in `Cluster` may delete any entry at any time; that it deletes only expired ones is stated of
  `Sessions.SessionStore.Clean`.
- The library's sort is represented by its effect: one of the oldest filters comes first.
- Copying a list of role names into a new list is the identity.
