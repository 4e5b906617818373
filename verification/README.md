# Verified models of the storage transport library

This project models, in Dafny, the parts of the transport library that are protocols, refinements or
ownership rules, and proves what they promise. `dafny verify dfyconfig.toml` checks all of it.

Native calls (sockets, paramiko, httpx, zlib, fsspec) are nondeterministic: they may fail wherever the
original handles a failure. Python exceptions are result values. Time and delays are reals.

| file | what it models |
|---|---|
| `TunnelForwarder.dfy` | the forwarder's threads as an interleaving of atomic steps with an inductive invariant |
| `TunnelConnection.dfy` | connect, disconnect and teardown of the tunnelled connection over a log of cleanups |
| `Connections.dfy` | the SSH and SFTP connections under arbitrary native failures |
| `HttpRetry.dfy`, `HttpRetryLaws.dfy` | the two retry loops, the retry protocol both obey, and when they agree |
| `HttpRedirects.dfy` | the redirect and auth-flow loop and the responses it owns |
| `Confinement.dfy` | path confinement over a filesystem with symbolic links |
| `Enumeration.dfy`, `ListObjects.dfy` | Local and SFTP enumeration against one specification |
| `RemotePaths.dfy`, `SftpMkdir.dfy` | ancestor chains; recursive mkdir racing other clients |
| `RangedRead.dfy` | the seekable reader pinned to one object version |
| `Checksum.dfy`, `GzipFormat.dfy`, `GzipEncoder.dfy` | CRC-32; the gzip member format; the lazy encoder |
| `BoundedDecoder.dfy` | the gzip decoder with a limit |
| `Pipelines.dfy`, `GzipLayers.dfy`, `StreamOwnership.dfy` | what a pipeline of transforms produces; its gzip layer through the two streams; who closes what |
| `StreamErrors.dfy` | the search for a caller's error in an exception graph |
| `Common.dfy` | option, result and byte shapes |

How the models read:

- An object that the source updates in place is a class with those fields; a loop that the source
  writes is a loop here, proved against a function, a specification multiset or a log predicate.
- A run of a concurrent component is any sequence of enabled steps, so a statement about reachable
  states holds for every schedule. The forwarder is therefore a state machine on values.
- A class that talks to the outside keeps a log of what it did. `Orderly` logs are the invariant, and
  separate lemmas say what an orderly log means (closed exactly once, in this order).
- Retry-After: the engine caps a large value at `max_retry_after` (`engine.py` 436-437 and 503-507),
  while the comment in `policy.py` 61-62 says such a response is not retried. The model follows the
  code.
- `request` and `stream` do not agree on every policy. `HttpRetryLaws.LoopsAlwaysAgreeExactlyWhen` gives
  the exact condition over all servers, `LoopsAgreeExactlyWhen` the one when refresh() raises no httpx
  error, and `LoopsDifferOn` a server for each policy that violates it.
- `_resolve` asks whether a path lexists, not whether it exists, so it may rewrite a dangling link. What
  `confine_local` promises then holds for anchored locations; `UnanchoredLocationMayBeALink` is an input
  outside of them, and `LinkFreeExactlyWhen` and `StableExactlyWhen` are the exact conditions.
- Local and SFTP enumeration can part on a link to itself: Local raises, while a server that reports it
  as missing lets SFTP return. `BackendsFailAlikeExactlyWhen` says exactly when they fail alike.

## Model

| member | source | states |
|---|---|---|
| `TunnelForwarder.ReachableInv` | src/mountainash_transport/connections/tunnel.py:60-182 | every state reached by any interleaving of the serving thread, any number of workers and the stopping owner satisfies one inductive invariant on sockets, threads, recorded errors and time |
| `TunnelForwarder.StepKeepsInv` | src/mountainash_transport/connections/tunnel.py:104-182 | each atomic step of each thread, whatever its native calls raise, keeps that invariant |
| `TunnelForwarder.EverySocketIsOwned` | src/mountainash_transport/connections/tunnel.py:125-149 | an accepted socket is closed, in the table, or held by the serving thread that is about to register or refuse it; one in the table has a live worker or a worker about to start |
| `TunnelForwarder.NothingRegisteredAfterStop` | src/mountainash_transport/connections/tunnel.py:125-155 | once the stop flag is set no step registers a socket, and the snapshot covers the whole table |
| `TunnelForwarder.RemovedOnlyAfterClose` | src/mountainash_transport/connections/tunnel.py:134-149 | a socket leaves the table only after its close was attempted |
| `TunnelForwarder.StopClosesEverySocket` | src/mountainash_transport/connections/tunnel.py:151-161 | when the stop loop is done every accepted socket has been closed, except one the serving thread still holds and will refuse; when that thread is dead, every one |
| `TunnelForwarder.NormalReturnMeansQuiet` | src/mountainash_transport/connections/tunnel.py:163-182 | a normal return of wait_stopped: the serving thread is dead, each snapshotted worker is dead or can never start, every socket and channel had its close attempted, no cleanup call ever raised |
| `TunnelForwarder.QuietForever` | src/mountainash_transport/connections/tunnel.py:117-182 | no continuation of the run undoes that, and no further socket is ever accepted |
| `TunnelForwarder.AliveThreadIsReported` | src/mountainash_transport/connections/tunnel.py:165-178 | when every thread was looked at, a serving thread or snapshotted worker that is not dead for good makes wait_stopped end in a timeout |
| `TunnelForwarder.DeadThreadsAreNotReported` | src/mountainash_transport/connections/tunnel.py:163-182 | when the serving thread is dead and no snapshotted worker can run at the call of wait_stopped, every run in which it returns ends normally, or with the recorded cleanup error: it never times out without reason |
| `TunnelForwarder.ServerIsGivenASecond` | src/mountainash_transport/connections/tunnel.py:164-166 | in every run the serving thread is reported only when a whole second has passed since wait_stopped was called |
| `TunnelForwarder.OwnerGoesOn` | src/mountainash_transport/connections/tunnel.py:151-182 | until it returns the stopping owner has a next step in every reachable state, whatever its cleanup calls raise, unless a join is over its time |
| `TunnelForwarder.OwnerEnds` | src/mountainash_transport/connections/tunnel.py:151-182 | and each of its steps brings the return nearer |
| `TunnelForwarder.ServingThreadEnds` | src/mountainash_transport/connections/tunnel.py:117-140 | after the stop flag the serving thread has at most 7 steps left |
| `TunnelForwarder.WorkersEnd` | src/mountainash_transport/connections/tunnel.py:142-149 | each step of a worker brings its end nearer, and no other thread sets it back |
| `TunnelForwarder.StoppedWorkersOpenNoChannel` | src/mountainash_transport/connections/tunnel.py:26-31 | a worker that has not reached open_channel when the flag goes up never opens a channel, in any run |
| `TunnelForwarder.ShutdownComesFirst` | src/mountainash_transport/connections/tunnel.py:104-115 | whoever closes a socket has tried to shut it down before |
| `TunnelForwarder.JoinRaisesOnlyDuringStart` | src/mountainash_transport/connections/tunnel.py:135-169 | join() of a worker raises exactly when the worker has an ident and is not yet marked started; the serving thread is then still in its start() and was already found alive |
| `TunnelForwarder.JoinsTakeAtMostOneSecond` | src/mountainash_transport/connections/tunnel.py:164-169 | the time spent in join() is at most 1.0 s for any number of workers |
| `TunnelForwarder.FirstErrorIsReported` | src/mountainash_transport/connections/tunnel.py:99-182 | over any run, the cleanup error that wait_stopped reports is the first one recorded |
| `TunnelConnection.TunnelledConnection.Teardown` | src/mountainash_transport/connections/tunnel.py:248-274 | every cleanup action is attempted, in the order inner, stop, SSH, wait, whichever raise; afterwards nothing is held or owed |
| `TunnelConnection.TunnelledConnection.Connect` | src/mountainash_transport/connections/tunnel.py:280-305 | success: SSH is up, and a new forwarder and a new, connected inner connection for its port are held; failure: whatever had been built is cleaned up in order with the SSH connection, nothing is held, and the error is the first one, not that of the cleanup; it fails only when the teardown or one of its calls did, and connects SSH only when it is down |
| `TunnelConnection.TunnelledConnection.Build` | src/mountainash_transport/connections/tunnel.py:284-297 | what was started and made is exactly what is held, also when a later step raises |
| `TunnelConnection.TunnelledConnection.Disconnect` | src/mountainash_transport/connections/tunnel.py:307-308 | the teardown including SSH |
| `TunnelConnection.RunAll` | src/mountainash_transport/connections/tunnel.py:280-308 | every run of connects and disconnects keeps the log orderly; after a disconnect nothing is owed |
| `TunnelConnection.EachCleanupIsTriedOnce` | src/mountainash_transport/connections/tunnel.py:248-305 | over any orderly log: an inner connection's disconnect and a forwarder's stop and wait are owed or were attempted exactly once, and nothing else was |
| `TunnelConnection.RaisedIsTheWorst` | src/mountainash_transport/connections/tunnel.py:264-274 | nothing is raised iff nothing failed; otherwise the latest timeout is raised, or the first failure when none timed out |
| `TunnelConnection.TimeoutsSurface` | src/mountainash_transport/connections/tunnel.py:266-274 | a timeout of any action is raised as a timeout; that of wait_stopped as itself |
| `TunnelConnection.PlanClimbs` | src/mountainash_transport/connections/tunnel.py:252-259 | the order of the actions for every combination of what is held |
| `Connections.SSHConnection.Connect` | src/mountainash_transport/connections/ssh.py:31-80 | afterwards a new authenticated client is held, or nothing; which steps are taken, and which error each native failure becomes: an unknown policy, a failing close of the old client, set-up, timeout, any other exception |
| `Connections.SSHConnection.Disconnect` | src/mountainash_transport/connections/ssh.py:82-88 | the client is detached and its close attempted once; an Exception of it becomes a connection error, anything else passes through |
| `Connections.SFTPConnection.Connect` | src/mountainash_transport/connections/sftp.py:23-42 | afterwards a new channel over a client is held, or neither; the error is the first one; a connected client stays the same |
| `Connections.SFTPConnection.CloseChannel` | src/mountainash_transport/connections/sftp.py:44-50 | the channel is detached and its close attempted once |
| `Connections.SFTPConnection.Disconnect` | src/mountainash_transport/connections/sftp.py:52-63 | channel first, then client, both attempted whatever raises; the first error is reported |
| `Connections.EachIsClosedOnce` | src/mountainash_transport/connections/sftp.py:23-63 | over every run: a client or channel that was handed out is open now or had its close attempted exactly once |
| `Connections.ChannelsCloseBeforeTheClient` | src/mountainash_transport/connections/sftp.py:52-63 | a client is closed only after every channel opened before it |
| `Connections.RunAll` | src/mountainash_transport/connections/sftp.py:23-63 | any run of connects and disconnects keeps the log orderly, and a disconnect leaves nothing open |
| `HttpRetry.Request` | src/mountainash_transport/_core/http/engine.py:368-471 | the loop of request() computes the ending that RequestFrom defines, for every policy, call and server |
| `HttpRetry.Stream` | src/mountainash_transport/_core/http/engine.py:495-564 | the loop of stream() computes StreamFrom; every response it received is closed except exactly the yielded one, and before each pause and refresh |
| `HttpRetryLaws.RequestIsLegal` | src/mountainash_transport/_core/http/engine.py:368-471 | every trace of request() is one the retry protocol allows: pauses of the due length, only where a retry of this method and body, or a refresh, is permitted |
| `HttpRetryLaws.StreamIsLegal` | src/mountainash_transport/_core/http/engine.py:511-559 | the same for stream(), whose body can always be sent again |
| `HttpRetryLaws.RetryIsBounded` | src/mountainash_transport/_core/http/engine.py:365-471 | both loops: at most max(1, max_attempts) + 1 send chains, one refresh that spends no attempt, max(1, max_attempts) - 1 pauses |
| `HttpRetryLaws.SleepIsBounded` | src/mountainash_transport/_core/http/engine.py:393-509 | total sleep is at most (max(1, max_attempts) - 1) * max(backoff_max, max_retry_after) |
| `HttpRetryLaws.UnsafeRequestsAreNotReplayed` | src/mountainash_transport/_core/http/engine.py:386-468 | a non-idempotent request is resent only after a 429 or a granted refresh, unless the policy allows it |
| `HttpRetryLaws.BodiesAreNotResent` | src/mountainash_transport/_core/http/engine.py:386-468 | request() resends a body that is not replayable only after a 429 or a granted refresh |
| `HttpRetryLaws.RequestStopsWhenItMust` | src/mountainash_transport/_core/http/engine.py:369-471 | request() reports its last send chain, and stops only on a final outcome, with its attempts spent, or after a refresh that did not succeed |
| `HttpRetryLaws.StreamStopsWhenItMust` | src/mountainash_transport/_core/http/engine.py:512-559 | the same for stream(), which goes on after a refused refresh |
| `HttpRetryLaws.PausesFollowTheBackoff` | src/mountainash_transport/_core/http/engine.py:394-509 | without jitter and Retry-After the first pause is the base and each is twice the one before, both up to the maximum; they never decrease, and a refresh does not advance them |
| `HttpRetryLaws.LoopsAgreeExactlyWhen` | src/mountainash_transport/_core/http/engine.py:368-559 | with a replayable body the two loops give the same trace and outcome on every server on which refresh() raises no httpx error iff the policy is compatible (no 3xx in retry_on_status, and 401 not in it when auth can be refreshed, or no retry possible at all) |
| `HttpRetryLaws.LoopsAlwaysAgreeExactlyWhen` | src/mountainash_transport/_core/http/engine.py:368-559 | on every server whatsoever they agree iff the policy is compatible and auth cannot be refreshed |
| `HttpRetryLaws.RefreshFailureDecides` | src/mountainash_transport/_core/http/engine.py:418-559 | when refresh() raises an httpx error, compatible loops still send and pause alike; the outcomes differ iff the run reaches the refresh, and then only in the mapping |
| `HttpRetryLaws.LoopsAgreeFrom` | src/mountainash_transport/_core/http/engine.py:368-559 | the agreement from any point of the two loops, for one server |
| `HttpRetryLaws.LoopsDifferOn` | src/mountainash_transport/_core/http/engine.py:424-449 | for every incompatible policy a server on which the loops differ |
| `HttpRetryLaws.LoopsAgreeAfterGrantedRefresh` | src/mountainash_transport/_core/http/engine.py:418-449 | when refresh() returns True, keeping 3xx out of retry_on_status is enough |
| `HttpRetryLaws.RefreshFailureIsMappedByStreamOnly` | src/mountainash_transport/_core/http/engine.py:531-559 | an httpx error raised by refresh() is mapped by stream() and passes through request() |
| `HttpRedirects.SendWithRedirects` | src/mountainash_transport/_core/http/engine.py:239-279 | for any server and finite auth flow, also one that reads bodies: at most max_redirects redirects, a passed location check right before each send, every response closed except a returned streaming one, history exactly the earlier responses in order, their bodies read; the returned response is read and closed iff it is not streamed or the flow reads bodies. The auth flow is given every response without a redirect to follow, settled on the returned one, is closed, and its requests are sent in its order; an error is the last native failure, or the redirect limit |
| `HttpRedirects.Round` | src/mountainash_transport/_core/http/engine.py:245-275 | one iteration: what it received, what the auth flow saw and asked for, and which request, result or exception follows |
| `HttpRedirects.Decide` | src/mountainash_transport/_core/http/engine.py:255-268 | a followed link comes before the auth flow, which is otherwise asked; the result is a response it settled on; the limit is hit iff a link is to be followed and no redirect is left |
| `HttpRedirects.Receive` | src/mountainash_transport/_core/http/engine.py:246-254 | the next response is linked to all earlier ones |
| `Confinement.ConfinedPathStaysInside` | src/mountainash_transport/location.py:122-132 | the confined path of an anchored location lies beneath the real root and has no link in any existing prefix, so the kernel looks each such prefix up to itself; anchored: the location lexists, or the prefix where _resolve stops exists, or the realpath of that prefix is no directory |
| `Confinement.LinkFreeExactlyWhen` | src/mountainash_transport/location.py:110-120 | for a prefix that lexists: every path at whose prefix _resolve stops there resolves to a link-free path iff the prefix exists, or its realpath is no directory, or no link lies below that directory |
| `Confinement.StableExactlyWhen` | src/mountainash_transport/location.py:110-120 | for such a prefix: resolving twice is resolving once, for every path that stops there, iff the prefix exists or its realpath is no directory |
| `Confinement.WithoutDanglingLinksAllIsAnchored` | src/mountainash_transport/location.py:110-120 | where no link dangles or loops, realpath ends wherever it is called and every accepted path is anchored |
| `Confinement.NamesAreAppended` | src/mountainash_transport/location.py:113-120 | behind a link the kernel cannot follow, _resolve appends whatever names follow to its realpath |
| `Confinement.UnanchoredLocationMayBeALink` | src/mountainash_transport/location.py:110-129 | an input that shows the anchor is needed: the prefix is a dangling link whose realpath is a directory |
| `Confinement.ConfineIsIdempotent` | src/mountainash_transport/location.py:122-132 | confining the confined path of an anchored location again returns the same path; that of any location, iff the path is link-free and spells no directory with a slash |
| `Confinement.StableIsLinkFree` | src/mountainash_transport/location.py:110-120 | a path that resolves to itself is link-free and spells no directory with a slash |
| `Confinement.ResolveIsStable` | src/mountainash_transport/location.py:110-120 | a link-free path that spells no directory with a slash resolves to itself |
| `Confinement.StopIsTheLongest` | src/mountainash_transport/location.py:111-120 | _resolve stops at the longest prefix that lexists and appends names to its realpath |
| `Confinement.RefusedExactlyWhen` | src/mountainash_transport/location.py:113-119 | _resolve refuses a path iff it does not lexist and holds a `..` such that neither the prefix up to it nor a longer one lexists |
| `Confinement.ExistingLocationIsJudgedByItsTarget` | src/mountainash_transport/location.py:126-129 | an existing location is allowed iff the object the kernel reaches is beneath the root |
| `Confinement.NewEntryIsJudgedByItsDirectory` | src/mountainash_transport/location.py:110-129 | a new name in an existing directory is allowed iff the place it would be created at is beneath the root |
| `Confinement.MissingPathHasNoEntries` | src/mountainash_transport/location.py:113-120 | a missing anchored path resolves to a link-free place that is no directory |
| `Confinement.ExistingPathIsReached` | src/mountainash_transport/location.py:111-112 | what lexists exists, or is itself a link; what exists is reached at the place realpath gives |
| `Confinement.WalkIsReal` | src/mountainash_transport/location.py:111-112 | where the kernel's lookup succeeds, realpath names the same place |
| `Confinement.RealTerminates` | src/mountainash_transport/location.py:111-112 | realpath terminates on every path, dangling links included, when no link leads into a cycle |
| `Confinement.RealIsLinkFree` | src/mountainash_transport/location.py:111-112 | no existing prefix of a realpath is a link |
| `Enumeration.ListLocalTree` | src/mountainash_transport/storage/backends/local/local_enumerate.py:60-80 | the Local worklist returns the specified selection, all of it or exactly min(limit, total); without a limit it raises iff some entry fails |
| `Enumeration.ScanLocal` | src/mountainash_transport/storage/backends/local/local_enumerate.py:62-79 | one directory: found, pending and unread entries still make up the whole, and the pending size shrinks |
| `Enumeration.TakeLocal` | src/mountainash_transport/storage/backends/local/local_enumerate.py:64-77 | one entry: raised iff stat() fails on it, otherwise listed, queued or skipped as its kind says |
| `Enumeration.ListSftpTree` | src/mountainash_transport/storage/backends/sftp/sftp_enumerate.py:62-88 | the same for the SFTP worklist, with types recovered by lstat and stat |
| `Enumeration.ScanSftp` | src/mountainash_transport/storage/backends/sftp/sftp_enumerate.py:65-87 | one SFTP directory listing |
| `Enumeration.TakeSftp` | src/mountainash_transport/storage/backends/sftp/sftp_enumerate.py:66-85 | one entry: raised iff its type cannot be recovered or the stat of a link fails, otherwise listed, queued or skipped |
| `Enumeration.UnderMatchesLookup` | src/mountainash_transport/storage/backends/local/local_enumerate.py:64-77 | the recursive specification counts a path once iff looking the path up, through non-link directories only, finds a selected node |
| `Enumeration.UnlimitedListingIsTheSelection` | src/mountainash_transport/storage/backends/local/local_enumerate.py:60-80 | what is listed without a limit is exactly the selected paths below the root, none twice |
| `Enumeration.LimitedListingIsAPart` | src/mountainash_transport/storage/backends/local/local_enumerate.py:38-80 | with a limit: that many different members of the selection, objects and prefixes together |
| `Enumeration.BackendsFailAlikeExactlyWhen` | src/mountainash_transport/storage/backends/sftp/sftp_enumerate.py:66-78 | behind a server that mirrors the tree, Local raises iff SFTP does or an entry fails for Local only: one whose stat() raises, or a link Local cannot stat and the server reports missing |
| `Enumeration.BackendsSelectAlike` | src/mountainash_transport/storage/backends/sftp/sftp_enumerate.py:62-88 | behind such a server both specifications select the same |
| `Enumeration.LinkLoopSplitsTheBackends` | src/mountainash_transport/storage/backends/sftp/sftp_enumerate.py:70-78 | the tree on which they part: a link that Local cannot stat and the server reports missing |
| `Enumeration.ListBoth` | src/mountainash_transport/storage/backends/sftp/sftp_enumerate.py:62-88 | on one such tree: Local raises iff SFTP does or an entry fails for Local only; when Local returns, both return the same objects and the same prefixes |
| `ListObjects.ListLocal` | src/mountainash_transport/storage/backends/local/local_enumerate.py:27-80 | argument errors, limit zero, and what each kind of root gives: missing, through a file, unstatable, unlistable, file and directory |
| `ListObjects.ListSftp` | src/mountainash_transport/storage/backends/sftp/sftp_enumerate.py:33-88 | the same for SFTP; a missing root gives an empty result iff its nearest existing ancestor is a directory or none exists, and otherwise the error that ancestor stands for |
| `RemotePaths.CheckNotDirectory` | src/mountainash_transport/storage/backends/sftp/_helpers.py:89-105 | fine iff no ancestor is found or the nearest one is a directory; not a directory, type unavailable, stat error iff the nearest one answers so |
| `RemotePaths.FirstReplyIsTheNearest` | src/mountainash_transport/storage/backends/sftp/_helpers.py:91-105 | a reply decides iff it is that of the first path of the chain that is found; none does iff all are missing |
| `RemotePaths.AncestorsClimb` | src/mountainash_transport/storage/backends/sftp/_helpers.py:102-105 | the chain climbs by dirname, getting shorter, until no parent is left |
| `RemotePaths.DirnameCutsTheLastName` | src/mountainash_transport/storage/backends/sftp/_helpers.py:102-102 | posixpath.dirname: exactly the last name and the slashes before it are cut off, only leading slashes are kept, and it is empty iff there is no slash |
| `RemotePaths.Start` | src/mountainash_transport/storage/backends/sftp/_helpers.py:91-91 | where the search starts: never empty, without trailing slashes unless it is the root, absolute iff the path is |
| `SftpMkdir.Mkdir` | src/mountainash_transport/storage/backends/sftp/sftp_directory.py:51-95 | against other clients creating at any step: normal return means the whole chain is there; only chain paths were created, nothing was replaced, no failure was swallowed, and an error has its cause in a reply; the outermost ancestor is asked for first; without parents there is one mkdir request and no other |
| `SftpMkdir.EnsureAll` | src/mountainash_transport/storage/backends/sftp/sftp_directory.py:65-95 | the loop over the chain: no request names a longer path than a later one, so the outermost ancestor comes first; whatever of the chain was reached is there |
| `SftpMkdir.EnsureDirectory` | src/mountainash_transport/storage/backends/sftp/sftp_directory.py:66-95 | one directory: which requests are made, each only if the reply to the one before leaves it open, and what each reply means; it is there afterwards, or a reply explains the failure; a mkdir that may have lost a race is reported only after a second stat found no directory or raised an OSError, any other error of that stat is reported itself |
| `SftpMkdir.ChainOf` | src/mountainash_transport/storage/backends/sftp/sftp_directory.py:60-64 | the loop builds the ancestor chain |
| `SftpMkdir.ChainClimbs` | src/mountainash_transport/storage/backends/sftp/sftp_directory.py:60-64 | the chain starts with the requested path and climbs by dirname, strictly shortening, to the end |
| `RangedRead.PerformAll` | src/mountainash_transport/_core/ranged_io.py:86-108 | any run of seeks and reads over a pinned object is a run over the one probed version; reads fail iff the server did not send what one of the requests asked for |
| `RangedRead.OpenAndPerform` | src/mountainash_transport/storage/backends/http/http_read.py:60-93 | probing, building the reader and any run of operations: with a strong tag everything comes from the version that was probed and every later request is conditional on that tag; a read fails iff some reply was not what was asked for |
| `RangedRead.RangedReader.Read` | src/mountainash_transport/_core/ranged_io.py:101-108 | the bytes are those of the pinned version and the position moves by what was returned; every request is for bytes the object has, under its tag; it fails iff the handle is closed or a reply was not what was asked for |
| `RangedRead.RangedReader.Seek` | src/mountainash_transport/_core/ranged_io.py:86-99 | seek of an in-memory file of the same size (the laws of which are the rows below); no request is made |
| `RangedRead.RangedReader.Close` | src/mountainash_transport/_core/ranged_io.py:115-122 | closed even when on_close raises; on_close runs once |
| `RangedRead.RangedReader.FetchRange` | src/mountainash_transport/_core/ranged_io.py:61-68 | what the cache is given for any interval, also past the end; which request is made, and that it fails iff the reply is not acceptable |
| `RangedRead.OpenRanged` | src/mountainash_transport/storage/backends/http/http_read.py:60-74 | which answers to the probe are accepted, and that size and strong tag are those of one version |
| `RangedRead.Fetch` | src/mountainash_transport/storage/backends/http/http_read.py:76-91 | the bytes of one version, of exactly the requested interval; an error iff the answer is not acceptable or not of that length |
| `RangedRead.ReadsDeliverAPiece` | src/mountainash_transport/_core/ranged_io.py:101-108 | what any run of reads of the reader delivers, with failures in between, is one contiguous piece of the pinned version |
| `RangedRead.ReadsDeliverWhatIsAsked` | src/mountainash_transport/_core/ranged_io.py:101-108 | without a failure that piece is as long as was asked for, up to the end |
| `RangedRead.SeekFromStart` | src/mountainash_transport/_core/ranged_io.py:88-89 | reading on after seek(n) gives the version from byte n on, nothing past the end |
| `RangedRead.SeekFromEnd` | src/mountainash_transport/_core/ranged_io.py:92-93 | reading on after seek(-n, SEEK_END) gives its last n bytes |
| `RangedRead.SeekFromHere` | src/mountainash_transport/_core/ranged_io.py:90-91 | skipping n bytes leaves what reading n bytes leaves |
| `RangedRead.SeekBack` | src/mountainash_transport/_core/ranged_io.py:90-91 | seeking back over what was read gives the same bytes again |
| `RangedRead.RefusedSeek` | src/mountainash_transport/_core/ranged_io.py:94-97 | a seek before the start or by an unknown rule is refused and moves nothing |
| `RangedRead.StrongEtag` | src/mountainash_transport/_core/ranged_io.py:125-127 | a tag is kept iff it is a strong one |
| `GzipEncoder.GzipCompressingReader.ReadInto` | src/mountainash_transport/_core/transforms/_stream_encoder.py:47-53 | fails iff the source raised, losing nothing; a short read happens only when everything was delivered, and that is one gzip member for the whole text; a read that the buffer can serve leaves the source alone |
| `GzipEncoder.GzipCompressingReader.Fill` | src/mountainash_transport/_core/transforms/_stream_encoder.py:61-80 | one step of the lazy encoder; each successful step brings the end nearer |
| `GzipEncoder.GzipCompressingReader.TakeChunk` | src/mountainash_transport/_core/transforms/_stream_encoder.py:69-76 | one chunk, no longer than the chunk size, is read and compressed, or the end is noticed, or the source's error leaves the state intact |
| `GzipEncoder.GzipCompressingReader.Finish` | src/mountainash_transport/_core/transforms/_stream_encoder.py:77-80 | the flush and the trailer |
| `GzipEncoder.GzipCompressingReader.Deliver` | src/mountainash_transport/_core/transforms/_stream_encoder.py:50-53 | the buffer's first bytes are copied and dropped, none lost or repeated |
| `GzipEncoder.EncodeAll` | src/mountainash_transport/_core/transforms/_stream_encoder.py:47-93 | for any source chunking and any buffer sizes the output is one member that decodes to the text |
| `GzipEncoder.TallyChunk` | src/mountainash_transport/_core/transforms/_stream_encoder.py:72-73 | the running CRC-32 and length stay those of the whole text fed so far |
| `GzipEncoder.ProducedMember` | src/mountainash_transport/_core/transforms/_stream_encoder.py:61-80 | header, deflate stream and trailer make one member however the text was cut |
| `Checksum.CrcContinues` | src/mountainash_transport/_core/transforms/_stream_encoder.py:72-72 | zlib.crc32 continued over a cut equals the CRC-32 of the whole |
| `Checksum.ResidueIsConstant` | src/mountainash_transport/_core/transforms/_stream_encoder.py:72-79 | the residue law of CRC-32: the checksum of a text followed by its checksum field is one number for every text |
| `Checksum.UnpackReadsBack` | src/mountainash_transport/_core/transforms/_stream_encoder.py:79-79 | reading a little-endian field gives back the number that was packed |
| `GzipFormat.HeaderFields` | src/mountainash_transport/_core/transforms/_stream_encoder.py:83-93 | the header is ten bytes: magic, deflate, no flags, the time modulo 2^32, no extra flags, unknown system |
| `GzipFormat.MemberRoundTrip` | src/mountainash_transport/_core/transforms/_stream_encoder.py:61-93 | decoding a member by section 2.3.1 of RFC 1952 returns the data |
| `BoundedDecoder.PerformAll` | src/mountainash_transport/_core/transforms/compression.py:44-68 | any mix of read, read1, readline and seek from a fresh decoder, until the first error: true payload bytes, position within the limit, a limit error only if the operation would have gone past it, a corrupt stream only if the decoder underneath found it so |
| `BoundedDecoder.ReadToEnd` | src/mountainash_transport/_core/transforms/compression.py:44-53 | on a sound stream all remaining bytes iff the payload is within the limit, else an error at position limit + 1 |
| `BoundedDecoder.ReadsDeliverAPrefix` | src/mountainash_transport/_core/transforms/compression.py:44-63 | what a run of reads delivers in pieces is one contiguous part ending within the limit |
| `BoundedDecoder.ReadsDeliverWhatIsAsked` | src/mountainash_transport/_core/transforms/compression.py:44-53 | without a failure that part is as long as was asked for, up to the end |
| `BoundedDecoder.SeekFromStart` | src/mountainash_transport/_core/transforms/compression.py:65-68 | reading on after seek(n) gives the payload from byte n on |
| `BoundedDecoder.SeekFromEnd` | src/mountainash_transport/_core/transforms/compression.py:65-68 | reading on after seek(-n, SEEK_END) gives its last n bytes |
| `BoundedDecoder.SeekFromHere` | src/mountainash_transport/_core/transforms/compression.py:65-68 | a relative seek stops at either end of the payload |
| `BoundedDecoder.LineEnd` | src/mountainash_transport/_core/transforms/compression.py:60-63 | a line ends after its first newline, or at the end of the payload |
| `BoundedDecoder.BoundedGzipFile.Read` | src/mountainash_transport/_core/transforms/compression.py:44-53 | read(size) and read to the end against an unbounded decoder |
| `BoundedDecoder.BoundedGzipFile.Read1` | src/mountainash_transport/_core/transforms/compression.py:55-58 | read1 delivers true bytes, none only at the end, and hits the limit only when asked to go past it |
| `BoundedDecoder.BoundedGzipFile.Readline` | src/mountainash_transport/_core/transforms/compression.py:60-63 | readline against an unbounded decoder |
| `BoundedDecoder.BoundedGzipFile.Seek` | src/mountainash_transport/_core/transforms/compression.py:65-68 | seek reports the position it reached, within the limit, or fails because the target is past it |
| `BoundedDecoder.BoundedGzipFile.Cap` | src/mountainash_transport/_core/transforms/compression.py:33-35 | no request asks for more than one byte past the limit |
| `Pipelines.ReadInvertsWrite` | src/mountainash_transport/_core/transforms/pipeline.py:81-111 | apply_read undoes apply_write for any list of transforms each of which is undone on the text it held |
| `Pipelines.WriteComposes` | src/mountainash_transport/_core/transforms/pipeline.py:107-111 | layers in front of others are added after them |
| `Pipelines.ReadComposes` | src/mountainash_transport/_core/transforms/pipeline.py:92-93 | layers in front of others are stripped before them, and what cannot be stripped ends the reading |
| `Pipelines.ApplyWrite` | src/mountainash_transport/_core/transforms/pipeline.py:107-111 | layers are added innermost first |
| `Pipelines.ApplyRead` | src/mountainash_transport/_core/transforms/pipeline.py:92-93 | layers are stripped outermost first |
| `Pipelines.GzipIsUndoneWithinItsLimit` | src/mountainash_transport/_core/transforms/compression.py:96-110 | the whole-text gzip layer is undone iff its text is within max_decompressed_bytes |
| `GzipLayers.WrapAll` | src/mountainash_transport/_core/transforms/compression.py:96-100 | the lazy encoder read to its end gives what the whole-text wrap gives, and every decoder that reads plain members gives the text back |
| `GzipLayers.UnwrapAll` | src/mountainash_transport/_core/transforms/compression.py:102-110 | the bounded decoder read to its end gives what the whole-text unwrap gives, for any decoder of the format and any stored bytes, unless a call raised |
| `GzipLayers.WriteThenRead` | src/mountainash_transport/_core/transforms/compression.py:96-110 | a text written through the encoder is read back through the decoder, iff it is within the limit |
| `GzipLayers.WriteThenPerform` | src/mountainash_transport/_core/transforms/compression.py:96-110 | any mix of operations on the decoder over the encoder's output tells the truth about the text |
| `StreamOwnership.Streams.RunCallbacks` | src/mountainash_transport/_core/transforms/pipeline.py:52-57 | the stack is worked through newest first, no callback skipped by an error; an error is raised iff some close raised |
| `StreamOwnership.ReplayReachesAll` | src/mountainash_transport/_core/transforms/pipeline.py:13-16 | every layer was tried, or another close had already closed it |
| `StreamOwnership.ReplayTriesOnce` | src/mountainash_transport/_core/transforms/pipeline.py:13-16 | no layer is tried twice, none that was closed already, and the order is kept |
| `StreamOwnership.ReplayReleases` | src/mountainash_transport/_core/transforms/pipeline.py:13-16 | working through a distinct order: each tried at most once and in its turn, or closed; exactly the order when closes are independent |
| `StreamOwnership.ClosingOrderIsDistinct` | src/mountainash_transport/_core/transforms/pipeline.py:90-96 | the closing order of a pipeline holds each distinct layer and the source exactly once |
| `StreamOwnership.IndependentStreamsAreAllTried` | src/mountainash_transport/_core/transforms/pipeline.py:52-57 | when no close touches another layer, the attempts are exactly the layers, newest first |
| `StreamOwnership.NewLayersAreDistinct` | src/mountainash_transport/_core/transforms/pipeline.py:90-96 | the stack holds each distinct new stream once and never the source |
| `StreamOwnership.NewLayersAreInOrder` | src/mountainash_transport/_core/transforms/pipeline.py:90-96 | in order of appearance |
| `StreamOwnership.EachUnwrapsThePrevious` | src/mountainash_transport/_core/transforms/pipeline.py:92-93 | each transform is given what the one before it returned, the first one the source; the chain is complete or ends with the error of the next transform |
| `StreamOwnership.ReverseAt` | src/mountainash_transport/_core/transforms/pipeline.py:52-57 | the newest layer is closed first |
| `StreamOwnership.ApplyRead` | src/mountainash_transport/_core/transforms/pipeline.py:81-105 | the stack of layers, reading from the last stream of the chain, or the transform's own error after what was built was unwound |
| `StreamOwnership.ReadStream.Close` | src/mountainash_transport/_core/transforms/pipeline.py:52-57 | closes its layers newest first, once; a second close does nothing |
| `StreamOwnership.OwnedStream.Close` | src/mountainash_transport/storage/facade/facade.py:406-413 | layers newest first and the source last, whatever raises, each released once; a second close does nothing |
| `StreamOwnership.OpenReadStream` | src/mountainash_transport/storage/facade/facade.py:406-424 | the returned stream owns everything; a construction failure releases what was built and the source and keeps its error |
| `StreamOwnership.OpenAndClose` | src/mountainash_transport/storage/facade/facade.py:371-373 | opening and closing, also when opening fails, releases every distinct layer newest first and the source last: each tried at most once and in order, tried or closed, and all of them exactly when closes are independent |
| `StreamErrors.CallerInput.OriginalIn` | src/mountainash_transport/_core/stream_errors.py:32-47 | a recorded error is returned iff one is reachable through cause and context links, also in cyclic graphs; it is the one a recursive search meets first, with the traceback of its first record |
| `StreamErrors.CallerInput.Look` | src/mountainash_transport/_core/stream_errors.py:35-46 | one round of the worklist |
| `StreamErrors.CallerInput.Invoke` | src/mountainash_transport/_core/stream_errors.py:15-30 | an error of the caller's stream is recorded and passes through unchanged |
| `StreamErrors.PushingIsRecursing` | src/mountainash_transport/_core/stream_errors.py:35-46 | the worklist with a shared seen set explores as the recursive search does |
| `StreamErrors.CausesComeFirst` | src/mountainash_transport/_core/stream_errors.py:42-45 | the recorded error at the end of the chain of causes is the answer, whatever contexts lead elsewhere; a context counts where there is no cause |

## Left out

- TunnelForwarder.StepKeepsInv: the forwarder is modelled on values, not updated in place, because its steps interleave; the order in which `request_stop` meets the sockets is any order.
- TunnelForwarder.NormalReturnMeansQuiet: what socketserver itself closes after a worker failed to start is not modelled; the constructor's own failure path (tunnel.py 91-97) is not either.
- The bytes relayed through a channel (tunnel.py 37-52): the results of send are ignored by the code, so only ownership of the channel is modelled.
- TunnelConnection.TunnelledConnection.Connect: the SSH connection and the inner connection are native here; the SSH connection's own log is in `Connections`.
- Text of exception notes, tracebacks beyond identity, and the mapping tables from native to library error classes.
- HttpRetry.Request: NaN or infinite Retry-After values, overflow of `2 ** n` in floating point and negative policy values where a lemma asks for nonnegative ones; header merging, body reading and URL redaction.
- HttpRedirects.SendWithRedirects: the auth flow is finite, as a measure of the flow; closing its generator raises nothing.
- Confinement.ConfinedPathStaysInside: the root and the prefix at which `_resolve` stops are not caught in a link loop, where realpath would leave the link in place; the kernel's limit of 40 links, paths that start with exactly two slashes, Windows paths, `local_path` on URIs, `_check_tree` and inactive policies are not modelled.
- Enumeration.ListLocalTree: a static tree; sizes and times of entries, junctions and the anchoring of relative roots are not modelled.
- ListObjects.ListLocal: all errors of the tree below the root are one error class; likewise in `ListObjects.ListSftp`, whose URL parsing (`_remote_path`) is left out.
- SftpMkdir.Mkdir: paths are their spelling, so two spellings of one directory are two paths; nobody deletes.
- RangedRead.RangedReader.Read: the fsspec cache is any store that keeps, forgets and reads ahead as it likes; `RangePolicy` is not modelled.
- RangedRead.OpenRanged: without a strong tag nothing pins the version, so only lengths are promised, as in the code.
- GzipEncoder.EncodeAll: a chunk size of zero, `mtime=None` and `close` are not modelled; the deflate algorithm is any codec that inflate undoes.
- BoundedDecoder.PerformAll: the limit is not negative, calls after the first error are not covered, and a decoder may report a corrupt stream at any time.
- Pipelines.GzipIsUndoneWithinItsLimit: transforms on whole texts; `GzipLayers` connects the gzip layer with its two streams; what gzip.GzipFile makes of optional header fields, several members or padding is its `decode` parameter, of which only plain members are specified. The limit `None` and GPG are not part of it.
- Enumeration.ListBoth: the server mirrors the tree as `Mirrors` says; a server that answers for a link differently in any other way is not compared with Local.
- StreamOwnership.ApplyRead: an exception that is no Exception during unwinding would replace the original error; the buffered access mode is not modelled.
- StreamErrors.CallerInput.OriginalIn: the links of exceptions do not change while they are searched.
- `StorageFacade.close` (facade.py 187-199): one guarded call to disconnect, an easy member.
- Settings profiles, registries, S3, auth emission, redaction, release tooling: lookups and library behaviour.
