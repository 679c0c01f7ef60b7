# Verified model of the unet daemon's stateful core

unet is a daemon that provisions an AmneziaWG server over SSH, hands out peers and invites, and
serves an API. This project models the parts of it that keep state or process text, and proves
what they promise over every input and every run: the invite store, the two rate limiters, the
log and event streams, the server configuration text, peer addressing and shell quoting, the
token store and its cache, the setup wizard, and the SSH pool with its line scanner.

Code that changes fields is a class whose methods have the source's branches and loops and are
proved against specification functions; the `...Laws` modules, or the second half of a module,
prove what those functions mean. External systems (SSH, Docker, DNS, the file system, clocks)
appear as parameters with arbitrary values. JSON, SHA-256 and bcrypt are parameters too: a codec
that writes one line per record and reads it back, a collision-free digest, any predicate.

| file | component |
|---|---|
| `Wrappers.dfy`, `Text.dfy`, `Strings.dfy`, `Decimal.dfy` | options and results, splitting and joining, white space, decimal numerals |
| `InviteStore.dfy`, `InviteStoreLaws.dfy` | the invite file and its byte-offset index |
| `TokenBucket.dfy`, `SlidingWindow.dfy` | the API rate limiter and the invite rate limiter |
| `LogRing.dfy`, `Subscriber.dfy`, `Hub.dfy` | log ring, subscriber queue, notification hub |
| `EventRing.dfy` | lifecycle events and cursor polling |
| `Shell.dfy`, `Heredoc.dfy` | shell quoting and here-documents against the shell's own grammar |
| `AwgConf.dfy`, `AwgConfLaws.dfy` | printer and parser of `awg0.conf`, peer blocks |
| `PeerDump.dfy`, `Addresses.dfy`, `AddressLaws.dfy` | peer dump, subnets, address allocation |
| `TokenStore.dfy`, `TokenCache.dfy` | token list and the cache in front of it |
| `Wizard.dfy`, `WizardLaws.dfy` | the setup wizard's handlers and bootstraps |
| `LineScanner.dfy`, `SshPool.dfy` | chunked line scanning and known hosts, session pool |

## Where the code promises less than expected

Each failure is shown by an input or a run, and for the failures of a stated promise the exact
condition is proved for all inputs. The members are named in brackets.

- `buildIndex` counts a line without its carriage return: an offset is short by one byte for every
  earlier line that ends in one (`RebuiltOffset`, `CarriageReturnShiftsOffset`). One GC mends a
  file whose lines end in one carriage return at most (`GCMendsFile`).
- `Append` to a file whose last line is not terminated indexes a place where no line starts
  (`AppendIsExactIffTerminated`, `StrayByteBreaksAppend`).
- `FindByTokenHash` reports a record of 64 KiB or more as absent (`FindIsLinearScan`, `AppendThenFind`).
- `GC` of a dead latest record brings an older live record of the same hash back (`LookupAfterGC`,
  `DeadRecordUncoversLive`); it is idempotent iff no line it keeps ends in a carriage return
  (`GCTwice`, `DoubleCRShrinksTwice`).
- The invite limiter's window excludes its end: a closed minute can hold six allowed attempts
  (`ClosedMinuteHoldsSix`), and all closed minutes hold at most five iff each allowed attempt found
  fewer than five in the minute before it, its start included (`ClosedWindowsHoldIff`).
- On a queue of any size `send` can lose the event it was given iff two senders can be inside it,
  as `Run` and `Replay` can (`LossIffTwoProducers`). A send can meet a channel closed under it,
  which panics, iff some sender does not hold the hub's lock; `Replay` does not take it
  (`PanicIffUnlockedSender`).
- Fan-out can send a record twice (`RecordTwoIsSentTwice`); it does so iff the first record it
  reads off the ring was sent before (`SentTwiceIff`).
- Peer fields are not checked for newlines. A block travels in a here-document that ends at a
  line `PEER`: the file gets it as printed, and the server runs nothing else, iff the block has no
  such line (`BlockArrivesIff`, `DelimiterInAKeyCutsShort`; a peer without newlines has none,
  `OneLinePeerIsWhole`). The theorems about appended peers speak of whole blocks. Behind an
  `[Interface]` header those change nothing; in a file without one a peer can bring the section
  along (`HeaderInAKeyIsParsed`). What is parsed stays the same iff the file names the section or
  the blocks by themselves put no text under its header (`PeersNeverChangeTheInterface`).
- The hot-reload script puts a quoted interface name inside a quoted command, where the inner
  quotes close the outer ones. A name without quote characters and backslashes gets through as
  written iff none of its characters may mean something to the shell (`SyncScriptWordsIff`,
  `BlankInNameIsCut`).
- Whatever peers there are, some run of additions hands the server's own address to a peer iff its
  host number is in .2 to .254 and no peer holds it yet (`ServerAddressHandedOutIff`), although a
  comment in `AllocateNextIP` says it is marked as occupied; the provisioned .1 is never handed out
  (`ProvisionedServerKeepsItsAddress`). A peer dump that could not be read makes the allocator
  start over (`CollisionIffDumpUnread`).
- A dumped peer whose keepalive field is empty is lost if it is the last one
  (`DumpRoundTripIff`). `awg show dump` prints `off` there, so this is a property of the parser
  on text the command does not produce.
- A revoked id can still be returned, on some run that does not enable it again, iff the plain
  text hits a cache entry for it at the moment of the revoke and that entry is under another prefix
  than the token's (`ReturnedAfterRevokeIff`). An Update that changes a cached token's prefix makes
  it so (`PrefixChangeOutlivesRevoke`); the store allows it, and its only caller outside the tests
  (`src/internal/api/v1/handlers.go:254-263`) never does it.
- A bootstrap commits, or puts into error, whatever session is stored when it ends
  (`BootstrapEndsIff`, `ForeignBootstrapEnds`).
- A host key is found again iff the file was terminated (`FoundAgainIff`). A comment says that later
  connections are verified, but a changed key is accepted and remembered like a first one
  (`EveryKeyIsRemembered`).
- A caller may close a session instead of handing it back, a comment says; its slot is then never
  freed. The pool has no slot iff three of the sessions handed out were not handed back
  (`ExhaustedIff`), and then stays so until one is (`NeverHandedBack`).
- The pool closes its client under sessions still in use after a failed open or keepalive
  (`ClientClosedUnderSessionsIff`), and idle time runs from the last acquisition, not the last
  return (`SweptRightAfterReturnIff`).

## Model

| member | source | states |
|---|---|---|
| InviteStore.Store.constructor | src/internal/invite/store.go:23-46 | opening builds the index from the file and fails iff a line has 1 MiB or more |
| InviteStore.Store.BuildIndex | src/internal/invite/store.go:48-69 | the loop over scanner tokens computes the last-match index with offsets counted in token lengths |
| InviteStore.Store.Append | src/internal/invite/store.go:71-95 | one encoded line at the old end of the file, indexed there; nothing changes on a marshal error or a closed handle |
| InviteStore.Store.FindByTokenHash | src/internal/invite/store.go:97-121 | the first token at the indexed offset, read with the default 64 KiB scanner |
| InviteStore.Store.GC | src/internal/invite/store.go:123-212 | the file becomes the live decodable lines; a line of 1 MiB or more leaves the file and a closed handle |
| InviteStore.Store.FilterLive | src/internal/invite/store.go:135-162 | keeps exactly the tokens that decode to an unexpired, unconsumed invite, in order |
| InviteStore.Store.Rewrite | src/internal/invite/store.go:180-194 | writes the kept lines and indexes each at the byte it is written at |
| InviteStore.IndexMeaning | src/internal/invite/store.go:48-69 | the index maps a hash to the offset of its last matching line and is undefined iff there is none |
| InviteStore.LinesFromOffset | src/internal/invite/store.go:105-113 | reading the file from the offset of line i yields line i and everything after it |
| InviteStore.ScanAll | src/internal/invite/store.go:50-52 | the scanner reads the whole file iff every line fits its buffer |
| InviteStoreLaws.FindIsLinearScan | src/internal/invite/store.go:97-121 | with an exact index, lookup equals the last-match linear scan iff the matching line is below 64 KiB |
| InviteStoreLaws.FoundBelow64K | src/internal/invite/store.go:97-121 | the record of the last line with the hash is returned iff that line has fewer than 65536 bytes |
| InviteStoreLaws.FindWithoutHandle | src/internal/invite/store.go:97-104 | an unindexed hash is absent; an indexed one is an error when the store is closed |
| InviteStoreLaws.AppendKeepsIndexExact | src/internal/invite/store.go:71-95 | appending to a terminated file keeps the index exact and the file terminated |
| InviteStoreLaws.AppendIsExactIffTerminated | src/internal/invite/store.go:80-92 | after an append the index is exact iff the file was terminated before |
| InviteStoreLaws.AppendGivesUp | src/internal/invite/store.go:71-86 | a closed store or a record that does not encode leaves file and index alone |
| InviteStoreLaws.RebuiltOffset | src/internal/invite/store.go:54-66 | a rebuilt offset is the exact one minus the number of earlier lines that end in a carriage return |
| InviteStoreLaws.ReopenIsExact | src/internal/invite/store.go:48-69 | across blank and undecodable lines, reopening a file without carriage returns gives the exact index |
| InviteStoreLaws.OpenedIff | src/internal/invite/store.go:23-69 | opening fails iff a line has 1048576 bytes or more; else a hash is indexed iff a non-blank line decodes to a record with it and it is not empty |
| InviteStoreLaws.GCKeepsLiveLines | src/internal/invite/store.go:135-162 | after GC the file is terminated and its lines are the live ones, in order |
| InviteStoreLaws.GCKeepsExactly | src/internal/invite/store.go:135-162 | GC keeps a line as often as it stood there if it decodes to an invite without expiry or not past it, and without use limit or below it, and keeps no other line |
| InviteStoreLaws.GCGivesUp | src/internal/invite/store.go:123-212 | GC of a closed store does nothing; a line of 1048576 bytes or more costs the handle and nothing else |
| InviteStoreLaws.GCStripsCR | src/internal/invite/store.go:135-162 | a file whose lines end in one carriage return at most, CRLF files included, is left without any |
| InviteStoreLaws.GCKeepsIndexExact | src/internal/invite/store.go:180-210 | the index GC leaves is the exact index of the new file when no line written ends in a carriage return |
| InviteStoreLaws.LookupAfterGC | src/internal/invite/store.go:97-212 | after GC FindByTokenHash answers with the last live record iff its line is below 64 KiB; that record is the one before iff the latest was live or there was none, and absent iff none is live |
| InviteStoreLaws.GCTwice | src/internal/invite/store.go:123-212 | a second GC at the same time changes nothing iff no kept line ends in a carriage return |
| InviteStoreLaws.RunsFindWhatAScanFinds | src/internal/invite/store.go:48-212 | after any run of Append, GC and reopening from any file of whole lines without carriage returns, blank and undecodable ones among them, lookup is the linear scan for records below 64 KiB |
| InviteStoreLaws.ReopenChangesNothing | src/internal/invite/store.go:48-95 | at any point of such a run, the rebuilt index equals the maintained one |
| InviteStoreLaws.AppendThenFind | src/internal/invite/store.go:71-121 | at any point of such a run a record just appended is found iff its line is below 64 KiB |
| InviteStoreLaws.GCMendsFile | src/internal/invite/store.go:123-212 | after one GC of a file that may be unterminated or have CRLF lines, every run keeps the index exact |
| InviteStoreLaws.CarriageReturnShiftsOffset | src/internal/invite/store.go:54-66 | one blank line with a carriage return makes the rebuilt offset 1 where the line starts at 2 |
| InviteStoreLaws.StrayByteBreaksAppend | src/internal/invite/store.go:80-92 | a one-byte file makes the appended record's offset no line start |
| InviteStoreLaws.DeadRecordUncoversLive | src/internal/invite/store.go:150-158 | a live record under a dead one of the same hash is found again after GC |
| InviteStoreLaws.DoubleCRShrinksTwice | src/internal/invite/store.go:135-162 | a line behind two carriage returns is changed by each of two GCs |
| TokenBucket.RateLimiter.Allow | src/internal/api/middleware/ratelimit.go:59-95 | the verdict and the visitors map of eviction, refill, cap and take, for any clock reading |
| TokenBucket.ServedExactly | src/internal/api/middleware/ratelimit.go:73-95 | a new key starts with nine tokens left; a known one is refilled by the elapsed time up to ten and pays one iff it has one; its check time is set and no other key changes |
| TokenBucket.RateLimiter.EvictIdle | src/internal/api/middleware/ratelimit.go:65-71 | removes exactly the visitors idle for more than two minutes |
| TokenBucket.GrantedIffWithinEnvelope | src/internal/api/middleware/ratelimit.go:59-95 | a request is granted iff, counting it, every window ending now that starts at an earlier grant holds at most ten plus one per second |
| TokenBucket.EvictionUnobservable | src/internal/api/middleware/ratelimit.go:65-80 | with and without eviction every request of every run gets the same verdict |
| TokenBucket.AtMostTenPlusT | src/internal/api/middleware/ratelimit.go:59-95 | whatever is evicted, a key is granted at most 10 + T requests in any interval of T seconds |
| TokenBucket.TenPlusOnePerSecond | src/internal/api/middleware/ratelimit.go:12-16 | the same bound in nanoseconds: grants times 10^9 are at most 10^10 plus the length of the interval |
| TokenBucket.EleventhWaitsASecond | src/internal/api/middleware/ratelimit.go:73-95 | ten requests of a new key at one moment are granted, the eleventh iff at least 10^9 ns have passed |
| TokenBucket.EvictedExactly | src/internal/api/middleware/ratelimit.go:65-71 | above 1000 visitors exactly those idle for more than 120 * 10^9 ns go, and the others stay as they are |
| TokenBucket.LevelIsEnvelope | src/internal/api/middleware/ratelimit.go:82-93 | a token level of x means x more requests fit every window begun by an earlier grant |
| SlidingWindow.Limiter.CheckRateLimit | src/internal/invite/handler.go:44-71 | the verdict and the pruned log of one attempt |
| SlidingWindow.CheckedExactly | src/internal/invite/handler.go:44-71 | the log keeps the times of the last 60 * 10^9 ns, and the attempt if allowed, as often as they were there; other logs stay |
| SlidingWindow.AllowedIffFewerThanFive | src/internal/invite/handler.go:44-71 | allowed iff fewer than five of all attempts ever allowed to the address lie in the last 60 s |
| SlidingWindow.SixthWaitsAMinute | src/internal/invite/handler.go:17-71 | five attempts at one moment are allowed, the sixth iff at least 60 * 10^9 ns have passed |
| SlidingWindow.AtMostFivePerWindow | src/internal/invite/handler.go:17-20 | no 60 s window, its end excluded, ever holds more than five allowed attempts |
| SlidingWindow.SixtySecondsOldIsForgotten | src/internal/invite/handler.go:55-61 | attempts exactly 60 s old no longer count |
| SlidingWindow.ClosedMinuteHoldsSix | src/internal/invite/handler.go:55-61 | five attempts at once and one 60 s later are all allowed, six in one closed minute |
| SlidingWindow.ClosedWindowsHoldIff | src/internal/invite/handler.go:44-71 | on every run all closed minutes hold at most five iff each allowed attempt found fewer than five in the minute before it, one exactly 60 s old counted |
| LogRing.Ring.constructor | src/internal/logstream/ring.go:32-40 | an empty ring; a capacity that is not positive becomes 200 |
| LogRing.Ring.Write | src/internal/logstream/ring.go:45-54 | the n-th write gets sequence number n and the ring stays a window over the history |
| LogRing.Ring.Snapshot | src/internal/logstream/ring.go:64-83 | the last min(n, capacity) records of the history, oldest first |
| LogRing.Ring.Since | src/internal/logstream/ring.go:87-111 | the suffix of that window above the cursor |
| LogRing.Ring.Len | src/internal/logstream/ring.go:114-124 | the length of the window |
| LogRing.SuffixIsExact | src/internal/logstream/ring.go:87-111 | a record is returned iff it is above the cursor and not overwritten; numbers are consecutive up to n |
| LogRing.GapFreeIff | src/internal/logstream/ring.go:85-111 | nothing after record a is missing iff a >= n - capacity |
| Subscribers.Subscriber.Send | src/internal/logstream/hub.go:67-87 | an open subscriber's queue gains the event, losing its oldest one if it was full |
| Subscribers.StepsOfSend | src/internal/logstream/hub.go:67-87 | the steps of a send with nothing between them are the uninterrupted send, and lose nothing |
| Subscribers.QueueOverRuns | src/internal/logstream/hub.go:46-87 | over every interleaving of senders, receives and closes the queue is a contiguous most recent part of what was sent, received plus queued is a subsequence of it, and each event sent is received, queued or discarded |
| Subscribers.OneProducerLosesNothing | src/internal/logstream/hub.go:71-86 | with one sender the event being sent is never dropped |
| Subscribers.LossIffTwoProducers | src/internal/logstream/hub.go:71-86 | on a queue of any size some run drops the event being sent iff there are two senders |
| Subscribers.PanicIffUnlockedSender | src/internal/logstream/hub.go:46-87 | some run sends on a closed channel iff some sender does not hold the lock that Unsubscribe and Stop take |
| LogHub.Hub.Subscribe | src/internal/logstream/hub.go:115-125 | a fresh empty subscriber under a new id, and the number of the last record written |
| LogHub.Hub.Unsubscribe | src/internal/logstream/hub.go:128-140 | the subscriber is removed and closed and no queue changes |
| LogHub.Hub.Notify | src/internal/logstream/hub.go:151-157 | the notification is queued unless 256 are pending |
| LogHub.Hub.RunOnce | src/internal/logstream/hub.go:161-170 | one turn of the loop takes the oldest notification and fans it out |
| LogHub.Hub.Fanout | src/internal/logstream/hub.go:173-202 | every subscriber is sent every matching record still in the ring from the notification on |
| LogHub.Hub.Replay | src/internal/logstream/hub.go:206-218 | an open subscriber is sent the matching records after its cursor; a closed one's queue stays as it is |
| LogHub.DeliveredIsMostRecent | src/internal/logstream/hub.go:67-87 | a queue of any size ends up with the last events, in order, of what it held followed by every matching record |
| LogHub.FilterSelects | src/internal/logstream/hub.go:53-64 | with room, exactly the records whose level, component and source the three filters admit are received; an empty filter admits all |
| LogHub.BatchIsSuffix | src/internal/logstream/hub.go:174 | the numbers the step machine fans out are those of the ring's suffix |
| LogHub.NoLostFanOut | src/internal/logstream/hub.go:151-202 | in every reachable state a notified record was fanned out, or a notification at or below it is on its way, or it is overwritten |
| LogHub.DrainedHubIsCaughtUp | src/internal/logstream/hub.go:155-170 | a drained hub has fanned out every notified record still in the ring |
| LogHub.FanOutLeavesNoHole | src/internal/logstream/hub.go:161-202 | below a record that was fanned out only overwritten records are missing |
| LogHub.RecordTwoIsSentTwice | src/internal/logstream/hub.go:173-175 | a run of seven steps after which a record is about to be sent again |
| LogHub.SentTwiceIff | src/internal/logstream/hub.go:161-202 | in every reachable state the next fan-out repeats a record iff the first one it reads off the ring was sent before |
| EventBuffer.Itoa3 | src/internal/daemon/api_events.go:127-137 | the decimal numeral of n, empty for a negative one |
| EventBuffer.Atoi2 | src/internal/daemon/api_events.go:139-148 | the value of a digit string, wrapped at 64 bits, and 0 for anything else |
| EventBuffer.EventRing.Add | src/internal/daemon/api_events.go:36-55 | the n-th event gets the numeral of n and the oldest one is evicted when the buffer is full |
| EventBuffer.EventRing.List | src/internal/daemon/api_events.go:59-83 | at most the clamped limit of events behind the first one with the cursor's id, or from the oldest |
| EventBuffer.ListingAfter | src/internal/daemon/api_events.go:66-82 | from the id of event c the listing is the buffered events after c, all of them if c is evicted |
| EventBuffer.ListingInNumbers | src/internal/daemon/api_events.go:36-83 | of n events the last max are buffered and listed from the oldest or behind event c, at most limit of them for 1 to 1000 and 100 otherwise |
| EventBuffer.UnknownCursorStartsOver | src/internal/daemon/api_events.go:66-76 | a cursor that no buffered event has lists from the oldest |
| EventBuffer.PollSkipsOnlyEvicted | src/internal/daemon/api_events.go:59-83 | what a poll skips between the old and the new cursor was evicted by then |
| EventBuffer.PollingOverRuns | src/internal/daemon/api_events.go:36-83 | over any interleaving of adds and polls a client sees strictly increasing real events and misses only evicted ones |
| EventBuffer.ShortPollCatchesUp | src/internal/daemon/api_events.go:77-82 | a poll that returns less than its limit leaves nothing unseen |
| Decimal.ItoaInjective | src/internal/daemon/api_events.go:127-137 | different sequence numbers have different ids |
| Decimal.ItoaDigits | src/internal/daemon/api_events.go:127-137 | the digits from the last to the first, n % 10 of 0123456789 each |
| Decimal.AtoiOfItoa | src/internal/tunnel/server_config.go:329-332 | reading a printed 64-bit integer gives it back without error |
| Decimal.AtoiExactly | src/internal/tunnel/server_config.go:329-332 | read without error iff digits behind an optional sign that fit 64 bits; what does not fit becomes the nearest bound |
| Shell.ArgSpells | src/internal/tunnel/server_config.go:342-344 | in any unquoted position a quoted argument adds exactly its text to the current word |
| Shell.ArgWord | src/internal/ssh/client.go:281-283 | a quoted argument is one word, whatever it holds |
| Shell.DockerExecWords | src/internal/tunnel/peer.go:402-404 | for all containers and commands the shell sees exactly docker, exec, container, sh, -c, command |
| Shell.DockerExecCmdWords | src/internal/tunnel/server_config.go:337-339 | the container is one word and the command is split as written |
| Shell.DockerCatWords | src/internal/tunnel/server_config.go:170-177 | any path reaches cat as one argument |
| Shell.NestedQuoting | src/internal/tunnel/server_config.go:342-344 | n levels of quoting are undone by n rounds of the shell |
| Shell.DockerExecTwice | src/internal/tunnel/peer.go:402-404 | a nested command line keeps the words of its inner command |
| Shell.SyncScriptWordsIff | src/internal/tunnel/peer.go:237-262 | the hot-reload script runs the command it was built as, an interface name without quote characters in its place, iff the shell knows none of the name's characters |
| Shell.BlankInNameIsCut | src/internal/tunnel/peer.go:249-257 | a blank in the name cuts the command off |
| AwgConf.ExtractSection | src/internal/tunnel/server_config.go:290-314 | the lines between the header and the next other header, without trailing newlines |
| AwgConf.ParseInterfaceSection | src/internal/tunnel/server_config.go:222-285 | the last value of each known key, or an error for a missing section or a bad ListenPort |
| AwgConfLaws.SplitField | src/internal/tunnel/server_config.go:319-327 | a line of a key, an equals sign and any text splits into that key and the trimmed text |
| AwgConfLaws.SplitIff | src/internal/tunnel/server_config.go:316-327 | a line splits into key and value iff it is space, a word, space, an equals sign and a text that trims to the value |
| AwgConfLaws.SectionIsBetweenHeaders | src/internal/tunnel/server_config.go:290-314 | the section runs from its first header to the next header of another section, its own header repeated going on with it |
| AwgConfLaws.EachKeyItsValue | src/internal/tunnel/server_config.go:247-279 | each of the sixteen keys names its own value |
| AwgConfLaws.SlotIsAssigned | src/internal/tunnel/server_config.go:247-279 | a line of such a key sets that value to what Atoi returns, error or not |
| AwgConfLaws.AddressAndPort | src/internal/tunnel/server_config.go:237-246 | the address is taken as text; a ListenPort that does not parse is an error |
| AwgConfLaws.IgnoredLines | src/internal/tunnel/server_config.go:229-236 | blank lines, comments, lines that are no key and value, and other keys change nothing |
| Heredoc.CarriedIff | src/internal/tunnel/peer.go:224-233 | a here-document carries exactly its body, and leaves no line to be run, iff no line of the body is the delimiter |
| AwgConfLaws.BlockArrivesIff | src/internal/tunnel/peer.go:219-233 | the file gets a peer block as it is printed, and nothing else is run, iff no line of the block is PEER |
| AwgConfLaws.OneLinePeerIsWhole | src/internal/tunnel/peer.go:219-233 | a peer whose fields hold no newline has no such line |
| AwgConfLaws.PeerBlockReadBack | src/internal/tunnel/peer.go:219-222 | the lines of a one-line peer's block give back its key, preshared key, address with /32 and keepalive under their names |
| AwgConfLaws.DelimiterInAKeyCutsShort | src/internal/tunnel/peer.go:219-233 | a key that holds the line PEER cuts the block off behind its first field and leaves lines to be run |
| AwgConfLaws.PeersNeverChangeTheInterface | src/internal/tunnel/peer.go:219-233 | appending any number of whole peer blocks to any file leaves what is parsed, error or not, iff the file names the section or the blocks alone put no text under its header |
| AwgConfLaws.PeersInvisible | src/internal/tunnel/server_config.go:290-314 | behind an [Interface] header any number of whole peer blocks leaves the section as it is |
| AwgConfLaws.HeaderlessPeersChangeNothing | src/internal/tunnel/server_config.go:290-314 | whole peers no line of which trims to the header change nothing in any file |
| AwgConfLaws.OneLinePeerNamesNothing | src/internal/tunnel/peer.go:219-222 | a peer whose fields hold no newline is such a peer |
| AwgConfLaws.HeaderInAKeyIsParsed | src/internal/tunnel/peer.go:69-90 | a key of a newline and the header changes what is parsed of a file without the section |
| AwgConfLaws.RenderedFileIsText | src/internal/provisioner/setup.go:259-261 | the provisioner's here-document carries its text: no line of it is AWGEOF |
| AwgConfLaws.ConfRoundTrip | src/internal/provisioner/setup.go:220-270 | parsing the file that is written gives back address, listen port and every printed value |
| AwgConfLaws.PrivateKeyIsPrinted | src/internal/provisioner/setup.go:223-241 | the first line behind the header gives back the private key |
| AwgConfLaws.ObfuscationRecoveredIff | src/internal/provisioner/setup.go:223-255 | all sixteen obfuscation values come back iff the five that are not printed are zero |
| AwgConfLaws.ProvisionThenDerive | src/internal/tunnel/manager.go:597-617 | provisioned, extended with any whole peers and parsed, the file yields the original subnet and server address |
| PeerDump.ParseDumpOutput | src/internal/tunnel/server_config.go:192-217 | the entries of the lines after the first that have at least eight fields |
| PeerDump.ColumnsInOrder | src/internal/tunnel/server_config.go:196-215 | columns one to eight are the entry's fields in order, and fewer than eight make no entry |
| PeerDump.DumpRoundTripIff | src/internal/tunnel/server_config.go:190-217 | a printed dump parses back to its peers iff it has none or the last one has a keepalive |
| PeerDump.EmptyKeepaliveIsLost | src/internal/tunnel/server_config.go:193-204 | a last peer with an empty keepalive is dropped and the others are kept |
| Addresses.AllocateNextIP | src/internal/tunnel/peer.go:178-213 | the address of the least host of .2 to .254 no peer occupies, and failure iff all are taken or the subnet does not parse |
| AddressLaws.NextHostExactly | src/internal/tunnel/peer.go:204-212 | the least number from 2 to 254 whose address no peer has, and none iff all are taken |
| AddressLaws.AllocatedOnSlash24 | src/internal/tunnel/peer.go:178-213 | on the /24 of any network the allocator walks the addresses of that network |
| AddressLaws.NetworkExactly | src/internal/tunnel/peer.go:180-202 | the network of a prefix of any length: its octets masked from the left |
| AddressLaws.OccupiedIff | src/internal/tunnel/peer.go:185-196 | an address is occupied iff some peer lists it, with or without a prefix length, among its entries |
| AddressLaws.ParseOfFormat | src/internal/tunnel/peer.go:206 | printing an address and parsing it back is the identity |
| AddressLaws.ParsedIPv4Iff | src/internal/tunnel/peer.go:180 | a text is an address iff it is the printed form of a valid one |
| AddressLaws.ParsedCIDRIff | src/internal/tunnel/peer.go:180 | a text is a network iff it is an address, a slash and digits for at most 32 |
| AddressLaws.SubnetRoundTrip | src/internal/tunnel/manager.go:597-617 | subnet and server address are recovered from the address the provisioner writes |
| AddressLaws.DerivedExactly | src/internal/tunnel/manager.go:597-617 | from any address and prefix length the /24 around the address and the address itself are derived |
| AddressLaws.ServerIPWithoutSlash | src/internal/tunnel/manager.go:611-617 | without a slash, or with one in front, the text is taken as it stands |
| AddressLaws.ServerIPOfSubnet | src/internal/provisioner/setup.go:273-276 | the server address of a /24 is its host .1 |
| AddressLaws.ServerIPOfOther | src/internal/provisioner/setup.go:273-276 | any other text gets .1 appended |
| AddressLaws.AddressesStayDistinct | src/internal/tunnel/manager.go:332-355 | over n allocations and additions every address was unoccupied before and no two are the same |
| AddressLaws.SuccessesAreFreeHosts | src/internal/tunnel/peer.go:204-212 | n additions to any peer list succeed as often as there were free hosts |
| AddressLaws.EmptyServerTakes253 | src/internal/tunnel/peer.go:204-212 | an empty server takes exactly 253 peers |
| AddressLaws.EmptyServerInOrder | src/internal/tunnel/peer.go:204-210 | they get .2, .3, ..., .254 in order |
| AddressLaws.ServerAddressHandedOutIff | src/internal/tunnel/peer.go:185-210 | from any peer list, some number of additions hands out the server's own address iff its host number is 2 to 254 and no peer holds it |
| AddressLaws.ProvisionedServerKeepsItsAddress | src/internal/tunnel/manager.go:332-355 | from no peer list is the address the provisioner gave the server ever handed out |
| AddressLaws.CollisionIffDumpUnread | src/internal/tunnel/server_config.go:116-123 | the allocated address is already occupied iff the dump could not be read and .2 is occupied |
| TokenStore.Store.Create | src/internal/auth/store.go:86-103 | appends the token unless its name is taken or saving fails |
| TokenStore.Store.GetByID | src/internal/auth/store.go:106-121 | the first token with the id, not found, or an error if the file cannot be read |
| TokenStore.Store.Update | src/internal/auth/store.go:151-181 | replaces the token with that id unless it is missing, its new name is taken or saving fails |
| TokenStore.Store.SoftDelete | src/internal/auth/store.go:183-206 | disables the first token with the id and changes nothing else |
| TokenStore.CreatedExactly | src/internal/auth/store.go:95-102 | creating fails iff some token has the name and else appends |
| TokenStore.UpdatedExactly | src/internal/auth/store.go:159-174 | the first token with the id is replaced unless its name changes to that of a token with another id |
| TokenStore.SoftDeletedExactly | src/internal/auth/store.go:192-198 | the first token with the id is disabled and otherwise kept |
| TokenStore.NotThere | src/internal/auth/store.go:176-205 | without a token of the id update and delete report not found |
| TokenStore.SavedExactly | src/internal/auth/store.go:86-206 | a failed operation or save leaves the file alone and reports the first error |
| TokenStore.OperationsKeepNamesUnique | src/internal/auth/store.go:86-206 | Create, Update and SoftDelete keep names pairwise distinct |
| TokenStore.OperationsKeepIdsUnique | src/internal/auth/store.go:86-206 | they keep ids pairwise distinct when new ids are fresh |
| TokenCache.Cache.Validate | src/internal/auth/cache.go:47-106 | the cached answer on a hit, else the first-match scan and a new entry under the token's prefix |
| TokenCache.HitAnswers | src/internal/auth/cache.go:47-68 | a fresh enabled entry under the first eight characters with the same digest answers with its id, name and scope, whatever the store holds |
| TokenCache.MissFindsFirst | src/internal/auth/cache.go:75-102 | on a miss the first enabled, unexpired token whose bcrypt hash matches is returned and cached under its own prefix |
| TokenCache.MissFindsNone | src/internal/auth/cache.go:75-106 | on a miss without such a token nothing is returned and nothing cached |
| TokenCache.Cache.Invalidate | src/internal/auth/cache.go:116-120 | removes the entry under one prefix |
| TokenCache.Cache.InvalidateAll | src/internal/auth/cache.go:122-126 | removes all entries |
| TokenCache.Cache.Revoke | src/internal/api/v1/mutations.go:185-210 | disables the token, then drops the entry under its prefix; nothing changes if it is missing or cannot be saved |
| TokenCache.ValidateKeepsCoherent | src/internal/auth/cache.go:75-102 | while the store does not change, validating keeps every entry what the scan found when it was cached |
| TokenCache.CachedAnswersOverRuns | src/internal/auth/cache.go:47-126 | on every run from an empty cache with an unchanged store, whatever is validated and invalidated in between, the cache answers as the scan would now, except exactly when it hits on a token that has expired |
| TokenCache.CachedAnswerIsScan | src/internal/auth/cache.go:55-105 | the same for one call on any entries the scan found earlier |
| TokenCache.FirstMatchLater | src/internal/auth/cache.go:75-83 | later the first match is the same iff that token has not expired |
| TokenCache.AcceptedTokenWasGood | src/internal/auth/cache.go:47-106 | on every run an accepted answer is the id, name and scope of a token that was enabled, unexpired and matching by its bcrypt hash now or less than ttl ago |
| TokenCache.ReturnedAfterRevokeIff | src/internal/api/v1/mutations.go:193-205 | from any state with unique ids, a revoked id is returned on some run that does not enable it again iff the plain text hits an entry for it at the revoke that is not under the token's prefix |
| TokenCache.RevokeKillsIff | src/internal/api/v1/mutations.go:193-205 | after a revoke the id is neither enabled nor cached iff all its entries were under the token's prefix |
| TokenCache.RevokedIsNeverReturned | src/internal/api/v1/mutations.go:193-205 | while prefixes do not change, a revoked id is never returned until an operation enables it again |
| TokenCache.PrefixChangeOutlivesRevoke | src/internal/auth/cache.go:116-120 | an update that changes the prefix of a cached token lets it be accepted after its revocation |
| Wizard.Handler.CreateSession | src/internal/wizard/handlers.go:50-74 | a new session is stored iff there is none |
| WizardLaws.NewSession | src/internal/wizard/handlers.go:50-74 | a new session is empty, in progress and at the first step |
| Wizard.Handler.DeleteSession | src/internal/wizard/handlers.go:120-149 | the stored session is deleted iff the id is its own |
| Wizard.Handler.SubmitStep | src/internal/wizard/handlers.go:151-243 | the stored session after a submission, and acceptance iff input, DNS, transition and save all pass |
| WizardLaws.RefusedSubmissions | src/internal/wizard/handlers.go:168-243 | no step gives 422, another step than the session's 409, and a step that takes no input 422 |
| WizardLaws.SubmittedAtWelcome | src/internal/wizard/handlers.go:245-362 | moves to the SSH step |
| WizardLaws.SubmittedAtSSH | src/internal/wizard/handlers.go:250-267 | stores the credentials as sent and moves to the preflight, or 422 if one is missing |
| WizardLaws.SubmittedAtDomainMode | src/internal/wizard/handlers.go:269-281 | stores nipio or byo and moves to the peer or the domain check, or 422 |
| WizardLaws.SubmittedAtDomainCheck | src/internal/wizard/handlers.go:283-293 | stores the domain and its check and moves on iff TLS is feasible, to Cloudflare iff that was detected |
| WizardLaws.SubmittedAtCloudflare | src/internal/wizard/handlers.go:295-306 | stores the token and moves on iff there is one; without one 422 if enabled and 500 if not |
| WizardLaws.SubmittedAtCreatePeer | src/internal/wizard/handlers.go:308-320 | stores peer name and port as sent and moves to commit, or 422 without a name |
| Wizard.Handler.RunPreflight | src/internal/wizard/handlers.go:364-439 | the stored session after a preflight, compatible or not |
| WizardLaws.PreflightedExactly | src/internal/wizard/handlers.go:364-439 | the result is stored either way, moves on iff compatible, and each failure has its status |
| Wizard.Handler.StartCommit | src/internal/wizard/bootstrap.go:56-104 | a bootstrap starts iff the session stands at the commit step in progress, and the session is unchanged |
| WizardLaws.LaunchedIff | src/internal/wizard/bootstrap.go:56-104 | launched on the stored session iff the id, the commit step, the status and the file operations allow it |
| Wizard.Handler.RunBootstrap | src/internal/wizard/bootstrap.go:106-191 | the stored session after a bootstrap that succeeds or fails in any phase |
| WizardLaws.FinishedExactly | src/internal/wizard/bootstrap.go:106-212 | the end of a bootstrap changes nothing of the session but step, status, progress and message |
| Wizard.Handler.FailCommit | src/internal/wizard/bootstrap.go:193-212 | a session at the commit step is put into error |
| WizardLaws.SubmittedIsGood | src/internal/wizard/handlers.go:245-362 | an accepted submission keeps what its step must have earned and strictly increases progress |
| WizardLaws.SessionsAreGood | src/internal/wizard/wizard.go:175-213 | on every run a stored session has the SSH input, preflight, domain and peer name its step requires, is committed iff it succeeded, and accepts at most six submissions |
| WizardLaws.CommittedSessionIsComplete | src/internal/wizard/wizard.go:399-414 | a committed session is at success with complete inputs |
| WizardLaws.ProgressNeverDecreases | src/internal/wizard/wizard.go:289-429 | no step of any run lowers a session's progress and every accepted submission raises it |
| WizardLaws.SuccessIsReachable | src/internal/wizard/wizard.go:175-213 | from every reachable session not in error some requests lead to success |
| WizardLaws.ErrorIsFinal | src/internal/wizard/wizard.go:416-429 | a session in error only ever changes by deletion |
| WizardLaws.SuccessIsFinal | src/internal/wizard/wizard.go:399-414 | a session that succeeded only ever changes by deletion |
| WizardLaws.BootstrapEndsIff | src/internal/wizard/bootstrap.go:106-212 | however it and its file operations turn out, a bootstrap commits the session stored at its end iff it succeeds and that session stands at the commit step, and puts it into error iff it fails and that session stands there, the file operations of the path taken working |
| WizardLaws.ForeignBootstrapEnds | src/internal/wizard/bootstrap.go:139-212 | runs in which a session is committed, or put into error, that never started a bootstrap |
| LineScanner.Scanner.Scan | src/internal/ssh/client.go:254-276 | hands out the next line of buffered plus unread data, or reports that none is left |
| LineScanner.ReadLines | src/internal/ssh/client.go:254-276 | reading to the end yields exactly the lines of the data, however it was cut into reads |
| LineScanner.Recut | src/internal/ssh/client.go:262-267 | cutting a read in two or inserting an empty one changes no data |
| LineScanner.CheckHostKey | src/internal/ssh/client.go:186-215 | accepts a key iff its line is known or the file can be written, and then appends an unknown line |
| LineScanner.FoundAgainIff | src/internal/ssh/client.go:189-207 | a checked key is found again iff it was there or the file was terminated |
| LineScanner.CheckingTwice | src/internal/ssh/client.go:186-208 | on a terminated file checking twice is checking once and keeps every known line |
| LineScanner.EveryKeyIsRemembered | src/internal/ssh/client.go:170-215 | every key a host offers, changed ones too, is remembered beside the earlier ones |
| SshPool.SessionPool.Session | src/internal/ssh/pool.go:75-142 | the pool and the result after an acquisition, for every combination of failures inside it |
| SshPool.AcquiredIff | src/internal/ssh/pool.go:75-142 | a session is handed out iff the pool is open with a slot free and dial, open and keepalive work at once or after their one reconnect |
| SshPool.RefusedBecause | src/internal/ssh/pool.go:75-137 | which error is reported, by the first thing that goes wrong |
| SshPool.AcquisitionCost | src/internal/ssh/pool.go:88-137 | a successful acquisition dials once for a missing client and once for each reconnect, and opens two sessions iff the first was not alive |
| SshPool.SessionPool.Put | src/internal/ssh/pool.go:147-153 | the session is untracked and closed |
| SshPool.SessionPool.Close | src/internal/ssh/pool.go:157-174 | all tracked sessions and the client are closed; a second close changes nothing |
| SshPool.SessionPool.SweepIdle | src/internal/ssh/pool.go:233-250 | one tick of the idle sweeper |
| SshPool.SessionPool.Stats | src/internal/ssh/pool.go:184-195 | active and idle slots are never negative and sum to three |
| SshPool.AcquireSettles | src/internal/ssh/pool.go:75-142 | success tracks exactly one new session, failure none, and nothing opened inside is leaked |
| SshPool.NothingLeaks | src/internal/ssh/pool.go:75-250 | over every run each session is tracked or closed, each client current or closed, at most three sessions are tracked, and a closed pool holds nothing |
| SshPool.ClosedForever | src/internal/ssh/pool.go:79-81 | a closed pool refuses every acquisition and never dials again |
| SshPool.SweepClosesIffAllHandedBack | src/internal/ssh/pool.go:233-250 | on every run a sweep closes a client iff there is one, every session handed out was handed back, and the last was handed out over 30 s ago |
| SshPool.ExhaustedIff | src/internal/ssh/pool.go:74-86 | on every run an acquisition finds no slot iff the pool is open and three of the sessions handed out were not handed back |
| SshPool.NeverHandedBack | src/internal/ssh/pool.go:74-86 | three sessions never handed back, closed or not, exhaust an open pool for good |
| SshPool.SweptRightAfterReturnIff | src/internal/ssh/pool.go:139-153 | after the last return the client may be swept iff the last acquisition is over 30 s ago |
| SshPool.ClientClosedUnderSessionsIff | src/internal/ssh/pool.go:94-123 | an acquisition closes the client under other sessions iff it gets past the checks and opening or the keepalive fails |

## Left out

- LogRing.Ring.Write: a write is one step; the source does not order the slot store before the `total` update, so a read overlapping a write is not modelled.
- TokenBucket.RateLimiter.Allow: token counts are exact integers of a billionth of a token; float rounding and the saturation of time differences at 292 years are not modelled.
- TokenCache.Cache.Validate: one clock reading stands for the several of a call, so the time bcrypt takes is not added to the staleness bound, and a revoke does not overlap a validation.
- InviteStore.Store.GC: operating-system errors while reading, writing or renaming, and torn writes, are not outcomes of the operations; a torn last line appears as an arbitrary file content.
- LogHub.Hub.Notify: nothing in the repository calls it (`src/internal/logger/handler.go:303` only writes to the ring), so the fan-out theorems speak of the use its comment documents: one writer that notifies after each write.
- LogHub.Hub.RunOnce: reading the ring and sending to all subscribers is one step of the reader; `Stop`, record marshalling errors and the free-form record fields are left out.
- Addresses.AllocateNextIP: addresses in IPv6 notation, IPv4-mapped ones included, do not parse here.
- Wizard.Handler.SubmitStep: each handler's load, reduce and save is one step; timestamps, error bodies and the result fields no decision reads are left out.
- SshPool.SessionPool.Session: names for new clients and sessions are passed in; errors from closing them are ignored as in the source.
- Step back, retry and domain check results of the wizard's reducer, which no handler dispatches, and the redacted view of a session.
- Shell.SyncScriptWordsIff: interface names with quotes or backslashes; and what the commands of the hot-reload script do.
- AwgConfLaws.PeersNeverChangeTheInterface: what the lines a cut-off block leaves over do when the server runs them; NUL characters, which a shell drops.
- The clients table, and removal of peers.
- The port-exposure saga, Caddy and DNS management, drift detection, JWTs, scopes, auditing, redaction, reconnection and health probing.
- The web front end, tray, installers, metrics, QR codes and templates.
