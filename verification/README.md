# Verified model of the proxy speed tester

This project models the stateful algorithms of the speed tester and proves properties of them that
hold for all inputs, all histories of calls and all interleavings of goroutines. `dafny verify
dfyconfig.toml` checks everything.

| files | what they model |
|---|---|
| `Recency`, `RecencyLaws`, `ExpiryLaws`, `InclusionLaws`, `Bindings`, `LruCache` | the LRU cache: its operations as functions on a recency list, the laws of every history, and the class with its map, its list and its elements updated in place |
| `Protocol`, `ProtocolSafety`, `ProtocolProgress`, `ProtocolDeterminism`, `ProtocolMessages`, `ProtocolStreams`, `WorkerStory`, `Scripts`, `LateEndone` | one test run as a state machine: main loop, workers, guard, WaitGroup, result channel, message stream |
| `CmdProgress`, `Verdicts`, `PrintedLines`, `Misjudged`, `TestStore`, `DialLaws` | the two observers of the stream: the command line's counter and verdicts, and the browser's dials |
| `Sampling`, `SamplingLaws`, `Phases` | one speed phase: connections, atomic counter, ticker, sample channel, consumer; and how it feeds a worker |
| `RewindReader` | the rewinding reader, on values (module `Tapes`) and as a class |
| `SocksAddr`, `SocksReader`, `SocksLaws` | SOCKS addresses, sections 5 and 7 of RFC 1928 |
| `Text`, `WordWrap`, `Cuts`, `WrapLaws`, `WrapLoss`, `WrapWidth`, `WrapIndented` | splitting lines into words and wrapping them |
| `DashPath`, `DashLines` | splitting a list of paths into dashes |
| `HeaderMerge`, `BufferPool`, `ByteRanges`, `Upload`, `Numbers` | header merging, the buffer allocator, byte ranges, the upload body and its digest, numbers and units |
| `Basics`, `Options`, `Counting` | shared helpers |

Conventions. Where the source updates state in place, a class or a loop does so here, and its
contract ties the new state to a specification function about which the laws are proved. An event
that is not enabled in a state leaves that state as it is, so a theorem about all event sequences
is a theorem about all interleavings. Clock readings, ping results, samples, arriving bytes, hash
functions, the text measure and case folding are parameters.

What the proofs say about the code that its documentation does not:

- A run in which some link does not parse never finishes: `testOne` sends no node for it, and the
  main loop waits for one node per link (`ProtocolProgress.CompletesExactly`).
- `eof` can be written before an `endone`, since `wg.Done` runs first: for the last link always, for
  any other exactly if there are at least two slots (`LateEndone.LateExactly`), and never for more
  links than there are slots (`LateEndone.FewLate`). It precedes no ping, speed or upload message.
- A link can count as a success and print as failed: exactly when no ping came back, a download
  began, and the last speed reported for it was below 1 (`Verdicts.VerdictExactly`). Some run treats
  a given link so exactly if the link parses (`Misjudged.FailedExactly`).
- The sweep of the cache looks only at the front of the list. With operations that follow one another
  it finds all expired entries exactly when reads renew the age, or the age limit is one second, or at
  most two entries fit (`ExpiryLaws.SweepCleanExactly`). `Set` reads the clock before it takes the
  lock; with concurrent callers only a cache of a single entry is always swept clean
  (`ExpiryLaws.ConcurrentSweepExactly`).
- The comment on `GetWithExpire` says that expiry is neither checked nor updated; the code does both,
  and so does the model.
- `SetBufferSize` loses the part of a replay that has not been read yet (`Tapes.ResizeLosesUnread`);
  a `Rewind` after `StopBuffering` is right exactly until a raw byte is taken (`Tapes.RewindExactly`).
- `wordWrap` drops words of a line exactly when the line starts with white space that is too wide
  for a line and is followed by a word (`WrapLoss.LineKeptExactly`). A line that starts with white
  space can also come out too wide: exactly when a word does not fit where the loop appends it
  unmeasured (`WrapWidth.IndentedWidthExactly`). A line that is no wider than the width is never
  affected (`WrapWidth.NarrowLineFits`); two words behind white space are whenever they do not fit
  together and the white space before each of them still did (`WrapWidth.UnmeasuredWord`), as " a bbb"
  at width 3 (`WrapWidth.TooWideExample`). Apart from that such a line is wrapped as well as it can be:
  greedily, in as few lines as there can be (`WrapIndented.IndentedIsOptimal`).
- `dashPath` ends exactly if some dash has positive length or the path has no length
  (`DashPath.Dash`, `DashPath.NeverEnds`); a later path starts where the first one did in the pattern
  only if the first one started in the last dash of positive length (`DashPath.PhaseCarriesOver`).
  What the offset goes by is where the path before started, not where it ended (`DashPath.DashPaths`).
- `EncodeUDPPacket` does not check its address; its packets read back exactly when it was one
  (`SocksAddr.PacketReadsBackExactly`).
- A buffer put back by a client that does not own it can get two owners exactly when the pool already
  has it or another client owns it (`BufferPool.TwoOwnersExactly`).
- `calcRange` tiles a file exactly when there is at least one byte for each part
  (`ByteRanges.TilesExactly`).

## Model

| member | source | states |
|---|---|---|
| Recency.StepWellFormed | common/cache/lrucache.go:126-217 | every operation keeps the keys of the list distinct and its length within maxSize |
| Recency.HistoryWellFormed | common/cache/lrucache.go:126-147 | over every history the cache holds each key once and never more than maxSize entries |
| RecencyLaws.RecencyOrder | common/cache/lrucache.go:107-188 | over every history the list reads, front to back, in order of last touch: a Set or a hit Get, not Exist |
| RecencyLaws.VictimIsLeastRecent | common/cache/lrucache.go:126-147 | writing a new key into a full cache evicts first the entry whose last touch is older than that of every other key present; without expiry no write evicts anything else |
| RecencyLaws.FrontIsOldest | common/cache/lrucache.go:138-144 | the front entry's last touch is older than every other's |
| RecencyLaws.EntriesConserved | common/cache/lrucache.go:126-217 | key by key, insertions equal present entries plus evict calls, over every history |
| ExpiryLaws.HistoryTidy | common/cache/lrucache.go:166-208 | when operations follow one another, in the configurations where a front-only sweep is enough, no Set and no expired Get leaves an expired entry |
| ExpiryLaws.ExpiredEntrySurvives | common/cache/lrucache.go:201-208 | in every other expiring configuration, from any second on, a history of four calls leaves an expired entry behind |
| ExpiryLaws.SweepCleanExactly | common/cache/lrucache.go:116-208 | with operations that follow one another an expiring cache is always swept clean if and only if reads renew the age, or maxAge is 1, or maxSize is 1 or 2 |
| ExpiryLaws.ClockedIsConcurrent | common/cache/lrucache.go:116-128 | histories of operations that follow one another are among those of concurrent callers |
| ExpiryLaws.ConcurrentSweepExactly | common/cache/lrucache.go:116-128 | with Sets whose clock reading other operations can overtake, an expiring cache is always swept clean if and only if maxSize is 1 |
| InclusionLaws.Inclusion | common/cache/lrucache.go:126-199 | two caches of capacities m and n, m at most n or n unbounded, driven by the same operations without expiry: the smaller list is the larger one with at most n - m entries left out, values and order equal |
| InclusionLaws.HitsAgree | common/cache/lrucache.go:166-188 | a hit in the smaller cache is a hit with the same entry in the larger one |
| InclusionLaws.UnboundedIsMap | common/cache/lrucache.go:107-199 | a cache without size limit in which nothing expires binds every key as an ordinary map does |
| InclusionLaws.BoundedAnswersAreMapAnswers | common/cache/lrucache.go:83-95 | whatever the capacity, a Get without expiry answers what the map answers, or misses |
| InclusionLaws.TruncatedExactlyWhenFull | common/cache/lrucache.go:135-144 | a bounded cache equals the unbounded one throughout a history if and only if the map never outgrows the capacity |
| Bindings.EntriesCarryBindings | common/cache/lrucache.go:116-199 | over every history and in every configuration each entry present carries the value and the expiry its key is bound to: by SetWithExpire as given, by Set the clock plus maxAge or 0, by a renewing hit the clock plus maxAge; a map kept beside the cache says which |
| Bindings.AnswerCarries | common/cache/lrucache.go:83-104 | what a Get answers, value and expiry, is what its key is then bound to, and was not expired |
| Bindings.AliveIsPresent | common/cache/lrucache.go:116-208 | without a size limit every key bound and not expired is present, over every history whose clock does not run backwards |
| Bindings.HitExactly | common/cache/lrucache.go:166-188 | without a size limit a Get hits if and only if its key is bound and, in an expiring cache, its time has not come |
| Bindings.LossesExplained | common/cache/lrucache.go:126-217 | over every history an entry leaves the cache only by Delete, expired, or as the front of a full list when a new key is written |
| Bindings.FrontIsFresh | common/cache/lrucache.go:166-208 | after any write, and any read of an expired entry, the front has not expired, and the entry that was read is gone |
| Bindings.WrittenIsNewest | common/cache/lrucache.go:126-188 | what a write stores, unless it expires at once, and what a read answers is the last entry of the list, value and expiry included |
| Bindings.HandedOn | common/cache/lrucache.go:210-217 | onEvict gets each dropped key with the value it was bound to |
| LruCaches.LruCache.constructor | common/cache/lrucache.go:68-79 | a new cache is empty and its map and list are in step |
| LruCaches.LruCache.DeleteElement | common/cache/lrucache.go:210-217 | takes one key, and no other, out of map and list, and hands the entry to onEvict if there is one |
| LruCaches.LruCache.DeleteFront | common/cache/lrucache.go:138-144 | removes the front entry and nothing else |
| LruCaches.LruCache.MaybeDeleteOldest | common/cache/lrucache.go:201-208 | cuts the longest expired prefix off the list |
| LruCaches.LruCache.MoveToBack | common/cache/lrucache.go:174-184 | an element of the list moves to the back, the others keep their order, map and list stay in step |
| LruCaches.LruCache.SetWithExpire | common/cache/lrucache.go:126-147 | the element under the key has the value and the expiry given, and is missing only if that has expired; map, list and elements do the store step of the recency specification together |
| LruCaches.LruCache.Overwrite | common/cache/lrucache.go:130-134 | an existing key gets the new value and age in its own element, at the back |
| LruCaches.LruCache.Insert | common/cache/lrucache.go:135-144 | a new key gets an element at the back and, if the cache was full, the front entry goes |
| LruCaches.LruCache.Set | common/cache/lrucache.go:116-122 | stores with the age limit counted from the first clock reading |
| LruCaches.LruCache.Find | common/cache/lrucache.go:166-188 | expired entries are removed and missed, others move to the back and are answered, renewed if so configured |
| LruCaches.LruCache.Get | common/cache/lrucache.go:83-95 | the value of the answer of the specification, and its new state |
| LruCaches.LruCache.GetWithExpire | common/cache/lrucache.go:97-104 | checks and renews the age as Get does, and also returns it |
| LruCaches.LruCache.Exist | common/cache/lrucache.go:107-113 | tells whether the key is present, and changes nothing |
| LruCaches.LruCache.Delete | common/cache/lrucache.go:191-199 | removes the key if it is there, with an evict call |
| Protocol.Announce | web/profile.go:575-595 | the loop writes the announcements from link 0 on |
| Protocol.AnnouncementsTile | web/profile.go:575-595 | the announced batches are nonempty and cut the links into consecutive stretches, each link in one |
| Protocol.BatchWidths | web/profile.go:575-595 | each batch has 9 links, or with more than 200 a twentieth of them up to 50; only the last may have fewer |
| ProtocolSafety.AlwaysSafe | web/profile.go:596-633 | under every interleaving the guard counts the holders, the WaitGroup the working ones, and channel and results hold at most one genuine node per link |
| ProtocolSafety.ConcurrencyBounded | web/profile.go:596-618 | at most Concurrency workers hold a slot at any time, cancelled or not |
| ProtocolSafety.SendNeverBlocks | web/profile.go:597-618 | a worker at its send to nodeChan can always send at once, even after cancellation |
| ProtocolSafety.OneNodePerLink | web/profile.go:619-623 | when wg.Wait passes, nodeChan holds exactly one node for each link that parses and nothing else |
| ProtocolSafety.SummaryIsOrderFree | web/profile.go:622-641 | a completed run has nodes[i].Id = i for all i; its traffic is the sum of all download samples, its success total the number of successful nodes |
| ProtocolProgress.RunIsBounded | web/profile.go:571-633 | samples aside, a run takes at most 17 steps a link and four more, however it is interleaved |
| ProtocolProgress.HolderCanMove | web/profile.go:743-815 | no worker that holds a slot is ever stuck |
| ProtocolProgress.RestLeavesNoWorker | web/profile.go:608-618 | a run at rest, cancelled or not, has no worker, no token and no spawning left, and has stopped early only if cancelled |
| ProtocolProgress.CompletesExactly | web/profile.go:619-633 | an uncancelled run at rest has collected one node per parsing link; it has completed if and only if every link parses |
| ProtocolDeterminism.ResultsIndependent | web/profile.go:600-642 | two completed runs in which each worker met the same choices return the same nodes and totals, at any two concurrency levels and in any order of completion |
| ProtocolDeterminism.AlwaysFollows | web/profile.go:743-815 | at any time each worker stands where its own log alone leads, and its node is the one that log leads to |
| ProtocolMessages.StreamOrder | web/profile.go:571-620 | started comes first, no announcement follows a worker's message or eof, eof follows every ping, speed and upload message, and the endone of a link follows its other messages and comes once |
| ProtocolMessages.BatchesTile | web/profile.go:571-595 | in every run the announcements, with ipinfo anywhere among them, are those of the announcement loop so far and cut the links up to a point into consecutive batches; all links are announced before a worker writes or the run ends |
| LateEndone.LateExactly | web/profile.go:600-620 | for every valid run configuration and link, some run writes eof before the link's endone if and only if it is the last link or there are at least two slots |
| LateEndone.FewLate | web/profile.go:608-620 | in every run at most as many endone messages follow eof as there are slots |
| ProtocolMessages.PrefixOfRun | web/profile.go:571-620 | every prefix of the stream, the empty one included, is the full stream of an earlier state of the run |
| ProtocolMessages.StreamTrafficIsSummaryTraffic | web/profile.go:622-630 | the download bytes reported in the stream of a completed run are its summary's traffic |
| ProtocolStreams.LinkStream | web/profile.go:743-926 | under every interleaving the messages about a link are those its own log leads to, followed by its endone once that is written |
| ProtocolStreams.NodeExplained | web/profile.go:762-813 | a collected node is a success if and only if a positive ping or the start of a download was reported for its link, and its traffic is the sum of the samples reported for it |
| ProtocolStreams.StreamsIndependent | web/profile.go:743-926 | two runs, at any concurrency levels, in which a worker met the same choices report the same messages about its link in the same order |
| WorkerStory.TestOfLink | web/profile.go:743-926 | in every run a collected link has been through one test told top to bottom, as testOne, pingLink and runSpeedPhase are written: its worker met exactly the choices of that test, the stream about it is exactly what that test reports, in order, and the node is the one that test ends in |
| WorkerStory.LinkShows | web/profile.go:743-926 | the stream about a collected link has startping and one gotping, with the time that came back, exactly if the mode is not speed-only; startspeed exactly if the mode or the ping lets it go on; startupload exactly if there was a download, uploads are on, and the run was not cancelled when the download was over |
| WorkerStory.PingDecides | web/profile.go:900-926 | after its ping result a worker goes on to the speed phase or sends its node; the ping results after which it goes on |
| CmdProgress.CmdProgressWriter.WriteMessage | web/cmdprogress.go:76-115 | one message changes table, counters and printed lines as the observer's specification says |
| CmdProgress.ProgressNumbers | web/cmdprogress.go:76-115 | in every run the k-th endone line prints k out of the number of links, k never above it, each line about another link; the total is what was announced so far |
| Verdicts.LineJudged | web/cmdprogress.go:23-45 | in every run a line prints ok if and only if the last gotping about its link is positive or the last gotspeed has an average of at least 1 |
| PrintedLines.OutputExactly | web/cmdprogress.go:76-115 | in every run exactly one line is printed for each gotspeed, gotupload and endone, in order, with the number of links ended and of all links, and the verdict that the last ping and the last average of the link deserve |
| Verdicts.VerdictExactly | web/cmdprogress.go:23-45 | a link printed as ok counts as a success; line and node disagree exactly when no ping came back, a download began and the last average reported for it, if any, was below 1 |
| Misjudged.FailedExactly | web/profile.go:743-850 | for every valid run configuration and link, some run prints the link as failed while its node is a success if and only if the link parses |
| TestStore.FreeFrom | web/gui/src/store/test-store.ts:22-25 | the least number not in use |
| TestStore.UpsertLive | web/gui/src/store/test-store.ts:19-28 | the link is there with the phase and bytes given, in its own slot if it was there and else in the least that no link holds; the others are as they were; the slot search ends |
| TestStore.TestStore.HandleMessage | web/gui/src/store/test-store.ts:290-402 | one message changes live links, counters and flag as the store's specification says |
| TestStore.DialsSuffice | web/gui/src/store/test-store.ts:19-28 | at every prefix of every run's stream, live links occupy distinct slots below Concurrency |
| TestStore.ShownTraffic | web/gui/src/store/test-store.ts:345-376 | the byte counter shows every download and upload sample of the stream once |
| TestStore.DisplayAgreesWithSummary | web/gui/src/store/test-store.ts:377-402 | after a completed run no link is live and the bytes shown are the summary's traffic plus the uploaded bytes |
| DialLaws.LiveExactly | web/gui/src/store/test-store.ts:332-402 | for any messages a link is live if and only if the latest of its startping, startspeed, gotspeed, startupload, gotupload and endone and of the eofs is one of the first five, and is shown in the phase and with the bytes of that message |
| DialLaws.DialKept | web/gui/src/store/test-store.ts:19-28 | a link keeps its slot while it is live and comes in at the least slot that no other live link holds |
| DialLaws.CountersExactly | web/gui/src/store/test-store.ts:351-402 | tests counts the gotping messages, oks those with a positive ping, and loading lasts until eof |
| Sampling.BytesAccounted | download/download.go:286-345 | under every interleaving each byte added is in exactly one of: consumer's sum, channel, producer's hand, given-up samples, counter |
| Sampling.PhaseConserves | web/profile.go:821-874 | when an uncancelled phase is over, bytes added = consumer's sum + samples given up + bytes after the last swap; consumer's max is at most the returned one, equal if nothing was given up; zero is returned exactly if nothing was swapped out |
| Sampling.NothingDroppedInTime | download/download.go:317-324 | no sample is given up before the deadline, a cancellation or the return |
| Sampling.PhaseNeverSticks | web/profile.go:864-866 | neither producer nor consumer waits for ever: a send can be made, given up or is about to be received, and after the return the channel is closed and drained |
| SamplingLaws.EndsExactly | download/download.go:228-345 | the producer has returned, or is at its last send, if and only if the dialer failed, all connections had ended, the phase was past its deadline or cancelled, or it was late and no byte had come; a tick alone never ends a phase |
| SamplingLaws.RunningExactly | download/download.go:243-291 | as many connections are at work as were opened, at least one, less those that have ended |
| SamplingLaws.SamplesAreSeconds | download/download.go:305-345 | under every interleaving, cancelled or not, the samples are the bytes of each tick, zeros included, and what was left at the end; in order each was sent, and received in order, or given up |
| SamplingLaws.ConsumerGetsSeconds | web/profile.go:821-850 | an uncancelled phase that is over and gave up nothing has handed its consumer the bytes of every tick, in order |
| Phases.ReceivedTotals | web/profile.go:828-850 | the consumer's sum and max are the sum and the largest of the samples it received |
| Phases.ClosingExactly | web/profile.go:864-873 | the closing message without a speed is sent if and only if no byte was ever swapped out |
| Phases.PhaseReplay | web/profile.go:821-874 | a phase takes a worker through its download with its bytes added up and each sample reported, then the closing message if there is one |
| Phases.NodeTrafficIsPhaseSum | web/profile.go:782-813 | if the log of a collected link's worker holds, as its download, the samples and the closing of a speed phase that is over, the traffic of its node is what that phase's consumer added up |
| Tapes.ReadDeliversFuture | common/io.go:19-36 | a read, replayed or raw, delivers exactly the next bytes still to come |
| Tapes.ReadDeliversEnough | common/io.go:19-36 | a read delivers as much of an unfinished replay as the caller has room for, without touching the raw reader, and else what that offers; nothing only if there is no room or nothing to replay and nothing offered |
| Tapes.ResizeLosesUnread | common/io.go:73-91 | setting the buffer size keeps all bytes to come if and only if no replay is unfinished |
| Tapes.RewindExactly | common/io.go:61-71 | a rewind takes the reader back to where buffering started if and only if no raw byte was taken since the first StopBuffering |
| Tapes.ReplayExact | common/io.go:19-71 | for any reads and timely rewinds, what was delivered since the latest rewind followed by what is to come is the stream from the start of buffering |
| Tapes.ReplayThenRest | common/io.go:19-71 | the same for any reads and rewinds before StopBuffering and any reads after it: nothing lost, nothing twice |
| RewindReaders.RewindReader.Read | common/io.go:19-36 | fills the caller's buffer with what the tape delivers, leaves the rest of it, and moves the tape on; reports the raw reader's error, and none while it replays |
| RewindReaders.RewindReader.Rewind | common/io.go:61-67 | starts the replay over |
| RewindReaders.RewindReader.StopBuffering | common/io.go:69-71 | only ends the recording |
| RewindReaders.RewindReader.SetBufferSize | common/io.go:73-91 | switches recording on or off with an empty buffer; switched on with no replay unfinished the replay theorems apply |
| SocksAddr.DecodeEncode | transport/socks5/socks5.go:42-59 | host and port of an encoded address are those that were encoded |
| SocksAddr.EncodeDecode | transport/socks5/socks5.go:42-59 | the host and port read from an address encode to that same address |
| SocksAddr.SplitExactly | transport/socks5/socks5.go:79-105 | SplitAddr returns a if and only if the bytes begin with a and a encodes some host and port |
| SocksAddr.SelfDelimiting | transport/socks5/socks5.go:79-105 | bytes have one reading as address followed by rest |
| SocksAddr.PacketReadsBackExactly | transport/socks5/socks5.go:205-212 | a packet splits back into its address and payload, as section 7 of RFC 1928 reads it, if and only if the address is well formed |
| SocksAddr.ParseAddr | transport/socks5/socks5.go:169-203 | nil exactly for a bad split, a bad port or a name over 255 bytes; otherwise the bytes written in place are the prescribed encoding |
| SocksReader.ReadFull | transport/socks5/socks5.go:111-130 | however the stream portions its bytes, pauses or fails, the target is filled in order, the rest of buffer and stream is untouched, and the error is none, the stream's own, or that of an end in the middle |
| SocksReader.ReadAddr | transport/socks5/socks5.go:107-134 | error, bytes taken, buffer contents and slice handed back for every stream, with the slice also when the stream gives up inside host or port; on success the slice is the address SplitAddr finds; a short buffer takes nothing |
| SocksReader.ReadsWhatSplitFinds | transport/socks5/socks5.go:79-134 | reading succeeds exactly where SplitAddr finds an address, and takes exactly its bytes |
| SocksReader.ReadsWhatWasEncoded | transport/socks5/socks5.go:107-203 | an encoded address followed by anything is read back, and not a byte more |
| SocksLaws.BytesPrescribed | transport/socks5/socks5.go:169-203 | an address is, byte by byte, what section 5 of RFC 1928 prescribes: types 1, 3 and 4, a length byte before a name, the port with its high byte first |
| SocksLaws.LongestAddress | transport/socks5/socks5.go:37-38 | no address is longer than MaxAddrLen, and one is that long |
| SocksLaws.OutcomeExactly | transport/socks5/socks5.go:107-134 | reading succeeds exactly if the stream begins with an address; an unknown type takes one byte; everything else is an address cut short, all of it is taken, and its end is unexpected exactly behind the type or length byte |
| SocksLaws.SliceIsAddress | transport/socks5/socks5.go:107-134 | a slice handed back, with an error or without, has the length of the address that began |
| WordWrap.SplitOnSpace | web/render/wrap.go:12-26 | the loop yields the runs of the text |
| WordWrap.RunsAreMaximal | web/render/wrap.go:12-26 | the runs concatenate to the text and are alternately white space and not |
| WordWrap.MaximalRunsUnique | web/render/wrap.go:12-26 | no other cutting has that form |
| WordWrap.Wrap | web/render/wrap.go:28-58 | the nested loops, the line under construction and the final trimming in place compute the specified wrapping |
| WordWrap.WrapFields | web/render/wrap.go:36-55 | the inner loop computes the specified fold over words and gaps |
| Cuts.GreedyStaysAhead | web/render/wrap.go:36-55 | taking as many items as fit never needs more stretches than any other admissible cutting, starting no earlier |
| WrapLaws.FoldIsGreedy | web/render/wrap.go:36-58 | from any point of the loop on, what it adds is the greedy wrapping of the words to come |
| WrapLaws.WrapIsOptimal | web/render/wrap.go:28-58 | a line that does not start with white space keeps its words in order, each output line is a single word or fits, and no other such wrapping has fewer lines |
| WrapLaws.LinesIndependent | web/render/wrap.go:30-58 | a text is wrapped line by line |
| Text.LinesExactly | web/render/wrap.go:30 | splitting a text at line feeds is the only way to cut it into lines without one that, joined by line feeds, give it back |
| WrapLaws.EmptyLine | web/render/wrap.go:30-54 | an empty line disappears unless the empty string is too wide |
| WrapLoss.LineKeptExactly | web/render/wrap.go:36-58 | a line keeps its characters, white space aside, in order if and only if it does not start with white space that is too wide and followed by a word |
| WrapLoss.TextKeptExactly | web/render/wrap.go:28-58 | a list of lines keeps them if and only if each of the lines does |
| WrapLoss.WrapKeepsExactly | web/render/wrap.go:28-58 | what wordWrap makes of a text keeps them if and only if each line of the text does |
| WrapWidth.WordFirstFits | web/render/wrap.go:36-58 | a line that starts with a word comes out in lines that are one word or fit |
| WrapWidth.IndentedWidthExactly | web/render/wrap.go:36-58 | a line that starts with white space does so if and only if each word the loop appends, unmeasured, to a line under construction fits there |
| WrapWidth.NarrowLineFits | web/render/wrap.go:36-58 | a line no wider than the width comes out in lines that are one word or fit, whatever it starts with |
| WrapWidth.NarrowLineWhole | web/render/wrap.go:36-58 | such a line is not broken: it comes out whole, trimmed |
| WrapWidth.UnmeasuredWord | web/render/wrap.go:36-58 | white space, a word, white space and a word come out too wide whenever the words do not fit together but the first white space does, and so does all before the second word |
| WrapWidth.TooWideExample | web/render/wrap.go:36-58 | counting characters, " a bbb" at width 3 comes out too wide |
| WrapIndented.IndentedIsOptimal | web/render/wrap.go:36-58 | a line that starts with white space becomes an empty line for each leading gap that is too wide, with its word; the other pairs of gap and word follow in order, in stretches that fit without their last word, and no other such stretches are fewer |
| DashPath.ReducedInPeriod | web/render/path.go:85-88 | the reduced offset lies in one period and differs from the offset by whole periods |
| DashPath.StartPhase | web/render/path.go:79-97 | the dash and the used length found by the loop are the place of the reduced offset in the pattern |
| DashPath.PhaseCarriesOver | web/render/path.go:72-97 | with the offset left behind by one path, the next starts in the same place if and only if that was the last dash of positive length |
| DashPath.Dash | web/render/path.go:99-127 | the loop ends; it draws the even pieces of a chain without gap along path and pattern, each piece exactly its dash long, the first shortened by the offset, and the unfinished step if it lies in an even dash |
| DashPath.NeverEnds | web/render/path.go:101-124 | with no dash of positive length and a path of some length no number of turns reaches the last vertex |
| DashPath.DashPaths | web/render/path.go:62-130 | no pattern leaves the paths whole and a single dash counts twice; otherwise each path of two or more vertices is drawn from the offset that the last such path before it left behind, the part of its starting dash that was to come, negated, or 0 if there never was an offset; shorter paths draw and change nothing |
| DashPath.DrawingUnique | web/render/path.go:62-130 | paths, pattern and offset decide all that is drawn |
| DashPath.DashOnePath | web/render/path.go:62-127 | for one path: no pattern leaves the path whole, a single dash counts twice, one vertex draws nothing, and everything else starts at the phase of the offset |
| DashPath.PieceAt | web/render/path.go:101-119 | piece k is dash d0 + k round the pattern and lies where the dashes before it add up to |
| DashLines.LinesPassVertices | web/render/path.go:99-119 | the line of a piece begins and ends where the piece does and passes exactly the vertices past its start up to its end, in order |
| DashLines.RestPassesVertices | web/render/path.go:117-127 | the unfinished step passes all vertices that are left |
| DashPath.InkAndBlank | web/render/path.go:62-130 | drawn lengths plus the lengths of odd dashes and of an odd unfinished step are the length of the path |
| DashPath.StepsFinished | web/render/path.go:101-124 | as many dashes are finished as fit strictly before the end, no fewer and no more |
| DashPath.ChainUnique | web/render/path.go:99-127 | path, pattern and phase admit only one such chain to the end of the path, so they decide what is drawn |
| HeaderMerge.FirstsAreKeys | web/cmdoutput.go:32-55 | the keys in order of first occurrence are distinct and are all keys of the list |
| HeaderMerge.FirstsInOrder | web/cmdoutput.go:32-55 | of two keys the one that occurs first in the list stands first |
| HeaderMerge.MergedExactly | web/cmdoutput.go:32-55 | merging gives the keys in order of first occurrence, each with its last header, spelling included |
| HeaderMerge.LastsAreKept | web/cmdoutput.go:43-52 | kept are exactly the headers after which no name comes that folds alike, and no two of them have names that fold alike |
| HeaderMerge.NamesOnce | web/cmdoutput.go:32-55 | each name that is not blank is in the result, trimmed and up to its fold, and no fold twice |
| HeaderMerge.Idempotent | web/cmdoutput.go:32-55 | merging a merged list changes nothing |
| HeaderMerge.MergeFirstPart | web/cmdoutput.go:32-55 | merging the first part of a list beforehand changes nothing |
| HeaderMerge.MergeSecondPart | web/cmdoutput.go:32-55 | merging the second part beforehand changes nothing |
| HeaderMerge.StagesAgree | web/cmdoutput.go:32-55 | merging in stages equals merging all lists at once, trimming and blank names included |
| HeaderMerge.Merge | web/cmdoutput.go:32-55 | the nested loops with overwriting in place compute the first-occurrence order and last headers of the trimmed, nonblank headers |
| BufferPool.SizeClassFits | common/pool/alloc.go:38-49 | every size from 1 to 65536 gets one of the 17 classes, the smallest that holds it, with capacity below twice the size |
| BufferPool.AcceptedExactly | common/pool/alloc.go:53-62 | Put accepts exactly the capacities of the 17 classes |
| BufferPool.PutAfterGet | common/pool/alloc.go:38-62 | what Get hands out Put takes back, into the same class |
| BufferPool.ExclusiveRuns | common/pool/alloc.go:38-62 | over every run in which each client returns only what it owns, no buffer has two owners or is pooled while owned |
| BufferPool.TwoOwnersExactly | common/pool/alloc.go:53-62 | after a return by a client that does not own the buffer it can get two owners if and only if it was already pooled or another client owns it |
| BufferPool.Allocator.Get | common/pool/alloc.go:38-49 | nil exactly outside 1 to 65536; otherwise a pooled or new buffer of its class, moved from the pool to the client |
| BufferPool.Allocator.Put | common/pool/alloc.go:53-62 | fails exactly for capacities that are no class, and otherwise adds the buffer to the pool and takes it from the client that puts it back, from nobody else; every pool keeps its capacity |
| ByteRanges.CalcRange | download/range.go:21-35 | one range per part, each at its place |
| ByteRanges.TilesExactly | download/range.go:11-35 | the printed ranges follow each other from the first byte to the last if and only if the file has a byte per part; then only the last is open-ended |
| ByteRanges.PartsEven | download/range.go:21-35 | each part but the last has the whole quotient of bytes, the last that and fewer bytes more than there are parts |
| ByteRanges.EachByteOnce | download/range.go:11-35 | headers that tile fetch each byte exactly once |
| Upload.UploadBody.Read | download/download.go:398-413 | fills the buffer with zeros up to what remains, counts them, and ends exactly when cancelled or nothing remains |
| Upload.CopyZeros | download/download.go:408-410 | copying the zero block over and over fills the first n bytes and no others |
| Upload.DeliveredIsZeros | download/download.go:398-413 | for any sequence of buffer sizes the body is the chunk's zeros as far as the buffers reach, and sent plus remaining is the chunk |
| Upload.DigestCache.Digest | download/download.go:371-387 | the digest, cached or not, is the hash of that many zeros, and the cache stays right |
| Upload.BodyMatchesDigest | download/download.go:371-413 | a body is complete exactly when the buffers reach the chunk, and is then the string that was hashed |
| Numbers.FormatInt | internal/tester/download.go:187-200 | the loop builds the decimal digits, with a sign for negative numbers |
| Numbers.DecimalForm | internal/tester/download.go:187-200 | the text is digits, with a sign in front exactly for a negative number and no leading zero |
| Numbers.ParseInt | internal/result/result.go:155-163 | the loop accumulates the digits in int64 arithmetic and passes over other characters |
| Numbers.ParsedExactly | internal/result/result.go:155-163 | what is read from any text is the number its digits stand for, wrapped once to an int64 |
| Numbers.ParseFormat | internal/result/result.go:155-163 | reading back a formatted number gives its absolute value, hence the number exactly if it is not negative |
| Numbers.ChooseUnit | download/download.go:171-183 | div is 1024 to the exp + 1, div <= b < 1024 div, no overflow, and the unit index is valid |
| Numbers.UnitIsUnique | internal/tester/download.go:160-185 | no other power of 1024 puts the count between 1 and 1024 |

## Left out

- Sockets, HTTP, dialing, DNS exchange, websockets, gRPC, file writes, logging: arbitrary events or absent.
- Link parsers, Clash YAML, JSON building, reflection, PNG and font rendering, React components.
- Retest mode (TestIDs) and several runs on one websocket: indices and slots are not bounded there.
- `CloneTo` of the cache: it shares entries and ignores the target's capacity.
- The mutex of the cache: operations are atomic here. That Set reads its clock before it locks is in ExpiryLaws.ConcurrentSweepExactly.
- `container/list` is a sequence of element objects: its link pointers are not modelled.
- int64 overflow of the cache's clock plus age.
- The text of progress lines, and the other fields of result rows and of the browser's store.
- The public address lookup of `run` is one kind of message that may come at any time after started, and more than once.
- Sampling.PhaseConserves: says nothing about the average speed, which is computed from wall-clock time; a phase that is cancelled is covered by Sampling.BytesAccounted and SamplingLaws.SamplesAreSeconds.
- Which bytes an upload adds to its counter: only completed requests are counted there, and an addition of any size is an event of the model.
- `RewindReader.Discard`, `ReadByte` and `BufferdConn`; the panics of `Rewind` and `SetBufferSize` are preconditions.
- SocksAddr.DecodeEncode: host and port as bytes and a number, not the text that String joins, because the text of IP addresses is the net package's.
- SocksAddr.EncodeDecode: the same.
- Addr.UDPAddr and ParseAddrToSocksAddr of the SOCKS code; net.SplitHostPort, net.ParseIP and the text forms of IP addresses are parameters or absent.
- DashPath.DashPaths: points as distances along the path, lengths as reals without rounding, no negative dashes, and an offset only over a pattern of positive length.
- DashPath.DashOnePath: the same for a list of one path.
- WordWrap.Wrap: widths are reals and characters single code points.
- sync.Pool dropping buffers: a dropped buffer is one that is never chosen again. The use of a buffer after Put in download_range.go.
- ByteRanges: the download loop that uses the ranges.
- Numbers.FormatInt: not the least int64, whose negation overflows and for which the source does not return; formatFloat and the printed fractions.
- TestAll and the scheduler of internal/tester: weaker duplicates of `run`.
