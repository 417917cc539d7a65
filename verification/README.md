# Orion, modelled and verified

Orion is a service-mesh proxy written in Rust. This project models the parts of it whose correctness is hard to see
from the code, and proves what those parts promise, for every input and over every run. `dafny verify dfyconfig.toml`
checks everything.

Each module follows one component:

- **Access-log formats** (`Grammar`, `GrammarLaws`, `GrammarErrors`, `EnvoyArguments`, `LogFormatter`). A format string
  is scanned into templates and compiled into one bucket of positions per operator category; contexts then fill the
  slots of their buckets. The scanner is proved against a two-phase meaning (a unique reading as tokens, then the
  grouping of literals). On top of it: the round trip, the tiling of the text, the exact set of template lists that can
  come out, which texts are rejected and with which error, and that filling by buckets is the plain pass in which the
  last covering context wins.
- **Concurrent protocols** as state machines whose steps interleave freely: the cached watch (`CachedWatch`), graceful
  shutdown (`GracefulShutdown`, `GracefulRuns`) and the body channel (`ChannelBody`). Their theorems are about all runs
  from the initial state: what every step keeps, what the list of steps alone decides, and that nothing gets stuck.
  The exactly-once completion report of a body (`BodyWithMetrics`) and the batching access logger (`AccessLogger`) are
  classes whose methods are proved against functions, with the laws over whole lives stated about those functions.
- **Load balancing**. The smooth weighted round robin in saturating 32-bit arithmetic: the balancer
  (`WeightedRoundRobin`), its fairness and when exactly it holds (`RoundRobinFairness`), how large its numbers become
  and which weights are therefore safe (`RoundRobinRoom`), and which items it never picks (`RoundRobinStarvation`).
  The Maglev table: the primality test that guards its size and why a prime table is always filled (`Primes`), and the
  share of the table that each endpoint gets (`Maglev`).
- **Filter-chain selection** (`MatchSpecificity`, `FilterChainSelection`, `FilterChainPreference`, `FilterChainTies`): how
  specific a server name or an address range matches, that eliminating chains criterion by criterion, in place, selects
  the chain that no other is preferred to, what makes a chain preferred in terms of its rules, and which chains can tie.
- **Core affinity** (`CoreAffinity`): grouping cores by NUMA node and handing out chunks of cores to runtimes.
- **Trace headers** (`Trace`, `TraceReading`, `TraceWriting`): printing, parsing and propagation over a chain of hops,
  and which headers are read and written, field by field and digit by digit.
- **Counters and configuration** (`ShardedCounter`, `ClusterConfig`).

`Wrappers`, `Arithmetic`, `Ascii` and `Iteration` (counting, and runs of a step function) hold what the modules share.

## Where the code and its own words differ

The model follows the code.

- Format strings: only the last literal has `%%` turned into `%`. A literal in front of a placeholder keeps `%%` as it
  stands. `GrammarLaws.Tiling` says exactly which literals come out unescaped.
- Format strings: the argument of a request or response operator is taken for a pseudo-header as soon as it starts with
  one. What follows is dropped (`EnvoyArguments.PseudoHeaderByPrefix`).
- Filter chains: the error for several matching chains calls itself a bug of the proxy. It is reachable from accepted
  configurations, for instance because application protocols tell match statements apart but are not matched on
  (`FilterChainTies.AmbiguousConfiguration`). `FilterChainSelection.WinnerIff` and `SelectFilterChain` say exactly when
  it is raised, `FilterChainTies.Unambiguous` gives a test on the configuration that rules it out, and
  `FilterChainTies.AmbiguousPairIff` proves that the test is exact for two chains.
- Weighted round robin: the weights are accepted while their sum fits in an unsigned 32-bit number, but the arithmetic
  is signed and saturating. Up to a total of 2^31 - 1 a lost addition is never made up for:
  `RoundRobinFairness.FairIff` proves that a period is fair exactly when none of its additions saturates, and
  `RoundRobinRoom` that none ever does if every weight and the total times 1/2 + ... + 1/n fit in 31 bits together.
  For any total, `RoundRobinStarvation.StarvationIff` says exactly which lists are stuck on their first item,
  `BehindGiant` that nothing behind a weight of 2^31 - 1 or more is ever picked, and `StarvedList` gives an accepted
  list in which no weight reaches 2^31 - 1 and the last item is never picked.
- Cluster weights: the error text says that the sum must be less than 4294967295; a sum equal to it is accepted.

## Model

| member | source | states |
|---|---|---|
| Grammar.LongestPrefixIsExactLookup | orion-format/src/grammar.rs:329-344 | longest-prefix search followed by the length check accepts exactly when the word before the first space, percent sign or bracket is an operator name, and then finds that name |
| Grammar.ExtractOperatorArg | orion-format/src/grammar.rs:297-309 | an extracted argument is non-empty, has no closing bracket, and with its brackets is the start of the input, of the returned length |
| Grammar.ExtractBracketed | orion-format/src/grammar.rs:297-309 | every bracketed non-empty argument is extracted whatever follows it |
| Grammar.LexIff | orion-format/src/grammar.rs:319-406 | the scan reads a text as a list of tokens exactly when the tokens are well formed and their source texts join to the text, so the reading is unique and errors are exact |
| Grammar.Parse | orion-format/src/grammar.rs:314-459 | the one-pass scanner with its index, pending literal and parts computes the grouping of that unique reading, or the first error; `GrammarLaws` and `GrammarErrors` say what that grouping and that error are |
| GrammarLaws.DoubleThenUnescape | orion-format/src/grammar.rs:444 | doubling percent signs is undone by the replacement of `%%` by `%` |
| GrammarLaws.UnescapeThenDouble | orion-format/src/grammar.rs:444 | on text whose percent signs come in pairs the replacement loses nothing, and changes nothing exactly when there is no percent sign |
| GrammarLaws.RoundTrip | orion-format/src/grammar.rs:314-459 | printing any template list in normal form, with any spelling of its placeholders, and parsing the text gives the list back |
| GrammarLaws.Tiling | orion-format/src/grammar.rs:319-458 | the source pieces of an accepted text's templates join to the text without gap or overlap, earlier literals are verbatim, doubling restores the last one; a literal is unescaped exactly when it is last or has no percent sign |
| GrammarLaws.ParserImage | orion-format/src/grammar.rs:314-459 | a template list comes out of the parser for some text exactly when it is in normal form and its placeholders can be written |
| GrammarLaws.PlainPlaceholder | orion-format/src/grammar.rs:346-395 | an operator without an argument, between percent signs, is the placeholder with the operator and the category of its own table entry |
| GrammarLaws.ArgumentPlaceholder | orion-format/src/grammar.rs:346-395 | an operator with a bracketed argument is the placeholder of the operator that the argument selects, in the category of its entry |
| GrammarLaws.PlainText | orion-format/src/grammar.rs:432-458 | text without placeholders is one literal, or one character, with doubled percent signs halved; the empty text has no templates |
| GrammarErrors.ErrorIff | orion-format/src/grammar.rs:297-406 | a text is rejected with an error exactly when, behind well-formed tokens, a percent sign starts a field with that fault: an unknown name, a missing, unclosed or refused argument, or no closing percent sign |
| EnvoyArguments.PseudoHeaderByPrefix | orion-format/src/grammar.rs:277-285 | which request arguments select each pseudo-header: exactly those that start with its key |
| EnvoyArguments.HeaderArgument | orion-format/src/grammar.rs:277-295 | a lower-case token of at most 65535 characters is its own header argument, so every such header operator can be written |
| EnvoyArguments.HeaderNameIff | orion-format/src/grammar.rs:277-295 | an argument names a header exactly when it is a token of at most 65535 characters, and the name is that token in lower case |
| EnvoyArguments.RequestArgument | orion-format/src/grammar.rs:277-285 | a request argument that selects no pseudo-header names a header in lower case, and is refused exactly when it names none |
| EnvoyArguments.ResponseArgument | orion-format/src/grammar.rs:287-295 | a response argument selects the status exactly when it starts with `:STATUS`, else names a header in lower case, and is refused exactly when it names none |
| EnvoyArguments.CapitalNames | orion-format/src/grammar.rs:52-268 | a table of operator names in capitals, digits and underscores, with arguments exactly on the request- and response-header operators, has the shape that the grammar asks for |
| EnvoyArguments.ArgumentOfEntry | orion-format/src/grammar.rs:346-395 | the argument of a request entry is read as a request argument, and that of any other entry as a response argument |
| LogFormatter.BucketExact | orion-format/src/lib.rs:122-129 | a category's bucket is increasing, in bounds, and holds exactly the placeholders of that category |
| LogFormatter.InExactlyOneBucket | orion-format/src/lib.rs:122-129 | every placeholder position is in one bucket and in no other; literals are in none |
| LogFormatter.FillBuckets | orion-format/src/lib.rs:122-129 | the loop fills the buckets, and fails with the index error exactly when a placeholder stands beyond position 255 |
| LogFormatter.TryNew | orion-format/src/lib.rs:120-146 | compilation succeeds exactly when the text parses and no placeholder stands beyond position 255; the result has those templates, their buckets, the text or character of every literal in its slot and nothing in the slot of a placeholder |
| LogFormatter.LogFormatterLocal.constructor | orion-format/src/lib.rs:148-153 | a local copy starts with the compiled slots in its own array |
| LogFormatter.LogFormatterLocal.FillBucket | orion-format/src/lib.rs:168-175 | the unchecked indexing of one bucket stays in bounds and overwrites exactly the slots of its category |
| LogFormatter.LogFormatterLocal.WithContext | orion-format/src/lib.rs:167-178 | filling by buckets equals one plain pass over all slots |
| LogFormatter.LastContextWins | orion-format/src/lib.rs:167-178 | after any series of contexts a placeholder has the value of the last context covering its category, and all else is unchanged |
| CachedWatch.StepKeepsInv | orion-lib/src/clusters/cached_watch.rs:40-82 | every step of an update, a subscription or a refresh keeps the invariant: lock exclusion, one committed value per version, and clean watchers hold a committed pair |
| CachedWatch.RefreshIsCommitted | orion-lib/src/clusters/cached_watch.rs:76-79 | under every interleaving a refresh stores a value and the version that value was committed with |
| CachedWatch.RunGrows | orion-lib/src/clusters/cached_watch.rs:40-82 | over every run committed values stay committed and no watcher's version decreases |
| CachedWatch.HistoryIsWritten | orion-lib/src/clusters/cached_watch.rs:40-45 | in every run the value and the committed values are those that the list of steps says: version n + 1 has what was last written when it was committed |
| CachedWatch.UpdateCommits | orion-lib/src/clusters/cached_watch.rs:40-45 | every update commits what its closure wrote last, or the value before it if it wrote nothing |
| CachedWatch.UpdateAlone | orion-lib/src/clusters/cached_watch.rs:40-45 | with the lock free an update can be made, and leaves its value, one version more, and the lock free |
| CachedWatch.Freshness | orion-lib/src/clusters/cached_watch.rs:67-82 | a finished call holds a version as late as the number of updates at its start exactly when its try-read did not fail, and then returns the value that the steps of the run committed with its version |
| CachedWatch.RefreshAlone | orion-lib/src/clusters/cached_watch.rs:67-82 | a call that finds another version and no update under way can refresh, and then holds the value and the version of now |
| CachedWatch.MissAlone | orion-lib/src/clusters/cached_watch.rs:67-82 | a call that does not get the lock can go on without waiting, and leaves the old copy and everything else as it was |
| CachedWatch.ScribbleStays | orion-lib/src/clusters/cached_watch.rs:67-82 | what the caller wrote through the reference is there at the next call as long as the version is the same |
| CachedWatch.SubscribeAlone | orion-lib/src/clusters/cached_watch.rs:47-57 | a new watcher has the value and the version of now |
| GracefulShutdown.GracefulConnectionFuture.constructor | hyper-util-fork/src/server/graceful.rs:120-124 | a watched connection starts without the guard and with no calls made |
| GracefulShutdown.GracefulConnectionFuture.Poll | hyper-util-fork/src/server/graceful.rs:139-148 | polling makes the calls of a series of polls: cancel until ready, then shut down once, and the connection last every time; a finished cancel future is not polled |
| GracefulShutdown.ShutDownOnce | hyper-util-fork/src/server/graceful.rs:139-148 | over any series of polls a connection is told to shut down once if the cancel channel was ever ready, else never |
| GracefulShutdown.EveryPollPolls | hyper-util-fork/src/server/graceful.rs:139-148 | every poll polls the connection exactly once, and as its last call |
| GracefulShutdown.StepKeepsInv | hyper-util-fork/src/server/graceful.rs:54-70 | every subscribe, watch, poll, drop, signal and finish step keeps the invariant of channel, guards and answers |
| GracefulShutdown.Safety | hyper-util-fork/src/server/graceful.rs:139-148 | in every reachable state no connection was told more than once, none while the sender is live and silent, a finished cancel future was not polled again, and the guard is there exactly when the cancel future is done |
| GracefulShutdown.PollAfterSignal | hyper-util-fork/src/server/graceful.rs:139-148 | the first poll after the signal, or after the sender is gone, tells the connection to shut down before polling it; later polls only poll it |
| GracefulShutdown.PollBeforeSignal | hyper-util-fork/src/server/graceful.rs:139-148 | while the sender is live a poll asks the cancel future and then polls the connection |
| GracefulShutdown.PolledIsTold | hyper-util-fork/src/server/graceful.rs:92-99 | from the signal on, every connection that is polled at all has been told exactly once |
| GracefulShutdown.FinishedMeansDropped | hyper-util-fork/src/server/graceful.rs:63-70 | when `shutdown` has finished, every watcher and watched connection ever made was dropped |
| GracefulShutdown.FinishIff | hyper-util-fork/src/server/graceful.rs:63-70 | while `shutdown` waits it can finish exactly when no watcher and no watched connection is left |
| GracefulShutdown.DroppingFinishes | hyper-util-fork/src/server/graceful.rs:63-70 | however many watchers and connections there are, dropping them lets `shutdown` finish |
| GracefulRuns.ToldIff | hyper-util-fork/src/server/graceful.rs:54-148 | in every run a connection has been told to shut down, once, exactly when it was polled after `shutdown` was called or the sender was dropped |
| GracefulRuns.SenderIs | hyper-util-fork/src/server/graceful.rs:63-70 | whether `shutdown` is still to come, waits, has finished or was dropped, from the list of what happened |
| GracefulRuns.WatchersAre | hyper-util-fork/src/server/graceful.rs:54-57 | a watcher is there from when it is made until it is dropped, and has a connection from when it watches one |
| GracefulRuns.CanWatch | hyper-util-fork/src/server/graceful.rs:42-57 | until shutting down begins a new connection can be watched and is polled without being told |
| GracefulRuns.CanServe | hyper-util-fork/src/server/graceful.rs:92-99 | a watched connection can be polled and dropped at any time, whatever the sender does |
| GracefulRuns.SenderCan | hyper-util-fork/src/server/graceful.rs:63-70 | `shutdown` can be called while the sender is live, and can be dropped until it has finished |
| ChannelBody.PeekChangesNothing | orion-lib/src/body/channel_body.rs:60-62 | waiting for a frame holds the first one aside and leaves the items still to be handed out, and their order, as they are |
| ChannelBody.TakesFirst | orion-lib/src/body/channel_body.rs:75-80 | polling hands out the first waiting item, peeked or not, and reports the end only with none waiting and the sender gone |
| ChannelBody.StepKeepsChannel | orion-lib/src/body/channel_body.rs:40-84 | every step of either side keeps: sent items are the handed-out ones followed by the waiting ones, and at most 32 are queued |
| ChannelBody.DeliveredInOrder | orion-lib/src/body/channel_body.rs:40-84 | in every run what is handed out is a prefix of what was sent, at most 33 items behind, and all of it at the reported end |
| ChannelBody.PeeksDoNotMatter | orion-lib/src/body/channel_body.rs:60-80 | a run without its waits is possible exactly when no item is sent while 32 are waiting, a peeked one included, and then hands out the same items and reports the same end |
| ChannelBody.StepKeepsOp | orion-lib/src/body/channel_body.rs:133-242 | every step keeps the books of the operation under way: sent, in hand and remaining items make up what it began with |
| ChannelBody.CompletedCall | orion-lib/src/body/channel_body.rs:138-172 | in every run `complete` that ends has sent the whole rest of the body in order, `complete_data` exactly the data frames before the first other item, which it returns unsent, and `observe_and_inject` the next item, which it returns; each of them stops short only if the sender or the receiver is gone, and what it has not sent is still in the body but for one item |
| ChannelBody.InjectedCall | orion-lib/src/body/channel_body.rs:202-210 | `inject_frame` that ends has sent exactly its frame, or reports an error because the sender or the receiver is gone; the body is not touched |
| ChannelBody.CanFinish | orion-lib/src/body/channel_body.rs:138-242 | an operation is never stuck: from any point of any operation there are steps of it and of a reader that bring it to its end |
| ChannelBody.GivenUp | orion-lib/src/body/channel_body.rs:138-242 | an operation can be given up at any of its steps; what it has sent stays sent and the item in its hand is lost |
| ChannelBody.TakenUnsent | orion-lib/src/body/channel_body.rs:194-196 | `next_frame` takes the next item of the body and sends nothing |
| ChannelBody.AfterClose | orion-lib/src/body/channel_body.rs:133-136 | once the bridge is closed nothing more is sent in any run |
| ChannelBody.CloseIsSeen | orion-lib/src/body/channel_body.rs:133-136 | after `close` a reader gets everything that was sent and then the end |
| ChannelBody.EndIsReported | orion-lib/src/body/channel_body.rs:75-80 | a reader who has everything that was sent is told the end exactly when the bridge is closed |
| ChannelBody.AfterDrop | orion-lib/src/body/channel_body.rs:138-172 | once the channel body is dropped nothing more is sent or handed out in any run |
| ChannelBody.InjectAlone | orion-lib/src/body/channel_body.rs:202-210 | with sender and receiver in place and room in the channel a frame can be injected, and is queued last |
| ChannelBody.WholeBodyGoesThrough | orion-lib/src/body/channel_body.rs:138-148 | `complete` can pass on a body of any length to a reader that takes every item, and the reader gets all of it |
| ChannelBody.WaitAnyTime | orion-lib/src/body/channel_body.rs:60-62 | a wait is possible at any time and has no effect that the bridge could see |
| BodyWithMetrics.MetricsState.constructor | orion-lib/src/body/body_with_metrics.rs:93-97 | the shared state starts at zero bytes with the callback armed |
| BodyWithMetrics.MetricsState.TriggerOnComplete | orion-lib/src/body/body_with_metrics.rs:63-69 | the callback is taken out and run with the bytes counted so far, if it is still there |
| BodyWithMetrics.BodyWithMetrics.constructor | orion-lib/src/body/body_with_metrics.rs:89-100 | a new body has its own state |
| BodyWithMetrics.BodyWithMetrics.MapInto | orion-lib/src/body/body_with_metrics.rs:102-107 | changing the type of the inner body moves the state and reports nothing |
| BodyWithMetrics.BodyWithMetrics.ForAttempt | orion-lib/src/transport/http_channel.rs:690-692 | the body of another attempt shares the state of the request's body and reports nothing |
| BodyWithMetrics.BodyWithMetrics.PollFrame | orion-lib/src/body/body_with_metrics.rs:119-143 | the inner answer is passed on; data is counted, the end and errors trigger |
| BodyWithMetrics.BodyWithMetrics.Drop | orion-lib/src/body/body_with_metrics.rs:57-61 | dropping the body triggers |
| BodyWithMetrics.NothingReported | orion-lib/src/body/body_with_metrics.rs:119-143 | before any body that shares the state ends, fails or is dropped nothing is reported, and the counter holds the data bytes of all of them |
| BodyWithMetrics.ExactlyOnce | orion-lib/src/body/body_with_metrics.rs:57-143 | over every interleaving of polls and drops of the bodies that share a state the callback runs exactly once, at the first end, error or drop of any of them, with the data bytes returned until then and with that error |
| AccessLogger.AccessLogger.UpdateRequired | orion-lib/src/access_log/logger.rs:54-60 | writers are rebuilt exactly when the target has none or their configurations differ in number or anywhere |
| AccessLogger.AccessLogger.HandleOne | orion-lib/src/access_log/logger.rs:51-86 | one item has the effect of the one-at-a-time handling |
| AccessLogger.AccessLogger.WriteLines | orion-lib/src/access_log/logger.rs:73-80 | writers and lines are paired in order, writers that cannot be opened are skipped, and a write that fails does not keep the others from theirs |
| AccessLogger.AccessLogger.HandleBatch | orion-lib/src/access_log/logger.rs:51-86 | draining the buffer handles its items in order |
| AccessLogger.AccessLogger.Run | orion-lib/src/access_log/logger.rs:42-88 | however the items are cut into batches of at most 64, the final state is that of handling them one at a time |
| AccessLogger.EveryItemInPlace | orion-lib/src/access_log/logger.rs:42-52 | every item of every batch is handled in its place in the order of arrival, and nothing else is |
| AccessLogger.LineByLine | orion-lib/src/access_log/logger.rs:72-80 | a message gives writer i line i and nothing else |
| AccessLogger.EveryWriterGetsItsLines | orion-lib/src/access_log/logger.rs:42-88 | after any items a target has writers exactly if it was configured, they match its last configuration, and writer i was given exactly lines i of the messages since that configuration came into force |
| AccessLogger.SameConfigurationKeepsWriters | orion-lib/src/access_log/logger.rs:53-71 | a configuration equal to the one in force keeps the very same writers |
| CoreAffinity.SuccessIff | orion-proxy/src/core_affinity.rs:174-224 | with configured nodes, or else with the available ones, a runtime gets cores exactly when there is a node, every listed core is available and (id / n + 1) * wanted is at most the length of node id mod n; then it gets that stretch of that node, and otherwise the error of the first of these that fails |
| CoreAffinity.RuntimesAreDisjoint | orion-proxy/src/core_affinity.rs:202-216 | if no core is listed twice, different runtimes that succeed share no core |
| CoreAffinity.DistinctCores | orion-proxy/src/core_affinity.rs:208-219 | a runtime's cores are `wanted` different ones |
| CoreAffinity.AllSucceedIff | orion-proxy/src/core_affinity.rs:174-224 | runtimes 0 to count - 1 all succeed exactly when every node is long enough for the last chunk taken from it |
| CoreAffinity.UsedSize | orion-proxy/src/core_affinity.rs:174-224 | runtimes that all succeed use `wanted` times their number of different cores |
| CoreAffinity.ThreadsPerRuntime | orion-proxy/src/proxy.rs:70-93 | a thread count is returned exactly when the CPUs are available, not zero and a multiple of the runtimes, and then divides them exactly; else the error says which of these fails first |
| CoreAffinity.ExactlyAllCpus | orion-proxy/src/proxy.rs:70-93 | when all runtimes get their cores, together they use exactly the configured number of CPUs |
| CoreAffinity.IntoValues | orion-proxy/src/core_affinity.rs:132 | the groups come out in increasing order of their nodes, none missing |
| CoreAffinity.GroupByNuma | orion-proxy/src/core_affinity.rs:98-133 | grouping fails exactly on an empty mapping or an unmapped core, with the error of each; else group i is the non-empty list of node i's cores in input order |
| CoreAffinity.PhysicalId | orion-proxy/src/core_affinity.rs:98-121 | the node of a processor is the physical id that stands beside its last line |
| CoreAffinity.OfNodeInOrder | orion-proxy/src/core_affinity.rs:123-132 | the cores of a node keep the order of the input |
| CoreAffinity.GroupsPartition | orion-proxy/src/core_affinity.rs:123-132 | distinct cores end up in exactly one group each, and no other core does |
| CoreAffinity.AutomaticAffinity | orion-proxy/src/core_affinity.rs:139-145 | with automatic affinity, runtimes that all succeed use exactly the configured number of CPUs, all of them cores of the process |
| Trace.HexRoundTrip | orion-tracing/src/trace_info.rs:97-133 | a number printed in padded hexadecimal is read back by radix parsing |
| Trace.SplitJoin | orion-tracing/src/trace_info.rs:194-216 | splitting at the separator undoes joining fields without it |
| Trace.UberReadsBack | orion-tracing/src/trace_info.rs:126-134 | the Uber form reads back with missing ids turned into zero |
| Trace.B3ReadsBack | orion-tracing/src/trace_info.rs:105-125 | the B3 form reads back, with or without a parent, with a missing span id turned into zero |
| Trace.PlainIsFaithful | orion-tracing/src/trace_info.rs:178-190 | what is asked of the foreign traceparent parser, ids in range and the printed form read back, can be met |
| Trace.ExtractedIsValid | orion-tracing/src/trace_info.rs:178-292 | an extracted context has ids in range and a span id, and no header of a format read earlier was there |
| TraceReading.DigitIff | orion-tracing/src/trace_info.rs:97-133 | the sixteen hexadecimal digits of either case, and the lower-case one that is printed |
| TraceReading.NumberIff | orion-tracing/src/trace_info.rs:194-292 | an id is read from at least one digit, behind a plus sign or not, and only if it is in range |
| TraceReading.EitherCase | orion-tracing/src/trace_info.rs:194-292 | the case of the digits does not matter |
| TraceReading.UberIff | orion-tracing/src/trace_info.rs:192-210 | the Uber header is read exactly when it has four fields, and they are trace id, span id, parent id and flag |
| TraceReading.B3Iff | orion-tracing/src/trace_info.rs:212-236 | the B3 header is read exactly when it has three fields or more; trace id, span id and flag, and with four fields the parent id |
| TraceReading.MultiIff | orion-tracing/src/trace_info.rs:238-288 | the four B3 headers: the parent may be missing, and a flag that is missing or unreadable means not sampled |
| TraceReading.FirstFormatDecides | orion-tracing/src/trace_info.rs:178-292 | the first format whose header is there decides alone; one of the two B3 ids without the other is an error, and no header at all is no context |
| Trace.RoundTrip | orion-tracing/src/trace_info.rs:178-324 | written headers are read back as the same context exactly when nothing is read before them, every id the format insists on is there, no parent is lost in the traceparent format, and no stale parent header is left |
| Trace.Propagation | orion-tracing/src/trace_info.rs:168-324 | over any number of hops trace id, sampled flag and provider stay, the span id is the last hop's, and every parent id, in the formats that have one, is the span id of the hop before |
| Trace.DisplayFits | orion-tracing/src/trace_info.rs:93-138 | the text form takes at most 68 visible characters |
| TraceWriting.PaddedIs | orion-tracing/src/trace_info.rs:93-138 | an id is printed as the only text of its width in lower-case digits that has its value |
| TraceWriting.TraceparentText | orion-tracing/src/trace_info.rs:95-104 | the text of the traceparent format: version 00, trace id, span id, and 01 or 00 |
| TraceWriting.UberText | orion-tracing/src/trace_info.rs:126-134 | the text of the Uber format: trace id, span id, parent id or zero, and 1 or 0 |
| TraceWriting.B3Text | orion-tracing/src/trace_info.rs:105-125 | the text of the B3 format: trace id, span id, 1 or 0, and the parent id if there is one |
| TraceWriting.MultiHeaders | orion-tracing/src/trace_info.rs:306-324 | a context of four headers writes its flag, its trace id and the ids that it has, each in its own header |
| TraceWriting.SingleHeader | orion-tracing/src/trace_info.rs:296-304 | in the other formats the one header gets the whole text |
| TraceWriting.OtherHeaders | orion-tracing/src/trace_info.rs:294-324 | every header that is not of the format stays as it is |
| Trace.NotTruncated | orion-tracing/src/trace_info.rs:27-36 | pieces that fit the buffer together are all written |
| Trace.HeaderMap.Insert | orion-tracing/src/trace_info.rs:27-36 | what the buffer holds is inserted if it is a valid header value |
| Trace.HeaderMap.UpdateHeaders | orion-tracing/src/trace_info.rs:294-324 | writing a context never fails, inserts exactly the headers of its format with their whole text, and changes no other header |
| WeightedRoundRobin.CollectChecked | orion-lib/src/clusters/balancers/wrr.rs:60-75 | the longest prefix of the items whose weights sum to at most 2^32 - 1 is kept |
| WeightedRoundRobin.BestItem | orion-lib/src/clusters/balancers/wrr.rs:98-101 | the reduction finds the first item of largest current weight |
| WeightedRoundRobin.WeightedRoundRobinBalancer.constructor | orion-lib/src/clusters/balancers/wrr.rs:55-57 | a balancer holds the checked prefix |
| WeightedRoundRobin.WeightedRoundRobinBalancer.NextItem | orion-lib/src/clusters/balancers/wrr.rs:84-108 | a call picks the first largest raised item and takes the saturated total off it; empty and single lists are left alone |
| RoundRobinFairness.BalancedStep | orion-lib/src/clusters/balancers/wrr.rs:84-108 | a call that saturates nothing keeps the current weights above minus the total and their sum at zero |
| RoundRobinFairness.RunLedger | orion-lib/src/clusters/balancers/wrr.rs:84-108 | in a run that saturates nothing an item's current weight is its weight per call less the total per pick |
| RoundRobinFairness.FairWheneverPossible | orion-lib/src/clusters/balancers/wrr.rs:84-108 | whenever the calls of a run that saturates nothing can be divided exactly in proportion to the weights, they are, and the balancer is back at its start |
| RoundRobinFairness.FairPeriodsRepeat | orion-lib/src/clusters/balancers/wrr.rs:84-108 | a list that is fair over one period is fair over every number of periods |
| RoundRobinFairness.NegativeAfterLoss | orion-lib/src/clusters/balancers/wrr.rs:84-108 | with a total of at most 2^31 - 1, the current weights sum to less than zero from the first saturated addition on |
| RoundRobinFairness.FairIff | orion-lib/src/clusters/balancers/wrr.rs:84-108 | with a total of at most 2^31 - 1, a period is fair (it picks every item as often as its weight says and ends at its start) exactly when it ends at its start, and exactly when the list has at most one item, no weight, or no addition of the period saturates |
| RoundRobinRoom.LevelStep | orion-lib/src/clusters/balancers/wrr.rs:84-108 | a call keeps the sum of every k current weights within any limit that carries over from k + 1 of them to the k that are not picked |
| RoundRobinRoom.EnoughRoom | orion-lib/src/clusters/balancers/wrr.rs:84-108 | a list has room if its total times 1 + 1/2 + ... + 1/n fits in 31 bits |
| RoundRobinRoom.RoomyNeverSaturates | orion-lib/src/clusters/balancers/wrr.rs:84-108 | if every weight and the total times 1/2 + ... + 1/n fit in 31 bits together, no run ever saturates an addition |
| RoundRobinRoom.CurrentAtMost | orion-lib/src/clusters/balancers/wrr.rs:84-108 | then every current weight stays above minus the total and at most the total times 1/2 + ... + 1/n |
| RoundRobinRoom.ShareAtEveryMoment | orion-lib/src/clusters/balancers/wrr.rs:84-108 | then at every moment an item has been picked less than once more than its share of the calls, and at most 1/2 + ... + 1/n times less |
| RoundRobinRoom.FairForever | orion-lib/src/clusters/balancers/wrr.rs:84-108 | then every multiple of the total weight in calls picks every item exactly in proportion to its weight |
| RoundRobinStarvation.BehindGiant | orion-lib/src/clusters/balancers/wrr.rs:40-46 | no item behind one of weight 2^31 - 1 or more is ever picked |
| RoundRobinStarvation.FirstIsLeft | orion-lib/src/clusters/balancers/wrr.rs:84-108 | if the first weight is below 2^31 - 1 and another item has weight, one of the first so many calls and one more picks another item |
| RoundRobinStarvation.StarvationIff | orion-lib/src/clusters/balancers/wrr.rs:84-108 | every call picks the first item exactly when its weight is 2^31 - 1 or more or no other item has weight |
| RoundRobinStarvation.BehindTwins | orion-lib/src/clusters/balancers/wrr.rs:84-108 | behind two equal largest weights of at least two thirds of 2^31 - 1 nothing is ever picked |
| RoundRobinStarvation.StarvedList | orion-lib/src/clusters/balancers/wrr.rs:60-75 | the accepted list of weights 2^31 - 2, 2^31 - 2 and 3 never picks its last item |
| Primes.IsPrime | orion-lib/src/clusters/balancers/maglev.rs:265-295 | trial division up to a power of two with alternating steps of two and four accepts exactly the primes |
| Primes.WalkVisitsAll | orion-lib/src/clusters/balancers/maglev.rs:100-105 | in a table of prime size, from any offset with any stride, every slot is visited within one table length of steps |
| Primes.WalkSteps | orion-lib/src/clusters/balancers/maglev.rs:100-105 | a walk starts at its offset and goes on by its stride, around the table |
| Maglev.ChargeKeepsAccount | orion-lib/src/clusters/balancers/maglev.rs:193-200 | an endpoint's balance is its initial credit plus its weight per visit less the target per slot owned; it stays between zero and the target, below it for a smaller weight, and an endpoint of the target weight owns a slot per visit |
| Maglev.ShareAsProducts | orion-lib/src/clusters/balancers/maglev.rs:193-200 | below the target weight an endpoint owns one more entry than the whole part of its visits times its weight over the target |
| Maglev.Place | orion-lib/src/clusters/balancers/maglev.rs:100-105 | the walk takes the first free slot of the endpoint's own sequence and always finds one |
| Maglev.Visit | orion-lib/src/clusters/balancers/maglev.rs:88-105 | one visit charges the endpoint, and if its credit is due puts it into the first free slot of its walk and moves the walk behind that slot; the accounts of all endpoints are kept |
| Maglev.Rounds | orion-lib/src/clusters/balancers/maglev.rs:87-109 | the loop fills the whole table within one table length of rounds, by visiting the endpoints in turn, one moment after the other |
| Maglev.Unwrap | orion-lib/src/clusters/balancers/maglev.rs:154-164 | no entry of the finished table is missing |
| Maglev.Build | orion-lib/src/clusters/balancers/maglev.rs:80-111 | the table is exactly what visiting the endpoints in turn from an empty table leads to; it is full, names only endpoints, and gives each exactly the share that its weight and its visits earn, where visits differ by at most one; with no more endpoints than slots each has an entry |
| Maglev.WithSize | orion-lib/src/clusters/balancers/maglev.rs:54-116 | the same for any positive weights, normalised, with the largest as target: an endpoint has at most two entries more than its part of the table, and at most one less than its part of a table shorter by the number of endpoints; no endpoints give an empty table and one gives the table with that one |
| Maglev.TableIsClose | orion-lib/src/clusters/balancers/maglev.rs:87-109 | a full table divided in proportion to the visits is divided in proportion to the weights, up to those bounds |
| Maglev.SelectionFollowsEntries | orion-lib/src/clusters/balancers/maglev.rs:234-246 | evenly spread hashes select every endpoint as often as it has entries |
| MatchSpecificity.TotalOrder | orion-configuration/src/config/listener.rs:227-243 | the comparison of match results is a total order that agrees with equality: a match is above no rule, no rule above a failure, and of two matches the lower score is above |
| MatchSpecificity.ParsedRulesAreOk | orion-configuration/src/config/listener.rs:170-183 | a parsed wildcard rule starts at a dot, so the slice in the matcher is in range |
| MatchSpecificity.ParsedRule | orion-configuration/src/config/listener.rs:170-183 | a text is a rule exactly when it has no star but one in front of a leading dot; the rule covers the text itself in lower case, or any text in front of its dotted suffix in lower case |
| MatchSpecificity.MatchIffCovers | orion-configuration/src/config/listener.rs:273-299 | a rule matches exactly the names it covers: its own, or any text in front of its dotted suffix |
| MatchSpecificity.WildcardScore | orion-configuration/src/config/listener.rs:277-290 | a matching wildcard scores one more than the dots in front of it |
| MatchSpecificity.DotsAre | orion-configuration/src/config/listener.rs:277-290 | the dots of a text are the positions that hold one |
| MatchSpecificity.SpecificScoresLower | orion-configuration/src/config/listener.rs:273-302 | of two matching rules an exact name, or else the longer wildcard, scores strictly lower |
| MatchSpecificity.SameScoreSameRule | orion-configuration/src/config/listener.rs:273-302 | matching rules with the same score are the same rule |
| MatchSpecificity.BestNameIsMostSpecific | orion-configuration/src/config/listener.rs:273-302 | a list answers no rule iff empty, failure iff none covers the name, and otherwise the score of exactly the most specific covering rules |
| MatchSpecificity.ContainsIff | orion-configuration/src/config/listener.rs:255-268 | a range contains an address of its family exactly when the two agree in the prefix bits |
| MatchSpecificity.PrefixBits | orion-configuration/src/config/listener.rs:255-268 | bit by bit: the leading bits of the address, as many as the prefix says, are those of the range |
| MatchSpecificity.RangesNest | orion-configuration/src/config/listener.rs:255-271 | of two ranges containing the same address the one with the longer prefix, which scores lower, lies inside the other |
| MatchSpecificity.BestRangeIsLongest | orion-configuration/src/config/listener.rs:332-348 | a list answers no rule iff empty, failure iff no range contains the address, and otherwise the width less exactly the longest containing prefix |
| FilterChainSelection.MatchSubitem | orion-lib/src/listeners/listener.rs:414-437 | in place, exactly those remaining chains stay that do not fail and that no remaining chain betters |
| FilterChainSelection.SurvivorsWin | orion-lib/src/listeners/listener.rs:439-490 | elimination criterion by criterion keeps exactly the failure-free chains that are lexicographically best of all chains |
| FilterChainSelection.WinnerIff | orion-lib/src/listeners/listener.rs:405-502 | a chain is selectable exactly when the connection meets every rule it states and no chain is preferred to it in the documented order of criteria |
| FilterChainPreference.BeatsIff | orion-lib/src/listeners/listener.rs:439-490 | one chain is preferred to another exactly when, in the first criterion in which they differ, it states a met rule and the other none, or its longest range containing the address is longer, or its most specific name covering the server name is more specific |
| FilterChainPreference.SelectableIff | orion-lib/src/listeners/listener.rs:405-502 | a chain is selectable exactly when the connection meets every rule it states and no chain is preferred to it in that sense |
| FilterChainSelection.PassesIff | orion-configuration/src/config/listener.rs:245-348 | no criterion fails exactly when the connection meets every rule that the chain states |
| FilterChainSelection.SelectFilterChain | orion-lib/src/listeners/listener.rs:405-502 | the only selectable chain is returned, none if there is none, and the error exactly when there are several |
| FilterChainTies.TieIff | orion-lib/src/listeners/listener.rs:491-501 | beside one selectable chain another is selectable exactly when all six criteria answer the same |
| FilterChainTies.AmbiguousConfiguration | orion-lib/src/listeners/listener.rs:496-501 | two different match statements that differ only in application protocols are both selectable whenever one is satisfied |
| FilterChainTies.TieMeansConfusable | orion-lib/src/listeners/listener.rs:491-501 | chains that tie have in every criterion no rule or a rule in common that longer ranges of theirs do not cover, and name no unknown transport |
| FilterChainTies.ConfusableMeansTie | orion-lib/src/listeners/listener.rs:491-501 | such chains do tie, for a connection put together from one value per criterion |
| FilterChainTies.Unambiguous | orion-lib/src/listeners/listener.rs:491-501 | a connection with two selectable chains shows two chains of the configuration that can be confused |
| FilterChainTies.AmbiguousPairIff | orion-lib/src/listeners/listener.rs:491-501 | two chains have a connection for which both are selectable exactly when they can be confused |
| ShardedCounter.SumTakes | orion-metrics/src/sharded.rs:72-81 | the sum over the shards is the same in every order |
| ShardedCounter.TotalOfOne | orion-metrics/src/sharded.rs:72-81 | a key that at most one shard holds has that shard's counter as its total, and one that none holds has zero |
| ShardedCounter.AddTotals | orion-metrics/src/sharded.rs:38-45 | an add that does not wrap raises its key's total by its value and no other |
| ShardedCounter.SubTotals | orion-metrics/src/sharded.rs:46-59 | a sub lowers its key's total by the smaller of its value and its shard's counter, and no other |
| ShardedCounter.StoreTotals | orion-metrics/src/sharded.rs:83-90 | a store changes its key's total by the change of its shard's counter, and no other |
| ShardedCounter.RemoveTotals | orion-metrics/src/sharded.rs:100-102 | a remove takes its shard's counter out of its key's total, and changes no other |
| ShardedCounter.TotalOfRun | orion-metrics/src/sharded.rs:38-59 | however adds and subs are spread over shards, a total is that of one plain counter plus exactly what the subs asked of shards that held less |
| ShardedCounter.AddAt | orion-metrics/src/sharded.rs:38-45 | an add creates its counter when it is missing, adds to it modulo 2^64, and leaves all others alone |
| ShardedCounter.SubAt | orion-metrics/src/sharded.rs:46-59 | a sub creates nothing, lowers its counter to zero at most, and leaves all others alone |
| ShardedCounter.StoreAt | orion-metrics/src/sharded.rs:83-90 | a store sets its counter, which need not be there, and leaves all others alone |
| ShardedCounter.RemoveAt | orion-metrics/src/sharded.rs:100-102 | a removed counter is not held any more, so that a key that no other shard holds has no value; all others stay |
| ShardedCounter.ShardedU64.Add | orion-metrics/src/sharded.rs:38-45 | the shard's counter grows modulo 2^64, and shard and counter are created when missing |
| ShardedCounter.ShardedU64.Sub | orion-metrics/src/sharded.rs:46-59 | an existing counter shrinks down to zero at most; nothing is created |
| ShardedCounter.ShardedU64.Store | orion-metrics/src/sharded.rs:83-90 | the counter is set, and created when missing |
| ShardedCounter.ShardedU64.Remove | orion-metrics/src/sharded.rs:100-102 | the counter is removed and returned if there was one; a missing shard is left behind empty |
| ShardedCounter.ShardedU64.Load | orion-metrics/src/sharded.rs:72-81 | a value is returned exactly when some shard holds the key, and is the key's total modulo 2^64 |
| ShardedCounter.ShardedU64.LoadAll | orion-metrics/src/sharded.rs:61-70 | exactly the keys held by some shard are returned, each with its total modulo 2^64 |
| ClusterConfig.PrioritiesIff | orion-configuration/src/config/cluster.rs:683-694 | the first/last/count test accepts exactly the priority lists without a gap below any priority in use |
| ClusterConfig.CheckWeights | orion-configuration/src/config/cluster.rs:718-726 | the checked loop accepts exactly when the whole sum fits in 32 bits |
| ClusterConfig.SumOfAnyOrder | orion-configuration/src/config/cluster.rs:718-726 | the sum, and so the verdict, is the same in every order of the endpoints |

## Left out

- RoundRobinFairness.FairIff: the exact condition is for totals of at most 2^31 - 1. For larger totals, up to the accepted 2^32 - 1, only the lists of `RoundRobinStarvation` are characterised; such a list can have every item picked in proportion without coming back to its start.
- RoundRobinRoom.RoomyNeverSaturates: the condition can be checked on the weights and is sufficient; the exact one is that of `FairIff`.
- FilterChainTies.Unambiguous: with three or more chains the test is not necessary, because a third chain can be preferred to two that tie.
- FilterChainPreference.BeatsIff: the server name has at most 2^32 - 1 characters, so the score does not saturate.
- FilterChainPreference.SelectableIff: the same bound on the server name.
- FilterChainTies.AmbiguousPairIff: the names of the rules are shorter than 2^31 characters.
- Maglev.WithSize: weights are real numbers, so rounding of 64-bit floating point is not modelled; offsets and strides stand for the hashes of the authorities, and the sorting of the endpoints and the cut of overlong weight lists come before it.
- Maglev.ChargeKeepsAccount: real numbers in place of 64-bit floating point.
- Maglev.ShareAsProducts: real numbers in place of 64-bit floating point.
- Maglev.Visit: real numbers in place of 64-bit floating point.
- Maglev.Build: real numbers in place of 64-bit floating point.
- CachedWatch.Freshness: steps are sequentially consistent and the version does not wrap; an update whose closure panics is not modelled.
- ShardedCounter.ShardedU64.Load: the sum of a read wraps as in a release build, where a debug build would stop; the retry loop of the compare-and-exchange in `Sub` is one step, because the shard is locked.
- AccessLogger.AccessLogger.WriteLines: a line counts as written when it is given to an open writer; what a failed or short write leaves in the file is not modelled, and neither is log rotation.
- GracefulShutdown.Safety: waking of tasks is not modelled, so nothing is said about when a poll happens.
- ChannelBody.CompletedCall: `complete_with` is not modelled.
- Trace.Propagation: the traceparent parser is foreign code; it is any function that answers ids in range and reads the printed form of ids that are not zero. In that format the trace id and the new span ids are taken not to be zero.
- Trace.RoundTrip: the same is asked of the parser and of the ids in the traceparent format.
- MatchSpecificity.BestNameIsMostSpecific: names are ASCII and no longer than 2^32 - 1 characters, far above the limit of a server name in section 3 of RFC 6066, so the score does not saturate.
- CoreAffinity.GroupByNuma: the lines of /proc/cpuinfo are given as parsed numbers.
- CoreAffinity.SuccessIff: the product of turn and core count does not overflow, and the strategy that lists the cores of every runtime one by one is not modelled.
- Grammar.Parse: text is a sequence of characters, where the source slices bytes at character boundaries; the operator table is any table of the right shape instead of the literal one, and an argument on an operator that takes none, which that shape rules out, is not modelled.
- The writing of a formatted message to a file, byte by byte.
- The order of listener and network filters, and the rest of the configuration decoding.
- The other balancers (random, ring hash, least request) and health checking.
- Access to the network, the xDS protocol, the admin server, the runtimes and the exporters of metrics and traces.
- Random ids, hashing, clocks and time formats, which appear as arbitrary values.
