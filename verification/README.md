# A verified model of the Loggregator agent

The agent collects log and metric envelopes on a host and passes them on: over
gRPC to Dopplers, through the forwarder agent to local consumers, and as syslog
to the drains that applications have bound. This project models the five parts
of it that keep state across calls and proves what they promise.

* **Connections to Dopplers** (`ConnManagerProtocol`, `ConnManagerInvariants`,
  `ConnManagerOwnership`, `ConnManagerDelivery`, `ClientPoolProtocol`, `AgentGauges`, `ClientPool`). Writer goroutines
  and one maintainer goroutine share an atomic pointer, a write counter per
  connection and a channel with room for 100 tokens. The protocol is a step
  system with a program counter per goroutine; one step is one access to shared
  memory, one channel operation, one gauge update or one network call. Both
  generations of the code are the same step function, parametrised by what they
  do differently: v1 recycles with compare-and-swap, v2 with a plain store, and
  the two `Fetch` functions raise the gauges in a different order. A schedule is
  any sequence of enabled steps, so a theorem about reachable states is a
  theorem about every interleaving and every outcome of every network call.
* **Syslog drains** (`BindingFetcher`, `DrainState`, `DrainManager`). Fetched
  bindings become the two-level map of drains, with writers connected on first
  use, a cancellable context per holder, access times and an idle sweep.
* **Counters** (`TagHash`, `CounterHistory`, `CounterAggregator`,
  `MessageAggregator`, `ForwarderFanOut`). Aggregators rewrite a shared
  envelope in place; the forwarder hands the same envelope to one aggregator
  after another. `CounterHistory` defines every total from the history alone.
* **Envelope sizes** (`EnvelopeAverager`). A 16-bit count and a 48-bit total in
  one word, updated by compare-and-swap loops and read by a reporter.
* **Syslog output** (`Rfc5424`, `SyslogParser`, `OctetFraming`, `TcpWriter`,
  `RetryWriter`, `BlacklistRanges`). The printer is proved against a parser of
  sections 6.2 and 6.3 of RFC 5424, the framing against a decoder of section
  3.4.1 of RFC 6587, on connections that may fail in the middle of a frame.

`Wrappers`, `Arithmetic`, `Decimals` and `ByteStrings` hold shared vocabulary.
Objects the source updates in place are classes whose methods are proved
against functions or relations on values; what the source promises is then
proved about those. A method whose behaviour depends on the network, the clock
or another goroutine chooses the outcome arbitrarily, so its contract covers
every outcome. In the proofs, `hide` keeps definitions that a step does not
need away from the solver.

## What turned out to need a condition

* Each connection has exactly one owner in every run if and only if there is at
  most one writer, or the code is v1 and no send fails
  (`ConnManagerOwnership.OwnershipExactly`). The other configurations have runs
  in which two writers detach, and so close, the same connection.
* `ClientPool.Write` can index out of range for a seed close to 2^63;
  `ClientPoolProtocol.RotationSafeExactly` gives the exact seeds, and
  `ClientPoolProtocol.LargestSeedPanics` one for the agent's five managers.
* After any run `activeDrainCount` is the number of connected drains if and only
  if every idle cleanup found a writer on every drain of the sources it was
  about to expire; otherwise it is too low, and it can become negative
  (`DrainManager.ActiveCountExactly`, `DrainManager.SweepCanUndercount`).
* `ExponentialDuration` is the intended backoff for attempts 0 to 57 except 45,
  46, 47, 48, 50 and 55, where the multiplications overflow to a negative
  duration (`RetryWriter.BackoffExactly`).
* A source type containing a space breaks the header of a log message when the
  envelope has no instance id, because only then are its spaces kept;
  `Rfc5424.ProcessIdIsFieldExactly` gives the exact source types and instance
  ids. A log of a type other than OUT and ERR has no valid priority
  (`Rfc5424.LogRoundTripExactly`).
* The code escapes nothing. A counter name, gauge name or unit reads back if and
  only if it contains no quote and no closing bracket, and each of its
  backslashes stands before a character other than those three
  (`SyslogParser.ValueReadsBackExactly`, `SyslogParser.LiteralValueExactly`).
* The reported average is exact for 1 to 65535 envelopes if and only if the
  48-bit total did not wrap (`EnvelopeAverager.AverageExactlyWithoutWrap`), and
  without a wrap if and only if fewer than 65536 envelopes were tracked or all
  were empty (`EnvelopeAverager.AverageExactly`).
* Ranges written to the environment are read back exactly when no endpoint
  contains a separator (`BlacklistRanges.EnvRoundTripExactly`).
* The comment on `TCPWriter.Close` says that it prevents reconnecting; in the
  code the next `Write` goes on over a new connection if and only if its dial
  succeeds (`TcpWriter.TCPWriter.WriteAfterClose`).
* A long instance id is reported as an invalid app name
  (`Rfc5424.ToRFC5424`).

## Model

| member | source | states |
|---|---|---|
| ConnManagerInvariants.ReachableWellFormed | pkg/clientpool/v1/conn_manager.go:46-104 | in every interleaving the maintainer stores only over nil, holds at most its latest connection, which no writer has seen, and the reset channel never exceeds its capacity |
| ConnManagerInvariants.WriteBudget | pkg/clientpool/v1/conn_manager.go:64-71 | with W writers no connection's counter passes maxWrites by more than W - 1, in any interleaving, with or without send errors |
| ConnManagerInvariants.NoLostWakeUp | pkg/clientpool/v1/conn_manager.go:57-104 | whenever the pointer is nil a token is queued, a writer owes one, the maintainer is awake, or a connect has failed since the last success and the ticker is owed, which TickReconnects shows is enough |
| ConnManagerInvariants.ReceivesAToken | pkg/clientpool/v1/conn_manager.go:80-104 | every run of the maintainer alone that does not take the ticker, whatever its calls return, receives a queued token within a bounded number of steps |
| ConnManagerInvariants.NoDeadlock | pkg/clientpool/v1/conn_manager.go:40-104 | the maintainer's first send never blocks; a blocked writer waits on the full channel; then seven maintainer steps that do not take the ticker always make room |
| ConnManagerInvariants.Reconnects | pkg/clientpool/v1/conn_manager.go:76-97 | from any reachable state with a nil pointer and a token, wherever the maintainer is, at most nine of its steps without the ticker install a new connection if its calls succeed, counted on both gauges |
| ConnManagerInvariants.TickReconnects | pkg/clientpool/v1/conn_manager.go:80-104 | from every reachable state in which the maintainer selects over a nil pointer, tokens or not, a tick and six successful steps install and count a new connection, and no token is consumed |
| ConnManagerInvariants.AwakeWithoutFailures | pkg/clientpool/v2/conn_manager.go:73-104 | along any schedule without a failed connect, a nil pointer never waits for the ticker |
| ConnManagerOwnership.OwnershipExactly | pkg/clientpool/v2/conn_manager.go:46-97 | every connection is exactly one of held, installed, detached by one writer, or closed once, in all runs, if and only if there is at most one writer or the code is v1 and sends cannot fail |
| ConnManagerOwnership.FailingWritersCollide | pkg/clientpool/v1/conn_manager.go:57-62 | with two writers and failing sends a run exists in which both detach the same connection |
| ConnManagerOwnership.PlainStoresCollide | pkg/clientpool/v2/conn_manager.go:63-68 | with two writers the plain store of v2 lets both recycle the same connection although no send fails |
| ConnManagerOwnership.DetachesItsOwn | pkg/clientpool/v1/conn_manager.go:57-71 | where ownership holds, the writer that stores nil finds its own connection installed |
| ConnManagerOwnership.OpenBound | pkg/clientpool/v1/conn_manager.go:46-97 | at most one connection of a manager is open besides those that writers have detached and not yet closed |
| ConnManagerOwnership.GaugesExact | pkg/clientpool/v2/sender_fetcher.go:43-80 | one manager's part of each gauge is the number of its connections whose fetch has raised it and whose closer or error path has not lowered it again |
| ConnManagerOwnership.QuietGauges | pkg/clientpool/v1/pusher_fetcher.go:42-80 | with no fetch and no close under way both gauges are 1 if a connection is installed and 0 if not, and no other connection is open |
| ConnManagerOwnership.FetchKeepsSums | pkg/clientpool/v1/pusher_fetcher.go:42-67 | every step of Fetch changes a gauge by exactly what the fetched connection's own history records |
| ConnManagerOwnership.WriterKeepsSums | pkg/clientpool/v1/pusher_fetcher.go:75-80 | every step of the decrementing closer changes a gauge by exactly what the closed connection's own history records |
| ConnManagerOwnership.RecycledExactly | pkg/clientpool/v2/conn_manager.go:63-68 | with one writer a closed connection was recycled if and only if it carried exactly maxWrites successful sends; no other carried as many |
| ConnManagerDelivery.NilExactlyWhenSent | pkg/clientpool/v1/conn_manager.go:46-74 | with any number of writers, each writer's calls return nil once for each of its successful sends, also when it loses the swap |
| ClientPoolProtocol.RotationSafeExactly | pkg/clientpool/v1/client_pool.go:31-34 | the exact seeds and pool sizes for which no index of the rotation is negative |
| ClientPoolProtocol.RotationVisitsEachOnce | pkg/clientpool/v1/client_pool.go:32-34 | a rotation without a panic tries every manager, and none twice |
| ClientPoolProtocol.ExactlyOneOrNone | pkg/clientpool/v2/client_pool.go:31-43 | in every interleaving with the maintainers, successful sends and nil returns agree, a recycling send included; an error means that the latest call of every manager returned one |
| ClientPoolProtocol.PoolOpenBound | pkg/clientpool/v1/client_pool.go:30-42 | a pool of n managers never has more than n + 1 open connections |
| ClientPoolProtocol.LargestSeedPanics | pkg/clientpool/v1/client_pool.go:31-33 | with five managers and the largest seed the second index is negative |
| ClientPoolProtocol.PoolGaugesExact | pkg/clientpool/v1/pusher_fetcher.go:42-80 | in every pool run the managers' parts of the shared gauges add up to the connections of all managers that are counted and not yet taken back |
| AgentGauges.AgentGaugesExact | cmd/agent/app/app_v1.go:132-150 | in every interleaving of both pools the shared connection gauge and each stream gauge equal the number of counted connections of all managers that share it |
| ClientPool.WaitShrinks | pkg/clientpool/v1/conn_manager.go:99-104 | while the channel is full every maintainer step that does not take the ticker brings it closer to receiving a token |
| ClientPool.Pool.Advance | pkg/clientpool/v1/conn_manager.go:46-74 | one step of the caller, after any number of maintainer steps, follows the control flow of Write, is never blocked before the token, and accounts for its send |
| ClientPool.Pool.Post | pkg/clientpool/v1/conn_manager.go:60-61 | once the channel is full, maintainer steps that do not take the ticker let the token in; the writer then returns the result it detached with |
| ClientPool.Pool.WriteTo | pkg/clientpool/v1/conn_manager.go:46-74 | nil is returned exactly when the message was sent, once, also when the send triggers recycling |
| ClientPool.Pool.Write | pkg/clientpool/v1/client_pool.go:30-42 | the managers are called in rotation until one accepts; delivered means exactly one send; nobody accepted means no send, and every manager was called and returned an error; a panic means that the next index is negative |
| DrainState.AddKeepsGood | pkg/binding/manager.go:145-148 | a new holder keeps every context live in one holder or cancelled once, and the active count exact |
| DrainState.RemoveKeepsGood | pkg/binding/manager.go:159-179 | removing a drain keeps the same |
| DrainState.ConnectKeepsGood | pkg/binding/manager.go:104-116 | storing a connected writer keeps the same |
| DrainState.ResetKeepsGood | pkg/binding/manager.go:195-202 | replacing a holder in a sweep keeps the same, counting the sweeps of holders without a writer |
| DrainState.ForgetKeepsGood | pkg/binding/manager.go:204-204 | an access time may go once none of its source's drains is connected |
| DrainState.PutRepresents | pkg/binding/manager.go:137-148 | writing one inner entry is writing one holder; inner maps stay non-empty and keyed by their own application |
| DrainState.RemoveRepresents | pkg/binding/manager.go:168-173 | deleting an inner entry, and its inner map when that was the last, removes exactly one holder |
| DrainState.RepresentationUnique | pkg/binding/manager.go:48-49 | the two-level map and the set of holders determine each other |
| DrainManager.Manager.constructor | pkg/binding/manager.go:52-80 | a new manager has no drains, contexts or access times |
| DrainManager.Manager.ConnectDrain | pkg/binding/manager.go:107-107 | Connect is called only with a context that is live, and its outcome is recorded |
| DrainManager.Manager.WriterOf | pkg/binding/manager.go:102-119 | a holder without a writer is connected with its own context, once, and keeps the result; any other is left alone |
| DrainManager.Manager.GetDrains | pkg/binding/manager.go:96-122 | the access time becomes the time of the call, every unconnected drain of the source is tried once with a live context, the writers of exactly the connected ones are returned, nothing else changes |
| DrainManager.Manager.RemoveDrain | pkg/binding/manager.go:159-179 | one holder goes, its context is cancelled, the count falls if it was connected |
| DrainManager.Manager.AddNew | pkg/binding/manager.go:128-149 | exactly the bindings not yet known get a holder with a context of their own |
| DrainManager.Manager.UpdateDrains | pkg/binding/manager.go:124-157 | the bindings become exactly the fetched set; surviving holders are untouched, the contexts of the others cancelled once, one context made for each new one |
| DrainManager.Manager.ResetDrain | pkg/binding/manager.go:195-202 | a swept holder's context is cancelled and a fresh holder takes its place |
| DrainManager.Manager.IdleCleanup | pkg/binding/manager.go:188-207 | exactly the sources last accessed before the cutoff are swept and forgotten; afterwards no connected drain belongs to such a source |
| DrainManager.CleanTouchesExactly | pkg/binding/manager.go:193-204 | a cleanup leaves a holder alone if and only if its source was accessed at the cutoff or later, or never |
| DrainManager.AccessedDrainSurvives | pkg/binding/manager.go:96-207 | in every run, after an access no cleanup with a cutoff up to that time touches the source's drains: a bound drain keeps its context, its writer once it has one, and without another access its holder |
| DrainManager.ServesExactly | pkg/binding/manager.go:101-121 | what GetDrains returns is the writers of the source's connected drains, one for each |
| DrainManager.RefetchChangesNothing | pkg/binding/manager.go:124-157 | updating with the same set of bindings creates no context, cancels none and touches no holder |
| DrainManager.ReorderedFetchChangesNothing | pkg/binding/manager.go:124-157 | refetching the same applications and drains in another order leaves the manager as it is |
| DrainManager.SweepLowersCount | pkg/binding/manager.go:195-202 | a sweep lowers the active count by the number of holders it replaces, connected or not |
| DrainManager.SweepKeepsCountExactly | pkg/binding/manager.go:188-207 | from an exact count, a cleanup leaves an exact count if and only if every drain of an expired source has a writer |
| DrainManager.ActiveCountExactly | pkg/binding/manager.go:96-207 | in every run of the three operations the active count is at most the number of connected drains, and equal to it if and only if every cleanup met connected drains only |
| DrainManager.SweepCanUndercount | pkg/binding/manager.go:188-207 | a run of update, failed connect and cleanup that ends with no connected drain and a count of minus one |
| BindingFetcher.SortStrings | pkg/ingress/cups/binding_fetcher.go:74-74 | the slice becomes its one sorted permutation, in place |
| ByteStrings.LessExactly | pkg/ingress/cups/binding_fetcher.go:74-74 | the order is decided by the first byte that differs, or by the length |
| BindingFetcher.ToSyslogBindings | pkg/ingress/cups/binding_fetcher.go:70-96 | a binding is returned if and only if it is the parse of a drain before which fewer than the limit come in its application, filed under that application and host; every drain slice is left sorted |
| BindingFetcher.ReturnedExactly | pkg/ingress/cups/binding_fetcher.go:70-96 | a binding comes from the applications if and only if one of them has its id and host name and, among its smallest drains, one that parses to it |
| BindingFetcher.KeptExactly | pkg/ingress/cups/binding_fetcher.go:74-78 | a drain is kept if and only if fewer than the limit of its application's drains come before it |
| BindingFetcher.KeptLength | pkg/ingress/cups/binding_fetcher.go:76-78 | as many drains are kept as the limit allows, in order, none more often than it came |
| BindingFetcher.ParsedInOrder | pkg/ingress/cups/binding_fetcher.go:80-92 | when all drains parse there is one binding for each, in order |
| BindingFetcher.KeepsTheSmallest | pkg/ingress/cups/binding_fetcher.go:74-78 | no drain left out is smaller than one that is kept, and repetitions are kept as such |
| BindingFetcher.KeptOfPermutation | pkg/ingress/cups/binding_fetcher.go:74-78 | which drains are kept does not depend on their order |
| BindingFetcher.OrderDoesNotMatter | pkg/ingress/cups/binding_fetcher.go:70-96 | the same applications with the same drains in any order give the same set of bindings |
| TagHash.HashTags | pkg/egress/v2/hash_tags.go:10-24 | whatever order the map is ranged over, the hash is a function of the map alone |
| TagHash.SortByKey | pkg/egress/v2/hash_tags.go:26-30 | a permutation of the elements in key order |
| TagHash.HashIsLaidOut | pkg/egress/v2/hash_tags.go:16-23 | the hash is forty characters for each key and forty for its value, over the keys in increasing order |
| TagHash.HashIsCanonical | pkg/egress/v1/message_aggregator.go:58-82 | with a 40-character digest that does not collide on their words, two tag maps have the same hash if and only if they are equal |
| CounterHistory.AggregatorRefinesHistory | pkg/egress/v2/counter_aggregator.go:29-48 | after any readings the table holds exactly the ids since the last prune, each with the last total set plus all later deltas modulo 2^64, and at most 10001 of them |
| CounterHistory.UnlimitedEpoch | pkg/egress/v1/message_aggregator.go:36-56 | without a prune that history is the whole run |
| CounterHistory.EmittedReadingIsNeutral | pkg/egress/v2/counter_aggregator.go:38-44 | feeding back the emitted total has the effect of the original reading, also for zero deltas, sums that wrap to zero and prunes |
| CounterAggregator.Tagger.TagEnvelope | pkg/egress/v2/tagger.go:18-25 | every tag is the printed deprecated one of its name, else the envelope's own, else the default; nothing else of the envelope changes |
| CounterAggregator.Tagger.MoveDeprecatedTags | pkg/egress/v2/tagger.go:27-41 | every deprecated tag is printed over the tags, in whatever order the map is ranged over |
| CounterAggregator.Tagger.AddDefaultTags | pkg/egress/v2/tagger.go:43-49 | defaults are added exactly where there is no tag of that name |
| CounterAggregator.Tagger.TagsExactly | pkg/egress/v2/tagger.go:18-49 | where each tag of a tagged envelope comes from; a deprecated text prints as itself |
| CounterAggregator.Tagger.TaggingIsIdempotent | pkg/egress/v2/tagger.go:18-49 | tagging a tagged envelope changes nothing |
| CounterAggregator.CounterAggregator.Process | pkg/egress/v2/counter_aggregator.go:24-48 | the table and the envelope after a call, as a function of both before it, which the emission lemmas below describe from the envelopes' own fields |
| CounterAggregator.FirstEmission | pkg/egress/v2/counter_aggregator.go:38-44 | a new aggregator emits a counter with its total, or with its delta if it has none |
| CounterAggregator.NextEmission | pkg/egress/v2/counter_aggregator.go:38-44 | a second counter of the same name and tags is emitted with its total, or with the first emission plus its delta modulo 2^64 |
| CounterAggregator.OtherEmission | pkg/egress/v2/counter_aggregator.go:33-44 | a counter of another name or other tags leaves the emission alone |
| CounterAggregator.TableSizeExactly | pkg/egress/v2/counter_aggregator.go:29-44 | the table gains the counter's entry, and is emptied first if it holds more than 10000 |
| CounterAggregator.ReadingsCarry | pkg/egress/v2/counter_aggregator.go:33-44 | the readings of a run are its counters' own names, tags, deltas and totals, in order |
| CounterAggregator.SameTotalExactly | pkg/egress/v2/counter_aggregator.go:33-36 | two counters feed the same total if and only if their names and all their tags agree |
| CounterAggregator.ProcessedIsFixedPoint | cmd/forwarder-agent/app/forwarder_agent.go:80-87 | an aggregator with the same totals, given an envelope another has rewritten, reaches the same totals and leaves the envelope alone |
| CounterAggregator.EmittedTotal | pkg/egress/v2/counter_aggregator.go:24-52 | after any run the emitted total is the last non-zero total received for its id since the last prune plus the later deltas, modulo 2^64; ReadingsCarry says which envelope fields these are |
| MessageAggregator.MessageAggregator.HandleCounter | pkg/egress/v1/message_aggregator.go:36-56 | the reading handled has the envelope's origin, name, tags, delta and total; the emitted total is its own, or the total of the history before plus its delta modulo 2^64; nothing is pruned |
| ForwarderFanOut.EnvelopeWriter.Write | pkg/egress/v2/envelope_writer.go:25-31 | every processor runs once, in order, on what the one before it left, and the sink is given the result |
| ForwarderFanOut.Forwarder.constructor | cmd/forwarder-agent/app/forwarder_agent.go:184-196 | every client gets a writer and an aggregator of its own with the agent's tags |
| ForwarderFanOut.Forwarder.FanOut | cmd/forwarder-agent/app/forwarder_agent.go:80-87 | all clients are given the envelope the first aggregator produced, and aggregators equal before are equal after |
| ForwarderFanOut.Forwarder.Forward | cmd/forwarder-agent/app/forwarder_agent.go:80-87 | over any stream of envelopes all aggregators stay in step with a single one, and all clients receive its output |
| EnvelopeAverager.EncodeAddsFieldwise | pkg/plumbing/envelope_averager.go:71-83 | count and total add in their own modulus; nothing carries from one to the other |
| EnvelopeAverager.WordLayout | pkg/plumbing/envelope_averager.go:63-83 | the count is above the lowest 48 bits and the total in them |
| EnvelopeAverager.NoLostUpdate | pkg/plumbing/envelope_averager.go:27-36 | in every interleaving the word is the two sums over exactly the calls that have returned |
| EnvelopeAverager.TrackedExactly | pkg/plumbing/envelope_averager.go:27-36 | in every run each call is committed as often as it was made, less the times it is still under way |
| EnvelopeAverager.SumsOfOne | pkg/plumbing/envelope_averager.go:27-30 | what one call adds to the sums |
| EnvelopeAverager.CommittedGrows | pkg/plumbing/envelope_averager.go:27-36 | along every run the committed calls are only ever added to |
| EnvelopeAverager.ReportIsExact | pkg/plumbing/envelope_averager.go:27-61 | for any two states of a run, what a reporter ticking at both reports is the mean size of the calls committed between, under exactly the stated conditions, and zero for a multiple of 65536 envelopes |
| EnvelopeAverager.MeanSizeExactly | pkg/plumbing/envelope_averager.go:58-58 | the mean size is the number that times the envelopes gives the bytes |
| EnvelopeAverager.Reporter.Tick | pkg/plumbing/envelope_averager.go:44-59 | a tick at any later state of the averager reports the mean size of the calls since the last tick under exactly those conditions |
| EnvelopeAverager.DeltaTotalExactly | pkg/plumbing/envelope_averager.go:49-49 | the 64-bit difference is the number of bytes if and only if the 48-bit total did not wrap |
| EnvelopeAverager.AverageFromSums | pkg/plumbing/envelope_averager.go:48-58 | the reported average in terms of the calls of the interval |
| EnvelopeAverager.AverageExactly | pkg/plumbing/envelope_averager.go:48-58 | without a wrap of the total the average is bytes over envelopes if and only if fewer than 65536 envelopes or no bytes were tracked |
| EnvelopeAverager.AverageExactlyWithoutWrap | pkg/plumbing/envelope_averager.go:48-58 | for 1 to 65535 envelopes the average is exact if and only if the total did not wrap |
| SyslogParser.ValueReadsBackExactly | pkg/egress/syslog/rfc5424.go:46-87 | a parameter value, printed as it is, reads back if and only if it is literal |
| SyslogParser.LiteralValueExactly | pkg/egress/syslog/rfc5424.go:46-87 | a value is literal if and only if it has no quote and no closing bracket and each backslash stands before another character |
| SyslogParser.ElementReadsBackExactly | pkg/egress/syslog/rfc5424.go:46-87 | an element reads back if and only if all its values are literal |
| Rfc5424.ToRFC5424 | pkg/egress/syslog/rfc5424.go:13-40 | an error naming the hostname or the app id if a name or the instance id is too long, or exactly the messages of the envelope's kind |
| Rfc5424.ToGaugeMessages | pkg/egress/syslog/rfc5424.go:65-87 | one message for every metric and no other, in any order of the map |
| Rfc5424.LogRoundTripExactly | pkg/egress/syslog/rfc5424.go:89-128 | a receiver recovers what was printed if and only if the log type has a priority, host and app are header fields, and source type and instance id make a valid process id |
| Rfc5424.CounterRoundTripExactly | pkg/egress/syslog/rfc5424.go:46-63 | a receiver recovers the counter, and its numbers, if and only if the header is valid and the name is literal |
| Rfc5424.GaugeRoundTripExactly | pkg/egress/syslog/rfc5424.go:65-87 | the same for every metric of a gauge, with its unit |
| Rfc5424.LogReceived | pkg/egress/syslog/rfc5424.go:89-128 | what a log renders to is one message with priority 14 or 11 by its type, its time, the names or a dash, its source, and its text |
| Rfc5424.TextIsTextOf | pkg/egress/syslog/tcp.go:135-144 | the text is the payload's bytes other than NULs in order, and one newline unless these end in one |
| Rfc5424.PlainTextIsItself | pkg/egress/syslog/tcp.go:135-144 | a payload without NULs that ends in a newline is sent unchanged |
| Rfc5424.ProcessIdIsProcessId | pkg/egress/syslog/tcp.go:146-160 | the type in brackets, or type, slash and instance with dashes for the spaces of the type |
| Rfc5424.CounterReceived | pkg/egress/syslog/rfc5424.go:46-63 | what a counter renders to is one message with the element counter@47450 and, in this order, its name, total and delta |
| Rfc5424.GaugesReceived | pkg/egress/syslog/rfc5424.go:65-87 | what a gauge renders to is one message for each metric, with the element gauge@47450 and, in this order, its name, value and unit |
| Rfc5424.ProcessIdIsFieldExactly | pkg/egress/syslog/tcp.go:146-160 | the exact source types and instance ids, lengths included, that make a valid process id |
| Rfc5424.WithinCapacity | pkg/egress/syslog/rfc5424.go:100-109 | a log message is twelve octets longer than its fields, and so within the twenty allocated |
| Rfc5424.MetricWithinCapacity | pkg/egress/syslog/rfc5424.go:54-83 | the same for counter and gauge messages |
| Rfc5424.NullsAreGone | pkg/egress/syslog/tcp.go:135-137 | every other byte survives, moved up by the NULs before it, and nothing else is left |
| OctetFraming.FrameDecodes | pkg/egress/syslog/tcp.go:86-92 | a frame followed by anything decodes to its message, whatever bytes it has |
| OctetFraming.CutFrameWaits | pkg/egress/syslog/tcp.go:86-96 | a frame cut short anywhere is not delivered |
| OctetFraming.FramesDecode | pkg/egress/syslog/tcp.go:84-99 | complete frames decode to their messages in order |
| OctetFraming.FramingIntegrity | pkg/egress/syslog/tcp.go:84-99 | complete frames and part of one more deliver exactly the complete messages |
| TcpWriter.TCPWriter.Connection | pkg/egress/syslog/tcp.go:104-121 | the present connection, a new one, or a failed dial that changes nothing |
| TcpWriter.TCPWriter.Close | pkg/egress/syslog/tcp.go:124-133 | the connection is closed and dropped, with all it carried |
| TcpWriter.TCPWriter.WriteFrame | pkg/egress/syslog/tcp.go:85-98 | one whole frame, counted, or part of one on a connection that is then closed |
| TcpWriter.TCPWriter.Write | pkg/egress/syslog/tcp.go:73-102 | nil means all messages contiguously on one connection; otherwise exactly one fault or an invalid field, the first k messages, and a closed connection; closed ones are never touched |
| TcpWriter.TCPWriter.WriteAfterClose | pkg/egress/syslog/tcp.go:104-133 | after Close the next Write uses a new connection if and only if its dial succeeds, and the closed one is left alone |
| TcpWriter.TCPWriter.StreamDecodes | pkg/egress/syslog/tcp.go:73-133 | on every connection a receiver decodes exactly the framed messages, and the one whose write failed if and only if all of its frame went out |
| RetryWriter.RetryBounds | pkg/egress/syslog/retry_writer.go:63-79 | the course of a call has one attempt per answer and at most maxRetries, and the time slept is the sum of the backoffs of the rounds that failed |
| RetryWriter.CourseEvents | pkg/egress/syslog/retry_writer.go:63-79 | the events of a call one by one: each attempt but the last failed and is followed by a negative check and its own backoff, nothing follows a success or a positive check, and a last round of its own comes only at maxRetries |
| RetryWriter.RetryWriter.Write | pkg/egress/syslog/retry_writer.go:58-80 | every call follows that course: rounds of a failed attempt, a negative context check and the backoff, then a success, a cancellation or the last round; faults and answers are the writer's own; a success has framed the envelope's messages in this call |
| RetryWriter.BackoffExactly | pkg/egress/syslog/retry_writer.go:89-102 | the duration is the capped power of two if and only if the attempt is not one of the six that overflow |
| RetryWriter.BackoffShape | pkg/egress/syslog/retry_writer.go:89-102 | one millisecond twice, doubling up to 8.192 seconds, then fifteen seconds |
| RetryWriter.BackoffMonotone | pkg/egress/syslog/retry_writer.go:87-102 | up to attempt 44 the backoff never shrinks and stays between 1 ms and 15 s |
| RetryWriter.SleepTotalClosedForm | pkg/egress/syslog/retry_writer.go:63-77 | n failures in a row sleep 2^(n-1) ms up to 15, then 16384 + 15000 (n - 15) ms |
| BlacklistRanges.CompareIsNumeric | pkg/ingress/cups/blacklist_ranges.go:65-75 | byte order is numeric order on addresses of one length |
| BlacklistRanges.SplitJoin | pkg/ingress/cups/blacklist_ranges.go:40-41 | splitting undoes joining when no part contains the separator |
| BlacklistRanges.JoinSplit | pkg/ingress/cups/blacklist_ranges.go:40-41 | joining undoes splitting |
| BlacklistRanges.ReadPartsExactly | pkg/ingress/cups/blacklist_ranges.go:40-50 | one range for each part before the first without exactly one dash, made of the texts around its dash; that part is reported |
| BlacklistRanges.EnvRoundTripExactly | pkg/ingress/cups/blacklist_ranges.go:35-53 | ranges are read back from their text if and only if no endpoint contains a separator |
| BlacklistRanges.BlacklistRanges.Validate | pkg/ingress/cups/blacklist_ranges.go:55-71 | nil exactly when every range is an interval of addresses |
| BlacklistRanges.BlacklistRanges.CheckBlacklist | pkg/ingress/cups/blacklist_ranges.go:73-81 | exactly the 16-byte addresses of the union of the ranges are rejected, a nil address never |
| BlacklistRanges.BlacklistRanges.UnmarshalEnv | pkg/ingress/cups/blacklist_ranges.go:35-53 | the ranges before the first malformed part are appended, that part is reported, otherwise the whole list is validated |
| BlacklistRanges.MappedRange | pkg/ingress/cups/blacklist_ranges.go:73-81 | a range of IPv4 addresses contains only IPv4 addresses |

## Left out

- gRPC, TLS, HTTP and UDP set-up, configuration, pprof and the main packages: plumbing around the modelled parts; dialling, sending, writing and the clock appear as arbitrary outcomes.
- The diode and batching libraries and their wrappers: the algorithms live in libraries whose source is not part of this model.
- The Prometheus registry and the stats sender: field copies; the gauges of the modelled parts are integer counters, and a step of a goroutine changes a shared gauge by what it changes its own manager's part.
- The collector and the scraper: operating-system calls and a third-party text parser.
- The v1 taggers, event wrapping, source-id mapping, the binding store and poller, filter metrics and the metrics of FetchBindings: single-branch code that would only add easy members.
- Concurrent writers of one manager: `OwnershipExactly` says exactly where ownership holds; nothing further is claimed about the configurations in which it fails.
- ClientPool.Pool.Write: the pool object has one caller, as in the shipped agent; several callers of one manager are covered by the protocol modules only.
- ClientPool.Pool.Post: that the token gets in needs a maintainer that is not served by the ticker for ever; Go's select guarantees this only with probability one.
- DrainManager.Manager.GetDrains: the order in which the drains of a source are returned is left open, as Go leaves it; `mu` is not modelled, since each operation holds it throughout.
- BindingFetcher.ToSyslogBindings: the drain slices of different applications are distinct arrays, and the limit is not negative (the source panics on a negative one).
- ForwarderFanOut.EnvelopeWriter.Write: the processors are distinct objects, as the forwarder builds them.
- ForwarderFanOut.Forwarder.Forward: the envelopes taken from the diode are distinct objects; the sinks only record what they are given.
- TagHash.HashIsCanonical: SHA-1 is a parameter; that it has 40 characters and does not collide is assumed of the words of the two maps only, since no digest is injective on all strings.
- EnvelopeAverager.Reporter.Tick: the quotient is exact; float64 rounding is not modelled. Sizes are assumed to add up to no negative number.
- EnvelopeAverager.AverageExactly: says nothing of an interval with no envelopes, where ReportIsExact gives zero, nor of a wrap of the 48-bit total, which AverageExactlyWithoutWrap covers below 2^64 - 2^48 bytes.
- Rfc5424.LogRoundTripExactly: time.Format is a parameter that yields a header field; the parser does not check the inner form of timestamps. strings.ToUpper is a parameter too.
- Rfc5424.GaugeRoundTripExactly: strconv.FormatFloat is a parameter whose text is literal; that it denotes the same number is not claimed.
- Rfc5424.CounterRoundTripExactly: a process id longer than section 6 of RFC 5424 allows makes the header invalid, and is covered as such.
- TcpWriter.TCPWriter.Write: write deadlines are not modelled, and a failed write may have passed any part of its data to the peer.
- RetryWriter.BackoffExactly: from attempt 58 on the conversion of the float64 to an int is undefined in Go, so the function stops at 57.
- RetryWriter.RetryWriter.Write: it wraps the TCP writer; the source's writer is an interface. Durations are added up as passed to Sleep.
- BlacklistRanges.BlacklistRanges.CheckBlacklist: net.ParseIP is a parameter that returns 16 bytes or nil; name resolution is left out.
- Strings are sequences of characters that stand for bytes; Unicode plays no part in the modelled code.
