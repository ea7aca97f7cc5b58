# Proofs about the router fleet manager

A model, in Dafny, of the parts of the system where correctness depends on protocol, interleaving,
crashes or arithmetic, and proofs of what those parts keep. `dafny verify dfyconfig.toml` checks
everything. Each module stands for one component.

| module | component |
|---|---|
| WireFormat | the RouterOS API encoding as the API server (TypeScript) and the agent (Go) each write it: length prefixes, words, sentences, and what a tokeniser of either side makes of a byte stream |
| PushDecoder | the server's `decodeWords` over one buffer and over a stream that arrives in chunks |
| PullClient | the agent's reader (`readWord`, `readSentence`) and `Execute`, and the reader against the server's decoder |
| ReplyLoop | which reply belongs to which call of `Execute` |
| Attributes | `=key=value` words to and from maps, both dialects |
| PollSession | the three-phase polling session of `collectRouterMetrics` |
| SafeMode | safe-mode commands: timers, confirmation, rollback, as steps between lock operations |
| Outbound | the tunnel's bounded write queue, its connections and their write loops, over any number of connects |
| Pipeline | read loop, dispatcher, metric forwarder, write loop and timers, interleaved |
| Pagination | cursor paging of devices (by id) and of snapshots (by time, with an id cursor) |
| CrashFiles | `config.Save` and the agent's binary replacement on a file system that can crash |
| Backoff | reconnection delays, in exact arithmetic |
| Uptime | the web client's uptime printer and the two uptime parsers |
| Snmp | the hand-written SNMP request and the scan of the response |
| Sequences, Arithmetic, Wrappers | shared notions: flattening, subsequences, powers and quotients, Option and Result |

Code that changes state step by step is modelled by classes and loops. Each method is proved equal
to a specification function; the laws are lemmas about those functions, and for concurrent parts
about every run of their steps. A step of the classes in SafeMode and Outbound is what one
goroutine does between two points at which others can interfere, so a run is any interleaving.

## Results that are not what the source promises

Each of these is a theorem with its exact condition or with a concrete input.

- The server's decoder forgets the words it has read of a sentence that a chunk leaves unfinished.
  Streaming therefore equals decoding at once if and only if no such chunk is followed by the end
  of a sentence (`PushDecoder.ChunkingExact`, `PushDecoder.BoundaryForgetsWord`). A decoder that
  goes back to the start of the sentence has no such condition (`PushDecoder.RewindingExact`).
- A five-byte length of 2^31 or more reads as negative in the server. Prefix and length together
  then fail to advance its offset for all but the four largest lengths
  (`WireFormat.NegativeLengthMovesBack`).
- `ConfirmCommand` is documented to return false once the rollback has fired. Between the firing of
  the timer and the callback's lock it returns true, and the rollback is dispatched all the same
  (`SafeMode.LateConfirmReachable`). A confirmation is final if and only if it finds the timer
  running (`SafeMode.ConfirmIsFinalExactly`). A callback that looks again under the lock excludes
  the late case, in every run (`SafeMode.EveryCheckedRun`), and still rolls back every command that
  is not confirmed when keys and registration are in order (`SafeMode.CheckedDrained`). The price is
  that a timer which fires before its registration then gives up (`SafeMode.CheckedEarlyTimer`).
- Reused idempotency keys, or a timer that fires before it is registered, take armings out of the
  six classes a registered command should be in (`SafeMode.ReusedKeyLeaves`,
  `SafeMode.EarlyTimerLeaves`); a step keeps the classes if and only if it meets a guard that is
  spelled out (`SafeMode.PartitionStep`).
- A router that ends a failed command with `!trap` and `!done` shifts the replies by one call
  (`ReplyLoop.DoneAfterTrapAnswersNextCall`). Calls stay in step if and only if each reply has one
  sentence that ends it, in last place (`ReplyLoop.InStepExactly`). A request whose write breaks off
  behind a word runs into the next one (`PullClient.BrokenSendJoins`). With short ASCII words no
  broken write leaves the next request readable, unless nothing went out
  (`PullClient.BrokenSendReadable`); with longer words one may
  (`PullClient.LoneLengthByteHarmless`).
- `listSnapshots` orders by time and cuts by id, although its comment calls this keyset pagination.
  A walk is complete if and only if every page ends at a row that separates the ids before it from
  those after it (`Pagination.StaticWalkExact`, `Pagination.SnapshotSkipped`).
- The comment on `outboundBuffer` says the caller blocks; `Send` drops. After a second connect on one
  client the old write loop still takes from the shared queue, and what it takes it can only drop or
  lose (`Outbound.TakenCanBeWritten`, `Outbound.StaleLoopLoses`). The order of what is written stays
  right all the same (`Outbound.OutboundOrder`).
- `config.Save` syncs the file but not its directory: a save that reported success may be undone by a
  crash, though never half (`CrashFiles.SaveNotDurable`).
- The agent's uptime parser is documented to skip what it does not recognise; the digits of a week
  field run into the next number instead (`Uptime.GoMergesWeek`), so that it reads a week field right
  if and only if it says zero (`Uptime.GoReadsWeekExactly`). The printed "< 1m" reads back as
  sixty seconds (`Uptime.UptimeRoundTrip`).
- An SNMP community of 43 bytes supplies the first byte of the OID with its length byte, and can
  have its own text returned in place of the value although it does not contain the OID
  (`Snmp.DecoyReturned`). When the scan reaches the value is characterised for every response
  (`Snmp.ScanReachesValue`).

## Model

| member | source | states |
|---|---|---|
| WireFormat.LengthInterop | packages/agent/internal/routeros/client.go:225-257 | Go's or-ed and big-endian length prefix is byte for byte the one TypeScript shifts together, for every length below 2^28; from there on Go refuses |
| WireFormat.PrefixIsBigEndian | apps/api/src/lib/routeros-api.ts:4-12 | the prefix is the length in big-endian order with the marker 0x80, 0xC0, 0xE0 or 0xF0 in front, in the first form that holds it |
| WireFormat.SentenceInterop | packages/agent/internal/routeros/client.go:188-202 | Go writes a sentence exactly when every word is below 2^28 bytes, and then the bytes TypeScript writes |
| WireFormat.LengthRoundTrip | apps/api/src/lib/routeros-api.ts:4-38 | an encoded length below 2^31 decodes to itself and its own width whatever follows; below 2^28 for Go too |
| WireFormat.WordRoundTrip | apps/api/src/lib/routeros-api.ts:14-17 | in either dialect an encoded word followed by anything is the next token, with exactly its bytes; the empty word ends a sentence |
| WireFormat.NegativeLengthMovesBack | apps/api/src/lib/routeros-api.ts:37 | the five-byte form is refused exactly from 2^31 on, and prefix plus length is not positive exactly up to 2^32 - 5 |
| WireFormat.TokenStable | packages/agent/internal/routeros/client.go:261-307 | more bytes behind a complete token, or behind a refused prefix, change nothing: the code is self-delimiting in both dialects |
| WireFormat.TokeniseConcat | apps/api/src/lib/routeros-api.ts:41-73 | tokenising a prefix and then its leftover bytes with the remainder gives the tokens of the whole, for every stream and cut |
| WireFormat.TokeniseAll | apps/api/src/lib/routeros-api.ts:14-23 | in either dialect encoded sentences tokenise to their words and ends, followed by whatever the tail tokenises to |
| WireFormat.RoundTrip | apps/api/src/lib/routeros-api.ts:14-73 | for each decoder, encode then decode gives the sentence list back with nothing left over if and only if no sentence and no word is empty (words below the decoder's limit) |
| WireFormat.EncodingInjective | apps/api/src/lib/routeros-api.ts:14-23 | two canonical sentence lists with the same bytes are the same list |
| PushDecoder.DecodeWords | apps/api/src/lib/routeros-api.ts:41-73 | the loop returns the sentences of the buffer's tokens and exactly the bytes from which no further token can be taken; it reports when that is because of a negative length |
| PushDecoder.Receiver.OnData | apps/api/src/lib/routeros-api.ts:122-125 | a chunk is decoded together with the kept bytes, and the leftover bytes replace them |
| PushDecoder.ReceiveAll | apps/api/src/lib/routeros-api.ts:118-127 | a stream fed chunk by chunk yields each chunk's sentences, grouped afresh per chunk |
| PushDecoder.ChunkItemsComplete | apps/api/src/lib/routeros-api.ts:118-125 | however the stream is cut, the tokens taken chunk by chunk are the stream's tokens: only the grouping can go wrong |
| PushDecoder.WordConservation | apps/api/src/lib/routeros-api.ts:41-73 | words emitted plus words forgotten at chunk boundaries are the words of the stream, for every stream and cutting |
| PushDecoder.ChunkingExact | apps/api/src/lib/routeros-api.ts:41-73 | chunked decoding emits what one decoding emits if and only if no boundary that forgets words is followed by the end of a sentence; no assumption on stream or cutting |
| PushDecoder.CompleteStreamChunking | apps/api/src/lib/routeros-api.ts:118-125 | for a stream of complete sentences, the list comes out if and only if no chunk leaves a complete word of an unfinished sentence behind |
| PushDecoder.BoundaryForgetsWord | apps/api/src/lib/routeros-api.ts:43-72 | a two-word sentence cut between its words is never emitted as sent |
| PushDecoder.RewindingExact | apps/api/src/lib/routeros-api.ts:118-125 | keeping the bytes from the start of the unfinished sentence makes the handler emit what one decoding would, for every stream and cutting |
| PushDecoder.RewindingChunkInvariant | apps/api/src/lib/routeros-api.ts:118-125 | the same from any kept bytes that hold no complete sentence |
| Attributes.ParseRow | packages/agent/internal/routeros/client.go:144-158 | the row loop collects all words behind the tag, later keys overriding, a word without a second '=' giving an empty value |
| Attributes.WordsToAttrs | apps/api/src/lib/routeros-api.ts:76-87 | the record loop collects words with a non-empty key and a second '=', and skips the others |
| Attributes.CollectedKeys | apps/api/src/lib/routeros-api.ts:76-87 | in either dialect a key is in the collected map exactly when some word assigns it, the word being "=key=value" for a key without '=' (Go: also "=key"; TypeScript: a non-empty key) |
| Attributes.CollectMeans | packages/agent/internal/routeros/client.go:144-158 | its value is the one the last such word assigns, so that a value may itself contain '=' |
| Attributes.CollectedKeysPlain | apps/api/src/lib/routeros-api.ts:79-84 | no collected key contains '=', and in TypeScript none is empty |
| Attributes.AttrsRoundTrip | packages/agent/internal/routeros/client.go:118-158 | a map written in any iteration order reads back as itself if and only if no key contains '=' (Go), or contains '=' or is empty (TypeScript) |
| PullClient.Client.ReadLength | packages/agent/internal/routeros/client.go:261-296 | the byte-wise length reader returns the decoded prefix and has consumed exactly it; a short stream is used up, a bad prefix costs one byte |
| PullClient.Client.ReadWord | packages/agent/internal/routeros/client.go:261-307 | a word and exactly its bytes, the empty word for an end of sentence, or the error with what it consumed |
| PullClient.Client.ReadSentence | packages/agent/internal/routeros/client.go:206-221 | the words up to the first empty one and the stream behind it, or the first read error |
| PullClient.Client.SendSentence | packages/agent/internal/routeros/client.go:188-202 | nothing is written when a word is too long; otherwise the whole encoded sentence, or, when the write fails, what the connection took of it |
| PullClient.Client.Execute | packages/agent/internal/routeros/client.go:113-172 | the request written and the reply read off the stream, in every case: not connected, not encodable, broken write (which may leave a part), rows, trap, fatal, read error |
| PullClient.MessageOfFirst | packages/agent/internal/routeros/client.go:311-319 | the error text is what follows "=message=" in the first word that starts so, and empty when none does |
| PullClient.RequestReadsBack | packages/agent/internal/routeros/client.go:118-126 | what `Execute` sends, read by the TypeScript decoder and attribute parser, is one sentence with the command first and exactly the parameters, in whatever order the map was iterated; nothing is sent only when some word is too long |
| PullClient.BrokenSendJoins | packages/agent/internal/routeros/client.go:200-201 | a request whose write breaks behind one of its words runs into the next request: the two are read as one sentence |
| PullClient.BrokenSendReadable | packages/agent/internal/routeros/client.go:188-202 | between requests of words of at most 127 ASCII bytes, for every place at which a write breaks off: the next request is read as sent if and only if nothing of the broken one went out |
| PullClient.LoneLengthByteHarmless | packages/agent/internal/routeros/client.go:232-235 | with longer words there is a harmless cut: the first length byte of a word of 128 to 255 bytes, alone, in front of a request whose first word is short |
| PullClient.ReadAllIsTokens | packages/agent/internal/routeros/client.go:206-221 | the non-empty sentences repeated reading yields before its first error are the sentences of Go's token stream |
| PullClient.GoTokenIsTsToken | packages/agent/internal/routeros/client.go:261-307 | every token Go takes TypeScript takes too; Go gives up exactly at a prefix byte of 0xF0 or more |
| PullClient.PullIsPrefixOfPush | apps/api/src/lib/routeros-api.ts:26-73 | on every byte stream Go's non-empty sentences before its first error are a prefix of TypeScript's, and all of them unless Go stopped at a prefix byte of 0xF0 or more |
| PullClient.LongWordOnlyTs | packages/agent/internal/routeros/client.go:294-295 | a word of 2^28 bytes or more round-trips in TypeScript and is unreadable to Go |
| ReplyLoop.ReadEncodedSentence | packages/agent/internal/routeros/client.go:206-221 | reading an encoded sentence gives its words and stops right behind it |
| ReplyLoop.ReplyConsumesBlock | packages/agent/internal/routeros/client.go:130-171 | a call whose unread stream starts with a reply block consumes just that block and returns its rows in order, or its error |
| ReplyLoop.ReplyByTag | packages/agent/internal/routeros/client.go:134-170 | by the tags themselves: sentences none of which is tagged `!done`, `!trap` or `!fatal`, and then one that is, give the rows, the trap or the fatal error with its message, and what follows stays unread |
| ReplyLoop.RowsComeBack | packages/agent/internal/routeros/client.go:134-162 | rows written as `!re` sentences, attributes in any order, and then `!done` come out of the call as the same attribute maps in the same order |
| ReplyLoop.ReplyConsumesExactly | packages/agent/internal/routeros/client.go:130-171 | a call answers, without a read error, from exactly the sentences the router wrote for it if and only if one of them ends a reply and it is the last; whatever follows them |
| ReplyLoop.InStepExactly | packages/agent/internal/routeros/client.go:130-171 | so calls and replies stay in step through a whole conversation if and only if every group of sentences is such a reply |
| ReplyLoop.RepliesPair | packages/agent/internal/routeros/client.go:113-171 | over a stream of blocks, the i-th call that is sent gets exactly the i-th block, whatever sends fail in between |
| ReplyLoop.ExecuteInTurn | packages/agent/internal/routeros/client.go:113-171 | calls made one after the other on one client, with any parameters and send failures, get the replies of that pairing |
| ReplyLoop.DoneAfterTrapAnswersNextCall | packages/agent/internal/routeros/client.go:160-162 | a `!done` behind a `!trap` answers the next call with success and no rows |
| PollSession.Session.Handle | apps/api/src/lib/routeros-api.ts:127-182 | what each tag does in each phase to phase, result, requests written and outcome, tag by tag; any other tag changes nothing |
| PollSession.NamedRow | apps/api/src/lib/routeros-api.ts:163-174 | an interface row whose words say a name adds one interface with that name, with the numbers printed behind `rx-byte` and `tx-byte` (zero when missing or empty), running exactly when it says `true`; said of the words, the last one for a key deciding |
| PollSession.UnnamedRow | apps/api/src/lib/routeros-api.ts:164-166 | an interface row without a name, or with an empty one, changes nothing |
| PollSession.ResourceRow | apps/api/src/lib/routeros-api.ts:144-155 | a resource row sets success and reports version, board name, model (with its default), CPU load, memory sizes and uptime as its words say them, nothing for what they do not say |
| PollSession.PortsReported | apps/api/src/lib/routeros-api.ts:163-175 | the rows a router prints for a list of ports are reported as exactly those ports, in order |
| PollSession.PortsPolled | apps/api/src/lib/routeros-api.ts:127-182 | a whole session with such rows finishes in success with exactly the router's ports, having written login, resource and interface requests |
| PollSession.RequestsRead | apps/api/src/lib/routeros-api.ts:114-161 | the three requests read back from their bytes, and the first carries name and password as they are |
| PollSession.PrintedNumberReads | apps/api/src/lib/routeros-api.ts:151-170 | the integer reading of counters and memory sizes takes a printed number back, with or without a minus sign and whatever comes behind its digits |
| PollSession.BlankInFront | apps/api/src/lib/routeros-api.ts:151-170 | one ASCII blank more in front changes nothing, and a character that is neither blank, sign nor digit makes the text no number |
| PollSession.Session.OnData | apps/api/src/lib/routeros-api.ts:122-183 | a chunk handles all its sentences in order until the session resolves, which leaves the others without effect |
| PollSession.Session.OnTimeout | apps/api/src/lib/routeros-api.ts:109-112 | the timer resolves the session unless something already did |
| PollSession.Session.OnError | apps/api/src/lib/routeros-api.ts:185-188 | so does a socket error |
| PollSession.RunSound | apps/api/src/lib/routeros-api.ts:118-190 | whatever arrives and whenever the timer or an error strikes, the requests written are those of the phases entered, in order, phases only advance and a resolution is final |
| PollSession.EverySession | apps/api/src/lib/routeros-api.ts:118-190 | from the opening of the connection: requests are a prefix of login, resource, interface, and any two moments of a session are ordered |
| PollSession.TranscriptOutcome | apps/api/src/lib/routeros-api.ts:130-181 | on three `!done`s the session resolves with the named rows of the interface phase in order and the last resource row, successfully exactly when the resource phase had a row |
| PollSession.EveryOutcome | apps/api/src/lib/routeros-api.ts:127-182 | for every list of sentences: the login fails if and only if the first of `!done`, `!trap`, `!fatal` is not `!done`; otherwise the session is finished from the third `!done` on, with what the transcript cut there calls for, and before that unresolved in the phase and with the requests of the `!done`s so far |
| PollSession.Poll | apps/api/src/lib/routeros-api.ts:118-183 | the session fed chunk by chunk ends in the state its emitted sentences lead to |
| PollSession.AlignedPollOutcome | apps/api/src/lib/routeros-api.ts:118-183 | from bytes to outcome: a transcript cut so that no chunk leaves a complete word behind ends with exactly the outcome the transcript calls for |
| SafeMode.Executor.DispatchCommand | packages/agent/internal/routeros/executor.go:58-74 | a dispatch is logged with its result; a successful one with safe mode, TTL and payload, and no other, goes on to get a timer |
| SafeMode.Executor.StartTimer | packages/agent/internal/routeros/executor.go:118-120 | a new timer of its own, running and not yet in the map |
| SafeMode.Executor.RegisterTimer | packages/agent/internal/routeros/executor.go:122-135 | the map entry of the key becomes this arming; a previous one is stopped if it is still running |
| SafeMode.Executor.CallbackTakesLock | packages/agent/internal/routeros/executor.go:140-143 | the entry under the key goes, whoever's it is, and the callback is past the lock |
| SafeMode.Executor.CallbackDispatches | packages/agent/internal/routeros/executor.go:150-157 | the arming's own rollback is dispatched |
| SafeMode.Executor.ConfirmCommand | packages/agent/internal/routeros/executor.go:87-102 | true exactly when the key is in the map; then the entry goes and its timer stops if it is still running |
| SafeMode.Executor.ExecuteWithSafeMode | packages/agent/internal/routeros/executor.go:49-82 | uninterrupted: a success with safe mode, TTL and payload adds one arming, running and registered under its key, and takes out the one it replaces; anything else leaves timers and map as they are |
| SafeMode.MapStep | packages/agent/internal/routeros/executor.go:87-143 | after every step map entries and armings recorded as pending correspond one to one |
| SafeMode.CountsStep | packages/agent/internal/routeros/executor.go:140-150 | after every step an arming has dispatched its rollback once if its timer says so, otherwise never |
| SafeMode.RollbacksMeans | packages/agent/internal/routeros/executor.go:150-157 | the count of rollbacks is zero, or at most one, exactly when the log has none of that arming, or no two |
| SafeMode.LogStep | packages/agent/internal/routeros/executor.go:58-74 | after every step each rollback in the log carries its arming's payload and follows that command's own success |
| SafeMode.RunSound | packages/agent/internal/routeros/executor.go:49-158 | all of this over every run, with any keys |
| SafeMode.EveryRun | packages/agent/internal/routeros/executor.go:58-74 | from the start, in every run, on the log itself: no arming is rolled back twice, and a rollback carries the payload of a command with safe mode, TTL and payload whose own dispatch succeeded before |
| SafeMode.ConfirmInTimeIsFinal | packages/agent/internal/routeros/executor.go:97-98 | a confirmation that finds the timer running means this arming is never rolled back in any continuation, even with keys reused |
| SafeMode.ConfirmedAndRolledBack | packages/agent/internal/routeros/executor.go:87-143 | in any run, an arming both confirmed and rolled back was confirmed after its timer had fired |
| SafeMode.PartitionStep | packages/agent/internal/routeros/executor.go:87-143 | a step keeps every registered arming in exactly one of armed, expiring, confirmed in time, confirmed late, rolling back, rolled back if and only if it meets the guard |
| SafeMode.ReusedKeyLeaves | packages/agent/internal/routeros/executor.go:122-135 | a run from the start, for every command that arms, in which executing it twice makes a partitioned state lose an arming: the one whose entry is replaced |
| SafeMode.EarlyTimerLeaves | packages/agent/internal/routeros/executor.go:118-135 | a run from the start in which a timer that fires, and whose callback takes the lock, before registration does the same |
| SafeMode.PendingIsArmedOrExpiring | packages/agent/internal/routeros/executor.go:87-143 | then the map holds exactly the armed and the expiring ones |
| SafeMode.LateConfirmOnly | packages/agent/internal/routeros/executor.go:97-98 | then a confirmed arming that is rolling back was confirmed between firing and lock |
| SafeMode.DisciplineMeetsGuard | packages/agent/internal/routeros/executor.go:114-143 | with distinct keys and registration before firing every step meets the guard |
| SafeMode.DisciplinedRunOrderly | packages/agent/internal/routeros/executor.go:87-143 | such a run stays partitioned throughout |
| SafeMode.EveryDisciplinedRun | packages/agent/internal/routeros/executor.go:87-143 | from the start, in every such run: each registered arming is in a class, in the map exactly when armed or expiring, and confirmed and rolled back only if confirmed in between |
| SafeMode.DrainStep | packages/agent/internal/routeros/executor.go:87-158 | the measure strictly falls with every timer step and every confirmation that finds an entry |
| SafeMode.MeasureIs | packages/agent/internal/routeros/executor.go:87-158 | the measure is 3 running + 2 fired + locked + entries |
| SafeMode.DrainBound | packages/agent/internal/routeros/executor.go:87-158 | so in any run without new commands, timers or registrations at most that many steps have an effect, whatever confirmations find nothing in between |
| SafeMode.DrainedIsResolved | packages/agent/internal/routeros/executor.go:87-158 | when no timer step is left the map is empty and every arming is confirmed in time or rolled back |
| SafeMode.UnstoppedRollsBack | packages/agent/internal/routeros/executor.go:118-157 | in every sound state an arming whose timer was not stopped has a continuation in which it is rolled back |
| SafeMode.ConfirmIsFinalExactly | packages/agent/internal/routeros/executor.go:87-102 | in every sound state, with any keys: a confirmation that returns true rules the rollback out in all continuations if and only if it finds the timer running |
| SafeMode.LateConfirmReachable | packages/agent/internal/routeros/executor.go:140-143 | a run from the start, with distinct keys and registration before firing, for every command that arms: confirmed with `ConfirmCommand` returning true, and rolled back |
| SafeMode.CheckedExcludesLateConfirm | packages/agent/internal/routeros/executor.go:140-150 | with a second look under the lock no run, whatever the keys, rolls back a confirmed or replaced arming |
| SafeMode.EveryCheckedRun | packages/agent/internal/routeros/executor.go:140-150 | in particular none from the start |
| SafeMode.CheckedDrained | packages/agent/internal/routeros/executor.go:138-158 | that callback still does its work: with distinct keys and registration before firing, when no timer step is left nothing is pending and exactly the commands that were not confirmed have been rolled back, once |
| SafeMode.CheckedEarlyTimer | packages/agent/internal/routeros/executor.go:118-135 | what it costs: a timer that fires before its registration is stopped for good and its command stays pending |
| Outbound.TunnelClient.SendEnvelope | packages/agent/internal/tunnel/client.go:128-135 | accepted exactly when fewer than 64 are queued, at the end of the queue; otherwise only refused |
| Outbound.TunnelClient.Connect | packages/agent/internal/tunnel/client.go:82-123 | the connection there is gets closed before the dial; a successful dial opens the new one and adds its write loop, and either way the old loops and the queue stay as they are |
| Outbound.TunnelClient.Close | packages/agent/internal/tunnel/client.go:139-153 | the first call closes the connection and leaves queue and loops; a later one does nothing, even when a connection was made in between |
| Outbound.TunnelClient.TakeEnvelope | packages/agent/internal/tunnel/client.go:227 | a loop takes the oldest envelope |
| Outbound.TunnelClient.DisposeEnvelope | packages/agent/internal/tunnel/client.go:228-245 | marshalling failure drops it and the loop goes on, write failure loses it and the loop ends, otherwise it is written, each said of the lists themselves; only the newest connection can take a write, while it is open |
| Outbound.ConservedStep | packages/agent/internal/tunnel/client.go:128-259 | every step keeps, for each envelope, accepted = queued + in hand + written + failed to marshal + lost, losses at most one per ended loop, queue at most 64 |
| Outbound.OutboundConservation | packages/agent/internal/tunnel/client.go:82-259 | so in every run with any number of connects on one client, as one equation of multisets: nothing is lost, duplicated or made up |
| Outbound.Counted | packages/agent/internal/tunnel/client.go:128-245 | over any run the numbers written, failed to marshal and lost are the numbers of such events, and accepted plus refused is the number of sends |
| Outbound.OutboundOrder | packages/agent/internal/tunnel/client.go:82-245 | over every run with any number of connects, what is written over all connections together is a subsequence of what was accepted, in that order, each written envelope with an acceptance of its own (the embedding is returned) |
| Outbound.TakenCanBeWritten | packages/agent/internal/tunnel/client.go:86-89 | an envelope a loop has taken can still be written by it, in some continuation, if and only if the loop's connection is the newest and open; it then is, at the end of what was written |
| Outbound.StaleHandNeverWritten | packages/agent/internal/tunnel/client.go:119-120 | an envelope sent once and taken by a loop whose connection is closed or not the newest is never written, by any loop, in any continuation |
| Outbound.StaleLoopLoses | packages/agent/internal/tunnel/client.go:119-120 | a run from the start in which, after a second connect and with the new loop waiting, the old loop takes the only queued envelope and loses it |
| Pipeline.Agent.Deliver | packages/agent/internal/tunnel/client.go:188-208 | a decoded envelope is the pipeline's receive step, dropped when 128 wait and possibly given up when the client is closing, and keeps requests, responses and executions in the order read |
| Pipeline.Agent.TakeMessage | packages/agent/cmd/agent/main.go:189-196 | the envelope that has waited longest becomes the one in hand, order kept |
| Pipeline.Agent.HandleEnvelope | packages/agent/cmd/agent/main.go:201-259 | another kind or an undecodable request does nothing, a bad signature only answers with failure, a verified request is executed (and armed and registered exactly when it succeeds with safe mode, TTL and payload) and then answered under the same id with the result of its dispatch, if the answer encodes and the queue has room; said of log, timers and queue themselves; order kept throughout |
| Pipeline.Agent.ForwardMetric | packages/agent/cmd/agent/main.go:165-173 | a metric envelope shares the queue without disturbing the order of responses |
| Pipeline.ResponsesStep | packages/agent/cmd/agent/main.go:180-259 | every step keeps response ids, the request in hand and the requests waiting in the order read |
| Pipeline.DispatchesStep | packages/agent/cmd/agent/main.go:180-259 | every step keeps executed, held and waiting verified requests in the order read |
| Pipeline.SuccessesStep | packages/agent/cmd/agent/main.go:242-251 | every step keeps the successes reported in the order of the executions that earned them |
| Pipeline.PipelineOrder | packages/agent/cmd/agent/main.go:153-259 | over every interleaving, reconnections and drops at both channels included, each response written answers a request of its own that was read, with its id, and responses come in the order the requests were read (the embedding is returned) |
| Pipeline.ExecutionOrder | packages/agent/cmd/agent/main.go:178-251 | over every interleaving each execution is of a request of its own whose signature verified, with its id and command, in the order read; and the dispatches in the router's log are exactly the executions, in order and with their results (the embeddings are returned) |
| Pipeline.SuccessIsTrue | packages/agent/cmd/agent/main.go:217-251 | over every interleaving a written response that says success answers an execution that succeeded, each with one of its own (the embedding is returned) |
| Pipeline.ComponentsRun | packages/agent/cmd/agent/main.go:180-259 | inside the pipeline the executor and the write queue keep their own invariants over every interleaving |
| Pipeline.EveryDispatchVerified | packages/agent/cmd/agent/main.go:209-251 | over every interleaving, whatever is dispatched to the router was asked for in a request that was read and whose signature verified: a command as it stands there, each in a request of its own, a rollback as the payload of one dispatched before with success under safe mode and TTL; and no arming rolls back twice |
| Pipeline.RequestAnswered | packages/agent/cmd/agent/main.go:201-259 | it does happen: from the start a request read is answered on the socket under its id, dispatched and answered with success when its signature verifies, not dispatched and answered with failure when it does not |
| Pagination.BuildConditions | apps/api/src/trpc/routers/devices.ts:35-68 | one condition per filter given, in order, and one for the cursor |
| Pagination.MatchingSelected | apps/api/src/trpc/routers/devices.ts:35-64 | the rows listed are exactly those of the organisation that have the status and site, all the tags and the search text, as far as each is given |
| Pagination.MatchingOrdered | apps/api/src/trpc/routers/devices.ts:35-74 | the table with the other rows left out, so in its order |
| Pagination.ConditionsMeanWanted | apps/api/src/trpc/routers/devices.ts:35-68 | a row meets all conditions exactly when it is the organisation's, matches every filter given and is behind the cursor |
| Pagination.ListDevices | apps/api/src/trpc/routers/devices.ts:31-82 | one page is the first rows of the matching listing behind the cursor, with a next cursor exactly when there are more |
| Pagination.PageSplits | apps/api/src/trpc/routers/devices.ts:66-81 | a page of a listing by id is full when there is a next cursor, which is its last id and lies above the old one, and splits what is behind the old cursor: every such row is on the page or above the new cursor |
| Pagination.ListSnapshots | apps/api/src/trpc/routers/config.ts:18-65 | the same cut over the device's snapshots in time order behind an id cursor; not found when the device is not the organisation's |
| Pagination.SnapshotsSelected | apps/api/src/trpc/routers/config.ts:33-36 | the snapshots listed are exactly those of that device and organisation |
| Pagination.SnapshotsOrdered | apps/api/src/trpc/routers/config.ts:33-42 | the table with the other rows left out, so in its order |
| Pagination.WalkUnderChange | apps/api/src/trpc/routers/devices.ts:66-81 | following the cursor through listings that change between pages: ids strictly ascend, every row shown was listed when its page was fetched, and a walk that ends has shown every id listed throughout |
| Pagination.DeviceWalkUnderChange | apps/api/src/trpc/routers/devices.ts:31-82 | the same for the device table under arbitrary inserts, deletes and updates |
| Pagination.StaticWalkExact | apps/api/src/trpc/routers/config.ts:38-64 | over an unchanging listing in any order, the pages joined are the listing if and only if the last row of each page but the last separates the ids before it from those after it |
| Pagination.DevicePaging | apps/api/src/trpc/routers/devices.ts:66-81 | an unchanging device table comes out as its matching rows, in the least number of pages |
| Pagination.PageCountIsCeiling | packages/types/src/devices.ts:50-57 | that number is n / limit rounded up, at least one |
| Pagination.SnapshotPaging | apps/api/src/trpc/routers/config.ts:55-64 | snapshot pages are complete when ids run against time |
| Pagination.SteppedOver | apps/api/src/trpc/routers/config.ts:38-64 | a row that comes after the first page but whose id is not above the cursor is never shown on any page |
| Pagination.SnapshotSkipped | apps/api/src/trpc/routers/config.ts:38-64 | three snapshots, one to a page, of which the middle one is never shown |
| CrashFiles.Save | packages/agent/internal/config/config.go:75-110 | success exactly when every system call succeeds; for every combination of failures and a crash after any system call the path holds an allowed earlier content or the whole new document; after success the new one is visible, after an error the old one still is, and no `.tmp` is left unless its removal failed |
| CrashFiles.WithinSurvives | packages/agent/internal/config/config.go:81-107 | what a crash may leave at the path is one of those contents |
| CrashFiles.RenameWithin | packages/agent/internal/config/config.go:104-107 | renaming a synced file over the path adds only its whole content to what a crash may leave |
| CrashFiles.SaveNotDurable | packages/agent/internal/config/config.go:104-107 | the directory is not synced: after a save that succeeded a crash may leave the new document and may as well bring back what was there before |
| CrashFiles.SyncNeeded | packages/agent/internal/config/config.go:97-101 | without the sync a crash may leave any content at the path |
| CrashFiles.InPlaceUnsafe | packages/agent/internal/config/config.go:81-84 | so it may when the document is written to the path itself instead of `.tmp` |
| CrashFiles.Download | packages/agent/internal/updater/updater.go:187-215 | writes only beside the live binary; success exactly when fetching, opening, copying and syncing succeed, and then the whole body is there and synced |
| CrashFiles.ReplaceBinary | packages/agent/internal/updater/updater.go:116-146 | success exactly when every call succeeds and the digest is the expected one, regardless of case; for every combination of failures and a crash after any system call the state is safe; success shows the verified download, failure the old binary, or nothing with the old one at `.old` when even the restore failed |
| CrashFiles.ToLowerMeans | packages/agent/internal/updater/updater.go:231-234 | folding the expected checksum changes capital letters to small ones and nothing else |
| CrashFiles.Update.SafeSurvives | packages/agent/internal/updater/updater.go:131-146 | after a crash in a safe state the live path holds the old or a verified binary, or nothing and then `.old` holds the old one |
| CrashFiles.Update.BackupStep | packages/agent/internal/updater/updater.go:132-136 | the first rename leaves the old binary at `.old` and the state safe |
| CrashFiles.Update.ReplaceStep | packages/agent/internal/updater/updater.go:138 | the second puts the verified binary live and keeps the state safe |
| CrashFiles.Update.RestoreStep | packages/agent/internal/updater/updater.go:140 | the undo puts the old binary back and keeps the state safe |
| CrashFiles.Update.CleanupStep | packages/agent/internal/updater/updater.go:141-146 | removing `.new`, or `.old` once a binary is live, keeps the state safe and the live file as it is |
| Backoff.BackoffDuration | packages/agent/internal/tunnel/reconnect.go:34-61 | the delay is the jittered min(2^attempt, 60) seconds cut to whole nanoseconds: capping the exponent and both final clamps never change it |
| Backoff.NominalValues | packages/agent/internal/tunnel/reconnect.go:34-46 | one second at first, doubled with each attempt, a minute from the sixth on |
| Backoff.JitterBounds | packages/agent/internal/tunnel/reconnect.go:48-60 | the jittered delay is the nominal one times 0.7 + 0.6u, within 30% of it and within both clamps |
| Backoff.NominalCap | packages/agent/internal/tunnel/reconnect.go:39-46 | capping the exponent at 20 leaves the capped delay as it is |
| Backoff.DelayBounds | packages/agent/internal/tunnel/reconnect.go:48-60 | each delay is within 30% of the nominal one, up to a nanosecond |
| Backoff.ConnectWithRetry | packages/agent/internal/tunnel/reconnect.go:70-104 | connected, stopped by cancellation before an attempt or during a wait, or still trying, as the first attempt that does not fail says; having waited the delay of every failure before it |
| Backoff.TotalNominalClosed | packages/agent/internal/tunnel/reconnect.go:34-61 | nominal delays add up to 2^n - 1 seconds for n up to 6 and 63 + 60(n - 6) beyond |
| Backoff.WaitedBounds | packages/agent/internal/tunnel/reconnect.go:75-103 | the total wait after n failures is within 30% of that, less at most n nanoseconds |
| Uptime.FormatUptime | apps/web/src/app/(dashboard)/devices/[id]/page.tsx:29-39 | a dash for zero, "< 1m" under a minute, otherwise the days, hours and minutes that are not zero, joined by spaces, case by case |
| Uptime.ParseUptime | apps/api/src/lib/routeros-api.ts:192-206 | the sum over the leftmost match of each unit's pattern, nothing when it is zero |
| Uptime.MatchMeans | apps/api/src/lib/routeros-api.ts:195-199 | the pattern search finds the first unit with a digit in front of it and all digits that run up to it |
| Uptime.MatchNothing | apps/api/src/lib/routeros-api.ts:195-199 | and nothing when no unit has a digit in front |
| Uptime.ParseUptimeToSeconds | packages/agent/internal/routeros/metrics.go:180-202 | in 64-bit arithmetic with wrap-around at every operation, the unbounded scan's total wrapped once |
| Uptime.TsReadsCanonical | apps/api/src/lib/routeros-api.ts:192-206 | every text with each unit at most once, weeks included, reads as its total, or as nothing when that is zero |
| Uptime.ParsersAgree | packages/agent/internal/routeros/metrics.go:180-202 | without weeks and with a non-zero total below 2^63 the two parsers agree |
| Uptime.GoMergesWeek | packages/agent/internal/routeros/metrics.go:183-200 | with a week field in front, its digits become leading digits of the next number, by formula, before the total is wrapped to 64 bits; alone it counts nothing |
| Uptime.GoReadsWeekExactly | packages/agent/internal/routeros/metrics.go:180-202 | with the 64-bit wrap-around, for every total below 2^63: Go reads a text with a week field in front right if and only if the number of weeks is zero, whatever follows and also when nothing does; no overflow makes a wrong sum come out right |
| Uptime.UptimeRoundTrip | apps/web/src/app/(dashboard)/devices/[id]/page.tsx:29-39 | printing and parsing gives the whole minutes back if and only if there is at least one minute (Go: or zero seconds), below 2^63 seconds |
| Snmp.RequestReadable | apps/api/src/lib/snmp-test.ts:15-48 | an independent reader of short-form TLVs (ITU-T X.690 section 8.1.3, PDU of RFC 3416 section 3) decodes the request to exactly the intended GetRequest if and only if the community has at most 92 bytes |
| Snmp.RequestBytes | apps/api/src/lib/snmp-test.ts:15-48 | the request byte by byte, its length bytes taken modulo 256 |
| Snmp.ParseResponse | apps/api/src/lib/snmp-test.ts:50-64 | the loop returns the text behind the first byte 4 whose length byte is not zero and fits, behind the first occurrence of the OID, and nothing when there is none |
| Snmp.ParseMeans | apps/api/src/lib/snmp-test.ts:50-64 | the same of the specification function: a text is what stands at that place, and nothing means there is no such place |
| Snmp.ResponseParsed | apps/api/src/lib/snmp-test.ts:50-64 | every short-form single-varbind response gives its value back when community and length byte do not contain the OID |
| Snmp.ScanReachesValue | apps/api/src/lib/snmp-test.ts:52-61 | for every such response: the scan stops at the value, and returns it, if and only if the community with its length byte does not contain the OID, or nothing between its first occurrence there and the value looks like a string |
| Snmp.LengthByteMistaken | apps/api/src/lib/snmp-test.ts:52 | a 43-byte community that carries the rest of the OID and a one-byte string has that string returned, whatever the value |
| Snmp.DecoyReturned | apps/api/src/lib/snmp-test.ts:52-61 | such a response exists, with a community that does not contain the OID and a value that is another text |

## Left out

How the model reads the source:

- Bytes are integers; shifts and masks are written as divisions and remainders. Words are byte
  sequences: UTF-8 decoding on either side is not part of this model.
- Sockets, WebSockets, HTTP, deadlines, pings, logging, MessagePack, JSON, ECDSA and SHA-256 are
  steps that succeed or fail, or uninterpreted functions. `os.MkdirAll` only succeeds or fails.
- JavaScript records are maps; keys such as `__proto__` are not treated specially.
- A crash may undo any number of the latest renames and removals, but not reorder them; contents
  that were synced stay. The running binary's own name is durable when an update starts.
- Device and snapshot ids are numbers in their order; `ILIKE` matches and tag arrays are sets.

What the model does not have:

- PushDecoder.DecodeWords: stops at a length of 2^31 or more, where the source goes on from an offset that in general does not advance and need not return.
- PullClient.PullIsPrefixOfPush: inherits that stop on the push side.
- PollSession.Session.Handle: integers are exact where JavaScript rounds beyond 2^53, minus zero is zero, and only ASCII blanks are skipped in front of a number.
- Uptime.ParseUptime: numbers are exact where JavaScript rounds beyond 2^53.
- Uptime.FormatUptime: takes whole non-negative seconds; a missing value prints as zero does, and fractions and negative numbers are not modelled.
- Snmp.ResponseParsed: one direction, because a community that contains the OID can still lead the scan on to the value, or to equal bytes elsewhere; `Snmp.ScanReachesValue` has the exact condition for reaching it.
- Backoff.ConnectWithRetry: goes through a finite list of attempts and reports that it is still trying at its end.
- Backoff.BackoffDuration: `math.Pow` and the float product are exact here.
- CrashFiles.ReplaceBinary: begins with the download address and checksum at hand and ends before the re-exec; version comparison is left out.
- Pipeline.PipelineOrder: with several connections, "read" is the order in which their read loops offer envelopes to the channel; timers are created and registered by steps of their own, which allows more interleavings than the dispatcher has.
- PullClient.BrokenSendReadable: requests of short ASCII words only; which cuts of longer or binary words leave the next request readable is open beyond `PullClient.LoneLengthByteHarmless`.
- ReplyLoop.RepliesPair: is about the stream the router answers with; how a router answers two requests that a broken write has joined is not part of this model.
- ReplyLoop.ExecuteInTurn: nothing else uses the client meanwhile. The agent's client has no mutex and is shared by the collector, the dispatcher and timer callbacks; concurrent use is not part of this model.
- `Connect` and `Login` of the RouterOS client, and the wording of errors, are not modelled.
- `ConfirmCommand` has no caller in the agent's main program; the model lets it happen at any time.
- `MaintainConnection`: nothing calls it, and a dropped connection does not close the channel it waits on.
- Long-form lengths in SNMP responses.
- Database schema, authorisation, billing, audit, alerts, the snapshot diff, status transitions, and the web pages except the uptime printer.
