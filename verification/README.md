# helmdeck control plane: verified model

helmdeck is a Go control plane that drives browsers, language models and media tools for agents. This
project models the parts of it that hold state machines, encodings and optimised algorithms, in Dafny
4.11, and proves what they are for. `dafny verify dfyconfig.toml` checks everything.

| files | what they model |
|---|---|
| `CdpCache` | the shared cache of browser clients, as atomic steps of any number of `Get` and `Evict` callers |
| `Jobs`, `JobProtocol` | the asynchronous job registry: its objects, and all threads interleaving at the level of single lock operations |
| `Memory`, `MemoryRefinement` | the memory store's contract as a `(namespace, key) -> entry` table, and the in-process store over flattened keys |
| `Like`, `Timestamps`, `Sqlite` | the SQL store: `LIKE` patterns, RFC 3339 texts, and how far it tracks the same table |
| `Json`, `Catalog`, `Compact`, `Rank`, `Select` | fitting the tool catalog into a model's prompt budget |
| `Budgets` | which budget a model gets |
| `Reasoning`, `StripProperties`, `StripSeams`, `StripLetters` | removing reasoning blocks from model output, in any letter case, and when a second application finds more |
| `Framing` | JSON-RPC frames through bridge, WebSocket, pipe, scanner and SSE channel, and whole sessions of them |
| `ToolTurns`, `DataUrl` | tool calls, results and images through the OpenAI, Anthropic and Gemini adapters |
| `ShellQuote` | quoted command lines under a POSIX word reader (sections 2.2.1 to 2.2.3 and 2.3 of the POSIX.1-2017 Shell Command Language) |
| `PackHash` | the content hash of a marketplace pack and the trust gate |
| `Retry`, `Fallback` | HTTP retries with back-off under the chain of fallback models |
| `MyPlans` | the plan-history projection |
| `Text`, `Orders`, `Lists` | strings, sorting and order independence, append loops and map walks |

Conventions. Methods follow loops and in-place updates of the source and are proved equal to specification
functions; lemmas say what those functions mean. A walk over a Go map is a loop that picks any remaining
key, or a parameter that permutes the keys. The network, clocks, random draws, the pack engine and JSON text
are parameters. Strings are sequences of code points; Go's byte order on UTF-8 is their order.

Places where the code does not do what its comments or documentation say. The model follows the code.

- `StripReasoningTokens` is documented to return text without blocks verbatim but for trimming. It does so
  exactly when no two lines of the trimmed text in a row are blank; otherwise blank lines go
  (`StripProperties.VerbatimIffNoBlankPair`, `StripProperties.VerbatimExample`).
- It is documented to be idempotent on text without blocks, and is (`StripProperties.CleanInput`). On any text
  a second application changes nothing exactly when no opening and later closing marker is left of which one
  was put together from pieces on both sides of a removed block (`StripSeams.IdempotentIffNothingJoined`,
  `StripProperties.NotIdempotentExample`). A caller can check beforehand that no beginning of a marker is cut
  short by an opening bracket (`StripSeams.IdempotentUnlessInterrupted`).
- It is documented to leave at most a single newline where a block was. It leaves at most one blank line
  (`StripProperties.StripLeavesNoBlankPair`).
- `Evict` is documented to close and remove a session's client. The session comes back without a new lookup
  exactly when a `Get` of it is still dialling or holds its client (`CdpCache.ComesBackIffInFlight`), which
  happens (`CdpCache.EvictIsUndoneInAReachableState`).
- `DeleteExpired` compares times as texts. It can delete a row up to a second early
  (`Timestamps.TextComparisonRightIffNoClash`, `Timestamps.EarlyDeletion`).
- `List` does not escape `%` and `_`; it returns too much exactly for prefixes that contain one
  (`Like.ListPatternIsExactIffNoWildcard`).
- `DeletePrefix` and `List` are documented to match keys by prefix. The database is opened without
  `PRAGMA case_sensitive_like`, so that `LIKE` folds ASCII letters. They match by prefix exactly when no key of the namespace
  is matched off the prefix (`Sqlite.DeletePrefixExactIff`, `Sqlite.ListExactIff`, `Sqlite.FoldingDeletesMore`).
- `Put` on an expired key keeps the old `CreatedAt`, exactly unless a `Get` of it, a `List` of its namespace
  or a `DeleteExpired` met the row expired before (`MemoryRefinement.CreatedAtShowsPurging`).
- Flattened keys are documented to keep namespaces apart. They do exactly for namespaces without NUL
  (`InMemory.CollidesIffNul`, `InMemory.CollisionLeaks`).
- Schema slimming is not idempotent: a second pass loses the field names (`Compact.SlimmingAgain`).
- The pack hash is documented as taken over lexically sorted paths. The walk puts a directory before a
  sibling whose name extends it with a character below the slash (`PackHash.WalkIsLexicalIff`).
- Gemini call ids are documented to get a suffix for uniqueness. They do not: two calls of one function
  share an id (`ToolTurns.IdsDistinguishFunctionsOnly`).
- `backoffDelay` is documented as drawing below the ceiling; the ceiling itself can be drawn.

## Model

| member | source | states |
|---|---|---|
| CdpCache.EveryClientInOnePlace | internal/api/browser.go:60-120 | in every interleaving of any number of Get and Evict calls each client ever dialled is in exactly one place: one in-flight Get, the cache under one session, one Evict, or closed |
| CdpCache.NoLeakNoDoubleClose | internal/api/browser.go:60-120 | no client is closed twice, and when all callers are done every client is either cached or closed |
| CdpCache.ReturnedClientIsCachedAndOpen | internal/api/browser.go:60-109 | a client handed out is at that moment the cached one of its session and not closed |
| CdpCache.SameClientBetweenEvictions | internal/api/browser.go:60-120 | two Gets of a session with no Evict of it between their returns hand out the same client, whatever runs between |
| CdpCache.EvictIsFinalWhenNoGetInFlight | internal/api/browser.go:112-120 | an evicted session stays out of the cache when no Get of it was in flight and none starts |
| CdpCache.EvictUndoneByGetInFlight | internal/api/browser.go:60-120 | a Get that is dialling or holds its client puts an evicted session back without any new lookup, with that Get's client |
| CdpCache.ComesBackIffInFlight | internal/api/browser.go:60-120 | a session out of the cache comes back in some run without a new lookup of it exactly when a Get of it is in flight |
| CdpCache.EvictIsUndoneInAReachableState | internal/api/browser.go:60-120 | a run from the start through two racing Gets and an Evict, after which the session comes back |
| CdpCache.Factory.LookUp | internal/api/browser.go:60-69 | the first critical section: a hit is the cached client, a miss starts dialling; the cache is unchanged |
| CdpCache.Factory.Dial | internal/api/browser.go:71-98 | outside the lock: a client is created and held, or the Get ends with an error |
| CdpCache.Factory.InsertOrClose | internal/api/browser.go:100-110 | the second critical section: the loser of a race closes its own client and returns the cached one; the one returned is cached and open |
| CdpCache.Factory.Take | internal/api/browser.go:112-116 | Evict's critical section removes the session and holds its client |
| CdpCache.Factory.Close | internal/api/browser.go:117-120 | the client Evict held is closed once |
| Jobs.AsyncJob.ReportProgress | internal/mcp/jobs.go:226-233 | progress is overwritten, the message only by a non-empty one, and nothing else changes |
| Jobs.AsyncJob.Finish | internal/mcp/jobs.go:248-258 | a success stores the engine's result, completed at 100 percent; a failure stores its error and leaves progress and result alone; both set the end time, and all other fields stay |
| Jobs.JobRegistry.Put | internal/mcp/jobs.go:140-144 | the job is registered under its id and nothing else changes |
| Jobs.JobRegistry.Sweep | internal/mcp/jobs.go:176-187 | in any walking order the entries left are exactly those not over or over for at most an hour |
| Jobs.JobRegistry.Result | internal/mcp/jobs.go:434-454 | pack.result answers from the registry and removes exactly a completed job |
| Jobs.FireWebhook | internal/mcp/webhook.go:75-120 | one, two or three deliveries: network errors and statuses other than 2xx and 4xx are tried again, as long as there are tries left |
| Jobs.TaskIdResolves | internal/mcp/jobs.go:485-492 | the prefixed task id and the bare hex id both resolve to the job, and only that prefix is taken off |
| JobProtocol.StepKeepsInv | internal/mcp/jobs.go:140-267 | every lock-level step of every thread keeps the protocol invariant |
| JobProtocol.TerminalJobNeverChanges | internal/mcp/jobs.go:213-267 | over every run a job that is over keeps state, result, error, end time, progress and message |
| JobProtocol.JobAfterStep | internal/mcp/jobs.go:213-258 | a job is born working with its caller's pack and webhook wish at the clock of its start, keeps those, is touched by progress reports of its own worker alone, and ends at the clock with the outcome of its engine |
| JobProtocol.JobsAndRepliesCoherent | internal/mcp/jobs.go:97-115 | in every reachable state every job and every answer ever given has its end time, result and error exactly as its state demands, and two terminal answers about one job are equal |
| JobProtocol.AnswersAreTheEngines | internal/mcp/jobs.go:235-267 | over every run the engine returns at most once for a job, and the job once over, every answer that shows it over and every webhook about it have exactly the result or the error it returned |
| JobProtocol.WebhookDiscipline | internal/mcp/webhook.go:75-156 | webhooks go out only for jobs that asked for one and are over, at most three times, with the final state and its result or error, and a further one only after a network error or a status other than 2xx and 4xx |
| JobProtocol.DeliveryGoesOn | internal/mcp/webhook.go:86-120 | after a delivery the worker tries again exactly when that is called for and fewer than three were made |
| JobProtocol.SweepRemovesExactlyTheExpired | internal/mcp/jobs.go:176-187 | a sweep with workers and readers running all the while removes exactly the jobs that had been over for more than an hour when it took the registry, and no working one |
| JobProtocol.GoneStaysGone | internal/mcp/jobs.go:146-157 | a job that is over and has left the registry is never found again |
| JobProtocol.NotFoundOnlyOfUnregistered | internal/mcp/jobs.go:146-150 | over every run each answer that a job is unknown was given to a lookup at a moment at which its id was not registered |
| JobProtocol.RegisteredIsRead | internal/mcp/jobs.go:425-454 | a lookup of a registered id goes on to read the job |
| JobProtocol.ReadAnswersTheJob | internal/mcp/jobs.go:425-454 | the reader answers with the job as it is at that moment, or, for the result of a completed one, goes on to drop it |
| JobProtocol.CompletedResultDrops | internal/mcp/jobs.go:434-454 | pack.result answers a completed job with its final state in the step that removes it |
| JobProtocol.WorkerGoesOn | internal/mcp/jobs.go:219-267 | a worker starts once its job is registered, returns to the engine after a report, and at the end goes on to the webhook exactly if its caller asked for one |
| JobProtocol.ResultIsFetched | internal/mcp/jobs.go:434-454 | a run from the start in which a job is started, finishes, and its result is fetched and dropped |
| JobProtocol.NoDeadlock | internal/mcp/jobs.go:176-187 | from every thread at most two waits lead to a thread that can take a step: the order registry before job cannot deadlock |
| JobProtocol.HolderHolds | internal/mcp/jobs.go:176-187 | whoever holds a lock that another thread waits for waits itself only for a job lock, and only as a sweeper |
| InMemory.FlattenedPrefix | internal/memory/memory.go:157 | for NUL-free namespaces prefixes of flattened keys are prefixes of keys inside one namespace |
| InMemory.MapKeyInjective | internal/memory/memory.go:157 | for NUL-free namespaces a flattened key has one reading |
| InMemory.NulCollides | internal/memory/memory.go:157 | for every namespace with a NUL, the pair cut at the first NUL is another one with the same flattened key, and its namespace has no NUL |
| InMemory.CollidesIffNul | internal/memory/memory.go:157 | a row shares its flattened key with another pair of a NUL-free namespace exactly when its namespace has a NUL |
| InMemory.CollisionLeaks | internal/memory/memory.go:271-286 | such a row is read under the other pair, and a DeletePrefix of the other namespace removes it |
| InMemory.InMemoryStore.Put | internal/memory/memory.go:159-187 | the row is written under the flattened key with the caller's fields, the clock as update time and an expiry for a positive lifetime; the creation time of a row under the same flattened key is kept, expired or not |
| InMemory.InMemoryStore.Get | internal/memory/memory.go:189-201 | a row is answered strictly before its expiry; later it is not, and is removed |
| InMemory.InMemoryStore.List | internal/memory/memory.go:203-222 | exactly the live entries of the namespace with the prefix, by falling update time; the namespace's expired rows are removed and no others |
| InMemory.InMemoryStore.Delete | internal/memory/memory.go:224-229 | exactly that row goes |
| InMemory.InMemoryStore.DeletePrefix | internal/memory/memory.go:271-286 | exactly the rows whose flattened key has the flattened prefix go, and the count is right |
| InMemory.InMemoryStore.DeleteExpired | internal/memory/memory.go:303-314 | exactly the expired rows go, and the count is right |
| InMemory.InMemoryStore.ListNamespaces | internal/memory/memory.go:231-256 | each namespace with rows appears once with its row count, busiest first, equal counts by name |
| InMemory.SortNamespaceCounts | internal/memory/memory.go:258-269 | the in-place insertion sort yields a sorted permutation |
| InMemory.CountsAreRowsOfNamespace | internal/memory/memory.go:231-256 | for NUL-free namespaces the counts are the rows of the namespace; the empty namespace is not listed |
| MemoryRefinement.StepRefines | internal/memory/memory.go:159-314 | every operation of the store keeps it a purged copy of the never-purged table |
| MemoryRefinement.InMemoryStoreIsTheTable | internal/memory/memory.go:159-314 | over every run with NUL-free namespaces and a clock that never goes back, every Get and List answers as a table that is never purged and filters by expiry (all fields but CreatedAt) |
| MemoryRefinement.DeletePrefixIsExact | internal/memory/memory.go:271-286 | DeletePrefix removes exactly the rows of that namespace whose key has the prefix, and none of another namespace |
| MemoryRefinement.CreatedAtShowsPurging | internal/memory/memory.go:159-314 | over every run with NUL-free namespaces and a forward clock, a row's CreatedAt is the table's exactly when no Get of the key, List of the namespace or DeleteExpired met the row expired since the table's was set |
| MemoryRefinement.CreatedAtOfRewrittenKey | internal/memory/memory.go:165-175 | a rewrite after a Get of the key, a List of its namespace or a DeleteExpired keeps the first CreatedAt exactly when the row was not expired then |
| Like.EscapedPatternIsPrefix | internal/memory/sqlite.go:206-225 | the escaped pattern matches a key exactly when the key starts with the prefix, for every prefix and every letter comparison |
| Like.ListPatternIsSuperset | internal/memory/sqlite.go:140-160 | the unescaped pattern never misses a key with the prefix |
| Like.ListPatternIsExactIffNoWildcard | internal/memory/sqlite.go:317-322 | it matches nothing else exactly when the prefix has no wildcard |
| Timestamps.SecondBeforeIsTimeOrder | internal/memory/sqlite.go:82-85 | comparing calendar fields is comparing positions on the time line |
| Timestamps.YearsInClosedForm | internal/memory/sqlite.go:82-85 | the years of the time line are Gregorian: 365 days, one more every fourth year but for centuries that 400 does not divide |
| Timestamps.MonthTable | internal/memory/sqlite.go:82-85 | the days before each month, in common and leap years |
| Timestamps.TextLayout | internal/memory/sqlite.go:82-85 | the stored text has the layout of section 5.6 of RFC 3339: separators and fields in their places, and a fraction without trailing zeros exactly when it is not zero |
| Timestamps.FromNanosCorrect | internal/memory/sqlite.go:82-85 | every nanosecond count in range is the position of exactly the calendar date computed for it |
| Timestamps.ParseFormat | internal/memory/sqlite.go:261-288 | parsing an RFC3339Nano text gives back the time it was printed from |
| Timestamps.TextOrder | internal/memory/sqlite.go:244-253 | texts are in time order unless the times clash (same second, one zero-trimmed fraction a proper prefix of the other), and then in the opposite order; section 5.1 of RFC 3339 asks for equal digits |
| Timestamps.TextComparisonRightIffNoClash | internal/memory/sqlite.go:244-253 | DeleteExpired's comparison agrees with time exactly when the two times do not clash |
| Timestamps.TextComparisonWithinASecond | internal/memory/sqlite.go:244-253 | rows expired for a second or more always go, rows with a second or more to live never |
| Timestamps.EarlyDeletion | internal/memory/sqlite.go:244-253 | a concrete row deleted before its time |
| Sqlite.Rfc3339NanoIsFaithful | internal/memory/sqlite.go:82-85 | the text form loses nothing and misorders only inside a second |
| Sqlite.SqliteStore.Put | internal/memory/sqlite.go:54-118 | the upsert replaces everything but created_at; the returned entry has the row's creation time read back, or the clock's where that does not parse, and is the row as a reader sees it where texts are faithful |
| Sqlite.SqliteStore.Get | internal/memory/sqlite.go:122-138 | the live entry is answered, an expired row is deleted |
| Sqlite.SqliteStore.DeletePrefix | internal/memory/sqlite.go:206-225 | exactly the namespace's rows whose key starts with the prefix under the database's letter comparison go, and the count is right |
| Sqlite.SqliteStore.DeleteExpired | internal/memory/sqlite.go:244-253 | rows without expiry stay and kept rows are unchanged; on RFC 3339 texts a row goes exactly when it has expired, or exactly when it has not if its expiry and the clock clash; so a row expired for a second or more goes and one with a second or more to live stays |
| Sqlite.ExpiredGo | internal/memory/sqlite.go:244-253 | the same of the DELETE statement |
| Sqlite.DeletePrefixMeans | internal/memory/sqlite.go:206-225 | under any letter comparison the DELETE with the escaped pattern removes exactly the keys that start with the prefix under it |
| Sqlite.DeletePrefixExactIff | internal/memory/sqlite.go:206-225 | DeletePrefix does what the table does exactly when no key of the namespace starts with the prefix under the letter comparison without starting with it |
| Sqlite.ListExactIff | internal/memory/sqlite.go:140-160 | List reports the live entries under the prefix exactly when the pattern matches no other live key of the namespace |
| Sqlite.ExactLettersNeverStray | internal/memory/sqlite.go:140-225 | with case-sensitive LIKE neither operation matches off the prefix, as long as a listed prefix has no wildcard |
| Sqlite.AsciiFoldMeans | internal/store/sqlite.go:44 | the database's letter comparison takes a capital and its small letter for equal, and no other two characters |
| Sqlite.FoldingHarmlessWithoutCapitals | internal/store/sqlite.go:44 | under ASCII case folding DeletePrefix does not match off a prefix without capitals in a namespace whose keys have none |
| Sqlite.FoldingDeletesMore | internal/store/sqlite.go:44 | under ASCII case folding, the setting the database is opened with, a key that does not start with the prefix is deleted |
| Sqlite.StepTracks | internal/memory/sqlite.go:54-253 | under any letter comparison every operation that does not match off its prefix keeps the SQL rows equal to the table's up to rows within a second of their expiry |
| Sqlite.SqliteStoreTracksTheTable | internal/memory/sqlite.go:54-253 | over every run on the case-folding database, as long as no DeletePrefix or List matches off its prefix, every Get and List answers as the table, up to entries in the last second of their life, and exactly without DeleteExpired |
| Sqlite.CloseWithoutSlackIsEqual | internal/memory/sqlite.go:122-160 | an answer that is close with no slack is the table's own |
| Sqlite.ListOrderWithinASecond | internal/memory/sqlite.go:140-160 | an entry listed before another is older by less than a second at most |
| Reasoning.FirstBlock | internal/llmcontext/reasoning.go:45-52 | the leftmost block of a pattern, the shortest one there |
| Reasoning.OutsideIsRemove | internal/llmcontext/reasoning.go:60-72 | replacing all matches gives the one text that lies outside the successive leftmost shortest blocks |
| Reasoning.UnclosedSurvives | internal/llmcontext/reasoning.go:60-72 | without a closing tag nothing is removed |
| Reasoning.CollapseBlankLines | internal/llmcontext/reasoning.go:88-106 | the builder loop yields the text with runs of blank lines reduced to one |
| Reasoning.CollapseIsKept | internal/llmcontext/reasoning.go:88-106 | collapsing a trimmed text keeps its lines in order but a blank one after a blank one |
| Reasoning.CollapseStable | internal/llmcontext/reasoning.go:88-106 | collapsing a trimmed text leaves it trimmed and collapsing again changes nothing |
| Reasoning.StripReasoningTokens | internal/llmcontext/reasoning.go:60-80 | the passes, the trim and the collapse, in that order, equal the specified result |
| StripProperties.StripIsSubsequence | internal/llmcontext/reasoning.go:60-80 | the result is a subsequence of the input |
| StripProperties.HasAnyIsHasSomeBlock | internal/llmcontext/reasoning.go:113-123 | HasReasoningTokens is true exactly when some pattern has a block |
| StripProperties.CleanInput | internal/llmcontext/reasoning.go:60-80 | text without a block is only trimmed and collapsed, still has no block, and a second application changes nothing |
| StripProperties.VerbatimIffNoBlankPair | internal/llmcontext/reasoning.go:58-80 | text without a block comes back as its trimmed self exactly when no two lines of that in a row are blank |
| StripProperties.VerbatimExample | internal/llmcontext/reasoning.go:58-80 | a concrete text without a block that loses a blank line |
| StripProperties.StripLeavesNoBlankPair | internal/llmcontext/reasoning.go:53-80 | no two lines of the result in a row are blank |
| StripProperties.CollapseMakesNoBlock | internal/llmcontext/reasoning.go:88-106 | collapsing makes no block appear |
| StripProperties.StripShrinks | internal/llmcontext/reasoning.go:60-80 | where there is a block the result is shorter |
| StripProperties.IdempotentIffResultClean | internal/llmcontext/reasoning.go:60-80 | a second application changes nothing exactly when HasReasoningTokens is false of the first result |
| StripProperties.NestedFragments | internal/llmcontext/reasoning.go:60-80 | a family of inputs on which removing one block joins the pieces of another |
| StripProperties.NotIdempotentExample | internal/llmcontext/reasoning.go:60-80 | one reply on which a second application removes more |
| StripSeams.KeptByIsRemove | internal/llmcontext/reasoning.go:60-72 | what a pass leaves comes in order from the positions outside its blocks |
| StripSeams.NoBlockAtKept | internal/llmcontext/reasoning.go:60-72 | no block of the pattern starts at a position that its pass keeps |
| StripSeams.BlockIsTorn | internal/llmcontext/reasoning.go:60-72 | a block in what all passes leave has a marker whose characters a removed block kept apart |
| StripSeams.BlockIffAfterNormalizing | internal/llmcontext/reasoning.go:73-80 | trimming and collapsing neither make nor lose a block |
| StripSeams.IdempotentIffNothingJoined | internal/llmcontext/reasoning.go:60-80 | a second application changes nothing exactly when no opening and later closing marker is left of which one was put together across a removed block |
| StripSeams.IdempotentWhenSeamsFollowSpace | internal/llmcontext/reasoning.go:60-80 | a second application changes nothing when every removed block stood at the start of what is left or right behind white space in it |
| StripSeams.IdempotentUnlessInterrupted | internal/llmcontext/reasoning.go:60-80 | a second application changes nothing when in the input no beginning of a marker is followed by an opening bracket |
| StripLetters.FoldMeans | internal/llmcontext/reasoning.go:45-49 | matching takes for equal the two cases of an ASCII letter, the Kelvin sign and k, long s and s, and no other two characters |
| StripLetters.LiteralMeans | internal/llmcontext/reasoning.go:45-49 | a marker literal stands where the characters are its own up to that |
| StripLetters.MarkersSpelledOut | internal/llmcontext/reasoning.go:45-49 | the literals of the three patterns |
| StripLetters.FirstBlockExchanged | internal/llmcontext/reasoning.go:45-49 | exchanging such characters moves no block, as long as the word boundaries behind opening literals stay |
| StripLetters.RemoveExchanged | internal/llmcontext/reasoning.go:60-72 | nor does it change what a pass takes out |
| StripLetters.CaseDoesNotMatter | internal/llmcontext/reasoning.go:60-80 | exchanging upper and lower case anywhere in a reply changes neither whether it has reasoning blocks nor which parts of it stay |
| StripLetters.WrittenBlockGoes | internal/llmcontext/reasoning.go:45-72 | an opening marker in any letter case, with attributes if it is a tag, a text without the closing bracket's character and a closing marker in any letter case are taken out whole |
| StripLetters.ThoughtGoes | internal/llmcontext/reasoning.go:60-80 | a reply that starts with a thought in tags of any letter case comes back without it |
| StripLetters.KelvinOpens | internal/llmcontext/reasoning.go:45-49 | a tag literal that ends in a Kelvin sign opens exactly in front of a word character |
| Framing.LineFlusher.Write | internal/api/mcp_server.go:138-165 | after any write the messages sent are the complete lines so far and the buffer is what follows the last newline; a failed send loses nothing sent |
| Framing.ChunkingDoesNotMatter | internal/api/mcp_server.go:138-165 | for every way of chunking a stream into writes the same messages are sent, and the tail has no newline |
| Framing.CompleteIsStream | internal/api/mcp_server.go:138-165 | cutting a stream into lines loses no byte |
| Framing.Uplink | internal/bridge/bridge.go:146-173 | the stdin pump sends one message per scanned non-empty line and reports a line over the limit |
| Framing.Pump | internal/bridge/bridge.go:175-211 | each message is followed by exactly one newline on the output |
| Framing.TerminatedMeans | internal/bridge/bridge.go:196-205 | a message is printed with one newline at its end, its own or a new one |
| Framing.RequestsArriveUnchanged | internal/bridge/bridge.go:146-173 | newline-terminated frames on stdin reach the server's loop unchanged exactly when none is empty, none ends in a carriage return and each fits the buffer |
| Framing.ResponsesArriveUnchanged | internal/api/mcp_server.go:97-165 | what the server writes is printed byte for byte, however it was chunked |
| Framing.ChanWriter.Write | internal/api/mcp_sse.go:257-274 | one channel message per non-empty write, without its trailing newline, and the whole length is reported |
| Framing.ChannelCarriesTheFrames | internal/api/mcp_sse.go:257-274 | on the server's own writes the SSE channel and the WebSocket flusher carry the same frames in order |
| Framing.Serve | internal/mcp/server.go:225-281 | the server's writes are one per reply frame, for the scanned lines in order |
| Framing.LinkStepKeepsInv | internal/bridge/bridge.go:127-211 | every step of the bridge's two pumps, the server and the connection keeps what was printed a beginning of the replies to the lines handled |
| Framing.SessionEndToEnd | internal/bridge/bridge.go:127-211 | in every interleaving what a client that writes sound frames has read is a beginning of the replies, one per line and in order; all of them whenever nothing is left to do on an open connection, which is so after a bounded number of steps |
| Framing.EofBeforeReplies | internal/bridge/bridge.go:163-172 | the end of stdin can close the connection before any reply is printed |
| ShellQuote.QuoteIsOneWord | internal/api/desktop.go:708-710 | in either spelling a quoted argument reads as one word with exactly the argument's text |
| ShellQuote.QuotedArgumentsRoundTrip | internal/avenc/avenc.go:175-177 | quoting and joining is undone by the shell's reading of words exactly when no argument has a NUL |
| ShellQuote.JoinedIsWords | internal/marketplace/install.go:670-672 | the same in front of any further text |
| ShellQuote.LaunchLine | internal/api/desktop.go:334-341 | the handler's loop builds head, quoted command and arguments, tail |
| ShellQuote.LaunchRunsExactlyTheCommand | internal/api/desktop.go:334-341 | whatever the request holds, the shell sees nohup, setsid, those words one for one, and only the handler's own redirections after them |
| DataUrl.ImageUrlToAnthropicSource | internal/gateway/anthropic.go:344-368 | the scanning loop reads media type and payload, or forwards the URL |
| DataUrl.DecodeDataUrl | internal/gateway/gemini.go:353-374 | the scanning loop reads the same but refuses an empty media type |
| DataUrl.ReadMeans | internal/gateway/anthropic.go:344-368 | a URL reads as media type and payload exactly when it is data, colon, the media type, a semicolon, anything without a comma, a comma and the payload, the media type having neither |
| DataUrl.ReadersAgreeIffMediaType | internal/gateway/gemini.go:353-374 | the two readers differ exactly on URLs with an empty media type |
| DataUrl.ReadersUndoPrint | internal/gateway/anthropic.go:344-368 | both give back what a URL was printed from exactly when the media type has no separator (and, for one, is not empty); section 3 of RFC 2397 |
| Json.SizeIsLength | internal/llmcontext/compact.go:124-134 | the size of a value is the number of bytes that are written for it: escapes, UTF-8, brackets, colons and commas |
| Json.Utf8Means | internal/llmcontext/compact.go:124-134 | a character goes out as the UTF-8 bytes of section 3 of RFC 3629: the lead byte tells their number, and their bits together are the code point |
| Catalog.MetadataFields | internal/packs/packs.go:334-362 | a pack's metadata is written under its five keys, each left out when empty |
| Catalog.PackFields | internal/llmcontext/catalog.go:29-33 | a pack is written under three keys, the description left out when empty |
| Catalog.PipelineFields | internal/llmcontext/catalog.go:41-46 | a pipeline is written under four keys, description and metadata left out when empty |
| Catalog.GuideFields | internal/llmcontext/catalog.go:19-22 | a catalog is written as its packs and its pipelines in order, and marshals exactly when no pipeline's metadata is broken text |
| Catalog.FirstSentence | internal/llmcontext/compact.go:273-289 | the text up to the first terminator before a blank, a newline or the end, or all of it |
| Catalog.SentenceEnds | internal/llmcontext/compact.go:273-289 | a sentence ends at a full stop, question mark or exclamation mark before a blank, a new line or the end |
| Catalog.SlimStepKeeps | internal/llmcontext/compact.go:185-205 | of a step's fields exactly id, name and pack survive, with their values |
| Catalog.SlimStepsMean | internal/llmcontext/compact.go:174-213 | slimming steps changes the step list alone, and of that the object steps |
| Catalog.NamesOfMeans | internal/llmcontext/compact.go:236-247 | a schema list becomes the names of the fields it describes, in order |
| Catalog.SlimSchemasMean | internal/llmcontext/compact.go:220-266 | slimming schemas changes inputs and outputs alone: a list becomes the names it describes, an object its keys, anything else stays |
| Catalog.StepShrinks | internal/llmcontext/compact.go:60-115 | no step of the ladder makes the marshalled catalog longer |
| Catalog.LadderMarshals | internal/llmcontext/compact.go:124-134 | no step changes whether the catalog can be marshalled |
| Catalog.SlimStepsShrinks | internal/llmcontext/compact.go:174-213 | slimming steps does not make the metadata longer |
| Catalog.SlimSchemasShrinks | internal/llmcontext/compact.go:220-266 | slimming schemas does not make the metadata longer |
| Compact.ShortestThatFits | internal/llmcontext/compact.go:60-115 | the applied steps are the shortest beginning of the ladder after which the catalog fits, or all six |
| Compact.MarkerMeansOverBudget | internal/llmcontext/compact.go:116-122 | the marker is recorded exactly when the catalog marshals and all six steps leave it too long; else the result fits |
| Compact.CompactedShrinks | internal/llmcontext/compact.go:46-122 | the recorded size after is at most the size before |
| Compact.LadderKeeps | internal/llmcontext/compact.go:60-115 | names, ids, order, accepts, produces and every pipeline metadata field but steps, inputs and outputs, supersedes among them, survive any number of steps |
| Compact.LadderSpelledOut | internal/llmcontext/compact.go:60-115 | after the first k steps exactly these are gone, in this order: keywords, typical use, limitations, step bodies, schemas, all but the first sentence of descriptions; nothing else changes |
| Compact.RecordSpelledOut | internal/llmcontext/compact.go:46-122 | the record has the sizes before and after, the names of the applied steps in order, and last the marker with both numbers if the result is still too long |
| Compact.KeywordsGone | internal/llmcontext/compact.go:61-66 | after the first step no pack has intent keywords |
| Compact.RecordIgnoresWalk | internal/llmcontext/compact.go:245-255 | the Trim record does not depend on the order in which maps are walked |
| Compact.SlimmingAgain | internal/llmcontext/compact.go:232-256 | slimming a schema twice changes nothing exactly for a value that is neither list nor object, a list that names no field, and an object without fields |
| Compact.SlimPipelineSteps | internal/llmcontext/compact.go:174-213 | the loop over decoded steps keeps id, name and pack of each object step and leaves other steps |
| Compact.SlimPipelineSchemas | internal/llmcontext/compact.go:220-266 | the loop over the two fields replaces lists and objects by their field names, objects in the order of the walk |
| Compact.CompactCatalog | internal/llmcontext/compact.go:46-172 | the caller's arrays are only read, the result stands in new ones and equals the specified catalog and record; without a cap the catalog passes through |
| Rank.TokensAreRuns | internal/llmcontext/rank.go:245-275 | the tokens are the longest pieces of ASCII letters and digits in lower case, without stop words and single characters |
| Rank.TokensIgnoreCase | internal/llmcontext/rank.go:245-275 | letter case does not matter to the tokens |
| Rank.TokensArePlain | internal/llmcontext/rank.go:245-275 | tokens are words of small ASCII letters and digits of two characters or more |
| Rank.SeparatorSplits | internal/llmcontext/rank.go:245-275 | anything but an ASCII letter or digit separates words |
| Rank.PlainWordIsToken | internal/llmcontext/rank.go:245-275 | a word of small letters and digits is its own token unless it is a single character or a stop word |
| Rank.Tokenize | internal/llmcontext/rank.go:245-275 | the builder loop counts exactly the tokens among the words |
| Rank.TokenSetOverlap | internal/llmcontext/rank.go:283-298 | in any walking order the count is the number of distinct shared tokens |
| Rank.PhraseOverlap | internal/llmcontext/rank.go:306-317 | true exactly when the phrase has a token and all of them are in the intent |
| Rank.ScorePack | internal/llmcontext/rank.go:150-181 | the doubled weighted sum over the pack's fields, zero for an empty intent |
| Rank.PackWeights | internal/llmcontext/rank.go:150-181 | one more token of the intent adds 2 points in a pack's name, 1 in its description, 2 in an accepted or produced type, and a matching keyword phrase 3 |
| Rank.ScorePipeline | internal/llmcontext/rank.go:188-219 | the doubled weighted sum over the pipeline's fields, supersedes included |
| Rank.PipelineWeights | internal/llmcontext/rank.go:188-219 | one more token of the intent adds 2 points in a pipeline's name or id and 1 in its description |
| Rank.PipelineListWeights | internal/llmcontext/rank.go:188-219 | one more text adds 2 points a token among the accepted or produced types, 2.5 among the superseded packs, and 3 as a matching keyword phrase |
| Rank.ProbeMeans | internal/llmcontext/rank.go:221-240 | the lists of a metadata document are read item by item, anything else as no list |
| Rank.DroppedKeywordsScore | internal/llmcontext/rank.go:150-163 | dropping a pack's keywords lowers its score by exactly what its matching phrases gave |
| Rank.LexicalRank | internal/llmcontext/rank.go:90-112 | the method computes the stable sort of the scored entries |
| Rank.RankingIsSorted | internal/llmcontext/rank.go:106-111 | best score first, equal scores by id |
| Rank.Ranking | internal/llmcontext/rank.go:90-112 | the ranking is a permutation of the scored catalog: nothing is filtered |
| Rank.RankingIgnoresOrder | internal/llmcontext/rank.go:90-112 | with distinct ids the ranking is the same list for every order of the catalog |
| Rank.TopK | internal/llmcontext/rank.go:117-122 | a prefix of the ranking; a limit of zero or less keeps all |
| Rank.ConfidenceIsALead | internal/llmcontext/filter.go:190-195 | a ranking is confident with less than two entries or when the best score is above zero and leads the second by 0.4 of itself or more |
| Select.TopNRoutingGuide | internal/llmcontext/select.go:128-149 | the loop keeps the first n ranked entries, packs and pipelines apart, each in rank order |
| Select.Choose | internal/llmcontext/select.go:58-107 | the cascade computes the specified selection and record |
| Select.StageThreeIff | internal/llmcontext/select.go:68-85 | the last stage is reached exactly when the catalog marshals and all six steps leave it too long |
| Select.KeywordsCountForNothing | internal/llmcontext/rank.go:150-163 | at the last stage every pack's keywords are gone and add nothing to a score |
| Select.FitsWithoutStageThree | internal/llmcontext/select.go:58-85 | without the last stage a catalog that marshals fits, or compaction was off |
| Select.SelectionIsTheTop | internal/llmcontext/select.go:86-90 | at the last stage the result is exactly the first entries of the ranking up to 12 or 25, and with the dropped ones it is the compacted catalog |
| Select.RecordOfStageThree | internal/llmcontext/select.go:86-104 | at the last stage the record has the labels of compaction, that retrieval ran, whether three or more entries had no confident best, and the size of the selection |
| Select.NothingBetterIsDropped | internal/llmcontext/select.go:128-149 | no dropped entry outranks a kept one |
| Select.SelectionSize | internal/llmcontext/select.go:42-58 | the result has min(limit, size) entries at the last stage, the limit being 25 for Tier B and 12 otherwise, and all otherwise, and is empty only for an empty catalog |
| Budgets.LongestPrefixIsBest | internal/llmcontext/budgets.go:296-311 | the lookup gives a prefix of the model that no other entry exceeds, or nothing when no entry is a prefix |
| Budgets.BestIsUnique | internal/llmcontext/budgets.go:296-311 | with distinct keys there is one such entry |
| Budgets.OrderDoesNotMatter | internal/llmcontext/budgets.go:286-314 | with distinct keys the table's order does not matter |
| Budgets.ExactIsLongest | internal/llmcontext/budgets.go:288-293 | the exact-match pass never overrides the longest prefix |
| Budgets.BudgetFor | internal/llmcontext/budgets.go:286-319 | under the trimmed model's own name come back the numbers of an entry that is a prefix of the model and that no other prefix exceeds, or of the Tier C profile when no entry is a prefix |
| ToolTurns.SplitMessage | internal/gateway/openai.go:196-252 | first, unless all parts are results, a message under the sender's role and name with its calls field by field and its other parts; then for each result in order a message of role tool with its id and content |
| ToolTurns.TranslateMessages | internal/gateway/openai.go:196-252 | the request's messages are the splits of its messages in order |
| ToolTurns.NothingIsLost | internal/gateway/openai.go:196-252 | splitting a request carries every tool call, tool result and other part exactly once, in order within each kind |
| ToolTurns.KindsAreComplete | internal/gateway/openai.go:213-240 | every part is of exactly one of the three kinds |
| ToolTurns.DecodeOpenAi | internal/gateway/openai.go:276-301 | a reply with calls becomes its text, unless empty, and one part for each call in order, field by field; one without becomes its text |
| ToolTurns.EchoOpenAi | internal/gateway/openai.go:196-307 | decoding and sending again gives the same calls in order and the same text |
| ToolTurns.AnthropicContent | internal/gateway/anthropic.go:303-338 | each known part becomes its block, in order and field by field, a tool result with id, content and error flag |
| ToolTurns.DecodeAnthropic | internal/gateway/anthropic.go:228-257 | a reply with a call becomes its non-empty texts and calls in order, field by field; one without becomes its joined text |
| ToolTurns.EchoAnthropic | internal/gateway/anthropic.go:228-338 | decoding and sending again gives the same calls and non-empty texts in the same order |
| ToolTurns.MessageContentToGeminiParts | internal/gateway/gemini.go:302-347 | each known part becomes its Gemini part, in order and field by field; images inline or as a placeholder; a result under its call id without the made-up prefix |
| ToolTurns.DecodeGemini | internal/gateway/gemini.go:224-263 | a reply with a call becomes its calls, with ids made of the function's name, and non-empty texts in order; one without becomes its joined text |
| ToolTurns.EchoGemini | internal/gateway/gemini.go:224-347 | decoding and sending again gives one part per call or non-empty text in the same order |
| ToolTurns.EchoKeepsCalls | internal/gateway/gemini.go:235-255 | the echo has the same calls in the same order |
| ToolTurns.EchoKeepsTextsIff | internal/gateway/gemini.go:235-255 | the echo has the same texts exactly when no part carries both a call and a text |
| ToolTurns.ResultNamesTheFunction | internal/gateway/gemini.go:331-343 | a result answering a decoded call goes out under the called function's name |
| ToolTurns.IdsDistinguishFunctionsOnly | internal/gateway/gemini.go:239-246 | two made-up ids are equal exactly when the functions are |
| PackHash.WalkIsInOrder | internal/marketplace/install.go:440-473 | the walk visits paths in the order of strings in which the slash comes first |
| PackHash.WalkIsLexicalIff | internal/marketplace/install.go:396-402 | that is plain lexical order exactly when no two paths part at a slash and a character below it |
| PackHash.DirectoryBeforeItsSibling | internal/marketplace/install.go:396-402 | a concrete pack in which it is not |
| PackHash.DecodeStream | internal/marketplace/install.go:463-466 | the hashed bytes decode back to the listing |
| PackHash.StreamsDifferIff | internal/marketplace/install.go:463-466 | two listings give the same bytes exactly when they are the same |
| PackHash.ComputePackHash | internal/marketplace/install.go:440-476 | the loop hashes every file but the manifest, or fails on one that cannot be read |
| PackHash.ManifestIsLeftOut | internal/marketplace/install.go:438-458 | the bytes of a top-level helmdeck-pack.yaml do not influence the hash |
| PackHash.HashIdentifiesContent | internal/marketplace/install.go:440-476 | for every hash two packs have equal hashes exactly when they have the same files at the same paths or hashed texts of the two, streams or bodies at one path, collide |
| PackHash.SameFilesSameWalk | internal/marketplace/install.go:440-473 | two directory trees are hashed alike, file by file, exactly when they have the same files: the walk leaves no choice of order |
| PackHash.VerifyTrust | internal/marketplace/install.go:365-391 | verified exactly when a hash is declared and equals the computed one up to the case of ASCII letters; the note tells missing block, missing hash, read error and mismatch apart |
| PackHash.InstallGate | internal/marketplace/install.go:137-147 | a manifest with the hash of a signed tree lets through exactly the trees with the signed files and trees whose hashed texts collide with the signed ones, whatever the manifest's own bytes |
| PackHash.NoForgeryWithoutCollision | internal/marketplace/install.go:440-476 | without a collision of the two streams or of bodies at one path there is no tree of the second kind |
| PackHash.UnsignedInstalls | internal/marketplace/install.go:137-147 | without a declared hash the gate does not refuse |
| Retry.DoJsonRequest | internal/gateway/transport.go:88-155 | the retry loop computes the specified outcome, number of requests and time slept between them |
| Retry.RunShape | internal/gateway/transport.go:106-155 | all attempts but the last fail transiently, and the loop ends early only on success, a terminal status or the end of the context |
| Retry.AttemptsMade | internal/gateway/transport.go:106-155 | with the statuses spelled out: network errors, 429 and 5xx are tried again up to the limit while the context lives; the outcome is the body of a 2xx, the last attempt's error, or the context's |
| Retry.RequestBound | internal/gateway/transport.go:106-155 | at most MaxAttempts requests |
| Retry.FailureIsOfLastAttempt | internal/gateway/transport.go:106-155 | while the context lives a failure is that of the last HTTP attempt |
| Retry.BackoffDelay | internal/gateway/transport.go:157-167 | the delay is in the range from zero to min(MaxDelay, BaseDelay times 2 to the attempt - 1), and every value in it can occur |
| Retry.SleptBound | internal/gateway/transport.go:106-167 | one call sleeps at most the geometric sum of its ceilings and at most MaxDelay for each retry, whatever the random draws |
| Retry.PolicyUsed | internal/gateway/transport.go:58-66 | a policy with attempts is used as it is, one without is replaced by three attempts, 0.2 seconds and 5 seconds |
| Retry.DefaultBounds | internal/gateway/transport.go:58-66 | a policy without attempts makes at most three requests and sleeps at most 0.6 seconds |
| Fallback.SplitIsExact | internal/gateway/gateway.go:233-243 | a name is accepted exactly as provider, slash, model with both non-empty and no slash in the provider |
| Fallback.NoRoute | internal/gateway/gateway.go:233-243 | a name that is no provider, slash and model makes no request |
| Fallback.RoutingTable | internal/gateway/gateway.go:254-316 | an unregistered provider, a failed request, an unreadable reply, or the reply under the trimmed name |
| Fallback.ReplyNamesTheModel | internal/gateway/gateway.go:254-316 | the reply's model is the trimmed name that was routed |
| Fallback.Walk | internal/gateway/fallback.go:105-136 | the candidates tried are exactly those up to the first success, first failure that is no trigger, dead context or end of the list; the result is the last one's reply, the dead context's error, or an error that names the rule and the last failure |
| Fallback.TriedIsUnique | internal/gateway/fallback.go:105-136 | how many candidates are tried is determined |
| Fallback.RequestsCapped | internal/gateway/fallback.go:97-136 | at most (1 + fallbacks) times MaxAttempts upstream requests |
| Fallback.Chain.SetRule | internal/gateway/fallback.go:64-72 | a rule without a primary is refused, any other replaces the primary's rule |
| Fallback.Chain.DeleteRule | internal/gateway/fallback.go:75-79 | the primary's rule goes and no other |
| Fallback.Chain.Dispatch | internal/gateway/fallback.go:97-136 | with a rule the walk's outcome, without one the registry's; one rule only, so cyclic rules end |
| Fallback.SuccessNamesTheServer | internal/gateway/fallback.go:90-97 | a success carries the name of the candidate that served it, and every earlier one failed |
| Fallback.LastAttemptDecides | internal/gateway/fallback.go:149-179 | whether a candidate sends the request on depends on the class of its last HTTP attempt alone |
| Fallback.LastAttemptTable | internal/gateway/fallback.go:149-179 | a candidate sends the request on exactly when triggers are empty or its last HTTP attempt was a 429 and rate limits are listed, a 504, 408 or deadline and timeouts are listed, or any other failure and any errors are listed |
| Fallback.OtherFailures | internal/gateway/fallback.go:149-179 | a failure before any HTTP attempt counts as any error |
| Fallback.TriedByLastAttempts | internal/gateway/fallback.go:105-136 | while the context lives exactly the candidates are tried up to the first whose last HTTP attempt does not send the request on, or all |
| MyPlans.AggregatePlanGroups | internal/mcp/my_plans.go:115-188 | whatever order maps are walked in, the loops give one determined list |
| MyPlans.AggregateIgnoresOrder | internal/mcp/my_plans.go:115-188 | the list is the same for every permutation of the stored rows |
| MyPlans.GroupsMeanTheirRows | internal/mcp/my_plans.go:129-158 | a group's count is the number of its rows and its last time the greatest of theirs, or zero |
| MyPlans.ToolsAreCounted | internal/mcp/my_plans.go:153-157 | a tool's counter is the number of its occurrences in the group's rows |
| MyPlans.NamesAreCounted | internal/mcp/my_plans.go:147-152 | a group's complexity and model counters are the numbers of its rows with that complexity and that model |
| MyPlans.GroupSpelledOut | internal/mcp/my_plans.go:129-170 | a group has the number of its rows, the greatest of their times, their most frequent complexity, five most frequent tools and three most frequent models |
| MyPlans.HashesOfRows | internal/mcp/my_plans.go:119-127 | there is a group for exactly the hashes that some decodable row has |
| MyPlans.CountsAreConserved | internal/mcp/my_plans.go:115-170 | before the cap the counts add up to the rows that decode and have a hash |
| MyPlans.CapKeepsTheBest | internal/mcp/my_plans.go:171-187 | the cap keeps the first groups by count, recency and hash; no dropped group is ahead of a kept one |
| MyPlans.ProjectionSpelledOut | internal/mcp/my_plans.go:171-187 | at most 25 groups, most used first, then most recent, then by hash, and no group that was cut off stands before one that was kept |
| MyPlans.TopKeysOf | internal/mcp/my_plans.go:209-235 | in any walking order the heaviest keys, equal counts by name |
| MyPlans.TopKeysMean | internal/mcp/my_plans.go:209-235 | topKeys gives the n keys of greatest count, equal counts by name |
| MyPlans.TopKey | internal/mcp/my_plans.go:192-205 | in any walking order the one key heavier than all others, or nothing for no keys |
| MyPlans.TopKeyIsHead | internal/mcp/my_plans.go:192-235 | topKey is the head of topKeys |
| Orders.SortIgnoresInputOrder | internal/llmcontext/rank.go:106-111 | a stable sort by an order without ties gives one list for every order of its input |

## Left out

- HTTP handlers, routing, authentication, the embedded UI, the CLI, start-up wiring, telemetry, logging and audit writes.
- Encryption, key rotation and fingerprints of stored values: a value is stored as it is. The pack hash is any function with 64 lower-case hex digits as its value; its collisions are named, not excluded.
- The `cancelled` state of jobs is never set by the code; job ids are assumed fresh; the pack engine returns after its last progress call.
- The webhook's signature, timeout and pauses between deliveries; a payload that does not marshal or a malformed URL ends delivery without a request.
- Sqlite.SqliteStoreTracksTheTable: years beyond 9999 are outside RFC 3339; the clock and expiries of a run stay within it.
- SQLite's `List`, `ListNamespaces` and `ListAll` are not methods of the store's class; `List` is the function behind the run theorem. SQL errors are not modelled.
- ListAll, tags and categories beyond being carried along with an entry.
- Invalid UTF-8 in reasoning text, and the regular-expression engine: each pattern is an opening marker, a closing marker and the shortest text between.
- Write failures inside the byte pumps other than as the closing of the connection; a scanner is a function of its whole stream, and a message already read when the connection closes counts as printed before. The POST body limit of the SSE endpoint.
- Parallel requests in one session: the server loop is sequential, as in the source.
- JSON text: values are trees, numbers keep their digits when metadata is decoded and encoded again, and keys that differ only in letter case are different keys when pipeline metadata is probed.
- A nil list and an empty list in a catalog: both are written as an empty array, so BeforeBytes of a nil list is two less than the source's.
- Labels in a Trim record are constructors; the prefix test for the over-budget label is a test of the constructor.
- Rank: scores are doubled integers, so the confidence ratio is compared without rounding.
- Retry.BackoffDelay: the rounding of floating-point powers.
- ToolTurns.NothingIsLost: the error flag of a tool result, because the OpenAI message has no field for it.
- System prompts, tool definitions, tool choice, response formats and token usage in the adapters; the Ollama and Deepseek adapters.
- Symbolic links in a pack directory, file modes, and the git checkout before the hash.
- The model lists, key redaction, version comparison, URL scheme rewriting, schema kind checks, MergeKeepOrder, RestrictCatalog and the second-pass filter prompt: they would add easy members only.
