# Verified model of the keep_my_journal services

This project models the algorithms and state machines of the keep_my_journal services in Dafny 4.11 and
proves what they promise. `dafny verify dfyconfig.toml` checks everything.

The source is C++. What it does by changing objects in place is modelled by classes and loops here, each
proved equal to a function of the old state; the properties are lemmas about these functions, over every
input, every run or every interleaving.

| file | what it models |
|---|---|
| `Base64.dfy` | the Base64 codec with its wrapping 32-bit accumulators, against section 4 of RFC 4648 |
| `WaitableQueue.dfy` | the mutex and condition-variable queue, one step at a time, for any number of threads, against an atomic queue |
| `PriceStore.dfy` | the keyed store of the latest prices, against the log of inserts |
| `Tasks.dfy`, `Timers.dfy`, `Watching.dfy` | the scheduled task, a watcher's timer with waits that are pending, cancelled or dispatched, and what the events of a run alone tell |
| `ProgressWatch.dfy`, `TimeWatch.dfy` | the two kinds of watchers, over runs of ticks, price updates and removal |
| `Registry.dfy` | the per-user lists of the two services, of wrapper objects that are emptied when they are stopped |
| `Wire.dfy` | the D-Bus forms of a task, with the casts to 32 bits and back |
| `Scheduling.dfy`, `Contracts.dfy` | a pricing request from its contracts to the services, with pushes that are refused or throw and removals that throw |
| `Histories.dfy` | any history of requests and cancellations from empty services |
| `Ordering.dfy`, `Sequences.dfy`, `Options.dfy` | the order of strings, sorting, filtering, `Option` |
| `Text.dfy` | finding, splitting, joining, replacing and percent-decoding (section 2.1 of RFC 3986) |
| `Routing.dfy`, `Requests.dfy`, `SessionRoutes.dfy` | the template compiler, the route table, the query parser, the handling of a request target, and the session's own routes |
| `Subscription.dfy` | the KuCoin futures subscription in batches, over runs with errors and reconnects |
| `StaticPool.dfy` | the bump allocator |
| `CheckedMultiply.dfy`, `CliParsing.dfy`, `CliMeaning.dfy` | two pieces of the vendored CLI11: the overflow-checked product, and the argument loop with what it means for the tokens of a line |

Conventions. Prices and percentages are reals. Characters of strings that are decoded stand for bytes. Where
the source has undefined behaviour the model has an outcome `Undefined` (or `None`, for a single machine
operation), and a theorem says exactly when it comes about: `Text.DecodeDefined`, `Routing.OnlyTemplatesCompile`,
`Requests.UndefinedExactly`, `CheckedMultiply.OverflowCheckMeaning`. JSON, D-Bus, HTTP and the clock are
parameters: a parsed contract, the outcome of a push or a removal, which callback comes next.

Where the code does not do what its names, comments or documentation say, a lemma gives an input and another
one the exact condition:

| what one would expect | an input | exactly when it holds |
|---|---|---|
| an alert waits for the price to move | `ProgressWatch.AlertsAtOnce` | `ProgressWatch.AlertCondition`: the percentage is negative (for a positive price); the code is followed here, not its documentation |
| a request that fails leaves no task behind | `Scheduling.ExceptionLeavesTasks` | `Scheduling.AllOrNothing`: no push or removal throws while something is held that no removal reaches |
| an interval is scheduled as asked for | `Contracts.NegativeIntervalPasses` | `Contracts.IntervalAsAsked`: it is positive |
| decoding and handling a target stays inside it | `Text.DanglingPercent`, `Requests.FailingRequests` | `Text.DecodeDefined`, `Requests.UndefinedExactly` |
| a template with a trailing slash can be registered | `Routing.TrailingSlashIsUndefined` | `Routing.OnlyTemplatesCompile`: its suffix is not slashes only |
| a template matches what its route spells out | `Routing.GapIsLost` | `Routing.GapsAreLost`: only slashes stand between placeholders |
| every instance of a template is found | `Routing.EmptyValueIsLost` | `Routing.FoundIfClosed`: it ends in no slash |
| `replaceIfStarts` replaces at the start | `Text.ReplacesElsewhere` | `Text.ReplacesOnlyStart`: the two texts are the same or the old one is nowhere else |
| a subscribed stream has subscribed for instruments | `Subscription.FilledSinkSubscribesForNothing` | `Subscription.SubscribedForNothing`: the last fetch brought some, which needs the shared sink to be found empty (`Subscription.FetchingNeedsEmptySink`) |

## Model

| member | source | states |
|---|---|---|
| Base64.Encode | common/src/crypto_utils.cpp:13-47 | the streaming encoder, with its wrapping accumulator, equals the definition of RFC 4648 for every input within the length guard; both early exits are never taken for other input |
| Base64.Rfc4648At | common/src/crypto_utils.cpp:22-46 | the group-wise definition of RFC 4648 by position: length 4·ceil(n/3), each digit and each padding character |
| Base64.Decode | common/src/crypto_utils.cpp:57-88 | the streaming decoder rejects exactly the texts with an illegal character and else returns the bytes of the digit string |
| Base64.DecodeEncode | common/src/crypto_utils.cpp:13-88 | decoding undoes encoding for every byte string |
| Base64.EncodeDecode | common/src/crypto_utils.cpp:13-88 | encoding undoes decoding if and only if the text is canonical |
| Base64.AlphabetIsBijection | common/src/crypto_utils.cpp:14-66 | the two tables are inverse to each other, and no symbol is skipped |
| Base64.BlanksAreSkipped | common/src/crypto_utils.cpp:71-75 | whitespace and padding make no difference to decoding, wherever they stand |
| Base64.GuardIsExact | common/src/crypto_utils.cpp:17-24 | the length guard lets through exactly the inputs whose encoding has a length that fits 64 bits |
| WaitableQueue.EveryInterleaving | common/include/container.hpp:164-202 | in every interleaving: mutual exclusion, no lost wake-up, the exception in `get` unreachable, first in first out with contiguous blocks, and each `get` returns what it took |
| WaitableQueue.IsAtomicQueue | common/include/container.hpp:164-202 | in every interleaving the blocks that went in are those of the calls in the order of their pushes, and queue, drops and results are those of an atomic queue fed with the actions alone |
| WaitableQueue.StepKeepsWakeups | common/include/container.hpp:173-187 | no step makes a thread sleep through items unless their producer has yet to notify |
| WaitableQueue.StepKeepsOrder | common/include/container.hpp:164-202 | every step keeps: removed items, then queued ones, are the appended blocks in lock order |
| WaitableQueue.StepKeepsResults | common/include/container.hpp:173-181 | every step keeps: what calls of `get` returned is what that thread took |
| WaitableQueue.ConsumerCanFinish | common/include/container.hpp:173-181 | with an item queued and the mutex free, any thread inside `get` can finish on its own steps and returns the front |
| WaitableQueue.ProducerCanFinish | common/include/container.hpp:183-202 | with the mutex free a producer can finish on its own steps; its block is then queued last, and nobody is asleep |
| WaitableQueue.ClearCanFinish | common/include/container.hpp:164-167 | with the mutex free `clear` can finish and leaves the queue empty |
| WaitableQueue.ConsumerSleeps | common/include/container.hpp:173-175 | on an empty queue a consumer goes to sleep and gives the mutex back |
| PriceStore.StoreRefinesLog | common/include/container.hpp:77-94 | one entry for each class ever inserted; its key object is the first, its value the last of the log |
| PriceStore.StoreOnlyGrows | common/include/container.hpp:90-94 | no entry is lost as the log grows |
| PriceStore.LookupKey | common/include/price_stream/commodity.hpp:44-64 | what is found has the name and trade type that were looked for |
| PriceStore.ScanIsLookup | progress_tasks/src/progress_based_task.cpp:57-61 | the linear scan over any listing finds what the hashed lookup finds |
| Watching.LookupIsLatest | common/include/container.hpp:129-140 | what is found is the instrument of that name and trade type that was inserted last |
| Watching.KnownIsStored | common/include/container.hpp:129-140 | something is found exactly if some instrument of that name and trade type was inserted |
| PriceStore.UniqueElements.Insert | common/include/container.hpp:77-94 | inserting keeps the store equal to that of the longer log |
| PriceStore.UniqueElements.FindItem | common/include/container.hpp:129-140 | returns the last instrument of the class in the log, or nothing |
| PriceStore.UniqueElements.ToList | common/include/container.hpp:116-127 | lists the value of every class exactly once |
| ProgressWatch.AlertCondition | progress_tasks/src/progress_based_task.cpp:26-75 | the level at which a task alerts, for either sign of the percentage, through the comparator as written; with the price standing still it alerts exactly if the percentage is not negative |
| ProgressWatch.AlertsAtOnce | progress_tasks/src/progress_based_task.cpp:65-75 | one such alert |
| ProgressWatch.EveryRun | progress_tasks/src/progress_based_task.cpp:47-142 | over every run: alerted and remaining tokens partition the initial ones, each alert came at the first tick at which the latest price inserted met its threshold, none was missed, lookups never fail; the ticks are those of the events; one tick is on its way exactly until removal or the last alert |
| ProgressWatch.AtMostOneAlert | progress_tasks/src/progress_based_task.cpp:102-135 | with distinct tokens none is alerted twice, or alerted and still watched |
| ProgressWatch.SnapshotsComplete | progress_tasks/src/progress_based_task.cpp:52-76 | the constructor's assertion holds if and only if the store knows every token |
| ProgressWatch.SnapshotsMeaning | progress_tasks/src/progress_based_task.cpp:52-72 | a task starts with the known tokens in order, each with the latest instrument inserted and its threshold |
| ProgressWatch.TickComes | progress_tasks/src/progress_based_task.cpp:79-90 | the tick that is on its way can come |
| ProgressWatch.AfterRemoval | progress_tasks/src/progress_based_task.cpp:137-142 | nothing re-arms after removal, and at most the tick already dispatched still runs |
| ProgressWatch.AfterLastAlert | progress_tasks/src/progress_based_task.cpp:131-135 | nothing runs any more once a tick has left no tokens |
| ProgressWatch.TickKeepsPartition | progress_tasks/src/progress_based_task.cpp:116-124 | one tick moves exactly the hit tokens from the remaining to the alerted ones |
| ProgressWatch.ProgressWatcher.constructor | progress_tasks/src/progress_based_task.cpp:47-77 | the loop over the tokens builds the snapshots of the specification |
| ProgressWatch.ProgressWatcher.NextTimer | progress_tasks/src/progress_based_task.cpp:79-90 | arms one wait if the timer exists |
| ProgressWatch.ProgressWatcher.Call | progress_tasks/src/progress_based_task.cpp:92-98 | starts the timer once |
| ProgressWatch.ProgressWatcher.CheckPrices | progress_tasks/src/progress_based_task.cpp:102-135 | one tick: alerts, the erase loop, the message and the timer are those of the specification |
| ProgressWatch.ProgressWatcher.Stop | progress_tasks/src/progress_based_task.cpp:137-142 | cancels and drops the timer |
| TimeWatch.EveryRun | time_tasks/src/time_based_watch.cpp:51-103 | over every run there is a message for each tick of the events at which some token was known, reporting exactly the known tokens at their latest prices, and no other; one tick is on its way until removal |
| TimeWatch.TickSends | time_tasks/src/time_based_watch.cpp:65-88 | a tick sends one message exactly if some token of the task is known, with the known tokens in order, their latest price and opening price; else nothing |
| TimeWatch.TickComes | time_tasks/src/time_based_watch.cpp:51-63 | the tick that is on its way can come |
| TimeWatch.FetchedMentions | time_tasks/src/time_based_watch.cpp:65-80 | a message names exactly the task's tokens that the store knows, at live prices |
| TimeWatch.TokensStay | time_tasks/src/time_based_watch.cpp:65-88 | a token in one message is in every later one |
| TimeWatch.AfterRemoval | time_tasks/src/time_based_watch.cpp:98-103 | nothing re-arms after removal, and at most the tick already dispatched still runs |
| TimeWatch.TimeWatcher.FetchPrices | time_tasks/src/time_based_watch.cpp:65-88 | the scan over the listing sends what the specification says and arms the next tick |
| TimeWatch.TimeWatcher.NextTimer | time_tasks/src/time_based_watch.cpp:51-63 | arms one wait if the timer exists |
| TimeWatch.TimeWatcher.Call | time_tasks/src/time_based_watch.cpp:90-96 | starts the timer once |
| TimeWatch.TimeWatcher.Stop | time_tasks/src/time_based_watch.cpp:98-103 | cancels and drops the timer |
| Registry.RemovedHoldsNothing | progress_tasks/src/progress_based_task.cpp:198-216 | removal takes exactly the wrappers of that user and id out of that user's list, in order, into what is stopped, and leaves other users' lists alone |
| Registry.Wrapper.Stop | progress_tasks/src/progress_based_task.cpp:157-162 | the watcher is stopped, and a progress wrapper is empty afterwards |
| Registry.TaskRegistry.AllDifferent | progress_tasks/src/progress_based_task.cpp:186-216 | no wrapper is listed twice or both listed and erased, and every listed one still holds a task of its user |
| Registry.TaskRegistry.StopAndErase | progress_tasks/src/progress_based_task.cpp:211-215 | one turn stops and erases one wrapper, which is emptied if it is a progress wrapper; all that stay listed keep their tasks |
| Registry.TaskRegistry.Schedule | progress_tasks/src/progress_based_task.cpp:186-196 | the task goes to the end of its user's list |
| Registry.TaskRegistry.Remove | progress_tasks/src/progress_based_task.cpp:198-216 | the erase-and-restart loop ends, filters in order, stops each match exactly once and empties progress wrappers, while every listed wrapper keeps its task |
| Registry.TaskRegistry.TasksForUser | progress_tasks/src/progress_based_task.cpp:164-231 | every listed wrapper gives its own task, never the empty one that an emptied wrapper would give |
| Wire.WireRoundTrip | common/src/price_stream/adaptor/scheduled_task_adaptor.cpp:4-56 | a task survives the wire but for the other property; its three ids survive whatever the enumerations hold |
| Wire.CastRoundTrip | common/src/price_stream/adaptor/scheduled_task_adaptor.cpp:8-35 | an enumeration survives the casts to 32 bits and back if and only if it fits |
| Ordering.SortSorts | http_stream/src/scheduled_price_tasks.cpp:56 | sorting gives a sorted permutation |
| Ordering.NotAfterMeaning | http_stream/src/scheduled_price_tasks.cpp:56 | the order of strings: a prefix, or the smaller character at the first difference |
| Ordering.SortFindsDuplicates | http_stream/src/scheduled_price_tasks.cpp:56-58 | equal neighbours after sorting tell exactly that there are duplicates |
| Scheduling.CheckedMeaning | http_stream/src/scheduled_price_tasks.cpp:37-60 | which tasks pass the check, in both directions; a percentage within 100 stays, one beyond becomes 100 of its sign, the direction stays, tokens keep up to their order, and nothing else changes |
| Scheduling.AllOrNothing | http_stream/src/scheduled_price_tasks.cpp:62-106 | scheduled if and only if all pushes are accepted; after a refusal without exceptions no service holds a task of the request; all else is untouched; when an exception of a push or a removal comes about, and exactly when it leaves tasks |
| Scheduling.StopAllKeepsRest | http_stream/src/scheduled_price_tasks.cpp:83-106 | of all removals the first one decides what is left in either service |
| Scheduling.WhenScheduled | http_stream/src/scheduled_price_tasks.cpp:68-98 | a scheduled request is registered once per task, in order, each with one property and its own id |
| Scheduling.FreshIds | http_stream/src/scheduled_price_tasks.cpp:68-74 | a request keeps all held ids at or below the counter, so that the ids of the next one are new to both services |
| Histories.IdsAreUnique | http_stream/src/scheduled_price_tasks.cpp:62-106 | after any history of fewer than 2^64 tasks no two held tasks have the same id, in whichever service or list |
| Histories.HeldTasksAlertOnce | http_stream/src/scheduled_price_tasks.cpp:56-81 | after any history every task of the progress service alerts each token at most once, over every run of its watcher |
| Scheduling.NumberedInTurn | http_stream/src/scheduled_price_tasks.cpp:73-74 | the ids of a request are consecutive |
| Scheduling.NextIdMeaning | http_stream/src/scheduled_price_tasks.cpp:68-74 | the id counter goes up by one and starts again behind 2^64 - 1 |
| Scheduling.ExceptionLeavesTasks | http_stream/src/scheduled_price_tasks.cpp:73-106 | a push that throws, or a removal that throws, leaves an earlier task registered |
| Scheduling.Scheduler.ScheduleNewPriceTasks | http_stream/src/scheduled_price_tasks.cpp:62-88 | the loops of checks, pushes and removals do what the specification says |
| Scheduling.Scheduler.PushTasks | http_stream/src/scheduled_price_tasks.cpp:73-81 | the loop numbers and pushes the tasks in order and lists the refused ones |
| Scheduling.Scheduler.StopTasks | http_stream/src/scheduled_price_tasks.cpp:83-86 | refused tasks are removed from both services in order, until an exception ends the loop |
| Scheduling.Scheduler.Stop | http_stream/src/scheduled_price_tasks.cpp:101-106 | one task is removed from both services, as far as the two calls get |
| Contracts.BuildTasks | http_stream/src/session.cpp:552-632 | the loop builds the tasks of the specification or stops at the first bad contract |
| Contracts.TaskOfMeaning | http_stream/src/session.cpp:555-631 | when a contract can be built, what its task says, its interval and unit, the sign of its percentage, and that the scheduler's check passes it exactly if it is complete |
| Contracts.IntervalAsAsked | http_stream/src/session.cpp:129-156 | an interval that fits a signed word is scheduled as asked for if and only if it is positive; what a negative one becomes |
| Contracts.IntervalBuilt | http_stream/src/session.cpp:591-597 | an interval that fits a signed word is built exactly if it is not zero and has a valid unit |
| Contracts.Units | http_stream/src/session.cpp:129-156 | the units in milliseconds, from one to the next |
| Contracts.BuildMeaning | http_stream/src/session.cpp:552-632 | tasks are built exactly if every contract can be, one each in order, all with the request's ids |
| Contracts.RequestAllOrNothing | http_stream/src/session.cpp:552-640 | from contracts to services: refused as a whole with nothing changed unless complete; else all pushes accepted, or nothing held, or an exception and exactly what it leaves |
| Contracts.NegativeIntervalPasses | http_stream/src/session.cpp:129-156 | five minutes below zero pass every check as a huge interval |
| Text.SplitStringView | common/src/string_utils.cpp:179-195 | the loop ends and returns the pieces of the specification |
| Text.SplitMeaning | common/src/string_utils.cpp:179-213 | no piece holds the delimiter, and joining the pieces gives the string back up to one delimiter at its end |
| Text.JoinPieces | common/src/string_utils.cpp:179-195 | splitting undoes joining when the last piece is not empty |
| Text.SecondPiece | common/src/string_utils.cpp:179-195 | the second piece stands between the first two delimiters, or behind an only one unless it is empty |
| Text.SplitAllInverse | http_stream/src/endpoint.cpp:86-88 | splitting at a character leaves no such character, and joining undoes it |
| Text.JoinSplitAll | http_stream/src/endpoint.cpp:86-88 | splitting at a character undoes joining, empty pieces included |
| Text.ReplaceIfStarts | common/src/string_utils.cpp:101-108 | the loop that edits in place ends and equals replacing from left to right |
| Text.ReplaceMeaning | common/src/string_utils.cpp:101-108 | the result is the text between the occurrences joined by the new string; none is left in between |
| Text.ReplaceChangesNothing | common/src/string_utils.cpp:101-108 | nothing changes exactly if the two texts are the same or the old one is nowhere |
| Text.ReplacesOnlyStart | common/src/string_utils.cpp:101-108 | only the start is replaced exactly if the two texts are the same or the old one is nowhere else |
| Text.ReplacesElsewhere | common/src/string_utils.cpp:101-108 | one input where more than the start is replaced |
| Text.EraseAtEnds | http_stream/src/endpoint.cpp:74-83 | erasing the first or last occurrence cuts a prefix or suffix that is there |
| Text.DecodeUrl | common/src/string_utils.cpp:41-77 | the index loop decodes as specified, and leaves the view exactly where the specification does |
| Text.DecodeDefined | common/src/string_utils.cpp:41-77 | decoding stays inside the view if and only if the text is made of characters other than '%' and of '%' with two characters behind it; what these decode to |
| Text.HexMeaning | common/src/string_utils.cpp:49-67 | a hexadecimal digit has its value in either case, and any other character counts as zero |
| Text.DanglingPercent | common/src/string_utils.cpp:49-59 | a '%' at the end leaves the view |
| Text.DecodeEscape | common/src/string_utils.cpp:41-77 | decoding undoes escaping of any chosen bytes, in either case of digits |
| Routing.CompileTemplate | http_stream/src/endpoint.cpp:18-64 | compiling reads a template back, whatever stands in front of the separating slashes, unless its suffix is slashes only |
| Routing.OnlyTemplatesCompile | http_stream/src/endpoint.cpp:18-64 | a route compiles if and only if it is a template whose suffix is not slashes only, and is undefined if and only if it is one whose suffix is |
| Routing.TrailingSlashIsUndefined | http_stream/src/endpoint.cpp:54-59 | a slash behind the last placeholder runs the loop out of the suffix |
| Routing.GapsAreLost | http_stream/src/endpoint.cpp:42-52 | a template matches what its route spells out exactly if only slashes stand between its placeholders |
| Routing.GapIsLost | http_stream/src/endpoint.cpp:42-52 | two routes that compile to the same |
| Routing.MatchMeaning | http_stream/src/endpoint.cpp:72-94 | a template matches with some values if and only if the target is its instance at these slash-free values |
| Routing.FirstMatchMeaning | http_stream/src/endpoint.cpp:71-97 | the walk returns the first entry in prefix order that matches, and nothing exactly if there is none |
| Routing.InstanceFound | http_stream/src/endpoint.cpp:66-98 | in a prefix-free table every instance finds its own template and values |
| Routing.FoundIfClosed | http_stream/src/endpoint.cpp:66-94 | after stripping, an instance is found if and only if it ended in no slash |
| Routing.EmptyValueIsLost | http_stream/src/endpoint.cpp:66-94 | one instance that is not found |
| Routing.Endpoints.AddEndpoint | http_stream/include/endpoint.hpp:58-67 | the stripped route gets the rule unless it has one; the errors |
| Routing.Endpoints.AddSpecialEndpoint | http_stream/include/endpoint.hpp:69-77 | the table, ordered by prefix, gains the compiled route, or an error changes nothing |
| Routing.Endpoints.GetSpecialRules | http_stream/src/endpoint.cpp:66-98 | the loops over the slashes and the table return the first match |
| Routing.PutKeepsOrder | http_stream/src/endpoint.cpp:61-63 | insertion keeps the table ordered without equal prefixes |
| Requests.SplitOptionalQueries | http_stream/src/session.cpp:107-119 | the loop parses a query as specified |
| Requests.CollectKeepsFirst | http_stream/src/session.cpp:111-116 | a key has the value of the first piece with that key and something behind its '=' |
| Requests.PieceMeaning | http_stream/src/session.cpp:111-116 | a piece gives its key the value between the first '=' and the second one or the end, if there is any |
| Requests.QueryPartMeaning | http_stream/src/session.cpp:232-248 | the query is what stands between the first '?' and the second one or the end |
| Requests.ParsePrinted | http_stream/src/session.cpp:107-119 | parsing reads a printed query back, keeping the first of equal keys |
| Requests.HandleRequest | http_stream/src/session.cpp:221-271 | the handler decodes, strips, splits, looks up and answers as specified |
| Requests.EveryRouteAnswers | http_stream/src/session.cpp:236-270 | every exact route, and otherwise the first template that fits, lists its options, runs its callback with its query and placeholders, or refuses, each exactly for its verbs |
| Requests.PlaceholdersWin | http_stream/src/session.cpp:268-269 | the callback sees each placeholder's value, and the query for every other key |
| Requests.ExactRoundTrip | http_stream/src/session.cpp:221-250 | a printed exact route with a query, however escaped: the callback runs with that query exactly for the verbs of the route, and other verbs are answered or refused |
| Requests.SpecialRoundTrip | http_stream/src/session.cpp:221-271 | a printed instance of a template with a query, however escaped: the template's callback runs with its values over the query exactly for its verbs, and other verbs are answered or refused |
| Requests.OnlyOwnRoutes | http_stream/src/session.cpp:221-271 | a callback is run only for its exact route, or for an instance of its template with those values, no earlier template fitting |
| Requests.UndefinedExactly | http_stream/src/session.cpp:221-252 | a request leaves a string if and only if decoding does or the first character of the decoded target that is no slash is a '?' |
| Requests.FailingRequests | http_stream/src/session.cpp:221-252 | two such requests, for all tables |
| Requests.NotFoundExactly | http_stream/src/session.cpp:227-254 | a request is not found if and only if its target is slashes only or its path is neither an exact route nor an instance of any template |
| Requests.SessionRoundTrip | http_stream/src/session.cpp:165-271 | with tables of the session's form the round trip needs neither prefix-freedom nor the absence of an exact route |
| Requests.SegmentsPrefixFree | http_stream/src/session.cpp:179-197 | templates that begin with one name each make a prefix-free table |
| SessionRoutes.AddEndpointInterfaces | http_stream/src/session.cpp:165-200 | none of the session's ten calls throws; the tables hold exactly its routes and have the form that the round trip asks for |
| SessionRoutes.AddTemplate | http_stream/src/session.cpp:179-197 | one of its calls for a template with a new prefix adds that entry |
| SessionRoutes.AddName | http_stream/src/session.cpp:168-178 | one of its calls for an exact route adds that route |
| Subscription.EveryRun | price_monitor/src/kucoin_price_stream.cpp:306-418 | in every run: names sent since the last reset are the first `m_tokenCounter` ones in order, batches of at most a hundred, no wrap-around, the flag set exactly when all are covered in max(1, ceil(n/100)) batches |
| Subscription.EveryRunSends | price_monitor/src/kucoin_price_stream.cpp:306-356 | the events alone tell what was sent: a batch of the last fetch for each message since the last error, until all are sent |
| Subscription.CanGoOn | price_monitor/src/kucoin_price_stream.cpp:241-346 | in every phase the next callback can come, and where it leads |
| Subscription.ListedMeaning | price_monitor/src/kucoin_price_stream.cpp:377-391 | listed are the symbols of the contracts with a price, in order |
| Subscription.MinusMeaning | price_monitor/src/kucoin_price_stream.cpp:399-400 | the unsigned subtraction is the difference up to a multiple of 2^64 |
| Subscription.SubscribedForNothing | price_monitor/src/kucoin_price_stream.cpp:67-91 | a subscribed stream has sent the batches of the last fetch; they name nothing exactly if that fetch brought nothing; it fetched exactly if some connection found the shared sink empty |
| Subscription.FilledSinkSubscribesForNothing | price_monitor/src/kucoin_price_stream.cpp:67-73 | one run that subscribes for nothing |
| Subscription.FetchingNeedsEmptySink | price_monitor/src/kucoin_price_stream.cpp:67-91 | instruments are fetched exactly when a connection finds the sink empty |
| Subscription.InstrumentsAreLastFetched | price_monitor/src/kucoin_price_stream.cpp:358-395 | the instruments are those of the last fetch |
| Subscription.NothingFetched | price_monitor/src/kucoin_price_stream.cpp:60-73 | without a fetch the stream subscribes for a topic without names and takes that for complete |
| Subscription.BatchesMeaning | price_monitor/src/kucoin_price_stream.cpp:397-410 | the batches hold every name once in order, all full but the last, as few as possible |
| Subscription.StepKeeps | price_monitor/src/kucoin_price_stream.cpp:292-346 | the invariant is kept by every callback, in any order |
| Subscription.QuietConnectionSubscribes | price_monitor/src/kucoin_price_stream.cpp:306-335 | after a handshake as many messages and writes as there are batches subscribe for everything |
| Subscription.TopicNames | price_monitor/src/kucoin_price_stream.cpp:402-415 | a topic can be read back into its names |
| Subscription.FuturesStream.GetSubscription | price_monitor/src/kucoin_price_stream.cpp:397-418 | composes the next batch and moves the counter and the flag |
| Subscription.FuturesStream.BatchText | price_monitor/src/kucoin_price_stream.cpp:402-406 | the loop joins the names with commas |
| Subscription.FuturesStream.OnMessage | price_monitor/src/kucoin_price_stream.cpp:306-324 | a message is followed by the next batch, or by reading on once subscribed |
| Subscription.FuturesStream.OnWritten | price_monitor/src/kucoin_price_stream.cpp:328-334 | a completed write clears the string |
| Subscription.FuturesStream.ReportErrorAndRetry | price_monitor/src/kucoin_price_stream.cpp:337-356 | an error resets counter and flag and connects again |
| Subscription.FuturesStream.InitiateConnection | price_monitor/src/kucoin_price_stream.cpp:67-73 | instruments are fetched only if the shared sink is empty |
| Subscription.FuturesStream.OnInstrumentsReceived | price_monitor/src/kucoin_price_stream.cpp:358-395 | the loop lists the contracts with a price |
| StaticPool.EveryHistory | common/include/fields_alloc.hpp:11-58 | in every history live blocks are disjoint and inside the pool, the cursor is the sum handed out since the last reset, back at the base when nothing is live, and a request is refused exactly if it would reach the end |
| StaticPool.StepKeeps | common/include/fields_alloc.hpp:41-57 | the invariant of the pool is kept by each call |
| StaticPool.CallsMeaning | common/include/fields_alloc.hpp:41-57 | a request that fits gets the bytes at the cursor, one that does not changes nothing, and only giving back the last live block starts afresh |
| StaticPool.CallsCanCome | common/include/fields_alloc.hpp:41-57 | any request can be made and any live block given back |
| StaticPool.Arena.Allocate | common/include/fields_alloc.hpp:41-50 | hands out the block at the cursor, or refuses and changes nothing |
| StaticPool.Arena.Deallocate | common/include/fields_alloc.hpp:52-57 | counts down and resets exactly when no block is live any more |
| CheckedMultiply.Multiply | external/CLI/CLI11.hpp:3234-3247 | true if and only if the product is representable, which is stored; else the operand is unchanged; no operation on the way is undefined |
| CheckedMultiply.OverflowCheckMeaning | external/CLI/CLI11.hpp:3219-3231 | the check by truncating division is defined and tells overflow from its absence, for signed and unsigned types |
| CheckedMultiply.ItemsExpectedMax | external/CLI/CLI11.hpp:4706-4709 | the product, or the size of an unlimited vector when it does not fit |
| CliParsing.ParseSingleProgress | external/CLI/CLI11.hpp:8344-8384 | every call throws or lowers the sum of (length + 1), even when a remainder is pushed back; the "should not see this" error is unreachable |
| CliParsing.EveryLine | external/CLI/CLI11.hpp:8215-8229 | for every line parsing ends with all arguments consumed or a user error; what is missing is in command-line order, each token at most once, whole or as its remainder |
| CliParsing.MissingIfUnmatched | external/CLI/CLI11.hpp:8344-8530 | a call adds its token to what is missing, with all that follows for a prefix command, if and only if no option takes it |
| CliParsing.GatherMeaning | external/CLI/CLI11.hpp:8686-8693 | an option takes the fewest arguments that give it its minimum, in order, and changes no other option |
| CliParsing.OptionalMeaning | external/CLI/CLI11.hpp:8700-8720 | which optional arguments are taken: while there is room, the next is a plain text that is accepted, and enough are left for the required positionals; it stops at the first that fails |
| CliParsing.ParseOptionMeaning | external/CLI/CLI11.hpp:8645-8748 | all results that an option gets, in order: separator, own value, the fewest arguments for the minimum, optional ones, default, filler; nothing for other options; and exactly what is left of the line |
| CliParsing.OwnMeaning | external/CLI/CLI11.hpp:8649-8684 | the results of the option's own token, and when a flag may not be overridden |
| CliParsing.ParseOptionLeaves | external/CLI/CLI11.hpp:8645-8748 | an option leaves an end of the arguments, possibly behind the remainder of its own token |
| CliParsing.Parser.Parse | external/CLI/CLI11.hpp:8215-8229 | the loop ends and does what the specification says |
| CliParsing.Parser.ParseNext | external/CLI/CLI11.hpp:8344-8384 | one turn, by the class of the next token |
| CliParsing.Parser.ParseOne | external/CLI/CLI11.hpp:8579-8645 | the option is looked up by its name, or the token is missing |
| CliParsing.Parser.ParseOptionArgs | external/CLI/CLI11.hpp:8645-8748 | own value, minimum, optional arguments, remainder, and the errors on the way |
| CliParsing.Parser.GatherMinimum | external/CLI/CLI11.hpp:8686-8693 | the loop over the minimum |
| CliParsing.Parser.GatherOptional | external/CLI/CLI11.hpp:8703-8720 | the loop over optional arguments |
| CliParsing.Parser.ParsePositionalArg | external/CLI/CLI11.hpp:8408-8530 | a positional goes to the option that wants it, required ones at the end first, or is missing |
| CliMeaning.LongParts | external/CLI/CLI11.hpp:2555-2568 | "--name=value" and "--name" are read as that name and value |
| CliMeaning.ShortParts | external/CLI/CLI11.hpp:2546-2553 | "-nrest" is read as the letter and the rest |
| CliMeaning.WindowsParts | external/CLI/CLI11.hpp:2570-2583 | "/name:value" and "/name" are read as that name and value |
| CliMeaning.Recognized | external/CLI/CLI11.hpp:7865-7888 | which tokens are marks, long, short, Windows-style or plain; a digit is a short name only if an option has it |
| CliMeaning.CountsMeaning | external/CLI/CLI11.hpp:8658-8665 | how many results an option wants at least and at most |
| CliMeaning.RequiredLeftMeaning | external/CLI/CLI11.hpp:8386-8396 | what the required positionals lack together |
| CliMeaning.PositionalMeaning | external/CLI/CLI11.hpp:8408-8530 | which positional a plain token goes to, required ones at the end first, and when it is refused or missing |
| CliMeaning.SingleMeaning | external/CLI/CLI11.hpp:8344-8384 | a "--" makes everything behind it positional; other tokens are parsed by their class |
| CliMeaning.ParseOptionSucceeds | external/CLI/CLI11.hpp:8670-8739 | when an option is refused, when the line is too short for it, and that it is parsed otherwise |
| CliMeaning.AssignmentParsed | external/CLI/CLI11.hpp:8579-8678 | "--name=value" gives the first option of that long name the results of the value, and does nothing else |
| CliMeaning.LineOfOptions | external/CLI/CLI11.hpp:8215-8229 | a line of such tokens is parsed to the end with nothing missing, each option with the results of its values in order |

## Left out

- Sockets, TLS, HTTP, WebSocket, ZeroMQ, msgpack, D-Bus transport and JSON: their calls are parameters or open choices of the next step.
- HMAC, MD5, random strings, time formatting and configuration files: foreign calls.
- The string overload of `base64Encode`: it copies bytes with an `int` index and then calls the one that is modelled.
- WaitableQueue.EveryInterleaving: the queue is modelled on values, as its steps interleave inside a call; moving and copying of items is not captured.
- Rounding, infinities and not-a-number in prices and percentages: reals have none.
- The hash of an instrument: only the equivalence it respects is modelled.
- Histories.IdsAreUnique: beyond 2^64 tasks the counter starts again, and ids repeat.
- Contracts.TaskOfMeaning: overflow of the signed millisecond count, which is undefined in the source, is a wrapped value here; conversions of JSON values, upper-casing of symbols and names of enumerations are done before.
- Whether watchers ever run: the service's event loop is started once and may return when idle, so only safety is claimed.
- Whether an alert fits the direction a user asked for: thresholds and comparator are taken as written.
- `locked_map_t`, the two list-merging getters, `get_all_scheduled_tasks_impl`: concatenations under a lock.
- `splitStringInto`: the loop of `splitStringView` again, which appends nothing when the delimiter is missing.
- `mutexed_list_t`, `static_pool::destroy`, `queue_account_stream_tasks`, `http_rest_client_t`: unused, or their guarantees lie in code that is not part of this model.
- StaticPool.Arena.Allocate: a request so large that the pointer sum wraps is undefined in the source; offsets are unbounded here.
- Subscription.EveryRun: the random message id and the ping timer do not touch the subscription; the spot stream has one batch.
- CliParsing.EveryLine: no subcommands, option groups, fallthrough, environment, configuration files or ignored case; no callbacks during parsing (`trigger_on_parse`); the splitting of one text into results, flag values and validators are parameters of an option.
- CliParsing.GatherMeaning: products of sizes other than the checked ones do not overflow here.
- The rest of CLI11, enumeration and string tables, `uri_t` and unit conversions: easy members.
