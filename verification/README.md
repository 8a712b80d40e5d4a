# Verified models of a Redis client and its surrounding libraries

This project models, in Dafny, the protocol engine of the bundled Redis client together with the
repository's own locks, worker pool, calendar conversion and multipart parser, and proves what each
of them is for. The model keeps the form of the code: what the code does step by step in loops over
buffers and fields is a class or a method here, proved against a specification function whose own
properties are then proved as lemmas.

| Modules | What they model |
|---|---|
| `Bytes`, `Integers` | lines, decimal text, the integer parsers and printers |
| `Resp`, `Grammar`, `Refusals`, `Builders`, `ReplyObjects`, `Resumption`, `Reader`, `Sessions` | the recursive decoder of the Redis serialization protocol, the grammar it agrees with, the assertions of the reply builders, the heap of reply objects, and the resumable reader with its task stack, whose output does not depend on how the bytes arrive |
| `Format`, `Scanner`, `ScannerKeys`, `Verbs` | the command formatter and the key scanner that inverts it |
| `Sharding`, `Encoding`, `Fragment`, `Merging`, `ClusterCommand`, `ClusterClient` | a multi-key command split by slot, re-encoded, executed and merged, end to end |
| `Division`, `Crc16` | the key slot |
| `Routing`, `Redirect` | the slot table and the redirect loop with its retry budget |
| `AsyncContext` | the asynchronous dispatcher with callbacks that call back in |
| `Threads`, `RwLock`, `RwMutex`, `WorkerPool`, `WakeUps`, `Submissions` | the two read-write locks and the bounded worker pool as step systems over any number of threads |
| `Delimiter`, `Multipart`, `BodyCuts`, `MultipartParser`, `BodyWriting` | the multipart body automaton, what the cuts of a body change, the push parser, and the round trip of written bodies |
| `Dict`, `DictIterator` | the chained hash table and its iterator |
| `Quoting`, `QuotedWords` | quoted tokens and lines of words |
| `Calendar`, `Gregorian` | the lock-free calendar conversion and the week of the year; the calendar in closed form |

`dafny verify dfyconfig.toml` checks everything.

Some properties turn out to hold only under a condition, and the condition is proved to be exact:

- A sub-command is encoded exactly if and only if no empty key follows a printed number of ten or
  more, because printing zero leaves the rest of the number buffer as it was (`Encoding.EncodingIsExact`,
  with the input of `Encoding.StaleLength`).
- Multipart part data ends at the first delimiter for every body if and only if the delimiter is
  restartable; boundaries without CR are (`Multipart.PartsAreExactIffRestartable`, with the input of
  `Multipart.CrCanHideTheEnd`).
- The calendar fields are in range if and only if the adjusted time is not negative
  (`Calendar.NolocksLocaltime`).
- The reader gets through a stream if and only if no double, nil or boolean stands directly inside a push,
  because those three builders do not admit a push as a parent (`Reader.RunSession`,
  `Builders.StreamTripsIff`, with the input of `Builders.NilInPushTraps`).
- The reports of the multipart parser are the same for all cuts of a body if and only if every begun
  header name reaches its colon (`BodyCuts.CutsMatterIffNameDropped`, with the input of
  `BodyCuts.NameWithoutColon`).
- A new topology becomes the route if and only if it has masters only and in-bounds, pairwise disjoint
  ranges (`Routing.Cluster.UpdateRouteByAddr`).

Two properties one might expect of the worker pool are false of every pool. A waiting producer can miss
its wake-up (`WakeUps.NotificationCanBeMissed`): it cannot in any run without a completion between its
failed test and its sleep (`WakeUps.WakeUpsKept`), and whenever a lone producer stands between the two,
completions can strand it (`WakeUps.DisturbedSleeperIsStranded`). Tasks of one key need not run in the order of their submission
(`Submissions.WaiterCanBeOvertaken`): they run in the order of their acceptance, each producer's own in its
order of submission (`Submissions.OwnTasksStartInOrder`), and all of them if nobody has to wait with that
key (`Submissions.SubmissionOrder`). The code differs from its documentation in one place noted
here: the scanner accepts a command of any keyed verb that consists of the verb alone, with no keys,
because it ends where the input ends (`ScannerKeys.LegalKeys`); the splitter then refuses it for
having no keys.

## Model

| member | source | states |
|---|---|---|
| Reader.RunSession | libredis/hiredis/read.c:657-739 | for every byte stream, every way of cutting it into feeds and every interleaving with requests for replies: the code stops at an assertion exactly when the stream delivers a double, nil or boolean directly inside a push; otherwise the objects handed out are exactly the replies of the recursive decoder on the whole stream, in order, with the same final error or waiting status, and if it stops exactly the replies before have been handed out |
| Sessions.ReadSpelled | libredis/hiredis/read.c:657-739 | bytes that spell some replies, however cut and whatever spelling of nil they use, are read as exactly those replies, unless one of them holds what its builder refuses |
| Reader.RedisReader.GetReply | libredis/hiredis/read.c:688-739 | one request: the error is returned while set; otherwise at most one object is handed out, the one the stream puts next on the bytes fed so far, and nothing is handed out only when those bytes hold no complete further reply |
| Reader.RedisReader.Feed | libredis/hiredis/read.c:657-686 | fed bytes extend what is still to be decoded; in the error state they are refused |
| Reader.RedisReader.ProcessItem | libredis/hiredis/read.c:528-603 | one item step of the task-stack machine keeps the outlook of the whole stream: the same replies and the same ending will come out |
| Reader.RedisReader.ProcessLineItem | libredis/hiredis/read.c:269-349 | a line item (integer, double, nil, bool, status, error) is one faithful step |
| Reader.RedisReader.ProcessBulkItem | libredis/hiredis/read.c:351-421 | a bulk or verbatim string is one faithful step, or waits without consuming anything when its bytes are incomplete |
| Reader.RedisReader.ProcessAggregateItem | libredis/hiredis/read.c:449-526 | an array, set, map or push header is one faithful step: the element limit, the doubling for maps, the empty and nil cases, and the new task |
| Reader.RedisReader.MoveToNextTask | libredis/hiredis/read.c:241-267 | a finished item closes every aggregate it completes and leaves the stack where the recursive decoder would continue |
| Reader.RedisReader.Grow | libredis/hiredis/read.c:423-447 | growing the task stack leaves every task on it as it was |
| Reader.RedisReader.CreateObject | libredis/hiredis/hiredis.c:79-285 | a builder allocates one object and stores it in exactly its parent slot, unless its assertion on the parent fails, which is exactly for a double, nil or boolean whose parent is a push |
| Builders.StreamAgrees | libredis/hiredis/hiredis.c:114-285 | the builders change nothing about a stream until an assertion fails, and every reply before that comes through |
| Builders.StreamTripsIff | libredis/hiredis/hiredis.c:222-285 | an assertion fails exactly when a complete reply has a double, nil or boolean directly inside a push, at any depth, or the elements delivered of the open reply do |
| Builders.ItemTripsIff | libredis/hiredis/hiredis.c:222-285 | for a complete reply the failing of an assertion is a property of the reply tree alone |
| Builders.BeforeTheTrap | libredis/hiredis/hiredis.c:222-285 | what comes through is the first replies up to the first that holds a refused element |
| Builders.OpenTripIsInEveryCompletion | libredis/hiredis/hiredis.c:222-285 | whatever bytes complete an open reply that has stopped the code, the complete reply holds a refused element |
| Builders.NilInPushTraps | libredis/hiredis/hiredis.c:256-269 | a push of one nil is a reply of the protocol, and stops the code |
| Builders.OneElementTrapsIff | libredis/hiredis/hiredis.c:222-285 | an aggregate of one element stops the code exactly when it is a push and the element a double, nil or boolean |
| Reader.SeekNewline | libredis/hiredis/read.c:125-143 | the search yields the first CR that is directly followed by LF, or none |
| Bytes.FindCrlfIsFirst | libredis/hiredis/read.c:125-143 | nothing earlier than the found line end is a line end, and none is overlooked |
| ReplyObjects.CellsRepresent | libredis/hiredis/hiredis.c:79-285 | the heap of objects built for a reply represents that reply, each element pointer leading to its own element |
| ReplyObjects.CloseAggregate | libredis/hiredis/read.c:241-267 | linking the last element turns a partly filled aggregate into the complete one |
| ReplyObjects.LinkChild | libredis/hiredis/hiredis.c:169-195 | storing a child in the next free slot of its parent changes no other slot of any open aggregate |
| Resumption.AdvanceKeepsOutlook | libredis/hiredis/read.c:241-267 | handing a finished element to the stack of open aggregates does not change what will be made of the rest |
| Resumption.DecideKeepsOutlook | libredis/hiredis/read.c:316-349 | an item decided, whether it is delivered or its builder stops the code, keeps the outlook |
| Resumption.StepIsFaithful | libredis/hiredis/read.c:528-603 | the relation between emitted replies, open stack, unread bytes and the decoded stream survives every step |
| Resumption.FeedIsFaithful | libredis/hiredis/read.c:657-686 | it survives bytes that arrive later, at any point of a partly built reply |
| Resumption.DrainedIsComplete | libredis/hiredis/read.c:688-739 | when nothing more is ready, everything the builders let through of the stream has been emitted and the status agrees |
| Resp.ItemStable | libredis/hiredis/read.c:528-603 | an item once decoded, or refused, is decoded or refused in the same way whatever bytes follow |
| Resp.DecodeEncode | libredis/hiredis/read.c:269-526 | every reply tree of any nesting, written in the protocol, is decoded to itself and its bytes exactly are consumed |
| Resp.DecodeEncodeAll | libredis/hiredis/read.c:449-526 | the same for the element list of an aggregate |
| Resp.DecodeAggregateItem | libredis/hiredis/read.c:449-526 | a header with a canonical count followed by that many items decodes to the aggregate of those items |
| Grammar.ReadIffSpelled | libredis/hiredis/read.c:269-603 | the decoder reads a reply and consumes w exactly when w spells that reply, by a grammar with every byte written out |
| Grammar.NilIsRead | libredis/hiredis/read.c:377-383 | every spelling of nil is read as nil: the bulk strings and the aggregates of length -1 as well as the nil line |
| Grammar.SpelledStream | libredis/hiredis/read.c:688-739 | a stream of spelled replies is read as those replies, one after the other |
| Refusals.RefusedIffMalformed | libredis/hiredis/read.c:269-603 | the decoder refuses a stream with an error exactly when it begins with bytes that are malformed in that way, at the top or in some element of an aggregate |
| Integers.ParseIsInverseOfText | libredis/hiredis/read.c:163-224 | parsing succeeds with value v exactly on the text that printing v produces, for every signed 64-bit value: nothing else is accepted and no overflow is missed |
| Integers.String2ll | libredis/hiredis/read.c:163-224 | the parsing loop computes the specification parser, including the overflow tests before each multiplication and addition |
| Integers.DigitRun | libredis/hiredis/read.c:187-208 | the digit loop stops at the first non-digit or overflow and otherwise yields the value of all digits |
| Integers.Ll2Str | libredis/hiredis/sds.c:431-489 | in a buffer of the 21 bytes the code sets aside the digits are produced backwards, signed, terminated and reversed into the canonical text, and its length is returned, for signed and unsigned 64-bit values |
| Integers.ReverseInPlace | libredis/hiredis/sds.c:450-458 | the in-place swap loop reverses the text |
| Integers.CountDigits | libredis/hiredis/hiredis.c:287-298 | the count equals the length of the printed number, for every unsigned value |
| Integers.DigitsOf64Bits | libredis/hiredis/sds.c:431-489 | an unsigned 64-bit value has at most twenty digits, the magnitude of a signed one at most nineteen |
| Integers.LlstrSizeSuffices | libredis/hiredis/sds.c:424-431 | text, sign and NUL of every 64-bit value fit into 21 bytes, and the smallest value needs them all |
| Integers.UintLen | libredis/hiredis/hiutil.c:249-262 | the division loop counts the printed digits, zero included |
| Integers.Itoa | libredis/hiredis/hiutil.c:201-240 | a number other than zero leaves its text, with a sign if negative, and a terminator; zero leaves only its digit and no terminator |
| Format.FormatCommandArgv | libredis/hiredis/hiredis.c:624-660 | the buffer of pre-computed length is filled exactly with the formatted command, and a NUL follows |
| Format.TotalLength | libredis/hiredis/hiredis.c:634-639 | the first pass computes exactly the length the second pass needs |
| Format.BulkLen | libredis/hiredis/hiredis.c:300-302 | the bytes one argument takes |
| Format.PutArgs | libredis/hiredis/hiredis.c:646-656 | the second pass writes every argument, in order |
| Format.ReadFormatted | libredis/hiredis/hiredis.c:624-660 | reading a formatted command gives an array of exactly its arguments, whatever bytes they contain |
| Scanner.ScanCommand | libredis/hiredis/command.c:522-1262 | the scanning loop computes the byte automaton |
| Scanner.ScanRefinesArgs | libredis/hiredis/command.c:522-1262 | on every formatted command the byte automaton agrees with an automaton that reads whole arguments |
| Scanner.ReadLength | libredis/hiredis/command.c:609-710 | the length digits of an argument are accumulated to its length |
| Scanner.ArgInCommand | libredis/hiredis/hiredis.c:646-656 | where each argument, its length digits and its line ends lie in the formatted bytes |
| ScannerKeys.ScanInvertsFormat | libredis/hiredis/command.c:522-1262 | for every argument list the verdict, the argument count and the key spans are given in closed form: acceptance per argument class, and exactly that class's keys |
| ScannerKeys.SpanDenotesArg | libredis/hiredis/command.c:687-760 | a key span delimits exactly the bytes of its argument, followed by CRLF |
| ScannerKeys.RestIsKeys | libredis/hiredis/command.c:272-284 | every argument of MGET, DEL and EXISTS is a key |
| ScannerKeys.RestIsPairs | libredis/hiredis/command.c:291-301 | every other argument of MSET is a key |
| ScannerKeys.ScriptArity | libredis/hiredis/command.c:326-337 | a script command is accepted when its key count is a non-zero number, and its key is the argument after the count |
| ScannerKeys.SubCommandArity | libredis/hiredis/command.c:307-318 | a command with sub-commands has its key in third place |
| ScannerKeys.FixedArity | libredis/hiredis/command.c:67-206 | a fixed-arity command is accepted exactly with its number of arguments, the first of which is the key |
| Verbs.SeveralKeysIff | libredis/hiredis/command.c:522-1262 | the scanner finds several keys in a formatted command exactly when it is MGET, DEL or EXISTS with several arguments or MSET with several pairs, so the branch of the splitter for other commands is never taken |
| Verbs.MultiKeyVerbs | libredis/hiredis/command.c:339-496 | the vector classes contain MGET, DEL, EXISTS and MSET in any case, and no other verb |
| Verbs.FixedCommands | libredis/hiredis/command.c:67-206 | commands of the fixed classes are accepted with exactly their number of arguments, or with none, and then have one key, the first argument |
| Verbs.OpenCommands | libredis/hiredis/command.c:208-337 | open-ended commands, commands with sub-commands, scripts and commands without keys: when they are accepted, and which argument is the key |
| Verbs.UnknownVerb | libredis/hiredis/command.c:339-496 | a verb that is not known is refused |
| Verbs.CaseDoesNotMatter | libredis/hiredis/command.c:339-496 | upper-case letters of a verb count as their lower-case ones |
| Sharding.PiecesReachFinalStore | libredis/hiredis/hircluster.c:2560-2856 | running the per-slot pieces in slot order leaves the store the whole command would leave, and every piece replies as it would on the original store |
| Sharding.PieceIsLocal | libredis/hiredis/hircluster.c:200-223 | a piece changes the keys of its slot exactly as the whole command would and touches no other key |
| Sharding.PieceReply | libredis/hiredis/hircluster.c:3082-3099 | the reply of a piece does not depend on the pieces run before it |
| Encoding.EncodingIsExact | libredis/hiredis/hircluster.c:2651-2830 | a slot's command is the formatter's text and fills the pre-computed length if and only if no empty key follows a printed number of ten or more |
| Encoding.NonEmptyKeysAreExact | libredis/hiredis/hircluster.c:2651-2830 | commands without empty keys are always encoded exactly |
| Encoding.StaleLength | libredis/hiredis/hiutil.c:213-217 | MGET of a ten-byte key and an empty key in one slot: the empty key's length is written as 00 and the text is one byte too long |
| Encoding.LengthIsExact | libredis/hiredis/hircluster.c:2622-2672 | the accumulated clen, completed by the header, is the length of the formatted sub-command |
| Encoding.CommandByItems | libredis/hiredis/hircluster.c:2651-2824 | the constant header texts and the per-key texts make up the formatter's output |
| Fragment.GroupKeys | libredis/hiredis/hircluster.c:2590-2649 | the first loop puts every key, in order, into its slot's sub-command with the right spans, counts and length, and records every key's slot |
| Fragment.RemainLen | libredis/hiredis/hircluster.c:2628-2648 | the bytes copied after an MSET key are exactly its CRLF and its value argument |
| Fragment.PrintNumber | libredis/hiredis/hircluster.c:2660-2690 | the number buffer after printing over what it held, and the length found in it |
| Fragment.EncodeSub | libredis/hiredis/hircluster.c:2651-2830 | one slot's buffer is filled exactly with the formatter's text for the lower-case verb and that slot's arguments |
| Fragment.PreFragment | libredis/hiredis/hircluster.c:2560-2856 | with several slots one exact command per slot, in slot order, and every key's slot; with one slot the split is given up |
| Fragment.NonEmptyKeysNeverStale | libredis/hiredis/hircluster.c:2651-2830 | a command whose keys are all non-empty meets the condition of the splitter |
| Fragment.OneSlotNeedsNoSplit | libredis/hiredis/hircluster.c:2832-2845 | the split is given up exactly when all keys share the slot the command is then sent to |
| Merging.TransferElements | libredis/hiredis/hircluster.c:2910-2946 | the backwards loop succeeds exactly when every slot has enough elements; then each key gets its own element and exactly those elements have left their owners |
| Merging.PostFragment | libredis/hiredis/hircluster.c:2858-2974 | the merged reply per command kind; the first unfit sub-reply in list order decides, with NULL and error replies passed on; too few elements are an error |
| Merging.FirstUnfitIs | libredis/hiredis/hircluster.c:2870-2909 | the first reply in list order that is not of the kind's own type decides: no reply, the error passed on, or a type error; there is none exactly when all fit |
| Merging.ShareIsLookup | libredis/hiredis/hircluster.c:2910-2946 | the element a key receives is the lookup of that key |
| Merging.SumIsAmount | libredis/hiredis/hircluster.c:2876-2952 | the counts of the pieces add up to the count of the whole command, repeated keys included |
| Merging.RunSplit | libredis/hiredis/hircluster.c:2560-2974 | running the pieces and merging their replies gives the reply and the store of the whole command, for every item list |
| ClusterCommand.RunCommand | libredis/hiredis/hircluster.c:3035-3128 | formatted, scanned, split, re-encoded, read and executed by servers, and merged, a multi-key command gives the reply and the store that one server would |
| ClusterClient.RunKeyed | libredis/hiredis/hircluster.c:3035-3128 | the same with the slots the client computes, the CRC-16 of the hash tag |
| ClusterCommand.ScanOfCommand | libredis/hiredis/hircluster.c:2984-3024 | the scan of a formatted multi-key command yields spans at which every key, and for MSET its value, stands |
| ClusterCommand.ServeCommand | libredis/hiredis/hiredis.c:624-660 | a server that reads a formatted command executes the command it denotes |
| ClusterCommand.ServedPieces | libredis/hiredis/hircluster.c:3082-3099 | sending the encoded sub-commands in list order executes exactly the pieces |
| ClusterCommand.ArgsOfItems | libredis/hiredis/hircluster.c:2590-2649 | every argument list a server accepts is the argument list of some keys and values, so the end-to-end result misses none |
| Crc16.Crc | libredis/hiredis/crc16.c:77-83 | the table-driven value equals the bit-by-bit remainder of every byte string |
| Division.TableTabulates | libredis/hiredis/crc16.c:46-75 | each of the 256 table entries is the bit-by-bit remainder of its index |
| Division.DivideApart | libredis/hiredis/crc16.c:77-83 | whatever has room just moves up while the rest is divided, for any division that respects addition |
| Division.TableStep | libredis/hiredis/crc16.c:81 | one loop body equals eight bits of division |
| Crc16.KeyHashSlot | libredis/hiredis/hircluster.c:200-223 | the slot is the checksum modulo 16384 of the bytes between the first opening brace and the next closing one, if there are any, and otherwise of the whole key |
| Crc16.KeySlotIs | libredis/hiredis/hircluster.c:200-223 | the same about the slot function used everywhere else |
| Crc16.SlotOfFoo | libredis/hiredis/hircluster.c:200-223 | a known answer: the key foo has the checksum AF96 and the slot 12182 |
| Crc16.SameTagSameSlot | libredis/hiredis/hircluster.c:200-223 | keys with the same non-empty first tag share a slot, whatever surrounds it |
| Routing.Cluster.UpdateRouteByAddr | libredis/hiredis/hircluster.c:1349-1462 | the reply becomes the route exactly when all nodes are masters and all ranges are in bounds and pairwise disjoint; then table, nodes, slots and version all change together, otherwise none of them does |
| Routing.Cluster.UpdateRoute | libredis/hiredis/hircluster.c:1465-1508 | addresses are asked in turn and the first acceptable reply becomes the route; if there is none nothing changes but the error, which is that of the last attempt, or its own if there was no attempt |
| Routing.Cluster.NodeByTable | libredis/hiredis/hircluster.c:2126-2137 | a slot leads to the node whose range covers it, and to no node exactly when none does |
| Routing.FillTable | libredis/hiredis/hircluster.c:1397-1410 | the table can be filled exactly when the ranges are pairwise disjoint, and then maps each slot to its owner |
| Routing.CollectRanges | libredis/hiredis/hircluster.c:1364-1395 | the walk reports the first fault in order, or collects every range |
| Routing.DisjointByCount | libredis/hiredis/hircluster.c:1398-1410 | disjointness does not depend on the order in which the ranges are entered |
| Routing.OwnerIsUnique | libredis/hiredis/hircluster.c:1398-1410 | in disjoint ranges the owner of a slot is the node of whichever range covers it |
| Redirect.SendBudget | libredis/hiredis/hircluster.c:2431-2558 | every send of a command beyond its first has consumed one retry of the budget |
| Redirect.WireIsDisciplined | libredis/hiredis/hircluster.c:2431-2558 | all replies before the last are redirects, the last is the outcome, and each ASK is answered by ASKING and then the same command |
| Redirect.RedirectsAreFollowed | libredis/hiredis/hircluster.c:2431-2558 | while nothing is lost on the way, MOVED, ASK, TRYAGAIN, CROSSSLOT and CLUSTERDOWN are all followed: the first reply that is no redirect is the outcome, after exactly this traffic and these retries, if the budget suffices for the way there, and otherwise the call fails for too many retries |
| Redirect.RoundIff | libredis/hiredis/hircluster.c:2431-2558 | exactly when a round of the loop goes on and exactly when it yields a reply |
| Redirect.AllAreSent | libredis/hiredis/hircluster.c:3035-3128 | where every sub-command is answered at once, all of them are sent once and all replies collected |
| Redirect.TotalBudget | libredis/hiredis/hircluster.c:3082-3128 | a call split into k sub-commands sends at most k commands and the retry budget; no redirect is ever returned, and only the last reply can be an error |
| Redirect.BudgetIsReached | libredis/hiredis/hircluster.c:2488-2497 | against a cluster that always redirects the whole budget is used and the call fails |
| Redirect.Client.ExecuteCommand | libredis/hiredis/hircluster.c:2431-2558 | the retry loop ends and computes the run of its specification |
| Redirect.Client.FormattedCommand | libredis/hiredis/hircluster.c:3035-3128 | the loop over the sub-commands keeps the budget and leaves the retry count at zero |
| AsyncContext.RunEvents | libredis/hiredis/async.c:301-412 | over every run the n-th accepted callback is the n-th served, with the n-th ordinary reply while replies last and with NULL when the context goes; none is lost or served twice; a live, sound context has served every ordinary reply that arrived; a context freed from a callback is gone at once, or at the next callback function if a push callback freed it; the disconnect callback runs with OK unless an error ended the context; and a reply without a callback is the only way to trip an assertion |
| AsyncContext.Context.Command | libredis/hiredis/async.c:737-821 | a command is refused exactly when the context is closing and otherwise queued last |
| AsyncContext.Context.ProcessCallbacks | libredis/hiredis/async.c:504-592 | each ordinary reply goes to the oldest waiting callback, everything readable is taken, a free takes effect, a failed stream ends the context, and so does a disconnect that waited for the last reply |
| AsyncContext.Context.Serve | libredis/hiredis/async.c:570-579 | the oldest callback has its reply, and a context freed by then is gone once a callback function has run |
| AsyncContext.Context.Handle | libredis/hiredis/async.c:363-412 | what each call and event must have done: a command is queued unless the context is closing, a free releases, a disconnect releases exactly when nothing is pending |
| AsyncContext.Context.RunCallback | libredis/hiredis/async.c:283-290 | a callback that calls back in has exactly its commands before it closes the context accepted, if the context is open at all, and closes it exactly if it says so |
| AsyncContext.Context.InternalFree | libredis/hiredis/async.c:301-357 | every pending callback is served exactly once with NULL, in order; the disconnect callback runs only if connected |
| AsyncContext.Context.InternalDisconnect | libredis/hiredis/async.c:371-397 | a clean disconnect has no pending callback, so its assertion holds |
| AsyncContext.Context.AsyncFree | libredis/hiredis/async.c:363-368 | freed at once, or only marked when called from a callback |
| AsyncContext.Context.AsyncDisconnect | libredis/hiredis/async.c:404-412 | disconnected at once when idle, otherwise only marked |
| AsyncContext.Context.HandleConnect | libredis/hiredis/async.c:602-625 | the first event on a socket finds the connection established, still under way, which changes nothing, or failed, which gives it up |
| AsyncContext.Context.HandleRead | libredis/hiredis/async.c:627-655 | a failed read ends the context, an unfinished connect changes nothing, and otherwise all that arrived is processed |
| AsyncContext.Context.HandleWrite | libredis/hiredis/async.c:657-688 | a failed write ends the context, an unfinished connect changes nothing, and otherwise the flushed commands leave the output |
| RwLock.MutualExclusion | libnetwork/libtcp/rwLock.h:18-64 | after every legal run of any number of threads a writer excludes everyone else |
| RwLock.NoReaderPassesAWriter | libnetwork/libtcp/rwLock.h:18-29 | a thread starts reading only while no writer holds the lock and none waits |
| RwLock.SleepersHaveReason | libnetwork/libtcp/rwLock.h:43-64 | a reader asleep and not notified has a writer that holds the lock or waits for it |
| RwLock.NeverStuck | libnetwork/libtcp/rwLock.h:43-64 | whenever someone waits, someone holds the lock or some notified thread gets it as soon as it resumes: no wake-up is lost |
| RwLock.RunKeeps | libnetwork/libtcp/rwLock.h:18-64 | the counters count exactly the threads they stand for, in every run |
| RwLock.RWLock.Take | libnetwork/libtcp/rwLock.h:18-64 | each critical section of the code is the step of the specification |
| RwLock.RWLock.UnlockBy | libnetwork/libtcp/rwLock.h:43-64 | whom an unlock wakes |
| RwLock.Schedule | libnetwork/libtcp/rwLock.h:18-64 | every legal schedule, executed on the lock, ends in the state of its run |
| RwMutex.MutualExclusion | libpublic/rwmutex.h:60-88 | after every legal run of any number of threads a writer excludes everyone else |
| RwMutex.NoReaderPassesAWriter | libpublic/rwmutex.h:60-64 | a thread starts reading only while no writer holds the lock and none waits |
| RwMutex.SleepersHaveReason | libpublic/rwmutex.h:80-88 | a reader asleep and not notified has a writer that holds the lock or waits for it |
| RwMutex.NeverStuck | libpublic/rwmutex.h:66-88 | whenever someone waits, someone holds the lock or some notified thread gets it as soon as it resumes |
| RwMutex.RunKeeps | libpublic/rwmutex.h:60-88 | the counters count exactly the threads they stand for, in every run |
| RwMutex.RWMutex.Take | libpublic/rwmutex.h:60-88 | each critical section of the code is the step of the specification |
| RwMutex.Schedule | libpublic/rwmutex.h:60-88 | every legal schedule, executed on the mutex, ends in the state of its run |
| WorkerPool.RunKeeps | libpublic/workpool/workerPool.cpp:123-194 | in every interleaving the accepted but uncompleted tasks never exceed the limit by more than one |
| WorkerPool.CompleteStaysBounded | libpublic/workpool/workerPool.cpp:123-138 | lowering the counter without the mutex keeps it equal, in 32 bits, to the tasks outstanding less the one just pushed |
| WakeUps.CounterWraps | libpublic/workpool/workerPool.cpp:158-164 | in every pool a task can be completed before it is counted: the counter stands at its largest value for a moment |
| WorkerPool.KeyOrder | libpublic/workpool/workerPool.cpp:166-194 | tasks accepted under one hash key are started in the order of their acceptance, in every run |
| Submissions.AcceptanceOrder | libpublic/workpool/workerPool.cpp:166-194 | the same, told by whose call each task came from |
| Submissions.OwnTasksStartInOrder | libpublic/workpool/workerPool.cpp:166-194 | among the tasks of a key that its worker starts, each producer's own are in the order of its submissions, in every run |
| Submissions.SubmissionOrder | libpublic/workpool/workerPool.cpp:166-194 | in every run in which nobody has to wait with a key, the tasks of that key are started in the order of their submission |
| Submissions.OnlyWaitersAreOvertaken | libpublic/workpool/workerPool.cpp:187-190 | when a task is accepted, every other producer still in AddTask is asleep or just notified, so only waiting producers are overtaken |
| Submissions.WaiterCanBeOvertaken | libpublic/workpool/workerPool.cpp:187-190 | in every pool with every key, a reachable state in which a later task of the key is accepted before that of a producer that had to wait |
| Submissions.WorkersTakeTurns | libpublic/workpool/workerPool.cpp:145-154 | in every run tasks without a home worker take the workers in turn |
| Submissions.WorkerOfTask | libpublic/workpool/workerPool.cpp:145-185 | a submitted task goes to the worker its hash names, or else to the one whose turn it is |
| WakeUps.WakeUpsKept | libpublic/workpool/workerPool.cpp:123-164 | in every run without a completion between a failed test and the sleep after it, a sleeper always has more tasks outstanding than the limit, or a notified producer or one with the mutex on its way: none is forsaken |
| WakeUps.DisturbedSleeperIsStranded | libpublic/workpool/workerPool.cpp:123-164 | from every reachable state with a producer between the two and nobody else in AddTask, completing all tasks first leaves it asleep with the pool empty |
| WakeUps.NotificationCanBeMissed | libpublic/workpool/workerPool.cpp:123-164 | every pool has a run in which a producer sleeps although the pool is empty and nobody will notify it |
| WorkerPool.Pool.AddTask | libpublic/workpool/workerPool.cpp:145-194 | the choice of the worker, round robin or by hash |
| WorkerPool.Pool.TaskCompleteStatus | libpublic/workpool/workerPool.cpp:123-138 | the counter is lowered and one waiting producer notified |
| WorkerPool.Pool.Handle | libpublic/workpool/worker.cpp:32-39 | a worker takes the front of its own queue |
| WorkerPool.Schedule | libpublic/workpool/workerPool.cpp:123-194 | every legal schedule, executed on the pool, ends in the state of its run and within the bound |
| Multipart.PartsAreExactIffRestartable | libnetwork/workflow-http/multipart_parser.c:213-259 | part data is exactly the bytes before the first CRLF and boundary, for every body, if and only if wherever that delimiter repeats its beginning it goes on there as it did at the beginning |
| Multipart.NoCrIsEnough | libnetwork/workflow-http/multipart_parser.c:213-259 | boundaries without CR, as section 5.1.1 of RFC 2046 requires, are such delimiters |
| Multipart.CrCanHideTheEnd | libnetwork/workflow-http/multipart_parser.c:213-259 | with a CR in the boundary a part can be seen not to end |
| Delimiter.NeverMissesIffRestartable | libnetwork/workflow-http/multipart_parser.c:233-259 | the search with the naive restart reports every first occurrence if and only if the delimiter is restartable |
| Delimiter.AdvanceKeepsLongest | libnetwork/workflow-http/multipart_parser.c:233-259 | for such a delimiter the matched part is always the longest beginning of it that ends the text so far |
| Multipart.RunApp | libnetwork/workflow-http/multipart_parser.c:111-303 | a body in two pieces is the first piece and then, unless that was refused, the second |
| MultipartParser.Parser.Execute | libnetwork/workflow-http/multipart_parser.c:111-303 | one buffer: the callbacks are given what the automaton reports for these bytes as one buffer, header names included, the number of accepted bytes is returned, and the loop ends although it steps back |
| MultipartParser.Parser.BoundaryByte | libnetwork/workflow-http/multipart_parser.c:246-259 | on a mismatch CRLF and the matched beginning of the boundary are given back from the look-behind buffer |
| MultipartParser.Parser.ScanByte | libnetwork/workflow-http/multipart_parser.c:116-300 | one round of the loop accepts the byte, refuses it, or gives a broken match back and leaves the byte for a re-scan |
| MultipartParser.ParseBody | libnetwork/workflow-http/multipart_parser.c:111-303 | however the body is cut into buffers, the callbacks are given exactly what the automaton reports for those buffers, header names included |
| MultipartParser.ParseAnyCuts | libnetwork/workflow-http/multipart_parser.c:111-303 | a body whose begun header names all reach their colons is reported alike whatever the cuts |
| BodyWriting.WrittenBodyIsReported | libnetwork/workflow-http/multipart_parser.c:111-303 | a body written from parts is accepted in full and reported part by part as it was written: the beginning of each part, its header names and values, the end of its headers, its data and its end, and at last the end of the body |
| BodyWriting.ReadWritten | libnetwork/workflow-http/multipart_parser.c:111-303 | the same for the parser, however the body is cut into buffers |
| BodyWriting.StepRefusesIff | libnetwork/workflow-http/multipart_parser.c:116-296 | place by place, exactly which bytes are refused |
| BodyCuts.CutsMatterIffNameDropped | libnetwork/workflow-http/multipart_parser.c:148-175 | some cuts of a body change what is reported if and only if some begun header name meets a CR or a refused byte before its colon |
| BodyCuts.CutsDoNotMatter | libnetwork/workflow-http/multipart_parser.c:148-175 | if no name does, all cuts give the reports of the uncut body |
| BodyCuts.OnlyNamesDependOnCuts | libnetwork/workflow-http/multipart_parser.c:111-303 | for any body, everything reported but header names, and the bytes accepted, are the same for all cuts |
| BodyCuts.NameWithoutColon | libnetwork/workflow-http/multipart_parser.c:148-175 | a header line without a colon and two ways of cutting it that are reported differently |
| MultipartParser.Parser.constructor | libnetwork/workflow-http/multipart_parser.c:69-87 | the initial state |
| DictIterator.OnTable | libredis/hiredis/dict.c:92-346 | every sequence of add, replace, delete and find is answered as a finite map answers it, and the table holds what the map holds |
| Dict.HashTable.Expand | libredis/hiredis/dict.c:92-139 | expansion leaves the contents unchanged and puts every entry into the bucket its hash selects in the larger table |
| Dict.HashTable.Add | libredis/hiredis/dict.c:142-164 | a new key is added, an existing one refused |
| Dict.HashTable.KeyIndex | libredis/hiredis/dict.c:270-288 | nothing exactly when the key is present, otherwise the bucket its hash selects; there is room for one more entry |
| Dict.HashTable.Find | libredis/hiredis/dict.c:198-212 | the value of the key, if any |
| Dict.HashTable.Replace | libredis/hiredis/dict.c:293-315 | the key has the new value, and the result tells whether it is new |
| Dict.HashTable.Delete | libredis/hiredis/dict.c:318-346 | the key is gone and no other bucket has changed |
| Dict.NextPower | libredis/hiredis/dict.c:255-265 | the first power of two from four on that is large enough |
| Dict.MoveFirst | libredis/hiredis/dict.c:112-131 | moving one entry between tables loses and changes nothing |
| DictIterator.VisitAll | libredis/hiredis/dict.c:221-239 | a walk visits every entry exactly once even when any of the returned entries are deleted before the next call |
| DictIterator.Iterator.Next | libredis/hiredis/dict.c:221-239 | the next entry of the walk, its successor saved |
| DictIterator.PairsAreEntries | libredis/hiredis/dict.c:221-239 | the walking order lists every entry of the map once |
| Quoting.SplitOfLine | libredis/hiredis/sds.c:872-1056 | splitting gives back every list of byte strings that was written quoted and separated by spaces, whatever bytes they contain |
| QuotedWords.SplitOfWords | libredis/hiredis/sds.c:940-1056 | splitting gives back the words of a line in whatever style each is written: bare, in double quotes or in single quotes |
| QuotedWords.RefusedLines | libredis/hiredis/sds.c:981-1012 | a quote that is never closed and text right after a closing quote are refused |
| QuotedWords.EscapesAreRead | libredis/hiredis/sds.c:955-981 | hexadecimal escapes are read in either case, and a backslash before any other character gives that character |
| QuotedWords.WrittenText | libredis/hiredis/sds.c:872-903 | what is written is printable, and which bytes are written in one, two and four characters |
| Quoting.CatRepr | libredis/hiredis/sds.c:872-903 | the loop appends the quoted text |
| Quoting.SplitArgs | libredis/hiredis/sds.c:940-1056 | the loops compute the split of any line, unbalanced quotes and text after a closing quote included |
| Quoting.EscapeIsRead | libredis/hiredis/sds.c:955-981 | each escape is read back as the byte it was written for, whatever follows |
| Calendar.NolocksLocaltime | libpublic/localtime.cpp:29-74 | the fields are in range exactly when the adjusted time is not negative, and then they denote that second, with consistent weekday and day of the year |
| Calendar.YearOf | libpublic/localtime.cpp:50-59 | the year loop finds the year and the day in it |
| Calendar.MonthOf | libpublic/localtime.cpp:63-73 | the month loop finds the month and the day in it |
| Calendar.StrictlyMonotone | libpublic/localtime.cpp:29-74 | later times have later dates |
| Calendar.OneDatePerSecond | libpublic/localtime.cpp:29-74 | each second has one date and each consistent date is the date of its own second |
| Calendar.MonthsMakeYear | libpublic/localtime.cpp:61-64 | the month lengths add up to the length of the year |
| Gregorian.DaysBeforeIs | libpublic/localtime.cpp:22-59 | the days before a year in closed form: 365 for each year, and leap days by fourths, hundredths and four hundredths |
| Gregorian.FourCenturies | libpublic/localtime.cpp:22-59 | four hundred years are 146097 days, a whole number of weeks |
| Gregorian.MonthDaysAre | libpublic/localtime.cpp:61-64 | which months have 31 and which 30 days, and when February has 29 |
| Gregorian.TurnOfTheMillennium | libpublic/localtime.cpp:22-59 | known answers: 1 January 2000 was day 10957 and a Saturday, 2000 was a leap year and 2100 will not be one |
| Calendar.WeekOfYear | libpublic/datetime.cpp:568-591 | the week is the weekday of 1 January plus the day of the year, divided by seven, plus one |
| Calendar.WeeksStartOnSundays | libpublic/datetime.cpp:568-591 | from one day of a year to the next the week goes up on Sundays and on no other day |

## Left out

- Sockets, TLS, polling, timeouts and the event-loop adapters: bytes, replies and failures arrive as inputs of the model.
- Allocation failure: every allocation succeeds; the out-of-memory branches are not modelled.
- Widths of C integers where the code relies on their not overflowing: buffers and argument counts are below 2^31, and `int`, `size_t` and the accumulated command lengths are unbounded. Widths that matter are explicit: 64-bit parsing and printing, the scanner's 32-bit counters, the pool's 32-bit counter and the 16-bit checksum.
- Capacity of dynamic strings in the reader: the buffer is a sequence; freeing a large empty buffer before a feed is not modelled.
- Doubles: their payload is kept as text and which texts are valid is a parameter.
- User-supplied reply functions and private data of the reader: the default builders are modelled.
- `redisvFormatCommand` and its format strings: arguments arrive as a list.
- Reader.RedisReader.CreateObject: objects live in a growing heap indexed by integers; freeing a partly built reply after an error is not modelled.
- Integers.Itoa: the smallest int, whose absolute value is not an int.
- Scanner.ScanCommand: the error texts are not modelled, only that the command is refused.
- Sub-command records of the splitter are values in the slot table, so the sharing of one record between the table and the key list is recorded as the slot number.
- Fragment.EncodeSub: when the number buffer is stale the code writes past the computed length; the method asks for the condition under which it does not, and `Encoding.EncodingIsExact` says exactly when that is.
- ClusterCommand.RunCommand: a server is modelled by what it does with MGET, DEL, EXISTS and MSET on one shared key space; replies reach the merge as decoded values, and redirects and failing servers are the subject of `Redirect`, not of this result.
- Routing.SortByStart: the library sort is replaced by an insertion sort; how it orders ranges with equal starts is not modelled, and such ranges are refused anyway.
- Parsing the topology reply, replicas, connection reuse between topologies and the statistics kept per node.
- The cached node for ASK redirects and the pipelined and asynchronous cluster interfaces.
- Redirect.Client.FormattedCommand: which node a command goes to is left open; the environment decides what every round meets, and only termination by I/O failure or reply is assumed.
- Publish/subscribe, monitor mode and the timeout handler of the asynchronous context; connect and disconnect callbacks are assumed not to call back in.
- AsyncContext.Context.Command: the callback queue is a sequence rather than a linked list.
- Fairness and liveness of the locks and the pool beyond the absence of lost wake-ups for the locks; unlocking by a thread that does not hold the lock.
- WorkerPool.RunKeeps: stopping the pool, the failure counter and the completion callback are not modelled, and the limit is enabled before the start.
- MultipartParser.ParseBody: callbacks return zero; boundaries are non-empty.
- Dict.HashTable.Delete: chains are list values, so relinking an entry in place is written as replacing its bucket's chain; the same holds for overwriting a value in place.
- Dict.NextPower: the guard for sizes near the largest integer; sizes stay far below it.
- Quoting.SplitArgs: lines and separators are bytes in the C locale; a NUL ends the line.
- Calendar.NolocksLocaltime: the time zone and the daylight flag are parameters; the Windows branch uses the system routine.
- PG and Redis connection pools, the libevent server, the HTTP engine, URL, string, timer and UUID helpers: plumbing over libraries that are not part of this model.
