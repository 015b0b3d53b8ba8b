# Models of Telegram Desktop's self-contained algorithms and request machines

Each file models one component of the repository in the form the source gives it, and proves
what it is for. Methods follow the source step by step, on arrays, node objects and fields that are
reassigned; they are proved against specifications on values; lemmas prove what the source promises
of these, and `Run` methods state it for every sequence of events.

| file | models |
|---|---|
| `Sha1.dfy` | the packer's SHA-1, against FIPS 180-4 written as functions |
| `AllocationTrace.dfy` | the allocation-trace reader, and the tracer that writes what it reads |
| `TraceHistory.dfy` | what the reader knows after any file, by a look back over its records |
| `Morphdom.dfy` | morphdom on trees without ids, on a heap of nodes |
| `MessageData.dfy` | requests for message data, with callbacks that ask again |
| `WebPages.dfy` | pending web pages and their temporary ids |
| `FileReferences.dfy` | refreshing file references |
| `Forward.dfy` | forwarding in batches, and the shared callback |
| `StickerSets.dfy`, `StickerRequests.dfy` | saving sticker sets: the sets, and the requests |
| `ListHash.dfy` | the 64-bit list hash |
| `PremiumRequired.dfy` | the batches that ask who requires Premium |
| `InviteLinks.dfy` | the cache of one's own invite links |
| `IvNavigation.dfy` | the instant view's pages and history |
| `MessagesSearch.dfy` | search tokens and cached first pages |
| `SendProgress.dfy` | the typing throttle |
| `Ascending.dfy`, `Options.dfy` | ordered sets and optional values, shared |

## How the rest of the program appears

- The sender of requests gives fresh positive ids; each request is answered or fails at most once,
  and not after it was cancelled. Clocks, random ids, the browser's history, what the server sends
  and what pages or messages are known are parameters.
- A callback or handler is a value that lists what it asks for in turn when it is run, so that runs in which
  callbacks ask again are runs of the model.
- Ordered containers are maps that loops go through from the least key; the order of pointers is the
  order of the numbers that stand for them.
- Sequences of events are arbitrary; an event that cannot happen in a state does nothing.

## Where a property has a condition

- SHA-1 padding is the standard's if and only if the message is shorter than 2^29 bytes
  (`PadOfIsPad`): the length field is 32 bits wide. From 0xffffffc0 bytes on the sum `block + 64` wraps and
  the loop over full blocks never ends (`LoopEnds`, `StuckBlock`), so `HashSha1` asks for less.
- The list hash separates lists of one length that differ in exactly one element (`OneDifference`). Others
  can hash alike (`TwoAlike`); `HashAlike` says exactly when. Zeros in front of a list leave no trace
  (`LeadingZeros`).
- `IV.position` stays right if and only if the browser moves to an entry for another page than the shown one
  (`NumberedMoved`, `NumberedIfApart`); two steps back at once can break it (`JumpLosesPosition`).
- A cached first page is that of its search as long as no request had to wait for deleted messages;
  otherwise a request is sent with the search of the moment it is sent, and its answer kept under the
  token of the moment it was made. The cache stays right through an event if and only if that is fair
  (`RightIfFair`, `AgreesCached`); `WrongAnswerCached` is a run in which it does not.
- Search tokens separate searches without line breaks in their texts (`TokenTells`); with line breaks every
  token is also that of a mere text (`LineBreakConfuses`).
- The invite-link cache is right if and only if the server never makes a link behind the first active
  and never sends a page with two active ones for a chat with none (`InviteLinks.Handle`, `RightIfTrusted`). A server that
  contradicts nothing it said of a link before is so trusted throughout (`SteadyIsTrusted`). The count can fall
  behind the list in two ways (`CountCovers`), and does when a permanent link is set first of all
  (`CountFallsBehind`).
- A due web page that no message shows stays pending with no timer for it (`LeftWaiting`), and so does one
  whose request has failed, as the source has no handler for failures (`LeftStranded`). When nothing is in
  flight and no timer is set, exactly such pages are left (`ResolveWebPages`, `WebPages.Run`).
- Live progress requests are those kept track of if and only if no failed request is still kept
  (`LiveAreKept`): the source has no handler for failures (`FailureIsKept`, `FailureIsForgotten`).

## Model

| member | source | states |
|---|---|---|
| PackerSha1.HashSha1 | Telegram/SourceFiles/_other/packer.cpp:96-132 | for every input on which the loop ends, also one that is its own destination, the first 20 bytes of the destination are the digest of the padded message and nothing else of it changes; below 2^29 bytes they are SHA-1 of FIPS 180-4 (sections 5.1.1, 5.2.1, 5.3.1 and 6.1.2) |
| PackerSha1.LoopEnds | Telegram/SourceFiles/_other/packer.cpp:101-109 | of the lengths a 32-bit variable can hold, the block loop ends exactly for those below 0xffffffc0 |
| PackerSha1.StuckBlock | Telegram/SourceFiles/_other/packer.cpp:101-102 | for the others the test holds in every round, and from some round on the block is the same again |
| PackerSha1.PadOfIsPad | Telegram/SourceFiles/_other/packer.cpp:111-123 | the padding written, with a zero high length word, is that of section 5.1.1 if and only if the message is shorter than 2^29 bytes |
| PackerSha1.Sha1PartHash | Telegram/SourceFiles/_other/packer.cpp:60-92 | eighty in-place rounds over the sixteen loaded words and the final additions are the standard's compression of one block (section 6.1.2) |
| PackerSha1.Extend | Telegram/SourceFiles/_other/packer.cpp:73-76 | one step of the in-place message schedule keeps the words up to it equal to the standard's W |
| PackerSha1.RunRounds | Telegram/SourceFiles/_other/packer.cpp:78-82 | the five loops of rounds give the standard's working variables after round 80 |
| PackerSha1.ChooseIsCh | Telegram/SourceFiles/_other/packer.cpp:78-79 | the or-form of the first function is Ch of section 4.1.1 |
| PackerSha1.MajorityIsMaj | Telegram/SourceFiles/_other/packer.cpp:81 | the or-form of the third function is Maj of section 4.1.1 |
| PackerSha1.LoadBlock | Telegram/SourceFiles/_other/packer.cpp:102-107 | sixty-four bytes become the sixteen big-endian words of section 5.2.1 |
| PackerSha1.LoadTail | Telegram/SourceFiles/_other/packer.cpp:111-117 | or-ing the remaining bytes and 0x80 into cleared words is the block of the bytes, 0x80 and zeros |
| PackerSha1.TailInOneBlock | Telegram/SourceFiles/_other/packer.cpp:117-123 | with fewer than 56 bytes left the padded message ends in one more block |
| PackerSha1.TailInTwoBlocks | Telegram/SourceFiles/_other/packer.cpp:118-123 | with 56 bytes or more left it ends in two more blocks, the length in the second |
| PackerSha1.HashTail | Telegram/SourceFiles/_other/packer.cpp:111-123 | after the tail the chaining value is that of the whole padded message |
| PackerSha1.HashBlocks | Telegram/SourceFiles/_other/packer.cpp:101-109 | after the full blocks the chaining value is that of all of them, with the 32-bit loop bound written out |
| PackerSha1.WriteDigest | Telegram/SourceFiles/_other/packer.cpp:125-129 | the twenty bytes are the five words in big-endian order, and nothing behind them changes |
| PackerSha1.WordRoundTrip | Telegram/SourceFiles/_other/packer.cpp:103-106 | four bytes of a word put together again are the word |
| TraceFormat.DecodeEncode | cmake/linux_allocation_tracer/linux_allocation_trace_reader.cpp:140-158 | decoding an encoded record gives it back |
| TraceFormat.LeRoundTrip | cmake/linux_allocation_tracer/linux_allocation_trace_reader.cpp:85-86 | a little-endian number is read back from wherever it was written |
| TraceFormat.RecordsSplit | cmake/linux_allocation_tracer/linux_allocation_trace_reader.cpp:120-163 | parsing a range is parsing its first part and then the rest from the first unparsed byte, wherever it is split; garbage in the first part stops both |
| TraceFormat.RecordsMoved | cmake/linux_allocation_tracer/linux_allocation_trace_reader.cpp:198-201 | moving bytes to another place changes nothing about what they parse to |
| TraceFormat.ApplyAllSplit | cmake/linux_allocation_tracer/linux_allocation_trace_reader.cpp:122-161 | applying records in two portions is applying them all |
| TraceFormat.SumWithout | cmake/linux_allocation_tracer/linux_allocation_trace_reader.cpp:41-67 | the total of a snapshot is the sum of the live sizes: without an address it is less by its size |
| TraceFormat.SumOfOne | cmake/linux_allocation_tracer/linux_allocation_trace_reader.cpp:41-67 | the total of one block is its size, and that of none is zero |
| TraceReader.Reader.PrintState | cmake/linux_allocation_tracer/linux_allocation_trace_reader.cpp:41-67 | a snapshot is printed unless no time is known, with the sum of the live sizes modulo 2^64 |
| TraceReader.Reader.Add | cmake/linux_allocation_tracer/linux_allocation_trace_reader.cpp:69-82 | a repeated address is warned about and keeps its size |
| TraceReader.Reader.ParseEntry | cmake/linux_allocation_tracer/linux_allocation_trace_reader.cpp:140-158 | one entry in the buffer changes the state as its decoded record does |
| TraceReader.Reader.Parse | cmake/linux_allocation_tracer/linux_allocation_trace_reader.cpp:120-163 | parsing the buffer in place applies exactly the records of its bytes; the result says how many bytes were used, or that garbage was met |
| TraceReader.Reader.ReadFile | cmake/linux_allocation_tracer/linux_allocation_trace_reader.cpp:181-202 | for every file and every way the reads split it, the loop ends as one parse of the whole file: same state, same garbage stop, same leftover; it terminates with a leftover below 29 bytes |
| TraceReader.Reader.ReadTrace | cmake/linux_allocation_tracer/linux_allocation_trace_reader.cpp:181-203 | the whole run with the warning about a corrupt end and the last snapshot |
| TraceReader.Reader.MoveToFront | cmake/linux_allocation_tracer/linux_allocation_trace_reader.cpp:198-201 | the unparsed rest of the file is at the front of the buffer again |
| TraceReader.NextPortion | cmake/linux_allocation_tracer/linux_allocation_trace_reader.cpp:183-198 | a portion that stops early, taken up again, is the longer portion |
| TraceLaws.ApplyAllKeeps | cmake/linux_allocation_tracer/linux_allocation_trace_reader.cpp:69-158 | after every sequence of records live + repeated warnings + frees = mallocs + unknown reallocs, and snapshots have strictly increasing times |
| TraceLaws.RunLaws | cmake/linux_allocation_tracer/linux_allocation_trace_reader.cpp:181-203 | both laws hold of the whole run over any file, and of its last snapshot |
| TraceLaws.ApplyComplains | cmake/linux_allocation_tracer/linux_allocation_trace_reader.cpp:140-158 | a record adds no warning and no unknown count if and only if it is legal for the live heap and the clock |
| TraceLaws.ApplyAllComplains | cmake/linux_allocation_tracer/linux_allocation_trace_reader.cpp:120-163 | the same for every sequence of records; and then the map is the heap and the output its reports |
| TraceLaws.RecordsOfEncoded | cmake/linux_allocation_tracer/linux_allocation_trace_reader.cpp:120-163 | a file of encoded records parses to these records with nothing left |
| TraceLaws.TracedHeap | cmake/linux_allocation_tracer/linux_allocation_trace_reader.cpp:120-163 | parsing a written trace is silent if and only if the trace is a legal heap history, and then the map equals the live heap with its sizes |
| TraceHistory.RunExplained | cmake/linux_allocation_tracer/linux_allocation_trace_reader.cpp:181-203 | over any file, legal or not: an address is live if and only if the last record that speaks of it gives it, with the size of the earliest to give it since it was taken or resized; each of the five counters counts the records of its part; and the output is what each record calls for, a complaint about what remains, and a last report |
| TraceHistory.AtExplained | cmake/linux_allocation_tracer/linux_allocation_trace_reader.cpp:122-161 | the same after every number of records |
| TraceHistory.SizedOnce | cmake/linux_allocation_tracer/linux_allocation_trace_reader.cpp:69-118 | an address has exactly one record that says its size if and only if it is given |
| TraceHistory.EveryFile | cmake/linux_allocation_tracer/linux_allocation_trace_reader.cpp:120-163 | every file is the encoding of some records and what remains: nothing, the start of a record, or a byte that starts none |
| TraceHistory.FileParsed | cmake/linux_allocation_tracer/linux_allocation_trace_reader.cpp:120-163 | such a file is parsed into exactly these records, and parsing stops where they end |
| TraceHistory.EncodeDecode | cmake/linux_allocation_tracer/linux_allocation_trace_reader.cpp:140-158 | encoding what was decoded gives the bytes back |
| TraceWriter.Writer.AppendEntry | Telegram/lib_base/base/platform/linux/base_linux_allocation_tracer.cpp:46-57 | what is in the file and the block together grows by exactly the entry, also when the block is written out |
| TraceWriter.Writer.LogMalloc | Telegram/lib_base/base/platform/linux/base_linux_allocation_tracer.cpp:59-67 | logs the encoding of one malloc record |
| TraceWriter.Writer.LogRealloc | Telegram/lib_base/base/platform/linux/base_linux_allocation_tracer.cpp:81-94 | logs the encoding of one realloc record, or of a malloc for a null pointer |
| TraceWriter.Writer.LogFree | Telegram/lib_base/base/platform/linux/base_linux_allocation_tracer.cpp:108-116 | logs the encoding of one free record, or nothing for a null pointer |
| Morphdom.Morph | Telegram/Resources/iv_html/morphdom-umd.min.2.7.2.js:1 | morphing any tree without ids into any other leaves, in place of the first below its parent, a tree that is the original target: same children in order, same values and attributes, every name the target's up to letter case; it equals the one result that editing comes to, with and without the hook that skips equal elements, and unless that hook meets nodes of other types the very nodes are those of the result |
| Morphdom.MorphRoot | Telegram/Resources/iv_html/morphdom-umd.min.2.7.2.js:1 | the node that results is the original one exactly if types and names allow it, otherwise the target or a new element of its name |
| Morphdom.Renamed | Telegram/Resources/iv_html/morphdom-umd.min.2.7.2.js:1 | an element of another name gives its children to a new element, which is edited into the target |
| Morphdom.MorphEl | Telegram/Resources/iv_html/morphdom-umd.min.2.7.2.js:1 | an element with its attributes and children becomes the target's, at the same node |
| Morphdom.MorphChildren | Telegram/Resources/iv_html/morphdom-umd.min.2.7.2.js:1 | the two sibling cursors leave exactly the target's children, in order |
| Morphdom.MorphNext | Telegram/Resources/iv_html/morphdom-umd.min.2.7.2.js:1 | one round matches the next target child, dropping incompatible ones before it, or moves it over |
| Morphdom.MorphChild | Telegram/Resources/iv_html/morphdom-umd.min.2.7.2.js:1 | editing one child leaves the finished, the remaining and the unmatched children untouched |
| Morphdom.AppendChild | Telegram/Resources/iv_html/morphdom-umd.min.2.7.2.js:1 | a target child nothing can be morphed into moves from the target to the end of the children |
| Morphdom.DropIncompatible | Telegram/Resources/iv_html/morphdom-umd.min.2.7.2.js:1 | children are dropped up to the first one of the same type (and name), and no further |
| Morphdom.CleanUp | Telegram/Resources/iv_html/morphdom-umd.min.2.7.2.js:1 | the children left over are removed and no others |
| Morphdom.MorphAttrs | Telegram/Resources/iv_html/morphdom-umd.min.2.7.2.js:1 | setting backwards and then removing backwards leaves exactly the target's attributes |
| Morphdom.MoveChildren | Telegram/Resources/iv_html/morphdom-umd.min.2.7.2.js:1 | all children move, in order |
| Morphdom.IsEqualNode | Telegram/Resources/iv_html/page.js:442 | the hook's test is equality of the two trees |
| Dom.EqualIsSame | Telegram/Resources/iv_html/page.js:442 | skipping equal elements is sound: equal trees are the same document |
| Dom.SameIsEqual | Telegram/Resources/iv_html/morphdom-umd.min.2.7.2.js:1 | between HTML documents, whose names start in upper case, being the same up to compareNodeNames is being equal |
| Dom.NamesMatch | Telegram/Resources/iv_html/morphdom-umd.min.2.7.2.js:1 | names that compareNodeNames matches are one name up to letter case, whichever comes first; where neither changes case only equal names match |
| Dom.CasesMatch | Telegram/Resources/iv_html/morphdom-umd.min.2.7.2.js:1 | a name in lower case and the same name in upper case match, both ways |
| Dom.UpperMeans | Telegram/Resources/iv_html/morphdom-umd.min.2.7.2.js:1 | upper case changes each of the twenty-six letters to its capital and nothing else |
| Dom.SameNames | Telegram/Resources/iv_html/morphdom-umd.min.2.7.2.js:1 | all names of trees that are the same document are one up to letter case |
| Morphdom.WithAndWithoutHook | Telegram/Resources/iv_html/page.js:421-443 | two copies of any document and target, morphed with the hook that skips equal elements and without it, end up equal, names included |
| Morphdom.OneOutcome | Telegram/Resources/iv_html/morphdom-umd.min.2.7.2.js:1 | whatever two runs leave for equal documents and equal targets is equal |
| Morphdom.ResultOfEqual | Telegram/Resources/iv_html/page.js:442 | leaving an equal element alone is what editing it comes to |
| Morphdom.NothingReplaced | Telegram/Resources/iv_html/morphdom-umd.min.2.7.2.js:1 | a document that equals its target keeps every node, and is left as it is |
| Morphdom.NodesStay | Telegram/Resources/iv_html/morphdom-umd.min.2.7.2.js:1 | where types and names match throughout every node stays in its place, whatever texts, comments and attributes differ |
| Morphdom.OthersAreNew | Telegram/Resources/iv_html/morphdom-umd.min.2.7.2.js:1 | nodes of other types than elements, texts and comments are never edited: those in the result are the target's |
| Morphdom.ResultEqual | Telegram/Resources/iv_html/morphdom-umd.min.2.7.2.js:1 | equal documents are edited to equal documents, whichever nodes hold them |
| Dom.OneResult | Telegram/Resources/iv_html/morphdom-umd.min.2.7.2.js:1 | trees that are the same as one HTML target are equal |
| Dom.NamesOfNodes | Telegram/Resources/iv_html/morphdom-umd.min.2.7.2.js:1 | a tree made of nodes with upper-case names is an HTML tree |
| MessageData.MessageDatas.RequestMessageData | Telegram/SourceFiles/apiwrap.cpp:575-588 | a call adds its callback to the entry of its message, made when missing, and queues a resolve if that is unsent |
| MessageData.MessageDatas.CollectMessageIds | Telegram/SourceFiles/apiwrap.cpp:590-601 | the ids of the unsent entries, each once, in order |
| MessageData.MessageDatas.Send | Telegram/SourceFiles/apiwrap.cpp:625-644 | one request for exactly the unsent entries, which are stamped with its id; none if there are none |
| MessageData.MessageDatas.ResolveMessageDatas | Telegram/SourceFiles/apiwrap.cpp:620-674 | one request for each channel with unsent entries, stamped entries and callbacks untouched, and nothing unsent left |
| MessageData.MessageDatas.TakeCallbacks | Telegram/SourceFiles/apiwrap.cpp:676-702 | exactly the entries of the request go, and their callbacks come out in the order of the messages |
| MessageData.MessageDatas.FinalizeMessageDataRequest | Telegram/SourceFiles/apiwrap.cpp:676-706 | these callbacks run, in order, once each, while they may ask again |
| MessageData.MessageDatas.Quiet | Telegram/SourceFiles/apiwrap.cpp:575-706 | with nothing queued and nothing in flight no callback is left, and every callback has run as often as it was passed |
| MessageData.Run | Telegram/SourceFiles/apiwrap.cpp:575-706 | over every interleaving of calls, queued resolves and answers, what has run and what waits is what callers and run callbacks have passed |
| MessageData.KeptMore | Telegram/SourceFiles/apiwrap.cpp:575-588 | a call keeps: unsent entries have a resolve queued, stamped ones are in the list of a request in flight, and each list is of entries stamped with it |
| MessageData.KeptSent | Telegram/SourceFiles/apiwrap.cpp:625-644 | sending keeps it, for the channels not visited yet too |
| MessageData.KeptAnswered | Telegram/SourceFiles/apiwrap.cpp:676-698 | answers keep it |
| MessageData.BalancedMore | Telegram/SourceFiles/apiwrap.cpp:575-588 | a call adds one callback to those that have run, run or wait |
| MessageData.MoreInOrder | Telegram/SourceFiles/apiwrap.cpp:575-588 | callbacks join their message's entry behind those that came before |
| MessageData.GatheredInOrder | Telegram/SourceFiles/apiwrap.cpp:676-706 | those of a request run in the order of their messages |
| MessageData.GatheredOne | Telegram/SourceFiles/apiwrap.cpp:676-706 | those of one message run as they came |
| MessageData.BalancedAnswered | Telegram/SourceFiles/apiwrap.cpp:684-698 | taking the callbacks of a request loses and doubles none |
| MessageData.AgreesAnswered | Telegram/SourceFiles/apiwrap.cpp:684-702 | the maps by channel and message stay one flat map, also when a channel's last entry goes |
| WebPages.PendingPages.Encode | Telegram/SourceFiles/apiwrap.cpp:2276-2312 | the first pass leaves for every due page the temporary id of its channel, numbers channels by first appearance, and lists messages in page order |
| WebPages.PendingPages.SendAll | Telegram/SourceFiles/apiwrap.cpp:2314-2336 | one request for each list, found by the number of its channel although they are sent in another order |
| WebPages.PendingPages.Decode | Telegram/SourceFiles/apiwrap.cpp:2337-2348 | temporary ids are replaced by request ids without an index out of range |
| WebPages.CodesInRange | Telegram/SourceFiles/apiwrap.cpp:2337-2348 | every temporary id leads to a request that was sent |
| WebPages.DueDecoded | Telegram/SourceFiles/apiwrap.cpp:2337-2348 | the id a due page is given is that of the new request for its channel |
| WebPages.PendingPages.ResolveWebPages | Telegram/SourceFiles/apiwrap.cpp:2276-2351 | each due page gets the one request of its channel, all other pages keep their id, none is negative; the timer is set for the next page that is not due; if then nothing is in flight or set, the pages left are exactly those due without a message and those whose request has failed |
| WebPages.AskedFor | Telegram/SourceFiles/apiwrap.cpp:2276-2348 | the request a due page waits for asks for its message, and no other new request is for that channel |
| WebPages.PendingPages.RequestWebPageDelayed | Telegram/SourceFiles/apiwrap.cpp:2253-2262 | a page with a time joins unsent, and the timer is on, moved only to an earlier time |
| WebPages.PendingPages.ClearWebPageRequest | Telegram/SourceFiles/apiwrap.cpp:2264-2269 | the page goes; the timer goes with the last one |
| WebPages.PendingPages.GotWebPages | Telegram/SourceFiles/apiwrap.cpp:2566-2581 | exactly the pages of the request go, and those that still have a time fail |
| WebPages.PendingPages.Fail | Telegram/SourceFiles/apiwrap.cpp:2314-2336 | a failed request, for which there is no handler, leaves its pages with an id that means nothing any more |
| WebPages.Run | Telegram/SourceFiles/apiwrap.cpp:2253-2351 | over every sequence of requests, timer calls, answers and failures no temporary id is left behind; an unsent page waits for the timer or was due when no message showed it, a sent one waits for its request in flight if and only if that has not failed; at rest exactly the skipped and the stranded pages are left, and without failures none is stranded; the pending pages are between those surely left by the events and those ever asked for |
| WebPages.LeftWaiting | Telegram/SourceFiles/apiwrap.cpp:2285-2312 | for every page and time there is a run after which the page is pending with nothing in flight and no timer |
| WebPages.LeftStranded | Telegram/SourceFiles/apiwrap.cpp:2276-2351 | for every page, time and message there is a run after which the page is pending with the id of a failed request, nothing in flight and no timer, although it was asked for again and the timer fired again |
| WebPages.PendingPages.AtRest | Telegram/SourceFiles/apiwrap.cpp:2253-2351 | with nothing in flight and no timer exactly the pages are left that were due when no message showed them or whose request has failed |
| FileReferences.References.RequestFileReference | Telegram/SourceFiles/apiwrap.cpp:2354-2396 | a handler joins the list of a request in flight or starts list and request together |
| FileReferences.References.Enter | Telegram/SourceFiles/apiwrap.cpp:2424-2440 | the extra handler is added only behind the one that started the request, so at most once for each request |
| FileReferences.EnteredMeans | Telegram/SourceFiles/apiwrap.cpp:2424-2440 | the call that starts a list enters its handler first and the extra one behind it if and only if it asks for that, with one request; any other enters its handler alone, behind all that wait |
| FileReferences.References.RefreshFileReference | Telegram/SourceFiles/apiwrap.cpp:2418-2440 | a call enters the list of its origin, or is told at once that there is nothing |
| FileReferences.References.Answer | Telegram/SourceFiles/apiwrap.cpp:2368-2404 | the list of an answered request is there; it goes, and its handlers run, also when they ask again |
| FileReferences.PairedStart | Telegram/SourceFiles/apiwrap.cpp:2362-2368 | a list and its one request begin together |
| FileReferences.PairedDone | Telegram/SourceFiles/apiwrap.cpp:2390-2393 | and end together |
| FileReferences.References.Quiet | Telegram/SourceFiles/apiwrap.cpp:2354-2405 | with no request in flight every handler has run, as often as it was passed |
| FileReferences.References.RunHandler | Telegram/SourceFiles/apiwrap.cpp:2399-2404 | the handlers passed while one runs are those it asks with and those passed by handlers told at once meanwhile |
| FileReferences.Run | Telegram/SourceFiles/apiwrap.cpp:2354-2440 | in every run there is a list for an origin if and only if a request for it is in flight; the handlers passed are those of callers and of handlers that have run, and at rest each has run as often as it was passed |
| Forward.ForwardMessages | Telegram/SourceFiles/apiwrap.cpp:3272-3360 | the batches are the items in order, ids and random ids in pairs, each batch from one chat, neighbours from different ones |
| Forward.OneWay | Telegram/SourceFiles/apiwrap.cpp:3272-3360 | there is only one such division, so the runs are maximal |
| Forward.Shared.Done | Telegram/SourceFiles/apiwrap.cpp:3299-3304 | the shared callback is called by the answer that completes all batches and by no other |
| Forward.Shared.Fail | Telegram/SourceFiles/apiwrap.cpp:3305-3314 | a failed batch never completes |
| Forward.Run | Telegram/SourceFiles/apiwrap.cpp:3214-3360 | for every sequence of answers each batch has its first answer, and the callback has been called, once, if and only if every batch's first answer is a success |
| Forward.FirstAnswerMeans | Telegram/SourceFiles/apiwrap.cpp:3299-3310 | a batch has succeeded if and only if the first answer to it is a success, and waits if and only if there is none |
| StickerSets.ChangesMean | Telegram/SourceFiles/apiwrap.cpp:1531-1650 | each removed set that is met is uninstalled, each archived set that stays and is ordered is installed once, and each of the two lists of recent stickers is cleared if and only if it is removed |
| StickerSets.LocalStickers.SaveSets | Telegram/SourceFiles/apiwrap.cpp:1510-1673 | five loops over the sets leave of each what its own old value and its membership in order and removed list say; the order, the recent stickers and the requests are given exactly |
| StickerSets.SavedMeans | Telegram/SourceFiles/apiwrap.cpp:1612-1673 | no set stays without a keeping flag or lock; a set of the type that is not archived is installed if and only if it is in the order; the order kept is the user's, restricted to surviving sets: an id is in it if and only if it is in the user's and its set survives |
| StickerSets.SavedOrdered | Telegram/SourceFiles/apiwrap.cpp:1625-1659 | a set put in the order is installed, unarchived unless it was to be removed, dated unless it has a date, and otherwise unchanged |
| StickerSets.SavedStays | Telegram/SourceFiles/apiwrap.cpp:1612-1673 | a known set that is put in the order and not removed stays |
| StickerSets.RecentMeans | Telegram/SourceFiles/apiwrap.cpp:1530-1610 | a recent sticker stays if and only if no list of recent ones is removed and it is in no removed set that is known; those that stay keep their order |
| StickerSets.SavedLeaves | Telegram/SourceFiles/apiwrap.cpp:1530-1673 | sets that are not in the order are changed only in what their removal or type calls for, and not lost while something keeps them |
| StickerSets.LocalStickers.RemoveSets | Telegram/SourceFiles/apiwrap.cpp:1530-1610 | the removal loop for sets, recent stickers and requests |
| StickerSets.LocalStickers.DropRecent | Telegram/SourceFiles/apiwrap.cpp:1569-1576 | erasing in place leaves the recent stickers that are not of the set, in order |
| StickerSets.LocalStickers.ClearInstalled | Telegram/SourceFiles/apiwrap.cpp:1612-1623 | the installed mark goes from unarchived sets of the type |
| StickerSets.LocalStickers.OrderSets | Telegram/SourceFiles/apiwrap.cpp:1625-1659 | known sets of the order are installed, unarchived and dated |
| StickerSets.LocalStickers.Sweep | Telegram/SourceFiles/apiwrap.cpp:1661-1673 | exactly the sets without a keeping flag or lock go |
| StickerRequests.Requests.Save | Telegram/SourceFiles/apiwrap.cpp:1447-1463 | a save cancels what its type has in flight and asks for its changes in order: the request of each change asks for that change, knows the type and the order, and is in flight under its own id; nothing else of the type is in flight; the order goes at once if there are none |
| StickerRequests.Requests.Disenabled | Telegram/SourceFiles/apiwrap.cpp:1496-1507 | the last install or uninstall answered sends the order, which is that of the last save |
| StickerRequests.Requests.Reordered | Telegram/SourceFiles/apiwrap.cpp:1477-1479 | an answered reorder leaves nothing of it |
| StickerRequests.Requests.Cleared | Telegram/SourceFiles/apiwrap.cpp:1555-1562 | an answered clearing of recent stickers is forgotten |
| StickerRequests.Requests.NeverTogether | Telegram/SourceFiles/apiwrap.cpp:1447-1507 | a reorder is never outstanding together with an install, an uninstall or another reorder of its type |
| StickerRequests.Requests.OrderSent | Telegram/SourceFiles/apiwrap.cpp:1455-1507 | when nothing of a type is outstanding its last save has sent its order exactly once if it had two sets, and not otherwise |
| StickerRequests.TrackedSending | Telegram/SourceFiles/apiwrap.cpp:1585-1593 | the ids kept for a type are those of its requests in flight while a save sends |
| StickerRequests.Run | Telegram/SourceFiles/apiwrap.cpp:1438-1712 | over every sequence of saves and answers the sets are those the saves leave, what is tracked of a type belongs to its last save, and no reorder is outstanding beside another request of its type |
| StickerRequests.Handle | Telegram/SourceFiles/apiwrap.cpp:1447-1673 | right after a save an uninstall is in flight for the type if and only if its set was removed and met, and an install if and only if its set was archived, stays and was put in the order |
| StickerRequests.LastOrderMeans | Telegram/SourceFiles/apiwrap.cpp:1447-1463 | the last order of a type is that of its latest save |
| StickerRequests.TrackedCancelled | Telegram/SourceFiles/apiwrap.cpp:1455-1460 | cancelling takes every request of the type and none of another |
| ListHash.HashUpdate | Telegram/SourceFiles/api/api_hash.h:40-45 | the in-place update computes the specified one |
| ListHash.UpdateUndone | Telegram/SourceFiles/api/api_hash.h:40-45 | for each value the update has an inverse |
| ListHash.UpdateRedone | Telegram/SourceFiles/api/api_hash.h:40-45 | which is an inverse from both sides: a bijection of the state |
| ListHash.UpdateTellsStates | Telegram/SourceFiles/api/api_hash.h:40-45 | injective in the state |
| ListHash.UpdateTellsValues | Telegram/SourceFiles/api/api_hash.h:40-45 | injective in the value |
| ListHash.UnsignedTellsValues | Telegram/SourceFiles/api/api_hash.h:51-53 | widening an unsigned value keeps values apart |
| ListHash.SignedTellsValues | Telegram/SourceFiles/api/api_hash.h:55-57 | widening a signed value keeps values apart |
| ListHash.SignedComplements | Telegram/SourceFiles/api/api_hash.h:55-57 | widening with the sign keeps the complement, which is one less than the opposite number |
| ListHash.SignedOfSmall | Telegram/SourceFiles/api/api_hash.h:55-57 | a number that is not negative is widened as it is |
| ListHash.CountHash | Telegram/SourceFiles/api/api_hash.h:63-70 | the loop computes the hash of the list |
| ListHash.SameEnd | Telegram/SourceFiles/api/api_hash.h:63-70 | lists followed by the same elements hash alike if and only if they do themselves |
| ListHash.OneDifference | Telegram/SourceFiles/api/api_hash.h:63-70 | lists of one length that differ in exactly one element never hash alike |
| ListHash.HashAlike | Telegram/SourceFiles/api/api_hash.h:63-70 | two lists of one length hash alike if and only if, at the last place where they differ, the one has the difference between the other's hash up to there and its own before it, mixed |
| ListHash.TwoAlike | Telegram/SourceFiles/api/api_hash.h:63-70 | for every x the lists x, 0 and 0, mixed x hash alike |
| ListHash.LeadingZeros | Telegram/SourceFiles/api/api_hash.h:63-70 | lists of different length can: zeros in front leave no trace |
| ListHash.CountStickersOrderHash | Telegram/SourceFiles/api/api_hash.cpp:38-62 | the hash of the counted sets, or zero when outdated information is found and asked for |
| ListHash.ChangedSetNoticed | Telegram/SourceFiles/api/api_hash.cpp:38-62 | one counted set with another hash changes the result if and only if no outdated information is found and asked for, when the result is zero both times |
| ListHash.UncountedUnnoticed | Telegram/SourceFiles/api/api_hash.cpp:38-62 | what changes in a set that does not count makes no difference |
| ListHash.OutdatedAsksAnew | Telegram/SourceFiles/api/api_hash.cpp:38-62 | the result is zero when outdated information is found and asked for, and only then does asking make a difference |
| ListHash.CountFeaturedHash | Telegram/SourceFiles/api/api_hash.cpp:64-79 | the hash of the ids, each followed by a one if unread |
| ListHash.CountSpecialStickerSetHash | Telegram/SourceFiles/api/api_hash.cpp:27-36 | the hash of the set's documents, or zero |
| PremiumRequired.TakeFront | Telegram/SourceFiles/api/api_premium.cpp:400-409 | the first hundred users in order, and the rest |
| PremiumRequired.SplitSize | Telegram/SourceFiles/api/api_premium.cpp:400-413 | nobody is lost or doubled by the division |
| PremiumRequired.Premium.ResolvePremiumRequired | Telegram/SourceFiles/api/api_premium.cpp:383-392 | the user waits and something is scheduled or in flight |
| PremiumRequired.Premium.RequestPremiumRequiredSlice | Telegram/SourceFiles/api/api_premium.cpp:394-413 | one slice goes out if none is, of the first waiting users |
| PremiumRequired.Premium.Finish | Telegram/SourceFiles/api/api_premium.cpp:414-442 | each user of the slice receives the answer at its own position, false if it is missing; no other user changes |
| PremiumRequired.Run | Telegram/SourceFiles/api/api_premium.cpp:383-442 | over every sequence of calls, scheduled calls and answers at most one slice is in flight, users wait only with one scheduled or in flight, and whoever was asked for waits, is in the slice or is known |
| PremiumRequired.Drain | Telegram/SourceFiles/api/api_premium.cpp:383-442 | with no new calls waiting and requested users decrease to none |
| InviteLinks.LookupIsSearch | Telegram/SourceFiles/api/api_invite_links.cpp:137-154 | looking at the first element finds what a search of the list finds |
| InviteLinks.FrontMeans | Telegram/SourceFiles/api/api_invite_links.cpp:28-36 | rotating the first active permanent link to the front loses no link, and makes it the only active one if and only if it is |
| InviteLinks.PrependedKeeps | Telegram/SourceFiles/api/api_invite_links.cpp:175-218 | prepending keeps active links first and only, and neither creates nor repairs a violation |
| InviteLinks.EditedKeeps | Telegram/SourceFiles/api/api_invite_links.cpp:282-304 | an edit keeps it if and only if it does not make a link behind the first active |
| InviteLinks.EditedMeans | Telegram/SourceFiles/api/api_invite_links.cpp:282-304 | an edit that revokes a link takes it out of the list and out of a positive count and leaves the others in order; any other edit changes that link alone |
| InviteLinks.EditedRevokes | Telegram/SourceFiles/api/api_invite_links.cpp:282-304 | an edit makes no link of the list revoked |
| InviteLinks.EditedUnknown | Telegram/SourceFiles/api/api_invite_links.cpp:282-304 | an edit of a link that is not cached changes nothing |
| InviteLinks.PrependedMeans | Telegram/SourceFiles/api/api_invite_links.cpp:175-218 | a new link is first, or second behind an active permanent one, which gives way to a permanent one, in the count too |
| InviteLinks.ReceivedMeans | Telegram/SourceFiles/api/api_invite_links.cpp:429-454 | a first page brings its links and count, or around a known permanent link those of them that are neither it nor active |
| InviteLinks.InactiveOfBoth | Telegram/SourceFiles/api/api_invite_links.cpp:429-454 | active links are left out one by one, in order |
| InviteLinks.ExceptOfBoth | Telegram/SourceFiles/api/api_invite_links.cpp:724-744 | so are the links of a name |
| InviteLinks.WithPermanentMeans | Telegram/SourceFiles/api/api_invite_links.cpp:623-679 | the known permanent link takes the new usage or gives way, in the count too; the others stay |
| InviteLinks.WithoutPermanentMeans | Telegram/SourceFiles/api/api_invite_links.cpp:681-710 | clearing takes away that link and one of a positive count |
| InviteLinks.ReplacedMeans | Telegram/SourceFiles/api/api_invite_links.cpp:525-534 | an external update changes the links of its name and no others |
| InviteLinks.ReceivedKeeps | Telegram/SourceFiles/api/api_invite_links.cpp:429-454 | a first page keeps it if and only if one is known already or the page has at most one |
| InviteLinks.ReplacedKeeps | Telegram/SourceFiles/api/api_invite_links.cpp:525-534 | an external update keeps it if and only if it does not make a link behind the first active |
| InviteLinks.WithPermanentKeeps | Telegram/SourceFiles/api/api_invite_links.cpp:623-679 | setting a permanent link keeps it, and the lookup finds the new one |
| InviteLinks.WithoutPermanentKeeps | Telegram/SourceFiles/api/api_invite_links.cpp:681-710 | clearing leaves no active link at all |
| InviteLinks.CountCovers | Telegram/SourceFiles/api/api_invite_links.cpp:175-702 | a count that covers its list still does after every operation but two: it does after setting a permanent link if and only if there is room or the link is the known one, and after a first page if and only if a permanent link is known or the server's count covers the page |
| InviteLinks.CountFallsBehind | Telegram/SourceFiles/api/api_invite_links.cpp:623-679 | a run after which the cache has one link and a count of zero |
| InviteLinks.Run | Telegram/SourceFiles/api/api_invite_links.cpp:137-702 | for every sequence of events, applied one by one: the cache is right all the time if and only if each event is trusted when it comes, it is so if the server is steady, and then the lookup is a search for every peer; if nothing comes revoked but what edits revoke, nothing revoked is cached |
| InviteLinks.SteadyIsTrusted | Telegram/SourceFiles/api/api_invite_links.cpp:137-702 | if all that is said of a link of a chat agrees with what was said of it before, permanent never changing and revoked never taken back, edits answer with their own link and pages have at most one active one, then every event of the run is trusted |
| InviteLinks.CachedFlags | Telegram/SourceFiles/api/api_invite_links.cpp:137-702 | over every run the name and flags of each cached link are those of a link the server sent for that chat |
| InviteLinks.RightIfTrusted | Telegram/SourceFiles/api/api_invite_links.cpp:137-702 | the cache is right at every moment of a run if and only if each event is trusted when it comes |
| InviteLinks.NextKeeps | Telegram/SourceFiles/api/api_invite_links.cpp:175-702 | an event keeps the cache right if and only if it is trusted |
| InviteLinks.NextShows | Telegram/SourceFiles/api/api_invite_links.cpp:175-702 | a new or set active permanent link is the one looked up, a cleared one is not, an external update is seen, and which chats are cached changes as it should |
| InviteLinks.NoRevokedCached | Telegram/SourceFiles/api/api_invite_links.cpp:175-702 | over every run in which nothing comes revoked but what an edit has revoked, no cached link is revoked |
| InviteLinks.Cache.PrependMyToFirstSlice | Telegram/SourceFiles/api/api_invite_links.cpp:175-218 | the list and count after prepending |
| InviteLinks.Cache.EditDone | Telegram/SourceFiles/api/api_invite_links.cpp:282-322 | the list after an edit, which a link just revoked leaves, with the link that replaces a revoked one |
| InviteLinks.Cache.ParseSlice | Telegram/SourceFiles/api/api_invite_links.cpp:724-744 | the page without the permanent link that is known |
| InviteLinks.Cache.SliceDone | Telegram/SourceFiles/api/api_invite_links.cpp:429-454 | the list after a first page, around a known permanent link |
| InviteLinks.Cache.SetMyPermanent | Telegram/SourceFiles/api/api_invite_links.cpp:623-679 | the list after setting a permanent link |
| InviteLinks.Cache.ClearMyPermanent | Telegram/SourceFiles/api/api_invite_links.cpp:681-710 | the list after clearing it |
| InviteLinks.Cache.ApplyExternalUpdate | Telegram/SourceFiles/api/api_invite_links.cpp:525-534 | every link of that name is replaced |
| InviteLinks.SteadyServer | Telegram/SourceFiles/api/api_invite_links.cpp:282-304 | links whose flags the cache has and the server keeps satisfy the conditions of edits and external updates |
| InviteLinks.Handle | Telegram/SourceFiles/api/api_invite_links.cpp:175-702 | each operation makes of the cache what `Next` says, and keeps it right if and only if the event is trusted |
| IvNavigation.InstantView.NavigateTo | Telegram/Resources/iv_html/page.js:393-406 | page 0 and every page that was ever loaded are gone to at once; any other is waited for while it loads |
| IvNavigation.InstantView.Loaded | Telegram/Resources/iv_html/page.js:449-470 | content for a loading page is its last content, shown at once if the page is waited for; a reload asked for meanwhile starts |
| IvNavigation.InstantView.ReloadPage | Telegram/Resources/iv_html/page.js:472-478 | a page that is loading is marked to be loaded again when it has come, any other is loaded now; no other page is touched |
| IvNavigation.InstantView.NavigateToDOM | Telegram/Resources/iv_html/page.js:499-517 | the entry left is brought up to date and one new entry follows it |
| IvNavigation.InstantView.ShowDOM | Telegram/Resources/iv_html/page.js:528-609 | the element of the page is there; the one in view is put away for its page |
| IvNavigation.InstantView.Popstate | Telegram/Resources/iv_html/page.js:654-658 | moving anywhere in the history shows that entry's page, waits for none, and takes the entry's position unless the page is the shown one |
| IvNavigation.CoreShown | Telegram/Resources/iv_html/page.js:537-589 | elements belong to pages, and a page is shown with its last content, if it changed while hidden too |
| IvNavigation.CoreLoaded | Telegram/Resources/iv_html/page.js:407-411 | new content updates the page in view or marks the hidden one |
| IvNavigation.StoredShown | Telegram/Resources/iv_html/page.js:537-542 | every entry of the history but the shown page's has an element to come back to |
| IvNavigation.InstantView.NothingAwaited | Telegram/Resources/iv_html/page.js:398-466 | with no page loading none is waited for |
| IvNavigation.NumberedPushed | Telegram/Resources/iv_html/page.js:506-516 | going to a page keeps the history numbered from zero with the position where the browser is |
| IvNavigation.NumberedMoved | Telegram/Resources/iv_html/page.js:529-536 | moving keeps the position right if and only if the entry is for another page than the shown one or is the one shown, and a single step always does |
| IvNavigation.NumberedNext | Telegram/Resources/iv_html/page.js:393-658 | an event keeps the position right if and only if it is no move to another entry of the shown page |
| IvNavigation.NumberedIfApart | Telegram/Resources/iv_html/page.js:393-658 | the position is right at every moment of a run if and only if no move leads to another entry of the page shown then |
| IvNavigation.NumberedAfter | Telegram/Resources/iv_html/page.js:393-658 | with single steps through the history it always is |
| IvNavigation.ReloadFollows | Telegram/Resources/iv_html/page.js:463-475 | a reload asked for while a page is loading starts as soon as the page has come |
| IvNavigation.NoReloadLost | Telegram/Resources/iv_html/page.js:449-478 | over every run, a page that is not loading shows the answer to a request made no earlier than its last reload, and that answer is its content |
| IvNavigation.LastRequestMeans | Telegram/Resources/iv_html/page.js:393-478 | the times of requests are those of events about the page after which it was loading |
| IvNavigation.WantedIsShown | Telegram/Resources/iv_html/page.js:393-466 | over every run the page last asked for, by a link or by the history, is shown, or waited for because it has never been loaded |
| IvNavigation.BackUndoes | Telegram/Resources/iv_html/page.js:499-517 | going to another page and back is being where one was, with the position, and going forward is being there again |
| IvNavigation.Handle | Telegram/Resources/iv_html/page.js:393-658 | each handler does to pages, history and position what the function of the events says |
| IvNavigation.Run | Telegram/Resources/iv_html/page.js:393-658 | over every sequence of handlers, jumps included: which pages are loading, loaded and with what content, the page waited for, the page shown, the history and the position are those of a plain function of the events; the page last asked for is shown or waited for; the shown page shows its last content; no reload is lost; the position is right throughout if and only if every move tells the pages apart, as single steps do |
| IvNavigation.JumpLosesPosition | Telegram/Resources/iv_html/page.js:529-536 | a run of four handlers after which the position is 2 at the first entry of the history |
| SearchToken.RequestToToken | Telegram/SourceFiles/api/api_messages_search.cpp:47-62 | the loop builds the query with a line for the sender and one for each tag |
| SearchToken.TokenTells | Telegram/SourceFiles/api/api_messages_search.cpp:47-62 | searches whose texts have no line breaks have different tokens |
| SearchToken.LineBreakConfuses | Telegram/SourceFiles/api/api_messages_search.cpp:47-62 | the token of every search is also that of a search for a mere text, another one if there is a sender or a tag |
| SearchToken.NumberTells | Telegram/SourceFiles/api/api_messages_search.cpp:51 | decimal numbers tell ids apart |
| MessagesSearch.AgreesCached | Telegram/SourceFiles/api/api_messages_search.cpp:88-96 | keeping an answer under its token keeps the cache right if and only if the request was sent with the search it was made for, or both were cached already |
| MessagesSearch.EmplacedMeans | Telegram/SourceFiles/api/api_messages_search.cpp:148-205 | the first answer kept for a search stays |
| MessagesSearch.FoundMeans | Telegram/SourceFiles/api/api_messages_search.cpp:148-205 | a page is announced with all its messages in order and the number the server gives |
| MessagesSearch.MadeForMeans | Telegram/SourceFiles/data/data_histories.cpp:892-935 | every request that is cancelled waits, at the place of its id |
| MessagesSearch.Search.SearchMessages | Telegram/SourceFiles/api/api_messages_search.cpp:75-79 | a search starts at its first page, from the cache if that has it |
| MessagesSearch.Search.SearchMore | Telegram/SourceFiles/api/api_messages_search.cpp:81-86 | the next page is asked for unless something is outstanding |
| MessagesSearch.Search.SearchRequest | Telegram/SourceFiles/api/api_messages_search.cpp:88-146 | served from the cache, sent, or postponed |
| MessagesSearch.Search.Done | Telegram/SourceFiles/api/api_messages_search.cpp:123-126 | an answer that is not to the current request changes nothing; the current one is announced and, for a first page, kept, and the next page starts behind its last message |
| MessagesSearch.Search.Fail | Telegram/SourceFiles/api/api_messages_search.cpp:127-138 | a failure frees the current request, and tells of an empty query |
| MessagesSearch.Search.StartDelete | Telegram/SourceFiles/data/data_histories.cpp:892-935 | requests in flight are cancelled and wait, in order |
| MessagesSearch.Search.FinishDelete | Telegram/SourceFiles/data/data_histories.cpp:1129-1150 | what waited is sent, in order, with the search of now |
| MessagesSearch.RightIfFair | Telegram/SourceFiles/api/api_messages_search.cpp:88-154 | a cache that is right stays right through an event if and only if the event is fair: an answer that counts is for the search its request was made for, or both have an answer already |
| MessagesSearch.Run | Telegram/SourceFiles/api/api_messages_search.cpp:75-205 | over every sequence of searches, answers, failures and deletions each moment of the cache follows from the one before, with what is announced then, and is right after it if and only if the event is fair; with no deletion it is right throughout; the current search is the last one of the events |
| MessagesSearch.WrongAnswerCached | Telegram/SourceFiles/api/api_messages_search.cpp:88-138 | for every two searches there is a run, with messages being deleted, after which one is cached with an answer nobody asked for |
| SendProgress.Manager.Update | Telegram/SourceFiles/api/api_send_progress.cpp:62-83 | which updates are accepted, and what is cancelled and sent then |
| SendProgress.Manager.Updated | Telegram/SourceFiles/api/api_send_progress.cpp:85-109 | a start is accepted an interval after the last one, a stop only within two |
| SendProgress.Manager.Cancel | Telegram/SourceFiles/api/api_send_progress.cpp:33-48 | the request of the key is cancelled and forgotten |
| SendProgress.Manager.CancelTyping | Telegram/SourceFiles/api/api_send_progress.cpp:50-53 | the timer is off, and the typing request outside of topics is cancelled and forgotten |
| SendProgress.Manager.Send | Telegram/SourceFiles/api/api_send_progress.cpp:111-152 | one request for a key without one |
| SendProgress.Manager.Done | Telegram/SourceFiles/api/api_send_progress.cpp:173-180 | the finished request is forgotten, whichever key it was for |
| SendProgress.Manager.StopTyping | Telegram/SourceFiles/api/api_send_progress.cpp:28-31 | the timer takes its chat and cancels typing there |
| SendProgress.CancelledOne | Telegram/SourceFiles/api/api_send_progress.cpp:33-48 | cancelling a key takes its request and leaves those of all other keys, live or failed |
| SendProgress.RestartedOne | Telegram/SourceFiles/api/api_send_progress.cpp:71-82 | a start leaves its key one new live request, a stop none; all other keys keep theirs |
| SendProgress.TypingStops | Telegram/SourceFiles/api/api_send_progress.cpp:50-53 | when typing stops exactly its request outside of topics goes, and the timer |
| SendProgress.StartsAfter | Telegram/SourceFiles/api/api_send_progress.cpp:85-109 | one more event adds its time to the starts of a key if it is a start of it that is heeded, ends them if it is a heeded stop, and leaves them otherwise; speaking counts three seconds, all else five |
| SendProgress.UpdateMeans | Telegram/SourceFiles/api/api_send_progress.cpp:62-83 | an update that is heeded leaves its key a live request if it is a start that is not skipped, else none, and sets the timer for typing; any other changes nothing |
| SendProgress.FailureMeans | Telegram/SourceFiles/api/api_send_progress.cpp:139-146 | a failed request is kept but no longer live |
| SendProgress.EndMeans | Telegram/SourceFiles/api/api_send_progress.cpp:33-53 | an answer, a cancellation and the timer leave the key they are about no request |
| SendProgress.OthersKeep | Telegram/SourceFiles/api/api_send_progress.cpp:33-180 | every event leaves all keys but the one it is about their requests |
| SendProgress.RemembersStart | Telegram/SourceFiles/api/api_send_progress.cpp:85-98 | accepted starts stay at least an interval apart, whatever the clock does |
| SendProgress.Manager.FewInWindow | Telegram/SourceFiles/api/api_send_progress.cpp:85-109 | in a window of length L at most floor(L/S)+1 of them are accepted |
| SendProgress.InWindow | Telegram/SourceFiles/api/api_send_progress.cpp:85-98 | the same of any spaced times |
| SendProgress.LiveAreKept | Telegram/SourceFiles/api/api_send_progress.cpp:39-48 | live requests are exactly the values kept if and only if no key has a failed request that was not cancelled since; two keys never share one |
| SendProgress.Run | Telegram/SourceFiles/api/api_send_progress.cpp:33-180 | over every sequence of updates, cancellations, answers, failures and timer calls what is kept, live, failed and timed is a plain function of the events, the accepted starts are those the times call for and keep their distance, and live and kept requests agree if and only if no failed request is still kept |
| SendProgress.FailureIsKept | Telegram/SourceFiles/api/api_send_progress.cpp:139-146 | a start whose request fails: it is kept and not live |
| SendProgress.FailureIsForgotten | Telegram/SourceFiles/api/api_send_progress.cpp:75-82 | after the stop that follows, live and kept requests agree again, although one has failed |

## Left out

- PackerSha1.HashSha1: asks for less than 0xffffffc0 bytes, as the source's loop does not end on others; data and destination are two arrays or one, not overlapping parts of one.
- AllocationTrace: opening the file, formatting of times and numbers, and the lines with totals at the end of the output.
- TraceWriter: the lock, the loggers that only pass on to the one for malloc, and the clock, which is a parameter.
- Morphdom: ids and keyed nodes, namespaced attributes, the elements OPTION, INPUT, TEXTAREA and SELECT, document fragments, nodes other than elements, texts and comments at the root, the option childrenOnly, and hooks other than the one for equal elements. Children are sequences, so a sibling cursor is an index and parents are not kept. Letters beyond ASCII keep their case in Dom.Upper.
- page.js: contents are version numbers and elements are numbers with a version, so the edit in place is that of Morphdom and not repeated; hashes, scroll positions and animations are left out; loads succeed with content, as an empty one counts as missing in the source; history entries always have a position, so the branch for a missing one is not modelled.
- MessageData: what a result is processed into before the callbacks run, and the delay of requests. Callbacks do not answer requests themselves.
- WebPages: applying changes to pages and notifying about them; times are not 32-bit sums but unbounded.
- FileReferences: what is parsed from the answer and given to the handlers, and which origins have what to ask for, which a call says.
- Forward: random ids are natural numbers; flags, local messages and the queue of sends in data_histories.cpp; an item is its chat and id.
- StickerSets: writing to storage, and taking removed ids out of the old order, which is built anew afterwards.
- StickerRequests: what a failed reorder fetches anew.
- ListHash: sets are their hash, flags and documents; hashing a vector of documents is CountHash of their ids.
- PremiumRequired: the event fired after each slice.
- InviteLinks: other admins' links, callbacks and updates of the interface, lists of who joined, and the link kept by the chat itself.
- MessagesSearch: processing users, chats and topics of a result, messages of unknown chats, and other requests about the history than searches.
- SendProgress: the kinds of activity beyond typing and speaking are one kind with a code; whether an update is ignored or its request skipped is a parameter.
- ApiWrap beyond these machines, the windows, boxes and media code, the updaters and the platform helpers: one request and one reply each, or foreign libraries and user interface.
