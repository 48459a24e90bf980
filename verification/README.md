# Verified models of the framework's protocol and event core

This project models, in Dafny, the parts of the Lua server framework that keep
state between calls and that everything above them relies on, and proves what
they promise:

- the Redis client library: the incremental reply reader, the command
  formatter, the asynchronous callback protocol, its hash table and its dynamic
  strings (`3rd/hiredis`);
- the per-socket send queues over a shared block allocator
  (`src/ae/lsendbuf.cc`);
- the event loop's timers and file events with the epoll and select backends
  (`src/ae/ae.cc`, `src/ae/ae_epoll.cc`, `src/ae/ae_select.cc`).

`dafny verify dfyconfig.toml` checks everything.

## How it is organised

Code that updates things in place is modelled by classes and methods with loops
(`RedisReader`, `Sds`, `Dict`, `Iterator`, `SendBufs`, `AsyncContext`,
`Client` and the two `EventLoop`s). Each method is proved against a pure
function or relation, and the promises are proved about those for all inputs and
for whole runs:

| file | what it holds |
|---|---|
| `Bytes.dfy`, `Powers.dfy` | bytes, numerals, powers of two and masks |
| `Resp.dfy`, `RespRoundTrip.dfy` | the wire format: a recursive-descent parser, the encoding of reply trees, and exactly which trees survive the round trip |
| `Machine.dfy` | the reader's explicit stack as a pure machine, its refinement of recursive descent, and sessions of feeds and polls |
| `Sds.dfy`, `Reader.dfy` | dynamic strings, and the reader in place over them |
| `Formats.dfy`, `Formatter.dfy`, `Arguments.dfy` | what a format string stands for, building commands, and walking over them again |
| `Async.dfy`, `AsyncStream.dfy` | the callback protocol over whole runs, and over the byte stream that the reader sees |
| `Subscribe.dfy` | where a command's callback is filed, in the queues or in the hash tables |
| `Dict.dfy`, `DictIterator.dfy`, `DictRun.dfy` | the chained hash table, its iterator, and whole runs of it |
| `SendBuf.dfy`, `SendBufRun.dfy` | block ownership and the send queues, and whole runs of them |
| `Timers.dfy`, `FileEvents.dfy` | the event loop |
| `Split.dfy`, `Repr.dfy`, `Lines.dfy` | splitting and quoting strings, and the grammar of the lines that are accepted |

Objects that the source links by pointers (reply objects, dictionary entries,
send blocks) are cells of a store addressed by number. Handlers and callbacks are
scripts: an arbitrary function from the number of a call to what the user's code
does in it, so that a theorem about all scripts is one about all behaviours. The
clock, the kernel's answers and the bytes on the wire are parameters.

Three conventions keep the proofs quick. An invariant is often written
`P(...) == true`: Dafny then proves or passes on P as one fact instead of unfolding
it. Quantifiers inside such predicates carry a trigger on a predicate of their own
(`ListOk`, `NextOk`, `Differ`), so that they are used only where a proof names it.
And a method that changes several fields calls one lemma about values first and then
does the changes, in a method of their own where there are many.

Where the code does not do what one would expect, the model follows the code and
the exact condition is proved:

- `RespRoundTrip.RoundTripIff`: a reply tree comes back from its encoding if and
  only if its arrays stay within the levels the stack has and no status or error
  line contains a line end;
- `Async.AbortsIff`: the two assertions of `async.c` fail exactly when, after some
  number of replies of a read, the next one is not an error and nothing waits for it, or
  none is left, a disconnect was asked for, all is written and callbacks still wait; this
  is judged by the actions of the callbacks. `Async.CleanDisconnectAborts` is such a run,
  and `Async.NeverAborts` gives a condition on whole runs under which it cannot happen;
- `Async.CleanDisconnect`: once a disconnect was asked for and all is written, the next read
  frees the context if and only if its replies suffice for all commands waiting; a read with
  fewer fails the assertion. `Async.FreesIff` says of every read when it frees the context;
- `Timers.EndsIff`: with handlers that behave alike at every call, the timer pass ends if
  and only if no handler of a due timer leaves it due, that is (`Timers.StaysDueExact`)
  if the clock's reading plus the delay returned gets past the time of the pass; a handler
  may return 0 if the clock has moved on. `Timers.RunsOn` and `Timers.FairEnds` are the two
  halves for any handlers, and `Timers.EventLoop.Pass` is proved for every pass that ends;
- `Timers.SleepExact`: for an overdue timer the loop still sleeps for the rest
  of a second, unless it is late by a whole number of seconds;
- `SendBuf.SendBufs.Alloc`, `SendBuf.SendBufs.DataLen`, `SendBufRun.LeaveBehind`:
  `sendbuf_datalen` says 0 with bytes pending exactly when the first block is empty and a later
  one is not, and an allocation leaves such an empty block behind exactly when the last
  block is empty and too small for it;
- `FileEvents.AddMirrors`, `FileEvents.RaisedHighest`: registering an empty mask for an
  idle descriptor puts it into the kernel's interest list without the loop knowing, and makes
  it the highest descriptor if it is above that one;
- `Subscribe.PurposeExact`: a P in front of MONITOR is taken for that command as well, and
  a name with a line end in it for the part before the line end;
- `Lines.ArgsExact`: a quote may open in the middle of a word and then has to end it; every
  other line is refused;
- `Repr.RoundTripIff`, `Repr.NonPrintableChanges`: quoting and splitting are
  inverse exactly on printable characters and the five named escapes, because the
  `\x` form is written but not read;
- `Split.SplitJoin`: splitting inverts joining if and only if each token is
  followed by the first separator from its start on;
- the comment above `sdssplitlen` says that an empty string gives NULL; the code
  returns no tokens, and so does the model.

## Model

| member | source | states |
|---|---|---|
| RespRoundTrip.RoundTrip | 3rd/hiredis/hiredis.c:355-505 | a readable reply tree is parsed back from its encoding, consuming exactly its bytes, whatever follows |
| RespRoundTrip.NoRoundTrip | 3rd/hiredis/hiredis.c:355-505 | an unreadable tree never comes back as itself |
| RespRoundTrip.RoundTripIff | 3rd/hiredis/hiredis.c:355-505 | parsing an encoding gives the tree and the rest back if and only if the tree is readable |
| RespRoundTrip.Wire | 3rd/hiredis/hiredis.c:355-545 | the encodings are the characters of the protocol, on one tree of each kind |
| RespRoundTrip.ParseNumeral | 3rd/hiredis/hiredis.c:389-505 | any negative length is a nil; the count -1 is a nil, 0 an empty array, a smaller one an array object without elements |
| RespRoundTrip.BadTypeByteExact | 3rd/hiredis/hiredis.c:507-537 | the error names the type byte if and only if it is none of the five |
| RespRoundTrip.NestedExact | 3rd/hiredis/hiredis.c:449-454 | eight nested arrays are readable and no more |
| RespRoundTrip.NumberOfDigits | 3rd/hiredis/hiredis.c:288-313 | digits are read in base ten, after a minus, a plus or no sign |
| RespRoundTrip.NumberPlus | 3rd/hiredis/hiredis.c:288-313 | a plus sign changes nothing |
| RespRoundTrip.NumberStops | 3rd/hiredis/hiredis.c:300-310 | a CR ends the number, and any other byte that is no digit makes it -1 |
| Resp.ReadItemMonotone | 3rd/hiredis/hiredis.c:249-328 | an item that is complete, or wrong, stays so when more bytes arrive |
| Machine.MachineRefinesDescent | 3rd/hiredis/hiredis.c:330-554 | the stack machine yields on every input what recursive descent yields: the same tree, rest, error or need for more |
| Machine.ReadsEncodedTree | 3rd/hiredis/hiredis.c:330-554 | the machine emits exactly the encoded tree and leaves the following bytes, if and only if the tree is readable |
| Machine.RunExtended | 3rd/hiredis/hiredis.c:617-665 | a run on a prefix of the input, continued on the whole, is a run on the whole |
| Machine.PrefixWaits | 3rd/hiredis/hiredis.c:617-665 | without the last byte of a tree there is neither a reply nor an error |
| Machine.ChunkInvariance | 3rd/hiredis/hiredis.c:585-665 | any split into feeds with any polling between them gives, after a final drain, the same replies and the same error as feeding everything at once |
| Machine.StreamDelivered | 3rd/hiredis/hiredis.c:585-665 | a stream of encoded readable trees is delivered as exactly these trees in order, however it is chunked and polled |
| Machine.ErrorsStick | 3rd/hiredis/hiredis.c:186-210 | after a protocol error no call delivers anything or changes the error |
| Strings.Sds.MakeRoomFor | 3rd/hiredis/sds.c:88-106 | the contents stay, at least the bytes asked for fit, and the buffer doubles when it grows |
| Strings.Sds.CatLen | 3rd/hiredis/sds.c:127-139 | the contents are extended by the bytes, with header and terminator kept |
| Strings.Sds.Range | 3rd/hiredis/sds.c:219-248 | the contents become the slice, negative positions counting from the end, in the same buffer |
| Strings.SliceDrops | 3rd/hiredis/hiredis.c:649-654 | the slice the reader asks for when it compacts is the unread part |
| Strings.SliceExact | 3rd/hiredis/sds.c:219-248 | both ends are included, negative positions count from the end, and positions outside are moved to the nearest byte, but for a start behind the last one |
| Reader.SeekNewline | 3rd/hiredis/hiredis.c:260-286 | the first CR LF, or none, without reading past the terminator |
| Reader.ReadLongLong | 3rd/hiredis/hiredis.c:288-313 | the number of the line, -1 when it is malformed |
| Reader.PopArray | 3rd/hiredis/hiredis.c:330-353 | a full array becomes a complete item whose slots hold complete subtrees, and the arrays around it stay open |
| Reader.AdvanceArray | 3rd/hiredis/hiredis.c:330-353 | an array with slots left stays open, one element further |
| Reader.RedisReader.MoveToNextTask | 3rd/hiredis/hiredis.c:330-353 | the task stack moves as the machine does, keeping parents, indices and complete subtrees in place |
| Reader.RedisReader.Create | 3rd/hiredis/hiredis.c:97-184 | a new object goes into its parent's slot or becomes the root |
| Reader.RedisReader.ProcessLineItem | 3rd/hiredis/hiredis.c:355-387 | one step of the machine on a status, error or integer |
| Reader.RedisReader.ProcessBulkItem | 3rd/hiredis/hiredis.c:389-440 | one step of the machine on a bulk string |
| Reader.RedisReader.ProcessMultiBulkItem | 3rd/hiredis/hiredis.c:442-505 | one step of the machine on an array header, with the depth error |
| Reader.RedisReader.ProcessItem | 3rd/hiredis/hiredis.c:507-554 | one step of the machine, type byte included |
| Reader.RedisReader.FeedBytes | 3rd/hiredis/hiredis.c:585-615 | the unread bytes grow by the chunk, and nothing happens in an erroneous reader |
| Reader.RedisReader.GetReply | 3rd/hiredis/hiredis.c:617-665 | the reader in place does what a poll of the pure reader does; the object delivered denotes the tree delivered |
| Reader.Drive | 3rd/hiredis/hiredis.c:585-665 | any sequence of feeds and polls on the reader in place delivers the replies and the error of the pure session |
| Formatter.IntLen | 3rd/hiredis/hiredis.c:668-679 | the length of the printed number |
| Formatter.BulkLen | 3rd/hiredis/hiredis.c:682-684 | the length of the encoded bulk string |
| Formatter.Build | 3rd/hiredis/hiredis.c:873-895 | exactly totlen bytes are written, and they are the encoding of the arguments |
| Formatter.FormatCommandArgv | 3rd/hiredis/hiredis.c:939-971 | the length computed beforehand is that of the command written, and the command encodes exactly the arguments handed over: with lengths that many bytes of each, without lengths C strings |
| Formatter.ScanFormat | 3rd/hiredis/hiredis.c:686-871 | the arguments that the format and its values stand for (by Formatter.StandsExact), with the total length of their bulk strings |
| Formatter.FormatCommand | 3rd/hiredis/hiredis.c:686-895 | the command encodes exactly the arguments that the format stands for, and a format is refused if and only if it stands for none |
| Formatter.FormatThenRead | 3rd/hiredis/hiredis.c:939-971 | the reader parses a formatted command back to the array of the same strings |
| Formatter.ArgvThenRead | 3rd/hiredis/hiredis.c:939-971 | a reader gets, as the j-th string, the first argvlen[j] bytes of argv[j], or without lengths what is before its first NUL |
| Formatter.StandsExact | 3rd/hiredis/hiredis.c:686-871 | the formatter takes a format for given arguments if and only if it is made of words of literals, `%%`, `%s` and `%b` with spaces between them, whose pieces make up these arguments |
| Formatter.CommandsDiffer | 3rd/hiredis/hiredis.c:939-971 | different argument lists never have the same bytes, even with more bytes behind them |
| Formatter.BinaryItems | 3rd/hiredis/hiredis.c:686-866 | items written as `%b` with spaces between them give exactly the argument list |
| Formatter.ValuesDoNotSplit | 3rd/hiredis/hiredis.c:686-866 | spaces or percent signs in values never change the number of arguments |
| Arguments.NextArgument | 3rd/hiredis/async.c:514-526 | the next argument found in memory, without reading past the terminator |
| Arguments.NextAt | 3rd/hiredis/async.c:514-526 | on a formatted command, a step from argument j leads to argument j + 1 with the bytes of argument j |
| Arguments.Walk | 3rd/hiredis/async.c:514-526 | walking over a formatted command yields exactly its arguments in order and then none, whatever bytes they hold |
| HashDict.NextPower | 3rd/hiredis/dict.c:306-315 | the least power of two that is large enough, from the initial size on |
| Powers.MaskIsMod | 3rd/hiredis/dict.c:328 | masking with size - 1 is the remainder for a power of two |
| HashDict.Dict.Find | 3rd/hiredis/dict.c:243-256 | the entry of the key with its value, or none, exactly as the map says |
| HashDict.Dict.Expand | 3rd/hiredis/dict.c:88-132 | rehashing keeps the exact entries, the count and the invariant; it refuses only a size below the count |
| HashDict.Dict.ExpandIfNeeded | 3rd/hiredis/dict.c:295-303 | never fails, and leaves room for one more entry |
| HashDict.Dict.KeyIndex | 3rd/hiredis/dict.c:320-337 | the bucket of a new key, or -1 if and only if the key is there |
| HashDict.Dict.Add | 3rd/hiredis/dict.c:135-154 | the map gains the key if it was absent, and else nothing changes |
| HashDict.Dict.Replace | 3rd/hiredis/dict.c:160-179 | the map has the new value, and the result says whether the key is new |
| HashDict.Dict.Delete | 3rd/hiredis/dict.c:182-210 | the map loses exactly the key, and the result says whether it was there |
| DictRun.Replay | 3rd/hiredis/dict.c:88-337 | every sequence of operations is answered as a finite map answers it, with the invariant (one place per key, bucket = hash mod size, used = entries <= size, size a power of two) holding throughout |
| DictIterator.FlattenExact | 3rd/hiredis/dict.c:258-286 | the buckets one after the other list every entry exactly once |
| DictIterator.Iterator.Next | 3rd/hiredis/dict.c:268-286 | the next of the entries still to come, or none when there are none |
| DictIterator.DeleteCurrent | 3rd/hiredis/dict.c:182-210 | deleting the entry just returned leaves what the iterator has still to return |
| DictIterator.Visit | 3rd/hiredis/dict.c:258-286 | every key present at the start is returned exactly once, even if the caller deletes any of them as they come, and the others stay |
| SendBuf.OneOwner | src/ae/lsendbuf.cc:61-71 | every block is in exactly one list at exactly one place, and in free list i its size is 2^i; that none is lost is stated by the methods and by SendBufRun.Replay |
| SendBuf.Hash | src/ae/lsendbuf.cc:53-59 | the least exponent whose power of two is large enough |
| SendBuf.HashExact | src/ae/lsendbuf.cc:53-59 | a block made for class i is returned to class i |
| SendBuf.Class | src/ae/lsendbuf.cc:229-235 | the block chosen is less than twice as large as it has to be, or as the minimum |
| SendBuf.SendBufs.Create | src/ae/lsendbuf.cc:94-99 | an empty queue; every other socket is untouched |
| SendBuf.SendBufs.FreeBlock | src/ae/lsendbuf.cc:61-71 | the first block of the chain becomes the first of the free list of its size, and nothing else moves |
| SendBuf.SendBufs.Free | src/ae/lsendbuf.cc:108-117 | the chain is gone, no block is lost or changes its size, and every other socket is untouched |
| SendBuf.SendBufs.Alloc | src/ae/lsendbuf.cc:222-269 | the last block has the room asked for, no queue changes, no block is lost, a new last block is less than twice the larger of 4096 and the need with its header, and an empty block is left behind if and only if the last one was empty and too small |
| SendBuf.SendBufs.Flush | src/ae/lsendbuf.cc:193-205 | the bytes written behind the last block's end join the queue; it fails if and only if there is no room for them |
| SendBuf.SendBufs.Commit | src/ae/lsendbuf.cc:193-205 | after an allocation, writing and flushing never fails and appends exactly the data |
| SendBuf.SendBufs.DataLen | src/ae/lsendbuf.cc:147-154 | the unread length of the first block; it is 0 with bytes pending if and only if the first block is empty and a later one is not |
| SendBuf.SendBufs.Peek | src/ae/lsendbuf.cc:126-133 | the bytes at the read pointer are the front of the queue |
| SendBuf.SendBufs.Skip | src/ae/lsendbuf.cc:164-179 | exactly the bytes sent leave the front of the queue, never more than the first block has, and no block is lost |
| SendBufRun.Replay | src/ae/lsendbuf.cc:94-269 | in every interleaving of allocations, flushes and sends over all sockets, what a socket has taken followed by what is pending is what was appended to it, in order; every block ever made is in exactly one free list of its size or chain of an open socket; if no allocation is left unwritten for a larger one, a socket is offered nothing only when nothing is pending |
| SendBufRun.StepAfter | src/ae/lsendbuf.cc:94-269 | each step keeps the books of every socket |
| SendBufRun.LeaveBehind | src/ae/lsendbuf.cc:147-154 | a run that leaves an allocation unwritten for a larger one ends with bytes pending that are never offered |
| Timers.AddExact | src/ae/ae.cc:154-166 | the sum is right for every delay, and normalised if and only if no negative remainder borrows |
| Timers.DueExact | src/ae/ae.cc:271-272 | a timer is due if and only if its time in milliseconds has come |
| Timers.StaysDueExact | src/ae/ae.cc:292-293 | a rearmed timer is due again if and only if the clock's reading plus the delay is not past the time of the pass |
| Timers.EventLoop.CreateTimeEvent | src/ae/ae.cc:168-185 | the new timer is at the head, with a fresh identifier, due exactly its delay after the clock's reading, and the rest of the list is as it was; a later pass fires it if and only if the delay is over |
| Timers.EventLoop.DeleteTimeEvent | src/ae/ae.cc:187-207 | exactly the timer with the identifier is gone, and the result says whether there was one |
| Timers.EventLoop.DetectSkew | src/ae/ae.cc:240-257 | after a clock that went back all timers are at second zero, with their milliseconds, and else nothing changes |
| Timers.SkewFiresAll | src/ae/ae.cc:250-256 | then every timer is due, once the clock is past its first second |
| Timers.CallDue | src/ae/ae.cc:276-297 | exactly what a call does to the due timers: those it deletes are gone, and so is its own unless it stays due; none is added |
| Timers.ActTimes | src/ae/ae.cc:168-207 | a timer created is due its delay after the clock's reading, one deleted is gone, and the others keep their times |
| Timers.CallTimes | src/ae/ae.cc:276-297 | a timer whose handler returns a delay is due that long after the clock's reading; the times of the others stay |
| Timers.DueIdsExact | src/ae/ae.cc:264-272 | the pass would fire exactly the timers there at its start whose time has come |
| Timers.DueAfterDelay | src/ae/ae.cc:154-185 | a timer created or rearmed with a delay is fired by a later pass if and only if the delay is over by then |
| Timers.EventLoop.Pass | src/ae/ae.cc:259-302 | for all handlers with which the pass ends, restarting from the head after every handler comes to calling the first due timer until none is due |
| Timers.EventLoop.ProcessTimeEvents | src/ae/ae.cc:236-303 | the whole pass, with the clock check before it |
| Timers.ExactlyOnce | src/ae/ae.cc:236-303 | in a pass none of whose calls leaves its timer due, every timer due at the captured time fires exactly once unless a handler deletes it first; none fires twice, and none created meanwhile fires |
| Timers.PassServes | src/ae/ae.cc:236-303 | in every pass that ends only timers due at the start fire, and a timer fires again, or is deleted, after a call that leaves it due and not after one that does not |
| Timers.FairEnds | src/ae/ae.cc:264-301 | the pass ends if no call for a timer due at the start would leave it due |
| Timers.RunsOn | src/ae/ae.cc:264-301 | the pass does not end, for any list and any handlers, if a timer due at the start is never deleted and every call leaves it due |
| Timers.EndsIff | src/ae/ae.cc:264-301 | with handlers that behave alike at every call, the pass ends if and only if no due timer's handler leaves it due |
| Timers.EventLoop.SearchNearestTimer | src/ae/ae.cc:220-233 | a timer than which none is earlier, or none when there is no timer |
| Timers.EventLoop.PollTimeout | src/ae/ae.cc:335-364 | the timeout is exactly the least time left of any timer when none is overdue, and less than a second when one is |
| Timers.SleepExact | src/ae/ae.cc:342-352 | the time left, or for an overdue timer the rest of its second, which is zero if and only if the milliseconds agree |
| FileEvents.AddMirrors | src/ae/ae_epoll.cc:65-81 | ADD or MOD is the right operation and succeeds; the backend mirrors the masks afterwards if and only if the mask is not empty or the backend is select |
| FileEvents.DelMirrors | src/ae/ae_epoll.cc:83-100 | MOD or DEL is the right operation, and the backend mirrors the masks afterwards |
| FileEvents.RaisedHighest | src/ae/ae.cc:115-116 | the highest descriptor is right after a registration if and only if the mask is not empty or the descriptor is not above it |
| FileEvents.WatchedExact | src/ae/ae_epoll.cc:65-81 | the kernel watches exactly the registered descriptors, for reading and for writing as they are registered |
| FileEvents.EventLoop.CreateFileEvent | src/ae/ae.cc:103-118 | the mask gains the bits, the read handler changes if and only if the mask is readable and the write handler if and only if it is writable, and no other entry changes; nothing changes on an error; backend and highest descriptor are in step if and only if the mask is not empty, or the backend is select and the descriptor not above the highest one |
| FileEvents.EventLoop.DeleteFileEvent | src/ae/ae.cc:120-136 | the mask loses exactly the bits and no other entry changes, with highest descriptor and backend in step |
| FileEvents.EventLoop.SelectPoll | src/ae/ae_select.cc:70-95 | the scan stays within the array, and reports every registered descriptor once with exactly the events that it waits for and that are ready |
| FileEvents.ScanExact | src/ae/ae_select.cc:79-93 | scanning up to the highest descriptor misses none |
| FileEvents.EventLoop.EpollPoll | src/ae/ae_epoll.cc:107-123 | the fired events are those reported, errors and hang-ups counting as writable |
| Async.RunRefused | 3rd/hiredis/async.c:215-233 | a callback run while the context closes has its commands refused, so that the drain ends with the queue |
| Async.InsideWithin | 3rd/hiredis/async.c:215-222 | whatever a callback does, the context is not freed while it is on the stack, and it only adds commands and sets flags |
| Async.StepInv | 3rd/hiredis/async.c:225-593 | every event keeps the books: callbacks done with and callbacks waiting are the accepted ones in order |
| Async.CallbacksInOrder | 3rd/hiredis/async.c:180-593 | in every run the k-th accepted callback gets the k-th reply, the rest get NULL at teardown, each exactly once, and the context is freed at most once |
| Async.TeardownCompletes | 3rd/hiredis/async.c:225-437 | socket errors, the free function, a disconnect with nothing waiting and the reads of Async.FreesIff free the context, and no other event does; every accepted callback has been done with then |
| Async.AbortsIff | 3rd/hiredis/async.c:367-411 | a read fails one of the two assertions if and only if, after some number of its replies, the next one is not an error and nothing waits for it, or none is left and a disconnect is due while callbacks wait |
| Async.NeverAborts | 3rd/hiredis/async.c:281-437 | a run in which nobody disconnects and no read brings more replies than commands wait never fails an assertion |
| Async.FreesIff | 3rd/hiredis/async.c:361-437 | a read frees the context if and only if, after some number of its replies, a callback has freed it, or an error comes that nothing waits for, or it ends in a protocol error, or none is left, a disconnect was asked for, all is written and nothing waits |
| Async.DisconnectCall | 3rd/hiredis/async.c:307-312 | from outside callbacks, the context is freed at once if nothing waits, and else only marked |
| Async.CleanDisconnect | 3rd/hiredis/async.c:367-411 | once a disconnect was asked for and all is written, a read whose replies suffice frees the context with every accepted command answered by its own reply, and any other read fails the assertion |
| Async.DisconnectWriteRead | 3rd/hiredis/async.c:281-411 | from any live context with commands waiting, a disconnect, the rest of the output and enough replies free it with every command answered |
| Async.WrittenExact | 3rd/hiredis/async.c:485-510 | what a write sends and what it leaves make up the output there was |
| Async.CleanDisconnectAborts | 3rd/hiredis/async.c:281-299 | a run in which the clean-disconnect assertion fails |
| AsyncStream.OneStream | 3rd/hiredis/hiredis.c:585-665 | however the bytes are cut into socket reads, feeding and polling to the end at each gives the replies and the reader of the whole stream |
| AsyncStream.KthCallbackGetsKthTree | 3rd/hiredis/async.c:361-437 | for any cut of the byte stream into reads, the k-th accepted callback gets the k-th tree of the stream, or NULL if the context was closed first, and a live context has delivered every complete tree |
| AsyncStream.ServerIsHeard | 3rd/hiredis/async.c:361-437 | a server that sends the encodings of readable trees has the k-th one handed to the k-th accepted callback |
| Async.AsyncContext.Command | 3rd/hiredis/async.c:531-593 | refused if and only if the context is closing, and else queued and appended to the output |
| Async.AsyncContext.RunCallback | 3rd/hiredis/async.c:215-222 | the callback runs with its flag set, and the flag is cleared after it |
| Async.AsyncContext.FreeContext | 3rd/hiredis/async.c:225-267 | all pending callbacks are run with NULL in order, and then the context is freed |
| Async.AsyncContext.AsyncFree | 3rd/hiredis/async.c:273-278 | freed at once, or, from a callback, only marked |
| Async.AsyncContext.DisconnectContext | 3rd/hiredis/async.c:281-299 | a teardown, or the failed assertion |
| Async.AsyncContext.AsyncDisconnect | 3rd/hiredis/async.c:307-312 | marked, and torn down at once only from outside callbacks with nothing waiting |
| Async.AsyncContext.ProcessCallbacks | 3rd/hiredis/async.c:361-437 | replies are dispatched in order, with the deferred free and the disconnects of the source; when that frees the context or fails an assertion is said by Async.FreesIff and Async.AbortsIff |
| Async.Lifetime | 3rd/hiredis/async.c:180-593 | the context in place goes through exactly the states of the run |
| Subscribe.FileUnder | 3rd/hiredis/async.c:559-565 | the hash table has the callback under exactly the named channels, and is otherwise the same map |
| Subscribe.Client.AsyncCommand | 3rd/hiredis/async.c:531-593 | a command named subscribe or psubscribe, in either case of each letter and with a channel behind it, files its callback under exactly the named channels in the one table or the other; unsubscribe and punsubscribe file it nowhere and are refused without a subscription; any other command is put into exactly one queue; refusals change nothing |
| Subscribe.Classify | 3rd/hiredis/async.c:547-574 | the test on the memory at the name decides by the name alone; by which letters is said by Subscribe.PurposeExact |
| Subscribe.BeginsExact | 3rd/hiredis/async.c:555-574 | for a name without line ends that test is for the whole name, case aside |
| Subscribe.PurposeExact | 3rd/hiredis/async.c:547-574 | the command is taken for (P)SUBSCRIBE, (P)UNSUBSCRIBE or (P)MONITOR if and only if its name has these letters, each in upper or lower case |
| Subscribe.NamedExact | 3rd/hiredis/async.c:547-574 | for a name without line ends: as many bytes as the word has letters, each the letter in either case |
| Split.SplitLen | 3rd/hiredis/sds.c:290-344 | for a non-empty string and separator, tokens that join back to the string and contain no separator, found from left to right; the other cases as coded |
| Split.SplitLoop | 3rd/hiredis/sds.c:302-344 | every write stays inside the slots, which are doubled in time |
| Split.JoinTokens | 3rd/hiredis/sds.c:290-344 | joining the tokens gives the string back |
| Split.TokensFree | 3rd/hiredis/sds.c:290-344 | no token contains the separator |
| Split.SplitJoin | 3rd/hiredis/sds.c:290-344 | splitting gives back the tokens that were joined if and only if they are separable |
| Repr.CatRepr | 3rd/hiredis/sds.c:379-405 | the quoted form is appended |
| Repr.SplitArgs | 3rd/hiredis/sds.c:419-502 | the arguments of the line (by Lines.ArgsExact), or NULL without any or on a quoting error, which argc tells apart, without reading past the terminator |
| Repr.ArgsOfLine | 3rd/hiredis/sds.c:379-502 | the line of any quoted strings is split into what each of them is read back as |
| Lines.ArgsExact | 3rd/hiredis/sds.c:419-502 | a line is split into given arguments if and only if it consists of words, quoted at their end or not, with blanks between them, that mean these arguments; it is refused if and only if it does not |
| Repr.QuotedExact | 3rd/hiredis/sds.c:384-402 | how each byte is written: as it is, behind a backslash, with its letter, or as two digits of base 16 with its value |
| Repr.ReprDiffers | 3rd/hiredis/sds.c:379-405 | different strings are quoted differently, whatever follows |
| Repr.RoundTripIff | 3rd/hiredis/sds.c:379-502 | the strings themselves come back if and only if they consist of printable characters and the five named escapes |
| Repr.NonPrintableChanges | 3rd/hiredis/sds.c:398-450 | a NUL byte comes back as three characters |

## Left out

- Integer overflow: numbers in replies, lengths and counts are unbounded; the C code's behaviour beyond its types is undefined. Streams whose numbers fit behave as modelled.
- Out-of-memory paths, and `free`: freed memory is not reused and failed allocations do not occur.
- Sockets, connecting and errno (`net.c`, `lport.cc`, the buffer read and write functions): reads and writes are parameters.
- Formatter.ScanFormat: conversions other than `%s`, `%b` and `%%` are refused, where the source hands them to the C library's printf.
- Formatter.FormatCommand: the same; `sdscatvprintf` is not modelled for the same reason.
- Async.AsyncContext.ProcessCallbacks: the branches for pub/sub messages and MONITOR are not modelled; for these commands only the filing of callbacks is.
- Async.AsyncContext.FreeContext: the callbacks of invalid commands and of subscriptions are not run, as the contexts of these runs have none.
- The hooks for connecting, disconnecting and clean-up of `async.c`, and the finalizers of timers: assumed not to call back.
- Array counts below -1: they make an array object with no elements and a negative count, which the model carries as a tree of its own (`Hollow`); negative flush and skip lengths are not modelled.
- `_dictClear` and `dictRelease`: they only free.
- SendBuf.Hash: sizes above 2^31, for which the source shifts out of its type; SendBuf.SendBufs.Alloc stops at blocks of 2^30 bytes, beyond which its int arithmetic overflows.
- The dispatch of fired file events to their handlers, and handlers that re-enter the loop.
- `select` on descriptors beyond FD_SETSIZE.
- `lrecvbuf.cc`, `lae.cc`, the Lua bindings, `tolua++`, `log.c` and `ae_kqueue.cc`: wrappers over the Lua API and libc, or a further copy of a backend; they keep no state that a property could be about.
- HashDict.Dict.Expand: the table's size stays below LONG_MAX, where `_dictNextPower` stops doubling and returns a size that is no power of two.
- HashDict.Dict.ExpandIfNeeded: the same bound.
- HashDict.Dict.KeyIndex: the same bound.
- HashDict.Dict.Add: the same bound.
- HashDict.Dict.Replace: the same bound.
- DictRun.Replay: the same bound, as one on the length of the run.
- Subscribe.Client.AsyncCommand: the same bound, as one on the number of channels.
- Timers.EventLoop.Pass: passes that do not end are not run (Timers.RunsOn says of which this is so), nor handlers that delete their own timer without returning AE_NOMORE, after which the source uses freed memory.
