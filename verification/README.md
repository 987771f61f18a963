# Proofs about libqp's core structures and its HTTP parser

This project models, in Dafny, the parts of libqp that carry its invariants: the parent-linked red-black tree, the
intrusive list and queue, the block pool and the manager that grows and shrinks a set of pools, the re-entrant spin
lock, the buffered direct-I/O writer, and the streaming HTTP/1.x parser and URL splitter it ships in `deps/http-parser`.
`dafny verify dfyconfig.toml` checks all of it.

Code that updates memory in place is a class or a method with loops, proved against a specification function; what the
code promises is then proved about that function. One Dafny module stands for one component:

| files | what they hold |
|---|---|
| `RbShape`, `RbTree` | The tree. `RbShape` says what linked nodes mean: a `Tree` and, for the loops that walk `node` upward, a `Ctx`, a tree with one hole. `RbTree` is the code: a shared sentinel whose parent field deletion writes, nodes owned by the caller, rotations, the two fix-up loops, search. |
| `Lists`, `Pools` | The list (a stack that closes on itself) and the queue (a ring); a pool of blocks threaded on a list; the manager, its queue of pools and its list of pools with a free block. |
| `SpinLock` | A lock of threads that take single steps on the shared words `spin`, `thread`, `process`, `counter`, in any order. |
| `FileWriter` | The write buffer, before a device that may take a part of what it is offered, or nothing. |
| `HttpTypes`, `HttpStep`, `HttpRun` | The parser read byte by byte: one turn of its switch, and a whole run. |
| `HttpSkim` | Reading a buffer as the code does: a header value of no interest is searched for its end, not examined. |
| `HttpMarks`, `HttpAhead`, `HttpParser`, `HttpFeed` | `http_parser_execute` itself, with buffers, data marks, fast paths, the header size count and pauses; a stream in several buffers. |
| `HttpNumbers`, `HttpFraming`, `HttpEvents`, `HttpHeaders`, `HttpOptions` | What the runs mean: lengths, bodies, the order of callbacks, header names, transfer codings and connection options. |
| `HttpDelivery`, `HttpLimit` | What that makes of a parser fed in any buffers: its bodies, and where its count of header bytes goes astray. |
| `HttpUrl` | `http_parser_parse_url` and `http_parse_host`. |

Callbacks are the parser's only environment. What the application answers to its n-th callback is any function of n
(`reply`): go on, pause the parser, or fail; what `on_headers_complete` answers is a function of the parser's fields
(`Env.skipBody`). Ghost fields record what the code does not: what the application was told (`log`), in how many
callbacks (`told`), the true number of header bytes (`seen`), those never counted (`lost`) and how many calls there were
(`calls`); what the device took and how often it refused.

## Findings

Where the code falls short of what it promises, the code is modelled as it is. The failing input and the exact
condition are proved.

1. **A strict parser misses bytes that have no place in a header value, depending on how the stream is cut.** In a value
   of no interest the parser looks at one byte and then for the next CR or LF (`http_parser.c:1583-1606`). `BothCuts`:
   the bytes of `GET /`, LF, `A:bc`, 0x01, LF are accepted when the value comes in one buffer, and refused at 0x01 when
   a buffer ends just before it; `FeedUncut` and `FeedCut` are the parser doing so, for every application that lets it
   go on. `SkimAgrees` and `FeedAgrees`: the result is that of the byte-at-a-time reading if and only if there are no
   two neighbouring bytes of one buffer in such a value, the first fit for a header and the second not. `MissedMeans`:
   with a lenient parser, or when all bytes are fit for a header, or when the byte-at-a-time reading meets no invalid
   header token, there are none.
2. **The port of a URL is read beyond the URL.** `strtoul` stops at the first byte that is no digit, not at `buflen`
   (`http_parser.c:2474-2484`). `WrongPortAccepted`: `a:80` in memory before a `1` is accepted, with port 801.
   `RightPortRefused`: before `000` it is refused. `Parse`: the port is the number of its field if and only if it does
   not end the URL, or no digit follows the URL in memory, or all digits, those in memory too, are 0.
3. **A chunk size may hold any byte from 0x80 up.** The table `unhex` has 128 initialisers for 256 entries
   (`http_parser.c:224-233`), so these bytes count as the digit 0. `SizeStartsWith` and `ChunkSizeIsExact` say what is
   accepted and what number comes of it.
4. **A name that begins with `content-length` counts as a Content-Length**, whatever follows: the flag is set at the
   fourteenth character (`http_parser.c:1412-1426`), so a second such name is refused there (`NameRead`), though the
   value of such a header is not taken for a length (`NamesRecognised`).
5. **A failed flush forgets bytes that are still in the buffer.** `qp_file_write` has by then set `wrbuf_offset` to the
   number of bytes it copied, not to the size of the buffer (`qp_file.c:377-390`). `RefusalForgetsBuffered`: what is
   forgotten is as much as was buffered before that turn, so nothing if and only if nothing was.
6. **The header size limit is approximate** (`http_parser.c:154-161`). A byte of a name by itself in a buffer counts
   twice (`OneLetter`), so `NameByBytes`: a section of little more than half the limit is refused. A value that is
   interrupted at its CR is used up before it is counted (`http_parser.c:1562-1570`), so `ValueNotCounted`: an
   application that pauses there is given a section over the limit, of which at most 100 bytes are counted.
   `FeedWithinLimit` bounds both: a section is refused only if it comes within as many bytes of the limit as there are
   buffers and pauses; what is accepted is over the limit by no more than the bytes lost in this way.
7. After an error the data callback that was due is not made; `Fed` and `FeedTwice` allow for it (`UpToPending`).
8. **A list of connection options may hide its options** (`http_parser.c:1651-1727`). An element that is a beginning of
   an option swallows the comma after it: `OptionIsHidden`, of `c, close` nothing is turned on. A blank element, or one
   that starts with no token, ends the list. `ConnectionLine` says what is turned on for every list, and `RegularList`
   that it is what is listed unless there are such elements.
9. `qp_rbtree_find` takes a 32-bit key, so the entries of keys from 2^32 up are out of its reach (the type of `Find`).

## Model

| member | source | states |
|---|---|---|
| RbTree.RbTree.constructor | src/core/qp_memory_core.c:139-149 | An empty tree: valid, its sentinel linked to itself. |
| RbTree.RbTree.LeftRotate | src/core/qp_memory_core.c:151-178 | The pointer updates of a left rotation give every node exactly the links a rotation means, at the root too, and change no other node. |
| RbTree.RbTree.RightRotate | src/core/qp_memory_core.c:182-214 | The same for a right rotation. |
| RbTree.RbTree.RotateLeft | src/core/qp_memory_core.c:151-178 | Anywhere in a linked tree, the rotated nodes are the rotated subtree in the same context; the sentinel keeps its fields. |
| RbTree.RbTree.RotateRight | src/core/qp_memory_core.c:182-214 | The same for a right rotation. |
| RbShape.RotationsPreserveInOrder | src/core/qp_memory_core.c:151-214 | Rotations keep the sequence of entries. |
| RbTree.RbTree.InsertFix | src/core/qp_memory_core.c:218-266 | From a tree with at most one red node under a red one, the loop ends in a red-black tree with the same entries in the same order. |
| RbTree.RbTree.DeleteFix | src/core/qp_memory_core.c:270-350 | From a tree that lacks one black node on the paths through `start` (perhaps the sentinel), the loop ends in a red-black tree with the same entries in the same order. |
| RbTree.RbTree.Insert | src/core/qp_memory_core.c:354-412 | Keeps the tree valid (linked both ways, red-black, sorted by key). A new key adds exactly one entry at its place in key order; a key that is there, or no node, gives null and changes nothing at all. |
| RbTree.RbTree.Delete | src/core/qp_memory_core.c:416-471 | Keeps the tree valid. Exactly the entry of `node` goes and all others stay in order; the node unlinked is `node` or its successor, and no other node leaves or moves its entry. |
| RbTree.RbTree.Find | src/core/qp_memory_core.c:475-491 | Finds the entry of the key if and only if there is one. The nodes visited are those of the search path, at most 2*log2(n+1) of n. |
| RbTree.RbTree.Min | src/core/qp_memory_core.c:495-509 | The first entry of the subtree, or of the tree. |
| RbTree.RbTree.Max | src/core/qp_memory_core.c:513-527 | The last entry of the subtree, or of the tree. |
| RbShape.PathIsLogarithmic | src/core/qp_memory_core.c:475-491 | A path down a red-black tree of n nodes has at most 2*log2(n+1). |
| Lists.ListPush | src/core/qp_memory_core.h:141-148 | Pushing prepends to the list and unlinks nothing. |
| Lists.ListPop | src/core/qp_memory_core.h:151-157 | Popping removes the first node, and does nothing to an empty list. |
| Lists.QueueInsertAfterHead | src/core/qp_memory_core.h:187-196 | The node becomes the first of the ring, linked both ways. |
| Lists.QueueInsertAfterTail | src/core/qp_memory_core.h:202-211 | The node becomes the last of the ring. |
| Lists.QueueEnds | src/core/qp_memory_core.h:180-225 | The first and the last node are those of the sequence; null if and only if it is empty. |
| Lists.QueueRemove | src/core/qp_memory_core.h:249-256 | A node anywhere in the ring is taken out; the others stay in order. |
| Lists.QueueSplit | src/core/qp_memory_core.h:259-270 | The nodes from the given one on move to the new queue, both remaining rings. |
| Lists.QueueMerge | src/core/qp_memory_core.h:273-282 | The nodes of the other queue follow those of this one, also when either is empty. |
| Lists.QueueSplitAndMerge | src/core/qp_memory_core.h:259-282 | Merging back what was split off restores every link. |
| Pools.PoolInit | src/core/qp_pool_core.c:108-138 | All blocks free, once each, the last of the room first. |
| Pools.PushedAt | src/core/qp_pool_core.c:128-134 | The free list the initialisation builds is the room in reverse. |
| Pools.BlocksDoNotOverlap | src/core/qp_pool_core.c:182-191 | The bytes of two blocks, with their headers, are apart and in the room. |
| Pools.Pool.Alloc | src/core/qp_pool_core.c:201-220 | Hands out the first free block, which is free no more, or null when the size is too large or none is free. |
| Pools.Pool.Free | src/core/qp_pool_core.c:223-234 | A block of the pool becomes the first free one; a block of another pool is refused and nothing changes. |
| Pools.Pool.ToArray | src/core/qp_pool_core.c:182-191 | The block of that index. |
| Pools.Pool.Destroy | src/core/qp_pool_core.c:141-165 | Refused while blocks are out, unless forced. |
| Pools.Manager.constructor | src/core/qp_pool_core.c:261-273 | No pool, no live block; sound, if its pools are to have blocks. |
| Pools.Manager.Alloc | src/core/qp_pool_core.c:322-365 | Hands out a block that is not live, which becomes live, and no other; null, with nothing live that was not, if the size is too large or `malloc` fails, and never while a pool has a free block of that size. Every pool stays sound, the available pools are exactly those with a free block, and the counters are theirs. |
| Pools.Manager.Free | src/core/qp_pool_core.c:368-404 | A live block of this manager ceases to be live, and no other does. Its pool, if it had no free block, becomes the first available one; if it was the first and is now empty, it is released; otherwise the pools and their order are what they were. A block of another manager is refused and nothing changes. Keeps the same invariant. |
| Pools.Manager.UsedIsLive | src/core/qp_pool_core.c:315-319 | The number of used blocks is the number of live ones. |
| SpinLock.StepKeepsInv | src/core/qp_ipc_core.c:424-556 | Every step of every thread keeps the invariant that at most one thread holds the lock, and that the lock words are then its own. |
| SpinLock.MutualExclusion | src/core/qp_ipc_core.c:424-556 | In every reachable state, at most one thread is inside. |
| SpinLock.CounterIsDepth | src/core/qp_ipc_core.c:559-563 | With no call under way, the counter is how often the owner has locked, and the lock words are all 0 if nobody has. |
| SpinLock.ShortcutIsOwners | src/core/qp_ipc_core.c:431-439 | A thread that takes the re-entrant path is the owner, though it reads the words one by one while others write them. |
| SpinLock.OwnerNeverSpins | src/core/qp_ipc_core.c:431-439 | The owner never waits for the lock it has. |
| SpinLock.SwapFailsOnlyIfHeld | src/core/qp_ipc_core.c:444-466 | The compare-and-swap fails if and only if another thread is inside. |
| SpinLock.UnlockIsOwners | src/core/qp_ipc_core.c:523-556 | Unlocking is refused only to a thread that has not locked, and goes on only for one that has. |
| SpinLock.ReleaseSucceeds | src/core/qp_ipc_core.c:536-553 | The last unlock leaves the lock free. |
| SpinLock.StepRefines | src/core/qp_ipc_core.c:424-556 | Each step is a step, or none, of a lock that is an owner and a depth; when a call returns, the thread owns that lock to its depth, unless that is 0. |
| SpinLock.CallReturns | src/core/qp_ipc_core.c:424-556 | A lock returns success one level deeper, and only a trylock fails, with nothing changed, while another thread is inside; an unlock succeeds one level up if the thread had locked, and fails otherwise. |
| SpinLock.CallGoesOn | src/core/qp_ipc_core.c:424-556 | Until it returns, a call remains the call it began as. |
| FileWriter.File.Flush | src/qp_file.c:277-305 | What the device takes leaves the buffer from its front and the rest moves up; a refusal changes nothing. |
| FileWriter.File.Write | src/qp_file.c:355-400 | Unless the device refuses, all of the data is on the device or in the buffer, after what was written before; what a refusal leaves behind is said exactly. |
| FileWriter.File.RefusalForgetsBuffered | src/qp_file.c:377-390 | After a refusal, what is forgotten is as much as was buffered before the last turn. |
| FileWriter.File.Close | src/qp_file.c:256-274 | Unless the device refuses, all that was written is on the device and the buffer is empty, however little the device takes at a time. |
| HttpRun.TurnKeepsFieldsOk | deps/http-parser/http_parser.c:708-2104 | Every turn keeps what the parser's assertions rely on. |
| HttpRun.RunKeepsFieldsOk | deps/http-parser/http_parser.c:634-2136 | So does every run. |
| HttpRun.RunSplit | deps/http-parser/http_parser.c:634-2136 | Reading byte by byte, a stream in two parts comes to what it comes to in one. |
| HttpParser.Parser.constructor | deps/http-parser/http_parser.c:2189-2198 | The fields of a new parser. |
| HttpParser.Parser.Turn | deps/http-parser/http_parser.c:708-2104 | A case of the switch on one byte is one turn of the reading, its marks and callbacks included; no byte is looked at twice in one state. |
| HttpParser.Parser.Name | deps/http-parser/http_parser.c:1347-1479 | The loop over a header name is its bytes' turns. |
| HttpParser.Parser.Value | deps/http-parser/http_parser.c:1554-1743 | The loop over a header value is its bytes' turns, or one skip; its bytes are counted before the value is reported or after. |
| HttpParser.Parser.ReportValue | deps/http-parser/http_parser.c:1562-1570 | At CR the value is told before it is counted; if that interrupts the parser, its bytes are lost to the count. |
| HttpParser.Parser.SkipTo | deps/http-parser/http_parser.c:1583-1606 | The first CR or LF, looking no further than a header may reach. |
| HttpParser.Parser.Content | deps/http-parser/http_parser.c:1927-1961 | As much of a body as is in the buffer, taken at once, is its bytes' turns; the last byte is looked at again. |
| HttpParser.Parser.Finish | deps/http-parser/http_parser.c:2106-2129 | At the end of the buffer at most one mark is set, and what it marks is reported. |
| HttpParser.Parser.Execute | deps/http-parser/http_parser.c:634-2136 | For every buffer, and wherever callbacks pause or fail: what is left of the buffer leads where the whole buffer leads, an error is the same one at the same byte, the header size error comes only when it should and at a byte the reading comes to, an empty buffer ends the stream, and nothing happens after an error. The parser is paused, or failed, exactly when a callback did so; a byte of a name by itself is counted twice, and a value interrupted at its CR not at all. |
| HttpParser.Parser.Unpause | deps/http-parser/http_parser.c:2490-2502 | The parser can go on where it stopped. |
| HttpParser.Parser.InOrder | deps/http-parser/http_parser.c:634-2136 | Between calls, pauses and errors included, the callbacks made so far are in order. |
| HttpSkim.SkimAgrees | deps/http-parser/http_parser.c:1583-1606 | Reading a buffer comes to what reading it byte by byte comes to, with the same peak of header bytes, if and only if no bad byte is skipped; otherwise it goes on beyond it. |
| HttpSkim.MissesMeansToken | deps/http-parser/http_parser.c:1575-1578 | A byte is missed only where the byte-at-a-time reading ends in an invalid header token. |
| HttpFeed.FeedAgrees | deps/http-parser/http_parser.c:634-2136 | The same for a stream in any buffers. |
| HttpFeed.MissedMeans | deps/http-parser/http_parser.c:1575-1606 | Nothing is missed by a lenient parser, nor when all bytes are fit for a header, nor when the byte-at-a-time reading meets no invalid header token. |
| HttpFeed.Feed | deps/http-parser/http_parser.c:634-2136 | Fed a stream in any buffers, the parser ends in the state, with the callbacks and with the bytes left that reading the buffers comes to, wherever callbacks pause; it ends in failure exactly when a callback failed, and what is left then still leads there. |
| HttpFeed.FeedTwice | deps/http-parser/http_parser.c:634-2136 | Split independence: the same bytes in different buffers, with different pauses and no failed callback, give the same end, unless a byte is missed or a header section found too long; neither finds one too long that is not, but for a byte for each call. |
| HttpFeed.FeedWithinLimit | deps/http-parser/http_parser.c:154-161 | A stream whose header sections stay below the limit by as many bytes as there are buffers and pauses is never refused for its size; none with a section over the limit by more than the bytes that went uncounted is accepted, and bytes go uncounted only where a callback interrupts the parser. |
| HttpLimit.OneLetter | deps/http-parser/http_parser.c:1347-1479 | A byte of a name by itself in a buffer counts twice, or the section is found too long, for every such name. |
| HttpLimit.NameByBytes | deps/http-parser/http_parser.c:154-161 | A header section of at most half the limit and eight bytes that is refused, with no callback interrupting. |
| HttpLimit.ValueNotCounted | deps/http-parser/http_parser.c:1562-1570 | A header section over the limit, paused at the end of a value, of which at most 100 bytes are counted and which is not refused. |

| HttpFeed.Drive | deps/http-parser/http_parser.c:634-2136 | After any calls at all, also failed ones, the callbacks made are balanced as below. |
| HttpFeed.BothCuts | deps/http-parser/http_parser.c:1583-1606 | One string a new strict parser accepts in one cut and refuses in another. |
| HttpFeed.FeedUncut | deps/http-parser/http_parser.c:1583-1606 | A parser that is not interrupted accepts it uncut, and tells the bad byte as part of the value. |
| HttpFeed.FeedCut | deps/http-parser/http_parser.c:1575-1578 | Such a parser refuses it when it is cut, at the bad byte. |
| HttpEvents.TurnKeepsOrder | deps/http-parser/http_parser.c:708-2104 | Every turn's callback is one that may come next, and the state says what has come. |
| HttpEvents.RunKeepsOrder | deps/http-parser/http_parser.c:634-2136 | Over every run callbacks come in order, also when it ends in an error. |
| HttpEvents.OrderlyIsBalanced | deps/http-parser/http_parser.c:1979-2101 | After every callback, chunk headers and completions have alternated; by the time a chunk is complete exactly its bytes were delivered; no message is complete while one is open; and in a message with a chunk header, body data lies only in open chunks. |
| HttpNumbers.ChunkSizeIsExact | deps/http-parser/http_parser.c:1979-2030 | A chunk size is the number its digits stand for, by place value, if it is at most 2^64-17, and is refused otherwise; bytes from 0x80 up count as 0. |
| HttpNumbers.SizeStartsWith | deps/http-parser/http_parser.c:1979-1993 | It may begin with a HEX digit or a byte from 0x80 up, and with nothing else. |
| HttpNumbers.ContentLengthIsExact | deps/http-parser/http_parser.c:1613-1639 | A content length is the number its digits stand for, if it is at most 2^64-7, and is refused otherwise; spaces in it do not count. |
| HttpFraming.IdentityBody | deps/http-parser/http_parser.c:1927-1977 | The body callbacks deliver exactly as many bytes as the length says, then the message is complete, once, and what follows is untouched. |
| HttpFraming.ChunkRuns | deps/http-parser/http_parser.c:1979-2101 | A chunk, however its size is spelled and whatever its extension, is announced with its length, delivered and completed. |
| HttpFraming.ChunkedRoundTrip | deps/http-parser/http_parser.c:1979-2101 | Any chunked body is told chunk by chunk, the bytes delivered are those that were sent, and the message is complete on its final line feed, not before. |
| HttpDelivery.FeedLength | deps/http-parser/http_parser.c:1927-1977 | A parser fed a body of known length, or a part of it, in any buffers and with any pauses delivers exactly its bytes, unless a callback fails or the calls are as many as the header limit has bytes; the message is complete with the last, not before. |
| HttpDelivery.FeedChunks | deps/http-parser/http_parser.c:1979-2101 | A parser fed a chunked body in any buffers and with any pauses tells every chunk, delivers what was sent, and completes the message once, unless a callback fails or a line between chunks is found too long. |
| HttpHeaders.NamesRecognised | deps/http-parser/http_parser.c:1347-1460 | A header name is recognised if and only if it is one of the five that matter, whatever its case. |
| HttpHeaders.NameRead | deps/http-parser/http_parser.c:1297-1479 | Reading a name tells it as it is and runs the matcher over it; a second name that begins with content-length is refused. |
| HttpHeaders.ChunkedRecognised | deps/http-parser/http_parser.c:1641-1711 | A transfer coding is taken for chunked if and only if it is that word, in any case, with nothing but spaces after it. |
| HttpHeaders.CodingRead | deps/http-parser/http_parser.c:1481-1711 | Reading a coding, from the colon and what spaces follow it, tells it as it is and runs the matcher over it. |
| HttpHeaders.CodingLine | deps/http-parser/http_parser.c:1297-1783 | After a whole line of Transfer-Encoding, whatever spaces come before the coding and whether it ends in LF or CR LF, the message is chunked if and only if it was before or the value is that word. |
| HttpHeaders.CodingTakesEffect | deps/http-parser/http_parser.c:1756-1783 | The message is chunked once the line is over and not continued. |
| HttpOptions.ConnectionLine | deps/http-parser/http_parser.c:1651-1727 | After a whole line of Connection or Proxy-Connection, exactly what its elements say is turned on: an option if it is the whole of an element, nothing for an element that is swallowed, and nothing after an element that ends the list. |
| HttpOptions.RegularList | deps/http-parser/http_parser.c:1651-1727 | Where every element is an option or begins like a token and is no beginning of one, what is turned on is what is listed, wherever in the list. |
| HttpOptions.OptionIsHidden | deps/http-parser/http_parser.c:1680-1687 | Of `c, close` nothing is turned on. |
| HttpUrl.Url.Parse | deps/http-parser/http_parser.c:2386-2488 | Accepts exactly the URLs that divide into fields; every byte is in the field its state says or is a delimiter, fields are nonempty, in order and disjoint, a schema has a host, and the port is the number of its field exactly when it should be. |
| HttpUrl.Url.ParseHost | deps/http-parser/http_parser.c:2300-2379 | The host part is taken apart in place: userinfo, host and port are the bytes the host states say. |
| HttpUrl.Url.Split | deps/http-parser/http_parser.c:2386-2453 | The loop over the URL's bytes sets the spans of its fields, for a URL that 16-bit offsets can hold. |
| HttpUrl.Decomposition | deps/http-parser/http_parser.c:2386-2488 | The fields of a divided URL are nonempty, in bounds, in order and disjoint, the port is digits, and all bytes outside are delimiters. |
| HttpUrl.PortIsRead | deps/http-parser/http_parser.c:2474-2484 | The port is the number of its field if and only if it does not end the URL, or no digit follows in memory, or all digits, those in memory too, are 0. |
| HttpUrl.PortEnds | deps/http-parser/http_parser.c:2423-2453 | Within the URL no digit follows the port. |
| HttpUrl.PortReadsOn | deps/http-parser/http_parser.c:2474-2484 | `a:80` before a `1` is read as port 801. |
| HttpUrl.WrongPortAccepted | deps/http-parser/http_parser.c:2474-2484 | That URL is accepted. |
| HttpUrl.RightPortRefused | deps/http-parser/http_parser.c:2474-2484 | `a:80` is refused before `000`, and accepted where it ends the memory. |

## Left out

- Execute: does not model a call with more bytes after a message that asked for another protocol; the source leaves it
  to the caller to stop there.
- Execute: where a buffer is within 80 KiB of 2^32 bytes, or longer, the 32-bit count of header bytes may wrap; then
  only the invariants between calls are promised.
- Execute: a callback that initialises the parser anew, or changes its fields, is not modelled.
- CodingLine, ConnectionLine: a value continued on the next line is not stated, beyond `CodingTakesEffect`.
- Parse: for URLs of more than 65535 bytes, whose offsets do not fit 16 bits, only memory safety is promised.
- Free: a block freed twice, or a pointer that is no block, is the caller's error; the source cannot tell.
- Alloc: says nothing of a manager of pools without blocks; the source gives it one useless pool, and null for every
  request.
- Write: one file offset, and no other writer of the file.
- HTTP methods: which names the method matcher accepts besides the thirty-three it knows.
- `qp_manager_destroy`, `qp_pool_destroy` with its memory, and creation by `qp_*_create`.
- Null arguments of the list, queue, pool and lock functions, which are tested and refused at once.
- The lock as a mutex, a lock shared by processes (all threads are of one process), its destruction, and the
  read-write lock, conditions and semaphores.
- Weak memory: each step of the lock model is one access to one word, seen by all.
- Reading files, asynchronous I/O and file locks.
- The event loop, threads, processes, configuration, logging, and the other libraries in `deps`.
