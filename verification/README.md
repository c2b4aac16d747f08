# Verified models of the engine's server and of its struct layouts

This project models, in Dafny, the hard parts of the server in `server/` and the binary structure
layouts of `platforms/js/cwat.js`, and proves what they are for. Check it with
`dafny verify dfyconfig.toml`.

- `RobinHood.dfy`, `Insertion.dfy`, `SetRuns.dfy`, `HashMap.dfy`, `HashMapRuns.dfy`, `HashMapLaws.dfy` (with
  `Bits.dfy`): the open-addressed hash map of `server/hashmap.c`. The class works on its bucket array in
  place. A ghost field holds the finite map the table stands for, and every operation is proved against it:
  probing, displacement, backward shift, growth and shrinkage by re-insertion, clearing and iteration. The
  cyclic invariant is stated on the bare bucket sequence; each write of each loop is a lemma about it. Any
  run of operations, with allocation failing at any point, gives the answers of a finite map, as long as no
  more than 65535 items are needed at once. `Insertion.dfy` and `SetRuns.dfy` show that this bound, which
  comes from the 16-bit `dib` field, is exact, for single tables and for runs, and `LoseItem` is a run of
  the map itself that loses its last item. `HashMapLaws.dfy` says which calls name the same item, in terms
  of the hashes they are given, and ties the whole thresholds to the doubles of the program.
- `LoadFactors.dfy` (with `Floats.dfy`, `Doubles.dfy`): the load factor and the thresholds, in the double
  precision that the program computes them in.
- `JobQueue.dfy`, `ThreadPool.dfy`, `ThreadPoolRuns.dfy`, `PoolQueue.dfy`: the linked job queue, and the
  pool of `server/thpool.c` as a transition system with any number of workers, any number of threads that
  add work, and one waiting thread. An inductive invariant gives order, exactly-once execution, no lost job,
  soundness of waiting and no lost wakeup; a measure shows that all work gets done under every schedule. The
  queue's methods are the pushing and pulling steps of the transition system. `ThreadPoolRuns.dfy` says what
  becomes of a job in terms of the steps of a run alone.
- `Sha1Spec.dfy`, `Sha1Words.dfy`, `Sha1.dfy`: SHA-1 as a function of the whole message (RFC 3174, sections
  4 to 6.1), and the streaming context of `server/sha1.c`, which refines it for every way of cutting the
  message. `Sha1Laws.dfy` says what the operations on words do to each bit; `Sha1Chunks.dfy` and
  `Sha1Examples.dfy` compute the digests of two known messages from the specification, round by round.
- `Base64.dfy`: the encoder with its line breaks and size computation in 64 bits, the decoder, and the round
  trip between them. `Handshake.dfy` puts both together into the WebSocket accept key, and
  `HandshakeExample.dfy` is the handshake of section 1.3 of RFC 6455.
- `WebSocket.dfy`, `WebSocketExamples.dfy` (with `Octets.dfy`): headers, masking and the two-part reading of
  a frame, and the writing of packets with every way the two sends can end; a stream of written packets
  splits back into those packets (sections 5.2 and 5.3 of RFC 6455).
- `Connections.dfy`, `ConnectionLaws.dfy`, `Servers.dfy`: the poll array and the client array of
  `server/conn.c`, kept aligned through arrivals, retries, marks and the swap-with-last sweep, with a ledger
  of every accepted descriptor, over any number of rounds, and when a client is pinged.
- `CStructs.dfy` (with `Floats.dfy`): sizes, reading and writing of nested structure descriptors, with
  integers of every width and both IEEE 754 formats.

Where the code and its comments disagree the model follows the code. The load factor is clamped between
50 and 95 per cent, although its comment says 90 (`server/hashmap.c:68-71`). Setting it to not-a-number
should keep it; the detour through doubles lowers it by one exactly at 57 and 58 per cent. After a resize the growth
threshold falls back to 60 per cent, whatever load factor was set (`server/hashmap.c:257`). An item
count above the threshold therefore stays possible, and what always holds is that at most 95 per cent
of the buckets are in use. A SHA-1 message that reaches 2^64 bits corrupts the context, but the call
that does it still reports success (`server/sha1.c:196-208`). A packet without payload is sent, but its
sender is told it was not, since a send of no bytes counts as an error (`server/conn.c:27-30`,
`server/ws.c:365-368`). The 16-bit length form reaches 65535 (section 5.2 of RFC 6455), but the
writer leaves it at 32767 (`server/ws.c:343`), so that it writes all lengths from there to 65535 in a longer
form than they need; the reader takes both. A client accepted while the table is full is neither stored nor closed
(`server/conn.c:165-167`); the ledger of the model counts it as lost. A client that was told to retry and is
let in when its data comes gets a second row and loses its first, and with it the connection that both rows
share (`server/conn.c:245-248`): the table keeps a row whose descriptor is closed. Descriptors are closed
once for every time they are accepted if and only if this never happens, and it does not if no callback asks
a client to retry. A structure that is written from an object without some member gets zero there, but
not-a-number if every object inherits a member of that name, such as `valueOf` (`platforms/js/cwat.js:84`),
and a field named `__proto__` is written but not read back (`platforms/js/cwat.js:70`).

In the hash map model items are told apart by the clipped hash and by a key. The key numbers the classes of
the comparison function, which is assumed to be an equivalence; a map without such a function is the
case of a single key. `OneItemPerKey` covers the calls that compute the hash from the item.

Inputs that come from outside are parameters: whether there is memory for an allocation, the bytes and sizes
the network delivers, how sends end, the results of polling, peeking and accepting, clock readings, what
callbacks answer, and which bit pattern an implementation of the language writes for not-a-number.

## Model

| member | source | states |
|---|---|---|
| RobinHood.WrapIsNext | server/hashmap.c:311 | masking an index plus one goes to the cyclic successor in a power-of-two table |
| RobinHood.CarriedBound | server/hashmap.c:305-312 | the `dib` of an entry that is carried while another bucket is free stays below the number of buckets |
| RobinHood.BackFrom | server/hashmap.c:289-313 | walking back from any bucket lowers `dib` by at most one a step, so probe paths have no gaps |
| RobinHood.DibWithinItems | server/hashmap.c:31-34 | no stored `dib` is larger than the number of items |
| RobinHood.CarriedWithinItems | server/hashmap.c:305-312 | the `dib` of a carried entry is at most one more than that |
| RobinHood.NotStored | server/hashmap.c:289-313 | a probe that meets a bucket closer to its home than itself has shown that its item is not stored |
| RobinHood.NotFound | server/hashmap.c:332-334 | a lookup may stop at a free bucket: the item is not in the finite map |
| RobinHood.Swap | server/hashmap.c:305-310 | displacing a richer entry keeps the whole cyclic invariant, and the displaced entry completes the same map |
| RobinHood.PutDown | server/hashmap.c:292-296 | a carried entry put into a free bucket adds exactly itself to the map |
| RobinHood.CarryStep | server/hashmap.c:238-251 | one round of insertion without comparing keeps the invariant with the carried entry and gets closer to a free bucket |
| RobinHood.SetFree | server/hashmap.c:292-296 | the insertion branch is taken only for an item that was not stored |
| RobinHood.SetEqual | server/hashmap.c:298-304 | the equality test succeeds only for the original entry, never for a displaced one, and only if the item was stored |
| RobinHood.SetStep | server/hashmap.c:305-312 | one round of a set keeps the invariant, misses no stored copy and gets closer to a free bucket |
| RobinHood.OpenHole | server/hashmap.c:381-382 | freeing a bucket removes exactly its item and leaves a table that is well formed but for the hole |
| RobinHood.MoveBack | server/hashmap.c:384-392 | moving the next bucket into the hole, also around the end of the array, moves the hole and loses nothing |
| RobinHood.CloseHole | server/hashmap.c:387-390 | stopping before a free bucket or an item at home restores the full invariant |
| RobinHood.CollectMore | server/hashmap.c:231-235 | each occupied bucket contributes an item not met before, so re-insertion needs no comparison |
| RobinHood.CollectsAll | server/hashmap.c:231-252 | reading all buckets yields exactly the map of the table |
| RobinHood.ScansEachOnce | server/hashmap.c:467-476 | a scan of all buckets meets every item of the map exactly once and nothing else |
| Insertion.InsertSets | server/hashmap.c:282-313 | with fewer than 65535 items, or the item stored already, the loop of a set updates the finite map and gives the replaced item, in tables of every size |
| Insertion.InsertAdds | server/hashmap.c:236-251 | with fewer than 65535 items the loop of a re-insertion adds a new item to the finite map |
| Insertion.NewcomerIsLost | server/hashmap.c:282-313 | in a table of 65535 or more items with enough of them on one hash, the `dib` of one more becomes zero and it is not stored |
| Insertion.SafeExactly | server/hashmap.c:31-34 | every set of a new item in every table of c items works if and only if c is below 65535 |
| SetRuns.CrowdIsRun | server/hashmap.c:282-313 | the table that loses an item is what setting the items of one hash, and others behind them, leaves of a new table |
| SetRuns.SafeRuns | server/hashmap.c:282-313 | all runs of so many sets of different items in new tables with room are kept if and only if there are at most 65535 of them |
| Floats.StepsOfNormal | platforms/js/cwat.js:34-45 | the values of patterns are those of hidden bit, fraction and exponent in IEEE 754 |
| Floats.RoundIsNearest | platforms/js/cwat.js:43-45 | a number is rounded to one that no other of the format is nearer to |
| Floats.TiesToEven | platforms/js/cwat.js:43-45 | in the middle between two numbers it is rounded to the even pattern |
| Floats.SinglePatterns | platforms/js/cwat.js:34-45 | the patterns of 1, -1, both infinities, negative zero and a quiet not-a-number in single precision |
| Floats.DoublePatterns | platforms/js/cwat.js:34-45 | the same in double precision |
| LoadFactors.NewPercentIs | server/hashmap.c:67-77 | the factor in whole per cent up to the rounding of the product; exactly 50 below and 95 above the bounds; not-a-number keeps the current one except at 57 and 58 |
| LoadFactors.NaNKeeps | server/hashmap.c:68-76 | not-a-number keeps the load factor if and only if it is not 57 or 58 per cent, and lowers these by one |
| LoadFactors.DefaultPercent | server/hashmap.c:155 | the default factor is 60 per cent in doubles |
| LoadFactors.ThresholdIsPercent | server/hashmap.c:156-157 | the thresholds computed in doubles are exact whole divisions for all tables of up to 2^46 buckets |
| HashMaps.TwiceWraps | server/hashmap.c:119-121 | the doubling of the model is that of words of any range, with wrap-around |
| HashMaps.RoundUpEnds | server/hashmap.c:115-123 | doubling in words of any width reaches the request if and only if it is at most half their range; beyond that the loop never ends |
| HashMaps.HashMap.RoundUp | server/hashmap.c:115-123 | the capacity is the least power of two that is at least 16 and the request |
| HashMaps.HashMap.New | server/hashmap.c:104-162 | an empty valid map of zeroed buckets with the default threshold if and only if there is memory for the map and for its buckets |
| HashMaps.HashMap.SetGrowByPower | server/hashmap.c:63-65 | clamps to 1..16 and keeps the map valid |
| HashMaps.HashMap.SetLoadFactor | server/hashmap.c:75-79 | stores the new per cent and threshold and keeps the map valid |
| HashMaps.HashMap.Probe | server/hashmap.c:331-342 | ends, and finds a bucket with the identity if and only if the finite map has it |
| HashMaps.HashMap.GetWithHash | server/hashmap.c:327-343 | returns what the finite map has |
| HashMaps.HashMap.Reinsert | server/hashmap.c:236-251 | the loop on the array computes the insertion without comparing, for tables of every size and fill |
| HashMaps.HashMap.MoveAll | server/hashmap.c:231-252 | every item arrives in the new table exactly once although the old buckets are overwritten on the way |
| HashMaps.HashMap.TakeOver | server/hashmap.c:253-260 | taking over the new array keeps the map and gives the new size and its default threshold |
| HashMaps.HashMap.Resize | server/hashmap.c:226-261 | with memory the same map in a table of the new size with the default threshold; without it nothing at all changes |
| HashMaps.HashMap.Upsert | server/hashmap.c:282-313 | the loop on the array computes the insertion with comparing, and the replaced item |
| HashMaps.HashMap.Place | server/hashmap.c:282-313 | the buckets are those of the insertion, and stand for the updated map up to 65535 items |
| HashMaps.HashMap.MakeRoom | server/hashmap.c:275-280 | afterwards there is room for one more item, unless the table had to grow without memory; then nothing changed |
| HashMaps.HashMap.SetWithHash | server/hashmap.c:270-314 | the map is updated and the previous item returned, and beyond 65535 items the buckets are where the loop puts them; exactly if the table must grow without memory `oom` is set and nothing changes |
| HashMaps.HashMap.ShiftBack | server/hashmap.c:382-393 | ends with a table that stands for the map without the item |
| HashMaps.HashMap.TakeOut | server/hashmap.c:381-394 | removes one item and counts down |
| HashMaps.HashMap.Remove | server/hashmap.c:381-403 | removal and shrinking: the map loses the identity, and the size is exact |
| HashMaps.HashMap.Shrink | server/hashmap.c:395-400 | halves exactly if memory allows, few items are left and the table is above its capacity |
| HashMaps.HashMap.DeleteWithHash | server/hashmap.c:366-405 | the map loses the identity, the old item is returned if there was one, and the size after it is exact |
| HashMaps.HashMap.FreeElements | server/hashmap.c:192-199 | the element function is called for the occupied buckets, in order and once each |
| HashMaps.HashMap.Clear | server/hashmap.c:207-224 | the map becomes empty and valid at either capacity, also when the smaller array cannot be had |
| HashMaps.HashMap.Iter | server/hashmap.c:467-476 | yields the next occupied bucket and the rest of the scan, or says that the scan is over, also for a cursor behind the table |
| HashMapRuns.Perform | server/hashmap.c:207-405 | each operation answers as the finite map does and has its effect on it, but for a new item beyond 65535 |
| HashMapRuns.Run | server/hashmap.c:207-405 | any run, with allocation failing anywhere, agrees with the finite map up to the first set beyond 65535 items, and to its end if it never needs more; the load stays at or below 95 per cent |
| HashMapRuns.RoomInRun | server/hashmap.c:270-314 | under that bound every set of a run finds fewer than 65535 items or its identity stored |
| HashMapRuns.AllStored | server/hashmap.c:207-405 | the bound counts exactly the items stored when no allocation fails |
| HashMapRuns.LoseItem | server/hashmap.c:270-314 | after 65535 items of one hash in a new map the next one is counted but in no bucket |
| HashMapRuns.LastWriteWins | server/hashmap.c:207-405 | every get, set and delete returns the item last set under the identity and not removed since |
| HashMapRuns.OneItemPerKey | server/hashmap.c:320-411 | if hashes are computed from keys the map has at most one item for each key |
| HashMapLaws.ClipIsMask | server/hashmap.c:93-95 | clipping a hash is masking it with 48 one bits, and leaves every hash below 2^48 as it is |
| HashMapLaws.GetAfterSet | server/hashmap.c:270-343 | after a set a get returns the item exactly if key and low 48 bits of the hash are the same, and otherwise what it returned before |
| HashMapLaws.GetAfterDelete | server/hashmap.c:327-405 | after a deletion a get finds nothing exactly in that case, and otherwise what it found before |
| HashMapLaws.OtherSetStays | server/hashmap.c:270-343 | on the map, a set under another hash below 2^48 leaves what a get returns, whatever the keys and the memory |
| HashMapLaws.OtherDeleteStays | server/hashmap.c:327-405 | so does a deletion |
| HashMapLaws.BothStored | server/hashmap.c:270-343 | two items set in a new map under different hashes below 2^48 are both returned, and none is replaced, also with one key |
| HashMapLaws.PercentIsThreshold | server/hashmap.c:156-157 | the whole division of the map is the threshold in doubles for all tables of 4 to 2^46 buckets |
| HashMapLaws.ThresholdsOf | server/hashmap.c:156-157 | a valid map shrinks at 0.10 of its size and grows at 0.60 or its own factor, as doubles give them |
| HashMapLaws.GrowAtIsDefault | server/hashmap.c:155 | the growth threshold of new and resized tables is that of the default factor in doubles |
| JobQueues.JobQueue.Push | server/thpool.c:475-496 | the linked list gains the job at its end |
| JobQueues.JobQueue.Pull | server/thpool.c:502-528 | the first job leaves the list; a repost is due exactly if jobs are left |
| JobQueues.JobQueue.Clear | server/thpool.c:459-470 | following the list from the front frees exactly the queued jobs, in order and once each |
| PoolQueue.PushStep | server/thpool.c:475-496 | pushing to the linked list is the pushing step of the pool on the queue of job numbers |
| PoolQueue.PullStep | server/thpool.c:502-528 | pulling from it is the pulling step, with the same job and the same duty to repost |
| ThreadPool.StepKeepsInv | server/thpool.c:214-241 | every step of every thread keeps locks, counting, order, exactly-once, tokens and waiting consistent |
| ThreadPool.WorkerKeepsNoLostJob | server/thpool.c:390-418 | no worker step leaves a queued job without a token, a committed worker or a thread about to post |
| ThreadPool.AdderKeepsNoLostJob | server/thpool.c:475-496 | nor does a step of a thread that adds work |
| ThreadPool.WaiterKeepsWaiting | server/thpool.c:235-241 | the waiting thread reads a zero length after all its jobs were pulled, and a zero count after they were done |
| ThreadPool.RunsAreFifo | server/thpool.c:390-418 | in every run jobs are pulled in the order pushed, each is held by one worker or done, and the count is exact |
| ThreadPool.NoJobIsLost | server/thpool.c:475-590 | in every run a queued job has a token or a thread that will provide one, and a token is seen by some worker |
| ThreadPool.WaitIsSound | server/thpool.c:235-241 | when waiting ends, every job added before it began has run to its end |
| ThreadPool.NoLostWakeup | server/thpool.c:411-416 | a sleeping waiter has work ahead of it, and the count that falls to zero signals it |
| ThreadPool.QuietMeansDone | server/thpool.c:390-418 | a state without enabled steps has an empty queue, all jobs done and all calls returned |
| ThreadPool.ProgressIsBounded | server/thpool.c:390-418 | between new calls and spurious wakeups only boundedly many steps are possible |
| ThreadPool.AllWorkGetsDone | server/thpool.c:214-241 | from every reachable state every schedule ends, with all pushed jobs done and all calls returned |
| ThreadPoolRuns.FinishedOnce | server/thpool.c:390-418 | no two steps of a run finish the same job |
| ThreadPoolRuns.WaitedJobsRun | server/thpool.c:235-241 | when a wait returns, each job whose adding call returned before the wait began is finished by some step of the run |
| Sha1Spec.PaddingFills | server/sha1.c:343-389 | the padding of the specification fills the last block with fewer than 64 zero bytes |
| Sha1Spec.BlocksOfJoined | server/sha1.c:186-203 | blocks written one after the other are the blocks of the whole |
| Sha1Context.Context.Expand | server/sha1.c:248-259 | the word buffer is the message schedule |
| Sha1Context.Context.RunRounds | server/sha1.c:261-308 | the four loops compute the 80 rounds of the specification |
| Sha1Context.Context.ProcessMessageBlock | server/sha1.c:232-317 | the state becomes the compression of the old state and the block |
| Sha1Context.Context.CountByte | server/sha1.c:189-198 | two 32-bit words count the bits through the carry; corruption exactly at 2^64 |
| Sha1Context.Context.TakeByte | server/sha1.c:186-203 | the context stands for the message with the byte added |
| Sha1Context.Context.Input | server/sha1.c:159-209 | every return code, and the message extended, unless it reaches 2^64 bits |
| Sha1Context.Context.StoreLength | server/sha1.c:379-386 | the last eight bytes are the bit count, highest byte first |
| Sha1Context.Context.PadTwoBlocks | server/sha1.c:351-365 | without room for the length two blocks are compressed |
| Sha1Context.Context.PadOneBlock | server/sha1.c:366-374 | with room for the length one block is compressed |
| Sha1Context.Context.PadMessage | server/sha1.c:343-389 | both branches compress exactly the padded message of RFC 3174 section 4 |
| Sha1Context.Context.Result | server/sha1.c:101-137 | the digest of the whole message, the same when asked again |
| Sha1Context.OneBlock | server/sha1.c:366-388 | the padding of a message whose rest fits with the length into one block |
| Sha1Context.TwoBlocks | server/sha1.c:351-388 | the padding of a message whose rest needs a second block |
| Sha1Context.DigestInPieces | server/sha1.c:101-209 | however a message is cut into calls, the digest is that of the whole, twice |
| Sha1Laws.ChooseBits | server/sha1.c:270 | each bit of the first word chooses between those of the second and the third |
| Sha1Laws.MajorityBits | server/sha1.c:292 | where two words agree the majority agrees with them, in every order of the words |
| Sha1Laws.ParityBits | server/sha1.c:281 | where two words agree the parity is the third, and elsewhere its complement |
| Sha1Laws.RotateBits | server/sha1.c:37-38 | the shifts by 1, 5 and 30 are circular, for all words |
| Sha1Laws.BytesOfWord | server/sha1.c:250-253 | a word assembled from four bytes is written as these bytes, the first one highest |
| Sha1Laws.ConstantsAreRoots | server/sha1.c:234-239 | the constants are the whole parts of 2^30 times the roots of 2, 3, 5 and 10 |
| Sha1Chunks.NextSlice | server/sha1.c:256-259 | sixteen known words of the schedule determine the next sixteen |
| Sha1Examples.AbcDigest | server/sha1.c:232-389 | the digest of "abc" in section 7.3 of RFC 3174: schedule, rounds, functions, constants and padding together |
| Sha1Examples.KeyDigest | server/sha1.c:232-389 | the digest of a message of 60 bytes, whose padding takes a second block |
| Base64.BufferSuffices | server/base64.c:37-41 | for every 64-bit length: rejected exactly from 2^62 on, otherwise nothing wrapped and all output fits |
| Base64.BreakFromIsLines | server/base64.c:50-78 | counting characters and breaking at 72 cuts the text into lines of 72, each ended |
| Base64.BrokenIsEncoded | server/base64.c:50-78 | writing group by group with breaks on the way gives the encoding |
| Base64.LinesAt | server/base64.c:56-79 | every 73rd byte and the last one is a line feed, all others are the characters in order |
| Base64.EncodeInto | server/base64.c:46-82 | the buffer holds the encoding and a NUL, within its size |
| Base64.Encode | server/base64.c:29-84 | the encoding; nothing exactly from 2^62 bytes on or without memory |
| Base64.TripleUndoes | server/base64.c:51-54 | the decoder's shifts undo the encoder's for all three-byte groups |
| Base64.BuildTable | server/base64.c:104-107 | the table maps every byte to its value, padding to zero and others to unknown |
| Base64.CountKnown | server/base64.c:109-113 | the counting pass counts the characters that the decoding pass will use |
| Base64.DecodeInto | server/base64.c:123-154 | the decoding pass writes what the groups decode to and never leaves the counted buffer |
| Base64.Decode | server/base64.c:97-155 | the decoded bytes; nothing exactly for texts that do not decode or without memory |
| Base64.Alphabet.RoundTrip | server/base64.c:29-155 | decoding an encoding gives every non-empty byte string back, through all line breaks and tails |
| Base64.Alphabet.Skipped | server/base64.c:123-127 | a byte that is no symbol and no padding makes no difference, wherever it stands in a text |
| Base64.Alphabet.DecodedToPadding | server/base64.c:138-149 | groups behind padding are not decoded |
| Base64.Alphabet.ThreePads | server/base64.c:138-149 | three padding characters in a group make the text invalid |
| Base64.StandardIsValid | server/base64.c:14-15 | the characters are all different and none is the padding or the line feed |
| Base64.StandardAlphabet | server/base64.c:14-15 | the 64 characters in their order |
| Base64.StandardVectors | server/base64.c:29-84 | the encodings of nothing, "f", "fo" and "foo", each with the line feed the program adds |
| Handshakes.CalculateAcceptKey | server/ws.c:161-183 | the buffer holds base64 of SHA-1 of key and magic string, 28 characters and a NUL |
| Handshakes.NoNul | server/ws.c:177-179 | no character of the encoding is a NUL, so the string length is right |
| HandshakeExample.MagicReads | server/ws.c:163 | the magic string is 258EAFA5-E914-47DA-95CA-C5AB0DC85B11 |
| HandshakeExample.SampleAcceptKey | server/ws.c:161-183 | the key dGhlIHNhbXBsZSBub25jZQ== of section 1.3 of RFC 6455 has the accept key s3pPLMBiTxaQ9kYGzzhZRbK+xOo= |
| HandshakeExample.AnswerSample | server/ws.c:161-183 | the method writes that accept key as a C string |
| WebSocketFrames.HeaderRoundTrip | server/ws.h:32-38 | the bit fields survive the two header bytes |
| WebSocketFrames.PrefixRoundTrip | server/ws.c:39-70 | a header in any of the three length forms is read back, with key and offset, whatever follows |
| WebSocketFrames.MaskedInParts | server/ws.c:83-87 | masking in two parts is masking at once if the second continues the phase |
| WebSocketFrames.UnmaskedInParts | server/ws.c:83-110 | unmasking the two parts of a masked payload gives the payload |
| Octets.XorFlips | server/ws.c:86 | exclusive disjunction flips the bits of the first byte where the second has its own, for all bytes |
| WebSocketExamples.MaskFlipsBits | server/ws.c:83-87 | every bit of a masked payload differs from the payload exactly where the byte of the key in turn has its bit |
| WebSocketExamples.HelloRead | server/ws.c:33-98 | the masked frame of section 5.7 of RFC 6455 is read as a final text of five bytes that unmask to "Hello" |
| WebSocketExamples.ReadHello | server/ws.c:33-98 | the packet read from that frame holds "Hello" |
| WebSocketFrames.StaysInside | server/ws.c:73-87 | the unmasking loop writes only to the payload if and only if the first read holds the whole header and no more than the frame |
| WebSocketFrames.Packet.Unmask | server/ws.c:108-111 | unmasks also in place, and touches nothing else |
| WebSocketFrames.Packet.ReadPacket | server/ws.c:33-98 | rejects exactly short buffers and bad lengths, otherwise header, key, lengths and, if masked, the first part unmasked |
| WebSocketFrames.Packet.DecodePacketData | server/ws.c:100-113 | unmasks the next part behind the first, or refuses exactly what does not fit |
| WebSocketFrames.Packet.ReceiveRest | server/ws.c:292-311 | receives the rest into the payload and unmasks it there |
| WebSocketFrames.ReceiveFirst | server/ws.c:269-283 | the first read leaves header, key and the beginning of the payload, and the rest unmasks to its end |
| WebSocketFrames.ReceiveFrame | server/ws.c:263-312 | wherever a masked frame is cut behind its header the payload is the one sent; a short second part fails |
| WebSocketFrames.CutFrame | server/ws.c:271-312 | the first part holds the header and the payload's beginning at the right phase |
| WebSocketFrames.BuildHeader | server/ws.c:333-356 | the buffer holds the header in the length form for the size |
| WebSocketExamples.NetworkOrder | server/ws.c:343-354 | written lengths have their highest byte first |
| WebSocketExamples.NetworkOrderRead | server/ws.c:46-62 | so do lengths that are read |
| WebSocketExamples.SentExamples | server/ws.c:332-371 | the unmasked frames of section 5.7 of RFC 6455: "Hello", and the headers for 256 bytes and for 64 KiB |
| WebSocketFrames.SendPacket | server/ws.c:332-371 | for every outcome of both sends what goes out; the code is zero if and only if the whole frame went out, but for the longest payload and the empty one, whose frame is reported as an error |
| WebSocketFrames.StreamSplits | server/ws.c:332-371 | any packets written in a row split back into the same packets, if and only if none exceeds the reader's limit |
| WebSocketFrames.TooLong | server/ws.c:54-60 | a written packet beyond the limit is rejected by the reader |
| WebSocketFrames.ShortestForm | server/ws.c:341-354 | the writer chooses the shortest length form if and only if the length is not in 32767..65535 |
| Servers.ServerPoll.Push | server/conn.c:75-84 | appends unless full, and changes nothing else |
| Servers.ClientPoll.Push | server/conn.c:100-106 | appends unless full, and changes nothing else |
| Servers.Server.constructor | server/conn.c:109-149 | the listener alone is in the poll array, whose capacity is one more than the clients' |
| Servers.Server.PushBoth | server/conn.c:165-166 | both arrays take a client or neither does |
| Servers.Server.HandleConnect | server/conn.c:158-171 | a client let in or told to retry joins both arrays with that status, or neither if they are full; a refused one joins neither |
| Servers.Server.AcceptConnections | server/conn.c:173-198 | what a listener event does to table and ledger, in every case |
| Servers.Server.MarkRow | server/conn.c:228-257 | one connection is marked by the first of the conditions that applies, and entered again if it retried and is let in |
| Servers.Server.Reconnect | server/conn.c:245-248 | a client that retries and is let in has its row cleared and another one entered, if there is room |
| Connections.Marked | server/conn.c:235-257 | the whole row afterwards in terms of the events and what was seen: when it is cleared, its status, and the clock it keeps or gets |
| ConnectionLaws.EventsExplained | server/conn.c:227-258 | the same for every row that a round with events finds in the table |
| ConnectionLaws.RetryExplained | server/conn.c:158-171 | the first client let in after a retry gets a row behind the others with the callback's status and clock, marked in its turn |
| ConnectionLaws.EventsStamp | server/conn.c:235-257 | a row without fault that is quiet, or has its message handled, gets the clock of its mark |
| ConnectionLaws.Kept | server/conn.c:284-309 | a row with events and another status than kill is still in the table after the round |
| ConnectionLaws.DueIs | server/conn.c:264-271 | a client is due after a thousand ticks times the interval, and for an interval of zero unless the clock ran back by a thousand |
| ConnectionLaws.QuietThenIdle | server/conn.c:215-278 | over two rounds, a client that was quiet or handled at one clock is pinged in the next idle round if and only if a thousand times the interval has passed |
| ConnectionLaws.QuietClientStays | server/conn.c:215-316 | on the server, a quiet client is still connected after an idle round within the interval, whatever the callback would answer |
| ConnectionLaws.ArrivalIs | server/conn.c:158-198 | the row of a client let in, and what is accepted, refused and lost, in terms of the listener's events |
| Servers.Server.Mark | server/conn.c:227-258 | the loop ends, marks every row, those it enters included, and keeps the table aligned |
| Servers.Server.Ping | server/conn.c:262-278 | every connection silent for the interval is pinged, one that fails is marked, the table stays aligned |
| Servers.Server.Remove | server/conn.c:291-306 | tells and closes one connection and fills its place with the last, in both arrays |
| Servers.Server.SweepDead | server/conn.c:284-309 | ends, keeps alignment and listener, and closes in the ledger exactly what the sweep removes |
| Servers.Server.PollEvents | server/conn.c:215-316 | table and ledger after a round, for every input from outside: aligned, balanced and without dead connections |
| Connections.SweepConserves | server/conn.c:284-309 | what is kept and what is removed together are the rows there were |
| Connections.SweepIsExact | server/conn.c:284-309 | kept are exactly the live rows and removed the dead ones, counted with repetition |
| Connections.ClosedOnce | server/conn.c:295-298 | with distinct descriptors every dead connection is closed and told once, every other one not at all |
| Connections.RoundKeepsDistinct | server/conn.c:215-316 | descriptors stay distinct over a round in which the system hands out a new one and no row enters again |
| Connections.MarkReenters | server/conn.c:227-258 | marking enters no row again if and only if there is no room or no client that retries is let in |
| Connections.ReenteredIsClosed | server/conn.c:245-309 | a row that enters again has its descriptor closed in the same round, and the table keeps the new row unless the peer is gone |
| Connections.RetryCloses | server/conn.c:245-309 | one client whose retry succeeds: its descriptor is closed, free to be handed out, and in the table |
| Connections.ClosedPerAcceptance | server/conn.c:158-309 | every descriptor is refused, lost, closed or in the table once for each time it was accepted, if and only if none entered again |
| Connections.TraceReenters | server/conn.c:215-316 | over any rounds descriptors enter again unless all rounds are calm |
| Connections.TraceKeepsDistinct | server/conn.c:215-316 | over any calm rounds, if the system hands out only descriptors it does not hold open, the table keeps distinct ones |
| Connections.NeverRetryingIsCalm | server/conn.c:215-316 | if no client retries at the start and no connect or ping callback asks for it, no row ever enters again |
| Servers.PollRounds | server/conn.c:215-316 | these together for the server running any rounds |
| CStructs.RoundTrip | platforms/js/cwat.js:67-88 | reading after writing gives the value in the type's terms, wrapped, truncated or rounded, missing members as zero and inherited ones as not-a-number, for all nested types |
| CStructs.ReadBack | platforms/js/cwat.js:67-88 | the value itself comes back if and only if it has exactly the members and ranges of the type |
| CStructs.EveryEncoding | platforms/js/cwat.js:67-88 | writing what was read restores the bytes if and only if no float field holds a not-a-number pattern other than the one the implementation writes, and a field named as the prototype holds not-a-number |
| CStructs.InheritedMember | platforms/js/cwat.js:84 | a single-precision field with the name of an inherited function is not-a-number when the member is missing |
| CStructs.InheritedByNumber | platforms/js/cwat.js:84 | the same for a field of a structure that is missing itself, with the functions of numbers |
| CStructs.MissingIsBlank | platforms/js/cwat.js:82-88 | all bytes of a field are zero, for scalars and nested structures, when the member is neither own nor inherited |
| CStructs.MissingIsZero | platforms/js/cwat.js:67-88 | such fields are read back as zero |
| CStructs.FractionDropped | platforms/js/cwat.js:43-45 | an integer setter stores the whole part, towards zero, modulo the width, of every real number |
| CStructs.UnreadField | platforms/js/cwat.js:70 | a field named `__proto__` is not read into a member, so that writing clears it |
| CStructs.SignallingNaN | platforms/js/cwat.js:34-45 | the bytes 01 00 80 7F of a single-precision field are not restored, whatever other pattern the implementation writes |
| CStructs.StoredLoaded | platforms/js/cwat.js:34-45 | the same for one scalar of every kind and width |
| Floats.WrittenRead | platforms/js/cwat.js:34-45 | every pattern that is not a not-a-number survives being read and written, signed zeros and infinities included |
| CStructs.NormalFits | platforms/js/cwat.js:67-88 | what is read always fits the type |
| CStructs.Tiles | platforms/js/cwat.js:49-51 | every byte of a structure belongs to exactly one field |
| CStructs.FieldBytes | platforms/js/cwat.js:82-88 | the bytes at the place of a field are the encoding of its member |
| CStructs.Set | platforms/js/cwat.js:43-88 | the buffer changes to the encoding at the offset and nowhere else; fields without a member are zero bytes |
| CStructs.Get | platforms/js/cwat.js:34-74 | reads what the bytes at the offset decode to |
| CStructs.SetThenGet | platforms/js/cwat.js:34-88 | both together on one buffer, with everything outside untouched; what is missing is read as zero |

## Left out

- HashMaps.HashMap.SetWithHash: a new item beyond 65535, for which it states where the loop puts it and not that the map holds it; what the map does after that is not modelled. `SetRuns.SafeRuns` shows that nothing more can be promised for all items.
- HashMaps.HashMap.New: the sizes of the allocations are not computed, so their wrap-around is not modelled; a request for more than half the range of words never returns, which `HashMaps.RoundUpEnds` states apart.
- LoadFactors.ThresholdIsPercent: thresholds of tables beyond 2^46 buckets, for which the map's whole division is not justified.
- HashMaps.HashMap.Reinsert: the carried entry is a local value written back to the old bucket at the end, where the code keeps it in the old bucket throughout; no other code reads that bucket in between.
- HashMaps.HashMap.GetWithHash: returns a copy, where the code returns a pointer into the table.
- The hash functions, seeds, `hashmap_probe`, `hashmap_count`, `hashmap_scan`, `hashmap_free` and custom allocators: easy members or uninterpreted.
- Thread pool: starting and destroying it, pausing, more than one waiting thread, jobs that add work themselves, and failing allocation in `thpool_add_work`; each region under a lock is as many steps as other threads can tell apart.
- Sha1Context.Context.Input: null pointers.
- Sha1Context.Context.Result: the digest is a value returned, and the shift loop that writes it is one function.
- Base64.Decode: the lookup table is a function value.
- Handshakes.CalculateAcceptKey: the concatenation is a value, the digest is read through the streaming context twice, and without memory for the encoding the code has no defined result.
- WebSocketFrames.Packet.ReadPacket: first reads that `WebSocketFrames.StaysInside` rules out, for which the code leaves the payload buffer, and a missing packet argument.
- WebSocketFrames.ReceiveFrame: masked frames only; fragmented frames, which the code does not support, frames cut inside the header, and the callbacks that receive the packet.
- Searching the request for the handshake key, ping packets, broadcast, and the sockets themselves.
- Servers.Server.MarkRow: callbacks that change the client they are given, other than through the status they return.
- Servers.Server.HandleConnect: a client record holds descriptor, status and time; address and read buffer are not modelled.
- CStructs.RoundTrip: values are numbers and plain objects without null or undefined members, and a nested structure does not have the name of an inherited member.
- CStructs.Set: fields lie within the buffer; where they do not, the view throws. Conversions to a number that throw or call code of the value are not modelled.
- `CTypes.i64` and `CTypes.u64`, which name accessors a view does not have, strings, arrays and modules of `platforms/js/cwat.js`.
- HTTP, URL parsing, string helpers, `include/core.h`, `engine/wasmstd.h` and the web pages: easier members, or host calls.
