# A verified model of ZQL's order-preserving index and wire protocol

ZQL is a daemon plugin that stores rows for clients who encrypt their data. Two parts of it are
modelled and proved here.

**The index.** For a table with a column whose name ends in `_ope` the server keeps a binary tree
of ciphertexts it cannot compare. An insert is a conversation: the server shows the ciphertext of a
node, the client answers -1, 0 or 1, and the traverse takes one edge, until it finds its value or
creates a node. The edges taken become a 64-bit code that is stored in the row in place of the
ciphertext. Any number of conversations interleave on the same tree.

- `PathCode`: the shifts that build a code, what the code means, its order and its inverse.
- `SearchTree`: one tree as a map from paths to ciphertexts.
- `Protocol`: the effect of each request on the server, exact for any client.
- `Runs`, `RunTheorems`, `Solo`: clients and server together; what holds whatever clients answer,
  what a truthful client gets among liars, what holds when all are truthful; one client alone; how
  deep a run can go.
- `AnyRequests`: any requests whatever, from anyone and under any ids; what truthful rows still get, and
  what a traverse that goes on after its end stores.
- `ShippedClient`: the comparison of the client in the repository, the order it produces, and the
  rows for which it does.
- `Forest`, `BTree`, `WorkerHandlers`, `Daemon`, `Serving`: the mutable nodes, traverses, registries
  and handlers, proved equal to the protocol's steps.

**The wire.** Messages are written as CBOR items into a bounded buffer, read by a resumable state
machine of 11 states, and rebuilt by an event machine of 28 states.

- `CborFormat`, `CborRoundTrip`, `CborEnding`: heads, tokens, the reader's turns, what is heard of what
  is written, and on which bytes the reader ends.
- `Messages`, `Grammar`, `Wire`: the messages, the grammar the parser accepts, and delivery end to end.
- `WireLayout`: every message in plain bytes, and what every head is heard as: the format as another
  implementation would have to keep it.
- `CborWriting`, `MessageObjects`, `ObjectParsing`, `Exchange`: buffer, writer, `Serialize` methods,
  input, reader and parser as classes, proved equal to those functions.
- `Truncation`: messages that do not fit the sender's buffer.
- `Conversation`: shipped clients and the worker exchanging nothing but bytes, through a whole run.

`Strings`, `Decimal` and `Sizes` hold what both need: byte strings and `std::map` order, decimal
printing, bounds on what the server holds.

Conventions. A string is a sequence of bytes. A C++ object whose methods change it is a class; each
of its methods is specified by a function on values, and the theorems are about those functions and
about sequences of them. `before(value, node)` is the client's order: a value that goes before a node
goes left. A client may answer anything while it is waiting; what it was shown and what it answered is
on record, and its answers are truthful about a value when each is the comparison of that value with
what was shown. Requests have fresh ids when no other client is waiting under them. The handlers of
the 30 worker threads are atomic steps.

Findings, each with its exact condition:

- The codes of two rows whose traverses were given truthful answers are ordered as their values,
  whatever other requests the server gets (`TruthfulCodesFollowOrder`; among clients that answer only
  while waiting, `StoredCodesFollowOrder`).
- A finished traverse can be continued: it makes another node, stores its row again, and shifts on the
  code it has sealed. The code stored is that of the path which the last bits of its register spell, and
  that of the node if and only if they spell the node's path (`CodeIsNodesExactly`, `SecondNode`);
  `StaleContinuation` is an input.
- The shipped client compares the node with its own value, not the other way round, so under it
  larger values go left and stored codes *decrease* as plaintexts increase (`ShippedCodesDescend`).
- The shipped client compares the value of its last `_ope` field, the server files that of the first.
  Shipped clients keep the trees in order if and only if those two are the same value in every row
  (`AgreementIsExact`); `{"a_ope": "a", "b_ope": "z"}` below the root "m" is out of order
  (`TwoValuesBreakOrder`).
- With two `_ope` fields the value is taken from the first and the code written to the last
  (`CodeReplacesValue`).
- An answer of equality is reported as a success and the client's whole row is dropped. With truthful
  clients exactly the first insert of a value into a tree is stored, every later one is acknowledged
  and lost (`FirstInsertIsStored`, `StoredExactlyWhenNew`, `DuplicateRowIsDropped`).
- The code at depth 64 needs a shift by -1. Any run of truthful clients with at most 64 distinct values
  per tree is safe (`SixtyFourValuesFit`); 65 need not be (`SixtyFiveValuesMayNotFit`, `ShippedLimit`).
  An answer is defined exactly when `AnswerNeedsOnlyDepth` says.
- A traverse that has created its node is removed if and only if the last request bears its own id; an
  answer of equality removes nothing, whatever the id (`CompletionRemoves`, `DuplicateStays`). While all
  ids drawn are new no traverse is ever freed, and none that nobody waits on ever changes
  (`TraversesPileUp`).
- Two tables can share one tree when a database name has a dot in it (`TablesShareTree`,
  `TableKeyCollision`).
- `RequestGet` survives the wire exactly for keys below 256 and from 65536 up to 2^31, rows and results
  exactly when they are not empty (`WireRoundTrip`, `LongHeard`, `EmptyMapStalls`).
- A message that does not fit its buffer is cut, and the other side dispatches nothing of it
  (`SentArrival`): of a reply from 9000 bytes a ciphertext of up to 8979 bytes always arrives, one of
  8988 or more never does, and its client waits for ever (`TraverseReplyArrives`, `TraverseReplyLimits`).
  With no filed value above 8979 bytes every reply of every run arrives (`EveryReplyArrives`).
- The reader never ends on a complete eight-byte negative head, and two other heads are undefined; a
  test that only adds up item sizes tells which inputs those are (`StopsExactly`, `FatalAfterItems`).
- Negative integers are written with argument n for -n, where section 2.1 of RFC 7049 prescribes n - 1: the
  writer conforms exactly on the numbers that are not negative (`ConformsExactly`), and the reader hears
  every conforming negative number as one more (`RfcIntHeard`). The answer -1 of a conforming client
  arrives as 0, equality, and its row is dropped (`ConformingAnswer`, `ConformingBeforeIsLost`).

Check everything with `dafny verify dfyconfig.toml`.

## Model

| member | source | states |
|---|---|---|
| PathCode.WalkedLosesNothing | lib/BTree.cpp:47-74 | the shifts of a traverse of up to 64 edges lose no bit: the path register is the edges read in binary |
| PathCode.CodeIsAligned | lib/BTree.cpp:62 | the sealed code is the path bits, a one and zeros, left-aligned in 64 bits, for every depth up to 63; it is nonzero and fits |
| PathCode.CodeMonotone | lib/BTree.cpp:81 | codes compare as unsigned numbers exactly as the nodes lie in order in the tree |
| PathCode.SubtreeInterval | lib/BTree.cpp:47-84 | every node below one at depth d has a code within 2^(63-d) of its code |
| PathCode.CodeInjective | lib/BTree.cpp:57-62 | every path of at most 63 edges is recovered from its code |
| PathCode.CodeSurjective | lib/BTree.cpp:76-81 | every nonzero 64-bit number is the code of exactly the path it decodes to |
| PathCode.SealIsCodeOfTail | lib/BTree.cpp:47-62 | a register with any bits in it, sealed for a node at depth n, is the code of the path its last n bits spell |
| PathCode.FirstCodes | lib/BTree.cpp:47-84 | the codes of a root, of the node to its left and of the node to its right, in numbers |
| Decimal.PrintValue | plugin/Worker.cpp:122-126 | the decimal text stored in a row denotes the code it was printed from |
| Decimal.PrintDigits | plugin/Worker.cpp:122-126 | each byte of the text is the decimal digit of its place, with no zero in front |
| Decimal.RootPrinted | plugin/Worker.cpp:166-172 | the text stored for a root, byte by byte |
| Decimal.CodeFitsBuffer | plugin/Worker.cpp:122-126 | any 64-bit code, printed, fits the 25-byte buffer with its terminator |
| Strings.OpeFieldsMeaning | plugin/Worker.cpp:142-152 | the two loops over a row find its least and its greatest field ending in `_ope`, or none |
| Strings.OpeFieldsAgree | plugin/Worker.cpp:253-259 | they are the same field if and only if the row has one such field |
| Strings.IsOpeExactly | plugin/Worker.cpp:114-120 | a field is an `_ope` field if and only if its name is some stem followed by the bytes 95, 111, 112, 101 |
| Strings.LessIsStrictTotalOrder | plugin/test.cpp:99-110 | the comparison of byte strings is a strict total order, as the protocol needs |
| Strings.LessIsLexicographic | plugin/test.cpp:99-110 | one string goes before another if and only if after their longest common beginning it has ended or has the smaller unsigned byte |
| Strings.SortedKeysUnique | lib/objects/Request.cpp:124-127 | the iteration order of a map is the only strictly ascending listing of its keys |
| Protocol.TableKeyInjective | lib/BTree.cpp:28-35 | database names without a dot give different tables different trees |
| Protocol.TablesShareTree | lib/BTree.cpp:10-11 | two tables share a tree if and only if one database name extends the other by a dot and the table name makes up the difference |
| Protocol.TableKeyCollision | lib/BTree.cpp:10-20 | with dots two different tables share one tree |
| Protocol.AddKeepsLinked | plugin/Worker.cpp:128-202 | the same links hold after any first request |
| Protocol.ContinueKeepsLinked | plugin/Worker.cpp:214-287 | whatever a client answers, trees have no gaps and every traverse stands on a node |
| Protocol.ContinueOnlyGrows | plugin/Worker.cpp:231-267 | whatever a client answers, existing nodes, their ciphertexts and stored rows stay |
| Protocol.CompletionRemoves | plugin/Worker.cpp:225-275 | for every continuation reported as done: a filed traverse goes if and only if the answer was -1 or 1 and the continuing request bears the traverse's id; which ids are filed afterwards |
| Protocol.DuplicateStays | plugin/Worker.cpp:238-275 | a traverse ended by an answer of equality stays filed and in the tree even under its own id: an input |
| SearchTree.SidesDecideOrder | lib/BTree.cpp:47-84 | two nodes on the right side of what is above them lie in the client's order and hold different values, whatever else is in the tree |
| SearchTree.PositionOrderIsValueOrder | lib/BTree.cpp:47-84 | in a search tree in-order position is the client's order, and no value is there twice |
| SearchTree.CodeOrderIsValueOrder | lib/BTree.cpp:57-64 | codes of two such nodes compare as their values do |
| SearchTree.InsertKeepsSearchTree | lib/BTree.cpp:57-64 | a new leaf on the right side of all its ancestors keeps a search tree one |
| SearchTree.DepthBelowSize | lib/BTree.cpp:47-84 | a node at depth d needs d + 1 nodes |
| Runs.SubmitKeepsInv | plugin/Worker.cpp:128-202 | a first request keeps: trees without gaps, traverses on the nodes their clients' answers lead to, stored rows matching nodes one for one, kept acknowledgements matching rows |
| Runs.RespondKeepsInv | plugin/Worker.cpp:214-287 | any answer keeps the same invariant, whoever else is waiting |
| RunTheorems.ReachableStates | plugin/Worker.cpp:166-275 | in every reachable state, whatever was answered, no tree has a gap or is deeper than 63 and every waiting client's traverse serves its request on the node its answers lead to |
| RunTheorems.TruthIsSide | plugin/Worker.cpp:231-237 | answers are truthful about a value if and only if the value is on the right side of every node passed |
| RunTheorems.TruthfulRunsKeepOrder | plugin/Worker.cpp:166-275 | in every run of truthful clients every tree is a search tree and every waiting value is on the right side of every node passed |
| RunTheorems.StoredCodesFollowOrder | plugin/Worker.cpp:250-267 | in every run, the stored codes of two rows of one table whose own clients answered truthfully are ordered exactly as their values, whatever the other waiting clients answer |
| RunTheorems.FirstInsertIsStored | plugin/Worker.cpp:238-275 | in every run of truthful clients, of the inserts acknowledged for one value of one tree exactly the first is stored; a value is in a tree if and only if it was acknowledged for it, and once |
| RunTheorems.StoredExactlyWhenNew | plugin/Worker.cpp:238-275 | an action of a truthful client leaves its insert going on, or its request is acknowledged and one row, its own, is appended to the table if and only if its tree did not hold its value |
| RunTheorems.DuplicateRowIsDropped | plugin/Worker.cpp:238-242 | any two rows with one value inserted one after the other: both acknowledged, one row stored |
| RunTheorems.EveryRowIsAcknowledged | plugin/Worker.cpp:157-180 | whatever clients answer, the stored rows are the acknowledged inserts that were kept, one for one and in order, each as submitted but for its `_ope` fields; every acknowledgement more is a dropped row |
| RunTheorems.RowsAndNodesAgree | plugin/Worker.cpp:170-180 | in every run, whatever clients answer, stored `_ope` rows and nodes are in bijection and each row is the submitted one with its node's code written in |
| RunTheorems.StoredCell | plugin/Worker.cpp:253-267 | a stored row with one `_ope` field has in it the code of the node that holds the submitted value, and is otherwise as submitted |
| RunTheorems.CodeReplacesValue | plugin/Worker.cpp:253-263 | the code replaces the very ciphertext it stands for if and only if at a root or with one `_ope` field |
| RunTheorems.CodesNeverChange | lib/BTree.cpp:57-60 | later requests never change a node, its ciphertext or a stored row |
| RunTheorems.TraversesPileUp | plugin/test.cpp:146-184 | while all ids are new no traverse is removed, and none that nobody waits on changes, finished or not |
| RunTheorems.RoundsBelowSize | plugin/Worker.cpp:245-249 | the answers a waiting client has given are as many as its traverse's edges and fewer than the nodes of its tree |
| RunTheorems.EachAnswerAdvances | lib/BTree.cpp:47-74 | each answer ends an insert or takes its traverse exactly one edge further down, and leaves every other waiting client's traverse where it is |
| RunTheorems.AnswerNeedsOnlyDepth | lib/BTree.cpp:47-64 | an answer of a waiting client is defined if and only if it is equality, finds a node, or has room below depth 63 |
| RunTheorems.SixtyFourValuesFit | lib/BTree.cpp:62 | with at most 64 distinct values per tree no run of truthful clients ever shifts by a negative count |
| AnyRequests.AlwaysSound | plugin/Worker.cpp:128-287 | after any requests whatever no tree has a gap, every traverse stands where its answers led, and every stored row is the submitted one with the code its register made of its node's depth |
| AnyRequests.DefinedExactly | plugin/Worker.cpp:225-249 | after any requests whatever a first request is defined, and a continuation with -1 or 1 if and only if its id has a traverse that finds a node there or stands above depth 63 |
| AnyRequests.TruthfulCodesFollowOrder | plugin/Worker.cpp:250-267 | after any requests whatever the codes of two rows of one table whose traverses were given only truthful answers are ordered as their values |
| AnyRequests.CodeIsNodesExactly | lib/BTree.cpp:47-84 | the code in a stored row is that of its node if and only if the last bits of its traverse's register, determined by the nodes the traverse made before, spell the node's path; they do when it made none |
| AnyRequests.SecondNode | lib/BTree.cpp:47-84 | the second node of a traverse that made one at p has its own code in its row if and only if p is the last bits of its own code: down to depth 31, if p only turned left |
| AnyRequests.StaleContinuation | plugin/Worker.cpp:225-275 | an input: one answer too many makes a node at [true, true] and stores the row again with the code of [false, true] |
| AnyRequests.RunsAreRequests | plugin/Worker.cpp:57-85 | every run of clients is such a run of requests, on the same server |
| Solo.SubtreeRepresents | lib/BTree.cpp:47-84 | every tree without gaps is the tree of a recursive one |
| Solo.SoloReach | plugin/Worker.cpp:231-249 | a client left alone is led to the node with its value or to the parent of the place the recursive insert would use |
| Solo.SoloInsertIsInsert | plugin/Worker.cpp:166-275 | from any reachable state a whole insert without interleaving is the recursive search-tree insert on the table's tree and leaves every other tree alone |
| Solo.SixtyFiveValuesMayNotFit | lib/BTree.cpp:62 | for any 65 values in falling order there is a legal run of truthful clients after which a truthful answer shifts by -1 |
| ShippedClient.CompareIsLess | plugin/test.cpp:99-110 | the client's comparison and the order in which a map is iterated are the same order |
| ShippedClient.CompareIsLexicographic | plugin/test.cpp:99-110 | the client's comparison is -1, 1 or 0 exactly as the first string goes before, goes after or is the second, byte by byte |
| ShippedClient.ShippedAnswer | plugin/test.cpp:182 | the shipped answer is the honest one for the reversed order, and for the natural order only on equal values |
| ShippedClient.ShippedCodesDescend | plugin/test.cpp:175-184 | in every run of shipped clients, of two rows of a table with one `_ope` field each the smaller code belongs to the larger value, whatever other rows there are |
| ShippedClient.AgreeingRunsKeepOrder | plugin/test.cpp:127-182 | shipped clients whose first and last `_ope` fields hold one value keep every tree a search tree |
| ShippedClient.AgreementIsExact | plugin/test.cpp:127-132 | for any set of admitted rows: shipped clients keep the trees in order in every run of such rows if and only if in each of them the first and the last `_ope` field hold the same value |
| ShippedClient.DisagreeingRow | plugin/test.cpp:127-132 | any row that does not agree, inserted twice and nothing else, is in a tree twice and out of order |
| ShippedClient.TwoValuesBreakOrder | plugin/test.cpp:182 | the same for the row {"a_ope": "a", "b_ope": "z"} below the root "m" |
| ShippedClient.AgreeingRunsFit | plugin/test.cpp:391-398 | with rows that agree and at most 64 distinct values per tree, runs of shipped clients are legal |
| ShippedClient.ShippedLimit | plugin/test.cpp:391-398 | 65 ascending values overrun the codes of the shipped client |
| Forest.BTreeForest.GetTree | lib/BTree.cpp:10-20 | the registered root of a table's tree, or null exactly if there is none |
| Forest.BTreeForest.CreateTree | lib/BTree.cpp:28-35 | a one-node tree appears under the table's key, in place of any tree there, and no other tree changes |
| BTree.BTreeTraverse.GoToLeft | lib/BTree.cpp:47-65 | the traverse moves to the left child, or links a new leaf there and seals its code; every pointer stays that of its path |
| BTree.BTreeTraverse.GoToRight | lib/BTree.cpp:67-84 | the same to the right |
| BTree.BTreeTraverse.Value | lib/BTree.cpp:98-100 | the ciphertext shown is the one the traverse's tree holds where its edges lead |
| BTree.BTreeTraverseHolder.GetTraverse | lib/BTree.cpp:86-88 | looking up an unknown id files a null pointer under it |
| BTree.BTreeTraverseHolder.CreateTraverse | lib/BTree.cpp:90-96 | a traverse at the root with an empty path is filed under the id, whatever was there |
| BTree.BTreeTraverseHolder.RemoveTraverse | lib/BTree.cpp:102-108 | the entry under the id goes |
| WorkerHandlers.FindFirstOpe | plugin/Worker.cpp:142-152 | the loop that stops at the first `_ope` field finds it |
| WorkerHandlers.FindLastOpe | plugin/Worker.cpp:253-259 | the loop that does not stop finds the last one |
| WorkerHandlers.Worker.HandleAdd | plugin/Worker.cpp:142-191 | on the heap, the handler takes the server exactly where the protocol's step does, for any client |
| WorkerHandlers.Worker.HandleContinue | plugin/Worker.cpp:225-275 | the same for a continuation, including stale traverses and unknown ids |
| WorkerHandlers.LeafMade | plugin/Worker.cpp:250-272 | linking the leaf, storing its code and dropping the traverse filed under the request's id make up the protocol's step |
| Daemon.OnRequestAdd | plugin/Worker.cpp:128-202 | for any request that came in a message: the handler's state change, and the bytes it sends from its 9000-byte buffer: those of `ResponseAddOk` when the insert is done, else those of a `ResponseAddTraverse` with the request's id and the root's ciphertext |
| Daemon.OnRequestAddContinue | plugin/Worker.cpp:214-287 | the same for a continuation, from its 10000-byte buffer |
| Daemon.EveryReplyArrives | plugin/Worker.cpp:184-284 | in every run with no filed value above 8979 bytes, after any answer: a client that no longer waits gets a `ResponseAddOk`, one that waits a `ResponseAddTraverse` with the ciphertext it is now shown, and it arrives as itself |
| Daemon.ConformingBeforeIsLost | plugin/Worker.cpp:230-275 | the answer -1 as section 2.1 of RFC 7049 writes it is dispatched as 0: acknowledged, with nothing stored |
| Daemon.InsertExecutor.constructor | plugin/test.cpp:122-133 | the client's value is that of its last `_ope` field, empty without one |
| Daemon.InsertExecutor.Run | plugin/test.cpp:135-161 | the first request is sent and the executor waits under its id |
| Daemon.InsertExecutor.OnResponseAddTraverse | plugin/test.cpp:175-202 | the continuation sent carries the honest answer of the reversed order, and the executor waits under the new id |
| Daemon.ClientAndServerValue | plugin/test.cpp:127-132 | client and server take their value from the same field if and only if the row has one `_ope` field |
| Serving.Serve | plugin/Worker.cpp:57-85 | the worker's heap, after any interleaving of executors that answer its replies, is the server of that run of shipped clients |
| Conversation.ContinueInsert | plugin/test.cpp:175-202 | one answer of a client and the reply to it, as bytes in both directions, take the worker exactly one step of the protocol; the client hears `ResponseAddOk` when its insert is done and the next ciphertext otherwise |
| Conversation.Converse | plugin/Worker.cpp:57-85 | any interleaving of shipped clients with requests and replies as bytes only: the worker is the server of that run, every waiting client has heard the ciphertext the run shows it, and as many successes have been heard as inserts were acknowledged |
| Sizes.AddKeepsSizes | plugin/Worker.cpp:184-189 | the server never holds or shows a ciphertext longer than those it was sent, after a first request |
| Sizes.ContinueKeepsSizes | plugin/Worker.cpp:245-248 | the same after a continuation |
| Sizes.RunsKeepSizes | plugin/Worker.cpp:184-248 | in every run the server holds and shows no ciphertext longer than the values filed |
| CborFormat.ReadAppend | lib/Cbor.cpp:69-434 | reading is resumable at any byte: state, events and end are those of reading the whole |
| CborFormat.EventsMonotone | lib/Cbor.cpp:69-434 | the events of a prefix of an input are a prefix of its events |
| CborEnding.StopsExactly | lib/Cbor.cpp:257-298 | the loop ends, never ends or is undefined exactly as a walk over the bytes from item to item finds no fatal head, 0x3B with eight bytes after it, or another one |
| CborEnding.FatalAfterItems | lib/Cbor.cpp:257-276 | after any whole items 0x3B with eight bytes is never got past, whatever follows, and the other fatal heads are undefined |
| CborEnding.NoFatalByteEnds | lib/Cbor.cpp:273-275 | an input with no fatal head at any position is read to its end; an endless reading has met 0x3B with eight bytes after it |
| CborRoundTrip.HeadRead | lib/Cbor.cpp:479-497 | every head of the 32-bit overload is read as its type and value |
| CborRoundTrip.TokensRead | lib/Cbor.cpp:544-582 | any sequence of written tokens, whatever follows it, is heard as exactly its events |
| CborRoundTrip.StreamRoundTrip | lib/Cbor.cpp:69-434 | a written stream is read completely and the reader ends between items |
| CborRoundTrip.LongHeard | lib/Cbor.cpp:499-526 | the 64-bit overload is heard as its value if and only if below 256 or from 65536 up to 2^31 |
| CborRoundTrip.ConformsExactly | lib/Cbor.cpp:544-550 | an integer is written as section 2.1 of RFC 7049 says if and only if it is not negative |
| CborRoundTrip.RfcIntHeard | lib/Cbor.cpp:257-272 | a number written as section 2.1 of RFC 7049 says is heard as itself, a negative one as one more |
| CborRoundTrip.Normalise | lib/Cbor.cpp:544-582 | writing again what was heard of any input takes no more bytes and is heard as the same events, errors apart |
| CborWriting.CborOutput.PutByte | lib/Cbor.cpp:446-452 | the byte is appended if it fits, else nothing changes |
| CborWriting.CborOutput.PutBytes | lib/Cbor.cpp:454-461 | the block is appended if all of it fits, else nothing changes |
| CborWriting.CborWriter.WriteTypeAndValue | lib/Cbor.cpp:479-497 | the bytes of a head, each dropped if it does not fit |
| CborWriting.CborWriter.WriteTypeAndLongValue | lib/Cbor.cpp:499-526 | the bytes of the 64-bit overload, the low byte missing from its two-byte case |
| CborWriting.CborWriter.WriteInt | lib/Cbor.cpp:544-550 | a signed integer as one token |
| CborWriting.CborWriter.WriteString | lib/Cbor.cpp:562-565 | a text string as a head and a block |
| CborWriting.WrittenWhole | lib/Cbor.cpp:446-461 | the buffer holds the whole encoding if and only if there was room for it |
| CborWriting.BlockDropped | lib/Cbor.cpp:454-461 | of a string whose head fits and whose block does not, exactly the head is left |
| Messages.EntriesRoundTrip | lib/objects/ObjectParser.cpp:77-78 | a row assigned entry by entry in the order it was written is the row |
| Messages.EntriesInKeyOrder | lib/objects/Request.cpp:124-127 | the entries written are the row's fields with their values, each once, in strictly ascending order of their names |
| Messages.LastEntryCounts | lib/objects/ObjectParser.cpp:77-78 | of the entries a sender gives, whatever they are, the names are those assigned and each has its last value |
| MessageObjects.RequestGet.Serialize | lib/objects/Request.cpp:29-35 | appends the tokens of a `GetRequest` of the object's database, table and key, cut where the buffer is full |
| MessageObjects.RequestAdd.Serialize | lib/objects/Request.cpp:117-128 | appends the tokens of an `AddRequest` of the object's database, table and row, the row in key order, cut where the buffer is full |
| MessageObjects.RequestAddContinue.Serialize | lib/objects/Request.cpp:142-147 | appends the tokens of a `ContinueRequest` of the object's request id and comparison, cut where the buffer is full |
| MessageObjects.ResponseGetOk.Serialize | lib/objects/Response.cpp:24-32 | appends the tokens of a `GetOkResponse` of the object's values, in key order, cut where the buffer is full |
| MessageObjects.ResponseAddTraverse.Serialize | lib/objects/Response.cpp:48-53 | appends the tokens of a `TraverseResponse` of the object's request id and ciphertext, cut where the buffer is full |
| MessageObjects.Wrapper.Serialize | lib/objects/Request.cpp:9-15 | writes wrapper and payload; what does not fit is dropped |
| Grammar.ReactExtends | lib/objects/ObjectParser.cpp:17-168 | an accepted event lengthens the message at hand by itself; a completed message is what was at hand with its last event, and well formed |
| Grammar.ParserSound | lib/objects/ObjectParser.cpp:17-168 | on any events, those that drew no error are whole well-formed messages and the beginning of one; the dispatches are exactly those messages in order, and there is one error call for each other event |
| Grammar.ParserComplete | lib/objects/ObjectParser.cpp:17-168 | any concatenation of well-formed messages is dispatched as exactly those messages, with no error |
| Grammar.RunawayNeverDispatches | lib/objects/ObjectParser.cpp:117-129 | after a map head that announces no entries nothing is ever dispatched |
| Wire.MessageHeard | lib/objects/Request.cpp:9-35 | the events heard of a written message are exactly those of the message |
| Wire.EmptyMapStalls | lib/objects/ObjectParser.cpp:59-67 | a message with an empty row or result is taken in and never dispatched |
| Wire.GetDelivered | lib/objects/Request.cpp:29-35 | what a `RequestGet` arrives as for each range of its key, in numbers: itself, nothing, or from 2^31 on with a key larger by 2^64 - 2^32 |
| Wire.WireRoundTrip | lib/objects/ObjectParser.cpp:17-168 | a message in range is dispatched once, as itself and without an error, if and only if it is transmissible; ids over all 32 bits |
| Wire.ConformingAnswer | lib/objects/ObjectParser.cpp:17-39 | a continuation with a conforming comparison is dispatched with every negative one raised by one |
| WireLayout.SerializedBytes | lib/objects/Tags.h:11-23 | every message, byte by byte in plain numbers: heads in shortest form, tags as in the header file, fields in key order |
| WireLayout.BytesArrive | lib/objects/ObjectParser.cpp:138-168 | every message has such bytes, and the other side makes of them exactly the dispatches said elsewhere |
| WireLayout.MainTestBytes | lib/objects/Request.cpp:69-80 | the fourteen bytes of the message in `mainTest` |
| WireLayout.LongHeadValue | lib/Cbor.cpp:499-526 | from 2^32 on the 64-bit overload writes the number in eight bytes, the most significant first |
| WireLayout.NumbersHeard | lib/Cbor.cpp:71-434 | for every head of a number, array, map, tag or special, by its initial byte and in any of its four widths: the event it is heard as, signed as a 32-bit `int` where it is one, or the crash |
| WireLayout.StringsHeard | lib/Cbor.cpp:71-434 | for every head of a string: the string, the wait for more bytes, or the crash |
| WireLayout.LongsHeard | lib/Cbor.cpp:257-434 | for every head with an eight-byte argument: passed over, read as items, taken for a length of 123, or never got past |
| WireLayout.ReservedRead | lib/Cbor.cpp:71-233 | an initial byte with additional information from 28 to 31 is one error and is passed over |
| ObjectParsing.ObjectParser.OnInteger | lib/objects/ObjectParser.cpp:17-39 | the handler moves the parser as the grammar says; every cast is to the class of the current object |
| ObjectParsing.ObjectParser.OnBytes | lib/objects/ObjectParser.cpp:41-47 | the same for byte strings |
| ObjectParsing.ObjectParser.OnString | lib/objects/ObjectParser.cpp:49-87 | the same for text strings, with the counting of map entries |
| ObjectParsing.ObjectParser.OnArray | lib/objects/ObjectParser.cpp:89-115 | the same for arrays |
| ObjectParsing.ObjectParser.OnMap | lib/objects/ObjectParser.cpp:117-136 | the same for maps |
| ObjectParsing.ObjectParser.OnTag | lib/objects/ObjectParser.cpp:138-168 | the same for tags, with the allocation of the current object |
| ObjectParsing.ObjectParser.Run | lib/objects/ObjectParser.cpp:10-15 | the parser's calls on a whole input are those of its events |
| ObjectParsing.CborInput.GetInt | lib/Cbor.cpp:32-36 | the next four bytes, big-endian, never past the end |
| ObjectParsing.CborInput.GetLong | lib/Cbor.cpp:38-42 | the next eight bytes, big-endian, never past the end |
| ObjectParsing.CborReader.StepType | lib/Cbor.cpp:71-233 | the turn on an initial byte |
| ObjectParsing.CborReader.Run | lib/Cbor.cpp:69-434 | the loop ends on every reading that stops, in its state, with its rest and its events handled |
| Exchange.SendAndReceive | lib/objects/Request.cpp:69-112 | serialize, read and parse through a buffer of any capacity: the handler is called once with the message if and only if it is transmissible and fits, and not at all if it does not fit |
| Truncation.SentWhole | plugin/Worker.cpp:195-199 | the bytes sent are the whole message if and only if it fits the buffer |
| Truncation.CutMessage | lib/Cbor.cpp:446-461 | of a message that does not fit, the other side reads what was left to its end and dispatches nothing |
| Truncation.SentArrival | lib/Cbor.cpp:446-461 | any message through any buffer: it is dispatched as itself if and only if it is transmissible and fits; otherwise as said |
| Exchange.TraverseReplyArrives | plugin/Worker.cpp:187-199 | a reply with a ciphertext reaches the client as itself if and only if its heads, eight bytes and the ciphertext fit the buffer; otherwise the client is told nothing |
| Exchange.TraverseReplyLimits | plugin/Worker.cpp:187-199 | from 9000 bytes ciphertexts of up to 8979 bytes always arrive, with any ids, and those from 8988 never |
| Exchange.ContinueArrives | plugin/test.cpp:179-200 | every continuation reaches the worker as itself |

## Left out

- `Worker::OnRequestGet` and the MariaDB calls of `Database`: foreign calls; `add` is an appended row and always succeeds, as the handlers assume by ignoring its result.
- Threads and locks: each handler is one atomic step, although 30 workers run them without locks.
- Sockets, the proxy, the executor queue and `main` of the client: foreign calls; requests arrive in any order.
- Random request ids: a run assumes that a new id is not one under which another client waits; `CompletionRemoves` shows what goes otherwise.
- Requests that continue an insert nobody is waiting for are not part of the runs of clients; `AnyRequests` and, on the heap, `Worker.HandleContinue` have them.
- Encryption: the identity, as in the shipped client.
- Memory lifetime: `delete`, leaks, and ciphertexts that point into a local string; ciphertexts are values here.
- A node's ciphertext is constant: the accessor returns a reference, but nothing assigns it after creation.
- Bit operations on disjoint bits are sums, and shifts are products modulo 2^64.
- Error texts: a call of `OnError` is recorded without its message; logging and the debug listeners are not modelled.
- Virtual dispatch: the reader drives the object parser directly, the final listener records its calls, and a wrapper's payload is one of the seven message classes.
- `CborWriter::writeInt(long long)`: nothing calls it.
- Indefinite lengths and floats of sections 2.2 and 2.3 of RFC 7049: the reader does not implement them.
- The entry counter of a map is unbounded: 2^31 entries after an empty map head it would overflow.
- The undefined behaviour of the reader is a negative allocation size or the negation of INT_MIN; nothing is said of what happens after it.
- Routing by request id in the client: replies are handed to the executor they are for, although two open requests of one client could draw the same random id.
- TableKeyInjective: for database names without a dot; `TablesShareTree` has the exact condition.
- The 65-value run of `SixtyFiveValuesMayNotFit` uses one table and rows with only the `_ope` field.
