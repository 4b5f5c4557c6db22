# Verified model of rpcproxy

This project models the protocol core of `rpcproxy`, an asynchronous WebSocket RPC client, and proves properties of it
in Dafny 4.11. `dafny verify dfyconfig.toml` checks everything.

What is modelled:

- **Chunked transport** (`Chunking`, `Reassembly`, `ReassemblyRuns`, `Integrity`, `RoundTrip`, with `Base64`, `Json`,
  `Text` and `OrderedDicts` below them). A JSON object is printed to bytes, cut into self-describing envelopes, and rebuilt from
  envelopes that arrive in any order, repeated, malformed, or mixed with other transfers, under a bounded
  least-recently-touched cache. The cache is the class `ChunkReassembler`, which holds mutable `PendingTransfer` objects.
- **The single-reader client** (`Wire`, `Calls`, `Relay`, `Reader`, `Posting`, `ClientRuns`, `Client`, `EndToEnd`).
  Every stretch of code between two `await`s is one atomic step. Futures have an identity (their number in order of
  creation) and are pending, done or cancelled. The class `RpcClient` runs the same steps on mutable tables, and each of
  its methods is proved equal to a step of the state machine whose runs carry the theorems.
- **The persistent ADB shell** (`AdbShell`, `AdbSessions`, `ShellQuote`). Outputs come back on one byte stream, each
  closed by a marker that overlaps itself in one byte, cut into reads in any way.
- **The handler pipeline** (`Pipeline`), **login sessions and authorization** (`Sessions`, `Authorization`) and
  **API keys** (`ApiKeys`).

Library code enters as the parameter `Library` (JSON dump and load, gzip both ways, SHA-256, `str`, `int`). Theorems
that need it assume `Library.Restores(body)` for the one body sent: loading undoes dumping, decompressing undoes
compressing. `Json.RestoringLibraryExists` shows that this can be met for any finite number of bodies at once. Nothing
is assumed about SHA-256. Base64 is defined after section 4 of RFC 4648 and its round trip is proved. The ids of `uuid4`
are the parameter `ids`, assumed to be all different. Timeouts, cancellations, the clock, the bytes a device sends and the
frames a peer sends are arbitrary inputs.

Properties of the code that a reader might not expect, each shown by a lemma:

- `close()` is documented to release everything. When the reader task failed, awaiting it raises before the cleanup:
  `ClientRuns.CloseTearsDownUnlessFailed` gives the exact condition, `ClientRuns.BadFrameFails` a frame that makes the
  reader fail, and `ClientRuns.CloseAfterFailureLeavesACall` a caller that is then left waiting.
- As far as frames decide, the reader loop survives a sequence of them exactly when none closes the connection, none
  fails to load with another error than a `JSONDecodeError`, none carries a chunk marker without a usable `version`, and
  none makes `receive_envelope` be called with an extra argument named `self` (`Reader.ReaderSurvives`;
  `ClientRuns.SelfArgumentFails` is an input of the last kind). The other ends of the loop, an exception from user code
  and a send that fails, are events of `ClientRuns`.
- A handler is not called for an envelope with an extra argument named `arguments`, which is answered with success all
  the same (`Pipeline.HandlerSeesDelivery`).
- A command of the ADB session that is cancelled after its line was written shifts the later outputs of that shell by one
  line: `AdbSessions.CancelledCommandShifts` shows it for every device, `AdbSessions.OutputsArePaired` that the shift is
  always the number of such commands.
- Overlapping confirms of one login session push two keys, and a session re-created during a push is completed without
  one of its own (`Authorization.OverlappingConfirmsPushTwice`, `Authorization.RecreationCompletesWithoutPush`);
  `Authorization.OrderlyIsExact` gives the exact condition.
- The escaping for `input text` can be undone exactly for texts without a literal `%s` (`ShellQuote.SpacesRoundTrip`),
  and a text that ends in a newline passes its pattern but is then refused as a line (`ShellQuote.InputTextIsRead`).
- A masked API key is itself a valid API key, with three dots as its secret (`ApiKeys.MaskHidesOnlyTheSecret`).

## Model

| member | source | states |
|---|---|---|
| Chunking.EncodeChunkedBodies | src/rpcproxy/client/chunking.py:190-244 | Raises for a chunk size below 1; otherwise the loop returns exactly the batch that `EncodeBatch` specifies, under the given transfer id or, if that is missing or empty, the fresh one, with the request id as given and at least one chunk. |
| Chunking.CompressionNeverGrows | src/rpcproxy/client/chunking.py:205-212 | The payload is the gzipped JSON exactly when compression is asked for and makes it shorter, and otherwise the plain JSON. |
| Chunking.PiecesPartition | src/rpcproxy/client/chunking.py:216-218 | The pieces join to the payload, all but the last have the chunk size, there is one piece for an empty payload and otherwise the ceiling of length over size. |
| Chunking.ParseChunkBody | src/rpcproxy/client/chunking.py:87-109 | Every printed envelope is recognised as one and parses to the very id, header, index and bytes it was printed from. |
| Chunking.VersionDecides | src/rpcproxy/client/chunking.py:173-179 | A body is a chunk if and only if it has a marker object of version 1; without a marker object, or with another integer as version, it is not one, and a marker object without an integer there raises. |
| Chunking.ParseIsExact | src/rpcproxy/client/chunking.py:87-109 | A body parses to a chunk if and only if its metadata and data say that chunk: the three integers as JSON integers or as texts that `int` reads, absent and null texts as their defaults, the content type `application/json`, the index in range, the data in base64 or missing. |
| Chunking.MissingPartsFail | src/rpcproxy/client/chunking.py:257-284 | Without a marker object, or without one of the three integers, parsing fails for the first of them that is missing, and tells a value that is no integer from one that is required. |
| Chunking.FaultsAreExact | src/rpcproxy/client/chunking.py:95-109 | With the three integers there, parsing fails with an error if and only if the check of that error is the first to fail. |
| Chunking.TransportIdsAreNumbered | src/rpcproxy/client/chunking.py:247-254 | The ids are the stripped request id, or the transfer id if that is blank, followed by `#chunk:`, the number from one and the count; a count below 1 raises. |
| Text.StripTrims | src/rpcproxy/client/chunking.py:252 | `strip` takes away spaces at the two ends, all of them, and nothing else. |
| Chunking.TransportIdInjective | src/rpcproxy/client/chunking.py:247-254 | The text `prefix#chunk:i/N` determines prefix, index and count, even when the prefix itself contains `#chunk:`. |
| Base64.RoundTrip | src/rpcproxy/client/chunking.py:107 | Decoding undoes encoding for every byte string. |
| Base64.EncodedShape | src/rpcproxy/client/chunking.py:236 | Four ASCII characters for every three bytes begun. |
| Base64.TestVectors | src/rpcproxy/client/chunking.py:236 | The test vectors of section 10 of RFC 4648. |
| Base64.DecodeGroup | src/rpcproxy/client/chunking.py:107 | Any group of symbols decodes to its bits; the unused bits of a short last group are ignored. |
| Base64.OnlyGroupsDecode | src/rpcproxy/client/chunking.py:107 | Only whole groups of symbols decode, and only the last two characters may be padding. |
| OrderedDicts.EvictKeepsRecent | src/rpcproxy/client/chunking.py:168-170 | A key with fewer than the capacity of newer keys survives the eviction loop with its value. |
| OrderedDicts.EvictDropsOld | src/rpcproxy/client/chunking.py:168-170 | A key with at least that many newer keys does not: the bound is exact. |
| OrderedDicts.NewKeyEvicts | src/rpcproxy/client/chunking.py:168-170 | Inserting a new key pushes out exactly the oldest one, and exactly from a full dictionary. |
| Reassembly.PieceStored | src/rpcproxy/client/chunking.py:134-144 | Pigeonhole: a transfer with as many pieces as `count` misses no index, so the final join never fails; with fewer it stays partial. |
| Reassembly.PushKeepsTable | src/rpcproxy/client/chunking.py:87-170 | Every push, accepted or not, keeps the state invariant: distinct keys, at most `max_pending` transfers, each with at least one piece, fewer than its count, all indices in range. |
| Reassembly.AcceptEffect | src/rpcproxy/client/chunking.py:111-145 | A chunk moves its own transfer as the one-transfer machine says and changes no other; another one disappears exactly when it is the oldest of a full table and the chunk's transfer is new. |
| Reassembly.PushedSurvives | src/rpcproxy/client/chunking.py:121-122 | The transfer being pushed is never the eviction victim. |
| Reassembly.OnlyLastPieceCompletes | src/rpcproxy/client/chunking.py:125-145 | A chunk finishes its transfer exactly when every other index was already there and its own was not; a refused chunk changes nothing; any other chunk is stored and returns `None`. |
| Reassembly.RaisingChunkStoresNothing | src/rpcproxy/client/chunking.py:123-157 | A chunk that raises leaves its own transfer as it was, or removes it if it was complete but bad. |
| Reassembly.StoredPiecesStay | src/rpcproxy/client/chunking.py:125-139 | No stored piece or metadata is ever replaced, an accepted chunk adds its own bytes at its own index, and the two refusals happen exactly for other metadata and for other bytes at a present index. |
| Reassembly.FinishIsExact | src/rpcproxy/client/chunking.py:144-166 | A whole transfer becomes a message with given fields if and only if its bytes have the declared length and digest, decode under their encoding, and print that body, no bytes printing the empty one; each error happens exactly when its check is the first to fail. |
| Reassembly.PushIsExact | src/rpcproxy/client/chunking.py:87-145 | A body that describes no chunk raises and leaves the table alone; any other is taken as the chunk it describes. |
| Integrity.MessagesAreSound | src/rpcproxy/client/chunking.py:87-166 | In every run, if a push returns a message, then for each index below its count some push of that transfer, since the transfer was last absent and no later than this one, brought a piece with that index under the message's own metadata; those pieces in index order have the declared length and digest and decode to the body. |
| Reassembly.PendingTransfer.Keep | src/rpcproxy/client/chunking.py:125-139 | The checks and the in-place entry in `chunks` are the specified refusal and the specified new piece. |
| Reassembly.ChunkReassembler.constructor | src/rpcproxy/client/chunking.py:78-82 | A new reassembler is empty and valid. |
| Reassembly.ChunkReassembler.Clear | src/rpcproxy/client/chunking.py:84-85 | Leaves the empty table. |
| Reassembly.ChunkReassembler.EvictIfNeeded | src/rpcproxy/client/chunking.py:168-170 | The loop keeps exactly the most recent `max_pending` transfers. |
| Reassembly.ChunkReassembler.FindOrAdd | src/rpcproxy/client/chunking.py:111-124 | The transfer of the chunk is new or the same object as before, is the most recent, and the table is otherwise as `MakeRoom` says. |
| Reassembly.ChunkReassembler.Push | src/rpcproxy/client/chunking.py:87-166 | The object's new table and the outcome are those of the specification `PushStep`, and validity is kept. |
| ReassemblyRuns.RefinesSolo | src/rpcproxy/client/chunking.py:87-170 | Over any stream of pushes, valid or malformed, the outcomes of one transfer are those of a one-transfer machine fed only its own chunks, as long as none of its pushes finds it evicted. |
| ReassemblyRuns.WellSpacedIsNeverEvicted | src/rpcproxy/client/chunking.py:168-170 | No push finds its transfer evicted if fewer than `max_pending` distinct other ids are touched between its pushes. |
| ReassemblyRuns.EvictionIsExact | src/rpcproxy/client/chunking.py:120-122 | A push evicts another transfer if and only if it starts a new one, the table is full and the other is the oldest. |
| ReassemblyRuns.RunKeepsRecencyOrder | src/rpcproxy/client/chunking.py:121-124 | In every reachable state the keys are in the order of their last touch. |
| RoundTrip.BatchOutcomes | src/rpcproxy/client/chunking.py:134-145 | The chunks of a batch in any order and with any repetitions, also after a completion: every push returns `None`, except that each one that completes the index set once more finishes the whole batch. |
| RoundTrip.FirstCompletion | src/rpcproxy/client/chunking.py:141-145 | Up to the first complete index set, the push that brings the last missing index is the only completion. |
| RoundTrip.FinishRestores | src/rpcproxy/client/chunking.py:144-166 | The pieces of a printed batch decode to the body, id and count that were printed, compressed or not. |
| RoundTrip.RoundTripInterleaved | src/rpcproxy/client/chunking.py:87-244 | For every body, chunk size and compress flag, pushing the printed envelopes in any order, repeated at will, mixed with any other pushes that do not evict the transfer, returns the original message at every completion of the index set and `None` otherwise. |
| Wire.AnswerIsNotCall | src/rpcproxy/fastapi_ws_rpc/wire.py:47-54 | No frame is both an answer and a call, so the order of the reader's two tests does not matter. |
| Wire.CallAndReplyAreRead | src/rpcproxy/fastapi_ws_rpc/wire.py:57-102 | A printed call is read as that call and a printed reply as the answer to it, with its result, and neither as the other. |
| Wire.CallsAreRead | src/rpcproxy/fastapi_ws_rpc/wire.py:47-72 | A frame is read as a given call if and only if it has a request object with that method name as a string and that call id, not null, and no response; arguments other than an object count as none. |
| Wire.AnswersAreRead | src/rpcproxy/client/base.py:374-381 | A frame is read as the answer to a given call if and only if it has a response object with that call id. |
| Calls.CallStepOk | src/rpcproxy/client/base.py:156-178 | Every step keeps: only calls in flight are pending, each under its own id; an open future can be reached through the table; a completed future holds a response with its own id. |
| Calls.CallsAreIndependent | src/rpcproxy/client/base.py:374-390 | A future is resolved at most once, only by a frame naming its own id, and cancelled only by its own timeout, its own end or the teardown; nothing else touches it. |
| Calls.CallStepsAct | src/rpcproxy/client/base.py:156-178 | A call starts pending and registered; its answer resolves it and unregisters it; a timeout, its end and the teardown cancel it while it is pending; its end and the teardown unregister it. |
| Calls.LateResponseIsDropped | src/rpcproxy/client/base.py:374-390 | A frame that answers no pending call changes nothing, and a repeated response is such a frame. |
| Calls.ResultsAreCorrelated | src/rpcproxy/client/base.py:156-178 | Over every interleaving of calls, frames, timeouts and teardowns, a call's result was carried by a response with the call's own id. |
| Relay.TablesStep | src/rpcproxy/client/base.py:271-332 | Every step keeps the stash bounded, waiters running and under their own id, and no id in both the stash and the waiter table. |
| Relay.PendingStep | src/rpcproxy/client/base.py:319-332 | Every step keeps: a future that is still pending is the one registered under its id. |
| Relay.RelayStepOk | src/rpcproxy/client/base.py:271-332 | Every step keeps tables, registrations and the ledger of receipts. |
| Relay.ReceiptStarts | src/rpcproxy/client/base.py:271-289 | A publish under a non-blank id, and nothing else, adds a receipt: resolved to the waiter whose future is pending, or else stashed, or else dropped when the stash is disabled. |
| Relay.ReceiptLeaves | src/rpcproxy/client/base.py:276-315 | A stashed receipt becomes taken exactly by a wait that returns it, superseded exactly by a publish of its id, evicted exactly by another id that is new to a full stash in which it is the oldest, cleared exactly by the cleanup, and nothing else. |
| Relay.ReceiptsAreConserved | src/rpcproxy/client/base.py:271-332 | In every reachable state each receipt published under a non-blank id has exactly one fate, and an event of the run that is the reason for that fate; stash and futures hold exactly the receipts marked so, with the id and arguments they were published with. |
| Relay.FatesAreFinal | src/rpcproxy/client/base.py:271-332 | Every fate but being stashed is final. |
| Relay.HandedOutOnce | src/rpcproxy/client/base.py:276-315 | No receipt reaches two waiters, and none taken from the stash is handed out again. |
| Relay.WaitTakesFromStash | src/rpcproxy/client/base.py:308-321 | A wait raises on a blank id, returns and removes exactly the stashed receipt if there is one, raises if the id is being waited for, and otherwise registers a new future. |
| Relay.WaitersAreIndependent | src/rpcproxy/client/base.py:322-332 | A waiter is changed or unregistered only by a publish of its own id, its own timeout or end, or the cleanup: a finishing waiter never disturbs a later one on the same id. |
| Relay.WaiterStepsAct | src/rpcproxy/client/base.py:271-332 | A publish resolves the pending future of its id with its arguments and unregisters it; a timeout, the wait's own end and the cleanup cancel a pending one; the end stops and unregisters its own waiter only. |
| Relay.StaysUnlessEvicted | src/rpcproxy/client/base.py:287-315 | Through a run that neither publishes, awaits nor clears it, a stashed receipt stays if and only if no event evicts it. |
| Relay.NextWaitReturnsStashed | src/rpcproxy/client/base.py:280-315 | A receipt nobody waited for is returned by the next wait on its id, if it was not published again and no cleanup ran, if and only if no event evicted it; none does if fewer than `relay_stash_max_size` distinct other ids were put into the stash since. |
| Reader.ReactionIsOwed | src/rpcproxy/client/base.py:349-455 | One turn that does not end the loop owes a reply exactly for a call of a known method, under that call's id; it raises exactly on a failed load, on a bad version or on an extra argument named `self`, touches the reassembler exactly for a chunk, and passes to `receive_envelope` exactly a plain envelope or a completed transfer. |
| Reader.EnvelopesAreSorted | src/rpcproxy/client/base.py:417-455 | An envelope whose body has no marker object, or one of another version than 1, leaves the reassembler alone and is passed on with its own arguments; with version 1 it goes to the reassembler; a marker object without an integer version ends the loop. |
| Reader.DeliveryIsExact | src/rpcproxy/client/base.py:51-57 | The named arguments of a delivery are texts as they are, other values as `str` prints them, absent and null as the empty text; the body only if it is an object; and every other argument is extra, unchanged. |
| Reader.ReaderSurvives | src/rpcproxy/client/base.py:334-372 | As far as frames decide, the loop survives a sequence of them if and only if none closes the connection, fails to load with an unexpected error, has a chunk marker without usable version, or makes `receive_envelope` be called with an argument named `self`, be it a plain envelope or the chunk that completes a transfer. |
| Reader.RepliesInOrder | src/rpcproxy/client/base.py:337-364 | A surviving reader owes the known calls' replies in order of arrival, each exactly once. |
| Posting.SendAll | src/rpcproxy/client/base.py:218-228 | The loop sends the posts in order up to the first call that raises, and collects the responses of those before. |
| Posting.PostMessageAuto | src/rpcproxy/client/base.py:237-265 | Direct if and only if the printed body has fewer bytes than the threshold, and then one post with the given id and body, whatever the chunk size; otherwise all chunk posts in order, each with its numbered id and its chunk, and one response each; every post goes to the given receiver; a failing call ends it after a prefix; the two argument errors send nothing. |
| Posting.PostsAreAddressed | src/rpcproxy/client/base.py:197-257 | Every post of either kind has the receiver, the id and the body or chunk that it should have. |
| Posting.TransportIdsTellPostsApart | src/rpcproxy/client/base.py:213-228 | Two posts of any chunked messages with the same transport id have the same position in messages with as many chunks, and the same stripped request id or, where that is blank, transfer id. |
| EndToEnd.ReadFollowsRun | src/rpcproxy/client/base.py:417-435 | The reader's reassembler and its reactions to chunks are those of the reassembler's own run over the chunk bodies among the frames. |
| EndToEnd.DirectPostDelivers | src/rpcproxy/client/base.py:417-455 | A relayed post without a chunk marker is passed on at once with its own body and request id; `receive_envelope` is entered with them if and only if the relay added no argument named `self`, and otherwise the reader ends. |
| EndToEnd.AssembledDelivery | src/rpcproxy/client/base.py:429-455 | A completed transfer is delivered with the original body, under its logical id or, if that is blank, the transport id of the completing chunk; all other arguments are that envelope's. |
| EndToEnd.AssembledExtras | src/rpcproxy/client/base.py:431-449 | The delivery of a completed transfer carries the five documented chunk fields on top of the envelope's own extra arguments. |
| EndToEnd.ChunkedPostDelivers | src/rpcproxy/client/base.py:197-235 | The chunk posts of one message, relayed in any order with any repetitions to a peer whose reader survives them, make it enter `receive_envelope` with the posted body and id at every completion of the set of chunks and at no other of these frames. |
| EndToEnd.DirectPostsDeliver | src/rpcproxy/client/base.py:250-257 | Every frame that relays the one post of an unchunked message makes a peer whose reader survives enter `receive_envelope` with its body and id. |
| EndToEnd.AutoIsTransparent | src/rpcproxy/client/base.py:237-265 | For a non-blank id and a body without the chunk marker, below and above the threshold alike, the peer's `receive_envelope` is entered with the same body and id at every completion of the set of posts and at no other of their frames, as long as the peer's reader survives the frames and does not find the transfer evicted. |
| EndToEnd.DeliversOnce | src/rpcproxy/client/base.py:237-265 | So it is entered exactly once, at the last frame, when that frame is the first to complete the set of posts. |
| EndToEnd.CallIsAnswered | src/rpcproxy/client/base.py:392-415 | The frame of a call makes a peer owe one reply under its id unless it ends that peer's reader (the built-in results at once), and the reply frame completes that call with its result and no other. |
| ClientRuns.ClientStepOk | src/rpcproxy/client/base.py:116-372 | Any step of the whole client keeps the invariants of its calls, its relay and its reassembler together. |
| ClientRuns.DeliveriesArePublished | src/rpcproxy/client/base.py:427-439 | Over every run the receipts published are the envelopes passed to `receive_envelope`, in order and with their arguments: one for each plain envelope and each completed transfer with a non-blank id, and none for any other frame or event. |
| ClientRuns.ReaderEndTearsDown | src/rpcproxy/client/base.py:367-372 | Whatever ends the reader loop, at the end of its `finally` the pending, waiter and stash tables are empty and no future registered before is still pending. |
| ClientRuns.ReaderMoves | src/rpcproxy/client/base.py:116-154 | Where the reader task is after every event: returned, failed, waiting for a frame, in `receive_envelope` or sending a reply, and for a frame by what the frame is. |
| ClientRuns.AnswerResolvesCall | src/rpcproxy/client/base.py:356-390 | A frame that answers a call under way resolves that call, and does nothing else to the client. |
| ClientRuns.OtherTasksStepAlone | src/rpcproxy/client/base.py:156-332 | The steps of callers and waiters are those of their own part and touch nothing else. |
| ClientRuns.CloseTearsDownUnlessFailed | src/rpcproxy/client/base.py:135-154 | `close()` releases everybody and empties the reassembler if and only if the reader task did not fail or there was nothing to release; after a failure it changes nothing. |
| ClientRuns.BadFrameFails | src/rpcproxy/client/chunking.py:173-179 | A concrete frame after which the reader task has failed. |
| ClientRuns.SelfArgumentFails | src/rpcproxy/client/base.py:446-455 | Another: a call of `receive_envelope` with an argument named `self` ends the reader task with an exception, after its teardown. |
| ClientRuns.CloseAfterFailureLeavesACall | src/rpcproxy/client/base.py:135-142 | A call begun after such a failure is still pending when `close()` has raised. |
| ClientRuns.LogStepOk | src/rpcproxy/client/base.py:337-364 | Every step keeps the log of replies and deliveries equal to that of the sequential reader over the same frames. |
| ClientRuns.RepliesAreSerial | src/rpcproxy/client/base.py:337-364 | In every run the replies sent are a prefix of the known calls in order of arrival, under their own ids, complete while the reader waits and short by at most one otherwise; and each carries the reaction's own result, or what the handler returned for that delivery. |
| ClientRuns.RunProjects | src/rpcproxy/client/base.py:71-96 | The calls and the relay inside any run of the whole client are themselves in reachable states. |
| ClientRuns.WholeClientConserves | src/rpcproxy/client/base.py:156-332 | In any run of the whole client the ledger of receipts is exact, each fate has the event that is its reason, and every call result is its own answer. |
| Client.RpcClient.constructor | src/rpcproxy/client/base.py:77-96 | A new client is the initial state. |
| Client.RpcClient.Connect | src/rpcproxy/client/base.py:116-120 | Raises when already connected, otherwise the reader starts. |
| Client.RpcClient.CallBegin | src/rpcproxy/client/base.py:156-165 | Raises when not connected, otherwise registers a new future as specified. |
| Client.RpcClient.CallEnd | src/rpcproxy/client/base.py:175-178 | The `finally` block, as specified. |
| Client.RpcClient.TryCompletePending | src/rpcproxy/client/base.py:374-390 | The new tables and the returned flag, as specified. |
| Client.RpcClient.CancelPending | src/rpcproxy/client/base.py:143-146 | The loop and the clearing cancel exactly the registered open futures. |
| Client.RpcClient.RelayPublish | src/rpcproxy/client/base.py:271-289 | The new stash, waiters and ledger are those of the specified step. |
| Client.RpcClient.EvictStash | src/rpcproxy/client/base.py:287-289 | The loop keeps exactly the most recent entries. |
| Client.RpcClient.WaitBegin | src/rpcproxy/client/base.py:308-321 | The new tables and the outcome, as specified. |
| Client.RpcClient.WaitEnd | src/rpcproxy/client/base.py:328-332 | Only the waiter's own registration is removed and cancelled. |
| Client.RpcClient.RelayCleanup | src/rpcproxy/client/base.py:291-296 | The loop and the clearing, as specified. |
| Client.RpcClient.InvokeReceiveEnvelope | src/rpcproxy/client/base.py:417-439 | Reassembly and publication are those of the specified reaction, and every invariant is kept. |
| Client.RpcClient.ReaderTurn | src/rpcproxy/client/base.py:337-364 | One turn of the loop, from a frame to the next `await`, takes the object to the state of the specified step and keeps every invariant. |
| Client.RpcClient.ReaderFinally | src/rpcproxy/client/base.py:367-372 | The `finally` block takes the object to the torn-down state. |
| Client.RpcClient.ReaderCancelled | src/rpcproxy/client/base.py:365-372 | A cancelled reader task runs its `finally` block and returns, or fails if the user code it was in raises something else. |
| Client.RpcClient.Close | src/rpcproxy/client/base.py:139-148 | The object's state after the rest of `close()`, once its reader task is over; it raises exactly when the reader task had failed. |
| AdbShell.FirstMarkerIsOwn | src/rpcproxy/handlers/adb_handler.py:207-209 | The first marker in output, marker, anything is the output's own if and only if the marker does not occur in the output with one newline added. |
| AdbShell.UncleanHasText | src/rpcproxy/handlers/adb_handler.py:37 | Only an output that contains the marker text can fail that test. |
| AdbShell.CollectFollowsStream | src/rpcproxy/handlers/adb_handler.py:190-210 | Whatever is read, a returned output is the next one of the stream and the buffer keeps exactly what was received beyond it; a failure empties the buffer. |
| AdbShell.LoopIsExact | src/rpcproxy/handlers/adb_handler.py:190-210 | After reads of data that leave no marker and stay within the cap: a timed-out read and the end of the stream raise their own errors and stop the shell, a read beyond the cap raises, a first marker returns what is before it and keeps what is behind, and no further read leaves everything as it is. |
| AdbShell.NextOutput | src/rpcproxy/handlers/adb_handler.py:191-210 | On a stream that carries an output and its marker, the call returns the output exactly when the buffer is within the cap at the read that completes the marker, and otherwise fails as too large. |
| AdbShell.FragmentationIsInvisible | src/rpcproxy/handlers/adb_handler.py:191-210 | For every cutting of the stream of several outputs into reads, successive calls return them one by one with nothing left over if and only if the buffer is within the cap at each read that completes a marker. |
| AdbShell.RoomyOutputsReturn | src/rpcproxy/handlers/adb_handler.py:191-210 | Outputs that leave one read's worth of room under the cap are returned so for every cutting. |
| AdbShell.OversizeAlwaysFails | src/rpcproxy/handlers/adb_handler.py:203-205 | An output that exceeds the cap together with its marker fails for every cutting. |
| AdbSessions.AdbSession.EnsureShell | src/rpcproxy/handlers/adb_handler.py:173-177 | Keeps a running shell; otherwise stops the old one and, if the device is ready, starts a new one with an empty buffer. |
| AdbSessions.AdbSession.RunShellLine | src/rpcproxy/handlers/adb_handler.py:179-210 | The method on the mutable buffer has the specified result, buffer, shell and number of reads, on every error path and when it ends at the drain. |
| AdbSessions.AdbSession.RunCommand | src/rpcproxy/handlers/adb_handler.py:325-327 | A command under the lock is the specified step. |
| AdbSessions.ShellIsEnsured | src/rpcproxy/handlers/adb_handler.py:98-177 | A running shell is kept with its buffer; otherwise a new one with the next number and an empty buffer takes its place if the device is ready, and the command raises if not. |
| AdbSessions.LineIsChecked | src/rpcproxy/handlers/adb_handler.py:179-188 | The three checks raise and change nothing; a cancelled drain has written the line and nothing more; a marker already in the buffer answers without a read. |
| AdbSessions.CommandIsExact | src/rpcproxy/handlers/adb_handler.py:179-210 | Which read ends a written command and with what: a timeout, the end of the stream and an oversize buffer each raise their error at that read, with shell and buffer gone; the first marker returns the output before it and keeps shell, line and rest. |
| AdbSessions.OutputsArePaired | src/rpcproxy/handlers/adb_handler.py:173-210 | Over whole sessions with any reads, failures, restarts and cancellations, an answer comes from the shell its line was written to and is the output of the line that lies back by the number of commands cancelled on that shell: its own line's output when there were none. |
| AdbSessions.CancelledCommandShifts | src/rpcproxy/handlers/adb_handler.py:186-210 | The shift happens with every device: if one command is cancelled right after its line was written, the next one is answered with the first one's output, however that is cut into reads. |
| AdbSessions.NothingIsLeftOver | src/rpcproxy/handlers/adb_handler.py:207-209 | An answered command leaves the buffer empty if no command was cancelled on its shell. |
| AdbSessions.FailureForgetsTheShell | src/rpcproxy/handlers/adb_handler.py:98-115 | After a timeout, the end of the stream or an oversize output the next command runs on a new shell with an empty buffer. |
| ShellQuote.QuotedIsRead | src/rpcproxy/handlers/adb_handler.py:54-55 | A lexer after sections 2.2.1 and 2.2.2 of the POSIX Shell Command Language reads a quoted text back as exactly that text. |
| ShellQuote.SpacesRoundTrip | src/rpcproxy/handlers/adb_handler.py:58-67 | Reading `%s` as a space undoes the escaping if and only if the text contains no `%s`. |
| ShellQuote.EscapeIsNotInjective | src/rpcproxy/handlers/adb_handler.py:67 | A text and the same text with every `%s` replaced by a space are escaped alike. |
| ShellQuote.InputTextIsRead | src/rpcproxy/handlers/adb_handler.py:364-377 | The line for an accepted text is read by the shell as `input`, `text` and the escaped text, and is a single line exactly when the text does not end in a newline. |
| ShellQuote.AcceptedTexts | src/rpcproxy/handlers/adb_handler.py:58-67 | Accepted are exactly the texts of 1 to 256 printable ASCII characters other than quotes and angle brackets, where the last of several may be a newline; and what is sent has no space. |
| Pipeline.DeliveriesAreReceivable | src/rpcproxy/client/base.py:443-455 | Whatever the reader delivers is an envelope that `receive_envelope` can be called with: no extra argument has the name of a parameter. |
| Pipeline.HandlerSeesDelivery | src/rpcproxy/client/handler_client.py:43-57 | For any such envelope the handler gets back every argument that arrived, with a missing body as an empty one, if and only if no extra argument is named `arguments`; otherwise the call of the handler raises. |
| Pipeline.StepKeepsPipeline | src/rpcproxy/client/handler_client.py:145-176 | Every step keeps permits plus running tasks equal to `max_inflight`, every reply addressed to its envelope's sender, and a task whose handler cannot be called without a reply. |
| Pipeline.TasksMoveForward | src/rpcproxy/client/handler_client.py:137-176 | A task's arguments never change, a finished task stays finished, and its reply, once begun, stays the only one. |
| Pipeline.TaskStepIsExact | src/rpcproxy/client/handler_client.py:145-176 | Each event moves its own task to the phase that goes with it and no other task: a result to post leads to posting that reply with the permit kept, one to skip and a finished post or report to the end with the permit given back, and a handler that raises to its report. |
| Pipeline.ArrivalIsExact | src/rpcproxy/client/handler_client.py:115-143 | An envelope is accepted if and only if its request id is not blank, and then becomes one queued task. |
| Pipeline.PermitsAreConserved | src/rpcproxy/client/handler_client.py:137-151 | In every reachable state at most `max_inflight` tasks run, permits are neither lost nor invented, and accepted envelopes are queued, running or finished, one task each. |
| Pipeline.RepliesGoToSenders | src/rpcproxy/client/handler_client.py:104-174 | Over every run a task has an automatic reply if and only if its handler returned a result to post, at most once; the reply is that result, addressed to the inbound sender, under the handler's request id unless blank, and then the envelope's; there is none where the handler could not be called. |
| Pipeline.HandlerClient.ReceiveEnvelope | src/rpcproxy/client/handler_client.py:115-143 | Refuses a blank request id and otherwise queues one task. |
| Pipeline.HandlerClient.EnterPipeline | src/rpcproxy/client/handler_client.py:145-160 | Entering the semaphore takes one permit and calls the handler; a call that raises leaves the task in `on_handler_exception`. |
| Pipeline.HandlerClient.AfterHandler | src/rpcproxy/client/handler_client.py:162-176 | After its handler a task posts as specified, or leaves when posting is skipped. |
| Pipeline.HandlerClient.LeavePipeline | src/rpcproxy/client/handler_client.py:146-147 | Leaving the semaphore gives the permit back. |
| Sessions.SessionLivesUntilDeadline | src/rpcproxy/auth/sessions.py:42-89 | A created session is found and can be completed exactly at readings before its deadline, and is never pending again once it expired or was completed, whatever the clock does. |
| Sessions.OperationsAreExact | src/rpcproxy/auth/sessions.py:42-92 | Every operation entry by entry: both argument errors, the filed session, what a lookup returns and marks, what a completion writes, with deadline and channel kept. |
| Sessions.InMemoryLoginSessionStore.CreateSession | src/rpcproxy/auth/sessions.py:42-59 | The new store and the result, with both argument errors. |
| Sessions.InMemoryLoginSessionStore.GetPendingSession | src/rpcproxy/auth/sessions.py:61-76 | The new store and the result: an expired session is marked on the way. |
| Sessions.InMemoryLoginSessionStore.CompleteSession | src/rpcproxy/auth/sessions.py:78-89 | The new store and the result, with the error for a session that is not pending. |
| Sessions.CallersAreIndependent | src/rpcproxy/auth/sessions.py:42-92 | No operation for one caller touches another caller's session, and after a removal there is none to find or complete. |
| Authorization.ConfirmAuthorization | src/rpcproxy/auth/local_authorization.py:110-123 | Look-up, push and completion in sequence: which store results, whether a key was pushed, and exactly when it returns normally. |
| Authorization.StatusOnlyMovesForward | src/rpcproxy/auth/sessions.py:61-92 | Any step keeps a session's deadline; its status moves only from pending, to expired at a reading past the deadline, or to completed by a confirm that has pushed, at a reading before it. |
| Authorization.ConfirmStepsAct | src/rpcproxy/auth/local_authorization.py:110-123 | A confirm begins exactly if the lookup finds its session; a push that returns counts once, one that raises ends the confirm without counting; the completion ends it; and each step does to the store what its operation does. |
| Authorization.OrderlyStep | src/rpcproxy/auth/local_authorization.py:116-123 | While, during a confirm, its caller is not created again and no second confirm finds its session pending, every step keeps the books on pushes; lookups and removals are free. |
| Authorization.OrderlyIsExact | src/rpcproxy/auth/local_authorization.py:116-123 | That condition is exact: an event meets it if and only if the pushes stay right whatever the confirms under way do next. |
| Authorization.EachSessionIsPushedOnce | src/rpcproxy/auth/local_authorization.py:116-123 | Over every such run, with any clock, each created session has at most one successful push and a completed session exactly one. |
| Authorization.OverlappingConfirmsPushTwice | src/rpcproxy/auth/local_authorization.py:116-123 | From any state with a session that can be confirmed, two overlapping confirms push two keys for it. |
| Authorization.RecreationCompletesWithoutPush | src/rpcproxy/auth/local_authorization.py:116-123 | A session created again while the push for the old one is under way ends completed with no push of its own. |
| ApiKeys.SplitJoins | src/rpcproxy/auth/api_key.py:107 | Splitting at the separator loses nothing, and no piece but the last contains it. |
| ApiKeys.ParseInvertsFormat | src/rpcproxy/auth/api_key.py:88-116 | A text parses to given parts if and only if the parts are valid segments and the text is their print. |
| ApiKeys.ParseFaults | src/rpcproxy/auth/api_key.py:104-116 | Which error a text that is no key raises: fewer than four separators, another beginning than `rpcp_ck_`, or the first segment that is empty or has another character. |
| ApiKeys.GeneratedKeyParses | src/rpcproxy/auth/api_key.py:88-101 | Generation succeeds exactly for valid segments, with tokens in place of a missing key id or secret, and the key parses to them; otherwise the error is that of the first segment that is not valid. |
| ApiKeys.ParsedKeyIsRegenerated | src/rpcproxy/auth/api_key.py:104-116 | Every text that parses is generated again from its parts. |
| ApiKeys.MaskHidesOnlyTheSecret | src/rpcproxy/auth/api_key.py:119-126 | Valid keys have equal masks if and only if they differ at most in the secret; a mask parses, is its own mask, and is never the mask of an invalid key. |
| ApiKeys.InvalidKeysLookAlike | src/rpcproxy/auth/api_key.py:119-125 | A text is masked as invalid if and only if it is not the print of valid segments. |
| ApiKeys.KeysLookLikeThis | src/rpcproxy/auth/api_key.py:18-101 | The prefix and separators of a key, and the ASCII codes allowed in a segment. |

## Left out

- WebSocket connect, receive and send, subprocess and HTTP handling, file writes, logging, and the hook for unmatched messages: input and output only.
- JSON, gzip and SHA-256 internals: parameters of the model. JSON values outside the data model (lone surrogates, duplicate keys, non-string keys) are not represented, and `str` of a loaded value never raises.
- Base64.RoundTrip: `Decode` accepts only whole groups with exact padding, as RFC 4648 does; versions of CPython differ on surplus padding, which the model rejects.
- Elapsed time: a timeout is a step that may happen at any moment while its task is running.
- A call or wait whose future was completed just before its task is cancelled may lose the result in some Python versions; `Calls.CallResult` is what the future holds.
- Constructor arguments the source rejects with `ValueError` (`max_pending` and `max_inflight` below 1, and the chunk settings of the handler client) are preconditions, as a Dafny constructor returns nothing.
- A `receive_envelope` override that swallows its own cancellation, and calls begun while `close()` awaits the socket are not modelled.
- Authorization.StatusOnlyMovesForward: each operation of the session store is one step. The HTTP server is threaded and the store has no lock, so an operation can run between the read and the write of another (src/rpcproxy/auth/sessions.py:67-74 and :79-88) and overwrite what it wrote, as `Sessions.OverlappingOperationsOverwrite` shows for expiry and completion; the theorem does not cover such runs.
- The class `RpcClient` has no method for the sending of a reply, the calls into user code, or what other coroutines do while `close()` awaits its cancelled reader; those steps and their interleavings are in `ClientRuns` only.
- AdbSessions.OutputsArePaired: cancellation while the shell is being stopped or started is not modelled, nor is a command that itself reads the device loop's input; the decoding of output bytes to text is left out.
- The order in which the semaphore wakes queued tasks: any queued task may enter when there is a permit.
- Sections of the shell language beyond quoting (expansions, reserved words, redirection): the lexer gives no answer there.
- Issuing a key inside a confirm is part of its push; the key record store, `ApiKeyVerifier` and the other key stores are single table operations on top of the parsed key.
- `_safe_filename`, `_parse_int`, the screenshot command, the Playwright session and the command line: they validate one argument or pass it on, and keep no state the modelled protocols depend on.
- `set_state` is a call like any other.
