# Collaborative editor: a verified model

A Dafny model of the parts of the collaborative editor that must not lose, mix up or leak
anybody's work: the relay's durable log and its write-back to the provider, the protocol between
relay and sidecar, the split of every document into a sync document and an editor document, the
line diff and blame, the suggestion splice, the position map, and comment persistence. The theorems
are about every input or every run; where a property holds only up to a bound, the bound is proved
exact.

A Y.Doc is a set of operations and applying an update is set union. That is the assumption
`internal/relay/state_store.go:20-25` builds on. Code that changes state is a class or a method
with loops, proved equal to a function on values; runs are sequences of events over those
functions, with whatever history the statement needs.

`dafny verify dfyconfig.toml` checks everything. Every induction is written out: lemmas that Dafny would
otherwise attack by automatic induction switch it off.

## Main results

1. **Cold start** (`StateStore`, `ColdStart`, `BootstrapReads`). Over every interleaving of appends and two-phase
   snapshot writes, the recorded offset never passes the trim point, so a bootstrap replays the
   whole log. Everything ever appended can be recovered at the end if and only if the last snapshot
   write had all that was appended before it (`NothingLostIff`), and at every moment if and only if
   every write had (`NeverLostIff`); a fresh room then holds exactly that (`ColdStartRebuildsIff`).
   A bootstrap reads the snapshot and then the tail; for anything that happens in between, snapshot
   writes included, `InterleavedIff` says exactly when nothing is missed, and `FiveReadsIff` does so
   for all five Redis reads it consists of, each at its own moment. Covering the log alone does not
   suffice (`CoveringTheLogIsNotEnough`).
2. **Longest common subsequence, line diff, blame** (`Lcs`, `LineDiff`, `Blame`). The greedy
   backtrack yields a longest matching, and of those the one that lies furthest on in the second
   text (`PairsAreLatest`); the diff is a correct script between the lines of the two texts and no
   correct script is shorter; one step of blame keeps as many lines as any matching could
   (`StepKeepsMost`), blame segments tile the text, neighbours differ, and each character is
   credited to the creator of the version its line is traced back to, verbatim and from version to
   version (`OriginIsChained`).
3. **Flush** (`FlushBuffer`, `FlushRuns`). Over every run whatever waits or is in flight is an
   arrival with its own bytes, client and number, the arrivals being told from the events alone
   (`BufferHoldsArrivals`), in order and with the right size. The retry loop ends at the first
   attempt that may end it and returns its answer (`RetryEndsAtFirst`). Throughout a run every update is exactly once stored, in flight or buffered, if and only if
   each flush is accountable (`RunsConserveIff`). A provider outage is not: the batch is dropped
   (`OutageLosesBatch`).
4. **Flush lease** (`FlushLock`). No two pods ever store the same document at once if and only if
   the flush deadline is no longer than the lease (`ExclusiveIffDeadlineWithinLease`). A finished
   flush hands the document to the next pod at once, if and only if its release gets through
   (`FinishedFlushHandsOver`).
5. **Sync and editor document** (`EditorSession`, `SessionGate`, `Panels`). Over every run of edits, peer
   updates, suggestions, previews and mode changes, what was made behind the closed gate is never on
   the wire and the editor shows everything that is (`DraftsAreConfined`). Every event that ends a
   draft or a preview leaves editor and sync document equal, up to a preview that the same event
   starts (`LeavingSynchronizes`), and no other event takes anything out of the editor
   (`OnlyLeavingDiscards`). That the open gate always means
   equal documents is false: a draft that is typed and undone has no pending change, so Suggest Mode
   is left without a reset, and later edits wait for the draft and do not reach the wire
   (`UndoneDraftHoldsBackEdits`). It holds throughout a run if and only if that never happens
   (`OpenGateIsSyncedIff`). Gate, mode and preview flags stay in step if and only if the thread
   under review is never deleted, be it by a peer or by the user who reviews it (`GateIsExactIff`).
6. **Suggestions** (`Splice`, `Suggesting`). Over every run the comment engine is handed one
   suggestion per submitted draft, in order, and each leads from the baseline its author had to the
   text they submitted (`SentAreTheDrafts`). Build, then accept gives the edited text, by the edits the text
   binding would make (`AcceptBuilt`); no splice with that effect replaces a shorter range.
7. **Wire protocol** (`Varuint`, `SyncMessages`, `Frames`). Reassembly does not depend on chunking;
   both sides read back exactly the frames sent. Each of the three varuint readers is right on a
   number if and only if it fits that reader's integers, and an update survives framing in all
   three languages if and only if it is shorter than 2^32 bytes (`UpdateExtractedByAll`). The
   relay's parser panics if and only if a payload would end beyond 2^63 (`GoSubMessageExact`). On
   every body with plain numbers, whoever wrote it, all three parsers agree (`ParsersAgree`); on
   truncated frames they do not (`TruncatedUpdateIsStored`).
8. **Sidecar calls** (`SidecarClient`). Every interleaving is correlated for up to 2^32 calls, and
   the bound is exact (`CorrelationBoundIsExact`). A lost connection wakes exactly the calls that are
   registered (`ConnectionLossWakesIff`); one that has only its number is never woken.
9. **Position map and overrides** (`PositionMap`, `Overrides`). The map is increasing, shows the
   same characters on both sides, and places every node at its first occurrence behind the nodes in
   front of it; no other map does (`BuildIsTheLawfulMap`). A selection projected to the source and
   snapped back is its hull.
   Formatting overrides are sound and complete for all patterns, empty delimiters included.
10. **Comments** (`CommentSync`, `CommentRuns`, `CommentServer`). Throughout a run
    a thread that differs from its snapshot is dirty or abandoned, if and only if no persist round
    forgets one: deletes it on the server with no failed write left to remind it
    (`RunsKeepBooksIff`). A round does not, whatever the network answers, if and only if no stored
    thread is about to be deleted (`RoundKeepsBooksIff`). The server then holds the thread
    if and only if the requests can carry the change and no reply is sent twice (`RetryAgreesIff`). A
    decision stands throughout a run if and only if every event respects it (`DecisionsSurviveIff`),
    and arrives on the server exactly if it is new there (`DecisionReachesServerIff`). A round records a
    thread as persisted exactly if every request was answered with a 2xx, or with 409 for a creation
    (`RoundRecordsIff`).
11. **Restart limiter** (`RestartLimiter`). The trimmed history decides as the full one would, and
    no one-minute window holds more than the allowed number of restarts.

## Where code and documentation disagree

The model follows the code.

- `internal/relay/room.go:410-414` says only the pod that won the flush lock writes a snapshot. The
  write is also reached when the lock was not won, and after its release. This is why a snapshot
  write is an event any pod may do, of a state that may lack anything.
- `internal/relay/state_store.go:24-32` says push and publish are one transaction. In
  `internal/relay/redis_state_store.go:88-95` the publish comes after it.
- `internal/relay/redis_state_store.go:175-179` says an append between capturing the counter and
  the trim is safe. The trim removes every entry, so it is safe only if the snapshot has it.
- `internal/relay/yjsengine/protocol.go:73-75` says a partial read inside a frame is an invalid frame.
  Inside the header it is an unexpected end of the stream.
- The lease is 10 seconds whatever the configured value is (`internal/relay/flush.go:48`).
- `cmd/yjs-engine/index.js:251-252` expects its loop to carry numbers up to 2^35. The shifts are
  32-bit: a number is written modulo 2^32, and a reader's sixth byte lands three bits up.
- `frontend/src/multi-editor.ts:1560-1565` has Comments mode left whenever its last panel is closed. When
  the open thread is deleted, the observer (`frontend/src/multi-editor.ts:1246`) closes the panel and
  leaves the mode on (`CommentsModeIsShownIff`).
- `packages/provider-sdk-py/collab_editor_provider/engine.py:31-53` promises nothing for anything but a
  sync update; a truncated one is taken for an empty update (`TruncatedUpdateIsStored`).
- The two blame implementations differ when a creator is the empty string: TypeScript keeps it
  (`packages/provider-sdk-ts/src/blame.ts:36`), Python replaces it
  (`packages/provider-sdk-py/collab_editor_provider/blame.py:38`).

## Model

| member | source | states |
|---|---|---|
| Lcs.TraceLength | frontend/src/collab/diff-engine.ts:108-121 | the backtrack from any cell collects as many pairs as the table entry says |
| Lcs.TraceIsMatching | frontend/src/collab/diff-engine.ts:108-121 | what it collects is a matching: pairs of equal elements, strictly increasing on both sides |
| Lcs.MatchingBound | frontend/src/collab/diff-engine.ts:97-106 | no matching of two prefixes has more pairs than their table entry |
| Lcs.PairsAreLongestMatching | frontend/src/collab/diff-engine.ts:93-124 | greedy matches and one-sided tie breaking still give a longest matching |
| Lcs.TraceIsLatest | frontend/src/collab/diff-engine.ts:108-121 | of all longest matchings within a cell the backtrack takes the one that lies furthest on in the second text, at every pair at once |
| Lcs.PairsAreLatest | frontend/src/collab/diff-engine.ts:93-124 | which longest matching it is: none has any of its pairs later in the second text |
| Lcs.PickedIsLongestCommonSubsequence | packages/provider-sdk-py/collab_editor_provider/blame.py:75-99 | the picked elements are a common subsequence and no common subsequence is longer |
| Lcs.FillRow | frontend/src/collab/diff-engine.ts:98-105 | the inner loop fills one row of the table and touches no other row |
| Lcs.FillTable | packages/provider-sdk-ts/src/blame.ts:84-97 | after both loops every entry is the optimum for its two prefixes |
| Lcs.ComputeLCS | frontend/src/collab/diff-engine.ts:93-124 | the pairs returned are a matching, and no matching of the two inputs is longer |
| Lines.JoinSplit | packages/provider-sdk-ts/src/blame.ts:50-53 | joining the lines gives the text back and no line contains a newline |
| Lines.SplitJoin | frontend/src/collab/diff-engine.ts:87-90 | newline-free lines survive joining and splitting: the cut is unique |
| LineDiff.DiffLines | frontend/src/collab/diff-engine.ts:87-90 | newline-free lines that join to the text; the empty text, and no other, has none |
| LineDiff.DiffLinesUnique | frontend/src/collab/diff-engine.ts:87-90 | any newline-free lines that join to the text, with none for the empty one, are these |
| LineDiff.ReadCounts | frontend/src/collab/diff-engine.ts:28-84 | in any diff, changed lines plus twice the kept lines are the lines of both texts |
| LineDiff.ScriptKeepsMatching | frontend/src/collab/diff-engine.ts:28-84 | the lines any correct script keeps form a matching of the two texts |
| LineDiff.KeepingPairsIsShortest | frontend/src/collab/diff-engine.ts:22-85 | a correct script that keeps the computed pairs has the fewest added and removed lines of all correct scripts |
| LineDiff.ScriptRestoresTexts | frontend/src/collab/diff-engine.ts:22-85 | removed and kept lines rejoin to the old text, added and kept lines to the new text |
| LineDiff.EntriesAreLines | frontend/src/collab/diff-engine.ts:28-84 | every entry of a script is a line of one of the two texts |
| LineDiff.EmitRemoved | frontend/src/collab/diff-engine.ts:33-41 | a block of removals extends the old side up to the match and leaves the new side alone |
| LineDiff.EmitAdded | frontend/src/collab/diff-engine.ts:43-51 | a block of additions extends the new side up to the match and leaves the old side alone |
| LineDiff.EmitBlock | frontend/src/collab/diff-engine.ts:32-62 | one round of the loop brings both sides behind the match and keeps exactly that pair |
| LineDiff.EmitScript | frontend/src/collab/diff-engine.ts:28-84 | for every matching: a correct numbered script that keeps exactly it, removals before additions |
| LineDiff.ComputeLineDiff | frontend/src/collab/diff-engine.ts:22-85 | a correct script with the right line numbers on both sides, and a shortest one: each entry is one line without its newline, and the two sides rejoin to the two texts |
| Blame.MatchOf | packages/provider-sdk-ts/src/blame.ts:65-77 | the old line a new line inherits from exists and has the same content; which lines inherit is stated by the next five rows |
| Blame.MatchOfIff | packages/provider-sdk-ts/src/blame.ts:65-77 | a line inherits exactly if a pair of the longest matching ends in it, and then from the line that pair starts in |
| Blame.StepKeepsOrder | packages/provider-sdk-ts/src/blame.ts:65-77 | inherited lines keep their order |
| Blame.StepKeepsMost | packages/provider-sdk-ts/src/blame.ts:59-80 | no matching of the two texts keeps more lines than inherit |
| Blame.LinesOfMeans | packages/provider-sdk-ts/src/blame.ts:50-53 | a version has its content cut at every newline, and a missing content is empty |
| Blame.SdksAgreeIff | packages/provider-sdk-py/collab_editor_provider/blame.py:38 | the two SDKs name the same creator exactly unless that is the empty string |
| Blame.Origin | packages/provider-sdk-ts/src/blame.ts:32-42 | following matches back ends at a line of an earlier or the same version |
| Blame.OriginIsVerbatim | packages/provider-sdk-ts/src/blame.ts:32-42 | the line stands verbatim in the version it is traced to, and matches nothing older there |
| Blame.OriginIsChained | packages/provider-sdk-ts/src/blame.ts:32-42 | from its origin to where it stands a line is matched from version to version |
| Blame.ApplyDiffAttribution | packages/provider-sdk-ts/src/blame.ts:59-80 | a line that a pair of the longest matching ends in keeps the author of the line the pair starts in, every other one goes to the creator of the new version |
| Blame.OffsetsEndAtTextLength | packages/provider-sdk-ts/src/blame.ts:121-137 | line lengths with their newlines add up to the length of the text |
| Blame.LineStandsAtOffset | packages/provider-sdk-ts/src/blame.ts:121-137 | each line stands in the text at its offset, followed by its newline unless it is the last |
| Blame.ExtendTiles | packages/provider-sdk-ts/src/blame.ts:123-137 | extending the last segment or starting a new one keeps a gap-free tiling with differing neighbours |
| Blame.ExtendAttributes | packages/provider-sdk-ts/src/blame.ts:123-137 | the step credits the new line to its author and no character of earlier lines changes hands |
| Blame.LinesToSegments | packages/provider-sdk-ts/src/blame.ts:119-140 | segments tile the joined text, neighbours differ, and each character belongs to its line's author |
| Blame.TracedStep | packages/provider-sdk-ts/src/blame.ts:33-42 | one version further, every line's author is the creator of its origin |
| Blame.AttributesCreditOrigins | packages/provider-sdk-ts/src/blame.ts:22-47 | crediting lines to the creators of their origins credits every character so |
| Blame.LineAuthors | packages/provider-sdk-py/collab_editor_provider/blame.py:12-48 | after the walk over the chain every line's author is the creator of its origin |
| Blame.ComputeBlame | packages/provider-sdk-ts/src/blame.ts:22-47 | for every chain the segments tile the last text, neighbours differ, and each character's author is the creator of the version its line is traced to; no versions, no segments |
| Splice.PrefixLen | frontend/src/collab/suggest-engine.ts:167-170 | the common prefix is common and cannot be longer |
| Splice.SuffixLen | frontend/src/collab/suggest-engine.ts:171-178 | the common suffix is common, respects the bound the prefix leaves, and cannot be longer |
| Splice.AnchorEnclosesChange | frontend/src/collab/suggest-engine.ts:103-126 | the replacement put into the anchored range of the base gives the edited text |
| Splice.SpliceKeepsPrefix | frontend/src/collab/suggest-engine.ts:166-186 | whatever splice made the edited text, everything before it is found as common prefix |
| Splice.SpliceKeepsSuffix | frontend/src/collab/suggest-engine.ts:166-186 | and what follows it is found as common suffix, up to the bound |
| Splice.AnchorIsTightest | frontend/src/collab/suggest-engine.ts:166-186 | no splice from base to edited text replaces a shorter range than the anchor |
| Splice.CountPrefix | frontend/src/collab/suggest-engine.ts:167-170 | the counting loop finds the longest common prefix |
| Splice.CountSuffix | frontend/src/collab/suggest-engine.ts:171-178 | the counting loop finds the longest common suffix within the bound |
| Splice.ComputeAnchor | frontend/src/collab/suggest-engine.ts:166-186 | the loops compute the tightest anchor, with the quoted text of the base |
| Splice.ReplayRestoresEdit | frontend/src/collab/suggest-engine.ts:188-206 | replaying the operation summary on the base gives the edited text, and the summary is empty exactly when nothing changed |
| Splice.SummaryNamesTheKind | frontend/src/collab/suggest-engine.ts:188-206 | an insertion is reported exactly if some insertion alone makes the edited text, a deletion exactly if some deletion alone does, a replacement otherwise |
| Splice.YText.Apply | frontend/src/multi-editor.ts:2261-2279 | one primitive edit changes the text as specified and is recorded |
| Splice.ReplaceRegion | frontend/src/collab/text-binding.ts:337-342 | delete then insert splices the region, with at most one edit of each kind and none that is empty |
| Splice.TryApplyTextSuggestion | frontend/src/multi-editor.ts:2261-2279 | accepted if and only if the anchor resolves inside the text; then the text is spliced, and nothing is edited when it already reads so |
| Splice.ChangedRegion | frontend/src/collab/text-binding.ts:318-335 | the binding's counts are the suggestion anchor's region, and replacing it gives the new text |
| Splice.ApplyStringDiff | frontend/src/collab/text-binding.ts:317-343 | the text becomes the new string by edits to the tightest region only |
| Splice.BuildThenAccept | frontend/src/collab/suggest-engine.ts:103-126 | a built suggestion, spliced into the unchanged text at its anchor, gives the edited text; its before text is the anchored range and differs from its after text, its one operation replays to the same, and an empty note is no note |
| Splice.AcceptBuilt | frontend/src/multi-editor.ts:2261-2279 | accepting a built suggestion on the unchanged text makes exactly the edits with which the text binding writes the edited text |
| Varuint.EndOf | cmd/yjs-engine/index.js:225-236 | a number ends inside the buffer, behind its start |
| Varuint.ReadFrom | internal/relay/yjsengine/syncmsg.go:45-63 | the Python reader never fails, and no reader goes backwards |
| Varuint.StepIsExact | cmd/yjs-engine/index.js:228-233 | adding a group of seven bits is exact while the total fits the reader's integers |
| Varuint.StepIsBounded | cmd/yjs-engine/index.js:228-233 | and never leaves those integers |
| Varuint.SixthByte | cmd/yjs-engine/index.js:228-234 | a sixth byte, shifted by 35 modulo 32 places, is right when it carries nothing, the only case in which the number fits |
| Varuint.ReadFromShape | internal/relay/yjsengine/syncmsg.go:45-63 | a reader consumes exactly the number's bytes or reports overflow, by the number's length alone |
| Varuint.ReadFromValue | internal/relay/yjsengine/syncmsg.go:45-63 | a number that fits is read as itself, from any point of the loop |
| Varuint.ReadFromUnterminated | packages/provider-sdk-py/collab_editor_provider/engine.py:17-28 | without a final byte JavaScript and Go fail; Python returns with the position at the end |
| Varuint.PyReadMeans | packages/provider-sdk-py/collab_editor_provider/engine.py:17-28 | on every buffer Python returns all groups there are, up to a final byte or the end, and stops behind them |
| Varuint.ReadVarUintExact | cmd/yjs-engine/index.js:225-236 | on every buffer and in each of the three languages: success by length, bytes consumed, and the value is right if and only if it fits |
| Varuint.WriteIsShort | cmd/yjs-engine/index.js:250-260 | one to five bytes are written, whatever the number |
| Varuint.WriteMeans | cmd/yjs-engine/index.js:250-260 | the bytes written mean the number modulo 2^32 |
| Varuint.ReadBackWritten | cmd/yjs-engine/index.js:225-260 | every reader gets the number modulo 2^32 back, so a number survives if and only if it is below 2^32 |
| SyncMessages.Decoder.ReadUint | cmd/yjs-engine/index.js:225-236 | the loop over the mutable position reads one number or fails |
| SyncMessages.Decoder.ReadBytes | cmd/yjs-engine/index.js:238-244 | a length-prefixed slice, or an error when the buffer is shorter |
| SyncMessages.Encoder.WriteUint | cmd/yjs-engine/index.js:250-260 | the loop appends exactly the encoding of the number |
| SyncMessages.Encoder.WriteBytes | cmd/yjs-engine/index.js:262-266 | appends the length and then the bytes |
| SyncMessages.GoReadVarUint | internal/relay/yjsengine/syncmsg.go:45-63 | the Go loop is the 64-bit reader |
| SyncMessages.PyReadVarUint | packages/provider-sdk-py/collab_editor_provider/engine.py:17-28 | the Python loop is the unbounded reader |
| SyncMessages.ReadsBetween | internal/relay/yjsengine/syncmsg.go:22-43 | a written number is found between any other bytes, in any dialect |
| SyncMessages.BytesReadBack | cmd/yjs-engine/index.js:238-266 | what is written as a byte array is read back, and reading goes on right behind it |
| SyncMessages.JsDecodesBody | cmd/yjs-engine/index.js:142-172 | the sidecar splits a message into its kind and its payload |
| SyncMessages.GoParsesBody | internal/relay/yjsengine/syncmsg.go:22-43 | the relay splits it the same way |
| SyncMessages.PyExtractsFrame | packages/provider-sdk-py/collab_editor_provider/engine.py:31-53 | the Python SDK extracts the same payload from the enveloped message |
| SyncMessages.UpdateExtractedByAll | packages/provider-sdk-py/collab_editor_provider/engine.py:31-53 | all three get the update byte for byte, if and only if it is shorter than 2^32 bytes |
| SyncMessages.WrappedEnd | internal/relay/yjsengine/syncmsg.go:37-40 | the end of a payload in wrapping arithmetic is right below 2^63 and otherwise lies before its start |
| SyncMessages.GoSubMessageExact | internal/relay/yjsengine/syncmsg.go:22-41 | on every body: a message if and only if the type is known and the payload is there, a panic if and only if its end is at 2^63 or beyond, an error otherwise |
| SyncMessages.HugeLengthPanics | internal/relay/yjsengine/syncmsg.go:37-40 | an update of eleven bytes that announces 2^63 makes the relay panic; the sidecar refuses it |
| SyncMessages.PyExtractExact | packages/provider-sdk-py/collab_editor_provider/engine.py:31-53 | on every frame: an update is extracted if and only if the envelope says sync, the type says update and all announced bytes are there, and it is those bytes |
| SyncMessages.JsGoAgree | internal/relay/yjsengine/syncmsg.go:22-43 | on every body with plain numbers, whoever wrote it, sidecar and relay read the same message or refuse alike |
| SyncMessages.ParsersAgree | packages/provider-sdk-py/collab_editor_provider/engine.py:31-53 | and the Python SDK stores an update exactly if that message is an update |
| SyncMessages.TruncatedUpdateIsStored | packages/provider-sdk-py/collab_editor_provider/engine.py:31-53 | a frame that ends behind its type is an empty update for Python and refused by the others |
| Frames.Uint32RoundTrip | internal/relay/yjsengine/protocol.go:55-71 | a 32-bit number survives its big-endian form |
| Frames.Uint32Injective | internal/relay/yjsengine/protocol.go:76-101 | four bytes survive being read as a number |
| Frames.CopyTo | internal/relay/yjsengine/protocol.go:55-71 | a bulk copy replaces its range and nothing else |
| Frames.BuildFrame | internal/relay/yjsengine/protocol.go:55-71 | writing the fields at fixed offsets builds exactly the encoding of the frame, with the length cut to 32 bits |
| Frames.NodeBuildFrame | cmd/yjs-engine/index.js:102-114 | the same encoding, and an error exactly when the length or the sequence number does not fit 32 bits |
| Frames.Connection.Data | cmd/yjs-engine/index.js:299-313 | one data event handles as many whole frames as there are and keeps the rest |
| Frames.DrainThenMore | cmd/yjs-engine/index.js:299-313 | stopping for more bytes and going on is the same as having had them at once |
| Frames.OnDataTwice | cmd/yjs-engine/index.js:299-313 | two chunks are the same as one |
| Frames.ChunkingIsInvisible | cmd/yjs-engine/index.js:299-313 | for every byte stream, valid or not, and every cutting, the frames handled depend only on the bytes |
| Frames.DrainSettles | cmd/yjs-engine/index.js:299-313 | no whole frame is left waiting in the buffer |
| Frames.EncodedLayout | internal/relay/yjsengine/protocol.go:55-71 | every field is found at its offset, whatever follows the frame |
| Frames.EncodeRepresents | cmd/yjs-engine/index.js:276-297 | the sidecar reads an encoded frame as that frame |
| Frames.SidecarHandlesSentFrames | cmd/yjs-engine/index.js:299-313 | however chunked, well-formed frames are handled exactly and in order, and the buffer ends empty |
| Frames.ReadLoop | internal/relay/yjsengine/sidecar_client.go:107-123 | the relay's loop reads frames until the stream ends or breaks |
| Frames.ReadsFirst | internal/relay/yjsengine/protocol.go:76-101 | reading an encoded frame gives the frame and leaves what follows |
| Frames.ReadFrameInverts | internal/relay/yjsengine/protocol.go:76-101 | the relay accepts exactly the encodings of well-formed frames, and reads them as those |
| Frames.RelayReadsSentFrames | internal/relay/yjsengine/protocol.go:76-101 | a stream of encoded frames is read as those frames and then ends cleanly |
| Frames.RelayReadsTruncatedStream | internal/relay/yjsengine/protocol.go:73-101 | a stream that breaks off anywhere: every frame sent in full is read, and the end is clean between frames, unexpected inside a header, an invalid frame inside a payload |
| Frames.BadFrameCrashesIff | cmd/yjs-engine/index.js:276-313 | a whole frame takes the sidecar down exactly if its version is foreign or it is too short for an op; all frames before it were handled, none behind it is |
| Frames.Respond | cmd/yjs-engine/index.js:276-297 | every answer fits a frame: one that would not becomes an error reply |
| Frames.RoundTripEchoesSequence | cmd/yjs-engine/index.js:276-297 | one answer per request, in order, with its sequence number and op; it carries the result exactly if the handler succeeded and the result fits a frame, and the error message otherwise |
| SidecarClient.Engine.Admit | internal/relay/yjsengine/sidecar_client.go:164-173 | a closed client refuses the call |
| SidecarClient.Engine.TakeNumber | internal/relay/yjsengine/sidecar_client.go:175-176 | an admitted call takes the next number modulo 2^32; it is not registered yet |
| SidecarClient.Engine.Enroll | internal/relay/yjsengine/sidecar_client.go:177-179 | registers the call under its number |
| SidecarClient.Engine.WriteRequest | internal/relay/yjsengine/sidecar_client.go:181-190 | a failed write finishes the call and unregisters it |
| SidecarClient.Engine.EndCall | internal/relay/yjsengine/sidecar_client.go:181-201 | a cancelled or answered call is finished and unregistered |
| SidecarClient.Engine.DeliverResponse | internal/relay/yjsengine/sidecar_client.go:128-143 | an answer goes to the call registered under its number, and unregisters it |
| SidecarClient.Engine.FailAllPending | internal/relay/yjsengine/sidecar_client.go:147-158 | the map is swapped out and every channel in it notified |
| SidecarClient.Engine.Shutdown | internal/relay/yjsengine/sidecar_client.go:85-103 | closes the engine and fails everything pending |
| SidecarClient.SeqOfInjective | internal/relay/yjsengine/sidecar_client.go:175-179 | among 2^32 calls no two share a number |
| SidecarClient.InvNumber | internal/relay/yjsengine/sidecar_client.go:175-176 | taking a number keeps every registered call waiting under its own number |
| SidecarClient.InvRegister | internal/relay/yjsengine/sidecar_client.go:177-179 | so does registering |
| SidecarClient.InvFinish | internal/relay/yjsengine/sidecar_client.go:181-201 | so does finishing one |
| SidecarClient.InvDeliver | internal/relay/yjsengine/sidecar_client.go:128-143 | so does delivering any answer in flight, late ones included |
| SidecarClient.InvFailAll | internal/relay/yjsengine/sidecar_client.go:147-158 | so does losing the connection |
| SidecarClient.RunInv | internal/relay/yjsengine/sidecar_client.go:85-201 | the invariant holds over every interleaving of up to 2^32 calls |
| SidecarClient.CallsAreCorrelated | internal/relay/yjsengine/sidecar_client.go:107-201 | a call gets the answer to its own request or an error, no finished call stays registered, and no waiting call is forgotten |
| SidecarClient.OutcomeIsFinal | internal/relay/yjsengine/sidecar_client.go:164-201 | a call has at most one outcome |
| SidecarClient.ReturnsIff | internal/relay/yjsengine/sidecar_client.go:181-201 | a waiting call returns exactly by its own cancellation, its own failed write, or with what is on its channel, and is then not registered |
| SidecarClient.ConnectionLossWakesIff | internal/relay/yjsengine/sidecar_client.go:147-158 | a lost connection gives something to return to exactly those unfinished calls that are registered |
| SidecarClient.ShutdownWakesIff | internal/relay/yjsengine/sidecar_client.go:85-103 | so does shutting down |
| SidecarClient.ShutdownIsFinal | internal/relay/yjsengine/sidecar_client.go:85-103 | after a shutdown the client stays closed, nothing is sent or answered, and only calls let in before still take numbers |
| SidecarClient.UnheardAfterLoss | internal/relay/yjsengine/sidecar_client.go:107-123 | any other call, also a later one, hears nothing until shutdown: it ends by a failed write or its own cancellation |
| SidecarClient.LossBeforeRegistration | internal/relay/yjsengine/sidecar_client.go:175-179 | a run in which a call registers and waits after the read loop has ended |
| SidecarClient.BurnKeepsIdle | internal/relay/yjsengine/sidecar_client.go:164-201 | any number of answered calls only uses numbers up |
| SidecarClient.LateAnswerToWrongCall | internal/relay/yjsengine/sidecar_client.go:128-143 | once a number is reused, a late answer to its first user wakes the second |
| SidecarClient.WrapBreaksCorrelation | internal/relay/yjsengine/sidecar_client.go:175-179 | a run with 2^32 + 1 calls in which one returns another's answer |
| SidecarClient.CorrelationBoundIsExact | internal/relay/yjsengine/sidecar_client.go:107-201 | all runs with at most n calls are correlated if and only if n is at most 2^32 |
| StateStore.RedisStore.AppendUpdate | internal/relay/redis_state_store.go:75-97 | the update is pushed and counted; an empty one is ignored |
| StateStore.RedisStore.ReadSnapshot | internal/relay/redis_state_store.go:101-122 | snapshot and offset, zero when none was recorded |
| StateStore.RedisStore.ReadLogTail | internal/relay/redis_state_store.go:129-165 | the entries behind the offset by the offset arithmetic, and the counter |
| StateStore.RedisStore.WriteSnapshot | internal/relay/redis_state_store.go:171-200 | replaces the snapshot, records the counter and trims |
| StateStore.OffsetNeverPassesTrim | internal/relay/redis_state_store.go:171-200 | over every run, with the counter read apart from the transaction, the recorded offset is at most the number of trimmed entries |
| StateStore.RunCounts | internal/relay/redis_state_store.go:75-97 | over every run the counter is the number of updates appended |
| StateStore.RunOffsets | internal/relay/redis_state_store.go:171-200 | and the recorded offset their number when the writer of the last snapshot read it |
| StateStore.ReadSnapMeans | internal/relay/redis_state_store.go:101-122 | over every run a bootstrap reads the last state written and how much had been appended when its writer counted |
| StateStore.TailIsWholeLog | internal/relay/redis_state_store.go:129-165 | so the tail behind the recorded offset is the whole remaining log |
| StateStore.UnrecordedOffsetReadsAll | internal/relay/redis_state_store.go:101-122 | a snapshot without an offset is used with the whole log |
| StateStore.LogTailRace | internal/relay/redis_state_store.go:130-155 | when appends slip between its three reads, the tail is complete if and only if the slack absorbs them, or, right behind a snapshot, there are none |
| StateStore.RunStores | internal/relay/redis_state_store.go:75-200 | over every run the snapshot is the state last written, and the log holds exactly what was appended since |
| StateStore.NothingLostIff | internal/relay/state_store.go:20-25 | everything ever appended is recoverable at the end of a run if and only if the last state written had all that was appended before the write, or it was appended again |
| StateStore.NeverLostIff | internal/relay/redis_state_store.go:171-200 | nothing is lost at any moment of a run if and only if every state written had all that was appended before the write |
| StateStore.NothingInvented | internal/relay/redis_state_store.go:75-200 | if pods hold only appended updates, so do snapshot and log |
| ColdStart.Room.BootstrapFromSnapshot | internal/relay/room.go:137-154 | a room that already has text is left alone, otherwise the snapshot is merged |
| ColdStart.Room.ApplyLogEntry | internal/relay/room.go:160-171 | merges one entry and marks the room dirty; an empty entry does nothing |
| ColdStart.Room.BootstrapContent | internal/relay/room.go:119-130 | merges the provider's content, if there is any |
| ColdStart.Room.ReplayTail | internal/relay/server.go:102-107 | the tail is merged entry by entry, and the room is dirty if an entry was not empty |
| ColdStart.Room.Bootstrap | internal/relay/server.go:87-127 | snapshot and tail when there is a snapshot, the provider's content otherwise |
| ColdStart.ReplayedMeans | internal/relay/server.go:102-107 | replaying any tail entry by entry adds exactly its entries that are not empty |
| ColdStart.BootstrapMeans | internal/relay/server.go:87-127 | what any room ends up with: the log on top of what it shows, of the snapshot too when it shows nothing, of the seed alone without a snapshot |
| ColdStart.TouchedIff | internal/relay/room.go:119-171 | a room is dirty after its bootstrap exactly if the snapshot, a log entry or the seed was put in |
| ColdStart.LiveRoomIsCompleteIff | internal/relay/room.go:137-154 | a room that shows text, and so skips the snapshot, is complete exactly if it had what was appended before the last write |
| ColdStart.ColdStartRebuildsIff | internal/relay/server.go:91-114 | with a snapshot, a fresh room holds every update ever appended, and only those, if and only if the last write had all before it |
| ColdStart.ColdStartWithoutSnapshot | internal/relay/server.go:96-126 | without a snapshot the log is ignored, and the room is complete if and only if the seed is |
| ColdStart.InterleavedMeans | internal/relay/server.go:91-107 | snapshot and tail read at different times give the old snapshot with all entries left |
| ColdStart.InterleavedIff | internal/relay/server.go:91-107 | whatever happens between the two reads, nothing is missed if and only if the snapshot read has what was appended before the last write |
| ColdStart.ColdStartSpansAppends | internal/relay/server.go:91-107 | appends between the two reads are not missed |
| BootstrapReads.LogIsEnd | internal/relay/redis_state_store.go:75-200 | over every run the log is the end of everything appended, and the counter its number |
| BootstrapReads.FiveReadsMean | internal/relay/redis_state_store.go:101-165 | five reads at five moments give the snapshot read and everything appended behind a cut |
| BootstrapReads.FiveReadsIff | internal/relay/redis_state_store.go:101-165 | whatever happens between the five reads, nothing is missed if and only if all before the cut is in the snapshot read or was appended again |
| BootstrapReads.SkipsIff | internal/relay/redis_state_store.go:137-155 | entries are skipped exactly if there are any, and the counter was not ahead of the offset or the length had outgrown the distance |
| BootstrapReads.FiveReadsAreTwo | internal/relay/server.go:91-107 | with the reads of each call at one moment, this is the bootstrap of two reads |
| ColdStart.CoveringTheLogIsNotEnough | internal/relay/room.go:415-420 | a pod that covers the log but not the old snapshot erases it |
| ColdStart.WriteBetweenReadsLoses | internal/relay/server.go:91-114 | a snapshot written between the two reads hides an update from the bootstrap |
| FlushBuffer.UpdateBuffer.Append | internal/relay/buffer.go:32-46 | next sequence number, behind everything, size grows by the data; over runs the row of FlushRuns.HistoryIsArrivals says what is in the buffer |
| FlushBuffer.UpdateBuffer.Drain | internal/relay/buffer.go:48-61 | hands everything out and leaves an empty buffer that goes on counting |
| FlushBuffer.UpdateBuffer.Prepend | internal/relay/buffer.go:63-71 | puts updates back in front and their bytes back into the size |
| FlushBuffer.Select | internal/relay/flush.go:86-97 | exactly the updates whose sequence is reported failed, in order |
| FlushBuffer.SelectedMeans | internal/relay/flush.go:86-97 | an update is selected exactly if it is in the batch and its sequence is named, and order is kept |
| FlushBuffer.StoreWithRetry | internal/relay/flush.go:103-163 | the retry loop with its narrowing batch returns the last response, if any |
| FlushBuffer.Flush | internal/relay/flush.go:45-99 | drains only with the lock, and returns what has to go back |
| FlushBuffer.FlushRoom | internal/relay/room.go:390-400 | puts it back in front of the drained buffer |
| FlushBuffer.RetryAccounts | internal/relay/flush.go:103-163 | over all attempts, stored plus not stored is what was submitted, and the batch only narrows |
| FlushBuffer.RetryEndsAtFirst | internal/relay/flush.go:103-163 | the loop ends at the first attempt that stored everything, was the last allowed or was cancelled, and returns that attempt's answer |
| FlushBuffer.LateSuccessCounts | internal/relay/flush.go:103-163 | errors do not end it: a full success within the allowed attempts is returned, and nothing goes back |
| FlushBuffer.RequeueIsUnstoredIff | internal/relay/flush.go:72-98 | what goes back is what the provider has not stored, if and only if the last response names no sequence outside its batch, or nothing was left to store |
| FlushRuns.RequeuedElements | internal/relay/flush.go:86-98 | what goes back was in flight and keeps its order |
| FlushRuns.AppendOrderly | internal/relay/buffer.go:32-46 | appending keeps order, origin and size |
| FlushRuns.PutBackOrderly | internal/relay/buffer.go:63-71 | so does putting back in front of what arrived meanwhile |
| FlushRuns.RunsAreOrderly | internal/relay/buffer.go:32-71 | over every run: strictly increasing sequences, only updates of the history, size equal to their bytes |
| FlushRuns.HistoryIsArrivals | internal/relay/buffer.go:32-46 | the history of every run is what arrived, told from the events alone: same bytes, same client, numbered from 1 on |
| FlushRuns.BufferHoldsArrivals | internal/relay/buffer.go:32-71 | so whatever waits or is in flight has the bytes and the client of the arrival with its number |
| FlushRuns.UnflushedBufferIsArrivals | internal/relay/buffer.go:32-46 | before the first flush the buffer is exactly what has arrived |
| FlushRuns.PartitionAfterFlush | internal/relay/flush.go:59-99 | updates stay accounted for exactly when what goes back is what is not stored |
| FlushRuns.FlushEndMeans | internal/relay/flush.go:59-163 | told from the provider's answers: what goes back in front of the buffer is decided by the attempt that ends the loop, and stored is what no answer named |
| FlushRuns.FlushConservesIff | internal/relay/flush.go:59-163 | a flush conserves the updates if and only if it is accountable |
| FlushRuns.RunsConserveIff | internal/relay/flush.go:59-163 | throughout a run, with appends during flushes, each update is exactly once stored, in flight or buffered, if and only if every flush is accountable |
| FlushRuns.OutageLosesBatch | internal/relay/flush.go:76-79 | a run in which no attempt is answered and the batch is neither stored nor put back |
| FlushLock.RedisKey.Acquire | internal/relay/redis_flush_lock.go:31-35 | sets the key if no live lease exists |
| FlushLock.RedisKey.Release | internal/relay/redis_flush_lock.go:37-51 | deletes the key only if it is this pod's |
| FlushLock.LeaseIsSafeFromOthers | internal/relay/redis_flush_lock.go:37-51 | a live lease outlasts every step but its owner's own release |
| FlushLock.LeaseLastsItsTime | internal/relay/redis_flush_lock.go:31-35 | a lease is refused to everybody until its time to live is over, and to nobody from then on |
| FlushLock.ReleaseHandsOver | internal/relay/redis_flush_lock.go:37-51 | after the owner's release the next acquire succeeds, without it only once the lease has expired |
| FlushLock.FinishedFlushHandsOver | internal/relay/flush.go:45-72 | in every run, when a storing pod finishes, the next pod to ask is storing if and only if the release got through |
| FlushLock.InvNext | internal/relay/flush.go:45-72 | every pod that stores holds the live lease, step by step |
| FlushLock.RunInv | internal/relay/flush.go:45-72 | and over every run |
| FlushLock.OneFlushPerPod | internal/relay/flush.go:45-72 | in every run a pod has at most one flush under way |
| FlushLock.OverlongFlushOverlaps | internal/relay/room.go:394-396 | with a deadline beyond the lease there is a run with two pods storing |
| FlushLock.ExclusiveIffDeadlineWithinLease | internal/relay/flush.go:45-72 | mutual exclusion over every run if and only if the deadline is no longer than the lease |
| RestartLimiter.FilterInPlace | internal/relay/yjsengine/supervisor.go:333-340 | filtering into the same backing array keeps exactly the recent times, in order |
| RestartLimiter.Supervisor.RecordRestart | internal/relay/yjsengine/supervisor.go:327-346 | verdict and kept times as specified, with the clock read twice |
| RestartLimiter.KeptTimesSuffice | internal/relay/yjsengine/supervisor.go:327-346 | the trimmed times agree with all accepted ones on every later window |
| RestartLimiter.VerdictIsExact | internal/relay/yjsengine/supervisor.go:327-346 | a restart is accepted if and only if fewer than the maximum were accepted within the last minute, counted in the full history |
| RestartLimiter.UnlimitedAcceptsAll | internal/relay/yjsengine/supervisor.go:327-346 | without a maximum every restart is accepted |
| RestartLimiter.WindowsAreBounded | internal/relay/yjsengine/supervisor.go:327-346 | no one-minute window ever holds more than the maximum |
| EditorSession.CollabSession.EditorUpdate | frontend/src/collab/doc-replicator.ts:59-79 | an editor update goes out if the gate is open and it did not come in; the sync document takes what does not wait for operations it lacks |
| EditorSession.CollabSession.SyncUpdate | frontend/src/collab/doc-replicator.ts:37-57 | a sync update comes in unless it went out |
| EditorSession.CollabSession.Reset | frontend/src/collab/collab-provider.ts:195-231 | a new editor document seeded from sync, with fresh open gates |
| EditorSession.CollabSession.EnableSuggest | frontend/src/collab/suggest-engine.ts:51-57 | closes the gate and remembers the text, once |
| EditorSession.CollabSession.DisableSuggest | frontend/src/collab/suggest-engine.ts:64-69 | opens the gate and forgets the text |
| EditorSession.CollabSession.CommitSuggestion | frontend/src/collab/suggest-engine.ts:133-138 | a payload is built exactly if Suggest Mode is on and the text differs from the baseline; spliced into the baseline it gives the current text, its before text is the range it replaces, and its operation replays to the same; then editor and gate are reset |
| EditorSession.CollabSession.CommitPendingSuggestion | frontend/src/multi-editor.ts:1903-1918 | a pending draft is committed and its payload handed on, anything else is left alone |
| EditorSession.CollabSession.DiscardSuggestion | frontend/src/collab/suggest-engine.ts:141-145 | resets and disables |
| EditorSession.CollabSession.BeginPreview | frontend/src/multi-editor.ts:1618-1652 | closes the gate, shows the suggestion, remembers the thread |
| EditorSession.CollabSession.FinishPreview | frontend/src/multi-editor.ts:1654-1683 | resets, and restores Suggest Mode's closed gate where that was on |
| EditorSession.ConfinedNext | frontend/src/collab/doc-replicator.ts:37-94 | every event keeps drafts off the wire and sync content in the editor |
| EditorSession.DraftsAreConfined | frontend/src/collab/doc-replicator.ts:37-94 | over every run: what the sync document did not take never reaches it later, the editor contains it, and the two differ by such operations only |
| EditorSession.LeavingSynchronizes | frontend/src/multi-editor.ts:1534-1683 | after every event that commits or discards a draft or ends a preview the editor is exactly the sync document, apart from a preview the event starts; only an accepted suggestion is added to it |
| EditorSession.OnlyLeavingDiscards | frontend/src/multi-editor.ts:1534-1683 | no other event takes an operation out of the editor |
| SessionGate.PhantomDraftIff | frontend/src/collab/suggest-engine.ts:75-79 | a user who drafted nothing is told of pending changes, and can submit them, if and only if peers have changed what the document reads |
| SessionGate.AcceptedIsNoDraft | frontend/src/collab/suggest-engine.ts:81-97 | a suggestion accepted in Suggest Mode is not taken for a draft |
| SessionGate.GateNextIff | frontend/src/multi-editor.ts:1534-1683 | an event keeps gate, mode and preview flags in step if and only if it does not delete the thread under review, by a peer or by this user |
| SessionGate.GateIsExactIff | frontend/src/multi-editor.ts:1534-1683 | throughout a run the gate is closed exactly while Suggest Mode or a preview is on, if and only if nobody deletes the thread under review |
| SessionGate.VanishedThreadLeavesPreview | frontend/src/multi-editor.ts:1942-1947 | for either deletion, a run that ends with the gate open while the editor still shows a preview: the observer has closed the panel before the guard that would end the preview |
| SessionGate.SyncedNextIff | frontend/src/multi-editor.ts:1844-1862 | an event keeps "gate open means equal documents" if and only if it does not leave Suggest Mode with an undone draft |
| SessionGate.OpenGateIsSyncedIff | frontend/src/multi-editor.ts:1844-1862 | throughout a run the editor behind an open gate is exactly the sync document, if and only if Suggest Mode is never left with an undone draft |
| SessionGate.OpenEditArrivesIff | frontend/src/collab/collab-provider.ts:205-208 | an edit made with the gate open reaches the sync document exactly if the editor holds nothing back |
| SessionGate.OpenEditsArrive | frontend/src/collab/doc-replicator.ts:59-79 | in a run without undone drafts every edit made with the gate open reaches the sync document |
| SessionGate.UndoneDraftHoldsBackEdits | frontend/src/multi-editor.ts:1844-1862 | a run in which an edit made with the gate open waits for an undone draft |
| Suggesting.CommitMeans | frontend/src/collab/suggest-engine.ts:103-138 | on every session: the payload leads from the baseline to the current text and the session is back to what is on the wire, or nothing changes and the error says why |
| Suggesting.EndPreviewMeans | frontend/src/multi-editor.ts:1654-1683 | a preview ends with the editor back to what is on the wire, suggesting from the text shown in Suggest Mode, with the gate open elsewhere |
| Suggesting.OneSent | frontend/src/multi-editor.ts:1864-1918 | an event that submits a draft hands on exactly one suggestion, which leads from the baseline to the submitted text |
| Suggesting.NothingSent | frontend/src/multi-editor.ts:1844-1918 | no other event hands on anything |
| Suggesting.SentAreTheDrafts | frontend/src/multi-editor.ts:1844-1918 | over every run: one suggestion per submitted draft, in order, each from the baseline at its submission to the text at its submission |
| Suggesting.BaselineStep | frontend/src/collab/suggest-engine.ts:51-97 | who suggests after an event and from which text: submitting and discarding go on from the text shown afterwards, accepting moves the baseline along |
| Suggesting.WireStep | frontend/src/collab/doc-replicator.ts:37-94 | what each event puts on the sync document: an accepted suggestion and a peer's update in every state, a local edit as far as the gate lets it, nothing else |
| Panels.SurfaceStep | frontend/src/multi-editor.ts:1534-1616 | the mode and the panels behind each event follow from mode, panels and event alone; a panel is open in Comments mode only |
| Panels.SurfaceFollowsEvents | frontend/src/multi-editor.ts:1534-1616 | so over every run |
| Panels.CommentsModeIsShownIff | frontend/src/multi-editor.ts:1560-1575 | throughout a run Comments mode means an open panel, if and only if the thread on the only open panel is never deleted |
| PositionMap.IndexOf | frontend/src/collab/pm-position-map.ts:42-50 | the first occurrence from the cursor on, none only if there is none |
| PositionMap.OccursIff | frontend/src/collab/pm-position-map.ts:42-50 | an occurrence at an offset means that the source reads the text with that many characters in front |
| PositionMap.BuildPositionMap | frontend/src/collab/pm-position-map.ts:32-60 | for every list of nodes in order: the one map that places each node at its first occurrence behind the nodes in front of it and leaves out those that have none |
| PositionMap.MapIsFaithful | frontend/src/collab/pm-position-map.ts:32-60 | strictly increasing, hence injective, and the same character on both sides |
| PositionMap.NodesAreWholeOrSkipped | frontend/src/collab/pm-position-map.ts:32-60 | a node is mapped as a whole where the search finds it, or not at all; where that is, the rows of PlaceIsFirst and BuildIsTheLawfulMap say |
| PositionMap.PlaceIsFirst | frontend/src/collab/pm-position-map.ts:42-50 | a node is found at the first occurrence of its text behind every source offset that is mapped in front of it, and not found exactly if there is none |
| PositionMap.BuildIsLawful | frontend/src/collab/pm-position-map.ts:32-60 | every node is placed so, or skipped because it has no such place |
| PositionMap.LawfulIsUnique | frontend/src/collab/pm-position-map.ts:32-60 | only one map places the nodes so |
| PositionMap.BuildIsTheLawfulMap | frontend/src/collab/pm-position-map.ts:32-60 | a map is the one that is built if and only if it is increasing, shows the same characters and places every node so |
| PositionMap.SortedKeys | frontend/src/collab/pm-position-map.ts:159-167 | the keys, ascending, all of them |
| PositionMap.RangeOf | frontend/src/collab/pm-position-map.ts:84-99 | the tightest source range of the mapped characters in the selection, null exactly when there are none |
| PositionMap.PmRangeToYText | frontend/src/collab/pm-position-map.ts:76-100 | the same for the map built from the nodes |
| PositionMap.SnapRange | frontend/src/collab/pm-position-map.ts:112-155 | forward at the start, backward at the end, to mapped characters inside the range |
| PositionMap.SnappedRangeIsHull | frontend/src/collab/pm-position-map.ts:76-155 | there and back gives the hull of the mapped characters in the selection, never more |
| PositionMap.SelectionHull | frontend/src/collab/pm-position-map.ts:76-155 | the composed calls return that hull |
| Overrides.CollectClientsInRange | frontend/src/collab/pm-position-map.ts:345-367 | the clients of the visible items that overlap the range |
| Overrides.CollectedAreAuthors | frontend/src/collab/pm-position-map.ts:345-367 | for a nonempty range a client is collected exactly if it wrote a character of it |
| Overrides.CollectedAreAuthorsIff | frontend/src/collab/pm-position-map.ts:345-367 | for every range the collected clients are the authors of its characters, if and only if it is not empty or cuts no item |
| Overrides.EmptyRangeInsideAnItem | frontend/src/collab/pm-position-map.ts:345-367 | an empty range inside an item yields a client that wrote nothing in it |
| Overrides.OneAuthor | frontend/src/collab/pm-position-map.ts:278-298 | one collected client means one author of every character |
| Overrides.MatchPattern | frontend/src/collab/pm-position-map.ts:270-303 | the checks of the loop body find the two names exactly when there is a hit |
| Overrides.DelimitedIff | frontend/src/collab/pm-position-map.ts:270-277 | the delimiter test passes exactly if the source reads opening, text, closing in one piece there |
| Overrides.DelimitersIff | frontend/src/collab/pm-position-map.ts:278-298 | one delimiter client is collected exactly if it wrote all delimiter characters and an empty side cuts no item |
| Overrides.HitMeansWrapped | frontend/src/collab/pm-position-map.ts:270-303 | for every pattern a hit is open, text, close in the source, delimiters by one author and set apart, text by another, reported under the names of these two, which differ |
| Overrides.FindYTextStart | frontend/src/collab/pm-position-map.ts:331-339 | an offset that maps to the position, none only if there is none |
| Overrides.NodeIsFound | frontend/src/collab/pm-position-map.ts:331-339 | the scan finds exactly the place of the node, or nothing when it was skipped |
| Overrides.NodeIsSnapped | frontend/src/collab/pm-position-map.ts:305-314 | the reported range is exactly the node |
| Overrides.FindFormattingOverrides | frontend/src/collab/pm-position-map.ts:234-323 | the loop over nodes, marks and patterns collects exactly the hits, in order |
| Overrides.OverridesAreSound | frontend/src/collab/pm-position-map.ts:234-323 | whatever is reported is one found node, wrapped in delimiters by one user around the text of another |
| Overrides.OverridesAreComplete | frontend/src/collab/pm-position-map.ts:234-323 | no such node goes unreported |
| Overrides.FirstPatternWins | frontend/src/collab/pm-position-map.ts:270-303 | of several patterns for a mark the first that hits is reported |
| Overrides.OverridesInOrder | frontend/src/collab/pm-position-map.ts:234-323 | the overrides come in document order, at most one for each mark of a node |
| CommentSync.CommentEngine.SetThread | frontend/src/collab/comment-engine.ts:133-151 | a write marks its thread dirty, once |
| CommentSync.CommentEngine.Decide | frontend/src/collab/comment-engine.ts:503-522 | a decision resolves a thread that has a suggestion; what it stores, the row of CommentRuns.DecisionMeans says |
| CommentSync.CommentEngine.Delete | frontend/src/collab/comment-engine.ts:416-422 | removes the thread and queues its deletion |
| CommentSync.CommentEngine.InsertThreadFromWire | frontend/src/collab/comment-engine.ts:945-990 | the server's thread replaces the local one, except that an unseen decision survives and stays dirty |
| CommentSync.CommentEngine.Send | frontend/src/collab/comment-engine.ts:771-886 | succeeds exactly if every request does |
| CommentSync.CommentEngine.PersistKey | frontend/src/collab/comment-engine.ts:745-916 | one key: snapshot on success, counted retry on failure, given up at the fifth |
| CommentSync.CommentEngine.Persist | frontend/src/collab/comment-engine.ts:735-923 | drains the dirty set and puts back exactly the keys to retry |
| CommentRuns.ChangesKeepBooks | frontend/src/collab/comment-engine.ts:133-151 | every change by this user, a peer or a poll keeps the books |
| CommentRuns.DecisionMeans | frontend/src/collab/comment-engine.ts:503-522 | the decision and its decider are stored and the thread resolved, the rest of it and all other threads stay, and it is due; without a suggestion nothing happens |
| CommentRuns.PollMeans | frontend/src/collab/comment-engine.ts:945-990 | after a poll thread and snapshot are the server's and nothing is due, except that a decision made here is kept and due; no other thread is touched |
| CommentRuns.DeletionsMean | frontend/src/collab/comment-engine.ts:416-422 | every deletion takes exactly the thread; only one made here is queued for the server |
| CommentRuns.RoundRecordsIff | frontend/src/collab/comment-engine.ts:745-916 | after every run: a round records a changed thread as persisted if and only if it was due and every request about it was answered with 200 to 299, or with 409 for a creation |
| CommentRuns.DeletedKeyRecordsIff | frontend/src/collab/comment-engine.ts:745-770 | a deletion takes the snapshot away exactly if it was answered with 200 to 299 |
| CommentRuns.StepKeysTouch | frontend/src/collab/comment-engine.ts:735-923 | what a round leaves for a thread is decided by the last key about it |
| CommentRuns.KeysWithRemoval | frontend/src/collab/comment-engine.ts:745-916 | what a round with given answers leaves for a thread whose deletion is its last word |
| CommentRuns.RoundKeepsBooksWithIff | frontend/src/collab/comment-engine.ts:735-923 | a round with given answers keeps the books if and only if it deletes no stored thread without a failed write to remind it |
| CommentRuns.RoundKeepsBooksIff | frontend/src/collab/comment-engine.ts:735-923 | a round keeps them whatever the answers if and only if no stored thread has its deletion as the last word |
| CommentRuns.RunsKeepBooksIff | frontend/src/collab/comment-engine.ts:735-923 | throughout a run a thread that differs from its snapshot is dirty or abandoned, if and only if no round forgets one |
| CommentRuns.RunsKeepBooks | frontend/src/collab/comment-engine.ts:735-923 | in particular when all rounds are safe |
| CommentRuns.ResurrectedThreadIsForgotten | frontend/src/collab/comment-engine.ts:416-422 | a thread deleted here and written again by a peer is deleted on the server and forgotten |
| CommentRuns.AbandonedAfterFiveFailures | frontend/src/collab/comment-engine.ts:888-916 | the retry counter is the number of consecutive failures, and abandoned means at least five |
| CommentRuns.PassCounts | frontend/src/collab/comment-engine.ts:888-916 | a key put back has one more failure than before and fewer than five |
| CommentRuns.DirtySetDrains | frontend/src/collab/comment-engine.ts:735-923 | from every reachable state the dirty set is empty after five quiet rounds |
| CommentRuns.DecisionStepIff | frontend/src/collab/comment-engine.ts:945-990 | no poll and no round takes a decision back; exactly deletion, an undecided overwrite and reopening do |
| CommentRuns.DecisionsSurviveIff | frontend/src/collab/comment-engine.ts:945-990 | whatever else happens, a decision stands throughout a run if and only if every event respects it |
| CommentRuns.PollKeepsDecisionDirty | frontend/src/collab/comment-engine.ts:945-990 | a decision the server does not know stays dirty and is among the next requests |
| CommentServer.PostedCommentsAgreeIff | frontend/src/collab/comment-engine.ts:805-843 | posting the new comments gives the thread's comments exactly if it only grew and nothing was posted before |
| CommentServer.ServedReplies | internal/storagedemo/comments_store.go:228-282 | replies are appended in order |
| CommentServer.ServedThreadRequests | internal/storagedemo/comments_store.go:517-568 | status and decision arrive from any server state, and a decision is refused exactly without a suggestion |
| CommentServer.ServedPrefix | frontend/src/collab/comment-engine.ts:805-886 | what an attempt leaves on the server when it fails behind any of its requests |
| CommentServer.RetryAgreesIff | frontend/src/collab/comment-engine.ts:805-916 | after any partial failure and a successful retry the server has the thread, if and only if the requests can carry the change and no reply had got through |
| CommentServer.PartialFailureDuplicatesReply | frontend/src/collab/comment-engine.ts:805-916 | a reply that got through before the status change failed is there twice after the retry |
| CommentServer.DecisionReachesServerIff | frontend/src/collab/comment-engine.ts:503-886 | from the user's decision to the server: after the next successful attempt it is there with its decider in a resolved thread, if and only if it differs from the snapshot's or comes from the same user |
| CommentServer.CreateAgreesIff | frontend/src/collab/comment-engine.ts:771-804 | creating a thread makes the server agree if and only if it is open and has at most one, undeleted comment |

## Left out

- Yjs, ygo and pycrdt internals: updates are opaque elements of a set.
- User interface, rendering, HTTP and WebSocket transport, process supervision other than the restart limiter, the file-backed demo stores other than what a comment request does to a thread: input and output, or easy members only.
- The text binding's convergence of editor and text: it depends on a Markdown normaliser that is not part of this model.
- Redis key expiry, base64 and JSON encoding, metrics: a store never forgets by time, and persisted snapshots are compared as values, not as JSON text.
- Errors of the engine or of Redis during a bootstrap; the model has the successful path and the missing snapshot.
- Redis publication to sibling pods: which updates a pod's document holds when it writes a snapshot is arbitrary, and the theorems say what it has to hold.
- The circuit breaker: its answer is an arbitrary boolean. Backoff delays: an arbitrary cancellation.
- Go's 64-bit wrap of the buffer's sequence number.
- Strings are sequences of characters, not of UTF-16 code units, and the wording of a suggestion's human-readable summary is not modelled.
- The cache in front of the sorted keys of a position map.
- SessionGate.PhantomDraftIff: the text of a document is an arbitrary function of its operations.
- Flags that mark torn-down objects. Provider, replicator, Suggest controller and the preview part of the editor are one session object; its two list panels are one flag.
- A poll that lands inside a persist round: a round is one step.
- Comment edits, deletions, reactions and mentions beyond the thread value they leave; author names and times on the server.
- Frames.SidecarHandlesSentFrames: asks for payloads shorter than 2^32 - 6 bytes, which the length field can express.
- SidecarClient.CallsAreCorrelated: the supervisor's new client after a restart is not modelled, and the answer to a request is arbitrary content tagged with the call.
- EditorSession.DraftsAreConfined: which operations of an update wait for missing ones of their author is left arbitrary, and operations that wait in the sync document are not followed there.
- CommentServer.RetryAgreesIff: requests are assumed to carry valid identifiers and content, and a failed request to have had no effect.
- CommentServer.CreateAgreesIff: a conflict answer, when a peer has created the thread before, is not covered.
