# Models and proofs for the agent runtime

Dafny models of the stateful cores of the repository, each proved against what its code and documentation
promise. Check everything with `dafny verify dfyconfig.toml`.

**Agent workspace** (`Wrappers`, `Text`, `FileTree`, `Kernel`, `Disk`, `Errors`, `Saturation`, `Quota`, `Sandbox`,
`Entries`, `Utf8`, `Frame`, `Workspace`, `WorkspaceTheorems`, `LinkLimit`, `ToolPaths`, `OperationLaws`). A disk is a tree of files, directories and links. `Kernel` is a
reference model of Unix path walking and of `lstat`, `realpath`, `mkdir`, `unlink`, `rmdir`, `open` and `rename`; it
follows links wherever they lead and knows nothing about workspaces. A class `Disk` holds the current tree and a ghost
log of every tree it has been, so that a claim about every step is a claim about the log. The workspace methods are
written over those calls, branch for branch, with `u64` saturation written out. Each operation's outcome and final tree
equal a function of the tree it started from (`WriteOf`, `DownloadOf`, `DeletionOf`, `ReadOf`), and the theorems are
about those functions. `OperationLaws` says what each operation does in terms of the kernel alone, and `ToolPaths` which
paths are taken for which names.

**Event stream decoder** (`Sse`, `SseWire`). The decoder's buffer and events are a function of the text pushed; chunk invariance
and the round trip are about that function. The format is that of the WHATWG HTML Living Standard, sections 9.2.5 and
9.2.6, less what the code leaves out.

**ACP bridge** (`BridgeLoop`, `Permissions`, `ToolCalls`, `SessionStore`). The select loop as a machine over an
arbitrary sequence of lines, joins and permission requests (JSON-RPC 2.0, sections 4, 4.1 and 5); the permission
waiters; the flat list of tool-call ids against one stack per name; the session files under a crash at any step.

**Smaller cores**: `Query` (tokenizer and literal matching), `PeerSet` (swap of the live MCP peers), `BranchCleaner`
(deletion of merged branches; `GitRepo` is the repository it works on, with an arbitrary schedule of what other
processes make of it before each command). `Sequences` holds facts about sequences without repetitions.

## Findings

- The cap is kept at every file system step of every run when it is below `u64::MAX` (`WorkspaceTheorems.Run`). At
  `u64::MAX` nothing is ever refused, because the sum in `admit` saturates; the cap is then exceeded exactly when the
  true sum exceeds it, as with two files of 2^63 - 1 bytes (`WorkspaceTheorems.LargestCapIsNoCap`,
  `WorkspaceTheorems.TwoWritesPassTheLargestCap`).
- Reading a name right after writing it gives the content back exactly when the name's parents are not reached through
  the very link that the write replaced; otherwise the read fails (`WorkspaceTheorems.ReadAfterWrite`). With `x` a link
  to its own directory, a write to `x/x` is such a case.
- Each name of a tool path is resolved with a link limit of its own. One `realpath` of the whole reaches the same
  directory exactly when the links on the way are within the limit, and answers ELOOP otherwise
  (`Sandbox.ResolvedParentIsRealPath`); two links at a limit of one are such a path (`LinkLimit.ResolvedBeyondTheLimit`).
- A download is admitted like a write of the larger of the announced and the delivered size, so an announcement that
  is too large can refuse a body that would fit (`WorkspaceTheorems.DownloadAcceptedLikeWrite`).
- The event decoder normalises every chunk by itself. A cut between a CR and its LF adds a line feed; it is the only
  kind of cut that can be noticed, and each one is (`Sse.OnlyCrLfCutsShow`).
- `mcp_apply.rs` says that a name is never routable without a connector. Right after the connectors are swapped,
  exactly the routed names that are no longer enabled are in that position until the catalog follows; no name that is
  being added ever is (`PeerSet.Live.ApplyMcpPeerSet`).
- A remote branch goes away only at its audited commit. For a local branch the check is a separate command just before
  `git branch -D`: it goes away at its audited commit exactly when no other process moves it in between
  (`BranchCleaner.EveryDeletionIsPrepared`), and at any other commit when one does
  (`BranchCleaner.MovedBeforeItsDeletion`).
- The content check is given the name of a ref and not its commit, in the audit and in the recheck. In both it judges
  the candidate's commit exactly when no other process moves the ref between the check and the reading of the commit
  (`BranchCleaner.EveryDeletionIsPrepared`), so a commit that goes away unjudged was moved away from both times
  (`BranchCleaner.UnjudgedWasMovedTwice`). That can happen: the audit, the recheck and the deletion of one branch, with a
  ref that is elsewhere just for the two checks (`BranchCleaner.TakenWithoutBeingJudged`). With archiving on the commit
  is under its tag all the same.
- `find_start` promises the byte offset of the first match in the text and gives the one in the lower-cased text. It
  keeps the promise exactly when folding keeps the total width of the text in front of the match
  (`Query.StartIsOffsetInText`), so always when folding keeps the width of every character (`Query.OffsetsAgree`); behind
  a Kelvin sign it does not (`Query.StartAfterKelvinSign`).
- A crash between the rename and the return of `save` leaves the new record although the caller never hears of it
  (`SessionStore.Store.Save`).
- When the first `rename` of `replace_file` fails and the second one does too, what was at the destination has already
  been removed (`Entries.ReplaceExisting`). So it is whenever there is nothing to move
  (`Entries.MissingSourceLosesDestination`, `Entries.SourceMissing`). A download always has its incoming file to move; on
  the Unix disk modelled here it loses nothing.

## Model

| member | source | states |
|---|---|---|
| Quota.Usage | crates/agent-workspace/src/quota.rs:17-21 | the program's walk finds the true cost of the tree, saturated to 64 bits |
| Quota.WalkEntries | crates/agent-workspace/src/quota.rs:23-39 | summing entry by entry with saturation at each addition is one saturated sum of the exact recursive cost; links are not entered |
| Quota.MissingIsSuffix | crates/agent-workspace/src/quota.rs:96-107 | below an open path the absent prefixes are exactly the last ones, so counting absent names is counting what must be created |
| Quota.MissingComponents | crates/agent-workspace/src/quota.rs:96-107 | the counting loop returns that number, `PathEscape` outside `files`, and an I/O error below a file |
| Quota.DepositCost | crates/agent-workspace/src/quota.rs:1-12 | putting a node at a path costs its content plus one entry per missing name and gives back the old content, exactly |
| Quota.MakeDirsCost | crates/agent-workspace/src/sandbox.rs:140-147 | creating parents costs one entry per missing directory |
| Quota.DropCost | crates/agent-workspace/src/entries.rs:85-94 | removing an entry lowers the cost by the entry and everything below it |
| Quota.Charge | crates/agent-workspace/src/quota.rs:85-90 | usage, replaced bytes and new entries are those of the tree before anything exists at the destination |
| Quota.AdmitWrite | crates/agent-workspace/src/quota.rs:59-67 | refuses exactly as the admission function of the tree says, with the same error |
| Quota.GateDownload | crates/agent-workspace/src/quota.rs:73-83 | admits the announced size, and hands the loop usage with the entry cost folded in |
| Quota.AdmitIsExact | crates/agent-workspace/src/quota.rs:46-56 | below the largest cap the saturated check is the unbounded one |
| Quota.AdmissionIsExact | crates/agent-workspace/src/quota.rs:46-107 | a write is admitted if and only if the tree it would leave is within the cap, for missing, file and link destinations |
| Quota.RefusalNamesTheSums | crates/agent-workspace/src/quota.rs:46-67 | a refused write is told what it would add, 4096 for each new name included, and what the usage would come to |
| Quota.CapZeroRefusesEverything | crates/agent-workspace/src/quota.rs:3-8 | a cap of zero refuses every write and download, also of nothing and also over an existing file |
| Quota.NothingRefusedAtLargestCap | crates/agent-workspace/src/quota.rs:46-56 | a cap of 2^64-1 refuses no size at all |
| Quota.StreamingCheckAgrees | crates/agent-workspace/src/quota.rs:69-83 | the download's running check decides like a whole write, although it folds the entry cost into the usage before subtracting the replaced bytes |
| Sandbox.Names | crates/agent-workspace/src/sandbox.rs:196-219 | every component that survives is a safe name; `..`, and endings in a dot or a space, are refused |
| ToolPaths.AcceptedAsItsNames | crates/agent-workspace/src/sandbox.rs:180-219 | with blanks around it, slashes or backslashes between the pieces, and empty and `.` pieces anywhere, a path is accepted as exactly its names |
| ToolPaths.RefusedForAPiece | crates/agent-workspace/src/sandbox.rs:180-219 | the first `..` is `PathEscape` and the first name that ends in a dot or a space is `BadPath`, whatever follows |
| ToolPaths.RefusedAsAWhole | crates/agent-workspace/src/sandbox.rs:180-195 | a NUL is `BadPath`; a colon or a rooted path is `PathEscape`; a blank path is `files` itself |
| ToolPaths.TrimDrops | crates/agent-workspace/src/sandbox.rs:180-195 | trimming takes the blanks at both ends and nothing else |
| Sandbox.WalkComponents | crates/agent-workspace/src/sandbox.rs:37-47 | the loop over a growing path is the fold that follows every name but the last |
| Sandbox.Resolve | crates/agent-workspace/src/sandbox.rs:19-25 | result and error of resolving, as a function of the tree |
| Sandbox.ResolveFollowing | crates/agent-workspace/src/sandbox.rs:28-34 | the same with a final link followed and contained |
| Sandbox.ResolvedPathIsPlain | crates/agent-workspace/src/sandbox.rs:37-65 | a resolved path is strictly below `files`, ends in the last name asked for, and no proper ancestor of it is a link |
| Sandbox.FollowIsKernelWalk | crates/agent-workspace/src/sandbox.rs:59-65 | soundness: where the name-by-name resolver ends on something that exists, the kernel's own walk of the same names ends there |
| Sandbox.KernelWalkIsFollowed | crates/agent-workspace/src/sandbox.rs:59-65 | completeness, exactly: where the kernel's walk succeeds the resolver ends at the same node if no part of the way leaves `files`, and answers `PathEscape` if one does |
| Sandbox.EscapeIsReal | crates/agent-workspace/src/sandbox.rs:222-244 | whatever exists, `PathEscape` is answered only where the kernel, too, gets out of `files` along some of the names |
| Sandbox.MissingNamesFollow | crates/agent-workspace/src/sandbox.rs:222-236 | names missing behind those that exist are appended to where the kernel gets |
| Sandbox.ResolvedParentIsRealPath | crates/agent-workspace/src/sandbox.rs:36-47 | the parent of a resolved path, as soon as it exists, is where the kernel walks with the limit once per name; `realpath` under the kernel's own limit equals it exactly when the links on the whole walk are within that limit |
| Kernel.WalkNeedsItsLinks | crates/agent-workspace/src/sandbox.rs:222-236 | a walk that succeeds under some limit succeeds under another exactly when that covers the links it follows, and otherwise ends in ELOOP |
| LinkLimit.ResolvedBeyondTheLimit | crates/agent-workspace/src/sandbox.rs:36-65 | a disk with two links on which the resolver accepts a path and `realpath` answers ELOOP |
| Sandbox.RealPathIsResolved | crates/agent-workspace/src/sandbox.rs:36-47 | conversely, `realpath` of the parent plus the last name is what is resolved exactly when no part of the way leaves `files`, and `PathEscape` is the answer otherwise |
| Kernel.LinkLeads | crates/agent-workspace/src/sandbox.rs:222-236 | where `realpath` gets through one link: to a target counted from the top, from its own directory, or from the one above |
| Sandbox.EnsureParents | crates/agent-workspace/src/sandbox.rs:77-83 | all missing parents are created or, with a file or link in the way, none and the right error; each intermediate tree has a prefix of them |
| Sandbox.CreateDirs | crates/agent-workspace/src/sandbox.rs:140-147 | the loop creates top-down and reports an obstacle before it has created anything |
| Sandbox.PrepareDir | crates/agent-workspace/src/sandbox.rs:160-178 | one step: directory kept, link refused, file refused, missing name created |
| Sandbox.FollowKept | crates/agent-workspace/src/sandbox.rs:59-65 | a resolution is not disturbed by a change that keeps the directories and links it needs |
| Sandbox.FollowBroken | crates/agent-workspace/src/sandbox.rs:59-65 | a resolution that needed a link fails, or stops at it, once the link is a file |
| Entries.WriteReplacingLink | crates/agent-workspace/src/entries.rs:147-159 | a link is replaced and not written through; the final tree, and every tree on the way, are given |
| Entries.UnlinkIfLink | crates/agent-workspace/src/entries.rs:152-159 | removes exactly a link |
| Entries.ReplaceFile | crates/agent-workspace/src/entries.rs:170-175 | moves a file over whatever is there, except a directory, which stays; a move that fails is tried again as below |
| Entries.ReplaceExisting | crates/agent-workspace/src/entries.rs:177-195 | the second attempt: refuses a directory, and on a second failure leaves the destination removed |
| Entries.MissingSourceLosesDestination | crates/agent-workspace/src/entries.rs:170-195 | with no source both moves fail and the destination is gone |
| Entries.SourceMissing | crates/agent-workspace/src/entries.rs:170-195 | a run on one such disk |
| Entries.RemoveContained | crates/agent-workspace/src/entries.rs:85-94 | removes exactly the named subtree, terminating on its size; a missing path and a file among the parents are the errors |
| Entries.RemoveDirectory | crates/agent-workspace/src/entries.rs:197-202 | empties and removes a directory; each tree on the way differs only inside it and costs no more |
| Entries.RemovalLifts | crates/agent-workspace/src/entries.rs:197-202 | a state within the removal of an entry is a state within the removal of its directory |
| Entries.RemovalUsage | crates/agent-workspace/src/entries.rs:197-202 | no state within a removal has a larger usage than the state before |
| Workspace.WriteCostsExactly | crates/agent-workspace/src/quota.rs:85-107 | after a write usage is old usage plus new bytes minus replaced bytes plus one entry per created name |
| Frame.MakingParentsIsInside | crates/agent-workspace/src/sandbox.rs:140-147 | in every tree on the way to the parents of a path below `files`, `files` is a directory and every path apart from it sees what it saw |
| Frame.WritingIsInside | crates/agent-workspace/src/entries.rs:147-159 | so in every tree a write passes through |
| Frame.RemovingIsInside | crates/agent-workspace/src/entries.rs:197-202 | so in every tree a removal passes through |
| Workspace.MakingParentsFits | crates/agent-workspace/src/workspace.rs:151-159 | no tree in the middle of creating parents costs more than the larger of the trees before and after the write |
| Workspace.WritingFits | crates/agent-workspace/src/workspace.rs:151-159 | nor does any tree with the link gone or part of the bytes written |
| Workspace.AgentWorkspace.Destination | crates/agent-workspace/src/workspace.rs:261-268 | refuses the root and real directories; otherwise a plain path below `files` |
| Workspace.AgentWorkspace.WriteText | crates/agent-workspace/src/workspace.rs:151-159 | success exactly when resolved and admitted, then only the destination and new parents change; refused, nothing changes at all; usage changes by the exact amount, and at every step stays within the cap and nothing outside `files` changes |
| Workspace.AgentWorkspace.Fetch | crates/agent-workspace/src/workspace.rs:189-213 | the download from the response on: outcome, final tree, usage at every step, and nothing but `files` and the incoming file touched at any step; a refusal before the body leaves the tree as it was, one while receiving takes out at most a stale incoming file |
| Workspace.AgentWorkspace.StoreReader | crates/agent-workspace/src/workspace.rs:215-247 | stores a body or leaves the tree without the incoming file, whatever stopped it |
| Workspace.AgentWorkspace.ReceiveInto | crates/agent-workspace/src/workspace.rs:228-243 | the receive loop checks each chunk before storing it, and holds exactly the bytes delivered |
| Workspace.AgentWorkspace.MoveIntoPlace | crates/agent-workspace/src/workspace.rs:243-247 | creating parents and renaming ends in the tree that a write would leave |
| Workspace.AgentWorkspace.Delete | crates/agent-workspace/src/workspace.rs:161-168 | exactly the named subtree goes, usage falls by exactly its cost, no step raises it or touches anything outside `files`; `files` itself is refused |
| Workspace.AgentWorkspace.ExistingFile | crates/agent-workspace/src/workspace.rs:249-259 | a regular file after following links, or the error for a directory, a missing name or a broken walk |
| Workspace.AgentWorkspace.ReadText | crates/agent-workspace/src/workspace.rs:136-147 | the bytes at the resolved path when they are at most 1 MiB and valid UTF-8, and which error otherwise |
| Workspace.StreamOutcome | crates/agent-workspace/src/workspace.rs:228-243 | however a body is cut, the loop stores it whole if and only if it arrives whole and its total is admitted |
| Workspace.StreamedWriteIsAdmitted | crates/agent-workspace/src/workspace.rs:206-247 | past the gate, a stream succeeds if and only if one write of all its bytes would be admitted |
| Workspace.MovingIntoPlace | crates/agent-workspace/src/workspace.rs:243-247 | the incoming file is apart from `files`, so receiving changes neither the destination nor its price |
| Workspace.MovingStaysSound | crates/agent-workspace/src/workspace.rs:243-247 | every tree between the received file and its final place is within the bound and leaves alone what is outside |
| WorkspaceTheorems.Run | crates/agent-workspace/src/workspace.rs:136-247 | any run of writes, downloads, deletes and reads that starts within a cap below 2^64-1 is within it at every single file system step; in each of these states `files` is there and nothing outside of it but the incoming file has changed since the run began |
| WorkspaceTheorems.LargestCapIsNoCap | crates/agent-workspace/src/quota.rs:46-56 | at 2^64-1 every write is accepted, and runs past the cap exactly when the true sum does |
| WorkspaceTheorems.TwoWritesPassTheLargestCap | crates/agent-workspace/src/quota.rs:46-56 | two accepted writes of 2^63-1 bytes run past it |
| WorkspaceTheorems.ResolvedParentsNeverEscape | crates/agent-workspace/src/sandbox.rs:73-83 | creating the parents of a resolved destination never answers `PathEscape` |
| WorkspaceTheorems.DownloadAcceptedLikeWrite | crates/agent-workspace/src/workspace.rs:189-247 | for every chunking and announcement, a download is accepted if and only if a write of the larger size is, the body is whole and nothing blocks the incoming file |
| WorkspaceTheorems.DownloadLeavesWhatWriteLeaves | crates/agent-workspace/src/workspace.rs:206-247 | side by side, a download and a write of the same bytes succeed together and leave the same tree |
| WorkspaceTheorems.WriteFrame | crates/agent-workspace/src/workspace.rs:151-159 | every path apart from the destination sees what it saw; ancestors were and are directories, or were missing |
| WorkspaceTheorems.LinkTargetUntouched | crates/agent-workspace/src/entries.rs:147-159 | replacing or removing a link leaves the file it points to alone, inside or outside `files` |
| WorkspaceTheorems.DeleteFrame | crates/agent-workspace/src/workspace.rs:161-168 | after a delete nothing is found at or below the path and everything apart from it is as before |
| WorkspaceTheorems.WriteKeeps | crates/agent-workspace/src/workspace.rs:151-159 | a write keeps every directory and every link except the one it replaces |
| WorkspaceTheorems.ResolvesToSame | crates/agent-workspace/src/sandbox.rs:19-65 | a name that does not lead through the replaced link resolves to the same path in the changed tree |
| WorkspaceTheorems.ResolvesToNothing | crates/agent-workspace/src/sandbox.rs:19-65 | a name that does can no longer be read |
| WorkspaceTheorems.ReadAfterWrite | crates/agent-workspace/src/workspace.rs:136-159 | reading back gives the content if and only if the name does not lead through the replaced link, and always when no link was replaced |
| WorkspaceTheorems.ReadAfterWriteThroughTheLinkItself | crates/agent-workspace/src/workspace.rs:136-159 | a concrete family where reading back fails |
| WorkspaceTheorems.ReadIsContained | crates/agent-workspace/src/workspace.rs:136-147 | what is read is a file strictly below `files`, at a path with no link on the way |
| WorkspaceTheorems.ReadIsKernelRead | crates/agent-workspace/src/workspace.rs:136-147 | and the bytes are those the kernel gives for the names asked, under its own limit exactly when that covers the links on the way |
| OperationLaws.ReadGivesWhatKernelFinds | crates/agent-workspace/src/workspace.rs:136-147 | where `realpath` of the names succeeds inside `files`, a read gives the bytes of a file of at most 1048576 bytes of UTF-8, and for anything else the error for it |
| OperationLaws.KernelReadIsRead | crates/agent-workspace/src/workspace.rs:136-147 | a small text file the kernel opens is what is read, exactly when no part of the way leaves `files` |
| OperationLaws.ReadOfMissing | crates/agent-workspace/src/workspace.rs:249-259 | a name missing where its parents lead is `NotFound` |
| OperationLaws.ReadsAreSmallText | crates/agent-workspace/src/workspace.rs:136-147 | nothing over 1048576 bytes and nothing but UTF-8 is ever read |
| OperationLaws.DeletionTakesTheNameItself | crates/agent-workspace/src/workspace.rs:161-168 | a delete takes the entry of the last name below `realpath` of the others: a link and not its target; missing, blocked and outside are the errors |
| OperationLaws.DeleteByName | crates/agent-workspace/src/workspace.rs:161-168 | the same run on a workspace: success and exactly that entry dropped, or the error and nothing changed |
| OperationLaws.RootIsRefused | crates/agent-workspace/src/workspace.rs:136-168 | the path of `files` itself is neither deleted, written nor read, each with its error |
| OperationLaws.AliasIsFollowed | crates/agent-workspace/src/sandbox.rs:222-236 | behind a link of `files` to a directory of `files`, absolute or relative, one is in that directory |
| OperationLaws.WriteGoesWhereKernelLeads | crates/agent-workspace/src/workspace.rs:151-159 | for names of which the first lead to a directory and the next are missing, a write goes there, refused only for a directory of that name or when the tree left would cost more than the cap |
| OperationLaws.WriteByName | crates/agent-workspace/src/workspace.rs:151-159 | the same run on a workspace |
| OperationLaws.NewFileCosts | crates/agent-workspace/src/quota.rs:1-15 | a new file in an existing directory costs its bytes and 4096 more |
| OperationLaws.ReplacingCosts | crates/agent-workspace/src/quota.rs:1-15 | replacing a file costs the difference of the lengths |
| OperationLaws.NewEntryCosts | crates/agent-workspace/src/quota.rs:1-15 | a link or an empty directory costs 4096 and a link's target nothing |
| OperationLaws.NothingBelowAFile | crates/agent-workspace/src/quota.rs:109-145 | a write below a file is refused as an I/O error |
| OperationLaws.EndsOfBodies | crates/agent-workspace/src/workspace.rs:228-239 | all parts received count, a body ends at the end or at an empty read, and a failed read makes it incomplete |
| OperationLaws.DownloadRefusals | crates/agent-workspace/src/workspace.rs:189-213 | before the body a download is refused for its destination, then for its response, then as a write of the announced size is |
| Utf8.ExactlyTheEncodings | crates/agent-workspace/src/workspace.rs:147 | bytes are taken for text exactly when they are the encoding of some sequence of characters, by section 3 of RFC 3629 |
| WorkspaceTheorems.AcceptedNamesAreSafe | crates/agent-workspace/src/sandbox.rs:180-219 | no accepted tool path holds `.`, `..`, a separator, a colon or a NUL in a name |
| WorkspaceTheorems.JoinedNamesComeBack | crates/agent-workspace/src/sandbox.rs:180-219 | safe names joined by `/` are accepted and come back unchanged |
| Sse.SseDecoder.Push | crates/chat-client-contract/src/native.rs:47-61 | a push drains the buffer plus the normalised chunk, and the buffer never keeps a blank line or a CR |
| Sse.ParseBlock | crates/chat-client-contract/src/native.rs:66-91 | the last event name, all data lines joined, nothing for a block without a field |
| Sse.FindBlankIsFirst | crates/chat-client-contract/src/native.rs:51-52 | the search finds the least blank line |
| Sse.Decode | crates/chat-client-contract/src/native.rs:47-61 | pushing chunk after chunk on the object is the fold of the theorems below |
| Sse.DrainInTwo | crates/chat-client-contract/src/native.rs:51-59 | draining a prefix and then its rest with more text is draining the whole |
| Sse.RestHasNoBlank | crates/chat-client-contract/src/native.rs:51-60 | no event that could be given out stays in the buffer |
| Sse.NormalInTwo | crates/chat-client-contract/src/native.rs:48-49 | normalising two parts is normalising the whole if no CR LF is cut, and one line feed too many otherwise |
| Sse.CleanIffNormalOfWhole | crates/chat-client-contract/src/native.rs:48-49 | for a whole list of chunks: the normal forms agree if and only if no cut falls inside a CR LF |
| Sse.ChunkInvariance | crates/chat-client-contract/src/native.rs:47-61 | any text, any cutting with no cut inside a CR LF: same events and same buffer as one push |
| Sse.OnlyCrLfCutsShow | crates/chat-client-contract/src/native.rs:47-61 | a cut cannot be noticed at any later point if and only if it is not inside a CR LF |
| Sse.OnlyCleanCuttingsAreInvisible | crates/chat-client-contract/src/native.rs:47-61 | for any list of chunks: no reading position shows a difference from one push if and only if no cut falls inside a CR LF |
| Sse.DrainOneEvent | crates/chat-client-contract/src/native.rs:47-96 | one encoded event in front of any text is drained as that event |
| Sse.RoundTrip | crates/chat-client-contract/src/native.rs:47-96 | any encodable events, encoded, cut anywhere, are decoded to exactly those events with an empty buffer |
| SseWire.FieldLaw | crates/chat-client-contract/src/native.rs:77-96 | exactly one space after the colon is dropped, and nothing else of the value |
| SseWire.DrainOneBlock | crates/chat-client-contract/src/native.rs:66-91 | a block of any lines is the event of its last name, `message` by default, and its data lines; comments and other fields are passed over, and a block without a field gives none |
| SseWire.NormalUndoesEnding | crates/chat-client-contract/src/native.rs:48-49 | CR LF and CR are read as LF |
| SseWire.WireRoundTrip | crates/chat-client-contract/src/native.rs:47-96 | everything a server may write, with or without spaces, names and comments, with any of three line endings and any clean cutting, is decoded to exactly what it means |
| BridgeLoop.Bridge.HandlePromptJoin | crates/acp-bridge/src/main.rs:563-592 | frees the slot and answers its request once, with the task's result, error -32603, or a cancelled turn; a turn reported cancelled was cancelled for its session |
| BridgeLoop.Bridge.SpawnPromptIfFree | crates/acp-bridge/src/main.rs:367-423 | with the slot full one response with -32603, without a session id one with -32602, and otherwise the request takes the slot unanswered |
| BridgeLoop.Bridge.ApplyClientRpcReply | crates/acp-bridge/src/main.rs:731-746 | a reply goes to the waiters and nowhere else |
| BridgeLoop.Bridge.DispatchNotification | crates/acp-bridge/src/main.rs:673-699 | a cancel empties the waiter table and aborts the slot only for its own session; no response |
| BridgeLoop.Bridge.DispatchStdinMessage | crates/acp-bridge/src/main.rs:627-669 | the whole effect of a message: a reply answers its waiter, a cancel takes effect, any other notification changes nothing, a request is answered at once with its outcome or takes the slot, and never both |
| BridgeLoop.Bridge.HandleStdinLine | crates/acp-bridge/src/main.rs:597-625 | a message line has its whole effect, blank and unreadable lines change nothing and go on; end of input stops, a failed read is an error |
| BridgeLoop.Turn | crates/acp-bridge/src/main.rs:314-335 | one turn of the loop keeps the ledger, adds the requests it reads, and goes on unless the input ended or failed |
| BridgeLoop.Bridge.Shutdown | crates/acp-bridge/src/main.rs:337-340 | at the end every request but the one in the slot has its response |
| BridgeLoop.RunLoop | crates/acp-bridge/src/main.rs:314-335 | in every reachable state, under any interleaving, responses written plus the request in the slot are, id for id, the requests read |
| BridgeLoop.Serve | crates/acp-bridge/src/main.rs:314-340 | the same for the whole process, with at most the slot's request unanswered |
| BridgeLoop.EachRequestAnsweredOnce | crates/acp-bridge/src/main.rs:314-335 | with distinct ids each request has exactly one response and an unread id or the slot's request has none |
| Permissions.DecimalReadsBack | crates/acp-bridge/src/permission.rs:115-116 | printed numbers are decimal digits that read back as the number |
| Permissions.DecimalIsInjective | crates/acp-bridge/src/permission.rs:115-116 | decimal printing is injective |
| Permissions.ReplyFindsItsWaiter | crates/acp-bridge/src/permission.rs:494-500 | the id a request is sent with is the key its waiter waits under |
| Permissions.OtherIdsFindNobody | crates/acp-bridge/src/permission.rs:494-500 | no number and no null is a waiter's key |
| Permissions.AskAndAnswer | crates/acp-bridge/src/permission.rs:88-134 | a reply with the id just sent is the answer of that waiter and of no other |
| Permissions.KeyIsInjective | crates/acp-bridge/src/permission.rs:115-116 | so are the waiter keys |
| Permissions.AnswerOne | crates/acp-bridge/src/permission.rs:88-101 | a pending waiter has no answer yet, and answering it leaves the others as they are |
| Permissions.PermissionBroker.Rpc | crates/acp-bridge/src/permission.rs:114-134 | the new key is fresh, so no waiter is overwritten; one request is sent under it |
| Permissions.PermissionBroker.Complete | crates/acp-bridge/src/permission.rs:88-101 | exactly the waiter under that key is answered, a late or unknown reply changes nothing |
| Permissions.PermissionBroker.CancelAll | crates/acp-bridge/src/permission.rs:103-112 | every waiter registered so far has its answer, earlier answers stand |
| ToolCalls.PendingCalls.PushToolCallId | crates/acp-bridge/src/wire.rs:135-139 | pushes on the stack of its name, every other stack unchanged |
| ToolCalls.PendingCalls.PopToolCallId | crates/acp-bridge/src/wire.rs:142-148 | pops the stack of its name, an orphan id exactly when it is empty |
| ToolCalls.RemoveTop | crates/acp-bridge/src/wire.rs:142-148 | removing the last entry of a name from the flat list pops that stack and no other |
| ToolCalls.RunCalls | crates/acp-bridge/src/wire.rs:135-148 | any interleaving of starts and finishes gets the ids that independent stacks would give |
| SessionStore.RecordsOfSingleNames | crates/acp-bridge/src/session_store.rs:108-135 | exactly the ids that are a single file name are taken, each with its own `.json` file |
| SessionStore.TempPathIsRecordPathTmp | crates/acp-bridge/src/session_store.rs:132-156 | replacing the extension yields the record's name plus `.tmp`, dots in the id included |
| SessionStore.PathsAreApart | crates/acp-bridge/src/session_store.rs:108-135 | different ids have different record files, and no record file is a temporary file |
| SessionStore.Store.Save | crates/acp-bridge/src/session_store.rs:150-166 | with a crash or failure at any step, the whole record is committed exactly when the rename was reached; a reported failure leaves every record as it was |
| SessionStore.Store.Load | crates/acp-bridge/src/session_store.rs:172-183 | always the whole record of the last completed rename, never a torn one |
| SessionStore.Store.AppendMessages | crates/acp-bridge/src/session_store.rs:189-208 | the transcript grows by this turn's non-empty messages exactly when the rename was reached; other ids are unaffected, and a reported failure leaves all as it was |
| SessionStore.TurnLaw | crates/acp-bridge/src/session_store.rs:194-205 | a turn adds what the user said and then what the assistant said, and nothing for an empty text |
| SessionStore.Store.UpdateMode | crates/acp-bridge/src/session_store.rs:213-221 | only mode and time change, only of that record, exactly when the rename was reached |
| SessionStore.Store.UpdateModel | crates/acp-bridge/src/session_store.rs:226-234 | only model and time change, only of that record, exactly when the rename was reached |
| SessionStore.Run | crates/acp-bridge/src/session_store.rs:189-234 | after any run with any crashes each record is the one before with exactly the operations applied whose rename was reached; no session comes or goes and transcripts are only extended |
| SessionStore.RecordsAreIndependent | crates/acp-bridge/src/session_store.rs:189-234 | operations on other ids leave no trace in a record |
| SessionStore.TranscriptsOnlyGrow | crates/acp-bridge/src/session_store.rs:189-234 | whatever is done to a record, and wherever it dies, its transcript continues the one before |
| Query.TokenizeLiteral | crates/chat-search/src/query.rs:77-112 | the nested cursor loops compute the recursive tokenizer |
| Query.TakePhrase | crates/chat-search/src/query.rs:88-97 | text up to the closing quote, or to the end |
| Query.TakeWord | crates/chat-search/src/query.rs:98-109 | text up to whitespace, never empty |
| Query.ParseLiteral | crates/chat-search/src/query.rs:35-41 | an error exactly when there is no token |
| Query.TokensAreNotEmpty | crates/chat-search/src/query.rs:77-112 | no token is empty |
| Query.PrintedTermsComeBack | crates/chat-search/src/query.rs:77-112 | terms printed quoted, or bare where possible, with any blanks around and between, tokenize to themselves, lower-cased |
| Query.QuoteCases | crates/chat-search/src/query.rs:88-97 | quotes around nothing give no token, and a quote that is not closed takes the rest |
| Query.WidthIsEncodedWidth | crates/chat-search/src/query.rs:63-72 | widths are those of the UTF-8 encoding |
| Query.MatchLaw | crates/chat-search/src/query.rs:53-58 | a query matches if and only if every term is a substring of the folded text |
| Query.OccursLaw | crates/chat-search/src/query.rs:53-69 | a term occurs where it stands between two parts of a text, and nowhere else |
| Query.StartLaw | crates/chat-search/src/query.rs:64-69 | the start is the least byte offset, in the folded text, of any occurrence of any term, missing if and only if no term occurs |
| Query.StartIsOffsetInText | crates/chat-search/src/query.rs:63-72 | the start is the byte offset of the first match in the text itself if and only if folding keeps the total width of the text in front of that match |
| Query.OffsetsAgree | crates/chat-search/src/query.rs:63-72 | all offsets agree exactly when folding keeps every character's width; then the start is the byte offset of the first match in the text, for every query |
| Query.StartAfterKelvinSign | crates/chat-search/src/query.rs:63-72 | an input where they are not |
| PeerSet.ValidateDesired | crates/bootstrap/src/mcp_apply.rs:159-203 | accepts exactly distinct non-blank names whose enabled entries have something to run or call, and otherwise names the fault of the first entry that has one |
| PeerSet.AcceptableLaw | crates/bootstrap/src/mcp_apply.rs:159-203 | acceptable field by field: a blank name, command, url or image of an enabled entry, or a second use of a name, is not |
| PeerSet.BuildConnectors | crates/bootstrap/src/mcp_apply.rs:205-233 | one connector per desired name, built from that entry |
| PeerSet.Live.SyncCatalogToDesired | crates/bootstrap/src/mcp_apply.rs:257-267 | the catalog becomes the desired set; at each step a name without connector is one being removed |
| PeerSet.Live.ApplyMcpPeerSet | crates/bootstrap/src/mcp_apply.rs:115-157 | a rejection changes nothing; success makes both sets the enabled names, with (previous + added) - removed = enabled; the exact set of stranded names after the first swap |
| PeerSet.ApplyAll | crates/bootstrap/src/mcp_apply.rs:115-157 | after any sequence of requests both sets are those of the last accepted one |
| PeerSet.DesiredAreTheEnabled | crates/bootstrap/src/mcp_apply.rs:122-123 | the desired entries are all and only the enabled ones |
| BranchCleaner.TagsAreDistinct | scripts/cleanup_merged_branches.py:197-202 | different scopes, branches or commit prefixes have different archive tags, dashes and slashes in names included |
| BranchCleaner.TagRefLaw | scripts/cleanup_merged_branches.py:199-202 | an archive tag spelled out |
| BranchCleaner.AuditTagsAreDistinct | scripts/cleanup_merged_branches.py:136-202 | no two candidates of one audit share a tag |
| BranchCleaner.SkippedMustStay | scripts/cleanup_merged_branches.py:147-171 | a listed ref is skipped exactly when, spelled out, it is the remote's HEAD or a protected or checked-out branch, here or on the remote |
| BranchCleaner.CandidateRefs | scripts/cleanup_merged_branches.py:147-178 | a candidate's ref is its branch under `refs/heads/` or under `refs/remotes/` and the remote's name, and is neither main nor master nor HEAD of either |
| GitRepo.Repo.DeleteLocal | scripts/cleanup_merged_branches.py:225 | `git branch -D` takes the branch as the command meets it, wherever it points |
| GitRepo.Repo.DeleteRemote | scripts/cleanup_merged_branches.py:214-219 | under the lease a remote branch goes only at the expected commit |
| GitRepo.Repo.SafeReason | scripts/cleanup_merged_branches.py:85-103 | a ref that passes is judged at the commit it has when the deciding command runs |
| BranchCleaner.Cleaner.Place | scripts/cleanup_merged_branches.py:147-163 | one ref goes into exactly one list: skipped if untouchable, kept if unmerged, else a candidate for its own branch; the commit it carries is read after the content check, and both the commit judged and the commit read are given |
| BranchCleaner.Cleaner.AuditScope | scripts/cleanup_merged_branches.py:147-179 | each listed ref is in exactly one of the three lists, for the reason that list stands for |
| BranchCleaner.Cleaner.AuditAll | scripts/cleanup_merged_branches.py:136-180 | all local refs, and the remote's unless told otherwise, are sorted: candidates were found merged and seen, kept refs were found unmerged, and exactly the refs that must stay are skipped; protected are main, master and the remote's head; candidates have different refs; nothing is deleted |
| BranchCleaner.Cleaner.RecheckOne | scripts/cleanup_merged_branches.py:187-195 | success means that the ref held the audited commit and passed the content check at the commit it had when that was decided |
| BranchCleaner.Cleaner.Recheck | scripts/cleanup_merged_branches.py:182-195 | success means every candidate held its commit when it was seen again, passed the content check at the commit it had by then, and was not among the branches checked out; nothing is deleted |
| BranchCleaner.Cleaner.Archive | scripts/cleanup_merged_branches.py:197-209 | success means every candidate's exact commit is or was found under its tag; nothing is deleted |
| BranchCleaner.Cleaner.DeleteOne | scripts/cleanup_merged_branches.py:213-228 | a remote branch goes at its audited commit; a local one was seen there and goes as the next command meets it |
| BranchCleaner.TakenAtAuditedCommit | scripts/cleanup_merged_branches.py:221-225 | a branch goes away at its audited commit if and only if nobody moved it between the last check and the deletion |
| BranchCleaner.Cleaner.Delete | scripts/cleanup_merged_branches.py:211-230 | succeeds if and only if exactly the candidates went away, in order |
| BranchCleaner.Cleaner.Apply | scripts/cleanup_merged_branches.py:281-284 | before the first deletion every candidate was rechecked, seen not to be checked out and, with archiving on, archived; else nothing is deleted |
| BranchCleaner.Cleaner.Command | scripts/cleanup_merged_branches.py:266-289 | the log of the whole command is orderly with refs moving before any git command: nothing is deleted up to the end of the audit, the candidates are those vetted there, and a dry run or a failed stage deletes nothing |
| BranchCleaner.EveryDeletionIsPrepared | scripts/cleanup_merged_branches.py:266-289 | in an orderly log each deletion is of a vetted candidate whose ref, spelled out, is no protected or checked-out branch, after all candidates were rechecked and, with archiving on, their exact commits tagged; the audit and the recheck each judged that commit if and only if nobody moved the ref between check and reading; the deletion takes it if and only if nobody moved the branch after the last check |
| BranchCleaner.UnjudgedWasMovedTwice | scripts/cleanup_merged_branches.py:147-195 | a commit that no content check judged was moved away from in the audit and again in the recheck |
| BranchCleaner.MovedBeforeItsDeletion | scripts/cleanup_merged_branches.py:221-225 | a run that deletes a local branch at any other commit |
| BranchCleaner.TakenWithoutBeingJudged | scripts/cleanup_merged_branches.py:147-225 | a run of the audit, the recheck and the deletion of one branch that deletes a commit no content check judged |

## Left out

- Listing, the usage tool, sorted output and the text of I/O errors.
- HTTP, address and URL validation, redirects: a download starts from a response that is refused or has a body.
- Opening a workspace: agent ids and their hash, the identity marker, the lock file. Each operation runs alone.
- Workspace.AgentWorkspace.constructor: `files` lies anywhere below the home directory but not at or below the incoming
  file. Opening also accepts a `files` that is a link to the home directory itself; the incoming file would then lie
  inside `files` and be counted, and is not modelled there.
- Windows: junctions, verbatim paths with dot names, a rename that refuses an existing destination. The check for dot
  names in `require_plain_dest` is always passed here, because a tool path never yields such a name.
- Errors from permissions, full disks and failing devices on the workspace's disk. A call fails only for what the tree holds.
- Kernel.RenameCall: refuses to move a directory, because nothing here moves one.
- Boundaries of UTF-8 sequences between chunks of the event stream: text arrives as characters, so a sequence split
  over two chunks is not modelled.
- JSON encoding of messages and records: a session file is a whole record or torn bytes, a message is its parts. A line
  that does not parse gets no JSON-RPC error response, as in the code.
- Cooperative cancel signals, the session map and the handlers of requests other than `session/prompt`, whose answers are parameters.
- A failing output sink, and a permission request made while no output is bound.
- Counter wrap-around of the permission ids, and parking a turn for a human and resuming it.
- Permissions.IdKey: numbers are integers; a fractional number is printed text like any other value.
- Fresh short ids for tool calls: they are parameters, and the theorems hold for repeated ones too.
- Two processes writing the same session record at once.
- SessionStore.Store.Save: crashes are those of the process. A power loss that keeps the rename and loses the write
  before it, which is not synced, is not modelled.
- Regular expression queries and snippets. Case folding works character by character and keeps their number, which full
  Unicode folding does not.
- Descriptors and connectors beyond the entry they are built from, sorting in the peer set report.
- GitRepo.Repo.DeleteRemote: a push that exits with an error is taken to have changed nothing. A server that deletes the
  branch and then loses the connection is not modelled.
- Git itself: the answers to its commands are arbitrary, with refs, branches and checkouts free to change before each
  one. The base is not tracked as a ref. Printing and argument parsing.
