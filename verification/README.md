# FSP verified

FSP, the Forward Snapshot Protocol, sends a directory tree as one byte stream. A sender walks the tree and
writes header lines, then per directory a line and batches of files, each batch in three phases: what is coming,
the data, and the hashes. A receiver parses the stream into temporary files, cross-checks the hashes and moves
each file to its final place in one rename, under one of three modes: append (existing files win), force
(snapshot files win), safe (existing files must be identical).

This project models the sender, the stream, the receiver and the destination file system together, so that what
is proved is about whole transfers, and proves it with Dafny. `dafny verify dfyconfig.toml` checks all of it.

The main results:

* **Whole transfers.** The sender as written, piped into the receiver as written, leaves exactly the overlay the
  mode promises, and the totals counted on both sides are the announced ones. Wherever the pipe breaks, exactly
  the files whose hash records got out lie over the old ones, up to the first that safe mode blocks, and END is
  reported only when all of them do (`Pipeline.TransferOver`, `Transfer.EndToEnd`, `Transfer.CutOff`).
* **Any byte stream.** At every moment of every run, on any bytes whatever, each final path is as it was or holds
  a complete content which one batch of that very run announced, received in full and confirmed, as one and the
  same entry, under that name and while that directory was in force (`Safety.AtomicCommit`).
* **What a failed transfer leaves.** A temporary stays behind if and only if the last byte read lies, in some batch,
  after the first file's data and before the end of the last hash record (`Transfer.CutOff`).
* **One stream per tree.** The bytes sent do not depend on the order directories are read in, on how reads and
  writes are split, or on where buffers fill up, and nothing but a fault, a failed descriptor or a path too long keeps
  them from being sent in full (`Walking.Walker.Send`). Which files they carry, and in which order, is said without
  the walk (`WalkOrder.SentIffInReach`, `WalkOrder.SentInOrder`).
* **Four loops, one digest.** The C sender, the C receiver, the safe-mode verifier and the Android sender compute
  the same chunk hashes and the same root for every content and every way the reads are split.
* **Batching.** The C batches respect the limits and are as few as possible; the Android batcher yields the same,
  except for a leading empty batch, which the receiver rejects, exactly when the first file alone is over the limit.

## How it is built

`Protocol` gives the receiver as a value (`Rx`), one `Step` of it, and whole runs (`Run`). `Snapshot` gives the
bytes of a plan (directories and batches) and the effect a plan should have; `Trees` gives the plan of a tree;
`Landings` says what a cut at each place of a plan's bytes amounts to.
The theorems about all runs, all trees and all prefixes are lemmas about these functions. The programs
themselves are classes and methods with the loops and fields of the source (`Receiving.Receiver`,
`BufWriting.BufWriter`, `Sending`, `Walking.Walker`, `ChunkTables.ChunkTable`, the verifiers in `SafeMode`, the
Android loops in `AndroidSending` and `Batching`), each proved against those functions, so that the theorems
apply to them.

SHA-256 is any function from byte strings to 32 bytes; nothing assumes that it is injective, which no such
function is: where contents are compared by hash, the statement says "or the hash collides on strings that were
hashed". The chunk size, buffer sizes and batch limits are parameters. A read returns any number of bytes up to
the number asked for, a write takes any number from one on or fails. Whether opening and reading may fail at all is a
parameter (`faulty`), and so is whether the descriptor may (`reliable`). The names that `mkstemp` will draw are a
given list (`tape`).

Where code and documentation differ, the model follows the code:

* Safe mode is documented to skip identical files (README.md:109-113). An existing *empty* file is compared with
  the all-zero placeholder, since its data phase is skipped, and aborts the transfer
  (`SafeMode.IdenticalIsSkipped` says exactly when the documentation is right, `SafeMode.EmptyFileRejected` gives
  a case where it is not, `Transfer.SafeNeedsIdentical` what it means for a transfer).
* The documentation promises that no partial files are left behind (README.md:131, doc/design.md:40 and 72). Final
  paths are protected, but after a failed transfer temporary files may remain. `Transfer.TemporaryLeftBehind` is a
  snapshot and a cut of its stream that leave one, `Transfer.SomeCutLeaves` such a cut for every snapshot with a file;
  `Transfer.CutOff` says for every cut whether one is left, `Transfer.BlockedLeaves` the same for a transfer that safe
  mode stops: the promise holds there if and only if the blocked file is the last of its batch.
* A blank line between batches ends the receiver as successfully as END does (src/fsp_rx.c:221-227): an outcome
  `Exited` with `sawEnd` false. `Delivery.ExitsExactly` says that nothing but such a line does that. No prefix of a
  sender's stream contains one (`Transfer.CutOff`).
* The writes of the version and mode lines and of END go unchecked (src/fsp_walk.c:71-89, src/fsp-send.c:206-208).
  Failures of the first two are noticed at the next line; END may be lost on a run that reports success.
  `Walking.Walker.Send` says exactly this: success means everything before END is out, and END too if and only if the
  descriptor has not failed. Every file is laid all the same (`Pipeline.TransferOver`).

## Model

| member | source | states |
|---|---|---|
| `Pipeline.TransferOver` | src/fsp-send.c:190-212 | sender piped into receiver, over every directory order, split of reads and writes and failure: exactly the files whose hash records got out are laid, up to the first that safe mode blocks; a reported success means all of them are laid (even if END is lost) unless safe mode objects, and with END out the receiver reports END with the mode's overlay and equal totals on both sides; with no fault in reading, paths that fit and a descriptor that does not fail, the sender does report success |
| `Transfer.EndToEnd` | src/fsp_rx.c:1122-1154 | the run on the sender's exact bytes ends at END with exactly the mode's overlay and the announced totals if safe mode accepts every existing counterpart; if not it fails with exactly the files before the first blocked one laid |
| `Transfer.BlockedLeaves` | src/fsp_rx.c:1071-1077 | a transfer that safe mode stops leaves a temporary behind if and only if the blocked file is not the last of its batch |
| `Transfer.SomeCutLeaves` | src/fsp_rx.c:674-681 | every snapshot with a file has a cut of its stream that leaves a temporary behind |
| `Transfer.TemporaryLeftBehind` | src/fsp_rx.c:674-681 | a concrete snapshot, and a cut of its stream after which a temporary is left |
| `Transfer.CutOff` | src/fsp_rx.c:934-1116 | for every byte prefix of a tree's stream: which files are laid (those whose hash record arrived, up to the first blocked), when END is reported (nothing blocked and at most the last newline missing), when a temporary is left (if and only if the last byte read lies after the first file's data and before the last hash record's end of a batch), and that no total ever exceeds the announced one |
| `Transfer.SafeNeedsIdentical` | src/fsp_rx.c:1059-1078 | without collisions a safe transfer goes through if and only if every existing counterpart is identical and non-empty |
| `Transfer.WalkTotals` | src/fsp_walk.c:223-225 | the files and bytes the plan of a tree carries are those the dry run counts |
| `Wire.DeepStream` | src/fsp_walk.c:67-113 | the stream of a snapshot of two files in a nested directory, byte for byte, in each mode |
| `Wire.HashRecordExactly` | src/fsp_file_processor.c:218-334 | what the hash record of a file carries, slice by slice |
| `Safety.AtomicCommit` | src/fsp_rx.c:934-1091 | on any stream, after any number of steps, every non-temporary path is unchanged, a new directory on the way to one that a line read by this run announced, or a complete content that one batch of this run announced, received in full and confirmed as the same entry, under that name and with that directory in force; existing files change in force mode only |
| `Safety.RunIsSound` | src/fsp_rx.c:1059-1090 | the same for what a whole run leaves; in append and safe mode nothing that existed is touched |
| `Safety.StepKeepsInv` | src/fsp_rx.c:1122-1154 | every step keeps the receiver's invariant: bounds, the moment each entry of the batch was announced and received, complete pending temporaries with distinct names, sound destination |
| `Safety.ReachableShape` | src/fsp_rx.c:301-319 | in every reachable state the count is at most 1024 and within the capacity, nothing counts as received inside a batch, and the states EXPECT_DIR and EXPECT_FILE_LIST do not occur |
| `Safety.RenamedWasFilled` | src/fsp_rx.c:1043-1091 | in every reachable state before a commit the temporary exists, and unless append mode is to discard it, it holds in full the data that this batch's data phase took for this entry: the two existence checks agree, duplicates included |
| `Safety.UnreadIsTail` | include/fsp_rx.h:109-118 | what a run has still to read is at every moment a tail of its stream |
| `Protocol.StepProgress` | src/fsp-recv.c:190-194 | every step that continues consumes bytes, or moves to a later state, or to a later entry: the driver loop stops on every stream |
| `Protocol.HandlerThenRun` | src/fsp_rx.c:1122-1154 | a handler that loops over a whole phase followed by the rest of the run is the run step by step |
| `Protocol.RunIsAfter` | src/fsp-recv.c:190-194 | every run is a finite number of steps |
| `Delivery.HeaderRun` | src/fsp_rx.c:101-181 | the four header lines of a sender bring the receiver to the idle state with mode and totals |
| `Delivery.Delivered` | src/fsp_rx.c:1122-1154 | on the bytes of any transferable plan the run reaches END with the deployed destination and the plan's totals, or safe mode gives up with the files deployed so far |
| `Delivery.PlanDeployed` | src/fsp_rx.c:1059-1090 | deploying a plan file by file is the overlay path by path, directories included, and succeeds if and only if every existing counterpart is accepted |
| `Delivery.HashCountUncompared` | src/fsp_rx.c:704-716 | any count up to 1024 opens the hash section, whatever the batch; a larger one is an error |
| `Delivery.ExitLines` | src/fsp_rx.c:221-264 | on END and on a blank line the receiver leaves without error, the first with END seen, the second without |
| `Delivery.ExitsExactly` | src/fsp_rx.c:221-264 | from any state on any stream the receiver leaves without error with END seen if and only if it comes to a line END, and without if and only if it comes to a blank line |
| `Refusals.VersionExactly` | src/fsp_rx.c:101-119 | of the versions that can be printed in 64 bits only 0 and, since the number is cut to 32 bits, the multiples of 2^32 below 2^63 are accepted; on any other the run fails with nothing touched |
| `Refusals.ModeExactly` | src/fsp_rx.c:121-143 | the mode line is accepted if and only if its word is one of the three, and sets that mode; on any other word the run fails with nothing touched |
| `Refusals.BatchCountExactly` | src/fsp_rx.c:289-329 | a batch of 1 to 1024 files is opened with that count; a count of 0 or above 1024 ends the run with nothing changed |
| `Refusals.UnknownLineRefused` | src/fsp_rx.c:266-268 | between batches any other line than a blank one, DIRECTORY, FILE_LIST and END ends the run with nothing changed |
| `Refusals.LongNameRefused` | src/fsp_rx.c:345-349 | a name longer than 255 bytes ends the run, announced or confirmed |
| `Refusals.ConfirmedExactly` | src/fsp_rx.c:957-1026 | the one hash record that lets a received file be committed is the true one (name, length, digest unless empty, table); any other ends the run with nothing changed |
| `RoundTrip.SyncedRun` | src/fsp_rx.c:331-717 | from any synchronised position of sender and receiver the run deploys what is still ahead |
| `RoundTrip.TotalsKept` | src/fsp_rx.c:1109-1110 | each step keeps the sum of what was counted and what is still ahead |
| `Truncation.CutStep` | include/fsp_rx.h:109-118 | a receiver that has a prefix of the remaining stream takes the same step if the prefix holds the next item, and starves if not |
| `Truncation.DryRun` | include/fsp_rx.h:81-99 | a run with nothing left to read neither reports END nor changes a regular file |
| `Truncation.Truncated` | src/fsp_rx.c:934-1116 | truncation for every transferable plan: files laid, END, temporaries left and totals, exactly, for every cut |
| `Landings.LandsPlainly` | src/fsp_rx.c:617-1116 | what a cut amounts to, computed along the plan, is what the places of data and hash records say |
| `Landings.ReachedIs` | src/fsp_rx.c:938-1107 | the files counted as reached are those whose record ends at or before the cut |
| `Landings.FirstBlockedIs` | src/fsp_rx.c:1059-1078 | with no path sent twice, the file that stops the run is the first that safe mode rejects in the destination as it was |
| `Landings.OpenAtEnd` | src/fsp_rx.c:1071-1077 | where a file's record ends its batch still holds temporaries unless the file is its last |
| `Snapshot.OverlayAt` | src/fsp_rx.c:1059-1090 | laying distinct files one after the other means, path by path, what the mode says |
| `Codec.RecordRoundTrip` | src/fsp_rx.c:331-420 | decoding an encoded record followed by anything gives the record and exactly the rest |
| `Codec.RecordLayout` | src/fsp_file_processor.c:381-409 | the record byte by byte: where each field lies, and each number with its most significant byte first |
| `Codec.DecodeExactly` | src/fsp_rx.c:334-402 | on any bytes: a record is read if and only if the name length is at most 255 and all fields are there, and which bytes make which field |
| `Codec.TruncatedRecord` | src/fsp_rx.c:339-397 | a strict prefix of a record never decodes |
| `Codec.DecodeExtends` | include/fsp_rx.h:109-118 | a decoded record does not depend on what follows it |
| `Codec.EncodingsPrefixFree` | src/fsp_file_processor.c:381-409 | equal numbers of records whose encodings agree with continuations are the same records with the same continuation |
| `Bytes.LineFramed` | include/fsp_rx.h:81-99 | a line is read whole with its newline if and only if it fits the buffer; of a longer one the rest stays in the stream |
| `Bytes.LineAtEnd` | include/fsp_rx.h:87-98 | a last line without newline is still read, and empties the stream |
| `Bytes.HeaderRoundTrip` | src/fsp_rx.c:153-158 | a printed 64-bit count is scanned back exactly |
| `Bytes.DecLength64` | src/fsp_walk.c:91-99 | a 64-bit count prints in at most 20 digits |
| `Bytes.BigEndianRoundTrip` | src/fsp_rx.c:343-364 | a number that fits its field is read back exactly as it was written |
| `Bytes.BigEndianDigits` | src/fsp_file_processor.c:391-399 | the bytes written for a number are its digits in base 256 by place value, the most significant first |
| `Bytes.FromBigEndianSplit` | src/fsp_rx.c:343-364 | the number read from two byte strings in a row is the first's, times 256 to the length of the second, plus the second's; one byte is its own value |
| `Bytes.DecDigits` | src/fsp_walk.c:91-107 | a count prints as its decimal digits by place value, the most significant first |
| `Bytes.DecWhole` | src/fsp_walk.c:91-107 | no digit is missing and no zero precedes them |
| `Digests.ChunkAt` | src/fsp_file_processor.c:269-273 | chunk j is the slice of the chunk size starting at j times that size, cut at the end |
| `Digests.ChunkCount` | src/fsp_file_processor.c:237-252 | there are ceil(size / chunk) chunks |
| `Digests.ChunksRejoin` | src/fsp_file_processor.c:269-324 | the chunks in a row are the content |
| `Digests.SameDigestSameContent` | src/fsp_rx.c:1059-1078 | equal lengths, tables and digests mean equal contents, or a collision among the strings hashed |
| `SafeMode.VerifySmall` | src/fsp_rx.c:719-788 | accepts if and only if the file can be read, has not become shorter, and its size and hash are the entry's, however reads are split |
| `SafeMode.VerifyChunked` | src/fsp_rx.c:790-932 | accepts if and only if the file can be read, has not become shorter, and its size, every chunk hash, their number and the root are the entry's |
| `SafeMode.HashChunk` | src/fsp_rx.c:846-870 | the inner read loop hashes exactly the chunk, or reports a failed read or an early end |
| `SafeMode.RootNeverRejects` | src/fsp_rx.c:910-921 | once all chunks match an entry the receiver built, the root comparison accepts |
| `SafeMode.VerdictExact` | src/fsp_rx.c:1063-1078 | for a non-empty file the verdict is equality of length and digests; acceptance means equal contents unless the hash collides |
| `SafeMode.EmptyFileVerdict` | src/fsp_rx.c:667-682 | for an empty file only an empty file is accepted, and only if the hash of the empty string is all zero |
| `SafeMode.IdenticalIsSkipped` | src/fsp_rx.c:1063-1078 | an identical file is accepted if and only if it is not empty (or that hash is all zero) |
| `SafeMode.EmptyFileRejected` | src/fsp_rx.c:787-787 | a concrete identical empty file that is rejected |
| `Receiving.Receiver.ReadLineInto` | include/fsp_rx.h:81-99 | the byte loop reads the line the specification reads |
| `Receiving.Receiver.ReadFull` | include/fsp_rx.h:109-118 | reads exactly n bytes in any number of reads, or fails |
| `Receiving.Receiver.ReadRecord` | src/fsp_rx.c:334-402 | field by field, the record the codec decodes |
| `Receiving.Receiver.MakeDirs` | src/fsp_rx.c:185-210 | creates the missing ancestors outermost first, keeping those made before a failure; it is the function whose success `FileSystem.MkdirPExactly` determines |
| `Receiving.Receiver.HandleIdle` | src/fsp_rx.c:214-269 | blank line, DIRECTORY, FILE_LIST, END or error, as one step |
| `Receiving.Receiver.HandleFileCount` | src/fsp_rx.c:288-329 | starts a batch of at most 1024 files |
| `Receiving.Receiver.HandleMetadata` | src/fsp_rx.c:331-420 | the loop over the records is the metadata steps |
| `Receiving.Receiver.ReceiveChunked` | src/fsp_rx.c:493-615 | hashes and stores the data chunk by chunk: the chunk list of the data and its root |
| `Receiving.Receiver.Receive` | src/fsp_rx.c:424-490 | hashes and stores the data of a small file |
| `Receiving.Receiver.ReceiveEntry` | src/fsp_rx.c:630-683 | one entry of the data phase as one step: existence check, temporary, data |
| `Receiving.Receiver.HandleFileData` | src/fsp_rx.c:617-695 | slices of 32 read the stream and fill temporaries as one pass in order; never more than 32 files have been open at once, none is on success; an empty batch fails |
| `Receiving.Receiver.HandleHashCount` | src/fsp_rx.c:697-717 | the count is parsed and bounded, not compared |
| `Receiving.Receiver.CommitEntry` | src/fsp_rx.c:1043-1090 | discard, verify or rename, as the mode says |
| `Receiving.Receiver.HandleFileHashes` | src/fsp_rx.c:934-1116 | cross-checks and commits entry by entry, then adds to the total |
| `Receiving.Receiver.ProcessLine` | src/fsp_rx.c:1122-1154 | one call of the dispatcher is one call of the specification |
| `Receiving.Receiver.Drive` | src/fsp-recv.c:190-194 | the driver loop terminates where the run of the protocol ends, with never more than 32 output files open |
| `ChunkTables.ChunkTable.Append` | src/fsp_rx.c:574-592 | appends one hash within the capacity, doubling it (sixteen at first) and keeping all earlier hashes |
| `BufWriting.BufWriter.Flush` | include/fsp_buf_writer.h:40-52 | empties the buffer in any number of partial writes; a failure leaves a strict prefix written |
| `BufWriting.BufWriter.Push` | include/fsp_buf_writer.h:55-73 | bytes written and buffered together are everything pushed; the buffer never overflows; a failure leaves a strict prefix written |
| `Sending.SendEntry` | src/fsp_file_processor.c:381-409 | pushes exactly the encoding of the record |
| `Sending.SendSmallFile` | src/fsp_file_processor.c:132-204 | pushes the content and hashes it whole, unless a read or the descriptor fails |
| `Sending.SendBigFile` | src/fsp_file_processor.c:218-334 | pushes the content and stores one hash per chunk of the recorded size, never past the allocation, even if the file has changed length |
| `Sending.PiecesCount` | src/fsp_file_processor.c:237-324 | the loop takes exactly ceil(size / chunk) pieces whatever the file holds |
| `Sending.PiecesAreChunks` | src/fsp_file_processor.c:269-324 | for an unchanged file the pieces are its chunks |
| `Sending.SendBatch` | src/fsp_file_processor.c:461-573 | the three phases push exactly the bytes of the batch, or a prefix of them reaches the wire; it fails only on a failed read, a failed descriptor or a file path too long, and always on the last |
| `Sending.ProcessDirectory` | src/fsp_file_processor.c:414-592 | pushes the directory line and its greedy batches, totals never exceeding those of the files; it fails only on a failed read, a failed descriptor or a path too long |
| `Batching.BuildBatch` | src/fsp_file_processor.c:442-459 | the inner loop finds the length of the greedy batch |
| `Batching.BatchesValid` | src/fsp_file_processor.c:442-459 | the batches partition the files in order within both limits, single files excepted |
| `Batching.GreedyOptimal` | src/fsp_file_processor.c:442-459 | no ordered partition within the limits has fewer batches |
| `Batching.CreateBatches` | android/app/src/main/java/com/chopchop3d/fspsender/dfs/DirectoryScanner.kt:251-281 | the one-pass batcher yields the greedy batches, after an empty one if the first file alone is over the limit |
| `AndroidSending.OnePassIsGreedy` | android/app/src/main/java/com/chopchop3d/fspsender/dfs/DirectoryScanner.kt:263-270 | it yields the same batches as the C sender if and only if there is no such file |
| `AndroidSending.OversizeFirstRejected` | src/fsp_rx.c:619-619 | sending that empty batch makes the receiver give up |
| `AndroidSending.SendFileDataChunk` | android/app/src/main/java/com/chopchop3d/fspsender/dfs/DirectoryScanner.kt:402-470 | sends the content and computes its chunk hashes and root, although reads do not stop at chunk boundaries |
| `Names.AtMostExactly` | src/fsp_walk.c:131-143 | the order of names without its recursion: a prefix first, otherwise the smaller byte at the first difference |
| `Names.SortIsCanonical` | src/fsp_walk.c:131-143 | there is one sorted listing of a set of distinct names |
| `Trees.WalkGood` | src/fsp_walk.c:287-341 | every command of a good tree's plan is one the protocol can carry |
| `Trees.WalkOrdered` | src/fsp_walk.c:276-341 | every batch follows the line of its own directory |
| `Trees.SentIsVisible` | src/fsp_walk.c:276-341 | everything the plan sends is a file of the tree at that path, with its content |
| `Trees.VisibleIsSent` | src/fsp_walk.c:276-341 | every file of the tree that the walk reaches is sent |
| `WalkOrder.VisibleExactly` | src/fsp_walk.c:228-229 | the files the walk reaches from a given depth are those of the tree at most one level below the limit, and those of the starting directory; all of them without a limit |
| `WalkOrder.SentIffInReach` | src/fsp_walk.c:228-229 | a path is sent if and only if it is a file of the tree with at most as many directories above it as the limit says (any number without a limit) |
| `WalkOrder.SentInOrder` | src/fsp_walk.c:255-341 | of any two files sent the earlier one precedes, and only it: a directory's files before anything below it, files by name, subdirectories by name |
| `WalkOrder.PrecedesOneWay` | src/fsp_walk.c:131-143 | no two paths precede each other, so the order leaves one sequence |
| `WalkOrder.TotalsAreSent` | include/fsp_dry_run.h:80-89 | the totals of a plan are the number and the sizes of the files it sends |
| `Trees.WalkDistinct` | src/fsp_rx.c:634-639 | no destination path is sent twice |
| `Trees.CommandHasFile` | src/fsp-send.c:20-21 | only directories with files are announced |
| `Trees.DirCommandsSent` | src/fsp_file_processor.c:442-459 | however a directory is batched, its files are sent in order, each once |
| `FileSystem.ComponentsOfJoin` | src/fsp_rx.c:196-204 | the receiver's directories are those the walker joined |
| `FileSystem.MkdirPExactly` | src/fsp_rx.c:185-210 | where every node lies in a directory, making a path succeeds if and only if no proper prefix of it is a file |
| `FileSystem.MkdirPSucceeds` | src/fsp_rx.c:185-210 | when no prefix of the path is a file, making it leaves all of them directories |
| `FileSystem.MkdirPAdds` | src/fsp_rx.c:196-207 | making a path only adds directories, namely missing ancestors |
| `FileSystem.PathJoinExactly` | include/fsp_walk.h:215-240 | two path parts are joined with one slash if and only if the result fits its buffer |
| `Rooted.StaysTree` | src/fsp_rx.c:1122-1154 | at every moment of every run, on any stream, every node of the destination lies in a directory |
| `Rooted.DirectoryAccepted` | src/fsp_rx.c:229-250 | a directory line read at any moment of any run is accepted if and only if no proper ancestor of the directory is a file; otherwise the receiver gives up |
| `Walking.SizeToBucket` | include/fsp_dry_run.h:44-69 | the first bucket whose limit holds the size |
| `Walking.BucketTable` | include/fsp_dry_run.h:46-62 | the fifteen bucket limits |
| `Walking.DryRun.AddFile` | include/fsp_dry_run.h:80-89 | counts the file and its size, adds one to the first bucket whose limit holds the size and to no other, and keeps the buckets adding up to the file count |
| `Walking.RelativeFits` | src/fsp_walk.c:289-325 | if the absolute path of a subdirectory fits, so does the relative one, and both are those of the child: the error return that would leave the absolute path moved on is never taken |
| `Walking.FullIsJoined` | include/fsp_walk.h:215-240 | the absolute path of a directory is the root, a slash and its names joined by slashes |
| `Walking.Walker.ReadDir` | src/fsp_walk.c:170-273 | in whatever order entries come, both lists are the sorted names, and the dry run counts each file, its size and each directory to be entered once |
| `Walking.Walker.Descend` | src/fsp_walk.c:287-341 | whatever happens below, both paths and the depth are restored, on success and on failure |
| `Walking.Walker.WalkDir` | src/fsp_walk.c:149-348 | a dry walk counts the files, bytes and directories of the tree; a real walk pushes exactly the bytes of its plan, or a prefix reaches the wire, with totals never above the tree's; without a fault or a failed descriptor a dry walk of paths that fit succeeds, and a real one succeeds if and only if all paths fit |
| `Walking.Walker.PushStrict` | src/fsp_walk.c:91-113 | pushes a header line of fewer than 128 bytes, or the descriptor has failed |
| `Walking.Walker.Send` | src/fsp_walk.c:17-127 | the whole sender: one stream per tree; dry-run counts equal to the totals sent; success means everything before END is out, and END if and only if the descriptor has not failed; it gives up only on a fault of the file system, a failed descriptor, a path too long or a total of 2^64, and on a path too long always; so on a reliable descriptor without faults the stream goes out in full |

## Left out

- SHA-256 itself: any 32-byte hash function, as said above.
- Progress bars, throughput and time estimates, reports, option parsing, exit codes of the processes.
- Failing allocations, and 64-bit wrap-around of a table size computed from an absurd chunk count.
- `fclose` errors, which the receiver ignores: data once accepted by `fwrite` counts as written. A failing `fwrite` takes the same exit as an early end of the stream.
- Paths are lists of names: `.`, `..`, names with slashes and the empty name (in the source the directory itself, which exists and cannot be renamed onto) are ordinary names, as are names sent by a hostile peer; the root of the destination is the empty list, and its directory exists. Cutting an over-long joined target directory is not modelled.
- `mkstemp` never draws a name that a file of the current batch has, and fails when its list of names runs out; a transfer assumes a list of fresh names.
- A directory where a snapshot file should go: the existence check sees it, safe mode rejects it whatever its size; the transfer theorems exclude it.
- Totals of 2^64 or more, which wrap around in the source: the sender's success and the header are stated below that.
- Symbolic links, special files and entries whose `lstat` fails are not part of a tree; permissions and owners are not transferred.
- A file that changes between the dry run, the walk and the read, except where `Sending.SendBigFile` says otherwise.
- A write that returns zero, which would make the flush loop forever, does not happen; a descriptor that failed once stays failed.
- Failing reads of an existing file in a running receiver: the verifiers model them (`SafeMode.VerifySmall`, `SafeMode.VerifyChunked`), the receiver's runs have none; they take the exit of a file that differs.
- The receiver reads a record in full before cross-checking it, where the source checks as it reads: the outcome is the same.
- `qsort` is an insertion sort: the result is the same for any sorting method (`Names.SortIsCanonical`).
- An out-of-range number in a header line is read as glibc's `sscanf` reads it.
- The receiver's directory before the first DIRECTORY line is arbitrary, as it is in the source.
- The Android walk over the document provider, its transport and its user interface; its small-file loop and record writer, which do what the C ones do.
- BufWriting.BufWriter.Flush: after a failure it says only what was written, not what the buffer then holds.
- Walking.Walker.Send: totals after a failure are bounded, not determined.
