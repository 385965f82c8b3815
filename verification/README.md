# Drive Update sample tools: a verified model

This project models, in Dafny, the parts of the Drive Update sample repository where the code has to
be right for reasons that no single function shows, and proves that it is:

- the **installer plugin** as a concurrent protocol: one installer thread, any number of DU Link
  callbacks, one mutex, one condition variable, a one-slot command mailbox, two run levels and a map of
  files with atomic rename (`InstallerProtocol`, `InstallerInvariants`, `InstallerZones`,
  `InstallerHistory`, `InstallerTheorems`, `InstallerSuccess`, `InstallerEdges`, with the fields and lock regions in
  `DuInstallers` and `SampleInstallers`, and the staged names in `Staging`); and its **Python twin**
  (`PyInstaller`);
- the **bit and integer algorithms** of `utils.h`: table-driven CRC-32 (`Crc32`, `Crc32Table`, on top of
  the general `ShiftRegisters`), time arithmetic at the 64-bit edge (`Timespecs`), printing and reading
  numbers (`Numerals`, `NumberText`, `NumberReading`), the hex codec (`HexText`) and bounded path
  joining on character arrays (`Paths`);
- the **chunked transfer**: range requests and their reading by section 14.1.2 of RFC 9110
  (`RangeRequests`), the remote provider with its retry budget and the copying reader (`Transfer`);
- the **du_cli flasher**: the payload format with its strict Python parser and its C pointer walk
  (`Payload`), the directory scan and the deploy loop (`Flasher`);
- the **push run** of the driveupdate plugin (`Push`).

`Text` and `Integers` hold what several of them share.

## How it is modelled

**The protocol** is a state machine of small steps. A program counter of the installer thread stands at
every lock region and in every gap between them, among them the gap inside `setState` between clearing
the mailbox and publishing the state; a callback's program counter stands between its update and its
signal. A run is any finite sequence of enabled steps: thread steps with any outcome of their outside
calls (failed or short reads, failed opens, writes, renames and notifications), callback steps, arrivals
of new callbacks and spurious wake-ups. Histories (commands accepted and parsed, errors since IDLE, the
last deploy, the files installed) are functions of the run. The same lock regions are methods of class
`DuInstaller`, and `setState` and the stores of `parseCmd` are methods of class `SampleInstaller`, proved
equal to the steps.

**Everything else** is imperative where the source is: loops with invariants, buffers as arrays, records
as classes. A method is specified by a function on values or by a property that does not mention how it
is computed, and lemmas say what those functions mean, down to literal values where only these tell the
function from another one (the check value and the residue of the checksum, the byte order, the slashes of
a joined path, the writes of a map entry). Safety is not enough: for each main operation there is also a
result that says when it succeeds. To state it, the surroundings are functions of the call, of the position
in the history or of the turn (`Transfer.World`, `Push.Env`, `Flasher.Env`, `PyInstaller.World`), and the
contracts hold for every such function, that is, for every pattern of failures. The sizes of pieces and what
other threads do stay nondeterministic choices. Waits of unbounded length are cut off after an arbitrary
number of wake-ups.

**False properties.** Seven things the code or its documentation suggest do not hold. Each has a concrete
input and, where the failure depends on the input, the exact condition:

- A command accepted while `installerInit` is still entering IDLE is lost
  (`InstallerEdges.EarlyCommandIsLost`); afterwards every command is delivered exactly once.
- `constructRange` selects what was asked exactly when the block is not empty; an empty one asks for the
  whole file or for nothing (`RangeRequests.RangeExactly`).
- A read of the remote provider answers with a beginning of what was asked exactly when the server kept to
  the range, or the request starts at the first byte and reaches the end of the file (or the file is empty).
  A server that ignores the range and answers with status 200 and the whole file breaks every other request
  (`Transfer.RemoteProvider.Read`, `Transfer.AnswerIsRight`, `Transfer.RangeIgnored`). The wrong reply need not
  be longer than the length asked for: at the end of the file it can be shorter
  (`Transfer.RangeIgnoredAtTheEnd`). In the copy loop of a deploy it overruns the buffer or the byte count
  exactly when the request starts behind the first byte or the file is longer than one chunk
  (`Transfer.TooLongBreaks`).
- A commit publishes under the name its deploy was given exactly when that name is free of the suffix
  (`Staging.CommitUndoesStaging`, `Staging.PublishedAs`). A deploy with the save name "a.staged.b" is published
  as "/a" (`Staging.CommitRenames`); the Python installer keeps the name (`Staging.PyCommitUndoesStaging`).
- The flasher's deploy loop keeps to the payloads it counted exactly when the first unreadable one has no
  readable namesake with a later suffix (`Flasher.RouteExactly`, `Flasher.StraysExample`); directories with
  one suffix a number never have (`Flasher.OneSuffixKeeps`).
- `uint64ToStr` and `ui64ToStr` stay inside the size they are given exactly when the digits do not fill it;
  otherwise the terminator lands in the cell behind (`NumberText.PrintsInside`, `NumberText.PrintsUpperInside`,
  `NumberText.PrintsPastTheEnd`), and `ui64ToStr` writes zero into two cells whatever the size
  (`NumberText.ZeroIgnoresTheSize`).
- A decoded hex string re-encodes to its lower-case form exactly when it consists of hex digits; blanks,
  signs and other characters are decoded without an error (`HexText.ReEncodes`, `HexText.BlankIsLost`).

One edge cannot be reached. The length check of `execDeployCmd` would let the suffix lose a letter for a
joined path of 505 characters (`Staging.StagedCarriesSuffix`, `Staging.MisnamedExample`). But the mailbox
keeps at most 510 characters of a command, 12 of them stand before the shortest value, and the install
directory is empty, so that no joined path is longer than 499 (`InstallerTheorems.EveryDeployIsSafe`). The
only thing assumed of the command parser is that it copies values out of the text behind their tags.

**Where code and documentation disagree** the model follows the code. The README of the repository says
that clear_error removes the staged file and that files are installed to the working directory. The C
handler's `unlinkat(fd, "", 0)` names no file, so nothing is removed (`InstallerEdges.StagedFilesStay`,
and a run with a left-over in `InstallerEdges.StagedFileLeftOver`); and `setState(IDLE)` clears the
install directory already during initialisation, so that files are staged directly below `/`
(`InstallerTheorems.InstallDirIsEmpty`). The Python installer does remove the file. The comment on
`helpCalculateTimespecStruct` announces an error for sums above the unsigned 64-bit maximum; the code fails
exactly when the seconds exceed the signed maximum, and its overflow branch is unreachable.

## Model

| member | source | states |
|---|---|---|
| `DuInstallers.DuInstaller.constructor` | src/plugin_common/duinstaller_common.c:54-82 | a new record is idle, has no level or command pending and no deployment recorded |
| `DuInstallers.DuInstaller.WriteCmd` | src/plugin_common/duinstaller_common.c:479-498 | a write is accepted exactly when it is short enough and the slot is free, keeps one character less than its length, and otherwise changes nothing and says whether to retry |
| `DuInstallers.DuInstaller.SetCurrentRl` | src/plugin_common/duinstaller_common.c:127-154 | the current level changes alone, with a notification exactly on change |
| `DuInstallers.DuInstaller.SetPendingRl` | src/plugin_common/duinstaller_common.c:156-202 | the pending level becomes the merge of the old and the requested one, with a notification exactly on change |
| `DuInstallers.DuInstaller.SetState` | src/plugin_common/duinstaller_common.c:204-245 | the state changes alone, with a notification exactly on change |
| `DuInstallers.DuInstaller.SetLastDeployedInfo` | src/plugin_common/duinstaller_common.c:247-286 | result and path are recorded together unless the path is too long |
| `DuInstallers.DuInstaller.ClearMailbox` | src/duinstaller/duinstaller.c:653-656 | the mailbox is empty afterwards and nothing else changes |
| `DuInstallers.MergeIsMinimum` | src/plugin_common/duinstaller_common.c:167-188 | merged requests keep the lowest level asked for, in any order, and dropping the request leaves none |
| `SampleInstallers.SampleInstaller.SetState` | src/duinstaller/duinstaller.c:625-711 | on the fields, setState does exactly what its small steps do when run one after the other |
| `SampleInstallers.SampleInstaller.ParseCmd` | src/duinstaller/duinstaller_helpers.c:44-127 | which fields each class of command stores, a rejected deploy included, and that path and save name are shorter than the text by a command word, a blank and a tag |
| `SampleInstallers.EnteredState` | src/duinstaller/duinstaller.c:636-704 | entering a state ends in it, frees the mailbox exactly where a command is awaited, marks failure exactly at ERROR, and IDLE forgets the deployment |
| `SampleInstallers.AssertionsHold` | src/duinstaller/duinstaller_helpers.c:231-233 | in every run the assertion of execCommitCmd holds, and files are staged only in INSTALLING |
| `Staging.StagedCarriesSuffix` | src/duinstaller/duinstaller_helpers.c:162-178 | a staged path carries the suffix exactly when the joined path is not the one length that cuts it |
| `Staging.MisnamedExample` | src/duinstaller/duinstaller_helpers.c:171-178 | the staged path of a name of 504 letters lost the last letter of its suffix |
| `Staging.BuildStagedPath` | src/duinstaller/duinstaller_helpers.c:160-178 | joining and appending in the 512-character buffer leaves exactly the staged path, or the deploy is refused |
| `Staging.CommitTargetIsVisible` | src/duinstaller/duinstaller_helpers.c:246-254 | a commit never publishes under a name with the suffix |
| `Staging.CommitUndoesStaging` | src/duinstaller/duinstaller_helpers.c:246-254 | cutting at the first suffix gives the deploy's name back exactly when that name is free of the suffix |
| `Staging.PyCommitUndoesStaging` | python_src/duinstaller/installer_helpers.py:131-136 | cutting at the last suffix always gives the deploy's name back |
| `Staging.PublishedAs` | src/duinstaller/duinstaller_helpers.c:148-178 | a deploy with a save name free of the suffix and of a leading slash is staged and published under that name below the root |
| `Staging.PublishedAsLast` | src/duinstaller/duinstaller_helpers.c:148-158 | without a save name it is published under the last part of its source path |
| `Text.JoinedHasOneSlash` | src/utils.h:566-609 | exactly one slash stands between the parts of a joined path, whether or not they bring one |
| `Text.BasenameOf` | src/duinstaller/duinstaller_helpers.c:154-158 | the base name is the part behind the last slash that does not end the path |
| `Staging.CommitRenames` | src/duinstaller/duinstaller_helpers.c:246-254 | a deploy with the save name a.staged.b is published as /a, by the Python commit as /a.staged.b |
| `Staging.SuffixInside` | src/duinstaller/duinstaller_helpers.c:246-254 | a save name with the suffix inside is published by the C commit as what stands before it, by the Python commit whole |
| `InstallerInvariants.InvAlways` | src/duinstaller/duinstaller.c:795-835 | mutual exclusion, wake-ups, control flow, the command in hand and the copy so far are consistent in every reachable state |
| `InstallerTheorems.NoLostWakeUp` | src/duinstaller/duinstaller.c:374-377 | when the thread sleeps although its condition holds, a callback is still before its signal; with no callback under way it never does |
| `InstallerTheorems.MutualExclusion` | src/plugin_common/duinstaller_common.c:463-505 | the mutex has at most one holder, thread and callbacks together |
| `InstallerTheorems.MailboxExactlyOnce` | src/duinstaller/duinstaller.c:373-407 | after start-up the commands accepted are those parsed, in order, followed by the one still waiting |
| `InstallerTheorems.TakenMeansBusy` | src/plugin_common/duinstaller_common.c:487-492 | from the parse of a command to the clearing of the mailbox every write is refused as busy |
| `InstallerTheorems.RunLevelGate` | src/duinstaller/duinstaller.c:548-567 | files change only by a commit's rename or while the pending command is a deploy since whose acceptance the level was once high enough, and then only the staged file |
| `InstallerTheorems.ErrorMatchesState` | src/duinstaller/duinstaller.c:827-831 | the state is ERROR exactly when ERROR was entered since the last IDLE |
| `InstallerTheorems.ClearErrorParsed` | src/duinstaller/duinstaller.c:441-470 | a thread that is leaving ERROR has just parsed a clear_error there |
| `InstallerTheorems.ErrorLeftOnlyByClearError` | src/duinstaller/duinstaller.c:429-470 | ERROR is left only for IDLE and only by consuming a clear_error, and that step leaves every file in place |
| `InstallerTheorems.OnlyWholeFilesAreCommitted` | src/duinstaller/duinstaller_helpers.c:190-213 | from the end of a deploy to the end of its commit the staged file is the whole source of that deploy |
| `InstallerTheorems.AcceptedIsShort` | src/plugin_common/duinstaller_common.c:481-494 | an accepted command has at most 510 characters |
| `InstallerTheorems.EveryDeployIsSafe` | src/duinstaller/duinstaller_helpers.c:171-178 | no command that fits the mailbox makes the suffix lose a letter |
| `InstallerTheorems.AtomicInstall` | src/duinstaller/duinstaller_helpers.c:129-270 | in every run the files without the suffix are the initial ones with whole sources put in place by commits |
| `InstallerTheorems.VisibleFileIsWhole` | src/duinstaller/duinstaller_helpers.c:257-261 | file by file: a visible file has its first content or the whole source of a deploy that was committed to this name |
| `InstallerTheorems.CommitRemembered` | src/duinstaller/duinstaller.c:488-522 | on the way from a commit to IDLE the recorded path is the one just committed |
| `InstallerTheorems.OutcomeTruth` | src/duinstaller/duinstaller.c:636-650 | entering IDLE records FAILED exactly when ERROR was entered since the last IDLE, and otherwise SUCCESS with the path whose bytes were just committed |
| `InstallerTheorems.InstallDirIsEmpty` | src/duinstaller/duinstaller.c:663-664 | a deploy always stages below the root: the install directory is empty |
| `InstallerSuccess.DeployAndCommit` | src/duinstaller/duinstaller.c:366-568 | from every reachable state that waits in IDLE with a deploy in the mailbox and no callback under way there is a run, with reads of any sizes and a commit delivered after the deploy, that ends waiting in IDLE: the source whole under the published name, no staged file, all other files as before, and success with the deploy's path on record; through PENDING_RL with the level raised to exactly RL_BG_APPLY when it was too low |
| `InstallerSuccess.FirstDeployment` | src/duinstaller/duinstaller.c:789-835 | there is such a run from the start |
| `InstallerSuccess.WaitOver` | src/duinstaller/duinstaller.c:548-567 | a level equal to the pending one ends the wait, and the request is dropped |
| `InstallerSuccess.CopiedToEnd` | src/duinstaller/duinstaller_helpers.c:190-213 | reads of any sizes of at least one byte bring the copy to its end with the whole source staged |
| `InstallerSuccess.ErrorCanBeLeft` | src/duinstaller/duinstaller.c:429-470 | from every reachable state that waits in ERROR a delivered clear_error leads back to IDLE |
| `InstallerEdges.EarlyCommandIsLost` | src/duinstaller/duinstaller.c:789-792 | a command accepted during the init window is dropped unparsed |
| `InstallerEdges.StagedFilesStay` | src/duinstaller/duinstaller.c:460-470 | no step but a commit removes a file |
| `InstallerEdges.StagedFileLeftOver` | src/duinstaller/duinstaller.c:460-470 | a run: a deploy reads one byte, its next read fails, clear_error is consumed, and the idle installer's staged file still holds that byte |
| `Crc32.TableDivides` | src/utils.h:1081-1134 | each of the 256 table entries is the eight-bit polynomial division of its index |
| `Crc32.DuCrc32` | src/utils.h:1073-1148 | the table loop computes the bit-by-bit reflected division for every seed and buffer |
| `Crc32.CheckValue` | src/utils.h:1073-1148 | the checksum of the digits 1 to 9 is 0xCBF43926 |
| `Crc32.Residue` | src/utils.h:1136-1147 | whatever the seed, a buffer followed by four bytes has the checksum 0x2144DF1C if and only if these are its own checksum, low byte first |
| `Crc32.FeedByTable` | src/utils.h:1141-1142 | one look-up, shift and xor is eight single-bit divisions |
| `Crc32.ChecksumChains` | src/utils.h:1136-1147 | the checksum of one buffer as the seed of the next is the checksum of both in a row |
| `Crc32.ChecksumDifference` | src/utils.h:1136-1147 | checksums of buffers of one length differ by the division of their difference, whatever the seed |
| `Crc32.ChecksumLinear` | src/utils.h:1136-1147 | linear over xor up to the checksum of zeros |
| `Crc32.BurstIsDetected` | src/utils.h:1138-1145 | buffers of one length that differ only inside four consecutive bytes never get the same checksum |
| `Crc32.FourByteWindow` | src/utils.h:1138-1145 | no four bytes but zeros take the zero register back to zero |
| `ShiftRegisters.BurstDetected` | src/utils.h:1138-1145 | any linear register with an injective step that catches strings of a width catches every difference within such a window |
| `Timespecs.Timespec.AddTimeout` | src/utils.h:110-182 | success is the exact sum, normalised; failure exactly on a negative field or seconds above the signed maximum; what a failure leaves; no wrap-around and no overflow branch |
| `Integers.AddU64` | src/nvos_static_analysis.h:343-352 | the sum exactly when it fits 64 bits |
| `Integers.MultU64` | src/nvos_static_analysis.h:526-543 | the product exactly when it fits 64 bits |
| `NumberText.Uint64ToStr` | src/utils.h:1504-1554 | which arguments and sizes are refused; otherwise the buffer, of any length from the given size on, holds what of the digits and their terminator falls into it, and no other cell changes |
| `NumberText.PrintsInside` | src/utils.h:1530-1547 | the cell behind the given size is left alone if and only if the digits do not fill that size |
| `NumberText.PrintsPastTheEnd` | src/utils.h:1547 | ten, printed into two cells, puts its terminator into the third |
| `NumberText.Ui64ToStr` | src/remote_content_provider/remote_content_provider.h:263-315 | the same in upper case, zero being printed without a size check |
| `NumberText.PrintsUpperInside` | src/remote_content_provider/remote_content_provider.h:287-312 | the cell behind the given size is left alone if and only if the digits do not fill that size, zero included |
| `NumberText.ZeroIgnoresTheSize` | src/remote_content_provider/remote_content_provider.h:287-293 | zero, printed into no cells at all, succeeds and takes two |
| `NumberText.ReverseFront` | src/utils.h:1541-1546 | the in-place swap loop reverses the front and nothing else |
| `NumberText.LowDigits` | src/utils.h:1530-1539 | the digits, lowest first, exactly when they fit; radix 1 only prints zero |
| `NumberText.AtMost64Digits` | src/utils.h:1516-1517 | no 64-bit number needs more than 64 digits, so the length counter never wraps |
| `Numerals.NumeralDenotes` | src/utils.h:1530-1546 | the printed string denotes the number |
| `Numerals.NumeralDigits` | src/utils.h:1530-1546 | and uses digits of its radix only |
| `Numerals.NumeralLetters` | src/utils.h:1518-1536 | every character of a numeral is the one of the table, in the case asked for, that stands at its value |
| `Numerals.NumeralIsShortest` | src/utils.h:1530-1546 | no digit string of the same value is shorter |
| `Numerals.NoLeadingZero` | src/utils.h:1530-1546 | only zero is printed with a leading zero |
| `NumberReading.DecimalRead` | src/utils.h:930-957 | a digit string without a leading zero is read in decimal exactly when it fits |
| `NumberReading.OctalRead` | src/utils.h:945-946 | a leading zero means octal |
| `NumberReading.HexRead` | src/utils.h:945-946 | the prefix 0x means hexadecimal |
| `NumberReading.PrintedReadsBack` | src/utils.h:930-957 | decimal output, and hexadecimal output behind its prefix, is read back to the value |
| `NumberReading.NegativeWraps` | src/utils.h:945-946 | a minus sign is not refused but wraps around |
| `HexText.HexStrAsByteArray` | src/utils.h:1285-1322 | exactly which strings are accepted, the bytes they decode to, and that the rest of the array is untouched |
| `HexText.TokenMeans` | src/utils.h:1309-1316 | what any two characters decode to when given to strtoul, and which are refused |
| `HexText.U8ArrayToStr` | src/utils.h:1344-1395 | which sizes are refused; otherwise two digits per byte and a terminator, and no other cell changes |
| `HexText.DecodesEncoded` | src/utils.h:1285-1395 | decoding an encoded array gives the bytes back |
| `HexText.ReEncodes` | src/utils.h:1285-1395 | encoding a decoded string gives its lower-case form back if and only if it consists of hex digits |
| `HexText.BlankIsLost` | src/utils.h:1309-1318 | a blank before a digit is decoded and not recovered |
| `Text.TakeIsPrefix` | src/platform.h:61-73 | what a bounded copy keeps is the longest beginning that fits |
| `Paths.Strlcpy` | src/platform.h:61-73 | copies what fits, always terminates unless the size is zero, returns the wanted length |
| `Paths.Strlcat` | src/platform.h:75-88 | appends what fits behind the text, returns the wanted length, leaves a full buffer alone |
| `Paths.StrCatNewBuf2` | src/utils.h:474-495 | the result tells exactly whether both parts fit, and the buffer holds what fits |
| `Paths.StrCatNewBuf3` | src/utils.h:523-545 | the same for three parts |
| `Paths.PathJoin` | src/utils.h:566-609 | non-null exactly when the joined path and its terminator fit; the buffer holds the join, or the part of it that fits; nothing past the size is written |
| `RangeRequests.ConstructRange` | src/remote_content_provider/remote_content_provider.c:223-263 | refused exactly on a null buffer or an end beyond 64 bits; otherwise the buffer holds the range text |
| `RangeRequests.RangeSelects` | src/remote_content_provider/remote_content_provider.c:237-258 | read by RFC 9110 the text selects exactly the bytes from start to start + block or the end |
| `RangeRequests.RangeExactly` | src/remote_content_provider/remote_content_provider.c:245-250 | it does so if and only if the block is not empty |
| `RangeRequests.RequestsTile` | src/remote_content_provider/remote_content_provider.c:223-263 | successive requests cover the file once, without gap or overlap |
| `Transfer.MemoryStruct.WriteMemoryCB` | src/remote_content_provider/remote_content_provider.c:888-931 | the block grows by exactly what was delivered, terminated, or stays as it is when sizes or memory do not allow it |
| `Transfer.RemoteProvider.Deliver` | src/remote_content_provider/remote_content_provider.c:1190-1196 | a body in pieces of any sizes arrives if and only if the transfer does not break off and memory suffices, and is then in the block whole and in order |
| `Transfer.RemoteProvider.Perform` | src/remote_content_provider/remote_content_provider.c:1196-1210 | a transfer with status 206 leaves a beginning of what the range selects in the block, one with status 200 the whole file, exactly when it does not break off before |
| `Transfer.RemoteProvider.Retry` | src/remote_content_provider/remote_content_provider.c:1212-1232 | an attempt worth repeating is answered busy exactly while one of ten retries is left, and that spends it |
| `Transfer.RemoteProvider.Read` | src/remote_content_provider/remote_content_provider.c:1160-1236 | answered, busy, refused or failed exactly as the server state, size query, handle, transfer, status and retries decide; an answer is a beginning of the requested bytes if and only if the server kept to the range or the request starts at the first byte and reaches the end of the file |
| `Transfer.GoodReply` | src/remote_content_provider/remote_content_provider.c:1196-1204 | a reply with status 206 and at least one byte that arrives is accepted, and nothing else is asked of the server |
| `Transfer.WorthRetrying` | src/remote_content_provider/remote_content_provider.c:1162-1232 | a read inside the file that reaches the server is answered or worth another attempt, the latter exactly on another status than 200 and 206 or a transfer that breaks off before the reply ends |
| `Transfer.AnswerIsRight` | src/remote_content_provider/remote_content_provider.c:1199-1204 | of the replies the source accepts, exactly those no longer than the requested bytes are right, and exactly those with the range or of a request for the whole file |
| `Transfer.RangeIgnored` | src/remote_content_provider/remote_content_provider.c:1199-1204 | a whole file of three bytes in reply to a request for its last two is too long and wrong |
| `Transfer.RangeIgnoredAtTheEnd` | src/remote_content_provider/remote_content_provider.c:1199-1204 | a whole file of three bytes in reply to a request for four from the second on is shorter than the request and wrong |
| `Transfer.RemoteProvider.GetSize` | src/remote_content_provider/remote_content_provider.c:1238-1265 | the size of the file is reported exactly when the server is configured and names it; a failed query is answered busy while retries last |
| `Transfer.SentIsRequested` | src/remote_content_provider/remote_content_provider.c:1183-1197 | whatever size the server reported, the range text selects the requested bytes |
| `Transfer.ReadRetry` | src/utils.h:1587-1619 | terminates with one call more than the retries it spends; all calls but the last were busy, and the last decides |
| `Transfer.InstallFile.Fwrite` | src/duinstaller/duinstaller_helpers.c:204-209 | a chunk goes through exactly when it is not empty and there is room for all of it, and is then appended whole; otherwise a beginning of it is |
| `Transfer.CopyChunk` | src/duinstaller/duinstaller_helpers.c:193-212 | one turn appends the next one to lenToRead bytes of the source, and fails exactly when its last reply is refused or its write does not go through |
| `Transfer.CopyChunks` | src/duinstaller/duinstaller_helpers.c:190-213 | terminates within a bound on calls; failure comes exactly from a refused size or read or a write that did not go through, a break exactly from an overlong whole-file reply, success means the staged bytes are the source, and every outcome leaves a beginning of it; with a server that answers every call with status 206 and at least one byte, and room for every write, it succeeds |
| `Transfer.TooLongBreaks` | src/duinstaller/duinstaller_helpers.c:195-213 | a reply is longer than its request if and only if it is the whole file in reply to a request behind the first byte or longer than one chunk; it then overruns the buffer or the byte count |
| `Payload.LayoutReads` | src/du-cli/du_cli.c:213-272 | a payload that was laid out is read back as the fields it was built from, whatever follows it |
| `Payload.ReadingInvertsLayout` | python_src/du_cli/du_cli.py:119-163 | reading the fields and laying them out are inverse, so a payload has one reading |
| `Payload.PyPayloadFile.ParsePayload` | python_src/du_cli/du_cli.py:110-171 | accepts exactly the payloads that have a reading, fills the record from it, and leaves the record alone otherwise |
| `Payload.PayloadFile.ParsePayload` | src/du-cli/du_cli.c:213-272 | accepts exactly when the data length of the reading starts inside the file; the fields are the reading's, the offset modulo 2^64 |
| `Payload.PayloadFile.ReadBigEndian` | src/du-cli/du_cli.c:261-265 | the shift loop computes the big-endian value modulo 2^64 |
| `Payload.StrictIsInside` | python_src/du_cli/du_cli.py:119-163 | Python accepts exactly when C does and the whole data length lies inside, with the same fields |
| `Payload.BigEndianParts` | src/du-cli/du_cli.c:261-265 | the bytes in front weigh more than all that follow |
| `Payload.ByteOrder` | python_src/du_cli/du_cli.py:135-163 | the 32-bit numbers have their lowest byte first, the offset its highest |
| `Flasher.DuCli.GetTotalPayload` | src/du-cli/du_cli.c:118-150 | adds the number of counted payloads and says whether there are any |
| `Flasher.CountedExactly` | src/du-cli/du_cli.c:123-146 | the counted payloads are the one sequence with consecutive numbers and ordered suffixes that is maximal for every suffix |
| `Flasher.DuCli.ReadFileContent` | src/du-cli/du_cli.c:388-428 | succeeds exactly for a file that opens, fits and reads through, and the buffer then holds it |
| `Flasher.BufferParses` | src/du-cli/du_cli.c:213-272 | whether a payload parses, and its partition name, do not depend on stale bytes in the buffer |
| `Flasher.DuCli.FlashL1pt` | src/du-cli/du_cli.c:430-454 | a ready level-1 table is sent once to the persistent chain; otherwise nothing is sent |
| `Flasher.DuCli.FlashPayload` | src/du-cli/du_cli.c:455-507 | a ready payload is sent once, by a proper command, and goes through exactly when that is carried out; otherwise nothing is sent |
| `Flasher.ReadyExactly` | src/du-cli/du_cli.c:388-507 | a payload is ready exactly when its file can be opened and read, has 17 bytes to 4 MB and parses, and it is a level-1 table, its name starts with C_, or the active chain is A, B or C |
| `Flasher.ChainOfCommand` | src/du-cli/du_cli.c:467-500 | a payload goes to the persistent chain exactly when it is a level-1 table, to C when its name starts with C_, and else to B while A is active and to A while B or C is |
| `Flasher.DuCli.FindPayload` | src/du-cli/du_cli.c:537-548 | the file found for a number is the first readable one from the last suffix on |
| `Flasher.FirstReadableIsFirst` | src/du-cli/du_cli.c:537-548 | no suffix before the one found can be read, and none at all when none is found |
| `Flasher.DuCli.FlashAndReload` | src/du-cli/du_cli.c:556-588 | a table is followed by its reload, and the payload goes through exactly when it is ready and the server carries out both |
| `Flasher.ReloadAfterTable` | src/du-cli/du_cli.c:575-587 | in the plan a table is followed by its reload and a patch by the next payload |
| `Flasher.RouteExactly` | src/du-cli/du_cli.c:529-554 | the payloads the loop comes to are a beginning of the counted ones if and only if the directory does not stray, and all of them when all are readable |
| `Flasher.OneSuffixKeeps` | src/du-cli/du_cli.c:529-554 | a directory with one suffix a number never strays |
| `Flasher.StraysExample` | src/du-cli/du_cli.c:529-554 | a directory where the scan counts one file and the loop takes another |
| `Flasher.DuCli.NextPayload` | src/du-cli/du_cli.c:537-588 | a number goes through exactly when a file is found, is ready, and the server carries out its commands |
| `Flasher.DuCli.FlashAll` | src/du-cli/du_cli.c:529-589 | the commands are a beginning of the plan of the payloads come to, and all of it exactly when everything is found, ready and carried out |
| `Flasher.AllWellExactly` | src/du-cli/du_cli.c:508-594 | nothing goes wrong exactly when the clock can be read, every payload can be read, parses and has a chain, and every command is carried out |
| `Flasher.DuCli.Deploy` | src/du-cli/du_cli.c:508-594 | for every directory the commands, each proper, are a beginning of the plan of the payloads come to; where the directory does not stray this is the plan of the counted ones, and PASS means exactly that nothing is to be done or nothing goes wrong |
| `Push.PushRun.PushImage` | src/driveupdate/driveupdate.c:916-980 | an image of any length is copied exactly, in its planned pieces; it goes through exactly when it is in the package and every read and write worked, and other partitions stay as they are |
| `Push.PushRun.PushChunk` | src/driveupdate/driveupdate.c:943-978 | one turn reads and writes exactly the next chunk, and goes through exactly when read and write worked; an empty chunk is not written |
| `Push.PushRun.Callbacks` | src/driveupdate/driveupdate.c:1054-1075 | reports change the status and write nothing |
| `Push.LastDecides` | src/driveupdate/driveupdate.c:1054-1075 | the last reset or report decides the status |
| `Push.PushRun.PushValidate` | src/driveupdate/driveupdate.c:792-869 | a validate entry goes through exactly when announcement, request and enabling were acknowledged, the wait worked and the status was success; otherwise a beginning of these writes was made |
| `Push.PushRun.Await` | src/driveupdate/driveupdate.c:827-854 | the wait succeeds exactly when mutex and condition variable worked and the status read is success, and then a success was reported since the reset |
| `Push.PushRun.PushEntries` | src/driveupdate/driveupdate.c:776-983 | entries act in map order and all go through exactly when each is well-formed, everything planned was written and nothing failed; they fail only for such a cause; the partitions then hold the images |
| `Push.PushRun.PerformPush` | src/driveupdate/driveupdate.c:670-1008 | the writes are a beginning of the plan and one closing write: 'disabled' if and only if the map was found, is well-formed and nothing failed, and abort otherwise; with active chain 0 'disabled' means that exactly the plan of listB was written and its images are in place, with 1 that of listA, and any other value aborts at once; a run is cut off only while no report has come |
| `Push.ActiveListIgnored` | src/driveupdate/driveupdate.c:710-716 | what the list of the active chain says makes no difference |
| `Push.AbortHasCause` | src/driveupdate/driveupdate.c:670-1008 | when writes, reads and waits work, a found and well-formed map is aborted only after a wait that found another status than success |
| `Push.PlanOfEntry` | src/driveupdate/driveupdate.c:792-980 | what the plan holds for an entry: the image in pieces, whole and in order; announcement, request with its two strings and enabling; or the reload command |
| `Push.PiecesTile` | src/driveupdate/driveupdate.c:926-980 | the pieces of an image carry it whole, each starting where the one before ended, none empty or larger than a megabyte |
| `Push.ImageStands` | src/driveupdate/driveupdate.c:957-958 | a partition starts with the image of the last entry that copies to it and keeps what it held beyond |
| `Push.NothingBeforeSuccess` | src/driveupdate/driveupdate.c:794-869 | once anything of the plan behind a validate entry's request is written, however the run goes on, a success was reported after that entry's own reset |
| `Push.EndedRunWaited` | src/driveupdate/driveupdate.c:794-1008 | the same for every run that has ended, in 'disabled' or in abort |
| `Push.DisabledMeansValidated` | src/driveupdate/driveupdate.c:794-1008 | 'disabled' is written only after every validate entry had its success |
| `PyInstaller.DuInstaller.WriteCmd` | python_src/common/installer_common.py:187-202 | a command is taken whole exactly when it is short enough and the slot is free |
| `PyInstaller.DuInstaller.SetPendingRl` | python_src/common/installer_common.py:166-185 | the lowest level asked for stays pending until it is dropped |
| `PyInstaller.SampleInstaller.SetState` | python_src/duinstaller/installer.py:77-121 | IDLE records the outcome with the path and empties everything; the mailbox is kept exactly for INSTALLING and PENDING_RL |
| `PyInstaller.SampleInstaller.InstallerInit` | python_src/duinstaller/installer.py:257-279 | initialisation ends in IDLE with an empty install directory |
| `PyInstaller.SampleInstaller.TakeCommand` | python_src/duinstaller/installer.py:133-136 | the command handled is the one in the mailbox, which stays taken |
| `PyInstaller.SampleInstaller.StateIdle` | python_src/duinstaller/installer.py:124-149 | exactly the invalid commands are refused, and a valid one leads to INSTALLING exactly when the level is high enough, without touching a file |
| `PyInstaller.SampleInstaller.StatePendingRl` | python_src/duinstaller/installer.py:152-169 | INSTALLING is entered only at a level high enough |
| `PyInstaller.SampleInstaller.ExecDeployCmd` | python_src/duinstaller/installer_helpers.py:72-117 | works exactly when the source is not empty, its size can be had, the file can be opened and everything read and written; the whole source is then staged under its name, only the staged file changes, and its name is reported before it can exist |
| `PyInstaller.SampleInstaller.StateInstalling` | python_src/duinstaller/installer.py:172-197 | leads to PENDING_COMMIT exactly for a deploy that can be carried out, with the whole source staged under its name |
| `PyInstaller.SampleInstaller.ExecCommitCmd` | python_src/duinstaller/installer_helpers.py:120-144 | renames the staged file to its name without the suffix exactly when it exists and the rename works, or changes nothing |
| `PyInstaller.SampleInstaller.StatePendingCommit` | python_src/duinstaller/installer.py:200-221 | exactly a commit command whose rename works is carried out; it is the one recorded change, publishes the source of the deploy in hand and reports success with its path |
| `PyInstaller.SampleInstaller.StateError` | python_src/duinstaller/installer.py:224-250 | exactly clear_error is carried out; it removes the staged file, is recorded, and reports failure |
| `PyInstaller.SampleInstaller.TakeTurn` | python_src/duinstaller/installer.py:282-306 | a turn of each state goes through under exactly its own condition and leads to the next state, a refusal leads to ERROR, and nothing happens only while the awaited command or level has not come |
| `PyInstaller.SampleInstaller.InstallerRun` | python_src/duinstaller/installer.py:282-306 | every turn is taken unless the awaited command or level has not come; in IDLE the files are the initial ones with the recorded changes: no staged file is left over, commits come only from commit commands and publish the whole source of their deploy, removals only from clear_error |
| `PyInstaller.PublishedOrInitial` | python_src/duinstaller/installer_helpers.py:120-144 | every file is an untouched initial one or what a commit published under its name |
| `PyInstaller.StagedIsGone` | python_src/duinstaller/installer.py:241-249 | the staged file of the last commit or removal is gone |

## Left out

- The DU Link, DUCC, DUS, curl and JSON libraries: they are steps with any outcome; a read returns a beginning of what was asked, end of file, busy or failure, and a map entry is what its keys say.
- `parseStringIntoTokens` and `stripTagFromInput` are only declared in the repository: command texts go through an arbitrary parse function. Atomic install asks one thing of it, that a value is copied out of the text from behind the command word, a blank and its tag.
- The content servers' serve and stop paths, ffu_update, bhc_plugin, shell scripts, option parsing, progress and size display, signal handling and log texts.
- File systems beyond a map from paths to bytes: links, permissions, buffering, dot segments. A failed fopen leaves the file as it was.
- Liveness: `InstallerSuccess` shows that good runs exist from every idle state, not that they happen; nothing says that a sleeping thread is scheduled. The push callback signals without the mutex, so a validate wait may miss its report; only safety is proved there, and the wait is cut off after any number of wake-ups.
- Push.PushRun.PushImage: reads are short only at the end of the file; a short read elsewhere would end the source's loop early.
- Delta mode of the push run, two push runs at once, and the JSON text of a validate entry beyond its being sent.
- PyInstaller.SampleInstaller.InstallerRun: callbacks come between the waits, not inside setState, where they touch only the mailbox and the run level; unlink succeeds on an existing file and rename is atomic; an exception other than OSError ends the Python process and is not a turn; sources do not change between the size and the last read.
- PyInstaller.DuInstaller.WriteCmd: the condition variable is not modelled, because set_current_rl does not notify the waiter and no wake-up is claimed for Python.
- NumberText.Uint64ToStr: where the terminator falls behind the lent cells, those cells are described and what lies behind them is not (PrintsInside lends it as well); in radix 1 bufSize is below 2^32, because the 32-bit length counter would otherwise wrap before the loop ends.
- NumberReading.DecimalRead: strtoul is modelled by its description in ISO C for a 64-bit unsigned long; it is not part of the repository.
- NumberText.Ui64ToStr: the same, also for the two cells of zero.
- HexText.HexStrAsByteArray: after a refused token the bytes already decoded stay in the array and are not described further.
- Transfer.RemoteProvider.Read: what a reply longer than the buffer overwrites behind it is not described; the length is at least one, as in every caller; the path length check that returns without unlocking is left out.
- Transfer.CopyChunks: a run is followed up to the first reply longer than its request; after it the source's buffer or byte count is overrun, and nothing is promised. Opening and closing the file are steps of the protocol.
- Payload.PayloadFile.ParsePayload: the memory behind the file must exist for three bytes, which the structure provides; Python's decoding of the name to text is left out and names are bytes.
- Flasher.DuCli.Deploy: package paths fit their buffer; the totals are not limited to 32 bits; the displayed progress is left out.
- Paths.PathJoin: the parts are terminated strings that do not overlap the buffer.
