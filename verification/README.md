# CUTMACHINE: the verified core

CUTMACHINE is a deterministic editing engine: its parts promise that a save is
never half done, that an undo restores exactly, that a reported change can be
applied as it stands. This project models the parts whose promises are the
hardest and proves them for every input, run or reachable state. It is one
Dafny project; `dafny verify dfyconfig.toml` checks all of it.

Code that works step by step is modelled step by step: classes whose methods
assign their fields, arrays changed in place, loops with their invariants.
Each such method is proved against a specification function or predicate, and
the promises are proved about those.

## The components

**Crash-safe commit** (`Storage`, `Journal`, `Names`, `Plan`, `Recovery`,
`Phases`, `Publishing`, `Transaction`, `Sessions`, `Interrupted`,
`RefusedRemovals`, `ExposedRollback`). `Storage.Disk` is a map from paths to
contents whose primitives take effect in order; each may fail instead, a write
may leave any prefix, and every durable state is recorded, so a power cut is the
choice of one recorded state (`PowerCut`). A disk can also be one on which
exactly certain primitives fail (`Trouble`), which is how runs that go wrong are
exhibited. `Shows(s, v)` says that disk state `s` stands for the user's files
`v`: they are simply there, or the marker is and its journal brings them back.
`Sessions.Run` composes commits, recoveries and cuts without bound. The sweep of
leftovers is stated over names: without a fault nothing that looks like a
commit's own file is left beside the project or in its Timelines folder, and
only such files go (`NoLeftovers`, `OnlySwept`).

Two things can go wrong, and both need failed primitives. Recovery does not
notice that a removal it asked for was refused (src/Cli.cc:183-186 discards that
error): the `stuck` files are created ones that were `AtRisk` on the disk before
and took a refusal each. `Recovered` gives the files a recovery leaves for any
set of refused removals, and they are the old ones whatever is refused exactly
when nothing is at risk (`RefusedRemovals`). And a rollback may have to run
without its marker (src/Cli.cc:490-497), which takes two faults in one commit:
it is `exposed`. It still restores the old files if the power stays on and no
third fault follows; what a cut can leave is decided by `ExposedRollback`.
`stuck`, `exposed` and the `clean` and `Incident` made of them exist only in the
model; the program never sees them. `Sessions.Run` counts the faults and
refusals of every event and states three conditions, none of them about these
outputs, under which neither has happened.

**FFT** (`Ring`, `BitReversal`, `Fft`, `ComplexRing`). The transform over any
commutative ring with a root for each block length; all that is assumed of the
roots is that the one for length two is minus one and that each squares to the
one for half its length. `ComplexRing` shows that the assumptions are met.

**JSON** (`Json`, `JsonNumbers`, `JsonMagnitude`, `JsonUnicode`, `JsonGrammar`,
`JsonRoundTrip`, `JsonParser`, `JsonAccess`). `Json` is the recursive descent as
functions on the remaining text; `JsonParser` is the parser with its position
and the printer with its buffer, proved equal to them. `JsonGrammar` gives the
language on its own, as derivation trees (sections 2, 4, 6 and 7 of RFC 8259,
with this program's bound on exponents and its refusal of repeated keys), and
proves that exactly its documents are accepted, each with the value of its tree.
Strings are sequences of characters that stand for bytes; `JsonUnicode` decodes
them by section 3 of RFC 3629, independently of the encoder.

**Edit log** (`EditHistory`, `ProjectHistory`, `BalancedText`, `LogText`,
`LogReading`, `LogGrammar`, `LogJson`). What operations do is a parameter. Of single-document
operations it is assumed that an applied one, as completed by its application,
replays exactly and that its inverse undoes it exactly; for project operations
that law is derived from loading a saved project giving it back. The text of
single operations is a parameter too, assumed to be one balanced object that
reads back; `LogJson` shows that printed JSON objects are balanced. `LogGrammar`
gives the texts of a log apart from the reader, spaces included, and exactly
these are read.

**Document delta** (`StableSort`, `Clips`, `DocumentDelta`, `DeltaComputation`,
`DeltaPatch`). The specification of a delta is given apart from the loops that
compute it, and patching the old state with any delta that meets it gives the
new one.

**Played words and spans** (`PlayedWords`, `SpanRanges`). The union-find works
on an array in place; its classes are compared with chains of fragments.

**Task manager** (`MediaTasks`, `MediaTaskRuns`). Each critical section is one
atomic step; the theorems hold for every interleaving of steps, with the worker
count as a parameter.

**Frame cache** (`FrameCache`). Frames are known by their size. A ghost map of
the time of each key's last touch says what the recency list means, and a ghost
set of the sizes put for each source what the estimate of a frame is.

**Timeline remapping** (`Remap`). A montage is read as the frames it shows at
each record position.

**Boundary air** (`SpeechGroups`, `BoundaryAir`, `BoundaryAirSafety`), **bins**
(`Bins`, `BinTree`, `BinTreeShape`), **keyframes** (`Keyframes`,
`KeyframeCurve`), **beat analysis** (`BeatStream`, `OnsetPicking`) and
**aliases** (`Aliases`). Times are exact rationals as `real`; keyframe times
keep their value and timebase. The loudness of a level in decibels is a
parameter of the speech groups, and in the beat analysis the decoding of four
bytes and the magnitudes of a frame are, so that grouping and framing are proved
whatever these compute.

`Sequences`, `Options` and `StableSort` are shared. Identities are natural
numbers or strings that are only compared; where the program distinguishes "no
identity" zero stands for it.

## Where code and comments disagree

src/DocumentDelta.h:77-83 promises that two clips are compared in every field,
so that no change goes unreported. The code (src/DocumentDelta.cc:57-88) leaves
out the three audio settings of src/Document.h:173-175, and the model follows
the code. `ClipIsToldIff` decides the promise clip by clip: a delta tells of a
clip exactly when it differs, unless only its audio settings do. Such a change
goes unreported alone (`GainGoesUnreported`) and inside a report of other
changes (`GainGoesUnreportedAmongOthers`). `ReportIsRightIff` says when a delta
is right about all clips, and `RightWithoutAudioEdits` that it is after an edit
that touches no audio setting.

src/DocumentDelta.h:44-47 promises that the clips a shift rule stands for moved
by exactly its step and changed nothing else. For the same reason that fails for
the audio settings and for nothing else: `NothingElseIff`, with the input of
`GainFoldsIntoRule`.

src/Json.cc:13-17 says that the bound on exponents keeps every accepted literal
from rounding to infinity, however large its mantissa. The code bounds the
exponent and not the digits before it. `ReachesIff` gives the exact bound in the
digits and the exponent together, `FiniteByDigits` what it means at the limit of
a double, `TenDigitsOverflow` a literal past that limit, and
`EveryPowerIsAccepted` that without a bound on the digits there is none.

## Model

| member | source | states |
|---|---|---|
| `Sessions.Run` | src/Cli.cc:392-502 | Any run of commits and recoveries on one disk, each succeeding, failing or cut off by power at any durable state: unless an event left a hazard behind the disk stands for the starting files with a subset of the commits applied whole and in order, every successful one in it and no failed one, and after a finished recovery those files are plainly there. No event leaves a hazard when commits suffer at most one fault each and no removal is refused while a created file is at risk; nor, with the power on and nothing at risk to begin with, when each event suffers at most one fault of any kind; and without faults no event fails |
| `Sessions.RunSave` | src/Cli.cc:392-502 | One commit, possibly cut off anywhere: what is left stands for all of the old files or all of the new ones, and for the old ones whenever the marker is still present. A hazard needs two faults or a created file at risk on the disk before, one refusal for each stuck file; without a cut, one fault at most leaves nothing at risk |
| `Sessions.RunRecovery` | src/Cli.cc:283-370 | One recovery, possibly cut off anywhere: the disk keeps standing for the same files unless a created file that was at risk took a refused removal; a finished one leaves no marker and none adds to the risk |
| `Transaction.CommitArtifacts` | src/Cli.cc:392-502 | Every state a commit passes through stands for the old files, or is unmarked with the new ones; success leaves exactly the new files and no marker, without a fault no leftover either; failure needs a fault and leaves the old; with at most one fault and no earlier marker a failed commit leaves the old files plainly in place, and with nothing at risk before nothing is at risk after; a hazard needs one refusal for each stuck path and two faults for an exposed rollback, and with nothing stuck an exposed rollback that suffers no third fault still restores the old files |
| `Transaction.Conclude` | src/Cli.cc:484-502 | The removal of the marker is the commit point: reported success is the applied commit, reported failure is undone under a re-published marker, and only a second fault can expose the rollback, which without a third one still restores the old files |
| `Transaction.Republish` | src/Cli.cc:490-495 | The marker is put back through its temporary name without touching anything else, so every state on the way still stands for the new files and the published one for the old |
| `Transaction.TakeBack` | src/Cli.cc:490-497 | After the failed sync the rollback runs under the marker again; without one more fault the old files are back, and when the marker could not be put back they are unless yet another fault follows |
| `Transaction.MoveFiles` | src/Cli.cc:458-502 | From the published marker to the commit point or back: nothing outside the destinations changes and every state in between is guarded by the marker |
| `Transaction.InstalledIsApplied` | src/Cli.cc:471-489 | With everything installed, dropping the marker is exactly the whole commit applied to the user files |
| `Transaction.StandsForOne` | src/Cli.cc:283-370 | A disk stands for at most one set of user files: what a recovery would bring back is fully determined by the state |
| `ExposedRollback.TornIffTwoMoves` | src/Cli.cc:490-497 | When the marker could not be put back, some moment of the rollback is neither old nor new exactly if that rollback has more than one file to move or remove, or one that replaced an old file |
| `ExposedRollback.ConcludeBroken` | src/Cli.cc:484-497 | The commit point run on a disk that can no longer write or synchronise: its history holds a torn state exactly in that case |
| `ExposedRollback.TornInHistory` | src/Cli.cc:416-423 | The history of a rollback holds a torn state exactly when one of its moments is torn |
| `ExposedRollback.TwoFilesTear` | src/Cli.cc:484-497 | Two new files and that broken disk: at some moment neither the old files nor the new ones are there |
| `Recovery.RecoverTransaction` | src/Cli.cc:283-370 | Recovery keeps standing for the same files at every state and restores them when it reports success, but for the stuck paths: each was created by the interrupted commit and still there, each took a refused removal, and where nothing else fails they are exactly the created paths still there that the disk will not remove, and the files left are those of the specification. It fails only if a primitive did, never adds to what is at risk, and changes nothing without a marker (so it is idempotent) |
| `RefusedRemovals.RecoverFrom` | src/Cli.cc:283-370 | From any state: with nothing at risk a reported success has restored the old files under every fault; where only removals are refused it does report success, its files are exactly the specified ones, and they are the old files exactly when no refused path was at risk |
| `RefusedRemovals.RecoveredIs` | src/Cli.cc:283-370 | The specified result of a recovery with any set of refused removals is the old files but for the refused paths at risk, so it is the old files exactly when there are none |
| `RefusedRemovals.RecoveredClears` | src/Cli.cc:345-369 | File by file, that result leaves no backup of the interrupted commit, each moved to its destination, no temporary or created file whose removal is not refused, and every file the journal does not name as it was, the marker alone excepted |
| `RefusedRemovals.AlwaysRestoresIff` | src/Cli.cc:283-370 | The specified result is the old files whatever removals are refused exactly when no file created by the interrupted commit is still there |
| `RefusedRemovals.LeaveAtRisk` | src/Cli.cc:358-360 | Wherever a created file is at risk there is a recovery that reports success and leaves it |
| `RefusedRemovals.RefusalTears` | src/Cli.cc:358-360 | Two new files, installed and interrupted, one removal refused: recovery reports success with neither the old files nor the new ones there |
| `Interrupted.IsShown` | src/Cli.cc:471-484 | The state of that witness stands for no files, with exactly its two files at risk |
| `Interrupted.IsInstalled` | src/Cli.cc:471-484 | That state is one the commit passes through: guarded by its marker, everything installed |
| `Recovery.NoRisk` | src/Cli.cc:345-361 | When the old files are plainly there, as after a rollback that left its marker, nothing is at risk |
| `Recovery.RecoverAt` | src/Cli.cc:345-362 | One turn of the loop: the risk of the remaining entries is unchanged, and what becomes stuck was at risk and refused; where nothing but removals fails the files go on as specified |
| `Recovery.RecoverEntries` | src/Cli.cc:345-363 | The backward loop over the journal settles every entry: old contents home from the backup, created file gone, temporary gone, whatever had been moved before; where nothing but removals fails the files are exactly the specified ones |
| `Recovery.RecoverEntry` | src/Cli.cc:345-362 | One entry is settled and no other entry's destination or backup is touched |
| `Recovery.DropMarker` | src/Cli.cc:364-369 | Only the marker disappears, and success means it has |
| `Recovery.RemoveTransactionLeftovers` | src/Cli.cc:372-388 | The sweep removes only transaction leftovers directly in the transaction directory and its Timelines folder, so an unmarked disk shows the same files; without a fault no such name is left in either |
| `Recovery.GuardRestores` | src/Cli.cc:352-354 | Renaming a backup home keeps every other entry recoverable |
| `Phases.Prepare` | src/Cli.cc:424-442 | New contents are written only beside their destinations; success means every temporary is complete and the recorded existence is right |
| `Phases.Rollback` | src/Cli.cc:416-423 | Undoing under the marker passes only through states that stand for the old files; without a further fault the old files are back; where removals and renames work the history goes through exactly the moments of undoing each artifact from the last to the first, and then the old files |
| `Publishing.Publish` | src/Cli.cc:443-457 | The journal becomes visible in one rename, whole or not at all; on failure everything is taken back |
| `Publishing.BackUp` | src/Cli.cc:458-470 | Every existing destination ends in its backup; failure leaves a state the rollback can undo |
| `Publishing.Install` | src/Cli.cc:471-483 | Every new file ends at its destination; failure leaves a state the rollback can undo |
| `Storage.Disk.WriteFile` | src/Cli.cc:118-159 | Success leaves exactly the contents; otherwise any prefix of them may be there, and nothing else changes |
| `Storage.Disk.Rename` | src/Cli.cc:188-197 | Atomic: either the file is at its new name and gone from the old one, or nothing changed |
| `Storage.Disk.PowerCut` | src/Cli.cc:392-502 | A cut leaves one of the states passed through since the watch began |
| `Names.LeftoverIsShape` | src/Cli.cc:271-281 | The backward search recognises exactly the names that end in a transaction nonce and .tmp or .bak |
| `Names.LeftoverPath` | src/Cli.cc:271-281 | On a path the test depends only on the last component |
| `Names.OwnNames` | src/Cli.cc:408-411 | A transaction's own temporaries and backups are recognised as leftovers and never as the marker |
| `Names.NamesDiffer` | src/Cli.cc:408-411 | Temporaries and backups of different destinations never share a name |
| `Names.ScannedIff` | src/Cli.cc:372-378 | The sweep covers exactly the paths directly in the transaction directory and directly in its Timelines folder |
| `Names.SweptIff` | src/Cli.cc:372-385 | What is swept is exactly a transaction leftover name in one of these two directories |
| `Journal.UnhexHex` | src/Cli.cc:209-236 | Hex decoding undoes hex encoding on every byte string |
| `Journal.HexEncode` | src/Cli.cc:209-218 | The encoder builds the two-digit text of every byte |
| `Journal.HexAt` | src/Cli.cc:209-218 | Byte i is written at places 2i and 2i + 1, its high digit first, in lower case |
| `Journal.HexDecode` | src/Cli.cc:220-236 | The decoder accepts exactly even-length digit texts and inverts the encoding |
| `Journal.ParseText` | src/Cli.cc:295-344 | Recovery reads back exactly the nonce and entries the commit wrote |
| `Journal.AcceptsWritten` | src/Cli.cc:295-344 | Recovery accepts a text with a record exactly when the record is well formed and the text, with a final newline added if it lacks one, is what a commit writes for it |
| `Journal.SafeIff` | src/Cli.cc:329-337 | A path is safe exactly when it is not empty, not absolute and .. nowhere stands alone between its slashes |
| `Journal.AlnumIff` | src/Cli.cc:276-279 | The characters of a nonce are exactly the digits and the letters of either case |
| `Journal.WriteJournal` | src/Cli.cc:443-449 | The stream the commit builds is the journal text of its plan |
| `Journal.ReadJournal` | src/Cli.cc:295-344 | The reader refuses a wrong version, a bad nonce, a malformed line and an unsafe path, and otherwise returns the record |
| `Fft.Forward` | src/Fft.h:27-59 | The in-place transform leaves exactly the DFT of the buffer for every power-of-two length and refuses every other length with the buffer untouched |
| `Fft.RunStages` | src/Fft.h:44-58 | All doublings of the block length take the bit-reversed input to its spectrum |
| `Fft.RunStage` | src/Fft.h:47-57 | One pass combines every block and nothing across blocks |
| `Fft.CombineBlock` | src/Fft.h:48-56 | The innermost loop, with its running twiddle, performs all pairs of one block |
| `Fft.StageStep` | src/Fft.h:44-58 | A pass turns blocks holding transforms of strided subsequences in bit-reversed order into the same for twice the length |
| `Fft.CombineSpectra` | src/Fft.h:48-56 | A butterfly block on the spectra of even and odd elements is the spectrum of the interleaved input |
| `Fft.EvalSplit` | src/Fft.h:44-58 | The decimation identity over any commutative ring |
| `Fft.StageAtBottom` | src/Fft.h:35-41 | The deepest level of the recursion is the bit-reversal permutation of the input |
| `Fft.SpectrumIsDft` | src/Fft.h:27-59 | The recursive reading is the DFT sum |
| `Fft.HalfTurn` | src/Fft.h:44-46 | The root of each block length to the power of half that length is minus one |
| `BitReversal.Permute` | src/Fft.h:35-41 | The swap loop applies the bit-reversal permutation, each pair once |
| `BitReversal.ReverseIncrement` | src/Fft.h:37-39 | The carry loop steps from one reversed index to the next |
| `BitReversal.RevInvolution` | src/Fft.h:35-41 | Bit reversal is its own inverse |
| `BitReversal.PowerOfTwoTest` | src/Fft.h:24 | The mask test accepts exactly the powers of two |
| `ComplexRing.ComplexLaws` | src/Fft.h:27-59 | The exact complex numbers satisfy the ring laws the transform is proved over |
| `ComplexRing.ShortRootsHalve` | src/Fft.h:45-46 | For the lengths whose roots are rational the roots satisfy what the transform assumes of them |
| `DeltaPatch.PatchIsExact` | src/DocumentDelta.cc:90-207 | Patching the old clips with the delta gives every clip of the new state with its track, source and times |
| `DeltaPatch.RulesAreLiteral` | src/McpServer.cc:34-40 | Applied literally to every old clip on its track from its start time on, a shift rule never touches a clip that did not move by exactly its step, and counts what it touches |
| `DeltaPatch.EmptyIffSame` | src/DocumentDelta.cc:202-206 | The call reports no change exactly when everything it compares is the same |
| `DeltaPatch.ClipIsToldIff` | src/DocumentDelta.cc:57-88 | Clip by clip: a clip is listed, removed or moved by a rule exactly when it differs in any field or in its track, unless its audio settings are all that differs |
| `DeltaPatch.ToldIffLooksDifferent` | src/DocumentDelta.cc:57-88 | Of a clip in both timelines the delta tells exactly when its track or one of the compared fields differs, whatever else it reports |
| `DeltaPatch.ReportIsRightIff` | src/DocumentDelta.cc:57-88 | The delta is right about every clip exactly when no clip differs in its audio settings alone; it never tells of an unchanged clip, and a clip that is gone is told as removed |
| `DeltaPatch.EmptyIsRightIff` | src/DocumentDelta.cc:57-88 | A report of no change is right exactly unless the timelines agree in everything compared and differ in the audio settings of a clip they share |
| `DeltaPatch.RightWithoutAudioEdits` | src/DocumentDelta.cc:57-88 | After an edit that touches no audio setting the delta is right about every clip, and it is empty exactly for identical timelines |
| `DeltaPatch.NothingElseIff` | src/DocumentDelta.h:44-55 | A clip that a rule moves is not listed, and it moved by the step and changed nothing else exactly when its audio settings stayed the same |
| `DeltaPatch.GainGoesUnreported` | src/DocumentDelta.cc:57-88 | Two timelines of one clip that differ in its gain and nothing else are reported as the same |
| `DeltaPatch.GainGoesUnreportedAmongOthers` | src/DocumentDelta.cc:57-88 | With a new sequence name as well there is a report, and still nothing in it tells of the clip whose gain changed |
| `DeltaPatch.GainFoldsIntoRule` | src/DocumentDelta.cc:176-199 | A clip that moved by five and changed its gain is folded into a rule and not listed, although it changed more than its position |
| `DeltaPatch.CreatedTracksAre` | src/DocumentDelta.cc:90-130 | The created tracks are exactly those that were not there before |
| `DeltaPatch.CreatedTracksAt` | src/DocumentDelta.cc:107-116 | Created tracks are reported in order for exactly the places of new tracks, each with the kind and index it has there |
| `DeltaPatch.ListedIsMarked` | src/DocumentDelta.cc:43-53 | A listed clip is marked created exactly when it was not there before, and is listed as it now is |
| `DeltaComputation.ComputeDocumentDelta` | src/DocumentDelta.cc:90-207 | For unique clip and track ids the result is the delta of the specification, whose listed clips, rules and created tracks the theorems on deltas describe, and the return value says whether it is empty |
| `DeltaComputation.ChangedClips` | src/DocumentDelta.cc:131-201 | The listed clips and the rules are the exact ones |
| `DeltaComputation.FoldIsRule` | src/DocumentDelta.cc:154-196 | When a track's moves fold, the rule explains every clip of that track from its start on |
| `DeltaComputation.RuleFolds` | src/DocumentDelta.cc:154-196 | When any rule explains a track's moves the loop finds it |
| `DeltaComputation.ShiftsAreExact` | src/DocumentDelta.cc:154-199 | A track has a rule exactly when its moves fold, and one rule at most |
| `DeltaComputation.ListingIsExact` | src/DocumentDelta.cc:131-205 | Exactly the clips that no rule accounts for are listed, once each, in time order, as they now are |
| `DocumentDelta.Fold` | src/DocumentDelta.cc:159-196 | The uniform-step and covers-the-track loops decide folding and compute step, start and count |
| `DocumentDelta.CoversTrack` | src/DocumentDelta.cc:174-187 | True exactly when every clip of the old track from the start on is among the moved ones |
| `DocumentDelta.Classify` | src/DocumentDelta.cc:131-152 | Splits clips into created or changed ones and ones that only moved |
| `DocumentDelta.GroupByTrack` | src/DocumentDelta.cc:154-157 | Groups the moved clips by their old track, in order, with no empty group |
| `DocumentDelta.OnlyMoved` | src/DocumentDelta.cc:36-41 | True exactly when the clip stayed on its track and differs in nothing compared but its timeline start |
| `DocumentDelta.ByTimeSorted` | src/DocumentDelta.cc:201-205 | The listing is in time order and keeps every clip |
| `StableSort.SortedIsStable` | src/DocumentDelta.cc:201-205 | The stable sort keeps equivalent elements in their order |
| `StableSort.SortedInOrder` | src/DocumentDelta.cc:201-205 | The stable sort orders and keeps the elements |
| `Clips.ClipsEqual` | src/DocumentDelta.cc:57-88 | Field-by-field comparison is equality of everything but the three audio settings |
| `Clips.SameIff` | src/DocumentDelta.cc:57-88 | Two clips count as the same exactly when the one becomes the other by its audio gain and fades alone |
| `Clips.ParamsEqual` | src/DocumentDelta.cc:57-88 | Parameter maps are compared as whole maps |
| `Clips.IndexSound` | src/DocumentDelta.cc:19-25 | Every entry of the index is a clip of the timeline on its track, the last one with its identity |
| `Clips.IndexComplete` | src/DocumentDelta.cc:19-25 | With unique ids the index holds every clip as itself |
| `JsonRoundTrip.RoundTrip` | src/Json.cc:55-313 | A value tree survives printing and parsing exactly when its keys are distinct and its number literals follow the grammar, at any nesting and for any string bytes |
| `JsonRoundTrip.AcceptedIsValid` | src/Json.cc:55-313 | Every accepted document has distinct keys and grammatical numbers at every depth |
| `JsonRoundTrip.Canonical` | src/Json.cc:459-508 | Printing what was parsed parses to the same value |
| `JsonGrammar.AcceptedIff` | src/Json.cc:22-313 | A text is accepted with a value exactly when it is the text of a well-formed tree of section 2 of RFC 8259, with any white space between its tokens, that stands for the value |
| `JsonGrammar.DumpIsCompact` | src/Json.cc:419-503 | What is printed is the text of the tree with no white space and no escape but for quotes, backslashes and control characters, the short form where there is one |
| `JsonUnicode.Utf8Back` | src/Json.cc:225-243 | The bytes written for any code point are one UTF-8 sequence, lead byte and continuation bytes, and decode to that code point |
| `JsonUnicode.EscapedTextBack` | src/Json.cc:125-197 | A document that is a string of unicode escapes, one unit or a surrogate pair for each character, parses to UTF-8 text that decodes to these characters |
| `JsonUnicode.EveryScalarEscapes` | src/Json.cc:160-190 | Every character has such an escape |
| `JsonUnicode.PieceReads` | src/Json.cc:125-197 | A plain character, a two-character escape, a unit and a surrogate pair are each taken whole for what they stand for |
| `JsonUnicode.PieceTaken` | src/Json.cc:125-197 | Whatever the string loop takes in one turn is one of these |
| `JsonRoundTrip.ValueBack` | src/Json.cc:55-134 | A printed value is read back whole whatever follows it |
| `JsonRoundTrip.StringBack` | src/Json.cc:136-203 | An escaped string reads back as itself |
| `JsonNumbers.NumberOf` | src/Json.cc:269-313 | A literal of the number grammar is taken whole before anything that can follow it |
| `JsonNumbers.NumberTaken` | src/Json.cc:269-313 | What the scanner takes is a literal of the number grammar |
| `JsonMagnitude.ReachesIff` | src/Json.cc:13-17 | From the largest exponent on an accepted literal reaches a power of ten exactly when its integer does not begin with zero and its integer digits and exponent together exceed that power |
| `JsonMagnitude.Decade` | src/Json.cc:269-313 | The digits before the point and the exponent give the decade a literal lies in, whatever its fraction |
| `JsonMagnitude.FiniteByDigits` | src/Json.cc:13-17 | Digits and exponent of 308 together keep a literal below the limit of a double, 310 do not unless it begins with zero |
| `JsonMagnitude.EveryPowerIsAccepted` | src/Json.cc:269-313 | The literal of every power of ten is accepted whole, so accepted literals have no bound |
| `JsonMagnitude.TenDigitsOverflow` | src/Json.cc:301-309 | A literal of ten digits with the exponent 300 is accepted and exceeds the limit of a double |
| `JsonParser.Parser.ParseDocument` | src/Json.cc:22-32 | The recursive-descent parser terminates on every input with the value, or the problem and its byte position, of the document specification, which accepts exactly the texts of the grammar |
| `JsonParser.Parser.ParseValue` | src/Json.cc:55-67 | The dispatch on the first character, on the remaining text |
| `JsonParser.Parser.ParseObject` | src/Json.cc:69-108 | Members, commas, the closing brace and the duplicate-key refusal |
| `JsonParser.Parser.ParseMember` | src/Json.cc:69-97 | One member: key, colon, value, and refusal of a repeated key |
| `JsonParser.Parser.ParseArray` | src/Json.cc:110-134 | Elements, commas and the closing bracket |
| `JsonParser.Parser.ParseString` | src/Json.cc:136-203 | String scanning with all escapes |
| `JsonParser.Parser.ParseCodePoint` | src/Json.cc:160-203 | A high surrogate is combined with the low one that must follow it; a lone low one is taken as it is |
| `JsonParser.Parser.ParseHex4` | src/Json.cc:205-223 | Four hexadecimal digits or a refusal |
| `JsonParser.Parser.ParseNumber` | src/Json.cc:269-313 | Integer, fraction and bounded exponent, kept as exact text |
| `JsonParser.EscapeJsonString` | src/Json.cc:419-457 | The escape loop builds the escaped text |
| `JsonParser.DumpTo` | src/Json.cc:459-497 | The printing loops append the value's text and nothing else |
| `JsonAccess.SetThenFind` | src/Json.cc:389-409 | Setting a key makes it read back, leaves other keys alone and keeps the order |
| `JsonAccess.SetKeepsKeysDistinct` | src/Json.cc:397-409 | An object built with Set never repeats a key |
| `JsonAccess.AsInt64` | src/Json.cc:371-387 | An integer comes back exactly when the literal is written as one and fits 64 bits |
| `JsonAccess.IntegerBack` | src/Json.cc:331-336 | Every stored integer is a grammatical literal that reads back as itself and has a minus only below zero |
| `EditHistory.AnyRunUndoes` | src/EditLog.cc:156-194 | After any run of applies, undos, redos and batches: undoing everything gives the first document, and k undos then k redos give the current document and both stacks |
| `EditHistory.AnyRunReplays` | src/EditLog.cc:156-194 | After any run the current document is the first one with the applied stack replayed |
| `EditHistory.RunLinked` | src/EditLog.cc:156-194 | One chain of document states links both stacks after any run |
| `EditHistory.StepLinked` | src/EditLog.cc:156-194 | Each call either extends the chain at the current state, goes exactly one place along it, or, when there is nothing to do or it is refused, changes nothing |
| `EditHistory.UndosThenRedos` | src/EditLog.cc:166-194 | k undos then k redos restore document and stacks |
| `EditHistory.RedoAfterUndo` | src/EditLog.cc:166-194 | Redo right after undo restores document and both stacks |
| `EditHistory.UndosBack` | src/EditLog.cc:166-179 | k undos succeed and step k states back along the chain |
| `EditHistory.ApplyLinked` | src/EditLog.cc:156-164 | A new apply extends the chain at the current state and discards exactly the redo branch |
| `EditHistory.BatchIsApplies` | src/EditLog.cc:280-313 | A batch is accepted exactly when its operations are when applied one by one, and leads to the same document |
| `EditHistory.BatchUndoes` | src/EditLog.cc:280-313 | A batch of any length is one step that one undo reverses |
| `EditHistory.BatchLinked` | src/EditLog.cc:280-313 | A batch keeps the chain with one new state |
| `EditHistory.EditLog.Apply` | src/EditLog.cc:156-164 | The new document and both stacks; a refused call changes neither |
| `EditHistory.EditLog.Undo` | src/EditLog.cc:166-179 | The new document and both stacks; a refused call changes neither |
| `EditHistory.EditLog.Redo` | src/EditLog.cc:181-194 | The new document and both stacks; a refused call changes neither |
| `EditHistory.EditLog.ApplyBatch` | src/EditLog.cc:280-313 | All or nothing: one entry for the whole batch, or nothing changed |
| `ProjectHistory.ProjectsAreExact` | src/Operations.cc:6231-6252 | Project operations that carry their resulting project as saved text replay exactly and are undone exactly |
| `ProjectHistory.AnyProjectRunUndoes` | src/EditLog.cc:270-345 | Any run of project edits, batches, undos and redos can be undone to the first project |
| `BalancedText.ObjectTaken` | src/EditLog.cc:31-60 | The brace counter takes a balanced object to its own end whatever follows it |
| `BalancedText.TakenIsObject` | src/EditLog.cc:31-60 | What the brace counter takes is one balanced object, whatever braces, quotes and escapes its strings hold |
| `LogJson.ObjectWhole` | src/EditLog.cc:79-89 | The printed form of any well-formed JSON object is one balanced object |
| `LogJson.EscapedKept` | src/EditLog.cc:31-60 | No escaped string closes early for the brace counter |
| `LogText.LogBack` | src/EditLog.cc:238-268 | A serialised log reads back as the same two stacks for any number of entries |
| `LogGrammar.ReadIff` | src/EditLog.cc:15-112 | A text is read as two stacks exactly when it is a log of them: its tokens in order with any white space before each, and balanced objects that read as their operations |
| `LogText.KindsDiffer` | src/EditLog.cc:238-268 | A document log is never read as a project log, nor the other way round |
| `LogText.EntriesBack` | src/EditLog.cc:79-112 | A written list of entries reads back entry by entry |
| `LogText.Serialize` | src/EditLog.cc:238-246 | The writing loop produces the log text |
| `LogReading.Deserialize` | src/EditLog.cc:248-268 | The reader returns both stacks exactly when the whole text is a log of them, and refuses everything else |
| `LogReading.LogReader.Object` | src/EditLog.cc:31-60 | The next object's text and the position after it |
| `LogReading.LogReader.Consume` | src/EditLog.cc:15-29 | Takes the expected text after white space, or only the white space |
| `LogReading.LogReader.ReadEntries` | src/EditLog.cc:91-112 | The list loop returns the entries and stops after its bracket |
| `PlayedWords.SelectOccurrences` | src/InterviewShort.cc:143-182 | Exactly one fragment is chosen for each class of the transitive closure of "same played occurrence": greatest overlap, earliest timeline start on ties |
| `PlayedWords.OccurrenceMeans` | src/InterviewShort.cc:59-72 | For fragments of some length: the same occurrence when some instant of the timeline is in both, or they are side by side there and no instant of the source is in both |
| `PlayedWords.OverlapIsShared` | src/InterviewShort.cc:53-57 | Two stretches overlap exactly when some instant is inside both |
| `PlayedWords.Unite` | src/InterviewShort.cc:145-156 | After all pairs the representatives are exactly the classes of the closure |
| `PlayedWords.FindRoot` | src/InterviewShort.cc:74-80 | Path halving terminates, returns the representative and keeps the forest acyclic with every representative unchanged |
| `PlayedWords.Halve` | src/InterviewShort.cc:75-78 | One halving step keeps the forest and strictly descends |
| `PlayedWords.Merge` | src/InterviewShort.cc:152-154 | Hanging one root under another keeps the forest acyclic |
| `PlayedWords.MergeSound` | src/InterviewShort.cc:149-154 | Merging joins only connected fragments |
| `PlayedWords.AllCovered` | src/InterviewShort.cc:147-156 | When every pair has been seen, connected fragments share a representative |
| `PlayedWords.Clusters` | src/InterviewShort.cc:157-159 | Each class is listed once, under its representative, in order |
| `PlayedWords.Winner` | src/InterviewShort.cc:161-168 | The loop's choice beats or equals every member |
| `SpanRanges.ResolveRange` | src/InterviewShort.cc:345-411 | The range is given exactly for a run of one source whose pauses stay below the cue gap, from the first span's start to the last one's end |
| `SpanRanges.RangeIsRun` | src/InterviewShort.cc:374-407 | Every span of the run lies in the range and everything in the range is a span of the run or a short pause between two |
| `SpanRanges.RunMeans` | src/InterviewShort.cc:374-407 | A run is one source, spans in order, and less than seven tenths of a second from each to the next |
| `SpanRanges.OneSpan` | src/InterviewShort.cc:345-372 | Without an end handle the range is that of the first span with the start handle alone |
| `MediaTaskRuns.CancelledIffAccepted` | src/MediaTaskManager.cc:104-130 | Before destruction an ended task ended cancelled exactly when some cancellation of it was accepted |
| `MediaTaskRuns.AcceptedEndsCancelled` | src/MediaTaskManager.cc:104-130 | An accepted cancellation never ends in any other state, destruction included |
| `MediaTaskRuns.EndTellsReturn` | src/MediaTaskManager.cc:186-220 | In every reachable state a task that succeeded is one whose work returned true and a failed one one whose work returned false or threw |
| `MediaTaskRuns.ReturnDecidesEnd` | src/MediaTaskManager.cc:186-220 | Before destruction a task whose work returned without an accepted cancellation succeeded exactly when it returned true |
| `MediaTaskRuns.StoppingCancels` | src/MediaTaskManager.cc:74-83 | Once the manager is stopping, whatever still ends ends cancelled |
| `MediaTaskRuns.RunningAtMostWorkers` | src/MediaTaskManager.cc:163-203 | Running tasks never exceed the workers |
| `MediaTaskRuns.QueueInOrder` | src/MediaTaskManager.cc:85-102 | The queue is exactly the queued tasks, once each, in enqueue order |
| `MediaTaskRuns.CompletedOnce` | src/MediaTaskManager.cc:203-220 | A completion is handed out at most once with the state the task ended in, and exactly once before destruction |
| `MediaTaskRuns.TerminalStays` | src/MediaTaskManager.cc:104-220 | The state a task ends in never changes |
| `MediaTaskRuns.StopTakesHold` | src/MediaTaskManager.cc:74-104 | The manager stops exactly at its destruction, and from then on every task is flagged and none is added |
| `MediaTaskRuns.StoppedMeansEnded` | src/MediaTaskManager.cc:74-83 | When every worker has exited every task has ended |
| `MediaTaskRuns.StoppingEnds` | src/MediaTaskManager.cc:74-83 | Destruction ends: no step adds to the turns the workers have left, each turn uses one up, and none are left exactly when the queue is empty and every worker has exited |
| `MediaTaskRuns.WorkRunsOnce` | src/MediaTaskManager.cc:164-196 | The work of a task runs at most once, is running or has returned exactly when it started, and never starts once it left the queue cancelled |
| `MediaTaskRuns.NothingStartsStopping` | src/MediaTaskManager.cc:172-178 | Once the manager is stopping no work begins |
| `MediaTaskRuns.AlwaysInvariant` | src/MediaTaskManager.cc:67-220 | Every state any interleaving reaches meets the invariants |
| `MediaTasks.MediaTaskManager.Enqueue` | src/MediaTaskManager.cc:85-102 | The step of one enqueue, refused once stopping |
| `MediaTasks.MediaTaskManager.Cancel` | src/MediaTaskManager.cc:104-130 | The step of one cancellation, whether it was accepted, and the completion it hands out |
| `MediaTasks.MediaTaskManager.Take` | src/MediaTaskManager.cc:163-185 | The step of one worker at the queue, including a task cancelled before it ran |
| `MediaTasks.MediaTaskManager.Finish` | src/MediaTaskManager.cc:203-220 | The step of one finished task and the completion it hands out |
| `MediaTasks.MediaTaskManager.Stop` | src/MediaTaskManager.cc:74-83 | The step of the destructor under the lock |
| `MediaTasks.MediaTaskManager.Idle` | src/MediaTaskManager.cc:149-154 | Idle exactly when every task has ended |
| `FrameCache.FrameCache.Put` | src/FrameCache.cc:65-92 | A stored key is only moved to the front; a new frame stays exactly when it fits the budget alone, and the shortest least-recent suffix is dropped; the size remembered for the source is that of the largest frame put since it was last cleared |
| `FrameCache.FrameCache.EvictToBudget` | src/FrameCache.cc:52-63 | The longest most-recent prefix that fits is kept, with entries, order and byte total in step |
| `FrameCache.FrameCache.GetNearest` | src/FrameCache.cc:104-130 | The stored frame of the source at minimum distance, the lower index on ties, moved to the front; none only when the source has none |
| `FrameCache.FrameCache.GetExact` | src/FrameCache.cc:94-102 | The stored frame if there, moved to the front |
| `FrameCache.FrameCache.TouchFrame` | src/FrameCache.cc:137-145 | Recency changes exactly when the frame is there |
| `FrameCache.FrameCache.ClearSource` | src/FrameCache.cc:157-170 | Exactly that source's frames go, the order of the rest is kept and the byte total follows |
| `FrameCache.FrameCache.WindowForSource` | src/FrameCache.cc:172-191 | The smallest window that uses the source's share of seven tenths of the budget at its largest frame, three quarters of it ahead to the nearest frame, no more behind than ahead |
| `FrameCache.NeighboursSuffice` | src/FrameCache.cc:104-130 | No stored frame of a source is nearer than the two neighbours in key order |
| `FrameCache.Nearest` | src/FrameCache.cc:104-130 | The choice between the neighbours is the nearest frame |
| `FrameCache.FrontFits` | src/FrameCache.cc:65-92 | The newest entry survives eviction exactly when it fits by itself |
| `FrameCache.EvictDone` | src/FrameCache.cc:52-63 | Where the loop stops is the shortest suffix that had to go |
| `FrameCache.Touching` | src/FrameCache.cc:47-50 | Moving a key to the front keeps the list a permutation of the keys in order of last touch |
| `FrameCache.Erasing` | src/FrameCache.cc:157-170 | Erasing a key keeps list, entries and byte total consistent |
| `Remap.RemapKeepsFrames` | sidecar/resolve_bridge.py:429-458 | An accepted clip's pieces show, frame by frame at the original record positions, the source frames the map assigns it |
| `Remap.MontageKept` | sidecar/resolve_bridge.py:405-464 | The remapped montage shows exactly what the montage showed |
| `Remap.FlattenThenRemap` | sidecar/resolve_bridge.py:308-464 | Flattening and remapping together: when no item has a negative duration the result shows, at the same positions, the source frames that the timeline's items show where the montage uses them |
| `Remap.PiecesKeepLayer` | sidecar/resolve_bridge.py:437-449 | Pieces keep their clip's layer and sound |
| `Remap.FitsIffInside` | sidecar/resolve_bridge.py:454-458 | A non-empty clip is refused exactly when it leaves the mapped range; an empty one never is, a reversed one always |
| `Remap.CoveredIs` | sidecar/resolve_bridge.py:431-453 | The covered count is the overlap of the clip with the mapped range |
| `Remap.RemapToSources` | sidecar/resolve_bridge.py:405-464 | Accepted exactly for the right schema and rate, fitting clips and at least one piece, otherwise refused for the stated reason at the first clip that does not fit; the result is all pieces in order |
| `Remap.SplitClip` | sidecar/resolve_bridge.py:429-453 | The inner loop yields the pieces of one clip and the frames they cover |
| `Remap.FlattenTimeline` | sidecar/resolve_bridge.py:308-381 | Accepted exactly when one track has items and all are mappable; the segments follow the items |
| `Remap.OnePopulated` | sidecar/resolve_bridge.py:308-335 | One track is flattened exactly when it is the only one with items |
| `Remap.FlattenItems` | sidecar/resolve_bridge.py:345-374 | Accepts exactly items that play at normal speed one straight after the other from named files, and otherwise refuses the first that does not, for the first thing wrong with it |
| `Remap.MappableIff` | sidecar/resolve_bridge.py:345-374 | An item is mappable exactly when it plays at normal speed from a named file and starts at the origin or where the one before it ends |
| `Remap.FlattenedIsContiguous` | sidecar/resolve_bridge.py:345-374 | The segments are contiguous exactly when no item has a negative duration |
| `BoundaryAirSafety.TrimsAreSafe` | src/BoundaryAir.cc:158-188 | Trimming leaves a positive duration and every part of every sustained group, and each trimmed side lies on the grid of source frames with at least the frames to keep and less than one more |
| `BoundaryAirSafety.TrimsAreDone` | src/BoundaryAir.cc:158-188 | An edge with at least the minimum of air is left with less than one frame more than the frames to keep, an edge with less is left alone, and the report tells the air found and exactly what was removed |
| `BoundaryAirSafety.TrimsAreEdges` | src/BoundaryAir.cc:158-188 | Each trim is for this clip, removes something, and no edge has two |
| `BoundaryAirSafety.SecondPassIsIdle` | src/BoundaryAir.cc:158-188 | Resolving the trimmed clip again emits no trim |
| `BoundaryAirSafety.JunctionTrimsAreSafe` | src/BoundaryAir.cc:190-234 | The same for the two sides of a junction, whose outer ends are not touched |
| `BoundaryAirSafety.JunctionTrimsAreDone` | src/BoundaryAir.cc:190-234 | With enough air on both sides together each is left with less than one frame more than the frames to keep, with less neither is touched, and the report tells exactly what was removed |
| `BoundaryAirSafety.JunctionTrimsAreEdges` | src/BoundaryAir.cc:190-234 | Only the tail of the left clip and the head of the right one are trimmed |
| `BoundaryAirSafety.SecondJunctionPassIsIdle` | src/BoundaryAir.cc:190-234 | Resolving the trimmed and rejoined junction again emits no trim |
| `BoundaryAirSafety.ResolveTwice` | src/BoundaryAir.cc:158-188 | Whatever the first call trims, the second call on the trimmed clip is accepted and emits no trim |
| `BoundaryAirSafety.ResolveJunctionTwice` | src/BoundaryAir.cc:190-234 | The same for a junction whose clips are trimmed and rejoined |
| `SpeechGroups.SpansAre` | src/SpeechOnset.cc:227-276 | Every voiced window is in a group, groups start and end with voice and are the gap apart, and no pause inside one is as long as the gap |
| `SpeechGroups.GroupsMean` | src/SpeechOnset.cc:227-276 | In seconds and levels: every window as loud as the floor is in a group, groups start and end with such windows and are the gap in milliseconds apart, and no pause as long is inside one; below the dynamic range there is none |
| `SpeechGroups.GroupsAreDisjoint` | src/SpeechOnset.cc:227-276 | The groups of any envelope are in order and disjoint |
| `SpeechGroups.BuildSpans` | src/SpeechOnset.cc:254-275 | The loop with its open group builds the spans |
| `SpeechGroups.BuildSpeechGroups` | src/SpeechOnset.cc:227-276 | Accepts exactly the stated ranges of grid, thresholds and levels, gives no group below the dynamic range, and otherwise the groups of the voiced windows |
| `BoundaryAirSafety.SpeechKept` | src/BoundaryAir.cc:57-111 | No part of any sustained group is cut off |
| `BoundaryAirSafety.MeasuresAgain` | src/BoundaryAir.cc:57-111 | Measuring what is left finds the same speech |
| `BoundaryAirSafety.AirIsSilent` | src/BoundaryAir.cc:88-111 | No sustained group is heard in the measured air; speech starts with one heard through its least length and ends with one |
| `BoundaryAirSafety.CutsKeepFrames` | src/BoundaryAir.cc:113-148 | The cuts lie on the grid of source frames and leave between the frames to keep and one more beside the speech |
| `BoundaryAir.Rounding` | src/Transcription.cc:623-633 | Rounding leads to the source grid and moves a time by less than a frame, in the direction asked |
| `BoundaryAir.FramesLast` | src/Transcription.cc:623-633 | As many frames as the numerator of the rate last as many seconds as its denominator |
| `BoundaryAir.MeasureBoundaries` | src/BoundaryAir.cc:57-111 | Measures from the first sustained group to the last, of the envelope's groups or, when it has none or was grouped with other thresholds, of rebuilt ones; refuses for the stated reason exactly clips of another source, without a grid, groups or sustained speech |
| `BoundaryAir.SustainedIff` | src/BoundaryAir.cc:88-103 | A group counts exactly when its part in the clip lasts as many analysis windows as are asked for |
| `BoundaryAir.KeptGroupsAreFound` | src/BoundaryAir.cc:72-85 | Groups kept from an earlier analysis are the groups that would be found again |
| `BoundaryAir.ValidateSettings` | src/BoundaryAir.cc:30-55 | Accepts exactly valid settings, and otherwise names the first requirement that is not met |
| `BoundaryAir.HeadTrim` | src/BoundaryAir.cc:118-130 | A trim exactly when the rounded cut lies after the clip's start |
| `BoundaryAir.TailTrim` | src/BoundaryAir.cc:132-148 | A trim exactly when the rounded cut lies before the clip's end |
| `BoundaryAir.ResolveBoundaryAir` | src/BoundaryAir.cc:158-188 | The trims and the report of one clip, and exactly when it is refused |
| `BoundaryAir.ResolveJunctionAir` | src/BoundaryAir.cc:190-234 | The trims and the report of a junction, and exactly when it is refused |
| `Bins.ValidateBins` | src/Document.cc:1481-1512 | Accepted exactly when ids are unique and new, names non-empty, parents exist and the parent relation is acyclic; a refusal names something that is wrong |
| `Bins.Walk` | src/Document.cc:1496-1512 | The ancestor walk terminates and reports a cycle only if there is one |
| `Bins.MetAgain` | src/Document.cc:1496-1512 | Meeting an ancestor twice means a cycle |
| `Bins.AllEnd` | src/Document.cc:1496-1512 | If every walk ends nothing lies on a cycle |
| `Bins.RegisterIds` | src/Document.cc:401-412 | Every id is registered exactly when all are valid and new and all names non-empty; a refusal names something that is wrong |
| `Bins.FindBin` | src/Document.cc:1989-1994 | The first bin with that id |
| `BinTreeShape.TreeOfHierarchy` | src/MediaPanelModel.h:113-131 | For an accepted list: every bin exactly once, each after its parent and one deeper, at the depth of its ancestor count |
| `BinTreeShape.TreeHasNoRepeats` | src/MediaPanelModel.h:113-131 | No bin is shown twice, cyclic lists included |
| `BinTreeShape.ShownOnce` | src/MediaPanelModel.h:113-131 | What is recorded as visited is exactly what was shown |
| `BinTreeShape.ShownAll` | src/MediaPanelModel.h:113-131 | Everything below what was shown is shown |
| `BinTreeShape.WayEnds` | src/Document.cc:1496-1512 | In a hierarchy every way up ends |
| `BinTree.BinNavigationTree` | src/MediaPanelModel.h:113-131 | The recursion with its visited set terminates and builds the tree |
| `BinTree.DirectChildBins` | src/MediaPanelModel.h:91-109 | One level, filtered by the search text and stably sorted by name |
| `BinTree.LevelIs` | src/MediaPanelModel.h:91-109 | A level is exactly the bins with that parent, in name order |
| `BinTree.FoundIs` | src/MediaPanelModel.h:91-109 | With a search text, exactly the bins there whose name contains it in any case, in name order |
| `BinTree.ContainsIff` | src/MediaPanelModel.h:91-109 | The text is found exactly where it occurs letter by letter in either case |
| `BinTree.FoundAt` | src/MediaPanelModel.h:91-109 | What is found is at exactly the places of the list that match, in list order |
| `BinTree.BeforeIs` | src/MediaPanelModel.h:91-109 | Names are ordered by their first difference, a proper prefix first |
| `BinTree.SameNamesStay` | src/MediaPanelModel.h:91-109 | Bins of one name stay in list order |
| `Keyframes.KeyframeTrack.Add` | src/Keyframes.cc:80-99 | Exactly that keyframe is added, in time order, or refused for the stated reason with nothing changed; ids stay unique and instants strictly increasing |
| `Keyframes.KeyframeTrack.Remove` | src/Keyframes.cc:101-110 | Exactly that keyframe goes, or nothing |
| `Keyframes.KeyframeTrack.Update` | src/Keyframes.cc:112-140 | Everything but the id is replaced and the order restored, or nothing changes |
| `Keyframes.ValidateIs` | src/Keyframes.cc:63-78 | A keyframe is accepted exactly with an id, a positive timebase, a known interpolation and a finite value, and refused for the first of these that fails |
| `Keyframes.LessIsEarlier` | src/Keyframes.cc:11-19 | Comparing cross products compares the rational instants |
| `KeyframeCurve.EvaluationIsCurve` | src/Keyframes.cc:142-176 | Evaluation is the curve through the keyframes at the rational instant |
| `KeyframeCurve.TimebaseIrrelevant` | src/Keyframes.cc:142-176 | Two spellings of one instant evaluate alike |
| `KeyframeCurve.KeysAreHit` | src/Keyframes.cc:142-176 | Every keyframe value is hit at its instant |
| `KeyframeCurve.OutsideClamps` | src/Keyframes.cc:142-176 | Outside the keyed range the end values hold |
| `KeyframeCurve.SegmentIsMonotone` | src/Keyframes.cc:142-176 | On a segment the value stays between the neighbours and never turns back; a hold segment is constant |
| `KeyframeCurve.SegmentIsStraight` | src/Keyframes.cc:21-33 | Between two neighbouring keys a linear segment gains value in proportion to the time since the first, and a held one gains none |
| `KeyframeCurve.FractionIsExact` | src/Keyframes.cc:21-33 | The integer fraction is the exact fraction of the way between the instants |
| `KeyframeCurve.FractionFits` | src/Keyframes.cc:21-33 | For 64-bit values and positive 32-bit rates no intermediate leaves signed 128 bits |
| `BeatStream.Analyze` | src/BeatDetection.cc:350-377 | However the byte stream is split into reads, the novelty list is that of the whole stream, and value k is stamped with sample (k + 1) * hop |
| `BeatStream.Analysis.Read` | src/BeatDetection.cc:362-377 | One read decodes what is whole, keeps the rest and processes every ready frame |
| `BeatStream.Analysis.ProcessFrame` | src/BeatDetection.cc:304-326 | One frame is taken, compared with the one before and a hop is dropped |
| `BeatStream.NoveltyStays` | src/BeatDetection.cc:304-326 | Later samples change no earlier novelty value |
| `BeatStream.NoveltyAt` | src/BeatDetection.cc:304-326 | Value i compares the magnitudes of frame i with those of the frame one hop later |
| `BeatStream.FluxIsRises` | src/BeatDetection.cc:313-319 | The flux is the sum of the rises |
| `BeatStream.NoFluxIff` | src/BeatDetection.cc:313-319 | It is never negative, and zero exactly when no value rose |
| `BeatStream.FluxBalance` | src/BeatDetection.cc:313-319 | The flux one way less the flux back is what the total gains |
| `BeatStream.SamplesAre` | src/BeatDetection.cc:362-374 | A sample is what its own four bytes decode to, and silence when that is not finite |
| `BeatStream.CountIsUnique` | src/BeatDetection.cc:304-326 | The number of frames is the only one that fits the samples |
| `BeatStream.StampsAt` | src/BeatDetection.cc:317-325 | Stamps count hops from the second frame |
| `BeatStream.JoinedInOrder` | src/BeatDetection.cc:362-377 | The whole stream is its reads, one after the other |
| `OnsetPicking.PickOnsets` | src/BeatDetection.cc:75-112 | Ascending peaks above threshold, each at least the gap after the last accepted one |
| `OnsetPicking.PickedMeaning` | src/BeatDetection.cc:75-112 | Any two onsets are at least the gap apart, and every peak left out is closer than the gap behind an accepted one |
| `OnsetPicking.LocalMax` | src/BeatDetection.cc:80-86 | True exactly when nothing in the neighbourhood is greater |
| `Aliases.PrintedNameResolves` | src/Cli.cc:564-601 | A printed clip alias typed in any case resolves to that clip, and is refused as ambiguous exactly when a library entry or marker carries the same alias |
| `Aliases.PrefixBack` | src/IdResolver.cc:10-20 | The letters read back as the ordinal, so they are injective on all ordinals |
| `Aliases.AliasIsInjective` | src/Cli.cc:522-532 | Letters plus clip number are equal exactly for the same track and clip |
| `Aliases.AliasReads` | src/Cli.cc:522-532 | An alias is the letters of the track and the number of the clip counted from one |
| `Aliases.NeverGuesses` | src/IdResolver.cc:93-147 | Unless the input is an id itself, what is found belongs to the only entry with that alias or, when there is none, is the only id that starts so |
| `Aliases.OnlyOneIsFound` | src/IdResolver.cc:93-147 | The only entry with that alias is found and, when there is none, the only id that starts so |
| `Aliases.RefusalsAreTrue` | src/IdResolver.cc:93-147 | No match means nothing has that alias or starts so, ambiguous means two different entries do, and a full id is always found |
| `Aliases.UpperIs` | src/IdResolver.cc:22-28 | Upper case changes exactly the lower-case letters, each into the letter at its place |
| `Aliases.AliasPrefix` | src/IdResolver.cc:10-20 | The loop builds the bijective base-26 letters |
| `Aliases.PrintedAliases` | src/Cli.cc:564-601 | The description numbers tracks in stable index order and clips within them |
| `Aliases.TracksInOrder` | src/IdResolver.cc:70-76 | Tracks are numbered by index, those of one index in their own order |
| `Aliases.IdResolver.constructor` | src/IdResolver.cc:66-91 | The alias list: clips of tracks in order, then library entries, then markers |
| `Aliases.IdResolver.Resolve` | src/IdResolver.cc:93-147 | Exact id, then the one alias that matches, then the one id that starts with the input; otherwise the stated refusal |

## Left out

- CommitArtifacts: the checks that artifacts share one safe directory and stay inside it (src/Cli.cc:238-269, 395-406) and symbolic links; all paths are relative to one root, and destinations are taken to be distinct and not to look like transaction files.
- Recovery.RecoverTransaction: that the removal of the marker is not made durable when its sync fails is modelled only as a reported error.
- Journal.ReadJournal: the check that a canonical path stays inside the directory (symbolic links); the refusal of absolute paths and of `..` is modelled.
- Storage.Disk.SyncDirectory: lost or reordered writes are not modelled; primitives take effect in order.
- Fft.Forward: floating-point rounding; the arithmetic is that of an exact ring, and that cosine and sine give halving roots is a hypothesis for lengths above four.
- DeltaPatch.PatchIsExact: the duration and sequence settings of a delta and its JSON form; overflow of rational times.
- JsonParser.Parser.ParseDocument: the wording of error messages and the C++ stack depth; problems are named and carry the same byte position.
- JsonMagnitude.FiniteByDigits: the conversion of a literal to a double; where digits and exponent are 309 together the digits themselves decide.
- JsonAccess.IntegerBack: numbers made from doubles.
- EditHistory.Engine: the operations themselves, Timeline and RationalTime; generated identities are a seed.
- LogReading.Deserialize: the JSON form of single operations and the file reading and writing around it.
- PlayedWords.SelectOccurrences: loading transcripts, finding candidates and cutting cues; fragments of one word are the input.
- SpanRanges.RangeIsRun: what the range covers is stated for spans of non-negative duration; which runs are accepted is stated for all.
- MediaTaskRuns.AlwaysInvariant: threads, condition variables, timeouts, progress and labels; a worker's work is any outcome.
- FrameCache.FrameCache.Put: a frame whose size is unknown and one that cannot be retained are one case; frame contents and reference counts.
- FrameCache.FrameCache.WindowForSource: overflow of the window arithmetic.
- Remap.FlattenTimeline: the scripting interface, the parsing of the frame-rate text and the French messages.
- BoundaryAir.ResolveBoundaryAir: linked clips, synchronised tracks and reports as JSON; analysis grids above 31 bits; overflow of rational times.
- BoundaryAirSafety.SecondPassIsIdle: groups stored in an envelope are taken to be in order and disjoint, which the builder is proved to make them.
- SpeechGroups.BuildSpeechGroups: the loudness and peak of a group, and the logarithm that gives decibels.
- Bins.ValidateBins: the other checks of a document's validation; ids registered before are a parameter.
- BinTree.DirectChildBins: lower case is that of ASCII letters.
- KeyframeCurve.EvaluationIsCurve: rounding of floating-point values and the refusal of results that overflow; values are exact.
- BeatStream.Analyze: the Hann window, process and pipe handling and cancellation; the arithmetic of magnitudes is a parameter.
- OnsetPicking.PickOnsets: the adaptive threshold is an input sequence; tempo estimation.
- Aliases.PrintedNameResolves: collecting a document's ids; completeness of short id prefixes is not claimed because one id may be listed twice.
- Colour management, decoding workers, HTTP and language-model clients, and the field-by-field document mapping: foreign, floating-point or repetitive code without a hard exact statement.
