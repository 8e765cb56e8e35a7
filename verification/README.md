# Control RR / frame-generation bridge: a verified model

This project models the parts of the repository that decide something by themselves, apart from the
graphics API: the validator of untrusted DXBC shader blobs, the Ray Reconstruction frame protocol, the
selection and replay of draw batches, the retirement of GPU objects behind fences, the all-or-rollback
installation of code patches with their relative encodings, and two pieces of exact arithmetic.

Each component follows the form of its source. Code that changes state in place is a class or a method
over arrays; its `ensures` ties the new state to a function of the old one (a `...Step` function or a
predicate), and the properties are lemmas about that function. Where a component is driven by arbitrary
calls, a run is a sequence of entries (state before, call, outcome, state after), and the main results
hold for every run. What the engine, the driver or the device answers is a parameter, so any of it may
fail at any point.

| files | component |
|---|---|
| `Layout.dfy`, `Shader*.dfy` | the shader validator: container, signature, resource table, operands, control flow, program, its tables in numbers, what acceptance guarantees, and the session that memoises pairs |
| `FrameCoordinator.dfy`, `FrameProgress.dfy`, `FrameSlots.dfy`, `FrameSlotHistory.dfy`, `FrameSlotProgress.dfy` | the frame protocol and the three leased slots |
| `KeyBits.dfy`, `AlbedoAccess.dfy`, `MaterialFamily.dfy`, `EyeVariants.dfy`, `AlbedoSelection.dfy`, `AlbedoPrepare.dfy`, `AlbedoReplacement.dfy` | which batches can be replayed, and why the others cannot |
| `ReplayFilter.dfy`, `DrawRanges.dfy`, `ReplayStage.dfy`, `DiffuseJoin.dfy`, `ReplayPipeline.dfy` | compaction, draw ranges, the join, and one frame from its preparation to its join |
| `DiffuseResize.dfy`, `DiffuseResizeHistory.dfy`, `DiffuseResizeProgress.dfy` | the life of the replay targets |
| `PixelCapture.dfy`, `PixelCaptureHistory.dfy`, `PixelCaptureProgress.dfy` | the 160-entry capture table |
| `SdrCopyRing.dfy`, `SdrRingHistory.dfy`, `SdrRingProgress.dfy` | the ring of asynchronous copies |
| `PatchInstall.dfy`, `RelativeEncodings.dfy` | patch installation and rel32 encodings |
| `ProjectionPair.dfy`, `Crc32.dfy` | the projection check over reals, and CRC-32 (section 8 of RFC 1952) |

The shader validator is specified by an independent reading of the blob: `IsContainer`, `SignatureOk`,
`IsTable`, operand trees with the words they spell, programs as sequences of instructions that tile the
code, and a grammar of structured control flow. The imperative reader accepts a blob exactly when such a
reading exists, and a blob has at most one. Blobs are sequences, so every read the reader makes is an
index that Dafny has shown to be in range, and every member terminates.

Every state machine has two companions. Its `...History` says what no run ever does. Its `...Progress` says
what it does: exactly when each call succeeds, stops or fails, and that undisturbed runs go on, for any
number of frames or copies. The tables of the shader validator are stated once more in plain numbers, and
`ShaderSample` shows that shaders assembled from any list of plain instructions are accepted.

Three results say where the code does less than its name.

* The join compares totals. `DiffuseJoin.JoinProvesCoverage` says what that proves: while the 32-bit
  counter does not wrap, every accepted batch was drawn if and only if no accepted batch lies in two of the
  replayed ranges. `DiffuseJoin.OverlapHidesMiss` gives draws that go through although one batch was never
  drawn; `DiffuseJoin.PartitionJoins` and `ReplayPipeline.PrepareDiffuse` show that draws which partition
  the source range never do.
* The rollbacks of the two start-up call sites free the relay of a call even when the call itself could not
  be rewritten. `PatchInstall.Configure` proves that a hooked call without its relay is left behind exactly
  when the first call went in, the second did not, the first could not be rewritten any more, and its relay
  was freed; `PatchInstall.RelayFreedTooEarly` is one such start-up.
* `ReplayFilter.ClassesUnused` shows that two of the four counters of the capture filter stay zero whenever
  the source batches can be read again and the session holds at most 128 shaders, which
  `ShaderSessionHistory.ValidMeansAccepted` proves of it.

## Model

| member | source | states |
|---|---|---|
| ShaderBytes.TableFits | src/rr_albedo_shader.h:46-48 | the division in the bounds check of a record table means that all records end inside the extent |
| ShaderBytes.StringAt | src/rr_albedo_shader.h:49-65 | finds exactly whether a terminated string, optionally a given name up to letter case, starts at an offset |
| ShaderContainer.ReadContainer | src/rr_albedo_shader.h:71-126 | accepts a blob exactly when it is a well-formed container, and returns its roles |
| ShaderContainer.ContainerUnique | src/rr_albedo_shader.h:71-126 | a blob is a container in at most one way |
| ShaderContainer.ChunksDisjoint | src/rr_albedo_shader.h:78-112 | all chunks of an accepted container lie in the blob behind the chunk table and are pairwise disjoint |
| ShaderContainer.Overlaps | src/rr_albedo_shader.h:89-92 | the scan over the spans read so far finds an overlap exactly when there is one |
| ShaderContainer.ReadTable | src/rr_albedo_shader.h:78-112 | the chunk loop accepts exactly the tables whose chunks fit, stay apart and fill each role at most once |
| ShaderSignature.ReadOutputs | src/rr_albedo_shader.h:127-169 | accepts exactly the usable output signatures and publishes the masks of every target record |
| ShaderSignature.TargetsCover | src/rr_albedo_shader.h:127-169 | distinct target registers below the count leave no target without its record |
| ShaderResources.ReadResources | src/rr_albedo_shader.h:190-238 | accepts exactly the well-formed resource tables without clashing ranges, and returns their bindings |
| ShaderResources.TableUnique | src/rr_albedo_shader.h:190-238 | a resource chunk has at most one list of bindings |
| ShaderResources.RegistersOwnedOnce | src/rr_albedo_shader.h:190-238 | a register of one class and space belongs to at most one entry of an accepted table |
| ShaderOperand.ReadOperand | src/rr_albedo_shader.h:253-325 | the recursive reader accepts exactly the words that spell a permitted operand tree, and ends behind them |
| ShaderOperand.OperandUnique | src/rr_albedo_shader.h:253-325 | words spell at most one operand tree, so no other split of the same words is possible |
| ShaderOperand.ReadExtensions | src/rr_albedo_shader.h:266-276 | follows exactly the chain of extension words |
| ShaderOperand.ReadIndices | src/rr_albedo_shader.h:291-306 | reads exactly the indices of an operand, including the operands nested in them |
| ShaderControl.CheckOpcode | src/rr_albedo_shader.h:451-468 | one opcode is accepted exactly when the open blocks permit it, and updates the stack of blocks in place |
| ShaderControl.StructuredPasses | src/rr_albedo_shader.h:451-482 | a structured part that fits in the remaining depth passes the checks and leaves the stack as it was |
| ShaderControl.StructuredPrefix | src/rr_albedo_shader.h:451-482 | whatever passes the checks starts with a structured part of the grammar |
| ShaderControl.BalancedIffStructured | src/rr_albedo_shader.h:451-482 | the checker accepts exactly the opcode sequences of structured programs nested at most 64 deep |
| ShaderControl.EmitInjective | src/rr_albedo_shader.h:451-482 | the grammar is unambiguous: the opcodes determine the structured program |
| ShaderControl.PlaceGovernsJumps | src/rr_albedo_shader.h:463-468 | the search of the open blocks for a jump's target finds a loop or switch exactly when one encloses it |
| ShaderProgram.ReadInstruction | src/rr_albedo_shader.h:365-478 | reads one instruction exactly when one of the three kinds is spelled at the position and is allowed in the current state |
| ShaderProgram.ReadExecutable | src/rr_albedo_shader.h:378-477 | accepts exactly the executable instructions of the operand table whose operands fill their length |
| ShaderProgram.ReadDeclaration | src/rr_albedo_shader.h:391-446 | accepts exactly the declarations that spell their operand and trailing words, and marks the entry they declare |
| ShaderProgram.ReadCustom | src/rr_albedo_shader.h:369-377 | skips exactly the custom data blocks that lie inside the code |
| ShaderReader.ReadProgram | src/rr_albedo_shader.h:359-484 | accepts exactly the code words that are a program, and counts its instructions |
| ShaderReader.InstructionUnique | src/rr_albedo_shader.h:365-478 | at most one instruction is spelled at a position |
| ShaderReader.ProgramUnique | src/rr_albedo_shader.h:359-484 | code words are a program in at most one way |
| ShaderParser.Parse | src/rr_albedo_shader.h:485-496 | accepts exactly the blobs that have a complete reading, and publishes its contract |
| ShaderParser.ShaderUnique | src/rr_albedo_shader.h:485-496 | a blob has at most one container, table, program and contract |
| ShaderParser.InstructionsTile | src/rr_albedo_shader.h:361-478 | the instructions of an accepted shader, with their nested operands, tile the code from word 2 to its end |
| ShaderParser.ControlIsStructured | src/rr_albedo_shader.h:451-484 | the opcodes of an accepted shader are those of a structured program |
| ShaderParser.DestinationsAllowed | src/rr_albedo_shader.h:337-358 | every executed instruction has exactly the operands its opcode takes by number, the first of them written and only where writes are allowed, and no null source |
| ShaderTables.OperandTable | src/rr_albedo_shader.h:337-358 | for every opcode, how many operands it takes and how many it writes, or that it is not supported |
| ShaderTables.ControlOperands | src/rr_albedo_shader.h:337-358 | the opcodes of control flow take one operand or none, and write nothing |
| ShaderTables.OpcodesApart | src/rr_albedo_shader.h:388-391 | no opcode is both executed and declared, and none that writes to memory is either |
| ShaderTables.DeclarationTable | src/rr_albedo_shader.h:391-446 | an accepted declaration names an operand of the kinds its opcode allows and has exactly the words behind it that the opcode and the model ask for |
| ShaderTables.DeclaringOpcodes | src/rr_albedo_shader.h:391-407 | which opcodes declare an operand, a limit or a resource |
| ShaderTables.LimitsTable | src/rr_albedo_shader.h:394-399 | the declarations of limits and the flag bits that are accepted, and no others |
| ShaderTables.TokenFields | src/rr_albedo_shader.h:258-260 | the reader takes components, selection, kind, dimensions and representations from the bits where they were put |
| ShaderTables.TokenSelection | src/rr_albedo_shader.h:259-262 | components, selection and write mask read back |
| ShaderTables.InstructionFields | src/rr_albedo_shader.h:365-379 | opcode, length and extension bit of an instruction read back |
| ShaderTables.OperandShape | src/rr_albedo_shader.h:253-306 | an accepted operand has a permitted kind, the indices its kind and model ask for in the representations its token says, and only registers inside them |
| ShaderTables.RegisterAccepted | src/rr_albedo_shader.h:253-306 | every plain register is accepted at every permitted depth |
| ShaderTables.IndexedAccepted | src/rr_albedo_shader.h:291-306 | a register array indexed by an accepted register is accepted, one level above it |
| ShaderTables.ResourceAccepted | src/rr_albedo_shader.h:310-323 | a declared 5.1 resource at a known register of its range is accepted |
| ShaderTables.InputAccepted | src/rr_albedo_shader.h:402-417 | the declaration of an input register before the executable part is accepted |
| ShaderTables.ExtensionTable | src/rr_albedo_shader.h:266-276 | an extension word is accepted exactly when it is one of the four modifiers, with the non-uniform mark only where it may stand |
| ShaderTables.CustomTable | src/rr_albedo_shader.h:369-377 | which custom data blocks are accepted, and where |
| ShaderTables.DestinationTable | src/rr_albedo_shader.h:326-334 | which operands may be written |
| ShaderTables.RoleTable | src/rr_albedo_shader.h:94-111 | the role of a chunk by its four letters |
| ShaderTables.PixelRecordTable | src/rr_albedo_shader.h:143-163 | exactly which signature records of a pixel shader are accepted |
| ShaderTables.BindingTable | src/rr_albedo_shader.h:216-226 | the operand class of a resource record and exactly the registers it owns |
| ShaderTables.SlotsTable | src/rr_albedo_shader.h:211-214 | exactly which slot ranges are accepted in either model |
| ShaderAcceptance.TargetsDeclaredOnce | src/rr_albedo_shader.h:435-443 | every target of an accepted pixel shader is declared by exactly one instruction, with the mask of the signature |
| ShaderAcceptance.OutputsAreTargets | src/rr_albedo_shader.h:435-443 | nothing else is declared as an output of a pixel shader |
| ShaderAcceptance.DeclarationsFirst | src/rr_albedo_shader.h:375-393 | in an accepted shader nothing is declared behind an executed instruction |
| ShaderAcceptance.ReturnsSomewhere | src/rr_albedo_shader.h:469-480 | an accepted shader returns somewhere and has at most 65536 instructions |
| ShaderAcceptance.TargetMasks | src/rr_albedo_shader.h:149-160 | a target of an accepted pixel shader always writes its three colour components |
| ShaderAcceptance.PlainProgramsAccepted | src/rr_albedo_shader.h:359-484 | any list of plain instructions that ends in a return, spelled out, is a program |
| ShaderSample.ShellAccepted | src/rr_albedo_shader.h:485-496 | with any program in its code, a vertex shader with a signature record and an empty resource table has a reading |
| ShaderSample.SampleAccepted | src/rr_albedo_shader.h:485-496 | a vertex shader assembled from any such list, a signature record and an empty resource table has a reading |
| ShaderSample.ParseSample | src/rr_albedo_shader.h:485-496 | so it is accepted, with its number of instructions |
| ShaderDeclarations.ReaderTracks | src/rr_albedo_shader.h:391-446 | the declared flags the reader keeps are those of the declarations read so far |
| ShaderDeclarations.DeclaredOnce | src/rr_albedo_shader.h:391-446 | no entry of the resource table is declared twice |
| ShaderDeclarations.ResourceDeclared | src/rr_albedo_shader.h:310-323 | in an accepted model 5.1 shader a resource operand names an entry that exactly one earlier instruction declared, with its range and space |
| ShaderDeclarations.ConstantsInRange | src/rr_albedo_shader.h:319-321 | a known vector of a constant buffer lies inside the size its one declaration gave |
| ShaderDeclarations.EveryEntryDeclared | src/rr_albedo_shader.h:479-483 | every entry of the table is declared, and by one instruction only |
| ShaderDeclarations.EntriesDisjoint | src/rr_albedo_shader.h:190-238 | entries of one class and space have disjoint ranges in an accepted shader |
| ShaderDeclarations.IndicesAreRegisters | src/rr_albedo_shader.h:300-305 | an operand nested in an index is a register and never a resource, within the nesting limit |
| ShaderSession.Session.ValidatePair | src/rr_albedo_shader.h:578-626 | the whole new session and answer, for any answers of the engine and of the allocator; what they mean is stated by the rows of ShaderSessionHistory |
| ShaderSession.Session.ReadBlob | src/rr_albedo_shader.h:557-571 | a read succeeds within size and budget only, and an untrusted copy still counts against the budget |
| ShaderSession.Session.Keep | src/rr_albedo_shader.h:602-607 | comparing hashes before bytes finds the first stored shader with equal bytes, or stores a new one if there is memory for it |
| ShaderSession.AcceptedTargets | src/rr_albedo_shader.h:127-166 | an accepted pixel shader has one target or two |
| ShaderSession.Examiner | src/rr_albedo_shader.h:485-496 | the reading of a blob is a function of its bytes and stage, so the session's parser exists |
| ShaderSessionHistory.AlwaysWellFormed | src/rr_albedo_shader.h:550-626 | in every run at most 128 pairs and 16 MiB are held, stored shaders differ, and valid pairs point to accepted ones |
| ShaderSessionHistory.AnswersStand | src/rr_albedo_shader.h:582-585 | a pair once judged gets the same answer ever after and changes nothing, whatever the engine answers by then |
| ShaderSessionHistory.FirstAnswerStands | src/rr_albedo_shader.h:582-593 | the first answer about a pair, whatever its reads came to, is given ever after, and later calls about it read and charge nothing |
| ShaderSessionHistory.RefusedUnread | src/rr_albedo_shader.h:581-586 | without a getter, or beyond 128 pairs, nothing is read or kept |
| ShaderSessionHistory.NewPairCharged | src/rr_albedo_shader.h:557-571 | a new pair is charged for each of its reads in turn, trusted or not, up to the first that gives nothing |
| ShaderSessionHistory.PixelKept | src/rr_albedo_shader.h:601-607 | a pixel shader that could be read is stored and named in the answer, whether or not the pair is valid |
| ShaderSessionHistory.ValidMeansAccepted | src/rr_albedo_shader.h:612-621 | a valid answer names one of at most 128 stored shaders, accepted with the target count of the answer |
| ShaderSessionHistory.NewPairValidIff | src/rr_albedo_shader.h:586-621 | a call about a new pair answers valid exactly when there is room for it, three blobs can be read in the budget and the last one stored, the vertex shaders are equal and both stages are accepted |
| FrameCoordinator.RRFrameCoordinator.Begin | src/rr_frame_coordinator.h:21-45 | the whole new state and result of beginning a frame, in every branch; what they mean is stated by the rows of FrameProgress |
| FrameCoordinator.RRFrameCoordinator.FeatureResult | src/rr_frame_coordinator.h:46-53 | the whole new state and result of feature creation |
| FrameCoordinator.RRFrameCoordinator.HistoryResetResult | src/rr_frame_coordinator.h:55-58 | the whole new state and result of a history reset |
| FrameCoordinator.RRFrameCoordinator.BeginLighting | src/rr_frame_coordinator.h:59-63 | the whole new state and result of beginning lighting |
| FrameCoordinator.RRFrameCoordinator.BeginEvaluation | src/rr_frame_coordinator.h:64-67 | the whole new state and result of beginning evaluation |
| FrameCoordinator.RRFrameCoordinator.EvaluationResult | src/rr_frame_coordinator.h:68-71 | the whole new state and result of an evaluation |
| FrameCoordinator.RRFrameCoordinator.CompleteSR | src/rr_frame_coordinator.h:72-77 | the whole new state and result of completing an SR frame |
| FrameCoordinator.HistoryTrusted | src/rr_frame_coordinator.h:21-71 | in every run, an RR frame that completes without a reset was begun directly after a completed RR frame of the same extent and effects |
| FrameCoordinator.RecoveringExcludes | src/rr_frame_coordinator.h:21-81 | at every call boundary recovering excludes being selected and being stopped |
| FrameCoordinator.StoppedForever | src/rr_frame_coordinator.h:78-81 | once stopped, the first reason stays and no later frame is selected |
| FrameCoordinator.SelectionNeedsRecovery | src/rr_frame_coordinator.h:26-77 | after an extent change or a frame abandoned at Ready no frame is selected until an SR frame completed with a matching frame and clean history |
| FrameCoordinator.RecoveryCompletes | src/rr_frame_coordinator.h:21-77 | recovery can always be left: one clean SR frame, and the next RR frame is selected with a reset |
| FrameCoordinator.CompletedInOrder | src/rr_frame_coordinator.h:46-71 | a completed RR frame was created, lit and evaluated, in that order, under its own frame number |
| FrameCoordinator.SelectedFramesIncrease | src/rr_frame_coordinator.h:21-45 | selected frames carry strictly increasing frame numbers |
| FrameProgress.StepStops | src/rr_frame_coordinator.h:21-81 | a call stops the coordinator exactly when it breaks the protocol, for that reason, and otherwise reports success |
| FrameProgress.StoppedIffOffended | src/rr_frame_coordinator.h:21-81 | in every run, the coordinator has stopped exactly when some call broke the protocol, for the reason of the first that did |
| FrameProgress.RecoveringIff | src/rr_frame_coordinator.h:21-77 | in every run, recovery goes on exactly while a disturbance is unrecovered and nothing broke the protocol |
| FrameProgress.SelectedIff | src/rr_frame_coordinator.h:21-45 | in every run, exactly when a frame is selected |
| FrameProgress.ResetIff | src/rr_frame_coordinator.h:36-53 | in every run, an RR frame completes without a reset exactly when it carries on the history of the completed frame before it |
| FrameProgress.CleanedIff | src/rr_frame_coordinator.h:35-58 | in every run, a frame that is not selected has its reset set exactly when its history was reset |
| FrameProgress.DirtyIff | src/rr_frame_coordinator.h:54-63 | in every run, the history is dirty exactly when lighting was begun since it was last reset |
| FrameProgress.ResizingIff | src/rr_frame_coordinator.h:41-52 | in every run, a resize goes on from a change of extent until an RR feature is created |
| FrameProgress.FrameCompletes | src/rr_frame_coordinator.h:21-71 | an RR frame of the same extent goes through all its stages, and when it resets its history |
| FrameProgress.SteadyFrames | src/rr_frame_coordinator.h:21-71 | any number of RR frames of one extent complete, and only the first and those that change the effects reset their history |
| FrameProgress.FeatureMissing | src/rr_frame_coordinator.h:48 | a frame whose super-resolution feature could not be made is over, without a fault |
| FrameProgress.SuperResolutionCompletes | src/rr_frame_coordinator.h:21-77 | a frame that is not selected completes by super resolution from wherever the frame before can be left, with a clean history and recovery ended |
| FrameSlots.FrameSlots.Bind | src/rr_frame_slots.h:26-31 | the whole new state and result of binding a fence |
| FrameSlots.FrameSlots.Collect | src/rr_frame_slots.h:32-39 | the loop frees exactly the submitted slots whose value was reached |
| FrameSlots.FrameSlots.Begin | src/rr_frame_slots.h:40-51 | leases the first free slot under a new serial exactly when the key may be leased |
| FrameSlots.FrameSlots.CommandsStarted | src/rr_frame_slots.h:52-55 | the whole new state and result of starting commands |
| FrameSlots.FrameSlots.GuidesReady | src/rr_frame_slots.h:56-59 | the whole new state and result of having the guides ready |
| FrameSlots.FrameSlots.TakeEvaluation | src/rr_frame_slots.h:60-67 | the whole new state and result of taking the evaluation of a lease |
| FrameSlots.FrameSlots.Submit | src/rr_frame_slots.h:68-74 | the whole new state and result of a submission, including retention on a bad value; that its slot comes back is SubmittedIsFreed |
| FrameSlots.FrameSlots.Abort | src/rr_frame_slots.h:75-78 | the whole new state and result of an abort |
| FrameSlotHistory.AlwaysWellFormed | src/rr_frame_slots.h:26-78 | in every run submitted slots wait for distinct values above the completed and up to the last signalled one, and keys and leases are distinct |
| FrameSlotHistory.DuplicateScanSilent | src/rr_frame_slots.h:44-46 | the scan for a duplicate frame can never find one |
| FrameSlotHistory.StaleRefused | src/rr_frame_slots.h:21-24 | a lease that no longer matches its slot is refused and changes nothing |
| FrameSlotHistory.StaleForever | src/rr_frame_slots.h:40-78 | once its slot was leased again a lease is refused for good |
| FrameSlotHistory.SerialsIncrease | src/rr_frame_slots.h:47-49 | leases carry strictly increasing serials |
| FrameSlotHistory.RetainedForever | src/rr_frame_slots.h:68-78 | a retained slot never changes and is never leased again |
| FrameSlotHistory.ReuseWaitsForFence | src/rr_frame_slots.h:32-78 | a slot that recorded commands is leased again only after a successful submission with a value and a later collection of at least that value on the same fence |
| FrameSlotHistory.LeasedKeysIncrease | src/rr_frame_slots.h:44-48 | within one binding leased keys strictly increase in epoch and frame |
| FrameSlotHistory.EvaluatedOnce | src/rr_frame_slots.h:60-67 | within one binding a key is evaluated at most once, and only while it is the newest |
| FrameSlotProgress.SucceedsIff | src/rr_frame_slots.h:26-78 | exactly when each of the eight calls succeeds |
| FrameSlotProgress.BeginLeases | src/rr_frame_slots.h:47-49 | a key that may be leased gets the first free slot under the next serial, and nothing else changes |
| FrameSlotProgress.SubmittedIsFreed | src/rr_frame_slots.h:32-39 | in every run, once a lease was submitted and a later collection on the same fence reported its value, its slot is free or leased again |
| FrameSlotProgress.FreedIsLeased | src/rr_frame_slots.h:40-51 | and while it is free, a newer usable key is leased |
| FrameSlotProgress.RetainedIff | src/rr_frame_slots.h:68-78 | in every run, a slot is retained exactly when its lease was aborted after recording or submitted with a value that cannot be signalled |
| FrameSlotProgress.LostIff | src/rr_frame_slots.h:26-36 | in every run, the fence counts as lost exactly when it was reported gone since it was bound |
| FrameSlotProgress.BindStarts | src/rr_frame_slots.h:26-31 | binding another fence starts its counters and keys afresh |
| FrameSlotProgress.CycleCompletes | src/rr_frame_slots.h:40-74 | a frame with a newer key and value goes through all its calls, and then every submitted slot is free |
| FrameSlotProgress.FramesGoOn | src/rr_frame_slots.h:26-78 | any number of frames go through, one after the other |
| KeyBits.CanonicalBit | src/rr_albedo_prepare.h:155-160 | a bit of the looked-up key is forced or requested, and not cleared |
| KeyBits.CanonicalIsStable | src/rr_albedo_prepare.h:155-160 | asking for the key that a lookup used finds the same key |
| KeyBits.RequestedBit | src/rr_albedo_prepare.h:191-193 | bits 22 and 31 are stripped, 25 is forced, and so is 1 unless the family is foliage |
| MaterialFamily.ReadMaterialFamily | src/rr_albedo_prepare.h:194-209 | the two loops find exactly the cleaned base name of the terminated string, cut to the capacity |
| MaterialFamily.NamesOnce | src/rr_albedo_prepare.h:194-209 | a string names at most one family |
| MaterialFamily.IsStandardMaterialName | src/rr_albedo_prepare.h:134-149 | the older test for a standard material finds exactly the strings whose base name, letter case aside, is one of three |
| MaterialFamily.StandardNameAgrees | src/rr_albedo_prepare.h:134-190 | it agrees with the family classification |
| EyeVariants.SelectEyeVariant | src/rr_eye_variants.h:5-51 | returns a record exactly when the table is valid and that record is its only match; the keys and verdicts in the evidence are those of the records reached, the count is that of the matches |
| EyeVariants.Recheck | src/rr_eye_variants.h:36-47 | the second reading of the table never differs when memory is pure |
| AlbedoSelection.SelectStandardAlbedo | src/rr_albedo_prepare.h:297-335 | returns the replacement exactly when the batch's techniques, key, family and shaders all meet the contract |
| AlbedoSelection.DiagnoseReject | src/rr_albedo_prepare.h:246-288 | returns the first check that fails, in the order in which the source makes them |
| AlbedoSelection.FirstFailureOnce | src/rr_albedo_prepare.h:246-288 | a batch has exactly one diagnosis |
| AlbedoSelection.DiagnosisAgrees | src/rr_albedo_prepare.h:246-335 | the diagnosis falls through to the validator exactly when the instance is valid and the selector accepts |
| AlbedoPrepare.PreparedReplay.Prepare | src/rr_albedo_prepare.h:336-383 | succeeds exactly when the range is valid and readable and enough of it is kept, covers the range asked for, all of it when the end is negative, and then holds exactly the kept batches, in order; a failure leaves empty arrays and the audit of the batches reached |
| AlbedoPrepare.PreparedReplay.RecordReject | src/rr_albedo_prepare.h:289-296 | one counter, the total and the first 64 examples move with the forced or diagnosed reason |
| AlbedoPrepare.PreparedReplay.Consider | src/rr_albedo_prepare.h:360-375 | one turn of the loop keeps the batch with its replacement or records one reason |
| AlbedoPrepare.AfterPrepared | src/rr_albedo_prepare.h:360-375 | the three arrays stay parallel and strictly increasing, and hold a batch exactly when it is kept |
| AlbedoPrepare.AfterCounted | src/rr_albedo_prepare.h:289-296 | each counter is the number of batches rejected for its reason |
| AlbedoPrepare.AfterAudited | src/rr_albedo_prepare.h:289-296 | the counters sum to the total, and the examples are as many as the total up to 64 |
| AlbedoPrepare.AfterTallied | src/rr_albedo_prepare.h:360-382 | kept and rejected batches add up to the range |
| AlbedoPrepare.ValidatorBlamed | src/rr_albedo_prepare.h:365-373 | the validator is blamed for a batch exactly when the selector accepted it and the validator did not |
| AlbedoReplacement.ReadsAre | src/rr_albedo_prepare.h:125-133 | what a read gives, and when it is refused |
| AlbedoReplacement.BatchesAre | src/rr_albedo_prepare.h:361 | batches stand 40 bytes apart |
| AlbedoReplacement.KeptIff | src/rr_albedo_prepare.h:361-375 | exactly which source batches are kept, and that only their shader changes |
| AlbedoReplacement.SelectsIff | src/rr_albedo_prepare.h:297-335 | a replacement is selected exactly when everything the contract asks for can be read, by offset and number, from the engine |
| AlbedoReplacement.ReplacementKeyBits | src/rr_albedo_prepare.h:155-160 | every bit of a replacement key in terms of the original key and the family |
| AlbedoReplacement.ReplacementStages | src/rr_albedo_prepare.h:325-334 | every replacement, eye variants included, has exactly a vertex and a pixel stage |
| AlbedoReplacement.MaterialContract | src/rr_albedo_prepare.h:161-188 | the six words that the techniques of a selected material carry, by family |
| AlbedoReplacement.FamilyNames | src/rr_albedo_prepare.h:161-188 | the names of each family, and no others |
| AlbedoReplacement.EyeVariantIff | src/rr_eye_variants.h:5-51 | the search of an eye technique finds a record exactly when the inline table is as it should be and that record alone matches |
| AlbedoReplacement.OrderedReasons | src/rr_albedo_prepare.h:246-288 | the order in which the checks of a diagnosis are made |
| AlbedoReplacement.ReasonFacts | src/rr_albedo_prepare.h:246-262 | what a diagnosis says of the batch itself |
| ReplayFilter.FilterDiffuse | src/rr_diffuse_replay.h:121-135 | the in-place loop leaves exactly the kept elements of all three arrays and the recomputed coverage |
| ReplayFilter.FilterCapture | src/rr_albedo_capture.h:182-225 | the same for the capture, with the four counters and the marks of the used shaders |
| ReplayFilter.KeptMeans | src/rr_diffuse_replay.h:123-130 | an element is kept exactly when it fits and has the target count of the first that fits |
| ReplayFilter.DiffuseKept | src/rr_diffuse_replay.h:123-130 | the recurring replay keeps exactly the batches with one or two targets, as many as the first of them has |
| ReplayFilter.CaptureKept | src/rr_albedo_capture.h:187-213 | the capture keeps exactly those whose shader is among the first 128, with the target count of the first |
| ReplayFilter.FiltersAgree | src/rr_albedo_capture.h:187-213 | with the contracts of a session both filters keep the same batches |
| ReplayFilter.OneTargetCount | src/rr_albedo_capture.h:206-218 | all kept elements have one target count |
| ReplayFilter.KeptPublishable | src/rr_diffuse_replay.h:123-132 | either filter keeps the arrays parallel, strictly increasing and inside the source range |
| ReplayFilter.ClassesAddUp | src/rr_albedo_capture.h:187-218 | every element is kept or counted in exactly one of the four classes |
| ReplayFilter.ClassesUnused | src/rr_albedo_capture.h:187-213 | two of the classes stay empty when sources are readable and shader indices below the cap |
| ReplayFilter.PreparedStillReadable | src/rr_albedo_capture.h:184-189 | with pure memory a prepared batch can be read again, although its address is not range-checked here |
| ReplayFilter.CaptureReconciled | src/rr_albedo_capture.h:182-225 | the audit total and the four counters sum to the rejected batches, as the report claims |
| DrawRanges.LowerBound | src/rr_albedo_prepare.h:409-410 | the binary search finds the first position not less than the value |
| DrawRanges.PrepareDrawRange | src/rr_albedo_prepare.h:397-425 | succeeds exactly when some accepted batch lies in a valid range, to the end of the source range when the end is negative, and then shows exactly the batches of that range with its coverage and family counts |
| DrawRanges.FamiliesAddUp | src/rr_albedo_prepare.h:417-419 | the seven family counters add up to the batches shown, the first of them unused |
| DrawRanges.SumIsTotal | src/rr_albedo_prepare.h:407-414 | when no batch lies in two ranges, the counts sum to the number of batches exactly when every batch is in some range |
| DrawRanges.TotalMeansCovered | src/rr_diffuse_join.h:9-12 | counts that sum to the number of batches cover every batch exactly when no batch lies in two ranges |
| DrawRanges.InOneRange | src/rr_albedo_prepare.h:407-414 | a batch covered by disjoint ranges is in exactly one of them |
| DiffuseJoin.DiffuseReplay.DrawCallback | src/rr_diffuse_draw.h:3-35 | the whole new state of the counters in every branch of a draw |
| DiffuseJoin.DiffuseReplay.JoinComplete | src/rr_diffuse_join.h:2-17 | the new stage and the first failure of the join |
| DiffuseJoin.BatchesAreSum | src/rr_diffuse_draw.h:35 | in every run of draws the counter is the sum, modulo 2^32, of what the replayed ranges hold |
| DiffuseJoin.JoinedIffCovered | src/rr_diffuse_join.h:9-17 | after draws without a fault that replay no batch twice the join succeeds exactly when every accepted batch was replayed |
| DiffuseJoin.JoinProvesCoverage | src/rr_diffuse_join.h:9-17 | once the join succeeded without a wrapped counter, every accepted batch was replayed exactly when none was replayed twice |
| DiffuseJoin.PartitionJoins | src/rr_diffuse_join.h:12-17 | undisturbed draws that partition the source range, in any order, never end in a batch mismatch |
| DiffuseJoin.CutsJoin | src/rr_diffuse_draw.h:3-35 | however the source range is cut into draws, undisturbed they end in a join |
| DiffuseJoin.FaultIff | src/rr_diffuse_draw.h:12-34 | the fault flag says exactly whether one of the draws went wrong |
| DiffuseJoin.JoinedIff | src/rr_diffuse_join.h:9-17 | exactly when the join of any run of draws goes through |
| DiffuseJoin.DrawsAccounted | src/rr_diffuse_draw.h:3-35 | every draw that reached the replay was replayed, skipped for one reason, or the one that went wrong |
| DiffuseJoin.OverlapHidesMiss | src/rr_diffuse_join.h:12 | with overlapping ranges the totals can agree although a batch was never drawn |
| ReplayPipeline.PrepareDiffuse | src/rr_diffuse_replay.h:118-133 | a frame is prepared, from batch 0 to the last of its manager, exactly when all its batches can be read and one replaced, and every undisturbed partition of it into draws joins without failure |
| ReplayPipeline.PublishableJoins | src/rr_diffuse_join.h:9-17 | parallel, increasing arrays inside the source range join after every undisturbed partition |
| DiffuseResize.Targets.Resize | src/rr_diffuse_resize.h:20-40 | the whole new state and result of a requested extent |
| DiffuseResize.Targets.DestroyTargets | src/rr_diffuse_resize.h:31-36 | existing targets are destroyed in turn up to the first failure |
| DiffuseResize.Targets.PrepareFrame | src/rr_diffuse_replay.h:80-209 | the whole new state of preparing a frame, in every branch, with the exception that stops the replay |
| DiffuseResize.Targets.PresentReturned | src/rr_diffuse_resize.h:41-53 | the retire fence is signalled exactly when a pending resize meets a later Present |
| DiffuseResizeHistory.DestroyedAfterLastUse | src/rr_diffuse_resize.h:20-53 | in every run a target is destroyed only after a value signalled behind a Present later than the last use was seen to be reached |
| DiffuseResizeHistory.NothingRecordedWhilePending | src/rr_diffuse_resize.h:20-30 | while a resize is pending nothing is recorded and no use begins, whatever extents are requested meanwhile |
| DiffuseResizeHistory.StoppedForever | src/rr_diffuse_replay.h:56-59 | a stopped replay keeps its targets and state for good |
| DiffuseResizeHistory.AlwaysWellFormed | src/rr_diffuse_resize.h:20-53 | a waited-for fence value implies a pending resize and stands for every use so far |
| DiffuseResizeProgress.FirstFrameRecords | src/rr_diffuse_replay.h:92-209 | the first frame makes its targets and is recorded |
| DiffuseResizeProgress.NextFrameRecords | src/rr_diffuse_replay.h:108-209 | a later frame of the same extent is recorded into the targets there are |
| DiffuseResizeProgress.ResizeCompletes | src/rr_diffuse_resize.h:20-53 | a change of extent is completed by two frames with a Present between them |
| DiffuseResizeProgress.ChangeGoesOn | src/rr_diffuse_resize.h:26-30 | until the fence is reached frames only look at it |
| DiffuseResizeProgress.ChangeCompletes | src/rr_diffuse_resize.h:31-39 | once it is, every target there was is destroyed and the frame recorded into new ones of its extent |
| DiffuseResizeProgress.StopsIff | src/rr_diffuse_replay.h:80-209 | exactly what stops the replay while a frame is prepared |
| DiffuseResizeProgress.StoppedIffBroken | src/rr_diffuse_resize.h:20-53 | in every run, the replay is stopped exactly when some call gave a cause |
| PixelCapture.Capture.RecordCopy | src/fg_pixel_capture.h:70-82 | records into the first free job when the setup succeeds, and changes nothing otherwise |
| PixelCapture.Capture.Producer | src/fg_pixel_capture.h:96-108 | the whole new state and attempts of a producer call |
| PixelCapture.Capture.BridgeCopy | src/fg_pixel_capture.h:109-116 | the scan finds the last usable source of the frame and any duplicate, and records accordingly |
| PixelCapture.Capture.PollKeyAndFences | src/fg_pixel_capture.h:117-127 | arms a burst on a key press and moves the first completed job on |
| PixelCapture.Capture.MoveLists | src/fg_pixel_capture.h:36-59 | both hooks move exactly the recorded jobs of the lists they were given |
| PixelCaptureHistory.TableNeverFull | src/fg_pixel_capture.h:70-123 | in no run is a copy refused for want of a free job |
| PixelCaptureHistory.NeverFull | src/fg_pixel_capture.h:70-73 | a full table holds every combination of role, burst and ordinal, so nothing can be left to add |
| PixelCaptureHistory.BurstsConsistent | src/fg_pixel_capture.h:96-116 | jobs of one burst have one epoch and consecutive frames, and each input of a frame is captured once |
| PixelCaptureHistory.NeverBack | src/fg_pixel_capture.h:36-145 | jobs keep their identity, never become free again, and are not quarantined once their copy completed |
| PixelCaptureHistory.WrittenAfterFence | src/fg_pixel_capture.h:36-145 | a job is written out only after its fence was signalled and later seen to pass |
| PixelCaptureProgress.BurstCaptured | src/fg_pixel_capture.h:96-123 | a key press starts a burst in which four undisturbed frames have all their inputs captured |
| PixelCaptureProgress.FrameCaptured | src/fg_pixel_capture.h:96-108 | a frame that is due has its three or four inputs recorded under its burst, ordinal, frame and epoch |
| PixelCaptureProgress.ArmedIff | src/fg_pixel_capture.h:117-123 | exactly when the key starts a burst |
| PixelCaptureProgress.BurstEnds | src/fg_pixel_capture.h:98-101 | a frame that is too late, of another epoch or out of order ends the burst and copies nothing |
| PixelCaptureProgress.FailureEnds | src/fg_pixel_capture.h:102-107 | an input that cannot be set up ends the burst |
| PixelCaptureProgress.BridgeCaptured | src/fg_pixel_capture.h:109-116 | a copy for a captured frame in a new role is recorded with the burst and ordinal of its source |
| PixelCaptureProgress.BridgeRefuses | src/fg_pixel_capture.h:109-116 | without a usable source, or for a role already taken, nothing is copied |
| PixelCaptureProgress.PollWrites | src/fg_pixel_capture.h:124-127 | one poll starts writing the first job whose fence has passed, and leaves or quarantines the others |
| PixelCaptureProgress.JobFinishes | src/fg_pixel_capture.h:36-147 | a recorded job that is executed and signalled, and whose fence passes first, is written |
| PixelCaptureProgress.ListsMove | src/fg_pixel_capture.h:36-59 | both hooks move exactly the recorded jobs of their list |
| SdrCopyRing.Correction.RetireSlot | src/fg_sdr_correction.h:20-38 | the whole new state and result of retiring one slot, in every branch |
| SdrCopyRing.Correction.WaitFor | src/fg_sdr_correction.h:20-38 | a wait counts as one of a drain or of a reuse, and succeeds exactly when the fence reads the value afterwards |
| SdrCopyRing.Correction.RetireSlots | src/fg_sdr_correction.h:39-42 | the loop retires the slots in turn, and the first failure is noted for good |
| SdrCopyRing.Correction.ReleaseAll | src/fg_sdr_correction.h:43-54 | gives everything back unless a copy is in flight |
| SdrCopyRing.Correction.InitializeOn | src/fg_sdr_correction.h:55-70 | the whole new state and result of initialising on a queue |
| SdrCopyRing.Correction.CopyBuffers | src/fg_sdr_correction.h:71-93 | the whole new state and result of a copy, including a Signal that fails |
| SdrCopyRing.Correction.ApplyCorrection | src/fg_sdr_correction.h:107-128 | the whole new state and result of a correction |
| SdrCopyRing.Correction.Resize | src/fg_sdr_correction.h:100-106 | the whole new state and result of preparing a resize |
| SdrCopyRing.Correction.ShutDown | src/fg_sdr_correction.h:99 | the whole new state of shutting down |
| SdrRingHistory.NeverReusedInFlight | src/fg_sdr_correction.h:20-93 | in every run, with any failures, an allocator is reset or released only after the fence was seen to reach every value its slot waited for |
| SdrRingHistory.AccountedFor | src/fg_sdr_correction.h:20-93 | submitted copies are retired or in flight, and values in flight increase around the ring from the next slot |
| SdrRingHistory.FailedSignalQuarantines | src/fg_sdr_correction.h:87-93 | a slot whose Signal failed is never reset or released again, and the ring stays failed |
| SdrRingProgress.ApplySubmits | src/fg_sdr_correction.h:107-119 | a mismatch on a device that cooperates is copied, into the next slot and with the next value |
| SdrRingProgress.ApplyStarts | src/fg_sdr_correction.h:55-93 | the first copy, or the first on another queue, makes the ring anew |
| SdrRingProgress.ApplyPolls | src/fg_sdr_correction.h:107-110 | a correction without a mismatch retires exactly what completed, and fails exactly when a slot cannot be polled |
| SdrRingProgress.CopyOkIff | src/fg_sdr_correction.h:71-93 | exactly when a copy is submitted |
| SdrRingProgress.RetireOkIff | src/fg_sdr_correction.h:20-38 | exactly when a slot can be retired |
| SdrRingProgress.SignalFailure | src/fg_sdr_correction.h:87-93 | a copy whose Signal fails keeps its slot without a value to wait for |
| SdrRingProgress.ReadingsNoted | src/fg_sdr_correction.h:20-38 | exactly the readings made are noted, and a wait is counted exactly when there is one |
| SdrRingProgress.FailureNoted | src/fg_sdr_correction.h:107-119 | a correction that does not succeed is the last |
| SdrRingProgress.EveryMismatchCopied | src/fg_sdr_correction.h:107-128 | every one of any number of mismatches is copied |
| SdrRingProgress.ResizeEmpties | src/fg_sdr_correction.h:100-106 | a resize waits for every copy and then holds nothing |
| SdrRingProgress.ShutdownEmpties | src/fg_sdr_correction.h:99 | so does the first shutdown, and any later one does nothing |
| PatchInstall.Exchange | src/probe.cpp:964-974 | writes the site exactly when it is writable and holds what is expected, and nothing else |
| PatchInstall.InstallOrRollBack | src/probe.cpp:1336-1350 | succeeds exactly when every patch can be written and matches; otherwise takes back what was written before the first that does not, but for failed rollbacks |
| PatchInstall.Configure | src/probe.cpp:1336-1371 | both phases of start-up with the two call sites: when it succeeds, what it leaves of every site and relay otherwise, and exactly when a hooked call is left without its relay |
| PatchInstall.CallHook.Install | src/streamline_bridge.h:2404-2422 | hooks the call exactly when there is a relay and the site can be written |
| PatchInstall.CallHook.RollBackCall | src/streamline_bridge.h:2424-2440 | rewrites the site when it can, and frees the relay in any case |
| PatchInstall.RelayFreedTooEarly | src/probe.cpp:1362-1371 | a start-up that leaves the first call hooked and its relay freed |
| PatchInstall.InstallCalls | src/rr_albedo_hooks.h:73-80 | the call loop stops at the first call that does not go in, or behind the first unhealthy write, and tells which |
| PatchInstall.CallsStopOnce | src/rr_albedo_hooks.h:73-80 | the answers and the code determine how many calls are written |
| PatchInstall.InstallHooks | src/rr_albedo_hooks.h:73-95 | succeeds exactly when every call goes in by a healthy write and every slot goes in; otherwise takes back, but for failed rollbacks, the calls up to the one place where the loop stops and the slots before the first that fails, which are none unless all calls were healthy |
| PatchInstall.InstallEvaluationEntry | src/rr_evaluation_entry.h:170-188 | the same for the calls of the evaluation entry, and a clean rollback restores the code exactly |
| PatchInstall.LaterSitesUntouched | src/probe.cpp:1336-1346 | sites at or past the failing patch are never written |
| RelativeEncodings.RelativeJumpExact | src/rr_evaluation_tail.h:9-21 | an encoding exists exactly when the displacement fits in 32 signed bits, and decodes to the target |
| RelativeEncodings.JumpDetermined | src/rr_evaluation_tail.h:9-21 | the bytes of a jump determine its target |
| RelativeEncodings.CheckedTailPatchExact | src/rr_evaluation_tail.h:22-27 | a tail is replaced exactly when it jumped to the expected target and the relay is in reach |
| RelativeEncodings.AbsoluteTailExact | src/rr_evaluation_tail.h:28-33 | the stub carries the target's eight bytes, for every target but null |
| RelativeEncodings.DecodeIndirectCallExact | src/rr_indirect_call.h:7-14 | a slot is decoded exactly when the opcode fits and the sum stays in the address space |
| RelativeEncodings.ReplaceIndirectCallExact | src/rr_indirect_call.h:15-26 | the replacement exists exactly when the slot matches and the relay is in reach, and calls the relay |
| RelativeEncodings.RedirectExact | src/rr_native_option_policy.h:19-46 | for all 64-bit addresses, a compare is redirected exactly when it named the expected byte and the signed distance to the new one fits in 32 bits, and then names it |
| RelativeEncodings.RedirectBack | src/rr_native_option_policy.h:19-38 | redirecting a compare back to its old target restores the original six bytes, for all 64-bit addresses |
| ProjectionPair.CopyValidatedProjection | src/rr_projection_validation.h:5-24 | accepts exactly the finite pairs within the tolerance of inverse, copies the projection, and leaves the output alone otherwise |
| ProjectionPair.RoundTripError | src/rr_projection_validation.h:11-22 | projecting and unprojecting, in either order, moves no component by more than 0.4% of the largest |
| ProjectionPair.KernelTrivial | src/rr_projection_validation.h:11-22 | neither matrix of an accepted pair maps a nonzero vector to zero |
| ProjectionPair.Nonsingular | src/rr_projection_validation.h:11-22 | both matrices of an accepted pair map different vectors to different vectors |
| ProjectionPair.InversesAccepted | src/rr_projection_validation.h:5-24 | finite matrices that undo each other are accepted |
| ProjectionPair.AppliedIsProduct | src/rr_projection_validation.h:13-17 | applying one matrix after the other is applying the product that the loop sums up |
| Crc32.Crc | src/rr_clamp_strength.h:36-40 | the nested loops compute the checksum of the buffer |
| Crc32.RegisterFeeds | src/rr_clamp_strength.h:38 | the byte loop feeds the bits of the message in order |
| Crc32.ChecksumIsRemainder | diagnostic_addon/ControlFG-RenoDXClampRef.cpp:27-36 | the checksum is the complemented remainder of the message polynomial, as section 8 of RFC 1952 defines it |
| Crc32.DivisionLaw | diagnostic_addon/ControlFG-RenoDXClampRef.cpp:30-34 | every polynomial is a multiple of the generator plus that remainder |
| Crc32.GeneratorPowers | src/rr_clamp_strength.h:38 | the constant holds exactly the powers of the standard's generator |
| Crc32.RemainderUnique | diagnostic_addon/ControlFG-RenoDXClampRef.cpp:30-34 | no other 32 coefficients are a remainder |
| Crc32.BurstDetected | src/rr_clamp_strength.h:36-40 | messages of one length that differ only within 32 consecutive bits have different checksums |
| Crc32.FourByteWindowDetected | src/rr_clamp_strength.h:36-40 | buffers that differ only within four consecutive bytes have different checksums |
| Crc32.TableForm | src/rr_clamp_strength.h:38 | the bitwise loop refines the table-driven update given in RFC 1952 |

## Left out

- All D3D12, DXGI, Streamline, NGX and Win32 calls: each is a parameter that says how the call went; object identity is an abstract number.
- Structured exception handling, logging, telemetry, timing and file export.
- The reason texts of rejections in the shader validator; of the coordinator's stop reasons the kind is kept, not the wording.
- Memory order and the interleaving inside one call: concurrent draws and lock regions are atomic steps, and code patching is sequential.
- Engine memory is a set of pure partial functions, one for each type that is read; the byte layout of the native batch and manager records is not modelled, nor callbacks that change memory.
- Null `read` and `getShader` callbacks: every caller passes both.
- `AuditFamilyContract` and the descriptive fields of rejection examples (src/rr_albedo_prepare.h:211-245): diagnostics that feed no decision. The vertex evidence store likewise.
- ShaderSession.Session.ValidatePair: the vertex evidence is left out, and the FNV hash is any function of the bytes.
- The optional skin-mask replay of character batches (src/rr_diffuse_draw.h:37-60): it runs the same range code over a second, shorter replay.
- AlbedoPrepare.PreparedReplay.RecordReject: the descriptive fields of an example are left out, as above.
- DrawRanges.PrepareDrawRange: the view is an offset and a count into the batch array rather than a pointer written into a copy of the manager.
- DiffuseResize.Targets.PrepareFrame: how the selection of a frame ends (batches accepted, none, an exception) is a parameter; what it selects is the subject of `ReplayPipeline.dfy`.
- PixelCapture.Capture.BridgeCopy: bridge callers use known roles, and the alignment epoch is fixed within one lock region; the address, format and readback of a copy are left out, and so is the early release of completed sources, which changes no phase.
- SdrCopyRing.Correction.CopyBuffers: serials are unbounded, so 2^64 copies do not wrap.
- ProjectionPair.CopyValidatedProjection: doubles are read as reals, with one value for everything that is not finite, and the conversion to single precision is a parameter.
- RelativeEncodings.RedirectExact: signed overflow of an address, undefined in C++, is read as wrapping.
- PatchInstall.Configure: what follows a successful installation in start-up is not part of this model.
- The overlay and settings, the HDR bridge's forwarding, colour mathematics, and tables with a small finite domain.
