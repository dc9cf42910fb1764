# rP4 back end and data plane: a verified model

The rP4 compiler turns a P4-like program into the configuration of a reconfigurable switch: the program's packet
parser becomes small match tables ("levels"), every pipeline stage gets the levels it needs just in time, stages and
tables are placed into clusters of processors and memory blocks, conditions become truth tables, and the data plane
then reads and writes packet fields bit by bit. This project models those parts and proves what they promise.

Each module follows one source file or one property across several:

- `TopoSort`, `Distribution`, `MeetOverPaths`: from the levels and stages to the levels each stage runs.
- `ParserTables`, `ParserStages`, `StoredRuns`, `ParserKeys`: the data plane's parser engine, its hashed slots and the
  keys it reads.
- `LevelGraphs`, `LevelTables`, `DistributedParsing`, `StartingOver`, `RestartExample`, `ParserExample`, `Switch`: that
  the tables mean what the program says, that a packet gets the same headers whether its levels are run at once or spread over the
  stages, exactly when not, and both together down to the slots of the processors.
- `TruthTable` (with `Rows`): and/or/not trees become the sorted list of exactly the rows that make them true.
- `Placement`, `Memory`, `MemoryExample`, `Blocks`, `MemorySafety`: first fit of stages into clusters and the numbering of blocks.
- `Processors`: long level lists split over parser-only processors. `Incremental`, `Updates`: updates that
  keep tables in place, and chains of them.
- `EmptyStages`, `StageRuns`, `StageNumbers`, `StageWeights`, `StageRemoval`, `RemovalExamples`: removing stages that
  only run one action, and exactly when a pipeline entered by action edges does the same without them. `LostHeaders`:
  what becomes of the headers they declare.
- `Bytes`, `FieldWrite`, `FieldFrames`, `FieldRead`, `Headers`: fields at any bit offset of a packet.
- `ActionParams`, `Actions`: packing action parameters into table entries and unpacking them.
- `Expressions`, `Primitives`: evaluating expression trees over bytes and assigning the result.
- `Rename`: shortening dotted names. `Finite`, `Graphs`, `OrderedMaps`, `Powers`, `Options`, `Stages`,
  `Configuration`: shared notions.

`dafny verify dfyconfig.toml` checks everything. Every lemma switches Dafny's automatic induction off, so its body is
its proof.

## What the proofs show about the code

Most properties hold as promised. Where the code keeps a promise only under a condition, the condition is proved
exactly, unless "Left out" says otherwise; these are the cases.

- The parser engine compares an entry with the masked key, so a key of the program with bits outside its mask is never
  hit: a level means what its keys say exactly when none has such bits (`KeyCompiles`, `LiveIsAll`;
  `UntidyKeyHitsNothing`, `PrefixWithHostBits`). What the tables do in any case is the program without those entries
  (`TablesSimulateProgram`).
- Accept and drop entries are built with header 0 and length 0, and the engine records that header before it looks at
  them. So header 0 is the packet's end, not a header, once parsing has ended (`EndMarks`); every other header is found
  by the stages just as by the program, and header 0 exactly as long as the stages have not met the end
  (`StagesParseProgram`).
- After an accept the engine is in state 0 again, and a list that comes to level 0 once more starts over behind the
  headers found. A list of levels performs steps of the parser exactly when it does not do that (`RunIsChaseIff`), and
  some packet does so on some path exactly if there the levels come to level 0 behind an entry that can accept
  (`SomePathStartsOverIff`), so never when no stage that runs level 0 leads to another (`StartsOnceIffApart`,
  `ApartNeverRestarts`). The distribution repeats levels behind joins: `JoinRestarts` shows a program and a path on
  which the first header ends up behind itself.
- Entries are searched by slot, and the slot is the sum of the bytes of state and entry. Behind the first state, a level
  finds for every key what its table finds exactly if each entry that is first for a key is left in its slot and in
  front of all others left that the key hits (`StoredFindsFirstIff`); for exact keys with a default behind them, if no
  two share a slot and the default has the highest (`WholeWordsFindFirstIff`; `SameBytesCollide`, `DefaultInFront`).
  Numbers are cut to eight bits on the way, the header length too (`LongHeaderIsCut`).
- A slot nothing is stored in is searched all the same, and a packet in state 0 with a key of all ones hits it. Whatever
  is left in such slots, a packet is parsed as the tables say exactly if it comes to none (`StoredRunsLevelsIff`,
  `OnesMeetBlank`). A packet accepted with such a key keeps it (`AcceptedKeepsOnes`).
- A field to select on inside one byte is read with the bits in front of it; the value is the field's exactly when they
  are zero (`FieldIntIsField`). A key joined from fields is right for all values exactly when there is at most one,
  since the part in front is added as well as shifted (`KeysJoinIff`).
- A packet sent to a stage with more than four parser levels by a default gateway reaches the stage's own processor, not
  the parser-only processors in front of it: entering a stage there runs all its levels exactly when they fit one
  processor (`EntryRunsAllLevelsIffTheyFit`, `FiveLevelsAreSplit`). A default gateway leads to the head of such a chain
  exactly if it was meant for a refused stage whose number is that slot's (`ChainHeadReachedIff`). The other entries
  keep the stage's number, which the data plane takes for a slot; `KeptEntryLeads` says exactly where they lead. The
  chain itself is complete and in order.
- A refused stage is given memory blocks of cluster 0 all the same. All blocks handed out exist exactly when cluster 0
  can hold its own stages and all refused ones (`BlocksExist`, `RefusedStageOverruns`).
- A table is in the cluster of the last stage that lists it, with the blocks of all. After a full allocation two tables
  hold the same block exactly if a block handed out in a cluster its table is not in meets one of another table
  (`FirstAllocationIsDisjointIff`, `TwoClustersMeet`); accepted updates change nothing in that (`UpdatesStayDisjoint`).
- An update copies block numbers whatever memory they are of: a kept table keeps its blocks exactly if it keeps the kind
  of its key memory or has no blocks there (`BlocksKeptIff`); otherwise two tables can come to share a block
  (`KindChangeMeets`).
- Action parameters come back for all values in range exactly when every width but the last is a whole number of bytes
  (`ActionParametersRoundTrip`). The data plane expects the parameters without gaps; after a parameter whose last byte
  has empty bits the packing loop starts the next one in the next byte.
- The controller builds an entry value with the action id in front and then sends the one without it
  (sw-src/controller/ctrl_mod_table.h:250-277). The round trip above is about the value with the id in front, which is
  what the data plane unpacks. What is sent gives all parameters back exactly when there are none, whatever memory
  follows it (`SentParametersRoundTrip`, `SentByteIsNotRead`).
- Writing a value that is wider than a field that begins inside a byte adds the surplus to the bits in front of it.
  The write keeps everything else exactly when that surplus is zero there (`WriteFrame`, `RunFrame`); a counter that
  wraps can change its neighbour (`CarryRunsOver`).
- A field is read exactly when the bits that come along are zero, or the byte that is not set happens to be right;
  always for whole bytes (`ReadIsField`, `WholeBytesReadExactly`, `WriteThenReadAnyLength`, `HalfByteReadsWrong`).
- Removing a stage that only runs one action appends that action to those leading to it. For an entry this changes
  nothing the pipeline can do exactly when what is appended is empty or no other entry shares the entry's action
  (`TakingKeepsRunsIff`). If removable stages lead on to stages, to removable ones of a higher number, and are led to,
  the program as a whole keeps all its runs exactly when that holds at every stage that is taken over
  (`RunsAreKeptIff`); otherwise some entry makes more assignments than before (`SharedActionIsRun`). A removable stage
  leading back to one that is kept has a field set twice (`FieldIsSetTwice`).
- The assignments of a removed stage are handed on, the headers it declares are not. What a kept stage assigns
  afterwards has been parsed exactly if kept stages on the way need the same levels (`AppendedFieldsAreParsedIff`,
  `HeaderIsLost`).
- An incremental update is accepted only if every stage keeps a table, because the slot found for the others is stored
  in a variable that ends with the search (`Incremental.IpsaBuilder.AllocateMemory`, `NewStageIsRejected`).
- What is kept of two registered names always differs, but after dots become underscores and endings are added they can
  look the same: exactly when a part one of them can keep, with its ending, looks like a part the other can
  (`ShownApartIff`; `UnderscoreCollides`, `SuffixCollides`, `IndexCollides`). Registering a name keeps the names already
  shown valid exactly when it ends with none of the shortened ones (`AddName`, `KeptAfter`); `LateNamesCollide` is a run
  in which two names get the same one.
- A cyclic level or stage graph makes the source report an error and then fail on a map lookup; here that is the
  result `ok == false`, and it is proved to happen exactly for cyclic graphs.

## Model

| member | source | states |
|---|---|---|
| TopoSort.InitialDegrees | rP4-compiler/rp4c/ipsa_distribution.h:28-33 | every node starts with the number of its predecessors |
| TopoSort.FirstReady | rP4-compiler/rp4c/ipsa_distribution.h:35-41 | the least node of degree zero, or -1 when there is none |
| TopoSort.Release | rP4-compiler/rp4c/ipsa_distribution.h:47-49 | exactly the successors lose one degree |
| TopoSort.NothingReady | rP4-compiler/rp4c/ipsa_distribution.h:42-44 | the error is met only on a cyclic graph |
| TopoSort.TopologicalSort | rP4-compiler/rp4c/ipsa_distribution.h:23-51 | succeeds iff the graph is acyclic; then every node once, every edge forward, and the lexicographically least such order |
| Distribution.HeaderLevels | rP4-compiler/rp4c/ipsa_distribution.h:54-70 | a header's list holds exactly the levels with an entry that extracts it, once each |
| Distribution.LevelNextTable | rP4-compiler/rp4c/ipsa_distribution.h:86-98 | the successor lists are those of the level graph |
| Distribution.Reverse | rP4-compiler/rp4c/ipsa_distribution.h:99-103 | the predecessor lists are the transposed graph |
| Distribution.Closure | rP4-compiler/rp4c/ipsa_distribution.h:110-124 | a level's list holds exactly the levels it can be reached from |
| Distribution.ProcLevels | rP4-compiler/rp4c/ipsa_distribution.h:133-151 | a stage needs exactly the levels that lead to one extracting a header it declares |
| Distribution.StageNextTable | rP4-compiler/rp4c/ipsa_distribution.h:160-175 | the stage graph is that of the action edges of kept stages |
| Distribution.StageEdgeIff | rP4-compiler/rp4c/ipsa_distribution.h:160-175 | an edge is an action entry of a kept stage that leads to a stage |
| Distribution.Common | rP4-compiler/rp4c/ipsa_distribution.h:194-203 | the levels in the totals of all predecessors |
| Distribution.AddMissing | rP4-compiler/rp4c/ipsa_distribution.h:204-209 | what is required and not yet parsed, and the new total |
| Distribution.Distribute | rP4-compiler/rp4c/ipsa_distribution.h:182-213 | totals and own levels satisfy the forward dataflow equations at every stage |
| Distribution.SortLevels | rP4-compiler/rp4c/ipsa_distribution.h:221-231 | the same levels, sorted by position in the level order |
| Distribution.IpsaDistribution.DistributeParsers | rP4-compiler/rp4c/ipsa_distribution.h:53-232 | succeeds iff level graph and stage graph are acyclic; the least stage order, and a distribution as described by the dataflow equations over the needs, sorted |
| MeetOverPaths.TotalIsMeetOverPaths | rP4-compiler/rp4c/ipsa_distribution.h:183-213 | a level is in the total of a stage iff every path from a source to it contains a stage that needs it |
| MeetOverPaths.TotalWasRun | rP4-compiler/rp4c/ipsa_distribution.h:183-213 | whatever is in a total was run on every path to the stage |
| MeetOverPaths.OwnIsMinimal | rP4-compiler/rp4c/ipsa_distribution.h:204-211 | taking one level from one stage leaves a path on which it was never run |
| MeetOverPaths.TotalIsAncestorClosed | rP4-compiler/rp4c/ipsa_distribution.h:111-151 | totals contain all ancestors of their levels |
| MeetOverPaths.PathRunsAncestorsFirst | rP4-compiler/rp4c/ipsa_distribution.h:221-231 | on every path each level runs after all its ancestors |
| ParserTables.RunIsChase | sw-src/dataplane/parser.h:202-270 | a list of levels that never starts over, in any order and with repetition, performs an initial part of the run of the state machine the tables describe |
| ParserTables.RunIsChaseIff | sw-src/dataplane/parser.h:202-270 | if level 0 always fires and headers have bits: a list performs steps of the state machine iff it never starts over after an accept |
| ParserTables.ZeroOnceNeverRestarts | sw-src/dataplane/parser.h:227-248 | a list with level 0 at most once never starts over |
| ParserTables.NoAcceptNeverRestarts | sw-src/dataplane/parser.h:250-252 | nor does any list if no entry accepts |
| ParserStages.ParserStage.ModifyTransEntry | sw-src/dataplane/parser.h:106-156 | the entry, cut to eight bits where the source does, is in the slot whose number is the sum of its state and its key's four bytes modulo 256, a default in slot 255 minus the state |
| ParserStages.SlotIsSum | sw-src/dataplane/parser.h:110-116 | the slot of a key is the sum of its state and its four bytes modulo 256 |
| ParserStages.ParserStage.Search | sw-src/dataplane/parser.h:203-211 | the first of the 256 slots that hits, or -1 |
| ParserStages.ParserStage.Parse | sw-src/dataplane/parser.h:202-270 | one step of the engine on the slots |
| ParserStages.LongHeaderIsCut | sw-src/dataplane/parser.h:106-142 | a first header of 320 bits, stored, moves the packet on by 64 |
| ParserStages.StoredFindsFirst | sw-src/dataplane/parser.h:106-141 | the slots find the first entry of the table that hits if entries have their own slots, in the table's order where a word hits both, and no blank slot comes first |
| ParserStages.StoredFindsFirstIff | sw-src/dataplane/parser.h:106-141 | for states but the first and whatever keys: for every word the slots find the table's first hit iff each entry that is first for a word is left in its slot and in front of all others left that hit the word |
| ParserStages.WholeWordsFindFirstIff | sw-src/dataplane/parser.h:106-141 | for states but the first and exact keys with a default behind: iff no slot is shared and the default has the highest |
| ParserStages.StartFindsIff | sw-src/dataplane/parser.h:106-141 | in the first state the default entry is found for every word but the one of all ones |
| ParserStages.DefaultInFront | sw-src/dataplane/parser.h:109-120 | a level whose default has a lower slot than an exact key |
| ParserStages.SameBytesCollide | sw-src/dataplane/parser.h:109-116 | two EtherTypes with the same byte sum are in one slot |
| StoredRuns.StoredRunsLevels | sw-src/dataplane/parser.h:202-270 | levels whose entries fit and keep their order run alike from slots and tables for a packet that comes to no blank slot |
| StoredRuns.StoredRunsLevelsIff | sw-src/dataplane/parser.h:202-270 | whatever is left in blank slots: alike iff the packet comes to none |
| StoredRuns.OnesMeetBlank | sw-src/dataplane/parser.h:203-211 | a packet in state 0 with a key of all ones comes to one in any level but the first that has one |
| StoredRuns.AcceptedKeepsOnes | sw-src/dataplane/parser.h:250-252 | a packet accepted with a key of all ones keeps it and comes to a blank slot in the next level |
| ParserKeys.GetFieldInt | sw-src/dataplane/parser.h:158-200 | the value read byte by byte: the field's, with the bits in front of it if it lies in one byte |
| ParserKeys.FieldIntIsField | sw-src/dataplane/parser.h:186-199 | the value read is the field's iff the field goes beyond one byte or the bits in front of it are zero |
| ParserKeys.TransKey | sw-src/dataplane/parser.h:260-268 | the key of all fields to select on; that of one field is read behind its header's offset, zero if it was never found |
| ParserKeys.FieldOfHeader | sw-src/dataplane/parser.h:158-200 | the key of one field is read at its header's offset, zero if it was never found, plus the field's: the value there iff it goes beyond one byte or the bits in front are zero |
| ParserKeys.KeyMoves | sw-src/dataplane/parser.h:158-268 | with bytes in front of the packet and all headers moved behind them the key is the same |
| ParserKeys.ReadProtocol | sw-src/dataplane/parser.h:158-268 | a run that reads the protocol of an IPv4 header behind an Ethernet header |
| ParserKeys.KeysJoinIff | sw-src/dataplane/parser.h:266 | for all values in range the key is the fields joined, modulo 32 bits, iff there is at most one field |
| ParserKeys.OneFieldIsMeant | sw-src/dataplane/parser.h:158-268 | the key of a single field is that field of the packet iff it goes beyond one byte or the bits in front of it are zero |
| LevelGraphs.PartialRunAgrees | rP4-compiler/rp4c/ipsa_distribution.h:84-104 | a list that runs ancestors first, has all levels extracting a header and does not start over finds that header wherever the full run does; for header 0 iff it has ended when the full run has |
| LevelGraphs.FullRunIsWholeRun | rP4-compiler/rp4c/ipsa_distribution.h:84-104 | every level once in topological order is the whole run |
| LevelGraphs.LevelEdgeIff | rP4-compiler/rp4c/ipsa_distribution.h:86-98 | an edge is an entry that goes on to the other level |
| LevelGraphs.ExtractsIff | rP4-compiler/rp4c/ipsa_distribution.h:60-63 | a level extracts a header iff one of its entries that goes on does |
| DistributedParsing.OwnLevelsAreExact | rP4-compiler/rp4c/ipsa_distribution.h:183-213 | a stage runs a level iff it needs it and some path reaches the stage without a stage that needs it |
| DistributedParsing.NeededLevelsWereRun | rP4-compiler/rp4c/ipsa_distribution.h:183-213 | on every path, what a stage needs has been run when a packet is at it |
| DistributedParsing.LevelWasRunIff | rP4-compiler/rp4c/ipsa_distribution.h:183-213 | on a path a level is run iff some stage on it needs it |
| DistributedParsing.NoLevelIsSuperfluous | rP4-compiler/rp4c/ipsa_distribution.h:204-211 | each level in each list is needed on some path |
| DistributedParsing.PathRunsParentsFirst | rP4-compiler/rp4c/ipsa_distribution.h:221-231 | the computed lists run ancestors first on every path |
| DistributedParsing.DistributedParsingAgrees | rP4-compiler/rp4c/ipsa_distribution.h:53-232 | on any path that does not start over, whatever the packet, every header the last stage declares is found where all tables together find it; header 0 iff parsing has ended here when it has there |
| DistributedParsing.PathRunsInitialPart | rP4-compiler/rp4c/ipsa_distribution.h:53-232 | the levels along a path perform steps of the parser iff the path does not start over |
| DistributedParsing.StartsOnceIffApart | rP4-compiler/rp4c/ipsa_distribution.h:182-213 | no path meets level 0 twice iff no stage that runs it leads to another |
| DistributedParsing.ApartNeverRestarts | rP4-compiler/rp4c/ipsa_distribution.h:182-213 | then no packet starts over on any path |
| StartingOver.SomeStartsOverIff | sw-src/dataplane/parser.h:227-252 | some packet starts over in a list iff it comes to level 0 behind an entry that can accept, led to from level to level in the list's order |
| StartingOver.SomePathStartsOverIff | rP4-compiler/rp4c/ipsa_distribution.h:182-213 | some packet starts over on some path iff on some path the stages' levels do so |
| DistributedParsing.FullRunParsesProgram | rP4-compiler/rp4c/ipsa_level_manager.h:127-176 | all tables in topological order extract what the program's parser extracts, keys that are never hit left out, end as it does and mark the end as header 0 |
| DistributedParsing.StagesParseProgram | rP4-compiler/rp4c/ipsa_distribution.h:53-232 | every header a stage declares is, on every path that does not start over, just where the program's parser finds it; header 0 iff parsing has not ended |
| RestartExample.JoinRestarts | rP4-compiler/rp4c/ipsa_distribution.h:183-213 | a parser and three stages whose distribution, on one path, finds the first header behind itself |
| LevelTables.KeyCompiles | sw-src/dataplane/parser.h:203-210 | entry and mask hit exactly the 32-bit words an exact, prefix, ternary or default key means iff the key has no bits outside its mask |
| LevelTables.KeyHits | sw-src/dataplane/parser.h:203-210 | a key hits a word iff the word matches and the key has no bits outside its mask |
| LevelTables.UntidyKeyHitsNothing | sw-src/dataplane/parser.h:206 | a ternary key with a bit outside its mask matches every word and hits none |
| LevelTables.PrefixWithHostBits | rP4-compiler/rp4c/rp4_key.h:14-56 | a prefix with bits behind it does not hit its own address |
| LevelTables.LiveIsAll | sw-src/dataplane/parser.h:203-210 | nothing of the program is lost iff no key has bits outside its mask |
| LevelTables.IpsaLevelManager.NumberStates | rP4-compiler/rp4c/ipsa_level_manager.h:152-157 | one empty level a state and one in front; distinct names are numbered in order from 1 |
| LevelTables.IpsaLevelManager.BuildEntries | rP4-compiler/rp4c/ipsa_level_manager.h:127-147 | appends one entry a transition, one extract ahead, and changes no other level |
| LevelTables.IpsaLevelManager.Load | rP4-compiler/rp4c/ipsa_level_manager.h:83-177 | for distinct state names the levels are the tables of the program |
| LevelTables.TablesWellFormed | rP4-compiler/rp4c/ipsa_level_manager.h:148-176 | entries wait for their own level and go on to levels that exist, level 0 always fires, headers that have bits move the packet on |
| LevelTables.FirstHitIsFirstMatch | rP4-compiler/rp4c/ipsa_level_manager.h:127-147 | in table order, the first entry that hits is what the first matching transition compiles to, those with bits outside their mask left out |
| LevelTables.TablesSimulateProgram | rP4-compiler/rp4c/ipsa_level_manager.h:114-176 | for every packet and number of steps the tables find the headers of the program without the keys that are never hit, at the same offsets, and end in the same accept or drop with the end as header 0 |
| ParserExample.LoadParser | rP4-compiler/rp4c/ipsa_level_manager.h:83-177 | a run for Ethernet and IPv4: all levels and entries |
| ParserExample.SpreadParser | rP4-compiler/rp4c/ipsa_distribution.h:53-232 | a run that gives each of two stages the one level it lacks |
| ParserExample.StoreAndParse | sw-src/dataplane/parser.h:106-270 | a run that stores a level and parses any packet in its state |
| TruthTable.NeverConstant | rP4-compiler/p4r/p4_parameter.h:88-162 | a tree that uses every atom occurrence once is neither always true nor always false |
| TruthTable.Increment | rP4-compiler/p4r/p4_parameter.h:98-107 | counts the row up by one, wrapping around |
| TruthTable.NotApply | rP4-compiler/p4r/p4_parameter.h:93-117 | the sorted complement of a sorted non-empty table |
| TruthTable.AndApply | rP4-compiler/p4r/p4_parameter.h:118-126 | the sorted table of all concatenations |
| TruthTable.OrApply | rP4-compiler/p4r/p4_parameter.h:127-137 | the sorted table of rows with one half in its table, none twice |
| TruthTable.Parse | rP4-compiler/p4r/p4_parameter.h:88-162 | the atoms in the order written and the strictly increasing list of rows: for every valuation of the atoms' ids, the row of the atoms' values is listed iff the tree is true; neither empty nor full, as many as inclusion and exclusion counts |
| TruthTable.HoldsIsTrue | rP4-compiler/p4r/p4_parameter.h:88-162 | the row of the atoms' values satisfies the tree iff the tree is true under the valuation |
| TruthTable.AtomsAreWritten | rP4-compiler/p4r/p4_parameter.h:88-162 | the atoms are those of the tree from left to right |
| TruthTable.ParseAndNot | rP4-compiler/p4r/p4_parameter.h:118-126 | a run for the first atom and not the second: both atoms in this order, and the row 10 |
| Placement.PlacementConserves | rP4-compiler/rp4c/ipsa_memory.h:72-92 | at most four stages a cluster, and space left plus space used is the capacity |
| Placement.PlacementPartitions | rP4-compiler/rp4c/ipsa_memory.h:72-92 | every stage is in exactly one cluster, once, or refused, once |
| Placement.RefusedIffNothingFits | rP4-compiler/rp4c/ipsa_memory.h:72-92 | a stage is refused iff at its turn no cluster has the slot, SRAM and TCAM for it |
| Placement.PlacedInFirstRoom | rP4-compiler/rp4c/ipsa_memory.h:72-92 | a stage is in a cluster iff that is the first with fewer than four stages that with it need at most 256 SRAM and 128 TCAM blocks |
| Placement.RefusedIffNoRoom | rP4-compiler/rp4c/ipsa_memory.h:72-92 | it is refused iff there is none |
| Placement.FirstFitGuarantee | rP4-compiler/rp4c/ipsa_memory.h:72-92 | at the end no stage fits in what is left of an earlier cluster, no refused one anywhere |
| Memory.IpsaMemory.CalculateTableSpace | rP4-compiler/rp4c/ipsa_memory.h:30-55 | a table's space is the product of width and depth of its keys and of its values, its keys in TCAM if it is ternary; a kept stage's is the sum over its tables |
| Memory.IpsaMemory.PlaceStages | rP4-compiler/rp4c/ipsa_memory.h:59-92 | the slots hold the first-fit placement, free ones -1 |
| Memory.IpsaMemory.ProcClusters | rP4-compiler/rp4c/ipsa_memory.h:98-103 | every placed stage with its cluster |
| Memory.IpsaMemory.TableBlocks | rP4-compiler/rp4c/ipsa_memory.h:107-123 | a table is given the next numbers of its cluster, as many as its keys are wide times deep, then its values, TCAM and SRAM counted apart |
| Memory.IpsaMemory.AllocateMemory | rP4-compiler/rp4c/ipsa_memory.h:57-126 | the whole new state: slots by first fit, and each table's block lists as handed out, of width times depth numbers for each time a kept stage lists it |
| Memory.AllLength | rP4-compiler/rp4c/ipsa_memory.h:104-125 | a table's list has width times depth numbers for each time a kept stage lists it |
| MemoryExample.Allocate | rP4-compiler/rp4c/ipsa_memory.h:57-126 | a run for a table two wide and three deep in TCAM and one in SRAM: all numbers handed out |
| MemoryExample.Spaces | rP4-compiler/rp4c/ipsa_memory.h:30-55 | their spaces |
| MemoryExample.Place | rP4-compiler/rp4c/ipsa_memory.h:59-92 | a run in which a stage that does not fit in the first cluster is passed by the next one: every slot |
| Blocks.AllLogNumbers | rP4-compiler/rp4c/ipsa_memory.h:104-125 | each memory's blocks are numbered without gaps, and a cluster hands out what its stages need |
| MemorySafety.BoundsAreCounts | rP4-compiler/rp4c/ipsa_memory.h:104-125 | clusters stay below 4 and block numbers below 128 in TCAM and 256 in SRAM iff no cluster hands out more than it has |
| MemorySafety.BlocksExist | rP4-compiler/rp4c/ipsa_memory.h:93-125 | all blocks exist iff the refused stages fit in what is left of cluster 0, so always if none is refused |
| MemorySafety.RefusedStageOverruns | rP4-compiler/rp4c/ipsa_memory.h:93-125 | a table one block larger than a cluster is given a block there is not |
| MemorySafety.BlocksAreDisjoint | rP4-compiler/rp4c/ipsa_memory.h:104-125 | no block of a cluster is handed out twice, also when a stage lists a table several times |
| Processors.IpsaBuilder.PlaceGroup | rP4-compiler/rp4c/ipsa_builder.h:147-180 | a group of levels goes to the first free processor, linked to the next one, or to the stage's own; fails iff none is free |
| Processors.IpsaBuilder.BuildStage | rP4-compiler/rp4c/ipsa_builder.h:139-191 | builds the stage's chain iff enough slots are free |
| Processors.IpsaBuilder.AllocateProcessors | rP4-compiler/rp4c/ipsa_builder.h:130-211 | succeeds iff there are free slots for all parser-only processors; then these lie in the lowest slots without a stage, and all chains are built and remapped |
| Processors.ExtraIsAt | rP4-compiler/rp4c/ipsa_builder.h:147-157 | each parser-only processor is in a slot without a stage that has as many such slots below as there are ones before it |
| Processors.LowestAreTaken | rP4-compiler/rp4c/ipsa_builder.h:147-157 | of the slots without a stage those taken are the lowest |
| Processors.ExtraIs | rP4-compiler/rp4c/ipsa_builder.h:143-180 | a stage of n levels has (n - 1) / 4 parser-only processors |
| Processors.BuildFiveLevels | rP4-compiler/rp4c/ipsa_builder.h:130-211 | a run for a stage of five levels: all sixteen processors |
| Processors.Remap | rP4-compiler/rp4c/ipsa_builder.h:193-211 | processors and default gateways are named by slot |
| Processors.ChainVisitsAllLevels | rP4-compiler/rp4c/ipsa_builder.h:143-180 | from the first processor of a stage the default gateways lead through its levels in order, each once, at most four a processor, to the stage |
| Processors.EntryRunsAllLevelsIffTheyFit | rP4-compiler/rp4c/ipsa_builder.h:193-211 | a stage entered by its remapped number runs all its levels iff there are at most four |
| Processors.ChainHeadIsUnreachable | rP4-compiler/rp4c/ipsa_builder.h:170-211 | if every stage a default gateway leads to is placed, none leads to the first parser-only processor of a stage |
| Processors.ChainHeadReachedIff | rP4-compiler/rp4c/ipsa_builder.h:170-211 | a default gateway leads to the first parser-only processor of a stage iff it was meant for a refused stage whose number is that slot's |
| Processors.KeptEntryLeads | rP4-compiler/rp4c/ipsa_builder.h:193-211 | a gateway entry with the stage's old number leads to the stage iff the stage is in the slot of that number, and to a parser-only processor iff one is there |
| Processors.FiveLevelsAreSplit | rP4-compiler/rp4c/ipsa_builder.h:130-211 | a stage of five levels whose entry runs the fifth only |
| Switch.SlotsRunLists | rP4-compiler/rp4c/ipsa_builder.h:139-211 | stages of at most four levels run in their slots what the distribution gives them |
| Switch.SwitchParsesProgram | rP4-compiler/rp4c/ipsa_builder.h:130-211 | on a path that does not start over, for a packet that comes to no blank slot: the processors along it, with levels as stored, find every declared header just where the program's parser does; header 0 iff parsing has not ended |
| Incremental.IpsaBuilder.AllocateMemory | rP4-compiler/rp4c/ipsa_builder.h:214-335 | accepted iff kept tables of a stage agree on a cluster, every stage keeps one and every cluster has room; then slots and copied block lists |
| Incremental.NewStageIsRejected | rP4-compiler/rp4c/ipsa_builder.h:283-307 | one new stage without a table is rejected although every cluster has room |
| Incremental.RoomIff | rP4-compiler/rp4c/ipsa_builder.h:251-282 | a cluster has room iff its stages are at most four and need at most 256 SRAM and 128 TCAM blocks |
| Incremental.KeptClusters | rP4-compiler/rp4c/ipsa_builder.h:231-250 | fails iff kept tables disagree; else the cluster of every stage that keeps one |
| Incremental.IpsaBuilder.PlaceFixed | rP4-compiler/rp4c/ipsa_builder.h:251-282 | succeeds iff every cluster has slots, SRAM and TCAM for its stages, in whatever order they come |
| Incremental.IpsaBuilder.PlaceDynamic | rP4-compiler/rp4c/ipsa_builder.h:283-307 | succeeds iff there is no stage without a kept table |
| Incremental.IpsaBuilder.CopyBlocks | rP4-compiler/rp4c/ipsa_builder.h:316-335 | every kept table's block lists are those it had |
| Incremental.SlotInCluster | rP4-compiler/rp4c/ipsa_builder.h:261-282 | every slot taken is in the cluster its stage must be in |
| Incremental.StageHasSlot | rP4-compiler/rp4c/ipsa_builder.h:261-282 | every stage of an accepted update has a slot |
| Incremental.OneSlotEach | rP4-compiler/rp4c/ipsa_builder.h:261-282 | and no more than one |
| Incremental.AcceptedIsStable | rP4-compiler/rp4c/ipsa_builder.h:214-335 | an accepted update keeps every kept table in its cluster with its blocks |
| Incremental.BlocksKeptIff | rP4-compiler/rp4c/ipsa_builder.h:316-335 | an accepted update leaves a kept table exactly its blocks iff it keeps the kind of its key memory, or has no key blocks |
| Incremental.KindChangeMeets | rP4-compiler/rp4c/ipsa_builder.h:316-335 | an accepted update after which two tables share a block that shared none |
| Incremental.MoveToSram | rP4-compiler/rp4c/ipsa_builder.h:214-335 | the run of this update |
| Incremental.ChainKeepsBlocks | rP4-compiler/rp4c/ipsa_builder.h:214-335 | over any chain of accepted updates in which the table keeps the kind of its key memory, or has no key blocks, it holds exactly the blocks it held |
| Incremental.ChainKeepsDisjoint | rP4-compiler/rp4c/ipsa_builder.h:214-335 | so the blocks of such tables are disjoint iff they were at first |
| Updates.FirstAllocationIsDisjoint | rP4-compiler/rp4c/ipsa_memory.h:93-125 | after a full allocation no two tables hold the same block, if the stages that list a table are all in one cluster |
| Updates.FirstAllocationIsDisjointIff | rP4-compiler/rp4c/ipsa_memory.h:93-125 | after a full allocation no two of these tables hold the same block iff no block handed out in a cluster its table is not in meets one of another table |
| Updates.TwoClustersMeet | rP4-compiler/rp4c/ipsa_memory.h:93-125 | two stages in two clusters listing the same table, which then shares a block with another |
| Updates.UpdatesStayDisjoint | rP4-compiler/rp4c/ipsa_builder.h:214-335 | after any number of accepted updates, tables kept throughout with the kind of their key memory, or without key blocks, share no block iff none handed out in another cluster met one of theirs at first |
| EmptyStages.RemovedIff | rP4-compiler/rp4c/ipsa_processor_manager.h:61-91 | a stage is removed iff it is removable, every entry that leads to it can take over what it does, and, unless it does nothing, no two of them run the same action |
| EmptyStages.CannotTakeIff | rP4-compiler/rp4c/ipsa_processor_manager.h:67-79 | an entry cannot take a stage over iff its action does not exist or sets a field the stage's action sets |
| EmptyStages.ParametersStay | rP4-compiler/rp4c/ipsa_processor_manager.h:60-92 | a stage whose only action takes parameters is kept, and every entry that led to it leads to it |
| EmptyStages.AppendedNeedsNone | rP4-compiler/rp4c/ipsa_processor_manager.h:60-92 | every action appended to another takes no parameters |
| EmptyStages.RemovalSetsOnce | rP4-compiler/rp4c/ipsa_processor_manager.h:60-92 | if no action sets a field twice, none does after the removal |
| StageRuns.TakingKeepsRunsIff | rP4-compiler/rp4c/ipsa_processor_manager.h:73-79 | letting an entry take over a removable stage's action changes no run iff that is nothing or no other entry uses the same action |
| StageRuns.RemovalKeepsRuns | rP4-compiler/rp4c/ipsa_processor_manager.h:60-92 | after any number of stages looked at, none taken over by an entry that shares its action unless it does nothing, exactly the same choices and assignments can be made between the stages kept |
| StageNumbers.KeptIdsAreCompact | rP4-compiler/rp4c/ipsa_processor_manager.h:94-112 | kept stages are numbered in order, from zero, without gaps |
| StageNumbers.RemainingIsSound | rP4-compiler/rp4c/ipsa_processor_manager.h:58-111 | entries of kept stages lead to kept stages or out, removed ones lead on to kept ones |
| StageNumbers.RunsAreKept | rP4-compiler/rp4c/ipsa_processor_manager.h:58-112 | so after removal and renumbering together: between stages kept, and out of the pipeline, exactly the same choices and assignments can be made as before |
| StageNumbers.ParametersKeepStage | rP4-compiler/rp4c/ipsa_processor_manager.h:58-134 | entries that led to a stage whose action takes parameters lead to it under its new number |
| StageWeights.RunsAreKeptIff | rP4-compiler/rp4c/ipsa_processor_manager.h:58-112 | if every removable stage is led to: all runs between stages kept, and out, are the same iff no stage that does something is taken over by an entry whose action another entry of a stage not yet removed uses |
| StageRuns.UsedOnceIsHarmless | rP4-compiler/rp4c/ipsa_processor_manager.h:58-92 | none is if an action that leads to a removable stage is used by one entry |
| RemovalExamples.SharedActionIsRun | rP4-compiler/rp4c/ipsa_processor_manager.h:72-82 | a program in which an entry that led past the removed stage runs its action afterwards, sharing the action of one that led to it |
| RemovalExamples.FieldIsSetTwice | rP4-compiler/rp4c/ipsa_processor_manager.h:63-82 | a program in which a stage leads back to one that is kept, and a field is set twice afterwards |
| RemovalExamples.RemoveShared | rP4-compiler/rp4c/ipsa_processor_manager.h:58-134 | the run of the first of these programs: the whole state afterwards |
| RemovalExamples.RemoveBack | rP4-compiler/rp4c/ipsa_processor_manager.h:58-134 | that of the second |
| RemovalExamples.KeepParameter | rP4-compiler/rp4c/ipsa_processor_manager.h:58-134 | a run that keeps a stage whose action has a parameter |
| StageRemoval.CanConcatLists | rP4-compiler/rp4c/ipsa_action_manager.h:59-68 | whether no field is set by both |
| StageRemoval.IpsaProcessorManager.ConcatAction | rP4-compiler/rp4c/ipsa_action_manager.h:58-81 | appends iff the action exists and no field is set twice; changes nothing else |
| StageRemoval.IpsaProcessorManager.RemoveEmptyStage | rP4-compiler/rp4c/ipsa_processor_manager.h:61-91 | one turn of the loop: entries redirected and actions appended, the stage removed iff its only action takes no parameters and there was no conflict |
| StageRemoval.IpsaProcessorManager.RemoveEmptyStages | rP4-compiler/rp4c/ipsa_processor_manager.h:58-92 | the stages that remain, and where each removed one leads |
| StageRemoval.IpsaProcessorManager.FollowRemoved | rP4-compiler/rp4c/ipsa_processor_manager.h:101-111 | a removed stage is overwritten by the last removed one on its way, also if that was overwritten itself, which gets the number of the kept one behind |
| StageRemoval.IpsaProcessorManager.ReorderStages | rP4-compiler/rp4c/ipsa_processor_manager.h:124-134 | ids and entries are renamed by the map, with zero for what is not in it |
| StageRemoval.IpsaProcessorManager.InitializeStages | rP4-compiler/rp4c/ipsa_processor_manager.h:58-112 | the whole new state: the stages that remain, renumbered, and their actions; a stage whose action takes parameters stays and what led to it leads to its new number; what is appended takes none; no action sets a field twice that did not before |
| Switch.RemainingIsWellFormed | rP4-compiler/rp4c/ipsa_processor_manager.h:94-134 | entries of kept stages lead to kept stages or out, which is what the distribution takes for granted |
| LostHeaders.AppendedFieldsAreParsedIff | rP4-compiler/rp4c/ipsa_distribution.h:133-151 | the headers an action of a kept stage touches afterwards have been looked for on a path iff kept stages on it need the levels that extract them |
| LostHeaders.HeaderIsLost | rP4-compiler/rp4c/ipsa_distribution.h:135-141 | a stage that sets a field of a header only the removed stage declared, which no level has looked for |
| Headers.IpsaHeader.constructor | rP4-compiler/rp4c/ipsa_header_manager.h:71-108 | each first field of a name lies behind the widths of all fields in front of it |
| Headers.FieldsAreDisjoint | rP4-compiler/rp4c/ipsa_header_manager.h:71-108 | fields of different names share no bit and lie inside the header |
| Headers.NoGaps | rP4-compiler/rp4c/ipsa_header_manager.h:71-108 | the first field lies at 0 and each next one right behind the one in front |
| Headers.LayOutEthernet | rP4-compiler/rp4c/ipsa_header_manager.h:71-108 | a run for the fields of Ethernet |
| Headers.WriteKeepsOtherFields | sw-src/dataplane/executor.h:398-445 | writing a value a field can hold sets that field and keeps every other field of its header |
| FieldWrite.ShiftSpan | sw-src/dataplane/executor.h:424-428 | the value shifted left, in as many bytes, its surplus lost |
| FieldWrite.Bitmap | sw-src/dataplane/executor.h:430-439 | ones exactly in front of and behind the field |
| FieldWrite.MergeBytes | sw-src/dataplane/executor.h:441-445 | each byte of the window is its masked bits plus the shifted value, other bytes as before |
| FieldWrite.NewDataValue | sw-src/dataplane/executor.h:411-420 | the bytes taken are the value modulo the window's size |
| FieldWrite.AndKeeps | sw-src/dataplane/executor.h:443 | the mask keeps the first and last bits of a byte and clears those between |
| FieldWrite.ModifyFieldWithData | sw-src/dataplane/executor.h:398-445 | for any offset, length and value: the field holds the value's lowest bits, the bits behind it and other bytes are as before, and to the bits in front of it in its first byte the surplus is added |
| FieldFrames.WriteFrame | sw-src/dataplane/executor.h:398-445 | exactly the field's bits change iff the surplus adds nothing in front |
| FieldFrames.SmallValueFrame | sw-src/dataplane/executor.h:398-445 | a value the field can hold changes its bits only and is then its value |
| FieldRead.ReadField | sw-src/dataplane/executor.h:119-162 | whole bytes up to the field's end, the first one not set if the loop runs once too few |
| FieldRead.ReadIsField | sw-src/dataplane/executor.h:119-162 | the value read is the field's iff the extra bits are zero, or the byte not set happens to be right |
| FieldRead.WholeBytesReadExactly | sw-src/dataplane/executor.h:119-162 | a field of whole bytes is always read exactly |
| FieldRead.WriteThenRead | sw-src/dataplane/executor.h:398-445 | at any bit offset, a field of whole bytes gives back the value written |
| FieldRead.WriteThenReadAnyLength | sw-src/dataplane/executor.h:119-162 | at any length the value comes back iff the packet held zeros in the bits that come along, or the byte not set fits |
| FieldRead.HalfByteReadsWrong | sw-src/dataplane/executor.h:150-162 | a packet in which a four-bit field of value 0 is read as 240 |
| ActionParams.AlignLeft | sw-src/controller/ctrl_mod_table.h:116-122 | each byte holds the eight bits that follow the empty ones |
| ActionParams.AlignedValue | sw-src/controller/ctrl_mod_table.h:115-122 | the first bits of the moved bytes are the parameter's value |
| ActionParams.CombineToSingleKey | sw-src/controller/ctrl_mod_table.h:46-97 | the bytes filled field by field, or that the loop leaves the buffer |
| ActionParams.ExtractActionPara | sw-src/controller/ctrl_mod_table.h:99-141 | the parameters aligned and combined, with the width in bytes |
| ActionParams.BytesDoneKept | sw-src/controller/ctrl_mod_table.h:60-84 | bytes the loop has passed are not touched again |
| ActionParams.WholeBytesAreHeld | sw-src/controller/ctrl_mod_table.h:46-97 | widths of whole bytes but the last: the loop stays in the buffer and every parameter lies behind those in front |
| ActionParams.MisalignedIsLost | sw-src/controller/ctrl_mod_table.h:70-82 | any other widths: values exist that are not found again |
| ActionParams.ActionParametersRoundTrip | sw-src/controller/ctrl_mod_table.h:46-141 | all values in range come back behind the action id iff every width but the last is a whole number of bytes |
| ActionParams.ActionIdComesBack | sw-src/controller/ctrl_mod_table.h:250-255 | the action id comes back iff it is below 65536 |
| ActionParams.SentParametersRoundTrip | sw-src/controller/ctrl_mod_table.h:250-277 | what is sent gives all parameters in range back iff there are none, whatever follows it in memory |
| ActionParams.SentByteIsNotRead | sw-src/controller/ctrl_mod_table.h:250-277 | of a one-byte parameter as sent the data plane reads memory behind it |
| Actions.UnpackParam | sw-src/dataplane/executor.h:722-774 | one parameter is the number in its bits, whatever surrounds it, for any offset and width |
| Actions.Action.SetActionParas | sw-src/dataplane/executor.h:717-777 | all parameters are the numbers in their bits behind the action id |
| Actions.UnpackedAreThePacked | sw-src/dataplane/executor.h:717-777 | what the data plane unpacks are the bytes the controller packed |
| Actions.ActionIdOf | sw-src/dataplane/executor.h:866-869 | the action id is the number in the first sixteen bits |
| Actions.PackAndUnpack | sw-src/dataplane/executor.h:717-777 | packing and unpacking any parameters of whole bytes but the last gives back the id and every one of them |
| Expressions.GetValue | sw-src/dataplane/executor.h:83-93 | the number in the first four bytes, so of all of them up to 32 bits |
| Expressions.GetData | sw-src/dataplane/executor.h:95-104 | bytes that hold the number modulo their size |
| Expressions.LowMask | sw-src/dataplane/executor.h:194-197 | the mask of the lowest bits |
| Expressions.BitCompute | sw-src/dataplane/executor.h:189-241 | left shift cut to the operand's width, right shift, bitwise operators, modulo the bytes of the left operand: also bit by bit |
| Expressions.OpBits | sw-src/dataplane/executor.h:189-241 | every bit of an operator's result is given by the bits of its operands |
| Expressions.GetOpValAny | sw-src/dataplane/executor.h:106-187 | the value of a constant, field or parameter |
| Expressions.Execute | sw-src/dataplane/executor.h:316-396 | the bytes hold the recursive mathematical value, in the width of the tree |
| Expressions.WrapsOnce | sw-src/dataplane/executor.h:324-337 | sums and differences agree with the integers modulo the word, however often intermediate results leave it |
| Primitives.Run | sw-src/dataplane/executor.h:268-304 | the field is written with the value of the tree over the packet before |
| Primitives.RunFrame | sw-src/dataplane/executor.h:268-304 | the rest of the packet is kept iff the value's surplus adds nothing in front of the field |
| Primitives.ByteFieldFrame | sw-src/dataplane/executor.h:268-304 | it is always kept for fields that begin on a byte |
| Primitives.RunSumWraps | sw-src/dataplane/executor.h:268-342 | a field of up to 32 bits set to sums and differences holds the integer result modulo its own width |
| Primitives.CarryRunsOver | sw-src/dataplane/executor.h:398-445 | a four-bit counter at fifteen, counted up, changes the bits in front of it |
| Rename.SuffixIsOwn | rP4-compiler/p4r/p4_rename.h:56-73 | wherever the search stops, it is at the whole name or at a suffix no other name has |
| Rename.KeptAreDistinct | rP4-compiler/p4r/p4_rename.h:56-73 | what is kept of two registered names differs |
| Rename.ShownAreDistinct | rP4-compiler/p4r/p4_rename.h:74-84 | names without underscores shown with the same ending differ |
| Rename.ShownApartIff | rP4-compiler/p4r/p4_rename.h:52-92 | two names, with whatever endings, are shown apart in every registry iff no part one can keep looks, with its ending, like one the other can keep |
| Rename.UnderscoreCollides | rP4-compiler/p4r/p4_rename.h:74-79 | with an underscore two names can look alike |
| Rename.SuffixCollides | rP4-compiler/p4r/p4_rename.h:79-83 | a suffix and a last part can look alike without any underscore in the names |
| Rename.IndexCollides | rP4-compiler/p4r/p4_rename.h:85-89 | so can an index and a last part |
| Rename.KeptAfter | rP4-compiler/p4r/p4_rename.h:52-73 | one more name leaves what is kept of another iff that is the whole name or the new one does not end with it |
| Rename.AloneBehindTen | rP4-compiler/p4r/p4_rename.h:56-73 | of a single name of one-letter parts the last part is kept, or what is behind its tenth dot if it has more |
| Rename.ManyParts | rP4-compiler/p4r/p4_rename.h:52-92 | a run for names of thirteen and three parts |
| Rename.LateNamesCollide | rP4-compiler/p4r/p4_rename.h:32-92 | a run in which a name registered after another was shortened is shown like it |
| Rename.P4Rename.AddName | rP4-compiler/p4r/p4_rename.h:32-45 | a new name is added, a known one is marked as duplicated, nothing else changes; the names shown stay right iff the name is known or ends with none of the shortened ones |
| Rename.P4Rename.GetName | rP4-compiler/p4r/p4_rename.h:52-92 | the name made when first asked for, with the index if duplicated; the shortened name if those stored are up to date; an unknown name as it is |

## Left out

- Locations of header and field names, action and table names: looked up by the source, given here as ids.
- `std::sort` is given by its result, and `std::map` iteration by ascending keys.
- ParserTables.RunIsChase: the packet's offset does not wrap at 16 bits, and the engine's count of headers (sw-src/dataplane/parser.h:245), which nothing here reads, is not modelled. Actions between the stages do not change fields the parser selects on later.
- ParserTables.RunIsChaseIff: the key reader is any function of the headers found; `ParserKeys` says what it reads. Fields to select on are at most four, as the slots hold; those of kind VALID, which read whether a header is there, are left out.
- StoredRuns.StoredRunsLevels: for levels whose entries keep their order in the slots; for a single level the exact condition is `ParserStages.StoredFindsFirstIff`.
- Gateway entries that lead to stages, other than the default one: the source does not renumber them after allocation.
- Stages entered by gateway entries: the source resolves them after the removal of empty stages (rP4-compiler/rp4c/ipsa_gateway_manager.h:33), so one that named a removed stage leads to the kept one behind it and past what it did. Runs and source paths are those of action edges.
- Processors.IpsaBuilder.AllocateProcessors: stops at the first stage for which no processor is free, where the source reports it and goes on.
- StageNumbers.RunsAreKept: for programs whose removable stages lead to stages, and to removable ones of a higher number; `RemovalExamples.FieldIsSetTwice` is one outside that. A run ends outside the pipeline or at a stage that is not removable, since an entry may pass a removable stage that is kept for the sake of another.
- StageWeights.RunsAreKeptIff: the condition is needed only for programs in which every removable stage is led to; it is enough for all.
- StageRemoval.IpsaProcessorManager.InitializeStages: following where removed stages lead ends at a kept stage. For one that leads out of the pipeline the source reads in front of its list of stages, and around a cycle it does not end.
- Blocks of new tables in incremental updates are not modelled, nor the bitmaps that serve only them (the source marks SRAM blocks in the TCAM bitmap).
- FieldRead.ReadField: the offset is that in the packet, the header's offset added; the packet must have the bytes that are copied.
- FieldWrite.ModifyFieldWithData: likewise, and the value must have the bytes of the field's window but one, beyond which the source reads foreign memory.
- Incremental.IpsaBuilder.AllocateMemory: the spaces of the stages are inputs, computed as by `Memory.IpsaMemory.CalculateTableSpace`.
- Local byte buffers of the data plane and controller functions are sequences the methods reassign; only the packet is an array. Their allocation is not modelled.
- Expressions.Execute: operands of 1 to 32 bits and shifts below 32, beyond which shifts of 32-bit words are undefined; the operators the source does not evaluate are left out.
- ActionParams.ExtractActionPara: each parameter has as many bytes as its width needs; fewer or more leave memory unset or overrun it.
- Rename.P4Rename.GetName: the index is given in decimal.
- The numbers of table geometry (ceiling divisions in rP4-compiler/rp4c/ipsa_table_manager.h:101-130) are inputs; tables without keys have none in the source.
- Reading and printing programs and entries, the network interface, logging, freeing of memory and threads.
