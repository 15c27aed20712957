# Verified models of Open MPI's communicator and datatype code

A Dafny model of the parts of this repository whose correctness is hard to see from the code, with
proofs of what they promise. `dafny verify dfyconfig.toml` checks everything.

**Context-id agreement** (`ompi/communicator/comm_cid.c`). Every new communicator gets an id that all
its processes must agree on. `CidProtocol` models any number of concurrent calls, blocking and
non-blocking, as steps of single processes over their own slot tables and registration lists, with
MPI_MAX and MPI_MIN as abstract collectives; `CidSafety`, `CidTheorems`, `CidLeastId` and
`CidCompletion` prove agreement, slot ownership, bounded retries, freedom from deadlock, that runs can
be completed, and that a lone call commits the least id free everywhere. `CidRefusals` and `CidCapacity`
bound how often concurrent calls can spoil each other's rounds and give a limit with which all of them
complete. `CidRounds` is the same algorithm as loops over the rounds, and says exactly what happens when
no id is left. `SlotTable` models the pointer array, and it and `CidLists` the list, on which it runs.

**Allreduces**: `TreeAllreduce` is the message protocol that carries the agreement for a group,
`BridgeProtocol` and `BridgeAllreduce` the one for two groups whose leaders exchange their results;
`CidCollectives` shows that both give the agreement its maxima and minima.

**Datatype descriptions** (`ompi/datatype/ompi_datatype_args.c`): `Description` writes a datatype tree
into an integer buffer, `Rebuild` reads it back, `DescriptionSize` shows when the size computed in
advance is enough.

**Datatype constructors**: a datatype is its type map, kept in an object that
`opal_datatype_add` extends (`TypeMap`). `Constructors`, `Indexed` and `Subarray` prove the nested and
coalescing constructors against the definitions of MPI-3.1, chapter 4, with `Cells` for parts of arrays and
`BlockBounds` (with `BoundsExamples`) for the bounds of datatypes made of several blocks;
`Darray` and `DarrayMap` prove that the processes of a distributed array own disjoint parts that cover it,
and `DarrayFit`, `DarrayWhole`, `DarrayRows`, `DarrayType` and `DarrayExamples` exactly when the datatype of a
rank is its part. `CellOrder` ties the cells of both kinds of arrays to index vectors, in C and in Fortran
order.

**Other parts**: `SeqTracker` (a set of 32-bit numbers as maximal ranges), `Attributes` and `AttributesUse`
(keyvals shared by many object tables, and what their users see), `CommRequest`, `CommTurn`, `CommStatus` and
`CommEngine` (the progress engine of communicator requests, whose callbacks use its interface), `Connectivity`
(the pairwise check of `openmpi-2.0.1/examples/connectivity_c.c`), `Puzzle`, `PuzzleParity`, `PuzzleCosts`,
`PuzzleSearch`, `PuzzleMerge`, `PuzzleCoverage`, `PuzzleRun` and `PuzzleSolve` (`main.c`), and `RadixSort`
(`hw6/hw6.c`).
`Arithmetic`, `FiniteSets`, `CommonIds`, `Reduction` and `Options` are shared helpers.

Where the code does not do what it is meant to do, the model keeps the code and the proofs say for
which inputs it does:

- an hvector or vector whose byte stride is -1 is laid out at the old extent, because -1 is the value by
  which `opal_datatype_add` recognises "no extent given" (`Constructors.CreateHvector`); a subarray of a
  type of extent -1 can inherit this (`Subarray.CreateSubarray`);
- `ompi_datatype_create_hindexed_block` compares a byte displacement with an element count
  (`Indexed.CreateHindexedBlock`);
- the rebuild of a DARRAY type finds its arguments by the process count instead of the number of
  dimensions (`Rebuild.DarraySurvives`);
- the description of a duplicate made directly from a handle flagged predefined, which Fortran 90 types
  are as well as named ones, is one int longer than its buffer (`DescriptionSize.SizeSuffices`);
- a block-cyclic dimension of a distributed array repeats its blocks at the extent of the datatype so far,
  which is that of a row only behind dimensions that are not split, back to a cyclic one; and an extent of
  -1 can be rounded up on the way, as for subarrays (`DarrayType.CreateDarray`, `DarrayExamples`);
- the extent of a distributed array lacks the size of its fastest dimension (`DarrayType.CreateDarray`);
- a datatype's upper bound is padded after every block, so for blocks that are not aligned with each other
  the padding adds up (`BoundsExamples.PaddingAddsUp`);
- the heuristic value of the puzzle counts the blank, and is 2 one move before the goal
  (`PuzzleCosts.TwoNextToGoal`);
- freeing a keyval again while objects hold it takes a reference that is theirs
  (`Attributes.FreedTwiceBreaks`);
- the sequence tracker turns a range upside down when 0 or 4294967295 is inserted while the cursor is on
  a range that ends, or begins, at the opposite end (`SeqTracker.Tracker.Insert`);
- radix sort orders negative integers behind the others (`RadixSort.SortedAsInts`);
- with no id left below the limit, the processes of one call can end differently; `CidRounds.NextCid` says
  for which tables they do.

The Fortran 90 cases of `__ompi_datatype_create_from_args` are never reached, because such types are
packed as predefined ones; the rebuilt datatype is the base type.

Collectives, user callbacks, the completion of subrequests and the order of a hash table are parameters
or arbitrary choices. Lists that the code relinks in place are sequence fields that methods reassign.

## Model

| member | source | states |
|---|---|---|
| `CidTheorems.Agreement` | openmpi-2.0.1/ompi/communicator/comm_cid.c:198-278 | In every interleaving of any number of blocking and non-blocking calls, all processes that have accepted an id for one call have accepted the same one |
| `CidTheorems.SlotsAreExclusive` | openmpi-2.0.1/ompi/communicator/comm_cid.c:210-273 | Two calls in flight never own the same slot of a process, and no call owns a slot that was in use before |
| `CidTheorems.StepsClearOwnSlots` | openmpi-2.0.1/ompi/communicator/comm_cid.c:238-273 | Whatever step frees a slot, it is a step of the call that had reserved that very slot on that process |
| `CidTheorems.OnlyTheCommittedSlotStays` | openmpi-2.0.1/ompi/communicator/comm_cid.c:262-278 | A call owns no slot before it reserves one in a round, and once it is done the only slot it owns is the committed one |
| `CidTheorems.FinalTables` | openmpi-2.0.1/ompi/communicator/comm_cid.c:276-278 | When all calls are done each table is the old one plus exactly the ids committed on that process |
| `CidTheorems.MaximaIncrease` | openmpi-2.0.1/ompi/communicator/comm_cid.c:221-272 | The maximum of a call's round is strictly larger than that of its round before |
| `CidTheorems.EveryRunIsFinite` | openmpi-2.0.1/ompi/communicator/comm_cid.c:198-274 | A process takes a bounded number of steps in any run, whatever the interleaving and the schedule: no call retries for ever |
| `CidTheorems.LowestIsAdmitted` | openmpi-2.0.1/ompi/communicator/comm_cid.c:202-208 | The admission test never holds back the unfinished call with the lowest parent id, on any process |
| `CidTheorems.NoDeadlock` | openmpi-2.0.1/ompi/communicator/comm_cid.c:202-273 | In every reachable state with an unfinished call some process can take a step, as long as no call ran out of ids; `CidCapacity.EnoughIds` says which limit rules that out |
| `CidSafety.StepKeepsInv` | openmpi-2.0.1/ompi/communicator/comm_cid.c:198-284 | Every step keeps shapes, histories, collective results, slot ownership and the registration lists consistent |
| `CidSafety.ReachableInv` | openmpi-2.0.1/ompi/communicator/comm_cid.c:198-284 | The invariant holds in every reachable state |
| `CidLists.InsertSortedOk` | openmpi-2.0.1/ompi/communicator/comm_cid.c:509-540 | Registration keeps the list sorted and adds exactly one entry, even for an id that is on the list already |
| `CidLists.RemoveFirstOk` | openmpi-2.0.1/ompi/communicator/comm_cid.c:555-561 | Unregistering keeps the list sorted and takes out exactly one entry of the id, if there is one |
| `CidLeastId.CommittedIdWasFree` | openmpi-2.0.1/ompi/communicator/comm_cid.c:238-263 | An accepted id was free on every participant when the run began, whatever other calls did in between |
| `CidLeastId.AloneCommitsLeast` | openmpi-2.0.1/ompi/communicator/comm_cid.c:198-278 | A call that runs alone can only commit the least id free on all its processes: any tables, both schedules, any interleaving |
| `CidLeastId.AloneNeverExhausted` | openmpi-2.0.1/ompi/communicator/comm_cid.c:212-236 | With an id below the limit free everywhere, a lone call never reaches the out-of-ids branch |
| `CidLeastId.AloneEndsWithLeast` | openmpi-2.0.1/ompi/communicator/comm_cid.c:198-284 | A run of a lone call that cannot be continued has every process done with the least commonly free id and its table grown by exactly that id |
| `CidCompletion.RunsCanFinish` | openmpi-2.0.1/ompi/communicator/comm_cid.c:198-284 | Whatever has happened so far, the processes can go on until all calls are done, unless some call runs out of ids |
| `CidCompletion.AloneCanFinish` | openmpi-2.0.1/ompi/communicator/comm_cid.c:198-284 | From every reachable state of a lone call with a commonly free id, the run can be continued until every process is done with the least one |
| `CidCompletion.RunLengthBounded` | openmpi-2.0.1/ompi/communicator/comm_cid.c:198-274 | No run is longer than a bound given by the number of processes and the limit |
| `CidCompletion.TwoProcesses` | openmpi-2.0.1/ompi/communicator/comm_cid.c:198-284 | A complete run of two processes with different tables |
| `CidRefusals.AdmittedIsFirst` | openmpi-2.0.1/ompi/communicator/comm_cid.c:202-208 | A call is admitted on a process only while no call with a lower parent id is registered there |
| `CidRefusals.OthersStepCauses` | openmpi-2.0.1/ompi/communicator/comm_cid.c:198-284 | No step of another call raises the number of refusals that it can still cause at a process |
| `CidRefusals.VoteUsesCause` | openmpi-2.0.1/ompi/communicator/comm_cid.c:238-254 | A vote against a slot that another call owns uses up one of the refusals that call can cause |
| `CidRefusals.RefusalsBounded` | openmpi-2.0.1/ompi/communicator/comm_cid.c:198-284 | In every interleaving each other call causes a call at most two refusals per process, of ids that were free at the start |
| `CidCapacity.RoundsBoundedByCalls` | openmpi-2.0.1/ompi/communicator/comm_cid.c:198-274 | The number of rounds of a call is bounded by the ids in use at the start and the numbers of calls and processes, whatever the limit |
| `CidCapacity.TriedStep` | openmpi-2.0.1/ompi/communicator/comm_cid.c:210-273 | Every step keeps that the ids tried beyond those in use at the start have no gaps |
| `CidCapacity.EnoughIds` | openmpi-2.0.1/ompi/communicator/comm_cid.c:212-236 | With a limit above the initial ids by a stated function of the numbers of calls and processes, no call ever runs out of ids |
| `CidCapacity.CallsEnd` | openmpi-2.0.1/ompi/communicator/comm_cid.c:198-284 | With such a limit a run of any number of concurrent calls that cannot be continued has every process of every call done |
| `CidCapacity.CallsCanFinish` | openmpi-2.0.1/ompi/communicator/comm_cid.c:198-284 | And from every reachable state the run can be continued until all calls are done |
| `CidCapacity.TwoCalls` | openmpi-2.0.1/ompi/communicator/comm_cid.c:198-284 | A complete run of a blocking and a non-blocking call that run at once on the same two processes and end with different ids |
| `CidRounds.NextCid` | openmpi-2.0.1/ompi/communicator/comm_cid.c:147-284 | Over whole rounds with either schedule: an id below the limit is committed if and only if one is free everywhere, it is the least, and every table gains exactly that id. With none free the blocking call ends alike, with the limit at everybody, if and only if nobody has a free id from the start of the last round on; the non-blocking one fails everywhere if and only if nobody has a free id at all |
| `CidRounds.RoundEnds` | openmpi-2.0.1/ompi/communicator/comm_cid.c:210-273 | Each refused round of the blocking call uses up the shortest range of ids in which everybody has a free one |
| `CidRounds.LastRound` | openmpi-2.0.1/ompi/communicator/comm_cid.c:210-236 | In the last round the processes without a candidate are those with nothing free behind these ranges |
| `CidRounds.NobodyHasCandidate` | openmpi-2.0.1/ompi/communicator/comm_cid.c:400-466 | The non-blocking call leaves everybody without a candidate if and only if nobody has a free id, because a process that refuses keeps its candidate |
| `CidRounds.EndsAlike` | openmpi-2.0.1/ompi/communicator/comm_cid.c:212-253 | Free ids {0} and {1} with limit 2: both processes return the limit |
| `CidRounds.EndsSplit` | openmpi-2.0.1/ompi/communicator/comm_cid.c:212-253 | Free ids {0} and {1, 2} with limit 3: one process fails and the other waits |
| `CidRounds.Scan` | openmpi-2.0.1/ompi/communicator/comm_cid.c:210-219 | The scan finds the first free slot from the start below the limit, or the limit |
| `CidRounds.Propose` | openmpi-2.0.1/ompi/communicator/comm_cid.c:210-222 | The maximum of the candidates is not above any commonly free id and not below any start; each table gains only its candidate |
| `CidRounds.Settle` | openmpi-2.0.1/ompi/communicator/comm_cid.c:238-273 | The round is accepted exactly when the maximum is free everywhere; otherwise all tables are as before and no start skips a commonly free id |
| `CidRounds.BestCandidate` | openmpi-2.0.1/ompi/communicator/comm_cid.c:210-222 | No process can propose past an id that is free everywhere |
| `CidRounds.RetryStartsBelowFree` | openmpi-2.0.1/ompi/communicator/comm_cid.c:462-466 | After a refused round neither schedule starts past a commonly free id, although the non-blocking one advances only where the reservation succeeded |
| `CidRounds.BlockingOutOfIds` | openmpi-2.0.1/ompi/communicator/comm_cid.c:229-253 | At the limit a process with a candidate gives it back and fails, one without accepts the limit as its answer |
| `CidRounds.NonBlockingOutOfIds` | openmpi-2.0.1/ompi/communicator/comm_cid.c:400-428 | The non-blocking form fails exactly where no candidate was found; the others hold the limit and wait |
| `SlotTable.PointerArray.TestAndSetItem` | openmpi-2.0.1/opal/class/opal_pointer_array.c:233-293 | Reserves the slot if and only if it is free and can exist; no other slot changes |
| `SlotTable.PointerArray.SetItem` | openmpi-2.0.1/opal/class/opal_pointer_array.c:164-217 | Stores or clears the slot whatever it held; no other slot changes |
| `SlotTable.PointerArray.Grow` | openmpi-2.0.1/opal/class/opal_pointer_array.c:327-338 | Growing keeps every old slot and all new ones are free |
| `SlotTable.PointerArray.MakeRoom` | openmpi-2.0.1/opal/class/opal_pointer_array.c:256-263 | Room for an index is made exactly when the table may have that size |
| `SlotTable.PointerArray.LowestFreeIsLeast` | openmpi-2.0.1/opal/class/opal_pointer_array.c:270-281 | lowest_free is free and no lower slot is |
| `SlotTable.GrowthMakesRoom` | openmpi-2.0.1/opal/class/opal_pointer_array.c:308-341 | A successful growth makes room for the index except for one boundary index, where the table stays one slot short |
| `SlotTable.Registry.TryRegister` | openmpi-2.0.1/ompi/communicator/comm_cid.c:497-547 | The in-place list refines sorted insertion; a second call on the same communicator is turned away exactly with thread support |
| `SlotTable.Registry.Unregister` | openmpi-2.0.1/ompi/communicator/comm_cid.c:549-566 | The in-place list refines removal of the first occurrence |
| `SlotTable.Registry.Lowest` | openmpi-2.0.1/ompi/communicator/comm_cid.c:568-575 | The head of the list is the least registered id |
| `TreeAllreduce.AllreduceDelivers` | openmpi-2.0.1/ompi/communicator/comm_cid.c:1411-1458 | A run that cannot be continued has every rank finished with the reduction of all inputs, each tree edge used once each way, and nothing left on the wire |
| `TreeAllreduce.NoDeadlock` | openmpi-2.0.1/ompi/communicator/comm_cid.c:1423-1458 | While a rank is unfinished a step is possible even if no send returns before its message is received |
| `TreeAllreduce.RunsAreFinite` | openmpi-2.0.1/ompi/communicator/comm_cid.c:1423-1458 | No rank takes more than twelve steps in any run |
| `TreeAllreduce.SubtreeIsChosen` | openmpi-2.0.1/ompi/communicator/comm_cid.c:1411-1433 | What a rank collects is the reduction over exactly the ranks of its heap subtree |
| `TreeAllreduce.RootCollectsAll` | openmpi-2.0.1/ompi/communicator/comm_cid.c:1411-1433 | The root collects the reduction of all inputs in rank order |
| `TreeAllreduce.AboveSplits` | openmpi-2.0.1/ompi/communicator/comm_cid.c:1411-1413 | The ranks below a rank are the rank itself and two disjoint parts, one below each child |
| `TreeAllreduce.StepKeepsInv` | openmpi-2.0.1/ompi/communicator/comm_cid.c:1411-1458 | Every send, receive and completion keeps what each rank and each edge may hold |
| `TreeAllreduce.ReachableInv` | openmpi-2.0.1/ompi/communicator/comm_cid.c:1411-1458 | That invariant holds in every reachable state |
| `BridgeAllreduce.LeaderReduce` | openmpi-2.0.1/ompi/communicator/comm_cid.c:1260-1283 | The leader's buffer becomes the element-wise combination of what it received and its own group's result; an unknown operation is refused and nothing changes |
| `BridgeAllreduce.OperationLaws` | openmpi-2.0.1/ompi/communicator/comm_cid.c:1260-1283 | What the four operations are: the sum has unit 0 and can be undone, the product has unit 1 and distributes over the sum, maximum and minimum are one of the two and bound both |
| `BridgeAllreduce.ReduceByColumn` | openmpi-2.0.1/ompi/communicator/comm_cid.c:1228-1287 | Reducing buffers is reducing each place of them on its own |
| `BridgeAllreduce.TotalIsUnion` | openmpi-2.0.1/ompi/communicator/comm_cid.c:1228-1283 | The two groups' results combined are the reduction over the union of the groups, from either side and at each place |
| `BridgeAllreduce.AllHaveUnion` | openmpi-2.0.1/ompi/communicator/comm_cid.c:1205-1287 | When nothing more can happen every member of both groups has, at each place of its buffer, the reduction of that place over the members of both groups |
| `BridgeProtocol.BridgeDelivers` | openmpi-2.0.1/ompi/communicator/comm_cid.c:1205-1287 | A run of the exchange that cannot be continued has every member of both groups finished with the joined value after one message each way; an unknown operation is refused by all and nothing is sent |
| `BridgeProtocol.NoDeadlock` | openmpi-2.0.1/ompi/communicator/comm_cid.c:1234-1287 | While a member is unfinished a step is possible, even if no send, and no sending side of a broadcast, returns before its value was taken |
| `BridgeProtocol.RunsAreFinite` | openmpi-2.0.1/ompi/communicator/comm_cid.c:1205-1287 | No member takes more than ten steps in any run |
| `BridgeProtocol.StepKeepsInv` | openmpi-2.0.1/ompi/communicator/comm_cid.c:1205-1287 | Every step keeps what the members, the leaders' buffers and the two messages may hold |
| `CidCollectives.TreeGivesResult` | openmpi-2.0.1/ompi/communicator/comm_cid.c:210-256 | A finished run of the messages up and down the tree, with MPI_MAX or MPI_MIN over what the members of a call contribute to a round, leaves every rank with the one value that the agreement takes as the result of that round |
| `CidCollectives.BridgeGivesResult` | openmpi-2.0.1/ompi/communicator/comm_cid.c:210-256 | So does a finished exchange between the leaders of two groups that make up the call |
| `CidCollectives.ColumnIsResult` | openmpi-2.0.1/ompi/communicator/comm_cid.c:221-256 | The reduction of the contributed buffers is the one value that the agreement takes |
| `Description.PackInto` | openmpi-2.0.1/ompi/datatype/ompi_datatype_args.c:414-475 | Writes exactly the words of the description at the position, returns where they end and the next index, and leaves the rest of the buffer alone |
| `Description.PackDerived` | openmpi-2.0.1/ompi/datatype/ompi_datatype_args.c:430-475 | The same for a node that is not a duplicate: header, displacements, slots, integers, components |
| `Description.PackKid` | openmpi-2.0.1/ompi/datatype/ompi_datatype_args.c:460-472 | One component fills its slot and appends its words |
| `Description.AintRoundTrip` | openmpi-2.0.1/ompi/datatype/ompi_datatype_args.c:446-452 | A displacement survives being stored as two words |
| `Description.VectorWords` | openmpi-2.0.1/ompi/datatype/ompi_datatype_args.c:414-475 | The words of MPI_Type_vector(3, 1, 2) of a named type, and of four of them side by side, one by one |
| `Description.HvectorWords` | openmpi-2.0.1/ompi/datatype/ompi_datatype_args.c:446-475 | The words of an hvector: the stride takes two words in front of the component |
| `Rebuild.Unpack` | openmpi-2.0.1/ompi/datatype/ompi_datatype_args.c:552-676 | Reading back the description of any tree succeeds, consumes exactly its words and gives a tree built the same way: the same integers, displacements and components throughout, a duplicate being what it duplicates, a Fortran 90 type its base type, and the combiners the same but for the C equivalents of the Fortran constructors |
| `Rebuild.UnpackDerived` | openmpi-2.0.1/ompi/datatype/ompi_datatype_args.c:595-667 | The same for a description that begins with a derived node |
| `Rebuild.UnpackKids` | openmpi-2.0.1/ompi/datatype/ompi_datatype_args.c:624-647 | The loop rebuilds all components and ends where they end |
| `Rebuild.UnpackKid` | openmpi-2.0.1/ompi/datatype/ompi_datatype_args.c:624-647 | An index below 47 is a predefined type, any other a description that follows |
| `Rebuild.CreateKeepsArgs` | openmpi-2.0.1/ompi/datatype/ompi_datatype_args.c:678-798 | Every constructor case stores again the arguments it was given, with the _INTEGER combiners normalised; DARRAY when there are as many processes as dimensions |
| `Rebuild.ArgsAreKept` | openmpi-2.0.1/ompi/datatype/ompi_datatype_args.c:110-168 | The rebuilt node has the integers, displacements and components that its constructor case was given, and its combiner |
| `Rebuild.NormIsSame` | openmpi-2.0.1/ompi/datatype/ompi_datatype_args.c:678-798 | The normalised form of a tree is built like the tree, node by node |
| `Rebuild.DarraySurvives` | openmpi-2.0.1/ompi/datatype/ompi_datatype_args.c:757-767 | For every process count and number of dimensions, and whatever lies behind the stored integers, the DARRAY case restores all arguments if and only if the two numbers are equal |
| `Rebuild.DarrayMisread` | openmpi-2.0.1/ompi/datatype/ompi_datatype_args.c:757-767 | The first distribution is read from behind as many array sizes as there are processes |
| `Rebuild.DarrayOnOneProcess` | openmpi-2.0.1/ompi/datatype/ompi_datatype_args.c:757-767 | A valid two-dimensional array on one process that is rebuilt with shifted distributions |
| `Rebuild.StripIsSame` | openmpi-2.0.1/ompi/datatype/ompi_datatype_args.c:429-435 | A duplicate has the description and the rebuilt form of the type it duplicates |
| `DescriptionSize.SizeSuffices` | openmpi-2.0.1/ompi/datatype/ompi_datatype_args.c:103-104 | The precomputed size is large enough exactly when the root is not a duplicate made directly from a handle flagged predefined; that one is short by one int |
| `DescriptionSize.ShortDuplicate` | openmpi-2.0.1/ompi/mpi/c/type_create_f90_real.c:102 | A duplicate of a named or of a Fortran 90 type is described in eight bytes, for which four were recorded |
| `DescriptionSize.SetArgsEnough` | openmpi-2.0.1/ompi/datatype/ompi_datatype_args.c:126-128 | Whatever constructor runs, recorded sizes plus at most one int bound the description throughout the tree |
| `DescriptionSize.PackHasWordCount` | openmpi-2.0.1/ompi/datatype/ompi_datatype_args.c:414-475 | The number of words a description takes, for every tree |
| `DescriptionSize.RepackedComponents` | openmpi-2.0.1/ompi/datatype/ompi_datatype_args.c:498-505 | Correcting the recorded sizes of components at any depth, when they are packed on their own, does not spoil the types built from them |
| `DescriptionSize.CorrectedWordCount` | openmpi-2.0.1/ompi/datatype/ompi_datatype_args.c:498-505 | Nor does it change the length of any description |
| `DescriptionSize.GetPackDescription` | openmpi-2.0.1/ompi/datatype/ompi_datatype_args.c:478-529 | The buffer allocated from the recorded size holds the description, and the recorded size becomes exact |
| `TypeMap.Datatype.Add` | openmpi-2.0.1/opal/datatype/opal_datatype_add.c:106-268 | Appends strided copies of the added type map. The new lower bound is the least of the old one and those of all copies, the upper bound the greatest, padded by less than the alignment to a multiple of it from the lower bound on, unless the extent is negative; a bound that the user has set for one of the two types prevails, and for the upper bound switches off padding. The MPI_LB and MPI_UB markers only set a bound; the extent -1 stands for the extent of the added type |
| `TypeMap.SpanIsExtreme` | openmpi-2.0.1/opal/datatype/opal_datatype_add.c:154-160 | Whichever way the stride goes, the first or the last of the copies has the least lower bound, and the other one the greatest upper bound |
| `TypeMap.RoundedIs` | openmpi-2.0.1/opal/datatype/opal_datatype_add.c:223-234 | The padded extent is a multiple of the alignment, and the next one unless the extent is negative |
| `BlockBounds.AddBlock` | openmpi-2.0.1/opal/datatype/opal_datatype_add.c:180-234 | One more block keeps the exact account of the bounds of all blocks: the least lower bound of all copies, and the greatest upper bound, padded by less than the alignment if the copies are aligned, no type has a negative extent and of two alignments one divides the other |
| `BlockBounds.BoundsGrow` | openmpi-2.0.1/opal/datatype/opal_datatype_add.c:180-234 | The same for the numbers: what one addition makes of least, greatest and padding |
| `BlockBounds.PaddedTwice` | openmpi-2.0.1/opal/datatype/opal_datatype_add.c:223-234 | Padding to a smaller alignment first makes no difference to padding to a multiple of it |
| `BlockBounds.CopyCounts` | openmpi-2.0.1/opal/datatype/opal_datatype_add.c:154-160 | Every copy of every block counts for the bounds |
| `BlockBounds.CopyOfBound` | openmpi-2.0.1/opal/datatype/opal_datatype_add.c:154-160 | Every bound is that of a copy of some block |
| `BlockBounds.CopiesExtend` | openmpi-2.0.1/ompi/datatype/ompi_datatype_create_indexed.c:51-54 | A block that begins where the open one ends can be counted as a part of it without changing the bounds |
| `BoundsExamples.TwoApart` | openmpi-2.0.1/ompi/datatype/ompi_datatype_create_indexed.c:69-104 | A 4-byte element at 0 and at 8: bounds 0 and 12 |
| `BoundsExamples.PaddingAddsUp` | openmpi-2.0.1/opal/datatype/opal_datatype_add.c:223-234 | For copies that are not aligned with each other the padding of one addition is padded again by the next: 11 instead of 7 |
| `TypeMap.Datatype.Resize` | openmpi-2.0.1/opal/datatype/opal_datatype_resize.c:21-32 | Sets the bounds and leaves the type map alone |
| `TypeMap.CopiesAt` | openmpi-2.0.1/opal/datatype/opal_datatype_add.c:112-122 | Where each element of each copy stands |
| `TypeMap.CopiesConcat` | openmpi-2.0.1/opal/datatype/opal_datatype_add.c:112-122 | Copies side by side can be added in two parts |
| `TypeMap.CopiesOfCopies` | openmpi-2.0.1/ompi/datatype/ompi_datatype_create_vector.c:48-61 | Groups of copies without gaps are one run of copies |
| `Constructors.CreateContiguous` | openmpi-2.0.1/ompi/datatype/ompi_datatype_create_contiguous.c:27-41 | One run of copies, and the extent it gets from the extent, the count and the alignment of the old type |
| `Constructors.CreateVector` | openmpi-2.0.1/ompi/datatype/ompi_datatype_create_vector.c:35-64 | The three-way split gives the blocks of section 4.1.2 of MPI-3.1 if and only if the byte stride is not -1 or there is nothing to space |
| `Constructors.CreateHvector` | openmpi-2.0.1/ompi/datatype/ompi_datatype_create_vector.c:67-96 | The same with the stride in bytes; in any case the result is groups of neighbours at some distance, and for blocks of one element its extent is stated |
| `Constructors.StridedIsNested` | openmpi-2.0.1/ompi/datatype/ompi_datatype_create_vector.c:55-60 | The blocks one by one are the block repeated |
| `Constructors.ContiguousBlocks` | openmpi-2.0.1/ompi/datatype/ompi_datatype_create_vector.c:48-50 | Blocks without gaps are one run of copies |
| `Constructors.NestedStep` | openmpi-2.0.1/ompi/datatype/ompi_datatype_create_vector.c:79-93 | The general case is right exactly when the stride is honoured |
| `Constructors.BlockExtent` | openmpi-2.0.1/ompi/datatype/ompi_datatype_create_vector.c:55-59 | A block of two or more elements never has extent -1 |
| `Constructors.BackwardStrideFails` | openmpi-2.0.1/ompi/datatype/ompi_datatype_create_vector.c:79-86 | Two elements of extent 1 at stride -1 are laid out forwards |
| `Indexed.CreateIndexed` | openmpi-2.0.1/ompi/datatype/ompi_datatype_create_indexed.c:33-66 | The merging loop gives the type map of the blocks one by one, for all lengths, displacements and extents, and the bounds of all their copies: the least, and the greatest with its padding; an empty datatype's bounds if there are none |
| `Indexed.CreateHindexed` | openmpi-2.0.1/ompi/datatype/ompi_datatype_create_indexed.c:69-104 | The same with byte displacements |
| `Indexed.CreateIndexedBlock` | openmpi-2.0.1/ompi/datatype/ompi_datatype_create_indexed.c:107-144 | The same with one block length |
| `Indexed.CreateHindexedBlock` | openmpi-2.0.1/ompi/datatype/ompi_datatype_create_indexed.c:146-182 | Right if and only if the extent is 1, there is nothing to place, or no block begins bLength bytes after the one before it |
| `Indexed.CreateStruct` | openmpi-2.0.1/ompi/datatype/ompi_datatype_create_struct.c:29-95 | The merging loop over types gives the type map of the blocks one by one and, for components with the same user flags, the greatest alignment and the least and greatest bounds over all copies of all components; it keeps to the alignment and the user flag that all components share |
| `Indexed.MergeExtends` | openmpi-2.0.1/ompi/datatype/ompi_datatype_create_indexed.c:51-54 | A block that begins where the open one ends joins it without changing the type map |
| `Indexed.Close` | openmpi-2.0.1/ompi/datatype/ompi_datatype_create_indexed.c:55-60 | A block that does not continue the open one closes it: type map and bounds of the blocks so far are kept |
| `Indexed.Finish` | openmpi-2.0.1/ompi/datatype/ompi_datatype_create_indexed.c:62 | The last block completes the type map and the bounds |
| `Indexed.FalseMerge` | openmpi-2.0.1/ompi/datatype/ompi_datatype_create_indexed.c:165-170 | A merge at the wrong distance misplaces the first element of the merged block |
| `Indexed.FalseAdjacency` | openmpi-2.0.1/ompi/datatype/ompi_datatype_create_indexed.c:165-170 | Two blocks of one four-byte element, one byte apart |
| `Subarray.CreateSubarray` | openmpi-2.0.1/ompi/datatype/ompi_datatype_create_subarray.c:31-108 | The type map is exactly the cells of the sub-box in canonical order, in both orders and for any number of dimensions, if and only if the input is outside one family with extent -1; section 4.1.3 of MPI-3.1 |
| `Subarray.Dimensions` | openmpi-2.0.1/ompi/datatype/ompi_datatype_create_subarray.c:71-89 | The dimensions nest the box moved to the origin and add up its first cell |
| `Subarray.OtherDimensions` | openmpi-2.0.1/ompi/datatype/ompi_datatype_create_subarray.c:80-88 | The loop over the third and later dimensions keeps that, or goes wrong exactly in that family |
| `Subarray.BoxIsScan` | openmpi-2.0.1/ompi/datatype/ompi_datatype_create_subarray.c:76-88 | Row by row or cell by cell over the whole array, the box is the same |
| `CellOrder.CellOfBox` | openmpi-2.0.1/ompi/datatype/ompi_datatype_create_subarray.c:62-88 | For every index vector in the order of the arguments, the cell whose number is the row-major one in C order and the column-major one in Fortran order belongs to the box if and only if every index lies in its range |
| `CellOrder.EveryCellOfBox` | openmpi-2.0.1/ompi/datatype/ompi_datatype_create_subarray.c:62-88 | And every cell of the array is one that an index vector names |
| `CellOrder.LastIndexFastest` | openmpi-2.0.1/ompi/datatype/ompi_datatype_create_subarray.c:62-70 | In C order one more in the last index is the next cell, in Fortran order one more in the first |
| `CellOrder.RowsAreColumns` | openmpi-2.0.1/ompi/datatype/ompi_datatype_create_subarray.c:62-70 | The one order is the other one read backwards |
| `Cells.PartIsRows` | openmpi-2.0.1/ompi/datatype/ompi_datatype_create_subarray.c:76-88 | Any part given dimension by dimension is the rows of it that are taken, each a part of one dimension less |
| `Subarray.BoxIsShifted` | openmpi-2.0.1/ompi/datatype/ompi_datatype_create_subarray.c:91-102 | The nested type map moved by the first cell is the box in its place |
| `Subarray.DimensionAdded` | openmpi-2.0.1/ompi/datatype/ompi_datatype_create_subarray.c:80-88 | One more dimension keeps the nested box right, or goes wrong exactly in that family |
| `Subarray.ColumnFails` | openmpi-2.0.1/ompi/datatype/ompi_datatype_create_subarray.c:80-88 | The named family is not empty: three dimensions of sizes 1, 1 and 2 at extent -1, which alignment 4 spoils and alignment 1 does not |
| `Subarray.NegativeExtent` | openmpi-2.0.1/ompi/datatype/ompi_datatype_create_subarray.c:31-108 | The constructor called on it does not return the part |
| `Darray.BlockPart` | openmpi-2.0.1/ompi/datatype/ompi_datatype_create_darray.c:29-73 | A process gets exactly the indices whose block number is its own |
| `Darray.CyclicPart` | openmpi-2.0.1/ompi/datatype/ompi_datatype_create_darray.c:76-155 | A process gets exactly the indices whose block number is its own modulo the number of processes |
| `Darray.BlockCovers` | openmpi-2.0.1/ompi/datatype/ompi_datatype_create_darray.c:38-46 | BLOCK covers a dimension if and only if there are enough blocks |
| `Darray.DefaultIsLeast` | openmpi-2.0.1/ompi/datatype/ompi_datatype_create_darray.c:40-41 | The default block size is the least with which the blocks of all processes cover the dimension |
| `Darray.RankToCoords` | openmpi-2.0.1/ompi/datatype/ompi_datatype_create_darray.c:185-195 | The loop finds the position of the rank in the process grid |
| `Darray.RankToCoordsToRank` | openmpi-2.0.1/ompi/datatype/ompi_datatype_create_darray.c:185-195 | Every rank has a position in the grid, whose row-major number it is |
| `Darray.CoordsToRankToCoords` | openmpi-2.0.1/ompi/datatype/ompi_datatype_create_darray.c:185-195 | Every position of the grid belongs to the rank of that number |
| `DarrayType.CreateDarray` | openmpi-2.0.1/ompi/datatype/ompi_datatype_create_darray.c:157-283 | The type map is exactly the cells of the rank in canonical order (section 4.1.4 of MPI-3.1) if and only if the rank has no elements or every dimension repeats its rows at the right distance. For an extent that is a positive multiple of the alignment this says: every block-cyclic dimension of which the rank has two or more indices comes behind dimensions of which it has all indices, back to a cyclic one. The extent is that of the whole array if and only if the fastest dimension has size 1 or the old extent is 0 |
| `DarrayType.Dimensions` | openmpi-2.0.1/ompi/datatype/ompi_datatype_create_darray.c:207-245 | The loop over the dimensions nests the part of the rank, moved to the origin, or goes wrong exactly under that condition, and adds up its first cell |
| `DarrayType.AddDimension` | openmpi-2.0.1/ompi/datatype/ompi_datatype_create_darray.c:213-245 | One turn of the loop keeps that, and the extent with which the next turn begins |
| `DarrayType.FirstCell` | openmpi-2.0.1/ompi/datatype/ompi_datatype_create_darray.c:259-268 | The last loop finds the displacement of the rank's first cell, and an extent that lacks the size of the fastest dimension |
| `DarrayType.OneDimension` | openmpi-2.0.1/ompi/datatype/ompi_datatype_create_darray.c:216-238 | Whatever the distribution, the rows that the process owns are laid out right if and only if the distance fits; the map has the right length and begins with the old one in any case, and the extent is stated |
| `DarrayRows.BlockType` | openmpi-2.0.1/ompi/datatype/ompi_datatype_create_darray.c:56-66 | The run of a block dimension, contiguous or strided, is right if and only if there is at most one row, the distance is the old extent, or it is not -1; its extent |
| `DarrayRows.CyclicType` | openmpi-2.0.1/ompi/datatype/ompi_datatype_create_darray.c:102-149 | The runs of a cyclic dimension with the shorter last one are right if and only if there is at most one row, the old extent is the distance of the rows, or the runs are single rows at a distance other than -1; the extent of the whole dimension |
| `DarrayRows.RunsBuilt` | openmpi-2.0.1/ompi/datatype/ompi_datatype_create_darray.c:113-117 | Runs of two or more rows are right if and only if there is no run, nothing to copy, or the old extent is the distance of the rows |
| `DarrayRows.RestBuilt` | openmpi-2.0.1/ompi/datatype/ompi_datatype_create_darray.c:119-133 | With the shorter last run the map is right if and only if at most one row is taken or the old extent is the distance |
| `DarrayFit.TakenByPiece` | openmpi-2.0.1/ompi/datatype/ompi_datatype_create_darray.c:38-46 | A piece has as many rows as the process owns indices of the dimension |
| `DarrayFit.LaidOn` | openmpi-2.0.1/ompi/datatype/ompi_datatype_create_darray.c:207-245 | A dimension repairs a wrong map only if it leaves nothing of it; otherwise the result is right exactly when the map was right and the distance fits |
| `DarrayFit.ReachedNext` | openmpi-2.0.1/ompi/datatype/ompi_datatype_create_darray.c:207-245 | One more dimension keeps the exact account of when the nested map is the part of the rank |
| `DarrayWhole.ExtentOfRows` | openmpi-2.0.1/ompi/datatype/ompi_datatype_create_darray.c:134-147 | The extent so far is that of the rows so far if and only if none of the dimensions back to the last cyclic one is split |
| `DarrayWhole.WorksIfWhole` | openmpi-2.0.1/ompi/datatype/ompi_datatype_create_darray.c:207-245 | For extents that are positive multiples of the alignment the condition is about the distributions alone |
| `DarrayWhole.ZeroExtent` | openmpi-2.0.1/ompi/datatype/ompi_datatype_create_darray.c:207-245 | Extent 0 never goes wrong |
| `DarrayExamples.BlockThenCyclic` | openmpi-2.0.1/ompi/datatype/ompi_datatype_create_darray.c:116-117 | Behind a split block dimension CYCLIC(2) goes wrong: the constructor called on a 2 by 4 array does not return the part of rank 0 |
| `DarrayExamples.BlockThenCyclicMaps` | openmpi-2.0.1/ompi/datatype/ompi_datatype_create_darray.c:116-117 | Blocks of two lie next to each other instead of one row apart |
| `DarrayExamples.NoneThenCyclic` | openmpi-2.0.1/ompi/datatype/ompi_datatype_create_darray.c:116-117 | Behind a dimension that is not distributed CYCLIC(2) is right: the constructor called on a 3 by 4 array returns the part |
| `DarrayExamples.NegativeExtent` | openmpi-2.0.1/ompi/datatype/ompi_datatype_create_darray.c:29-73 | At extent -1 and alignment 4 the constructor goes wrong on a column of two |
| `DarrayMap.RowsOfPiece` | openmpi-2.0.1/ompi/datatype/ompi_datatype_create_darray.c:76-155 | The rows that a process owns in one dimension are the map that block() and cyclic() build, moved to its first index |
| `DarrayMap.DimensionAdded` | openmpi-2.0.1/ompi/datatype/ompi_datatype_create_darray.c:207-268 | One more dimension laid out right keeps the nested map the part of the rank up to the displacement of its first cell |
| `DarrayMap.DarrayPartition` | openmpi-2.0.1/ompi/datatype/ompi_datatype_create_darray.c:157-283 | Every cell of the array belongs to the part of exactly one rank, in both orders; section 4.1.4 of MPI-3.1 |
| `CellOrder.CellOfRank` | openmpi-2.0.1/ompi/datatype/ompi_datatype_create_darray.c:203-245 | For every index vector in the order of the arguments, the cell whose number is the row-major one in C order and the column-major one in Fortran order belongs to the part of a rank if and only if in every dimension the owner of the index is the rank's coordinate |
| `CellOrder.EveryCellOfArray` | openmpi-2.0.1/ompi/datatype/ompi_datatype_create_darray.c:203-245 | And every cell of the array is one that an index vector names |
| `CellOrder.RankIsRowMajor` | openmpi-2.0.1/ompi/datatype/ompi_datatype_create_darray.c:185-195 | The ranks number the process grid in row-major order, whatever the order of the array |
| `DarrayExamples.RowsInCOrder` | openmpi-2.0.1/ompi/datatype/ompi_datatype_create_darray.c:203-245 | A 2 by 3 array in C order whose rows are split between two processes: rank 0 has the cells 0, 1 and 2 |
| `SeqTracker.Tracker.CheckDuplicate` | openmpi-2.0.1/ompi/class/ompi_seq_tracker.c:58-83 | Answers membership from any position of the cursor, which moves only to the range found |
| `SeqTracker.Tracker.Insert` | openmpi-2.0.1/ompi/class/ompi_seq_tracker.c:91-180 | Adds exactly the number, keeps the ranges maximal and puts the cursor on it, if and only if no neighbour test wraps around at the cursor |
| `SeqTracker.Tracker.Copy` | openmpi-2.0.1/ompi/class/ompi_seq_tracker.c:183-198 | Appends the ranges in their order and takes over the cursor; an empty tracker becomes equal to the source |
| `SeqTracker.Tracker.AddRange` | openmpi-2.0.1/ompi/class/ompi_seq_tracker.c:101-110 | A number that touches no range gets its own |
| `SeqTracker.Tracker.ExtendUp` | openmpi-2.0.1/ompi/class/ompi_seq_tracker.c:117-129 | A number just above a range extends it or joins it to the next |
| `SeqTracker.Tracker.ExtendDown` | openmpi-2.0.1/ompi/class/ompi_seq_tracker.c:131-143 | A number just below a range extends it or joins it to the one before |
| `SeqTracker.MaximalIsUnique` | openmpi-2.0.1/ompi/class/ompi_seq_tracker.c:86-90 | The list of maximal ranges is determined by the set of numbers |
| `SeqTracker.ZeroAfterTop` | openmpi-2.0.1/ompi/class/ompi_seq_tracker.c:117-129 | Inserting 0 after all other numbers empties the list |
| `Attributes.Engine.CreateKeyval` | openmpi-2.0.1/ompi/attribute/attribute.c:529-573 | A new keyval has one reference and an unused key; a failure leaves the keyvals and the key bits as they were |
| `Attributes.Engine.CreateKey` | openmpi-2.0.1/ompi/attribute/attribute.c:222 | The lowest unset bit becomes the key, or all are set |
| `Attributes.Engine.FreeKeyval` | openmpi-2.0.1/ompi/attribute/attribute.c:626-655 | After its creator has freed it a keyval lives exactly as long as some object holds its key; a keyval that the caller may not use is refused |
| `Attributes.Engine.Release` | openmpi-2.0.1/ompi/attribute/attribute.c:455-467 | The last reference takes the keyval out of the hash and frees its key bit |
| `Attributes.Engine.SetValue` | openmpi-2.0.1/ompi/attribute/attribute.c:1100-1177 | The object holds the new value with the latest sequence number, and the keyval one more reference exactly when the key is new there; failures change nothing but the log of callbacks |
| `Attributes.Engine.DeleteImpl` | openmpi-2.0.1/ompi/attribute/attribute.c:943-1012 | Each error is reported in its case with nothing changed; success removes exactly that attribute and one reference |
| `Attributes.Engine.DeleteAll` | openmpi-2.0.1/ompi/attribute/attribute.c:1033-1090 | Delete callbacks run in the reverse order of last set; the failing attribute and all set before it stay, the others go |
| `Attributes.Engine.CopyAll` | openmpi-2.0.1/ompi/attribute/attribute.c:828-934 | Each attribute of the new object is what it was or the copy its callback made; on success every key has been asked and every flagged copy is there, and a failure is that of the callback or of storing the copy of one of the keys |
| `AttributesUse.SetNew` | openmpi-2.0.1/ompi/attribute/attribute.c:1119-1175 | A caller stores a value under a keyval just created, on an object of its kind, unless the keyval is predefined and the caller is not privileged; then the result is an error and nothing changes |
| `AttributesUse.SetAndDelete` | openmpi-2.0.1/ompi/attribute/attribute.c:957-1009 | Deleting it again removes it with one callback, with the same exception, and then the attribute stays |
| `AttributesUse.FreeNew` | openmpi-2.0.1/ompi/attribute/attribute.c:626-655 | Freeing a keyval that nothing uses ends it, so that nobody can set an attribute under its key any more, with the same exception |
| `AttributesUse.SetTwoAndDeleteAll` | openmpi-2.0.1/ompi/attribute/attribute.c:1033-1090 | Of two attributes the one last set is deleted first, also when the first one was set again, and none is left |
| `Attributes.AttachKeepsConsistent` | openmpi-2.0.1/ompi/attribute/attribute.c:1159-1175 | Storing an attribute keeps every reference count equal to one for the creator plus the number of holders |
| `Attributes.DetachKeepsConsistent` | openmpi-2.0.1/ompi/attribute/attribute.c:985-1009 | So does removing one, and a keyval with no reference left has no holder left |
| `Attributes.FreedKeepsConsistent` | openmpi-2.0.1/ompi/attribute/attribute.c:646-650 | So does freeing a keyval that its creator has not freed before |
| `Attributes.FreedTwiceBreaks` | openmpi-2.0.1/ompi/attribute/attribute.c:646-650 | Freeing it again while objects hold its key leaves a wrong count or an attribute without its keyval |
| `Puzzle.CheckSolvable` | main.c:616-659 | The counting loops decide solvability by inversions and the row of the blank |
| `Puzzle.MoveAndBack` | main.c:524-540 | A legal move leads to a board, and the opposite move back |
| `Puzzle.BlankSlides` | main.c:282-319 | The four moves by rows and columns: where the blank goes, which tile takes its place, and that they are legal exactly when the blank stays on the board |
| `Puzzle.MovesDiffer` | main.c:282-319 | Different moves from a board lead to different boards |
| `Puzzle.MoveKeepsSolvable` | main.c:524-565 | Every legal move keeps the solvable test |
| `Puzzle.PassThree` | main.c:624-648 | A tile that passes three others changes the parity of the inversions |
| `Puzzle.GoalIsSolvable` | main.c:682-689 | The goal board passes the test |
| `Puzzle.UnsolvableNeverReachesGoal` | main.c:84-87 | No run of moves from a board judged unsolvable reaches the goal |
| `PuzzleParity.ExchangeFlips` | main.c:616-659 | Exchanging any two tiles turns a board that passes the test into one that does not, and back: half of the boards are turned away |
| `PuzzleParity.FourteenFifteen` | main.c:616-659 | The goal with its last two tiles exchanged is turned away, and no moves lead from it to the goal |
| `PuzzleCosts.ZeroAtGoal` | main.c:585-614 | The heuristic value is zero at the goal and nowhere else |
| `PuzzleCosts.MoveDistance` | main.c:585-614 | Because the blank counts as well, a move changes the value by two or not at all |
| `PuzzleCosts.TwoNextToGoal` | main.c:585-614 | One move before the goal the value is two, more than the moves that are left |
| `PuzzleCosts.ChildrenRecord` | main.c:545-565 | A successor records its move, one move more than its parent, its own heuristic value and their sum |
| `PuzzleSearch.Expand` | main.c:282-319 | One successor for every legal move, in the order down, right, up, left |
| `PuzzleSearch.ChildrenAreNew` | main.c:282-319 | The successors are boards, pairwise different and different from their parent, each reached by its recorded move |
| `PuzzleSearch.Filter` | main.c:438-484 | The nodes whose board is in the list are taken out, the others stay in their order |
| `PuzzleMerge.MergeSmart` | main.c:346-407 | The same successors come to the front, sorted by their key, and those with the same key in the order they had |
| `PuzzleMerge.Merge` | main.c:410-433 | Depth first puts the successors in front and breadth first behind, in their order; the other two put them in front, sorted by heuristic value or by estimated length, those with the same key in the order they had; nothing else changes |
| `PuzzleSearch.StepKeepsInv` | main.c:100-126 | Expanding, filtering, merging and closing keep all boards distinct and every node but the start with an earlier expanded parent |
| `PuzzleCoverage.StepKeepsCovered` | main.c:100-120 | Whatever is one legal move away from a closed board is always on one of the lists |
| `PuzzleCoverage.ReachableIsClosed` | main.c:100-120 | With nothing left to expand, every board that any run of moves can reach is closed |
| `PuzzleSolve.FindParent` | main.c:212-260 | Undoing a move gives the board of a closed node, and the node with that board is found, even when the node that is changed is itself the last closed one |
| `PuzzleSolve.FindPath` | main.c:263-280 | Replaying the stored moves from where the walk back stopped gives the board it began with; with fewer than MAX_PATH moves it stopped at the start; a successor of the start has the one move that made it |
| `PuzzleSolve.Search.Step` | main.c:100-120 | One turn of the main loop keeps the invariant, closes the first open node, and all new successors are on the open list |
| `PuzzleSolve.Search.Solve` | main.c:74-136 | The search ends; unsolvable boards are turned away; a goal is reported if and only if the first new successor of some turn is the goal, with the first such turn, and for every start one move away from the goal with that one move; the moves of a reported goal lead there if there are fewer than MAX_PATH; it gives up only when every reachable board has been expanded, and then prints moves to the board expanded last |
| `PuzzleSolve.Search.Turns` | main.c:100-126 | Turn by turn: the loop stops with the first turn whose first new successor is the goal, and otherwise when nothing is left to expand |
| `PuzzleRun.OneMoveAway` | main.c:282-319 | A goal one legal move away is the first successor of the start, whichever move it is, so the test sees it |
| `PuzzleSolve.ClosedIsBounded` | main.c:100-126 | The closed list cannot be longer than the number of boards |
| `RadixSort.Pass` | hw6/hw6.c:165-186 | A counting pass groups the list by one digit and keeps the order within each group |
| `RadixSort.PassSorts` | hw6/hw6.c:164-186 | A pass turns a list sorted by the low digits into one sorted by one digit more, stable with respect to the input |
| `RadixSort.IntRadixSort` | hw6/hw6.c:158-188 | Four passes give the stable permutation sorted by unsigned value |
| `RadixSort.SortedAsInts` | hw6/hw6.c:158-188 | That is the order of the integers if and only if their signs do not differ |
| `RadixSort.StableIsPermutation` | hw6/hw6.c:158-188 | The result has the same elements as the input |
| `RadixSort.CountDigits` | hw6/hw6.c:170-173 | The counters hold how often each digit occurs |
| `RadixSort.Offsets` | hw6/hw6.c:175-179 | The map holds where each group begins |
| `RadixSort.MoveAll` | hw6/hw6.c:181-184 | Moving every element to where the map points gives the grouped list |
| `RadixSort.KeyStep` | hw6/hw6.c:172 | Shift and mask give the next digit of the unsigned value, for negative numbers too |
| `Connectivity.Program` | openmpi-2.0.1/examples/connectivity_c.c:44-59 | The nested loops issue, for each peer in increasing order, a receive and a send with a lower one, a send and a receive with a higher one |
| `Connectivity.ByPeer` | openmpi-2.0.1/examples/connectivity_c.c:44-59 | Operations 2p and 2p+1 of a rank are the receive from and the send to a lower peer p, operations 2p-2 and 2p-1 the send to and the receive from a higher one |
| `Connectivity.NoDeadlock` | openmpi-2.0.1/examples/connectivity_c.c:44-59 | With synchronous sends and any interleaving, some message can be delivered until every rank has ended |
| `Connectivity.LeastIsReady` | openmpi-2.0.1/examples/connectivity_c.c:44-59 | The lexicographically least unfinished pair is ready at both ends |
| `Connectivity.EveryPairOnce` | openmpi-2.0.1/examples/connectivity_c.c:44-59 | When all ranks have ended every ordered pair has exchanged exactly one message |
| `Connectivity.RunsAreFinite` | openmpi-2.0.1/examples/connectivity_c.c:44-59 | No run delivers more messages than there are ordered pairs |
| `Connectivity.StepKeepsInv` | openmpi-2.0.1/examples/connectivity_c.c:44-59 | Both ends of a pair have always made the same progress, and the log says which |
| `CommEngine.Engine.ScheduleAppend` | openmpi-2.0.1/ompi/communicator/comm_request.c:69-95 | Appends the item with all its subrequests behind the others of a request that has not ended, and changes no other schedule; more than two are refused with nothing changed |
| `CommEngine.Engine.StartRequest` | openmpi-2.0.1/ompi/communicator/comm_request.c:158-173 | The request joins the active list behind the others and progress is registered |
| `CommEngine.Engine.Test` | openmpi-2.0.1/ompi/communicator/comm_request.c:118-127 | The test from the last subrequest to the first, stopping at one that is not complete |
| `CommEngine.Engine.Visit` | openmpi-2.0.1/ompi/communicator/comm_request.c:110-142 | One visit: the first item fires and its callback uses the interface, or waits; a request with nothing left completes with its status |
| `CommEngine.Engine.Progress` | openmpi-2.0.1/ompi/communicator/comm_request.c:97-154 | A turn visits every active request exactly once in order, and requests that callbacks start at most once; each visited request fires its first item exactly if its subrequests are complete and ends exactly when nothing is left; progress stays registered exactly while requests are active |
| `CommTurn.TurnVisits` | openmpi-2.0.1/ompi/communicator/comm_request.c:104-143 | A turn visits the requests on the list in their order, then some that joined it, and none twice, whatever the callbacks do |
| `CommTurn.TurnServes` | openmpi-2.0.1/ompi/communicator/comm_request.c:104-143 | A visited request fires its first item exactly when its subrequests are complete and is over exactly when nothing is left; one that is not visited only gets further items |
| `CommTurn.TurnKeepsOk` | openmpi-2.0.1/ompi/communicator/comm_request.c:97-154 | A turn keeps the order of every schedule and one completion for each request, with callbacks that get, start and extend any requests |
| `CommTurn.WholeTurn` | openmpi-2.0.1/ompi/communicator/comm_request.c:97-154 | These together, for a turn from the head of the list |
| `CommStatus.VisitStatus` | openmpi-2.0.1/ompi/communicator/comm_request.c:128-146 | A visit that ends a request leaves success as its status, or the internal error if the callback that ran in it failed; the status of no other request changes |
| `CommStatus.TurnStatus` | openmpi-2.0.1/ompi/communicator/comm_request.c:104-150 | So does a turn: the status is that of the callback of the item that fired last, if the request ended in this turn, and stays what it was otherwise |
| `CommTurn.FiresInOrder` | openmpi-2.0.1/ompi/communicator/comm_request.c:69-95 | What has fired is what was appended first, each item after its subrequests, and the rest still waits in order |
| `CommTurn.OneChanged` | openmpi-2.0.1/ompi/communicator/comm_request.c:97-154 | Whatever happens to one request, every other one stays consistent and is completed as often as before |

## Left out

- CidTheorems.NoDeadlock: assumes that no call has run out of ids (`NobodyExhausted`), which `CidCapacity.EnoughIds` shows for every large enough limit, and that a process can enter each of its calls at any time; the out-of-ids branches are not symmetric between processes, and what they do is stated by `CidRounds.NextCid` instead.
- CidProtocol: failed collectives, the failure to grow a table, and the pmix and inter-communicator forms of the allreduce are not steps of the protocol; the lock around the registration list makes each list operation one step.
- CidCapacity.EnoughIds: the limit it asks for is sufficient and not claimed to be the least one.
- CidLeastId.AloneCommitsLeast: is about a call that runs alone; with several calls running at once an id may be taken by another call in between, and `CidLeastId.CommittedIdWasFree` is what remains true.
- SlotTable.PointerArray.TestAndSetItem: excludes the one boundary index (`GrowsShort`) for which growing leaves the table one slot short, and running out of memory.
- TreeAllreduce.AllreduceDelivers: a failing send or receive is not modelled; the operation is any associative and commutative function on whole buffers.
- BridgeProtocol.BridgeDelivers: the reduction and the broadcast inside a group are abstract, allocation and communication do not fail.
- Rebuild.Unpack: covers trees whose DARRAY nodes have as many processes as dimensions (`Square`); `Rebuild.DarraySurvives` shows that the arguments of others are not restored, and whether the constructor then accepts what it reads is not modelled. Alignment padding and byte swapping between machines are not modelled, and a rebuilt type is compared by its stored arguments.
- DescriptionSize.GetPackDescription: the race between two threads that pack the same type at once, and the wait for it, are not modelled.
- TypeMap.Datatype.Add: the compressed descriptor, the true bounds, C integer overflow and reallocation are not modelled; only the type map, the bounds with their user flags and the alignment are.
- BlockBounds.AddBlock: for copies that are not aligned with each other, types with negative extents, or alignments of which none divides the other, says of the upper bound that it is at least the greatest of all and a multiple of the alignment away from the lower one, but not how far the padding adds up.
- Indexed.CreateHindexedBlock: its bounds are not stated, since a false merge can spoil them together with the type map.
- Indexed.CreateStruct: bounds are stated for components that are not MPI_LB or MPI_UB markers and have the same user flags; for others `TypeMap.Datatype.Add` says what each addition does. The first loop of the C function, which only estimates the size of the descriptor, is not repeated.
- Subarray.CreateSubarray: for zero dimensions it states the empty datatype the code returns.
- DarrayType.CreateDarray: the condition on the type map is stated for bounds and extents that fit a long (`InRange`), since C integer overflow is not modelled. The products of array sizes that the code forms anew for every dimension are carried along.
- SeqTracker.Tracker.Copy: copying a tracker onto itself does not end in C and is excluded.
- Attributes.Engine.DeleteAll: callbacks return arbitrary results but do not call the engine again; qsort is modelled by insertion, and the sequence counter does not overflow.
- Attributes.Engine.FreeKeyval: is for a keyval that its creator has not freed before; `Attributes.FreedTwiceBreaks` shows that the counts do not survive otherwise.
- Attributes.Engine.CopyAll: the new object has a table already, as its callers see to; translation of values between C and Fortran is left out.
- PuzzleSolve.Search.Solve: the goal test looks only at the first new successor of a turn, so the search can expand the goal without noticing; that a goal more than one move away is found, and a shortest path to it, are not claimed. Start boards are permutations.
- RadixSort.IntRadixSort: covers the passes up to bit 31; the C loop goes on to bit 63, where shifting an int is undefined.
- Connectivity.NoDeadlock: every send waits for its receive; the barrier and the printing are left out.
- CommEngine.Engine.Progress: cancelling and the guard against re-entry are left out. A turn is stated for finitely many callbacks that use the interface; callbacks that keep starting requests can make a turn endless. Operations on a request for which they are not meant, such as starting an active one, change nothing.
- hw7/main.c, float_radix_sort and merge_sort of hw6, comm.c, dpm.c, the debugger interface, hw4, hw5, hw8, hw9, hw10, map2.c and strtok.c: input and output, floating point, runtime plumbing, or easier members of the same kind.
