# epx: a verified model of the Egalitarian Paxos core

epx is a replicated key-value store. Replicas agree, instance by instance, on a command's
sequence number and dependencies, and an execution engine runs the committed instances in an
order that every replica reproduces. This project models that core in Dafny and proves what it
is for:

- **Execution** (`Graph`, `TarjanState`, `SeqOrder`, `Engine`, `Executor`). The engine keeps the
  committed instances that wait, rebuilds the graph of their dependencies on every arrival, finds
  its strongly connected components and executes those whose outside dependencies are executed.
  `Executors` is the code: node objects with `index`, `lowLink`, `onStack` and `next` fields, a
  linked stack and the fixed table of components. `TarjanStates` proves the search on values for
  every graph. `Engines` proves what whole runs guarantee: two replicas that receive the same
  committed instances in any orders execute dependent ones in the same order, each once, in whole
  components of the full committed graph.
- **Commit** (`Instance`, `Protocol`, `CommitRun`, `Decision`, `DepMerge`, `FastPath`, `Acceptance`,
  `Quorum`, `Ballots`, `Missing`, `Pair`, `Witness`). The message handlers on mutable instances, each
  equal to a function of the instance and the message; runs of these functions over any number of
  replicas and a network that loses, repeats and reorders; exactly when the leader commits at once,
  when its copy is the settled one and when a commit rests on a majority; whose walk over an index
  the settled value reports; what an acceptor reports and refuses; runs of two instances over the
  same replicas, and exactly when one of them depends on the other; and runs that reach the states
  in which the design is not met.
- **Channel** (`Channel`). Any number of senders and receivers, interleaved between every two of
  the operations that other threads cannot interrupt: semaphores, lock, slot, 32-bit counters.
- **Structures** (`Option`, `Ids`, `Deps`, `Command`, `Index`, `Replica`, `Merge`). The sorted dependency
  array, spans and interference, the walk over the index that gives a command its sequence number
  and dependencies, the pruning of the index, the numbers a replica proposes, and the in-place
  merge of spans.

A method that changes objects is proved against a function of the old values; the lemmas are about
these functions and their runs. Run `dafny verify dfyconfig.toml` to check everything.

## Where the code differs from its intent

The model follows the code. At these points the code does not do what its comments or its design
say; each has a counterexample or an exact condition in the table below.

- `src/instance.c:141-142` says a new dependency takes a free slot or the oldest entry's. An insert
  that does not append drops the last entry even when slots are free: `DepArrays.InsertKeepsAll`.
- The leader merges a reply into its own dependencies but forwards the deciding answer's
  (`src/epaxos.c:139-181`). Its own copy is the settled one exactly under the conditions of
  `Decisions.DecisionSeq` and `Decisions.DecisionDeps`; `Witnesses.LeaderSeqBehind` is a run in which
  it is not.
- What is settled is the report of one replica's walk over its index. If that is not the leader's,
  what it did not record is lost, even if the leader's proposal named it
  (`Decisions.ProposalSettled`). Two interfering commands settle without a dependency either way
  exactly if neither of the two settling walks recorded the other (`Pairs.NeitherNames`). That
  happens with three replicas already (`Witnesses.NeitherDepends`); if one replica made both walks,
  `Pairs.LaterNames` gives the condition under which the later instance depends on the earlier.
- ACCEPT and COMMIT bring no command into an instance (`src/epaxos.c:186-204`, `src/epaxos.c:447-453`), so
  that a replica that hears of it by one of these first holds it without a command
  (`MissingCommands.CommandMissing`, reached by the run `Witnesses.CommandLost`). The next walk that
  gets down to it while it is unexecuted reads the missing command (`src/index.c:84`,
  `src/command.c:92`): `MissingCommands.MissingBreaks`.
- A replica new to an instance answers PRE_ACCEPT_OK only if its own index holds nothing to depend
  on; the leader's dependencies are not compared (`src/epaxos.c:109-136`): `Indexes.FirstOkExact`.
- An ACCEPT_REPLY delivered twice counts twice, so that of five replicas one acceptance commits:
  `Witnesses.RepeatedAnswerCommits`. The replicas heard are as many as they should be exactly if
  none of them was counted twice, which the leader could check: `Acceptances.HeardExact`.
- An instance pruned from the index is not found again, so a dependent that arrives later waits on
  unexecuted, and a late message registers the pruned instance afresh:
  `Engines.DroppedDependencyStalls`, `Replicas.FoundAfterClear`. One that is handed over again
  after its execution is executed again if the index still holds all that it depends on, and else
  waits on: `Engines.HandedAgain`.
- The table of components has `MAX_DEPS` rows of `MAX_DEPS` cells (`src/execute.c:13-15`,
  `src/execute.c:70`), but any number of instances can wait, and the search does not check. It stays
  within the table exactly if there are no more components than rows and none is longer than a row
  (`Engines.RoomExact`); nine waiting instances that do not depend on each other have no room
  (`Engines.RoomAlone`).
- The buffer for the overlapping spans of two commands holds `TX_SIZE` of them, but there can be as
  many as the product of the commands' sizes: `Commands.BufferExact`, `Commands.BufferOverrun`.
- The size of a channel is read without its lock: `Channels.SizeTorn` says what is then reported.
- An acceptor refuses a PRE_ACCEPT or an ACCEPT under its own, larger ballot (`src/epaxos.c:99-107`,
  `src/epaxos.c:188-194`), and the leader takes answers of its own ballot only (`src/epaxos.c:154`,
  `src/epaxos.c:207`). A leader that keeps the ballot it asked with therefore never counts a refusal:
  `Ballots.RefusalIgnored`.
- A PREPARE_REPLY carries the ballot just promised and not the one at which the value was taken
  (`src/epaxos.c:231-237`): `Ballots.PrepareReports`.
- A larger ballot falls back to round zero once the four bits of the round are used up:
  `Instances.LargerBallotExact`. The new sequence number wraps at 2^64: `Indexes.Phase1Follows`.

## Assumptions

- Execution: sequence number and dependencies of an instance are fixed when it is handed to the
  engine; an instance is handed over again, if at all, only while it waits; ids satisfy
  `replica_id < 2^16` and `instance_id < 2^48` (then table keys are unique, and beyond that they are
  not); the components of the waiting instances fit into the component table (`MAX_DEPS` rows in the
  source, a parameter here). Which executed instances the index still holds may change between passes in any way.
- Commit runs: the client's message has an initial ballot, a command and no refusal; no timeout
  fires. One instance is followed; whatever else the replicas hold enters through the walk's answer,
  which is arbitrary in every event (in `Decisions.DecisionDeps` and
  in `FastPaths`: an ordered array, as `Indexes.WalkBeyond` shows every walk to report from an ordered
  one).
- Runs of two instances (`Pair`): every walk is one over rows that show the other instance as the
  walking replica holds it then, pruned at most once it is executed; all other entries and the
  answers of the range tree are arbitrary. An instance is led by the replica that its id names.
- Walks: the answers of the range tree are arbitrary. A walk has no result where the code reads a
  missing command; `Indexes.WalkBreaks` says exactly when, and what is stated about results holds for
  every walk that has one. The comparison of two commands is taken to fit its buffer.
- Keys: strings of bytes without the zero that ends them.

## Model

| member | source | states |
|---|---|---|
| `Engines.ReplicasAgree` | src/execute.c:98-240 | two runs over one committed graph, arrivals in any two orders, index contents arbitrary: any two instances executed in both, one reaching the other, stand in the same log order in both, unless they share a cycle and a sequence number |
| `Engines.OrderFixed` | src/execute.c:166-219 | that order is given by a rule on the committed graph alone: a dependency first; on a cycle the smaller sequence number first |
| `Engines.ReplicasConverge` | src/execute.c:213-240 | with an index that keeps everything, two replicas that received the same instances in any orders executed the same ones and wait with the same ones |
| `Engines.ExecutedExactly` | src/execute.c:213-240 | with such an index an instance is executed if and only if it and everything it reaches has arrived |
| `Engines.RunSafe` | src/execute.c:151-240 | after every arrival of every run: each received instance waits or is executed, never both; executed ones stand once, in whole components ascending in sequence number; every prefix of components is closed under dependencies |
| `Engines.LogOnlyGrows` | src/execute.c:180-240 | the log of an earlier moment is a prefix of every later one |
| `Engines.WholeComponent` | src/execute.c:180-199 | a component found among the waiting instances whose outside dependencies are executed is a whole strongly connected component of the full committed graph |
| `Engines.PassKeeps` | src/execute.c:213-219 | the invariant survives every component of a pass, and components not yet looked at still wait |
| `Engines.PassExact` | src/execute.c:180-219 | a pass executes a waiting instance if and only if nothing it reaches depends, outside its component, on an instance that is not received or not indexed |
| `Engines.PassComplete` | src/execute.c:180-219 | if the index holds everything received, each instance left over reaches one that was never received |
| `Engines.StuckIdle` | src/execute.c:213-219 | then a further pass with nothing added executes nothing |
| `Engines.DependencyFirst` | src/execute.c:180-211 | whatever an executed instance reaches outside its cycle is executed, and earlier in the log |
| `Engines.SmallerSeqFirst` | src/execute.c:166-178 | on a cycle of the committed graph the smaller sequence number comes first in the log |
| `Engines.DroppedDependencyStalls` | src/execute.c:195-199 | a waiting instance whose executed dependency is no longer indexed stays unexecuted through the pass |
| `Engines.HandedTwice` | src/execute.c:151-240 | with nothing else waiting, an executed instance handed over again enters the log a second time, alone, if and only if its dependencies are found executed |
| `Engines.HandedAgain` | src/execute.c:151-240 | whatever else waits, it is executed again, in a component of its own, if and only if the index still holds all that it depends on, and else waits on |
| `Engines.SccSizes` | src/execute.c:98-129 | no graph has more components, or a longer one, than vertices |
| `Engines.RoomExact` | src/execute.c:70-127 | in whatever order the components are found, they fit into k rows of k cells if and only if no component is longer than k and no more than k vertices lie in pairwise different ones |
| `Engines.RoomAlone` | src/execute.c:70-127 | instances that do not depend on each other fit if and only if there are at most k of them |
| `TarjanStates.SearchDone` | src/execute.c:131-149 | when every vertex is visited the stack is empty and the rows are exactly the strongly connected components, each vertex once, an edge never leading to a later row |
| `TarjanStates.EmitStep` | src/execute.c:117-127 | writing the stack down to a root whose low_link equals its index keeps the search invariant and completes the visit |
| `TarjanStates.StayStep` | src/execute.c:98-129 | a vertex with a smaller low_link stays on the stack and its visit is complete |
| `TarjanStates.ChildStep` | src/execute.c:106-111 | after the visit of an unvisited dependency the minimum of the two low_links restores the invariant |
| `TarjanStates.CrossStep` | src/execute.c:112-114 | a dependency on the stack lowers low_link to its index, and only that is needed |
| `TarjanStates.DoneStep` | src/execute.c:106-115 | a dependency in a written component needs no update |
| `TarjanStates.EnterExplores` | src/execute.c:98-104 | numbering and pushing an unvisited vertex begins its exploration |
| `TarjanStates.EmitEdge` | src/execute.c:117-127 | no edge leaves the new component except into written ones |
| `TarjanStates.EmitStrong` | src/execute.c:117-127 | any two members of the new component reach each other |
| `TarjanStates.CompDescends` | src/execute.c:106-127 | a path from a written vertex stays in its own and earlier components |
| `TarjanStates.Capacity` | src/execute.c:117-127 | rows and stack entries together never exceed the number of vertices |
| `TarjanStates.RowsFit` | src/execute.c:117-127 | where there is room for the components of the graph, there is for those written so far at every point of the search |
| `Executors.Executor.Push` | src/execute.c:94-96 | the node becomes the head of the linked stack |
| `Executors.Executor.Pop` | src/execute.c:88-92 | the head leaves the linked stack |
| `Executors.Executor.Begin` | src/execute.c:98-103 | the node is numbered, flagged and pushed |
| `Executors.Executor.WriteScc` | src/execute.c:117-127 | pops down to the root into the next row, in bounds, clearing the flags |
| `Executors.Executor.Follow` | src/execute.c:106-115 | one dependency link is followed; recursion only into fewer unvisited vertices |
| `Executors.Executor.Visit` | src/execute.c:98-129 | for every wired graph: terminates, and leaves objects that hold a state in which the visit of the node is complete |
| `Executors.Executor.WireNode` | src/execute.c:135-141 | fields reset; each filled dependency slot, whatever its flag, points at the waiting node under the key of its id, and at nothing if there is none or the slot is empty |
| `Executors.Executor.WireAll` | src/execute.c:132-142 | the whole waiting graph is wired and in the initial search state |
| `Executors.Executor.StrongConnect` | src/execute.c:131-149 | the table holds the strongly connected components of the waiting instances, dependencies first; the stack is empty |
| `Executors.Executor.ShiftCells` | src/execute.c:171-175 | larger entries before the position move one cell right |
| `Executors.Executor.SortScc` | src/execute.c:166-178 | the row becomes the stable sort of itself by sequence number, in place |
| `Executors.Executor.Contains` | src/execute.c:26-31 | true exactly for the members of the row |
| `Executors.Executor.SlotReady` | src/execute.c:188-199 | true exactly when the slot is empty, or the key of its id is in the component, or the index holds the id as executed |
| `Executors.Executor.IsReady` | src/execute.c:183-201 | true exactly when this holds of every slot of every member, which is when every dependency is in the component or found executed |
| `Executors.DepKeysExact` | src/execute.c:135-141 | a vertex is a dependency of an array if and only if it is the key of a filled slot |
| `Executors.Executor.SlotEdges` | src/execute.c:135-199 | a committed instance depends on a vertex if and only if that is the key of one of its filled slots, whatever the flag |
| `Executors.Executor.SlotFirst` | src/execute.c:180-219 | whatever fills a slot of an executed instance is executed, and earlier in the log unless the two are on one cycle |
| `Executors.Executor.RunSlotFirst` | src/execute.c:213-240 | so at every point of every run |
| `Executors.Executor.IdleSlotFirst` | src/execute.c:213-240 | and of the engine object after every turn of its loop |
| `Executors.Executor.MarkExecuted` | src/execute.c:203-210 | exactly the members leave the table and become EXECUTED |
| `Executors.Executor.ExecuteScc` | src/execute.c:180-211 | the waiting set and the log change as one component of a pass, whose other rows are untouched |
| `Executors.Executor.Execute` | src/execute.c:213-219 | from an idle engine, if the components fit into the table: one complete pass, and idle again |
| `Executors.Executor.Reset` | src/execute.c:75-81 | the table, the stack and the counters are cleared |
| `Executors.Executor.constructor` | src/execute.c:83-86 | an engine that holds nothing and has executed nothing |
| `Executors.Executor.AddNode` | src/execute.c:151-163 | the instance is in the table under its key; the answer says whether the key was new; a copy replaces the waiting one |
| `Executors.Executor.Arrive` | src/execute.c:226-236 | one turn of the engine loop is one arrival of a run |
| `SeqOrders.SortCorrect` | src/execute.c:166-178 | a permutation, ascending, that keeps the order of equal sequence numbers |
| `SeqOrders.ShiftEnd` | src/execute.c:166-178 | with the larger entries moved, storing into the free cell is sorted insertion |
| `Ids.DhKeyInjective` | src/replica.c:32-34 | ids in range share a table key only if they are equal |
| `Ids.DhKeyCollides` | src/replica.c:32-34 | out of range two different ids share one |
| `Ids.DhKeyValue` | src/replica.c:32-34 | in range shift and or are the number times 2^16 plus the replica |
| `CommitRuns.Agreement` | src/epaxos.c:12-222 | in every run with loss, repetition and reordering: all ACCEPT, ACCEPT_REPLY and COMMIT messages carry one sequence number and one set of dependencies, and every replica but the leader that is ACCEPTED or later holds them |
| `CommitRuns.ReplicasSettleAlike` | src/epaxos.c:96-222 | two replicas other than the leader never settle different values, and no event starts recovery |
| `CommitRuns.StepKeeps` | src/epaxos.c:74-222 | every event keeps the single-value invariant, the value being fixed by the leader's decision |
| `CommitRuns.LeaderAgreesOnSeq` | src/epaxos.c:153-183 | with at most three replicas the leader's own sequence number is the settled one |
| `CommitRuns.OneCommand` | src/epaxos.c:74-222 | in every run every message carries the proposed command under the key of the instance, and no copy holds another command |
| `CommitRuns.AgreesOnce` | src/epaxos.c:96-137 | in every run no replica sends PRE_ACCEPT_OK twice, however often the question reaches it |
| `CommitRuns.DecidingSeq` | src/epaxos.c:153-183 | after a deciding reply the leader's number equals the forwarded one if and only if the reply's is at least what the leader had |
| `CommitRuns.DecidingOkSeq` | src/epaxos.c:139-151 | after a deciding PRE_ACCEPT_OK number and dependencies equal the forwarded ones if and only if they did before |
| `CommitRuns.DecidingDeps` | src/epaxos.c:168-181 | after a deciding reply the leader's dependencies are the forwarded ones if and only if every entry it had is pushed out by new entries above it, or is in the reply with a flag at least as high and in the same place among equal numbers |
| `DepMerges.MergeExact` | src/epaxos.c:170-175 | for any two ordered arrays: offering the one's entries to the other yields the one if and only if that condition holds of every filled entry |
| `DepMerges.GivesYields` | src/instance.c:143-174 | the condition, which looks at the two arrays only, is what offering entry by entry comes to |
| `Decisions.DecisionSeq` | src/epaxos.c:139-183 | in every run, for every number of replicas: when the leader decides, its number is the settled one if and only if the deciding answer's number is at least its own |
| `Decisions.DecisionDeps` | src/epaxos.c:139-183 | and its dependencies are the settled ones if and only if, after an OK, they were the message's already, and after a reply, the condition on the two arrays holds |
| `Decisions.ProposalSettled` | src/epaxos.c:74-183 | in every run what a decision settles is the report of one walk made before: the proposing leader's, and then the very value proposed, if an OK decides; else the one the deciding replica made when it took the PRE_ACCEPT, and then a proposed dependency is lost if and only if that walk did not record it |
| `Decisions.SettledWalk` | src/epaxos.c:74-222 | every ACCEPT, ACCEPT_REPLY and COMMIT of a run was preceded by a decision and, before that, by the walk whose report it carries |
| `FastPaths.DecidesExactly` | src/epaxos.c:139-183 | in every run the leader decides exactly with an answer that brings its count, modulo 256, to half of the replicas; as long as n/2 fits the byte, with answer number n/2 |
| `FastPaths.FastPathExact` | src/epaxos.c:139-183 | in every run the decision is COMMIT and not ACCEPT if and only if no filled slot of the leader's array is then uncommitted, and a time of equal answers began, with a walk of the leader's that recorded nothing or with a reply that raised its number, since when (that reply included) no reply named what the leader did not have |
| `FastPaths.DecideTaken` | src/epaxos.c:145-181 | at any ballot: below half of the replicas nothing; else COMMIT if and only if equal is 1, the round is the first and no filled slot is uncommitted |
| `FastPaths.MergeCount` | src/epaxos.c:172-174 | merging a reply counts no change if and only if the array absorbs all its entries: each is empty, or recorded with a flag at least as high, or finds no place |
| `MissingCommands.CommandMissing` | src/epaxos.c:96-204 | in every run a replica that has heard of the instance lacks its command if and only if the first message it handled about it was an ACCEPT or a COMMIT |
| `MissingCommands.MissingBreaks` | src/index.c:84 | a walk for anything that gets down to such an instance, unexecuted, has no result |
| `Witnesses.CommandLost` | src/epaxos.c:447-453 | a run with three replicas in which one has committed the instance without its command |
| `Witnesses.RepeatedAnswerCommits` | src/epaxos.c:206-222 | a run with five replicas in which an answer that is counted makes the leader commit while exactly one other replica has accepted |
| `Witnesses.LeaderSeqBehind` | src/epaxos.c:139-183 | a run with five replicas in which 3 is settled and the leader holds 5 |
| `Witnesses.ReplySettles` | src/epaxos.c:109-183 | for any walk report of the leader and any of another replica that makes it object (a larger number, a changed or an uncommitted dependency), a run with three replicas that proposes the one's dependencies and settles the other's |
| `Witnesses.NeitherDepends` | src/epaxos.c:74-183 | a run of two instances, every walk over rows that show the other one as it is held, that settles two interfering commands without a dependency either way, though the one's proposal named the other |
| `Pairs.OwnRun` | src/epaxos.c:12-222 | in a run of two instances each goes through a run of its own, so that all that is stated of one instance holds of both |
| `Pairs.SettledByWalk` | src/epaxos.c:74-222 | in every run of two instances whatever is settled is the report of one walk: the leader's, or that of the replica whose answer decided |
| `Pairs.WalkRecords` | src/index.c:59-114 | the walk's report names the other instance if and only if that was in the array it began with, or was offered and found a place, and no later offer pushed it out |
| `Pairs.NeitherNames` | src/epaxos.c:74-222 | two settled instances do not depend on each other either way if and only if neither settling walk recorded the other so |
| `Pairs.OtherOffered` | src/index.c:59-114 | a walk never offers an instance its replica has not heard of; one heard of and not executed stands in the index and is offered if and only if the walk gets down to it, its command is there and interferes, and the range tree lets it through |
| `Pairs.HeardStays` | src/epaxos.c:74-222 | a replica that walked for an instance has heard of it at every later point |
| `Pairs.LaterNames` | src/epaxos.c:74-222 | if one replica made both settling walks, the later one finds the earlier instance in its index unless that is executed; and if the walk gets down to it, it interferes, is let through and is not pushed out, the later instance depends on the earlier |
| `Pairs.OtherFlag` | src/instance.c:176-184 | what a walk offers of the other instance is flagged committed if and only if the replica holds it COMMITTED then |
| `Pairs.OtherFlagged` | src/index.c:59-114 | in every run of two instances a walk reports the other one as committed only if the replica holds it COMMITTED or EXECUTED; if the walk offers it, and it does unless the array it began with names it, then if and only if it is COMMITTED |
| `Acceptances.DifferentMajority` | src/epaxos.c:186-222 | however messages are lost, repeated and reordered, for every number of replicas: if no replica was counted twice, a commit by acceptance finds at least n/2 other replicas, with the leader a majority, holding the committed value as ACCEPTED or later |
| `Acceptances.HeardExact` | src/epaxos.c:206-222 | as long as n/2 fits the byte: the different replicas that such a commit has heard number n/2 if and only if none was counted twice, and are fewer otherwise |
| `Acceptances.TallyStep` | src/epaxos.c:186-222 | every event keeps: each acceptance sent or counted is of a replica that accepted, and the leader's byte is the number counted modulo 256 |
| `Quorums.CommitHasMajority` | src/epaxos.c:186-222 | hence when each packet is received at most once every commit by acceptance rests on a majority |
| `Quorums.MoveKeeps` | src/epaxos.c:186-222 | every move keeps: each replica has at most one chance to be counted, and the leader's byte count is at most the number of replicas counted, all of which accepted |
| `Ballots.TakeBallot` | src/epaxos.c:96-373 | no acceptor message lowers the ballot, and one that changes the instance has at least its ballot and leaves its own there |
| `Ballots.BallotNeverDrops` | src/epaxos.c:96-373 | over any sequence of PRE_ACCEPT, ACCEPT, PREPARE and TRY_PRE_ACCEPT the stored ballot never drops |
| `Ballots.PromiseKept` | src/epaxos.c:224-240 | after a non-refusing answer to PREPARE at ballot b, no such message below b changes anything |
| `Ballots.TakeValue` | src/epaxos.c:96-373 | which messages give an acceptor a value, by state, ballot and conflict, and which value; any other leaves all but the ballot |
| `Ballots.PrepareReports` | src/epaxos.c:224-240 | a PREPARE is refused exactly below the stored ballot; else the reply reports command, number, dependencies and state as they are, under the ballot just promised |
| `Ballots.PromiseReports` | src/epaxos.c:96-373 | after any messages a promise reports the value that the last message to give one gave |
| `Ballots.Refuses` | src/epaxos.c:96-373 | below the stored ballot nothing changes, and the refusal carries the stored ballot, for a PRE_ACCEPT also the stored command, number and dependencies |
| `Ballots.AnswersGiven` | src/epaxos.c:186-373 | what is answered to a value taken, and to one that conflicts |
| `Ballots.RefusalIgnored` | src/epaxos.c:96-222 | for every acceptor and question: the refusal is ignored by a leader that keeps the ballot it asked with |
| `Ballots.AnswersIgnored` | src/epaxos.c:139-222 | a leader in another state, or of another ballot than the answer (a plain agreement: of a later round), is left as it is |
| `Ballots.NacksCounted` | src/epaxos.c:155-216 | refusals of its own ballot are counted modulo 256 and change nothing else but the largest ballot; recovery is called for exactly from half of the replicas on |
| `Protocol.Phase1` | src/epaxos.c:74-94 | refines the step of the protocol runs: fresh sequence number and dependencies, PRE_ACCEPTED at the client's ballot, all of it in the PRE_ACCEPT sent |
| `Protocol.HandlePreAccept` | src/epaxos.c:96-137 | refines the step the runs, the ballot theorems and the walk theorems use (the pruning is in RunPreAccept): ignored in later states, refused with the stored values below the stored ballot, else stored and answered with PRE_ACCEPT_OK only if nothing changed, is uncommitted or is of a later round |
| `Protocol.HandlePreAcceptOk` | src/epaxos.c:139-151 | refines the run step: only a PRE_ACCEPTED leader in the initial round counts it, in a byte, and then decides |
| `Protocol.DecideNow` | src/epaxos.c:145-150 | refines the decision that fixes the settled value, which DecideTaken characterises by the entries of the array |
| `Protocol.HandlePreAcceptReply` | src/epaxos.c:153-183 | refines the run step: wrong state or ballot ignored, refusals counted, else number and dependencies merged and the reply itself decided on |
| `Protocol.MergeReply` | src/epaxos.c:170-175 | the merged array and the byte that counts its changes down |
| `Protocol.CountNack` | src/epaxos.c:155-162 | a refusal is counted, the largest ballot kept, recovery called for at half |
| `Protocol.HandleAccept` | src/epaxos.c:186-204 | refines the run step (the pruning is in RunAccept): committed or executed instances untouched, smaller ballots refused with the stored one, else ballot and value taken |
| `Protocol.HandleAcceptReply` | src/epaxos.c:206-222 | refines the step whose counting the majority theorem is about: only an ACCEPTED leader of that ballot counts, and commits once the byte count plus one exceeds half |
| `Protocol.HandleCommit` | src/epaxos.c:447-453 | refines the run step: the message's value is taken in any state |
| `Protocol.HandlePrepare` | src/epaxos.c:224-240 | refines the step that makes the promise: refused below the stored ballot, else the ballot stored and the instance reported |
| `Protocol.HandleTryPreAccept` | src/epaxos.c:345-373 | refines the acceptor step: refused below the stored ballot or on a conflict, which is an argument, else everything taken |
| `Instances.UniqueBallotValue` | src/instance.c:63-65 | a ballot is the round modulo 16 times 16 plus the replica |
| `Instances.UniqueBallotInjective` | src/instance.c:63-65 | different replicas or rounds below 16 never share a ballot |
| `Instances.LargerBallotExact` | src/instance.c:67-77 | it names its replica if and only if that is below 16; then it is larger if and only if the round is below 15, and initial if and only if it was 15 |
| `Instances.UniqueBallotCollides` | src/instance.c:63-65 | replica 16 of round 0 shares its ballot with replica 0 of round 1 |
| `Channels.FirstInFirstOut` | src/simple_channel.c:27-62 | in every interleaving the values received are a prefix of the values written in lock order, and the size computed is their exact difference, after any wrap of the counters |
| `Channels.AccessSafe` | src/simple_channel.c:33-50 | at a slot access the thread is alone, a sender's slot holds no unread value, a receiver's holds the oldest unread one |
| `Channels.SizeTorn` | src/simple_channel.c:60-62 | read at two moments, the counters give the values written by the one less those taken by the other, which is the size if and only if nothing was taken in between |
| `Channels.TokensConserved` | src/simple_channel.c:14-58 | semaphore counts plus calls between wait and post sum to CAPACITY |
| `Channels.HaltsExactly` | src/simple_channel.c:27-58 | nothing can move if and only if all calls wait and either all send on a full ring, or all receive on an empty one, or there are none |
| `Channels.StepKeeps` | src/simple_channel.c:27-58 | every step of every thread keeps the invariant |
| `Channels.SlotValue` | src/simple_channel.c:34-50 | masking the wrapped counter gives the unwrapped position modulo CAPACITY |
| `Channels.SimpleChan.constructor` | src/simple_channel.c:14-25 | an empty channel with CAPACITY send tokens |
| `Channels.SimpleChan.SemWait` | src/simple_channel.c:29-47 | one token is claimed |
| `Channels.SimpleChan.MutexLock` | src/simple_channel.c:33-49 | the lock is taken |
| `Channels.SimpleChan.Put` | src/simple_channel.c:34 | the sender's slot write and counter |
| `Channels.SimpleChan.Get` | src/simple_channel.c:50 | the receiver gets the oldest value not taken |
| `Channels.SimpleChan.MutexUnlock` | src/simple_channel.c:35-51 | the lock is released |
| `Channels.SimpleChan.SemPost` | src/simple_channel.c:36-52 | one token of the other kind is released |
| `Channels.SimpleChan.Send` | src/simple_channel.c:27-41 | uninterrupted: one value written, nothing else changed |
| `Channels.SimpleChan.Recv` | src/simple_channel.c:43-58 | uninterrupted: the oldest value not taken is returned and taken |
| `Channels.SimpleChan.ChanSize` | src/simple_channel.c:60-62 | both counters read at one moment: the number of values written and not taken |
| `DepArrays.UpdateInPlace` | src/instance.c:143-174 | the array and the answer after one update, in place |
| `DepArrays.ShiftInPlace` | src/instance.c:163-171 | filled slots move up by one, empty ones stay empty |
| `DepArrays.UpdateKeeps` | src/instance.c:143-174 | order, distinct ids, empties last; the filled slots never get fewer |
| `DepArrays.OffersKeep` | src/instance.c:143-180 | after any offers to an empty array: ordered, distinct, the head is the largest number ever offered, and no moment had more filled slots than a later one |
| `DepArrays.InsertCut` | src/instance.c:157-173 | an insert is sorted insertion cut to max(old count, position + 1) entries |
| `DepArrays.InsertKeepsAll` | src/instance.c:141-173 | an insert keeps every entry if and only if it appends |
| `DepArrays.OfferTwice` | src/instance.c:147-155 | a repeated offer changes nothing and says so |
| `DepArrays.UpdateAnswer` | src/instance.c:143-174 | an update says that it changed the array if and only if it did, which is unless the entry is empty, or recorded with a flag at least as high, or finds no free slot and no smaller number |
| `DepArrays.UpdateRaises` | src/instance.c:147-155 | an update of a recorded id raises its flag to the larger one and touches nothing else |
| `DepArrays.OffersRaise` | src/instance.c:143-180 | what is offered as committed and is recorded in the end, is recorded as committed |
| `DepArrays.OfferHolds` | src/instance.c:143-174 | after one offer an id is named if and only if it was and is not the last filled one below a new insert, or it is the one offered and finds a place |
| `DepArrays.HeldExactly` | src/instance.c:143-180 | after any offers to any ordered array it names exactly the ids that were there or found a place when offered, and that no later offer pushed out |
| `DepArrays.ScanUncommitted` | src/instance.c:186-194 | the scan with its early exit |
| `DepArrays.UncommittedExact` | src/instance.c:186-194 | true if and only if some filled entry is uncommitted |
| `DepArrays.ScanReplica` | src/instance.c:80-88 | the scan with its early exit |
| `DepArrays.LtDepMax` | src/instance.c:78-88 | the result is an upper bound for that replica and one of its recorded numbers, or zero |
| `Commands.StrCmpExact` | src/command.c:60-64 | the comparison is the order of bytes: negative if and only if the one key is a proper prefix or has the smaller byte at the first difference, zero if and only if they are equal |
| `Commands.OverlapShared` | src/command.c:60-64 | proper spans overlap if and only if some key lies in both, in the order of bytes |
| `Commands.InterferesExact` | src/command.c:70-93 | commands over proper spans interfere if and only if one writes and they share a key, in the order of bytes |
| `Commands.CollectedNext` | src/command.c:71-84 | what is collected of two commands: span after span of the first, each as often as it overlaps one of the second |
| `Commands.OverlapSparse` | src/command.c:71-84 | the spans of the first command, once per span of the second that they overlap, in order, if and only if the buffer holds them |
| `Commands.BufferExact` | src/command.c:71-84 | commands of m and n spans always fit into a buffer if and only if m times n spans do |
| `Commands.BufferOverrun` | src/index.c:69-84 | two commands of eleven spans, within the limit of a command, do not fit |
| `Indexes.SeqDepsForCommand` | src/index.c:59-114 | the row's walk on objects: sequence number, count of changes and dependencies, or no result at a missing command |
| `Indexes.MeetInstance` | src/index.c:85-109 | the part about an interfering instance |
| `Indexes.RowBreaks` | src/index.c:76-84 | a walk has no result if and only if it gets down to an unexecuted instance without a command, or, having no command itself, to one it must compare with |
| `Indexes.WalkBreaks` | src/replica.c:176-183 | sd_for_command has none if and only if this happens in some row |
| `Indexes.WalkRecorded` | src/index.c:59-114 | whatever the range tree answers, every recorded dependency is a different, unexecuted, indexed, interfering instance, flagged committed exactly when its status is COMMITTED or above, with a sequence number up to the result, which a candidate attains |
| `Indexes.WalkFlags` | src/instance.c:176-184 | a recorded flag is 1 if and only if the indexed instance is COMMITTED, and 0 if and only if it is in any earlier state |
| `Indexes.WalkNumber` | src/index.c:59-114 | the number reported is that of an interfering instance that the walk got down to, if there is one |
| `Indexes.WalkChanges` | src/index.c:59-114 | a walk counts no change if and only if the array it began with absorbs all that it offers, and then leaves the array as it was |
| `Indexes.AgreesExactly` | src/epaxos.c:96-137 | a replica that takes a PRE_ACCEPT agrees if and only if its array absorbs all that its walk offers and holds no uncommitted entry, the message's number is above all it met (modulo 2^64) and the round is the first; else it replies with its number and its walk's dependencies |
| `Indexes.WalkAccounts` | src/index.c:59-114 | no interfering instance that a walk gets down to is missed: the result is at least its sequence number, and if the range tree admits it the first recorded dependency is at least as late (which of them stay recorded: WalkHolds) |
| `Indexes.WalkOffered` | src/index.c:59-114 | the array after a walk is the one before it after the offers of the walk in their order |
| `Indexes.OffersExact` | src/index.c:59-114 | these offers are exactly the entries that the walk gets down to, interfering and let through by the range tree (a writer new to it, a reader outside of it), flagged committed exactly from COMMITTED on |
| `Indexes.WalkHolds` | src/index.c:59-114 | so the instances recorded after a walk are exactly those that were in the array or were offered and found a place, and that no later offer pushed out |
| `Indexes.WalkBeyond` | src/index.c:59-114 | from an ordered array a walk reports an ordered one, and never counts less than it began with |
| `Indexes.Phase1Follows` | src/epaxos.c:74-94 | after phase1 every recorded dependency is such an instance, and the sequence number is above theirs if and only if the largest met is below 2^64 - 1 or nothing was recorded |
| `Indexes.FirstPreAcceptFollows` | src/epaxos.c:109-122 | after a first PRE_ACCEPT on a fresh instance likewise; the number is above all met if and only if there was no wrap, and above all recorded if and only if there was none or the message's number is |
| `Indexes.FirstOkExact` | src/epaxos.c:109-136 | a fresh replica agrees if and only if it recorded nothing and the message's number is above all it met (or that is 2^64 - 1) |
| `Indexes.ClearIndex` | src/index.c:135-150 | exactly all but the last of the executed prefix are removed |
| `Indexes.PruningUnseen` | src/index.c:59-150 | no walk, for any command, exclusion and range tree, can tell a pruned row from the row it was |
| `Replicas.NextIdFresh` | src/replica.c:206-210 | in every run the next own number is above every number ever registered in the own row, pruned ones included, if and only if the row has not reached 2^64 - 1 |
| `Replicas.LargestNeverDrops` | src/index.c:135-150 | over any run of messages, proposals, changes and pruning the largest number of a row never drops |
| `Replicas.OpenedAscend` | src/epaxos.c:527-538 | until then the numbers of a replica's own instances ascend, so none repeats |
| `Replicas.FoundAfterClear` | src/replica.c:168-174 | after pruning an instance is found if and only if it lies at or behind the last of the executed prefix |
| `Replicas.InsertExact` | src/replica.c:155-166 | an entry is in the row after a registration if and only if it was there, or is the new one and the number was free |
| `Replicas.StepFound` | src/replica.c:92-210 | after any event an id is found if and only if it was found and pruning did not drop it, or the event registers it |
| `Replicas.FoundUnlessDropped` | src/replica.c:155-174 | in every run whatever was ever registered is found at every later moment, unless a pruning met it in the executed prefix of its row, before the last |
| `Replicas.Replica.SdForCommand` | src/replica.c:176-183 | one walk a row, the largest sequence number kept, one probe shared |
| `Replicas.Replica.MaxLocal` | src/replica.c:206-210 | the largest number of the own row, zero if empty |
| `Replicas.Replica.FindInstance` | src/replica.c:168-174 | finds exactly what is indexed |
| `Replicas.Replica.RegisterInstance` | src/replica.c:155-166 | ordered insertion that keeps every entry, refused if the number is there |
| `Replicas.Replica.OpenOwn` | src/epaxos.c:527-535 | the index part of propose and checkpoint is the run's event |
| `Replicas.Replica.Open` | src/epaxos.c:513-522 | the lookup of step is the run's event; instance zero is refused |
| `Replicas.Replica.Clear` | src/replica.c:92-96 | every row is pruned |
| `Replicas.RunPhase1` | src/epaxos.c:74-94 | phase1 end to end: the walk over this index decides what is stored and sent, and whether the program gets there |
| `Replicas.RunPreAccept` | src/epaxos.c:96-137 | pre_accept end to end, starting from the dependencies the instance has; a message without a command, when taken, prunes every row |
| `Replicas.RunAccept` | src/epaxos.c:186-204 | accept end to end, with the same pruning |
| `Merging.Merge` | src/index.c:24-46 | in one in-place pass: the grown span heads the list, the others follow in their old order, the tree lost the absorbed ones |
| `Merging.MergeSound` | src/index.c:24-46 | for disjoint spans the same keys are covered as before with the new span, and the result is disjoint |
| `Merging.GrowAllCovers` | src/index.c:33-40 | the grown span covers what it started with and the spans it met, nothing else |
| `Merging.GrowAllMeets` | src/index.c:33-40 | growing never creates a new meeting: what is absorbed is settled by the span that came in |
| `Merging.LostExactly` | src/index.c:41-42 | a span of the group leaves the tree if and only if the new one overlaps it |
| `Merging.HullCovers` | src/index.c:34-39 | two overlapping spans have no gap |
| `Merging.Unlink` | src/index.c:41 | the node after prev leaves the list |

## Left out

- Recovery as a whole (`recover`, `prepare_reply`, `try_pre_accept_reply`, the timeouts that start it): `prepare` overwrites the stored ballot before it reports it and refusals are not cleared on reused messages, so agreement through recovery is not what the code establishes. The acceptor side of PREPARE and TRY_PRE_ACCEPT is modelled.
- Engines.ReplicasAgree: no order is claimed for equal sequence numbers on one cycle; the code keeps the order in which the search met them.
- Engines.RunSafe: a commit that changes dependencies after the hand-over (`src/epaxos.c:447-452`) is excluded, as is a second hand-over after execution (Engines.HandedAgain).
- CommitRuns.Agreement: speaks of the replicas other than the leader, whose own copy is compared in Decisions.
- Indexes.WalkRecorded: claims nothing about which interfering instances the range tree lets the walk skip, since llrb-interval is not part of this model; the overlap spans handed to that tree are therefore not modelled in the walk.
- Replicas.Replica.OpenOwn: what propose and checkpoint go on to; `propose` continues as Replicas.RunPhase1, and checkpoint's `barrier` and `noop` are not modelled.
- Executors.Executor.Arrive: excludes an instance handed over again after its execution; Engines.HandedAgain says what becomes of it.
- Pairs.LaterNames: claims a dependency only where one replica made both settling walks; where two replicas did, there may be none (Witnesses.NeitherDepends), and Pairs.NeitherNames says when.
- Executors.Executor.Execute: nodes are not freed, the `executed` array is not modelled, and the index is a map handed in rather than one shared with another thread.
- Channels.SimpleChan.Send: speaks of a call that nothing interrupts and that has no need to wait; a call that waits for a token or for the lock is a thread of the interleavings.
- Channels.SimpleChan.Recv: likewise.
- Channels.SimpleChan.ChanSize: reads both counters at one moment; Channels.SizeTorn is about two.
- `pre_accept_conflict`, `is_dep_conflict`, `find_conflict`: decided by the range tree's coverage; TRY_PRE_ACCEPT takes their answer as an argument.
- `src/io.c`, `src/node.c`, `src/main.c`, `src/channel.c`, `src/message.c`, `src/fbs_sock.c`, `src/storage.cpp`: sockets, threads, generated code, database calls.
- Memory: allocation failure, `free`, reference counts, the fixed length of key buffers, timers.
- `sort_deps`, `equal_deps`, `has_key`, `encloses`: easy members that no modelled path calls.
