# SaunaFS chunk handling, modelled and proved in Dafny

This project models the parts of SaunaFS that keep chunk data correct: the
connections of a chunkserver, the pool of disk jobs behind them, the decisions
about which copies of a chunk to make and to remove, the plans that read and
re-stripe chunks, the files that hold them, their checksums, and three small data
structures (statistics charts, the compact vector, access control lists).
Nothing is assumed without proof except what is listed under "Assumptions"; the command
`dafny verify dfyconfig.toml` checks all of it.

| part of SaunaFS | modules |
|---|---|
| chunkserver connections, one worker thread | `Entry`, `ChunkserverEntryObject`, `Worker`, `WorkerSafety`, `WorkerLoss`, `WorkerAborts`, `HastyPeer`, `NetworkWorker`, `Reading` |
| a chain of chunkservers writing one chunk | `WriteChain`, `WriteChainSafety` |
| background job pool | `JobPool`, `JobPoolSafety`, `JobPoolRuns`, `JobPoolClash`, `JobTable` |
| copies of a chunk | `Labels`, `PartCounts`, `Repair`, `Convergence`, `Redundancy`, `Assignment`, `ChunkCounts`, `ChunkRepair`, `Rearrangement`, `CopiesCalculator`, `FullCopies` |
| read and recovery plans, replication | `Striping`, `Recovery`, `XorParity`, `Division` |
| checksums | `Bits`, `CrcSpec`, `Crc` |
| chunk files | `ChunkFiles`, `Truncation`, `Duplication` |
| statistics charts | `DataPack`, `Rings`, `ChartsFile`, `Charts` |
| compact vector | `Packed`, `CompactVector` |
| access control lists | `AclValues`, `AclText`, `AclXattr`, `AccessControlLists` |
| shared by several | `Common` |

Objects that SaunaFS updates in place are classes here; each method is proved
against a function of the old state, and the theorems over whole runs are about those
functions. Concurrency (several servers, workers and connections) is a state machine
over the steps that the threads and sockets can take.

## What holds only under a condition

In these cases the code does not always do what its documentation or its name says. The
code is modelled as it is, and the members named say exactly, for all inputs, when it
does; where a case that fails takes a whole run to reach, a lemma gives the run.

- Job pool: when a callback submits jobs, and one of them falls into the bucket whose
  head is the job being finished, the new job is dropped from the table.
  `JobPoolSafety.TableKeptUnlessClash` is the exact condition, `JobPoolClash.JobCanBeLost`
  gives a run that gets there. The identifiers of jobs come round after 2^32 - 1
  submissions, and no submission looks whether the next one is free: it keeps the pool in
  order exactly if no outstanding job has it (`JobPoolSafety.SubmitKeeps`). Otherwise the
  status of the old job calls back the new one (`JobPoolClash.CollisionMisdelivers`); one
  job that takes long enough is all it takes (`JobPoolClash.IdComesRound`).
- Connections: a connection whose read job is dropped in this way waits for ever
  (`WorkerLoss.StrandedForEver`), and its request is never answered
  (`Reading.HistoriesEnd`). All connections are called back exactly if no step of the
  run drops a job (`WorkerLoss.StepLoses`, `WorkerLoss.EveryoneAttended`);
  `WorkerLoss.CanBeStranded` gives a run that does, of two peers that wait for their answers.
- Reads: a request is answered right in every interleaving exactly if it finds the
  output queue empty and no packet of a failed read (`Reading.ReadAnswers`). A failed
  read always leaves such a packet (`Reading.FailedReadSpoilsNext`). The worker's invariant
  survives a request exactly if it finds the output queue empty
  (`HastyPeer.RequestKeepsIff`). Any other request, when the queued answer is taken before
  its own job has reported, aborts the chunkserver if it has one piece and leads to two jobs
  otherwise (`HastyPeer.HastyPeerBreaks`).
- Assertions: in runs of peers that wait for their answers, an assertion of the connection
  code fails exactly where the forward socket is found broken in the poll round in which the
  end of the write has been served by a callback (`WorkerAborts.AbortsIff`,
  `WorkerAborts.CanAbort`). None fails if peers also end a write only after its statuses
  (`WorkerAborts.PatientPeersAreSafe`).
- Redundancy level zero is documented to mean that the next loss is fatal. It is,
  exactly if the readable slice holds some part only once (`Redundancy.EndangeredIff`).
- `updateRedundancyLevel` is right exactly for slices whose level was recorded before;
  otherwise the level is one too low (`UpdateRedundancyLevel`).
- `canRemovePart` is documented to answer whether the chunk is safe afterwards. It says
  yes to a removal that endangers the chunk where the goal asks for a single copy
  (`GenerousAnswer`), and no to one that does not where two endangered slices carry the
  chunk (`CautiousAnswer`). `CanRemovePart` gives the answer exactly.
- Access control lists as text: an entry for the id 4294967295 prints and does not parse;
  all other lists come back (`AclText.TextRoundTrip`).
- Charts: the difference of two times is a signed number of 32 bits, so a clock follows
  the time exactly if it is at most 2^31 ahead (`Rings.FarClock`). 2^64 - 1 stands for missing data, so a slot says the sum or the maximum of its
  samples exactly if that is less (`Rings.FoldShows`). A saved clock of zero is taken as no
  clock, and one beyond local time does not fit the calendar, so the clocks survive a
  restart exactly if the saved one is a minute of local time and not zero, or is zero and
  the restart falls into the first minute of all time (`Charts.Restart`).
- Compact vector: one element more than the largest size empties a vector of 8 or 16 size
  bits, and loses the block of one of 20 size bits (`PushBack`, `Overflow`).
- Access control lists: a new named entry is not stored in a list of 65535
  (`AclValues.SetThenGet`).
- The level of a chunk that `isSafeEnoughToWrite` compares is the recorded one, so its
  answer is about the parts that are there only if no change came after the evaluation
  (`IsSafeEnoughToWrite`).
- Chunk files: closing a chunk keeps its reference when the checksums cannot be written.
  So after truncation and duplication the references of a chunk are as before exactly if
  it was not opened or closing it succeeds (`Truncation.Truncate`,
  `Duplication.DuplicateTruncate`).

## Model

| member | source | states |
|---|---|---|
| WorkerSafety.StepKeepsInv | src/chunkserver/network_worker_thread.cc:181-305 | every step of a worker (a poll round begins, a packet arrives, a job reports, a packet leaves, a connection is killed, closed or freed), steps in which the pool drops a job included, keeps: each outstanding callback points at a live connection that has recorded that very job, opens and closes balance, jobs and counters agree; and an assertion of the connection code fails in it if and only if the forward socket is found broken after the end of the write has been served |
| WorkerSafety.RunKeepsInv | src/chunkserver/network_worker_thread.cc:181-305 | the same for every finite run of polite events, of any number of connections |
| WorkerSafety.NoDanglingCallback | src/chunkserver/chunkserver_entry.cc:1028-1052 | after every run no callback has ever fired on a freed connection; each pending callback belongs to a connection that is not yet closed and is its recorded job; a connection never has two pending callbacks |
| WorkerSafety.OpensAreClosed | src/chunkserver/chunkserver_entry.cc:286-304 | after every polite run, jobs dropped by the pool included, a connection that is idle, closed or erased has had exactly as many closes as opens, and one that waits for its job has recorded a job that has not been called back |
| WorkerLoss.StepLoses | src/chunkserver/bgjobs.cc:452-479 | in every state in which no job is lost, a step leaves a connection without the job it waits for if and only if it delivers a status whose callback puts a new job into the bucket that the delivered job is the head of |
| WorkerLoss.EveryoneAttended | src/chunkserver/bgjobs.cc:452-479 | in every polite run every connection that waits for a job will be called back by it if and only if no step of the run was of that kind |
| WorkerLoss.StrandedForEver | src/chunkserver/chunkserver_entry.cc:1028-1052 | a connection whose job was dropped keeps that job recorded and is never idle, closed or erased again, in any continuation |
| WorkerLoss.SameClash | src/chunkserver/bgjobs.cc:452-479 | the condition on a worker is the condition on the pool under which its table loses a job |
| WorkerLoss.CanBeStranded | src/chunkserver/chunkserver_entry.cc:306-331 | a polite run that gets there: a read of two blocks, 1023 prefetches of another connection, and the first block has been read |
| HastyPeer.RequestKeepsIff | src/chunkserver/chunkserver_entry.cc:421-478 | for every state: a valid read request on an idle connection keeps the invariant if and only if the answers to earlier requests have been taken |
| HastyPeer.HastyPeerBreaks | src/chunkserver/chunkserver_entry.cc:341-408 | for every state: when a request finds an answer still queued, and that answer is taken before the first job of the request has reported, the chunkserver aborts on its assertion that the chunk is open if and only if the request has one piece; otherwise two jobs of one connection are outstanding, of which one is recorded |
| WorkerAborts.AbortsIff | src/chunkserver/chunkserver_entry.cc:219-228 | a polite run fails one of the assertions on the open chunk and on the message serializer if and only if one of its steps finds the forward socket broken after the end of the write has been served |
| WorkerAborts.PatientPeersAreSafe | src/chunkserver/chunkserver_entry.cc:786-836 | no run fails an assertion if peers take their answers before they ask again and end a write after the statuses of its jobs |
| WorkerAborts.ImpatientPeerBreaks | src/chunkserver/chunkserver_entry.cc:515-582 | for every state in which a write is forwarded and the status of the local job waits: the end of the write, the callback and a broken forward socket in one poll round abort the chunkserver |
| WorkerAborts.CanAbort | src/chunkserver/network_worker_thread.cc:117-179 | such a state is reached by a polite run |
| NetworkWorker.ServeRun | src/chunkserver/network_worker_thread.cc:181-305 | the thread as objects (a list of connection objects updated in place, the jobs, counters and poll descriptors) goes through any polite run of any number of connections, and every object is what the run leads to, with the closed ones erased; so no callback has run for an erased connection, every pending callback names a live object that has recorded the job, idle and erased connections have closed what they opened, and an assertion has failed if and only if some step was of the kind that fails |
| NetworkWorker.NetworkWorkerThread.EraseClosed | src/chunkserver/network_worker_thread.cc:297-304 | the closed connections, and no others, leave the list |
| Reading.PiecesPartition | src/chunkserver/chunkserver_entry.cc:341-408 | the pieces of every request are in order, adjoin, stay within a block and cover exactly the requested bytes |
| Reading.ProgressStep | src/chunkserver/chunkserver_entry.cc:306-408 | while a request is served, the counter of outstanding work is the jobs in flight plus the data packets queued, and what was sent, is queued, is being read and is still to be read make up the pieces of the request |
| Reading.HistoriesEnd | src/chunkserver/chunkserver_entry.cc:341-408 | for a clean request of n pieces every history, with jobs lost by the pool or not, has at most 2n + 1 events; it has that many if and only if exactly the answer has been sent, and if and only if it cannot be extended and no job was lost; after a loss no continuation sends the answer |
| Reading.ReadAnswers | src/chunkserver/chunkserver_entry.cc:306-408 | for every connection and valid request: in every interleaving of disk and network the outstanding-work counter is right and the peer gets exactly the requested pieces, in order and once, and then one status, if and only if the request found the output queue empty and no packet left by a failed read |
| Reading.LeftoverPacket | src/chunkserver/chunkserver_entry.cc:1566-1617 | with a packet still queued the request is always answered wrong in some interleaving |
| Reading.LeftoverRead | src/chunkserver/chunkserver_entry.cc:306-331 | with a packet of a failed read left the request is always answered wrong in some interleaving |
| Reading.FailedReadSpoilsNext | src/chunkserver/chunkserver_entry.cc:306-331 | every failed read job leaves the connection idle in the state in which the next request is answered wrong, even if the peer has waited |
| WriteChainSafety.StepKeeps | src/chunkserver/chunkserver_entry.cc:515-836 | every step of a chain of chunkservers keeps the invariant that ties, at each server, the partially completed set to the writes done here but not acknowledged below and the reverse, and each server to its neighbour |
| WriteChainSafety.RunKeeps | src/chunkserver/chunkserver_entry.cc:515-836 | the same for every run of a chain of any length through any number of sessions, each with a chain of its own length |
| WriteChainSafety.AcknowledgedEverywhere | src/chunkserver/chunkserver_entry.cc:723-784 | a write that a server has acknowledged is done at every server after it |
| WriteChainSafety.SuccessMeansWritten | src/chunkserver/chunkserver_entry.cc:515-582 | in every run of any number of sessions a success status reaches the previous server at most once per write of a session, and only after the write is done here and on all servers downstream; the partially completed set is the symmetric difference of local and remote completions |
| WriteChainSafety.EndMeansAcknowledged | src/chunkserver/chunkserver_entry.cc:786-836 | a server that ends a write and becomes idle has acknowledged every write it started |
| JobPoolSafety.TableKeptUnlessClash | src/chunkserver/bgjobs.cc:452-479 | after a status has been taken the hash table again holds exactly the jobs not yet freed, if and only if the callback did not submit into the bucket whose head was being removed |
| JobPoolSafety.ReceiveKeeps | src/chunkserver/bgjobs.cc:452-479 | the whole pool invariant survives a received status if and only if the callback does not submit into that bucket and its jobs get identifiers that no outstanding job has |
| JobPoolSafety.SubmitKeeps | src/chunkserver/bgjobs.cc:349-369 | a submission keeps the invariant if and only if no outstanding job has the identifier that the counter has come round to |
| JobPoolSafety.HeadIsNewest | src/chunkserver/bgjobs.cc:349-369 | a job is at the head of its bucket if and only if no newer job of the bucket is outstanding |
| JobPoolSafety.StepKeeps | src/chunkserver/bgjobs.cc:195-347 | submission, the four moments of a worker, disabling, changing a callback, receiving and closing keep the invariant (each job is in exactly one of queue, worker, status list, and in its bucket, under an identifier of its own) if and only if the step neither drops a job from its bucket nor reuses an identifier |
| JobPoolSafety.RunInv | src/chunkserver/bgjobs.cc:195-347 | the same for every run of steps that do neither |
| JobPoolSafety.JobsReportedOnce | src/chunkserver/bgjobs.cc:167-193 | in every such run a finished job has had its callback called once and is in no bucket; a pending one has not and is found under its identifier |
| JobPoolRuns.StepAlways | src/chunkserver/bgjobs.cc:195-347 | every step, also one that drops a job from its bucket or reuses an identifier, keeps: each job ever submitted is in exactly one of queue, worker and reports, the pipe and the exit tokens are right, and jobs disabled in time stay off the disk |
| JobPoolRuns.EveryJobOnce | src/chunkserver/bgjobs.cc:195-347 | so in every run, whatever happens to the table, no job is run or reported twice and none disappears before it is reported; the pipe holds a byte exactly when a status waits |
| JobPoolRuns.DisabledInTime | src/chunkserver/bgjobs.cc:211-224 | in every run a job disabled before its worker looks at it never reaches the disk, unless it is a prefetch |
| JobPoolRuns.NothingLeftBehind | src/chunkserver/bgjobs.cc:481-500 | in every run, when all workers have left, no job is in the queue and every job ever submitted has been reported once |
| JobPoolClash.ClashLosesJob | src/chunkserver/bgjobs.cc:452-479 | in every state a clash loses a job: submitted, still to be reported, and in no bucket |
| JobPoolClash.JobCanBeLost | src/chunkserver/bgjobs.cc:452-479 | a state reached from a new pool in which a callback loses a job |
| JobPoolClash.CollisionMisdelivers | src/chunkserver/bgjobs.cc:349-369 | in every state a submission that reuses the identifier of a job whose status waits makes that status call back and free the new job, still queued, in place of the old one, which stays |
| JobPoolClash.IdComesRound | src/chunkserver/bgjobs.cc:349-369 | such a state is reached from a new pool by a run with at most two jobs outstanding at any time |
| JobTable.JobTable.constructor | src/chunkserver/bgjobs.cc:373-394 | a new pool: empty buckets, empty queues, empty pipe |
| JobTable.JobTable.JobNew | src/chunkserver/bgjobs.cc:349-369 | a new job is linked at the head of its bucket under an identifier that is never zero and wraps to one |
| JobTable.JobTable.DisableJob | src/chunkserver/bgjobs.cc:420-437 | exactly the job with the identifier is disabled, if it is still enabled |
| JobTable.JobTable.ChangeCallback | src/chunkserver/bgjobs.cc:439-450 | exactly the job with the identifier gets the callback |
| JobTable.JobTable.ReceiveOne | src/chunkserver/bgjobs.cc:178-193 | the oldest status is taken, the pipe is read with the last one |
| JobTable.JobTable.CheckJob | src/chunkserver/bgjobs.cc:452-479 | one turn of the loop is the transition of the run theorems, unlinking included |
| JobTable.JobTable.CheckJobs | src/chunkserver/bgjobs.cc:452-479 | all waiting statuses are received, and the pipe is empty afterwards |
| JobTable.BucketIds | src/chunkserver/bgjobs.cc:420-450 | a bucket holds an identifier at most once, so the search that does not stop touches one job |
| JobTable.DeletedPoolIsEmpty | src/chunkserver/bgjobs.cc:481-500 | after a run that neither drops a job nor reuses an identifier, a deleted pool has called the callback of every job ever submitted exactly once and has freed all of them |
| PartCounts.OperationCount | src/common/chunk_copies_calculator.cc:211-257 | the merge of two sorted label lists counts, label by label, the copies to make and to remove, the wildcard taking surplus copies of any label |
| Convergence.ExtraIsDifference | src/common/chunk_copies_calculator.cc:211-257 | surplus copies are the size of the multiset difference of what there is and what is named |
| Convergence.NeedIsDifference | src/common/chunk_copies_calculator.cc:211-257 | missing copies are the size of the reverse multiset difference |
| Convergence.CountsBalance | src/common/chunk_copies_calculator.cc:211-257 | copies to make less copies to remove is what the target has more than there is, wildcard included |
| Convergence.CountsBounded | src/common/chunk_copies_calculator.cc:211-257 | never more is made than the target holds nor more removed than there is |
| Convergence.DoneMeansMet | src/common/chunk_copies_calculator.cc:211-257 | both counts are zero if and only if the target is met |
| Repair.GetLabelsToRecover | src/common/chunk_copies_calculator.cc:452-508 | the list names exactly the labels of which making a copy is allowed, with the number missing |
| Repair.GetRemovePool | src/common/chunk_copies_calculator.cc:510-559 | the pool names exactly the labels of which a copy may go |
| Convergence.ListsAllow | src/common/chunk_copies_calculator.cc:452-559 | the two lists allow exactly the changes that the counts allow |
| Convergence.MakeHelps | src/common/chunk_copies_calculator.cc:452-508 | every listed copy, once made, lowers the recover count by one and leaves the remove count |
| Convergence.DropHelps | src/common/chunk_copies_calculator.cc:510-559 | every pooled copy, once dropped, lowers the remove count by one and leaves the recover count |
| Convergence.RecoverListEmpty | src/common/chunk_copies_calculator.cc:452-508 | the list is empty if and only if nothing is to be made |
| Convergence.PoolEmpty | src/common/chunk_copies_calculator.cc:510-559 | the pool is empty if and only if nothing is to be removed |
| Convergence.StuckMeansDone | src/common/chunk_copies_calculator.cc:452-559 | some change is allowed as long as a count is not zero, and only then |
| Convergence.RepairProgress | src/common/chunk_copies_calculator.cc:452-559 | in every repair, in any order and with any choices, what is left is what there was less the changes made |
| Convergence.RepairConverges | src/common/chunk_copies_calculator.cc:452-559 | every repair of a part ends after exactly as many changes as were counted, where and only where the target is met |
| ChunkCounts.ChunkBalance | src/common/chunk_copies_calculator.cc:156-209 | copies to make less copies to remove is what is missing, over all slices of a chunk |
| ChunkRepair.MoveHelps | src/common/chunk_copies_calculator.cc:156-209 | an allowed change of any part of any slice lowers its own total by one and no other |
| ChunkRepair.ChunkRepairProgress | src/common/chunk_copies_calculator.cc:156-209 | the totals of the chunk count down by one with every change of every repair |
| ChunkRepair.UnmetCanMove | src/common/chunk_copies_calculator.cc:156-209 | a chunk is as the target has it if and only if no change is allowed |
| ChunkRepair.ChunkRepairConverges | src/common/chunk_copies_calculator.cc:156-209 | every repair of a chunk has at most as many changes as evalOperationCount counted, and is finished exactly when it has had them |
| Redundancy.SliceReadableIff | src/common/chunk_copies_calculator.cc:279-294 | a slice has a level of zero or more if and only if enough different parts are there to read it |
| Redundancy.ReadableIff | src/common/chunk_copies_calculator.cc:259-276 | a chunk has a level of zero or more if and only if some slice can be read |
| Redundancy.LossLowersByOne | src/common/chunk_copies_calculator.h:87-99 | one lost copy lowers the level by one at most |
| Redundancy.SurvivesLosses | src/common/chunk_copies_calculator.h:87-99 | a chunk of level X can be read after the loss of any X copies |
| Redundancy.EndangeredIff | src/common/chunk_copies_calculator.h:87-99 | a chunk of level zero has a copy whose loss is fatal if and only if its readable slice holds some part only once |
| Redundancy.DoubledPartsSurvive | src/common/chunk_copies_calculator.h:87-99 | so the documented meaning of level zero, that the next loss is fatal, is not always right: two copies of each needed part survive any |
| CopiesCalculator.EvalSliceRedundancyLevel | src/common/chunk_copies_calculator.cc:279-294 | the level of a slice |
| CopiesCalculator.EvalGoalRedundancyLevel | src/common/chunk_copies_calculator.cc:269-276 | the level of a goal, from the levels of its slices |
| CopiesCalculator.ChunkCopiesCalculator.constructor | src/common/chunk_copies_calculator.cc:36-40 | nothing available, no level known |
| CopiesCalculator.ChunkCopiesCalculator.SetTarget | src/common/chunk_copies_calculator.cc:42-45 | a new target makes the level of the target unknown |
| CopiesCalculator.ExpectedCopies | src/common/goal.cc:48-52 | all copies of a slice |
| CopiesCalculator.ChunkCopiesCalculator.AddPart | src/common/chunk_copies_calculator.h:201-203 | one copy of one part more, a new slice if needed, every other part as before |
| CopiesCalculator.ChunkCopiesCalculator.RemovePart | src/common/chunk_copies_calculator.cc:47-64 | one copy less if there is one, with empty labels erased; otherwise nothing |
| CopiesCalculator.ChunkCopiesCalculator.EvalRedundancyLevel | src/common/chunk_copies_calculator.cc:259-267 | level of the chunk, and the recorded levels of its slices |
| CopiesCalculator.ChunkCopiesCalculator.UpdateRedundancyLevel | src/common/chunk_copies_calculator.cc:309-316 | after a change of one slice the incremental level is the recomputed one if and only if the slice had a level recorded; for a slice that had none it is one too low |
| CopiesCalculator.ChunkCopiesCalculator.IsSafeEnoughToWrite | src/common/chunk_copies_calculator.cc:296-307 | levels not known are evaluated and recorded, levels recorded are taken as they stand; the answer is yes if and only if the chunk reaches the level of the target or the given minimum, and is about the parts that are there if the recorded levels are right |
| CopiesCalculator.ChunkCopiesCalculator.GetState | src/common/chunk_copies_calculator.h:220-228 | lost exactly if unreadable, safe exactly if the level is above zero |
| CopiesCalculator.ChunkCopiesCalculator.RemovePartBasicTest | src/common/chunk_copies_calculator.cc:362-428 | decides without looking at the slice only where the answer is then right |
| CopiesCalculator.ChunkCopiesCalculator.CanRemovePart | src/common/chunk_copies_calculator.cc:331-354 | for every stored copy the answer is yes if and only if the chunk is safe afterwards and the slice is not one of two endangered ones that alone carry it, or the slice is the only safe one, the goal asks for one copy of it and one is left; after a yes the chunk is always readable |
| CopiesCalculator.GenerousAnswer | src/common/chunk_copies_calculator.h:122-133 | a yes that leaves the chunk endangered, against the documentation |
| CopiesCalculator.CautiousAnswer | src/common/chunk_copies_calculator.h:122-133 | a no where the chunk would have stayed safe, against the documentation |
| CopiesCalculator.ChunkCopiesCalculator.EvalOperationCount | src/common/chunk_copies_calculator.cc:156-209 | counts for every part of every slice on either side, and their totals |
| CopiesCalculator.ChunkCopiesCalculator.CountPartsToMove | src/common/chunk_copies_calculator.cc:318-329 | the two counts of one part, zero where a slice is on neither side |
| CopiesCalculator.ChunkCopiesCalculator.GetLabelsToRecover | src/common/chunk_copies_calculator.cc:452-508 | the list for one part, a missing slice included |
| CopiesCalculator.ChunkCopiesCalculator.GetRemovePool | src/common/chunk_copies_calculator.cc:510-559 | the pool for one part, a slice that is not wanted included |
| Assignment.CostMatrix | src/common/chunk_copies_calculator.cc:113-135 | the cost of matching every available with every wanted part |
| Assignment.PermutationBalance | src/common/chunk_copies_calculator.cc:86-154 | however the wanted parts are permuted, copies to make and to remove differ by the same number |
| Assignment.BestAssignment | src/common/chunk_copies_calculator.cc:86-154 | a permutation of greatest cost needs no more copies made and, at the same time, no more removed than any other |
| CopiesCalculator.IsSkippable | src/common/chunk_copies_calculator.cc:76-84 | a slice is skipped exactly if its parts are all alike |
| CopiesCalculator.ChunkCopiesCalculator.Rearrange | src/common/chunk_copies_calculator.cc:86-154 | the optimized target has the same slices with the same parts in some order; with permutations of greatest cost no other order of all its slices needs fewer copies made, or fewer removed |
| Rearrangement.BestOrder | src/common/chunk_copies_calculator.cc:86-154 | of two orders of the same parts, the one of greater cost needs no more copies made and no more removed |
| Rearrangement.BestIsLeast | src/common/chunk_copies_calculator.cc:86-154 | slices that are each ordered best make both totals of the chunk least over all rearrangements of the target |
| CopiesCalculator.ChunkCopiesCalculator.Optimize | src/common/chunk_copies_calculator.cc:86-154 | the same, with the totals and the levels of the optimized target; the totals differ by what the target has more than there is |
| FullCopies.GetFullCopiesCount | src/common/chunk_copies_calculator.cc:561-601 | the number of full copies is the sum, over slices, of the number of copies that as many parts have as a read needs |
| FullCopies.SecondLowest | src/common/chunk_copies_calculator.cc:561-601 | for one parity part that is the second lowest count, found in one pass |
| FullCopies.KthLargestUnique | src/common/chunk_copies_calculator.cc:561-601 | the count that a partial sort picks is determined by the counts alone |
| Striping.GetRequiredParts | src/common/chunk_read_planner.h:185-209 | exactly the data parts that the range touches, each once, in the order of the stripe from the lowest start that serves |
| Striping.BlockFound | src/common/chunk_read_planner.h:44-61 | for every data part count, range and block, the place the converter computes is inside the buffer and holds that block of the chunk |
| Striping.ConvertToChunk | src/common/chunk_read_planner.h:44-61 | the blocks of the range in order, nothing beyond them touched |
| Striping.ChunkReadPlanner.Prepare | src/common/chunk_read_planner.h:89-115 | reading is possible if and only if the parts that some offered slice type requires can be read, and one such type is taken |
| Striping.ChunkReadPlanner.ReadChunk | src/common/chunk_read_planner.h:140-165 | from whatever slice type the plan reads, it delivers the requested blocks of the chunk |
| Recovery.ConvertToPart | src/chunkserver/slice_recovery_planner.h:49-58 | the blocks of one data part, picked from the chunk |
| Recovery.ConvertToParity | src/common/xor_read_plan.h:41-64 | one parity block for each stripe, by any code |
| XorParity.RecoverParity | src/common/xor_read_plan.h:41-64 | for the exclusive or: copied and combined in place, block by block, each block is the parity of its stripe |
| XorParity.BlockXor | src/common/block_xor.cc:65-70 | the first bytes of the buffer are combined with the source, the others stay |
| XorParity.RecoverMissing | src/common/xor_read_plan.h:79-127 | parts of any lengths, combined in the place of the missing one, give their exclusive or, short parts continued with zeros |
| XorParity.LostPartRecovered | src/common/xor_read_plan.h:79-127 | whichever part of a slice is lost, data or parity, each of its blocks is the exclusive or of the blocks of the other parts |
| Recovery.SliceRecoveryPlanner.Prepare | src/chunkserver/slice_recovery_planner.h:88-120 | recovery is possible if and only if the part can be read or some slice can be read over the blocks that the part is made from; the part itself is preferred |
| Recovery.SliceRecoveryPlanner.RecoverPart | src/chunkserver/slice_recovery_planner.h:147-207 | re-striping keeps the data: whatever slice is read, what is delivered is what the recovered part holds, data or parity |
| Recovery.BlocksOfPart | src/common/slice_traits.h:314-319 | block b is in a part if and only if its place in the stripe falls into the chunk; a parity part has one block per stripe |
| Recovery.EstimateEnough | src/chunkserver/chunk_replicator.cc:110-115 | the chunk length estimated from one part is never too small and too large by less than two stripes |
| Recovery.ReplicatesEnough | src/chunkserver/chunk_replicator.cc:140-147 | however the length was learned, at least all blocks that the part has are replicated and none beyond the end of a chunk |
| Recovery.BatchAtLeast | src/chunkserver/chunk_replicator.cc:145-148 | a batch is whole stripes, at least fifty blocks and less than one stripe more |
| Recovery.Replicate | src/chunkserver/chunk_replicator.cc:140-198 | every block of the part is written once, in order and with the right content; replication fails if and only if some batch can be had from no slice |
| DataPack.GetPut32 | src/common/datapack.h:29-74 | reading undoes writing for every 32-bit number, whatever follows |
| DataPack.GetPut64 | src/common/datapack.h:29-74 | the same for 64 bits |
| Rings.AddRepresents | src/common/charts.cc:976-1134 | one sample, on time, late, too late or after a jump of less than 2^31 buckets, keeps every slot of the window equal to the fold of all samples for its bucket |
| Rings.FarClock | src/common/charts.cc:976-1134 | a clock of 32 bits follows the time if and only if it is at most 2^31 ahead of it; otherwise it is set back |
| Rings.FoldShows | src/common/charts.cc:976-1134 | that fold says the sum or the maximum of the bucket if and only if it stays below 2^64 - 1, the number that stands for missing data |
| Rings.RunRepresents | src/common/charts.cc:976-1134 | every run of a ring whose clock is at most 2^31 appends its samples to the history that the ring holds |
| Rings.RunShows | src/common/charts.cc:976-1134 | after every run from empty charts each slot of the window says the sum or the maximum of all samples ever added for its time bucket if and only if that is below 2^64 - 1 |
| Rings.CoarseRun | src/common/charts.cc:976-1134 | whatever two rings of a fine and a coarse range aggregate, after the same calls the coarse clock is the floor of the fine one |
| Rings.CoarseClock | src/common/charts.cc:976-1134 | in every run the clock of a coarse range is the floor of the clock of a fine one |
| Charts.Charts.AddToRange | src/common/charts.cc:976-1134 | one range of all statistics: advanced by the signed 32-bit difference of the times, filled with missing data, and added to; other ranges unchanged |
| Charts.Charts.AddSamples | src/common/charts.cc:976-1134 | one call does that in all four ranges and keeps their clocks in step if the shortest is at most 2^31 |
| Charts.Charts.Replay | src/common/charts.cc:976-1134 | any sequence of calls is, for each statistic and range, the run of its own samples |
| Charts.Collect | src/common/charts.cc:976-1134 | new charts after any calls hold the folds of all calls, for all statistics and ranges, and so show the aggregates exactly where these are below 2^64 - 1; their clock is a minute of local time, so they can be stored and restarted |
| Charts.Charts.Store | src/common/charts.cc:478-526 | the file: header, and per statistic its name and the four windows oldest first |
| Charts.Charts.Load | src/common/charts.cc:653-756 | tables by name from a file of this format, as far as it goes, records of unknown names skipped by a product of 32 bits; any other file changes nothing |
| ChartsFile.HeaderFound | src/common/charts.cc:653-756 | the name written for a statistic is found as that statistic |
| ChartsFile.RecordsComeBack | src/common/charts.cc:653-756 | loading undoes storing for all statistics and ranges, whatever was in the tables before |
| Charts.Charts.InitTimePointers | src/common/charts.cc:931-974 | the clocks of all ranges follow from the shortest, for every value of it, if and only if it is a minute of local time and not zero, or is zero in the first minute |
| Charts.Restart | src/common/charts.cc:478-526 | store, load and clock start keep everything the charts show, and keep the clocks if and only if the saved clock is a minute of local time and not zero, or is zero in the first minute |
| Charts.Resume | src/common/charts.cc:478-526 | after such a restart and any further calls every ring holds its old history and then the new samples |
| Charts.Charts.MakeData | src/common/charts.cc:1709-1739 | what is sent for a chart number: newest time and window, or nothing for a number that is no chart |
| CrcSpec.FeedIsLinear | src/common/crc.cc:115-153 | the register after a message is a fixed linear map over GF(2) of the register plus the message read as a number |
| CrcSpec.CrcConcat | src/common/crc.cc:209-226 | the checksum of a concatenation from those of its parts and the length of the second |
| CrcSpec.CrcOfXor | src/common/crc.h:31-31 | the checksum of an exclusive or from three checksums |
| Crc.CrcTables.GenerateMainTables | src/common/crc.cc:73-113 | the four slicing tables hold the effect of 8, 16, 24 and 32 steps on each byte |
| Crc.CrcTables.Compute | src/common/crc.cc:115-153 | the table driven checksum, unaligned head and 32 byte rounds included, is the bit by bit one of section 8 of RFC 1952, for every polynomial, start value, block and address |
| Crc.MatrixSquare | src/common/crc.cc:159-169 | the square of the matrix of n steps is that of 2n steps |
| Crc.CrcTables.GenerateCombineTables | src/common/crc.cc:171-206 | entry i, j, k carries byte j of a word through 2 to the i zero bytes |
| Crc.CrcTables.Combine | src/common/crc.cc:209-226 | the first checksum is carried through as many zero bytes as the length says, by repeated doubling |
| Crc.CombineParts | src/common/crc.cc:209-226 | so combining two checksums gives the checksum of the concatenation |
| Crc.CrcTables.ZeroBlock | src/common/crc.h:29-29 | the checksum of a run of zeros in logarithmic time |
| Crc.CrcTables.ZeroExpanded | src/common/crc.h:30-30 | the checksum of a block padded with zeros |
| Crc.CrcTables.XorBlockCrcs | src/common/crc.h:31-31 | the checksum of the exclusive or of two blocks from their checksums |
| ChunkFiles.TableChecks | src/chunkserver/hddspacemgr.cc:1278-1485 | a table with the old checksums before the cut, a new one for the cut block and those of zeros after the old end is the table of the file cut or extended |
| Truncation.Truncate | src/chunkserver/hddspacemgr.cc:1278-1485 | success exactly under the stated conditions, and then the file is cut or extended with zeros, its length is whole blocks and every block has its checksum; the version changes exactly when the file is renamed; the lock is given back on every path, and the reference if and only if the chunk was not opened or closing it succeeds; a rejected request changes no data |
| Truncation.Resize | src/chunkserver/hddspacemgr.cc:1336-1475 | the part after the rename, for shrinking, extending and unaligned cuts: success if and only if no write or truncation that it needs fails; what is in the file after each failure, with the blocks counted and their checksums as before |
| Truncation.FillEmpty | src/chunkserver/hddspacemgr.cc:1339-1346 | blocks after the old end get the checksum of a zero block, no other entry changes |
| Truncation.CutCrc | src/chunkserver/hddspacemgr.cc:1391-1415 | the checksum of the cut block padded with zeros, from the part that is left |
| Duplication.OpenSource | src/chunkserver/hddspacemgr.cc:1546-1586 | the source is renamed, opened and gets its new version in its header; it counts as renamed from the rename on |
| Duplication.CopyBlocks | src/chunkserver/hddspacemgr.cc:1629-1690 | the first blocks are copied unless one cannot be read or written |
| Duplication.CopyCutBlock | src/chunkserver/hddspacemgr.cc:1840-1909 | the cut block of the copy is zero filled and has its checksum |
| Duplication.CopyData | src/chunkserver/hddspacemgr.cc:1625-1910 | in each of the three cases the copy is the source cut or extended, with the right table |
| Duplication.FillCopy | src/chunkserver/hddspacemgr.cc:1600-1966 | both chunks open: data, header and close; on failure the copy is unregistered; each chunk is closed once on every path |
| Duplication.MakeCopy | src/chunkserver/hddspacemgr.cc:1546-1966 | the copy is filled, or unregistered, with the references that closing leaves |
| Duplication.DuplicateTruncate | src/chunkserver/hddspacemgr.cc:1487-1966 | success exactly under the stated conditions; then the copy is registered and unlocked with the cut content and valid checksums; on every failure no copy stays registered; on every path the data of the source is untouched and its lock given back, and each chunk keeps a reference if and only if it was opened and closing it fails |
| Packed.DigitsPut | src/common/compact_vector.h:228-242 | writing one inline element changes no other |
| Packed.SizeSet | src/common/compact_vector.h:257-264 | setting the size leaves the pointer and the inline elements |
| Packed.PointerSet | src/common/compact_vector.h:223-255 | setting the pointer leaves the size and can be read back |
| Packed.InlineSet | src/common/compact_vector.h:228-242 | writing an inline element leaves the size |
| CompactVector.LayoutForIsLayout | src/common/compact_vector.h:209-214 | for each size type and element size the inline elements do not overlap the size bits |
| CompactVector.Vector.constructor | src/common/compact_vector.h:217-221 | a new vector is empty and owns nothing |
| CompactVector.Vector.Allocate | src/common/compact_vector.h:365-380 | no memory for nothing, inline if it fits, otherwise a new block of exactly that length |
| CompactVector.Vector.SetNewPtr | src/common/compact_vector.h:1131-1148 | the old block is freed with the length it was allocated with, and only if it is replaced |
| CompactVector.Vector.Resize | src/common/compact_vector.h:759-827 | the sequence is cut or extended with a value, and no block is lost or freed twice, across all moves between nothing, inline and heap |
| CompactVector.Vector.PushBack | src/common/compact_vector.h:895-897 | one element is appended; a full vector of 8 or 16 size bits is emptied and its block freed; one of 20 size bits is empty afterwards and the new block, filled, is owned by nothing |
| CompactVector.Vector.Overflow | src/common/compact_vector.h:759-827 | one element too many for 20 size bits: the size is shifted out, the old block freed and the new one lost |
| CompactVector.Vector.EmplaceBack | src/common/compact_vector.h:903-928 | one element is appended; a full vector of 20 size bits is empty afterwards and the new block is owned by nothing |
| CompactVector.Vector.Erase | src/common/compact_vector.h:1070-1110 | exactly the range is removed |
| CompactVector.Vector.Assign | src/common/compact_vector.h:685-688 | the sequence becomes n copies of a value |
| CompactVector.Vector.AssignAll | src/common/compact_vector.h:690-701 | the sequence becomes the given one |
| CompactVector.Vector.Swap | src/common/compact_vector.h:1112-1114 | contents and ownership are exchanged, also of a vector with itself, memory is not touched |
| CompactVector.Vector.MoveFrom | src/common/compact_vector.h:673-677 | the contents are taken over, the old ones freed, the other vector is empty; a vector moved to itself is emptied and its block freed |
| CompactVector.Vector.Release | src/common/compact_vector.h:322-324 | the vector is empty and its block is freed |
| AclValues.RightsSet | src/common/access_control_list.h:388-412 | setting the rights of one kind changes those of no other |
| AclValues.SetKeepsAcl | src/common/access_control_list.h:190-224 | setting an entry keeps the list sorted with one entry for each kind and id, at most 65535 |
| AclValues.RemoveKeepsAcl | src/common/access_control_list.h:231-256 | removing an entry keeps that too |
| AclValues.SetThenGet | src/common/access_control_list.h:190-224 | after setting one entry it has its new rights, unless it is a new named entry and the list is full, and every other has its old ones |
| AclValues.RemoveThenGet | src/common/access_control_list.h:231-256 | after removing one entry it is not found, or has no rights where its kind is always there, and every other has its old ones |
| AclValues.MembersAfterRemove | src/common/access_control_list.h:231-256 | the list then holds the old entries with other keys, nothing else |
| AclValues.MembersAfterSet | src/common/access_control_list.h:190-224 | the list then holds the new entry and the old ones with other keys, nothing else |
| AccessControlLists.AccessControlList.SetEntry | src/common/access_control_list.h:190-224 | the change in place is that change, a full list ignored |
| AccessControlLists.AccessControlList.RemoveEntry | src/common/access_control_list.h:231-256 | the change in place is that removal; the mask becomes unset; the list stays sorted |
| AccessControlLists.AccessControlList.GetEntry | src/common/access_control_list.h:263-289 | the entry, or one of an invalid kind |
| AccessControlLists.AccessControlList.SetMode | src/common/access_control_list.h:173-182 | the mode that was set is read back, the mask taking the group bits if there is one, group entry and named entries unchanged |
| AccessControlLists.AccessControlList.GetMode | src/common/access_control_list.h:157-166 | the first digit of the mode is the rights of the owner entry, the last those of others, and the middle one those of the mask entry where there is one and of the group entry otherwise |
| AccessControlLists.AccessControlList.GetEffectiveRights | src/common/access_control_list.h:299-334 | bit by bit: owner, named user under the mask, union of all matching groups under the mask, otherwise others |
| AccessControlLists.AccessControlList.ApplyMask | src/common/access_control_list.h:345-350 | a right passes if the mask has it or there is no mask |
| AclText.NumberComesBack | src/common/access_control_list.cc:64-117 | a printed 32-bit id is parsed back |
| AclText.TextRoundTrip | src/common/access_control_list.cc:64-139 | parsing undoes printing if and only if no named entry has the id 4294967295; otherwise the text is rejected |
| AccessControlLists.AccessControlList.ToString | src/common/access_control_list.cc:119-139 | the text of the list |
| AccessControlLists.FromString | src/common/access_control_list.cc:64-117 | null exactly for a text that is not well-formed, otherwise the list of the text |
| AclXattr.EntryComesBack | src/common/acl_converter.cc:56-92 | each entry of eight bytes is read back |
| AclXattr.XattrRoundTrip | src/common/acl_converter.cc:95-159 | extracting undoes storing for every list, mask or no mask |
| AccessControlLists.AccessControlList.ToXattr | src/common/acl_converter.cc:131-159 | the attribute: owner, users, group, groups, mask, others |
| AccessControlLists.FromXattr | src/common/acl_converter.cc:95-129 | null exactly for an attribute that is not well-formed, otherwise its list |

## Assumptions

- Sockets, disks and the clock are the events and parameters of the model. Packets
  between two peers arrive in order; any connection may fail at any time.
- A peer starts a read only after it has taken all earlier answers, and a chunkserver
  that is forwarded to sends only write statuses and keep-alive packets.
- In a write chain the client opens the chain once in each session, uses every write
  identifier once in it, and begins the next session when the first server is idle again.
- A worker of a job pool that has been handed a job which was freed before does not go on;
  that happens only after an identifier has been used twice.
- In the model of a worker thread the identifiers of jobs do not come round; what happens
  when they do is said of the job pool.
- The media label that stands for any server is the greatest in the order of labels, and
  label counts do not overflow their 16 bits.
- The linear assignment optimizer returns a permutation. `Assignment.BestAssignment` is
  about a permutation of greatest cost, for parts of fewer than 1280 copies, beyond which
  the costs are cut off.
- A slice read plan delivers the requested parts one after the other, each with the same
  range of blocks. Which parts of which slice can be read is a parameter, and so are the
  parity codes. For the redundancy levels, a slice can be read from any as many of its
  parts as it has data parts.
- Local time is not negative and below 2^31. Chart names are distinct, at most 100 bytes
  and without NUL bytes.
- The allocator of a compact vector returns aligned addresses that are not in use and fit
  into the pointer bits; the address is a parameter.
- Texts of access control lists hold no NUL character.

## Left out

- Big-endian machines, the build with the crcutil library and the build with fake checksums: other implementations of the same interface.
- Sockets, polling, timeouts, reconnecting and partial sends of a connection: they appear as events only.
- Assertions of the connection code on message types, allocated memory and buffer positions; those on the open chunk and the message serializer are modelled.
- Bulk requests of a connection that answer at once (lists of disks, charts, tests of chunks): they start no job and keep no state.
- Packet serialization of chunkserver messages: a packet is its parsed content, with a flag for malformed ones.
- Callbacks that submit jobs while a job pool is being deleted: `JobTable.DeletedPoolIsEmpty` is about callbacks that do not.
- `job_pool_disable_and_change_callback_all`: a loop over the operations that are modelled.
- Zoned devices, statistics, scanning of disks, and the choice of a disk for a new chunk in hddspacemgr.
- Galois field arithmetic of erasure codes and the waves of a read plan executor: a code is a parameter of the model, with the exclusive or as one instance.
- The cache of optimal assignments, and the auction algorithm behind it.
- `canMovePartToDifferentLabel`: one comparison of two label counts.
- Imports of older chart files, and drawing charts as images or tables.
- Calendar fields of the charts: they only label the drawings.
- Insertion, iterators, reverse iteration and rollback after exceptions of the compact vector.
- Serialization of access control lists in messages, and rich access control lists.
- The order in which a hash map is visited: the model takes any.
- Recovery.ConvertToParity: the parity of a stripe is a function that is passed in; `XorParity.RecoverParity` is the loop with the exclusive or.
- XorParity.BlockXor: one loop over the bytes; the split into an unaligned prefix and an aligned rest is not modelled.
- Duplication.CopyData: writes append to the file of the copy; the position kept by the operating system is not modelled.
- CompactVector.Vector.EmplaceBack: a full vector of 8 or 16 size bits is excluded, because the element is then constructed through a null pointer. Elements are numbers of a fixed size, so constructors and destructors of elements have no effect.
