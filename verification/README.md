# Verified models of the Snitch cluster software

A Dafny model of the parts of this repository whose correctness is hardest to see: the integer square root kernels of
the math library, the fork-join runtime and its synchronisation, the double-buffered pooling layer, the hardware-loop
emulator of the trace tool, the streamed matrix multiplication, the static loop schedule, the parallel Monte Carlo
estimate of pi, the reduction tree, and the batch build scheduler. `dafny verify dfyconfig.toml` checks everything.

| files | what they model |
|---|---|
| `Arith` | facts about products and remainders, used everywhere |
| `FixedPoint`, `RsqrtTable`, `BinaryFormat`, `Rounding`, `Sqrtf`, `Sqrt` | `sqrtf` and `sqrt`: seed table, Goldschmidt steps in truncating fixed point, rounding |
| `EventUnit`, `ForkJoin` | `eu.h` as `omp.h` and `omp.c` drive it: one master, any number of workers; the same against the program on the master |
| `Barrier`, `Reduction`, `ReductionTree` | `sync.h`: the reusable barrier, the global barrier with the all-to-all reduction, the reduction tree |
| `DataMover`, `DataMoverEnds`, `DataMoverCalls` | `dm.h`: the transfer ring and the waits on it; that steps are bounded; the same against the calls of the client |
| `Maxpool`, `MaxpoolLayer`, `MaxpoolTheorem`, `MaxpoolEnds` | the pooling kernel; the layer with its DMA core and compute cores; its addresses; its termination |
| `Frep`, `FrepExpansion`, `FrepInterleaving`, `FrepTiming`, `FrepOrigins` | `emul_seq` and the queues around it; what it reports for a program; in any interleaving; exactly when it succeeds; for traces of no program at all |
| `Ssr` | stream set-up and address generation |
| `Gemm`, `GemmStreams`, `GemmKernel`, `GemmAgreement`, `GemmRows`, `GemmSplit`, `GemmCluster` | the FP64 matrix multiplication: the triple loop; what the streams deliver; the streamed kernel; when the two agree; the rows split over the cores; the split against one kernel; the split against the triple loop, in any interleaving |
| `StaticSchedule` | `__kmpc_for_static_init_4` |
| `Leapfrog`, `PiEstimation` | the generator of `lcg.h`; the estimate of pi that draws from it |
| `BuildScheduler`, `BuildEnds`, `BuildHistory` | the two build lanes of `batch_run.py`; their termination; what becomes of every job |

## How it is modelled

- Machine words are integers with every reduction modulo 2^32 or 2^64 written out. A float is its bit pattern, and the
  number it stands for is an integer multiple of the smallest subnormal, so correct rounding (IEEE 754-2019 sections
  4.3.1 and 5.4.1) is stated without rational numbers: the midpoint of the result and any other finite number lies
  strictly on that other number's side of the exact root.
- Concurrent code is a state machine whose steps are single accesses to shared memory (or to a hardware register), in
  any interleaving, with sequentially consistent memory. Theorems are about every state of every run. History
  variables record what has been run, queued, started or taken. Where what happens has to be compared with what was
  asked for, a run comes with labels: who took each step, which call it made, what the hardware answered.
- Sequential code is a method or a class with the loops of the source; where several calls are related, the method is
  proved equal to a function and the lemmas are about that function.
- WFI returns only when an interrupt is pending (section 3.3.3 of the RISC-V privileged specification would also let it
  return early; the code does not allow for that). Every `eu_dispatch_push` is followed by `eu_run_empty`, as
  `parallelRegion` does. The data mover has one client hart, which makes its calls
  in any order. The pooling layer runs on one cluster. Counters stay below 2^32 except the barrier's `iteration`, which wraps.

## Where the code does not do what it might be taken to do

Each of these is proved, with the exact condition or a run that shows it.

- `dm_memcpy_async` says that it blocks if the queue is full. If the data mover has not been told to start, it blocks for
  good: `DataMover.StuckExactlyWhen`, `DataMover.FiveCopiesGetStuck`.
- `dm_wait_ready` does not wait until the request before it has been cleared. Called while the data mover is about to do
  that, it loses its own request and never returns: `DataMover.LostExactlyWhen`, `DataMover.LostForever`,
  `DataMover.ReadyAfterWaitIsLost`.
- `gemm_fp64_opt` tests BETA where the triple loop multiplies by it, computes the columns left over by the unrolling as if
  only B were transposed, and streams a transposed A with strides of its own: `GemmAgreement.KernelsAgreeIff`,
  `GemmAgreement.BetaIsOnlyTested`. It never writes the repetition register of the second data mover, which the
  convolution leaves above zero (sw/dnn/src/conv2d.h:627, 644 and 713), so that B is delivered too slowly:
  `GemmAgreement.KernelsAgreeIff`, `GemmAgreement.RepeatLeftOn`.
- `gemm` leaves the last rows of C alone when the number of cores does not divide the rows, and hands a transposed A out
  by rows all the same: `GemmCluster.ClusterAgreesIff` against the triple loop, `GemmSplit.SplitIsWholeIff` against one
  kernel, `GemmRows.GemmOnCluster`.
- The stride registers of the data mover drop the low three bits, so streams with other strides do not visit their loop
  nest: `Ssr.ReadFollowsSetUp`, `Ssr.HalfStrideStandsStill`.
- `maxpool_fp64` goes past its channels when the number of cores does not divide them: `Maxpool.SharesAreTheTileIff`.
- The unchunked static schedule adds the leftover to the loop variable without scaling it by the increment, and then
  drops the last iteration: `StaticSchedule.StaticPartitionsIff`, `StaticSchedule.LastIsDropped`. The last-iteration flag
  needs a loop that reaches its upper bound and, counting down, a thread for every iteration:
  `StaticSchedule.StaticLastFlagIff`, `StaticSchedule.NobodyIsMarked`. In chunked loops it needs a lower bound that is a
  multiple of the span: `StaticSchedule.ChunkedLastFlagIff`, `StaticSchedule.NoChunkIsMarked`.
- `snrt_global_reduction_dma` forwards source buffers at every level, not partial sums, and adds only as many items as
  the cores can share evenly. It is a sum at every position exactly for nothing to sum, one cluster, or two clusters
  with a length that the cores divide, in every order of transfers and additions: `ReductionTree.SumsIff`,
  `ReductionTree.NoOrderSums`, `ReductionTree.NineAmongEight`.
- The estimate of pi divides by all samples although the cores draw only a multiple of their number. It is four times the
  share of hits for every generator exactly when the cores divide the samples: `PiEstimation.EstimateIsAlwaysShareIff`,
  `PiEstimation.EstimateIsShareIff`, `PiEstimation.ThreeCores`.
- `eu_exit` calls `eu_run_empty` when there is no team rather than when there is one. It does no harm: there never is a
  team then, and the call returns at once: `EventUnit.ExitFindsNoTeam`.

## Model

| member | source | states |
|---|---|---|
| FixedPoint.Mul32Truncates | sw/math/src/math/sqrtf.c:8-11 | the product of two words scaled by 2^-32 is truncated, by less than one unit |
| FixedPoint.FirstStepFits | sw/math/src/math/sqrtf.c:50-53 | from a good seed, d is close enough to one that `three - d` does not wrap |
| FixedPoint.FirstStep | sw/math/src/math/sqrtf.c:50-58 | one step from a seed brings s*r within 2^-14 of one and keeps s and r in step with m, despite all truncations |
| FixedPoint.FirstStepNoWrap | sw/math/src/math/sqrtf.c:54-56 | doubling r and s after the first step does not wrap |
| FixedPoint.StepConverges | sw/math/src/math/sqrtf.c:48-59 | the error of a Goldschmidt step is quadratic in the error before it, plus the truncation losses |
| RsqrtTable.TableOk | sw/math/src/math/sqrt_data.c:2-19 | all 128 entries meet the seed bound at both ends of the interval of arguments they serve |
| RsqrtTable.SeedIsGood | sw/math/src/math/sqrtf.c:47-49 | the entry selected for any m is a good seed for that m, not only at the ends of the row |
| BinaryFormat.NearestIntIsNearestSqrt | sw/math/src/math/sqrtf.c:65-74 | the integer nearest to the scaled root, put at its exponent, is nearer to the exact root than any other finite number of the format, of whatever exponent |
| Rounding.PickNearest | sw/math/src/math/sqrtf.c:68-71 | the wrapping comparison picks the nearest integer to the root from a value within [-1/2, 3/2] of it |
| Sqrtf.LastStep | sw/math/src/math/sqrtf.c:58-61 | the last product is within 33 units of the scaled root |
| Sqrtf.ShiftedIsClose | sw/math/src/math/sqrtf.c:61-63 | dropping the guard bits leaves a value within [-1/2, 3/2] of the root |
| Sqrtf.Fields | sw/math/src/math/sqrtf.c:33-42 | the bit operations of the range reduction give m with the right parity, row and exponent, also for a wrapped ix |
| Sqrtf.NormalEncodes | sw/math/src/math/sqrtf.c:19-20 | a normal number is its own reduced argument |
| Sqrtf.SubnormalEncodes | sw/math/src/math/sqrtf.c:28-30 | normalising a subnormal preserves its value although the exponent field goes below zero and wraps |
| Sqrtf.Approximate | sw/math/src/math/sqrtf.c:44-63 | two steps in 32-bit arithmetic yield a 24-bit root within [-1/2, 3/2] of the exact one, with no intermediate wrapping |
| Sqrtf.Round | sw/math/src/math/sqrtf.c:65-71 | the result is the integer nearest to the root of m * 2^16 |
| Sqrtf.Significand | sw/math/src/math/sqrtf.c:44-71 | table, iteration and rounding together give that nearest integer for every m in the row |
| Sqrtf.RootOfReduced | sw/math/src/math/sqrtf.c:33-74 | from the reduced argument of any positive number to the bits of its correctly rounded root |
| Sqrtf.Sqrtf | sw/math/src/math/sqrtf.c:15-74 | for every positive finite single, normal or subnormal, the result is the correctly rounded square root; zeros and +infinity are returned, negative numbers and NaNs are invalid |
| Sqrt.Mul64Truncates | sw/math/src/math/sqrt.c:14-22 | `mul64` is the product scaled by 2^-64 less an error e with 0 <= e < 3, and does not overflow |
| Sqrt.NoWrapNearOne | sw/math/src/math/sqrt.c:113-125 | for the few m>>32 next to 2^30 the second doubling of r stays below 2^32, by evaluation |
| Sqrt.NoWrapAboveOne | sw/math/src/math/sqrt.c:124 | for all other m>>32 it does so by the error bound |
| Sqrt.SecondStep | sw/math/src/math/sqrt.c:122-125 | the second step leaves an r that is good enough for the switch to 64 bits |
| Sqrt.ResidueOfThirdStep | sw/math/src/math/sqrt.c:126-129 | r with 32 zero bits appended loses no accuracy the third step needs |
| Sqrt.LastStep | sw/math/src/math/sqrt.c:127-131 | the error of the last product in 64-bit arithmetic |
| Sqrt.Approximate32 | sw/math/src/math/sqrt.c:111-125 | the two 32-bit steps, for every m>>32 |
| Sqrt.Approximate64 | sw/math/src/math/sqrt.c:126-133 | the 64-bit step and the shift yield a 53-bit root within [-1/2, 3/2] of the exact one |
| Sqrt.SubnormalEncodes | sw/math/src/math/sqrt.c:39-42 | normalising a subnormal double preserves its value although `top` wraps |
| Sqrt.Round | sw/math/src/math/sqrt.c:141-144 | the result is the integer nearest to the root of m * 2^42 |
| Sqrt.Assemble | sw/math/src/math/sqrt.c:144-147 | the rounded significand never carries into the exponent, and the assembled bits are the correctly rounded root |
| Sqrt.Sqrt | sw/math/src/math/sqrt.c:24-147 | for every positive finite double the result is the correctly rounded square root; the other cases as for singles |
| EventUnit.RunInvariant | sw/snRuntime/src/omp/eu.h:62-66 | the inductive invariant tying every worker's position, counters and event record to the master's, in every reachable state |
| ForkJoin.ProgramIsRun | sw/snRuntime/src/omp/omp.h:160-175 | for every program of calls: after n of them and with no region under way, each hart has run the tasks of exactly those regions among the n whose team includes it, each once and in order; while one is under way, that one's task may be missing |
| ForkJoin.CallEnds | sw/snRuntime/src/omp/eu.h:213-301 | a call ends: without another one, master and workers together take at most 28 steps for each worker and 16 more, and when they can take none, `parallelRegion` has returned, or `eu_exit` has and every worker has left |
| ForkJoin.StepsAreBounded | sw/snRuntime/src/omp/eu.h:213-301 | in any run the steps of all harts are bounded by the calls made, start-up included |
| ForkJoin.ExitIsFinal | sw/snRuntime/src/omp/eu.h:183-190 | `eu_exit` is the last call of a program, and the master is in it from then on |
| EventUnit.NoTornEvent | sw/snRuntime/src/omp/eu.h:225-234 | the event record is never written while a worker may still read it, and a worker calls exactly the task that was dispatched |
| EventUnit.NoLostWakeup | sw/snRuntime/src/omp/eu.h:117-130 | interrupts are set only while every worker sleeps with its bit clear, so clearing after WFI erases no later wake |
| EventUnit.ExitFindsNoTeam | sw/snRuntime/src/omp/eu.h:183-185 | `eu_exit` always finds `nthreads` zero, and so does the `eu_run_empty` it calls, which returns at once |
| EventUnit.OnlyLeaving | sw/snRuntime/src/omp/eu.h:183-190 | after `eu_exit` every worker that has not left can step, reads no event, and sees the exit flag |
| EventUnit.WaitsEnd | sw/snRuntime/src/omp/eu.h:272-300 | from any reachable state and for any schedule, the workers take boundedly many steps while the master waits, and when none can step the wait is over, or all have left |
| EventUnit.StuckMeansReleased | sw/snRuntime/src/omp/omp.c:108-129 | no deadlock: with no worker able to step, the master's condition holds, in start-up, dispatch, join and exit alike |
| Barrier.Separates | sw/snRuntime/src/sync.h:105-119 | no hart leaves a round before all have entered it, and harts are at most one round apart, over unboundedly many rounds and across wraps of `iteration` |
| Barrier.ResetIsSafe | sw/snRuntime/src/sync.h:111-113 | while `cnt` is reset all other harts wait in the same round, so no arrival is lost |
| Barrier.SpinsForAReason | sw/snRuntime/src/sync.h:114-118 | a hart that cannot step waits for one that can, which has not entered the round or is about to release it |
| Barrier.NoneAhead | sw/snRuntime/src/sync.h:105-119 | counted by calls and returns: when a hart has returned from the barrier so many times, every hart has called it as many times |
| Barrier.StepsAreBounded | sw/snRuntime/src/sync.h:105-119 | a call takes at most five steps, not counting those of a hart that has nothing to do but spin |
| Barrier.AllReleased | sw/snRuntime/src/sync.h:105-119 | when those steps are used up, some hart has called no more often than every hart has returned: whoever waits, waits for that one |
| Reduction.ReturnsTheSum | sw/snRuntime/src/sync.h:93-97 | every core of every cluster returns the sum modulo 2^32 of all contributions |
| Reduction.GlobalBarrier | sw/snRuntime/src/sync.h:70-91 | no core leaves the two-level barrier before every core of every cluster has entered it |
| Reduction.NotStuck | sw/snRuntime/src/sync.h:70-97 | a state in which no core can step is one in which all have returned |
| Reduction.ReductionEnds | sw/snRuntime/src/sync.h:70-97 | in whatever order they are scheduled, the cores take at most ten steps each, so that by `NotStuck` all return |
| ReductionTree.SendsAtItsLevel | sw/snRuntime/src/sync.h:139-149 | every cluster but the first is an active sender at exactly one level |
| ReductionTree.SendsInTime | sw/snRuntime/src/sync.h:138-139 | ceil(log2 n) levels suffice for that |
| ReductionTree.ReceiverReceives | sw/snRuntime/src/sync.h:149-152 | the receiver is in range, active at that level, no sender, and receives from one cluster only |
| ReductionTree.GlobalReductionDma | sw/snRuntime/src/sync.h:127-179 | level after level, the whole destination buffer of cluster 0: what the last sender sent, plus its own contribution where a core adds it |
| ReductionTree.OutcomesExactly | sw/snRuntime/src/sync.h:138-179 | exactly which values the orders of transfers and additions that the barriers allow leave at a position of cluster 0: the contribution sent at any one level, plus its own once for each level from that one or the one before on; without additions, the one sent last |
| ReductionTree.OnlyOneArrives | sw/snRuntime/src/sync.h:138-179 | so a single contribution besides multiples of its own reaches each position of cluster 0 |
| ReductionTree.OutcomeMayEnd | sw/snRuntime/src/sync.h:138-179 | what the levels leave one after the other is among what those orders leave |
| ReductionTree.NoOrderSums | sw/snRuntime/src/sync.h:138-179 | with three clusters or more no order leaves the sum of ones, at any position |
| ReductionTree.SumsIff | sw/snRuntime/src/sync.h:127-179 | every order leaves the sum of all contributions at every position, for all contributions, exactly for a length of zero, one cluster, or two clusters with a length that the cores divide |
| ReductionTree.NineAmongEight | sw/snRuntime/src/sync.h:165-172 | two clusters of eight cores and nine items: the last item of cluster 0 is what cluster 1 sent |
| DataMoverCalls.CopiesInOrder | sw/snRuntime/src/dm.h:261-333 | a FIFO of the client's calls: the copies asked for so far, of both kinds and with all their parameters, are those started, in order and each once, then those in the ring, then the one being written |
| DataMoverCalls.NeverBlocks | sw/snRuntime/src/dm.h:183-202 | a transfer is started only when the DMA has said, since the one before was started, that it would not block |
| DataMover.NoRaceOnSlots | sw/snRuntime/src/dm.h:274-284 | the DM core never reads the slot the client is writing |
| DataMoverCalls.CallIs | sw/snRuntime/src/dm.h:261-385 | until a call returns, the client is in it and in no other |
| DataMoverCalls.StartIsHonoured | sw/snRuntime/src/dm.h:335-339 | once `dm_start` has returned, whatever the client does then: the copies asked for before it have been started, or the DM core can go on and has taken less than a hundred steps since, not counting those in which the DMA would block |
| DataMoverCalls.WaitIsOver | sw/snRuntime/src/dm.h:345-370 | when `dm_wait` returns, exactly the copies asked for before it have been started, and the DMA has answered since the last of them that it is idle |
| DataMover.StuckExactlyWhen | sw/snRuntime/src/dm.h:132-143 | both sides are stuck exactly when the DM core sleeps untold and the client polls a full queue or waits for the answer to a lost request; no wakeup is lost otherwise |
| DataMover.FiveCopiesGetStuck | sw/snRuntime/src/dm.h:261-287 | the first of these states is reached by five copies before the first start |
| DataMover.LostExactlyWhen | sw/snRuntime/src/dm.h:376-384 | a request is lost exactly when it is put between the answer to the request before and the clearing of that one, and only by `dm_wait_ready` |
| DataMover.LostForever | sw/snRuntime/src/dm.h:381-382 | once its request is lost, `dm_wait_ready` never returns |
| DataMover.CautiousNeverLoses | sw/snRuntime/src/dm.h:376-384 | no request is lost if `dm_wait_ready` is called only before any other request |
| DataMover.ReadyAfterWaitIsLost | sw/snRuntime/src/dm.h:212-222 | `dm_wait` followed by `dm_wait_ready` can end with both sides stuck |
| DataMoverEnds.StepsAreBounded | sw/snRuntime/src/dm.h:166-233 | from any reachable state and for any schedule, both cores take boundedly many steps within a call, and ten more for each time the DMA is not ready |
| DataMoverCalls.OnlyTwoGetStuck | sw/snRuntime/src/dm.h:261-385 | when those steps are used up, a call that has not returned is a copy that finds the ring full with no start before, or a `dm_wait_ready` that has lost its request; so `dm_wait` and `dm_start` always return |
| Maxpool.ScanIsMaximum | sw/dnn/src/maxpool.h:21-29 | the value kept by strict comparison, starting from the first element, bounds all elements scanned and is one of them |
| Maxpool.ChannelMax | sw/dnn/src/maxpool.h:21-29 | the two filter loops scan the whole window of one channel |
| Maxpool.MaxpoolFp64 | sw/dnn/src/maxpool.h:17-31 | a core writes the scan of each of its channels, every cores-th one from its own on, and no other element, for any number of channels and cores |
| Maxpool.SharesAreTheTileIff | sw/dnn/src/maxpool.h:20 | each channel of the tile is taken by the core of its residue; no core goes past the tile exactly when the cores divide the channels |
| MaxpoolLayer.RunInvariant | sw/dnn/src/maxpool.h:57-135 | in every interleaving, what has arrived in each half of the input buffer, what has been pooled in each half of the output buffer, and what has been stored |
| MaxpoolLayer.FinishedMeansPooled | sw/dnn/src/maxpool.h:57-135 | when the DMA core is done, every channel of every step is in the output memory |
| MaxpoolLayer.LoadsAreDisjoint | sw/dnn/src/maxpool.h:63-89 | a load in flight and the element a core reads are in different halves of the input buffer, and in bounds |
| MaxpoolLayer.StoresAreDisjoint | sw/dnn/src/maxpool.h:91-116 | a store in flight and the element a core works on are in different halves of the output buffer, and in bounds |
| MaxpoolLayer.CoresAreDisjoint | sw/dnn/src/maxpool.h:112-117 | two cores never work on the same output element |
| MaxpoolLayer.NotStuck | sw/dnn/src/maxpool.h:86-124 | unless everything is finished, some core or the DMA can go on: the barriers match |
| MaxpoolEnds.LayerEnds | sw/dnn/src/maxpool.h:57-135 | every transition uses up work, so every schedule ends |
| MaxpoolTheorem.LoadsWindow | sw/dnn/src/maxpool.h:64-85 | both kinds of transfer put each pixel and channel of the window where the kernel looks for it |
| MaxpoolTheorem.StoresInPlace | sw/dnn/src/maxpool.h:92-107 | the address computed from the saved indices is that of the step being stored |
| MaxpoolTheorem.LayerIsMaxPooling | sw/dnn/src/maxpool.h:33-135 | however the cores interleave, each output is an upper bound of its window in the input map and an element of it |
| Frep.Sequencer.Offload | util/trace/gen_trace.py:660-665 | the queues after the core offloads an instruction |
| Frep.Sequencer.CbufPush | util/trace/gen_trace.py:671-676 | the queues after a configuration is accepted, paired with the oldest FREP not yet accepted; without one it stays queued and the pairing fails |
| Frep.Sequencer.EmulSeq | util/trace/gen_trace.py:395-453 | the state and result of one call are those of the transition function the theorems are about, with its underflow, nesting and missing-pc errors |
| Frep.Sequencer.Replicate | util/trace/gen_trace.py:423-443 | the replication loops fill the buffers as their recursive description does |
| FrepExpansion.Position | util/trace/gen_trace.py:423-441 | which repetition and which instruction issue t of an outer or inner loop is |
| FrepExpansion.LoopStep | util/trace/gen_trace.py:412-449 | a call within a loop issues the next element of the expansion and keeps the buffers equal to what is left of it |
| FrepExpansion.OnlyLastEnds | util/trace/gen_trace.py:447-449 | the tag that ends a loop occurs at its last issue and nowhere else |
| FrepExpansion.EmulatesProgram | util/trace/gen_trace.py:395-453 | with everything queued, the calls emit the expansion of the program with its tags and sections, (max_inst+1)(max_rpt+1) issues per FREP, and return to idle |
| FrepInterleaving.CfgsArePaired | util/trace/gen_trace.py:664-676 | configurations are paired with the FREPs of the program in order |
| FrepInterleaving.PendingFreps | util/trace/gen_trace.py:660-676 | the FREPs not yet accepted are the last ones offloaded |
| FrepInterleaving.EmulIsLocal | util/trace/gen_trace.py:395-453 | a call that succeeds does not depend on what is queued later |
| FrepInterleaving.ReplayAnticipates | util/trace/gen_trace.py:653-692 | the issues of any interleaving are those with everything queued beforehand |
| FrepTiming.EmulNeeds | util/trace/gen_trace.py:395-453 | a call that would succeed with more queued succeeds already exactly when what it takes out of the queues is there: one instruction while the loop body is filling, none after that |
| FrepTiming.EmulatesTraceIff | util/trace/gen_trace.py:653-692 | for any trace of a program: no line fails exactly when each issue comes after the instructions and the configuration it needs, counted from the program, and each configuration after its FREP; then the issues are the first ones of the expansion, and after the last one all queues are empty |
| FrepOrigins.IssuesHaveOrigins | util/trace/gen_trace.py:395-453 | for any trace whatever, unless permissive: every issue reported is of an offloaded instruction that is no FREP, and names within a loop an offloaded FREP |
| FrepOrigins.InnerFrepIsIssued | util/trace/gen_trace.py:414-422 | a nested FREP is refused, and when permissive reported as if it were an instruction |
| FrepInterleaving.AnnotateLine | util/trace/gen_trace.py:653-692 | one trace line changes the sequencer as its transition function says |
| FrepInterleaving.Annotate | util/trace/gen_trace.py:653-692 | the loop over the lines yields the replay those theorems speak of, up to the first failing line |
| Ssr.RankInjective | sw/snRuntime/src/ssr.h:117-137 | positions of a loop nest are told apart by their place in lexicographic order |
| Ssr.SelectedIsRelative | sw/snRuntime/src/ssr.h:128-136 | up to the bits the register drops, the relative stride of the loop that advances makes up, modulo 2^32, for the loops that start over |
| Ssr.StreamVisitsNest | sw/snRuntime/src/ssr.h:117-137 | for all bounds of at least one and all strides of whole doubles, element n of a stream is at base plus the sum of index times stride modulo 2^32, for the n-th index tuple in lexicographic order, repeated as configured |
| Ssr.InnerStreamVisitsNest | sw/snRuntime/src/ssr.h:96-111 | the same for a set-up of fewer loops, whatever the outer registers hold |
| Ssr.VisitsIffAligned | hw/snitch_ssr/src/snitch_ssr_addr_gen.sv:303-307 | for any strides: a stream visits its loop nest exactly when every loop of more than one iteration has a stride of whole doubles |
| Ssr.ReadFollowsSetUp | sw/snRuntime/src/ssr.h:73-148 | the same from the registers a set-up function writes to the stream a read starts |
| Ssr.ReadEnds | sw/snRuntime/src/ssr.h:145-148 | a stream read with n loops comes to the end of all its loops after exactly the product of the n bounds, times the repetitions, whatever the outer registers hold |
| Ssr.HalfStrideStandsStill | hw/snitch_ssr/src/snitch_ssr_addr_gen.sv:307 | a loop of two with a stride of four bytes delivers the base address twice |
| Ssr.DataMover.Loop1d | sw/snRuntime/src/ssr.h:73-79 | the registers written, the outer ones unchanged |
| Ssr.DataMover.Loop2d | sw/snRuntime/src/ssr.h:82-93 | as above, with the distance covered accumulated modulo 2^32 |
| Ssr.DataMover.Loop3d | sw/snRuntime/src/ssr.h:96-111 | as above |
| Ssr.DataMover.Loop4d | sw/snRuntime/src/ssr.h:117-137 | as above |
| Ssr.DataMover.Repeat | sw/snRuntime/src/ssr.h:140-142 | the repetition register |
| Ssr.DataMover.Read | sw/snRuntime/src/ssr.h:145-148 | a read starts a stream with the registers as they are |
| Ssr.DataMover.Pop | hw/snitch_ssr/src/snitch_ssr_addr_gen.sv:284-400 | taking an element yields the pointer and advances it by the stride of the outermost loop that changes |
| Gemm.GemmFp64Baseline | sw/blas/gemm/src/gemm.h:24-68 | in all four layouts, every element of C in the block becomes beta times itself plus the sum of products, every other element stays |
| GemmStreams.TurnsInOrder | sw/blas/gemm/src/gemm.h:121-173 | the loops of the kernel take stream elements in order, without a gap |
| GemmStreams.StreamA | sw/blas/gemm/src/gemm.h:79-96 | the first stream delivers each element of A for eight consecutive turns, although its fourth loop is never set up; which element that is, in either layout |
| GemmStreams.StreamB | sw/blas/gemm/src/gemm.h:98-113 | for any repetition count, the second stream delivers the element of B, in either layout, that comes at the turn divided by the count; the one each turn needs, if the count is one |
| GemmKernel.FrepBlock | sw/blas/gemm/src/gemm.h:147-161 | the repeated body adds all products of eight columns to their own accumulators |
| GemmKernel.GemmFp64Opt | sw/blas/gemm/src/gemm.h:70-195 | every element of C after the streamed kernel, for any BETA, with blocks and leftover columns as the code treats them, whatever the registers of the data movers hold, set up by this call or an earlier one |
| GemmAgreement.BetaIsOnlyTested | sw/blas/gemm/src/gemm.h:126-146 | with BETA of two or more and A zero the kernel leaves ones where the triple loop leaves BETA |
| GemmAgreement.BetaOfTwo | sw/blas/gemm/src/gemm.h:126-146 | the instance with one row, eight columns and BETA two |
| GemmAgreement.KernelsAgreeIff | sw/blas/gemm/src/gemm.h:70-195 | the kernels agree on all matrices exactly when there is nothing to compute, or BETA is zero or one and both the blocks and the leftover columns find the elements the triple loop finds, for A and B in either layout and any repetition count left in the second data mover |
| GemmAgreement.RepeatLeftOn | sw/blas/gemm/src/gemm.h:87-113 | one row, eight columns, one product and a repetition count of eight: the kernel leaves 0 where the triple loop leaves 1 |
| GemmRows.RowsAreDisjoint | sw/blas/gemm/src/gemm.h:895-907 | no row of C is computed by two cores |
| GemmRows.RowIsCovered | sw/blas/gemm/src/gemm.h:895-907 | a row is computed exactly when it lies below the last multiple of the number of cores |
| GemmRows.GemmOnCluster | sw/blas/gemm/src/gemm.h:891-914 | in whatever order the cores run the kernel on their shares, and whatever their data movers hold before, each element of C becomes what the core of its row computes from its own pointers, and every other element stays, the last rows among them |
| GemmSplit.ShareComputesRow | sw/blas/gemm/src/gemm.h:898-913 | what a core computes from its own pointers and leading dimensions is the row of the whole product |
| GemmSplit.SplitIsFullIff | sw/blas/gemm/src/gemm.h:891-914 | with data movers that repeat nothing, those contents are what the kernel on the whole shape leaves in the rows below the last multiple, exactly when nothing is computed, A is stored by rows, no block is streamed, there is one core, or each core has one row of a single product at a leading dimension of eight |
| GemmSplit.SplitIsWholeIff | sw/blas/gemm/src/gemm.h:891-914 | the cores together compute what one kernel computes on the whole shape, exactly when they also divide the rows |
| GemmCluster.ClusterAgreesIff | sw/blas/gemm/src/gemm.h:891-914 | the cores together leave what the triple loop leaves on the whole shape, for all matrices, exactly when there is nothing to compute, or the cores divide the rows and every core's share is one its kernel gets right |
| GemmCluster.AnyInterleaving | sw/blas/gemm/src/gemm.h:891-914 | however the loads and stores of C by the cores interleave, C ends as it does when the cores run one after the other |
| GemmCluster.AccessesEnd | sw/blas/gemm/src/gemm.h:891-914 | the cores make at most two accesses to each element of C, and until they have finished one of them can make another |
| StaticSchedule.LoopVariables.ForStaticInit4 | sw/snRuntime/src/omp/kmp.c:233-294 | the variables passed by reference become the share the lemmas are about, for all bounds |
| StaticSchedule.NothingToRunIff | sw/snRuntime/src/omp/kmp.c:243-283 | of a loop without iterations no thread gets any exactly when the upper bound is at least one and less than two increments behind the lower one |
| StaticSchedule.StaticRuns | sw/snRuntime/src/omp/kmp.c:268-283 | which values a thread runs: a contiguous block, one more for the first threads, of the loop moved back by what the leftover lacks |
| StaticSchedule.StaticPartitionsIff | sw/snRuntime/src/omp/kmp.c:268-283 | every iteration is run by exactly one thread exactly when the increment is one, or nothing is left over, or there are fewer iterations than threads, for increments of either sign |
| StaticSchedule.LastIsDropped | sw/snRuntime/src/omp/kmp.c:268-283 | 0 to 9 in steps of two on two threads: the second thread runs 5 and 7, and nobody runs 8 |
| StaticSchedule.StaticLastFlagIff | sw/snRuntime/src/omp/kmp.c:281-282 | exactly one thread runs the last iteration, and it and no other has the flag, exactly when the loop reaches its upper bound and either counts up with a harmless leftover or counts down with a thread for every iteration |
| StaticSchedule.NobodyIsMarked | sw/snRuntime/src/omp/kmp.c:281-282 | one thread alone with 0 to 9 in steps of two, or with 9 down to 0, runs all of it and has no flag |
| StaticSchedule.StaticLastFlag | sw/snRuntime/src/omp/kmp.c:281-282 | with increment one, the flag is set for the thread that runs the last iteration and no other |
| StaticSchedule.ChunkedRuns | sw/snRuntime/src/omp/kmp.c:257-262 | iteration j is run by thread (j/chunk) mod n, in round (j/chunk)/n, and by no other (section 2.7.1 of OpenMP 4.5) |
| StaticSchedule.ChunkedLastFlag | sw/snRuntime/src/omp/kmp.c:263-264 | which thread gets the flag, for all bounds of either sign |
| StaticSchedule.ChunkedLastFlagIff | sw/snRuntime/src/omp/kmp.c:263-264 | the flag marks the thread of the last iteration exactly when the lower bound is a multiple of the span and rounding the upper bound is not upset by its sign |
| StaticSchedule.NoChunkIsMarked | sw/snRuntime/src/omp/kmp.c:263-264 | 1 to 8 in chunks of two on two threads: the second runs the last iteration, and nobody has the flag |
| Leapfrog.LeapfrogConstants | sw/apps/prng/lcg.h:20-35 | the constants advance the generator n steps at once, from every value |
| Leapfrog.RightSeed | sw/apps/prng/lcg.h:38-45 | the seed is that element of the base sequence |
| Leapfrog.DrawIsBase | sw/apps/montecarlo/pi_estimation/pi_estimation.h:19-23 | draw i of stream s on a core is element 2P*i + 2*core + s of the base sequence |
| Leapfrog.DrawnExactlyOnce | sw/apps/montecarlo/pi_estimation/main.c:20-25 | the first n draws of all streams are at the first 2P*n places of the base sequence, each once |
| PiEstimation.HitByWords | sw/apps/montecarlo/pi_estimation/pi_estimation.h:19-25 | for any test that is right off the edge, and words whose squares do not add up to within 2^14 of 2^64: a hit exactly when they add up to less than 2^64 |
| PiEstimation.CalculatePartialSum | sw/apps/montecarlo/pi_estimation/pi_estimation.h:11-30 | the hits among the pairs drawn from the two streams, for whatever test of a point the roundings amount to |
| PiEstimation.HitsBetween | sw/apps/montecarlo/pi_estimation/pi_estimation.h:19-25 | the hits among the first pairs of the base sequence are no fewer than the pairs below 2^64 - 2^14 and no more than those below 2^64 + 2^14 |
| PiEstimation.PartialSumOnCore | sw/apps/montecarlo/pi_estimation/main.c:20-37 | with its seeds and the leapfrog constants a core counts the hits among every P-th pair of the base sequence, from its own on |
| PiEstimation.StreamsAreThePrefix | sw/apps/montecarlo/pi_estimation/main.c:34-48 | summed over all cores, whatever is counted along the streams is what is counted along the base sequence |
| PiEstimation.EstimatePi | sw/apps/montecarlo/pi_estimation/main.c:25-51 | the sum is what a single core counts on the first pairs of the base sequence, as many as a multiple of the number of cores; with a test right off the edge it lies between the pairs whose squares add up to less than 2^64 - 2^14 and less than 2^64 + 2^14; four times it over the samples is returned |
| PiEstimation.EstimateIsShareIff | sw/apps/montecarlo/pi_estimation/main.c:33-51 | for one generator, the estimate is four times the share of hits among the points drawn exactly when the cores divide the samples, or points were drawn and none was a hit |
| PiEstimation.EstimateIsAlwaysShareIff | sw/apps/montecarlo/pi_estimation/main.c:33-51 | it is so for every generator exactly when the cores divide the samples |
| PiEstimation.ThreeCores | sw/apps/montecarlo/pi_estimation/main.c:15-51 | 1024 samples on three cores, all points drawn hits: the estimate is not four |
| PiEstimation.AllDrawsAreThePrefix | sw/apps/prng/lcg.h:57-63 | all draws of all cores together are the first 2P*n elements of the base sequence: every value occurs as often |
| BuildScheduler.Classify | scripts/batch_run.py:765-777 | the pool gets the cached and ready jobs, the datagen lane the others, in order |
| BuildScheduler.RunInvariant | scripts/batch_run.py:669-799 | the inductive invariant over queues, workers, locks, elfs and simulations, with an abort at any moment |
| BuildScheduler.SimsRunTheirOwnElf | scripts/batch_run.py:736-744 | a simulation runs the elf built from its own job, although all jobs of an app share one output file |
| BuildScheduler.BuildsExclude | scripts/batch_run.py:554-556 | builds of one app exclude each other, and at most one build generates data |
| BuildScheduler.BuildsStartClean | scripts/batch_run.py:594 | while a job is being built there is no elf of its app, not even one of an earlier job |
| BuildScheduler.BoundedSims | scripts/batch_run.py:679-696 | at most max_parallel simulations run at once |
| BuildScheduler.TakenExactlyOnce | scripts/batch_run.py:759-799 | no job is taken twice, and when all workers have left every job has been taken, unless the batch was aborted |
| BuildHistory.EveryJobIsDone | scripts/batch_run.py:717-757 | when everything is finished and nothing was aborted, every cached job has been run once on the model and nothing else; every other job has been built once and then, unless the build failed, simulated once from start to end |
| BuildHistory.TakenInOrder | scripts/batch_run.py:759-799 | each lane's jobs are taken in its order |
| BuildHistory.NothingLeftStaged | scripts/batch_run.py:679-713 | when everything is finished, aborted or not, every staged elf has been deleted |
| BuildScheduler.NothingStartsAfterAbort | scripts/batch_run.py:722-790 | after an abort no job is taken, no build started and no simulation run any more |
| BuildScheduler.NotStuck | scripts/batch_run.py:717-799 | until everything is finished something can be done |
| BuildEnds.SchedulerEnds | scripts/batch_run.py:669-799 | every transition uses up work: at most nine for each job, one for each worker and one for an abort |
| BuildEnds.LastIsFinished | scripts/batch_run.py:759-799 | so a run that cannot go on has finished: all workers have left and all simulations have ended |

## Left out

- The floating-point environment tail of the square roots (adding `tiny`), and the payload of NaNs: they matter for flags only.
- The global-interrupt variants of `eu.h` and `dm.h`, printing, and the fixed-size team configuration.
- Weak memory: the atomics are relaxed, the model is sequentially consistent.
- `dm_exit`, and several data mover clients (the full-queue test is outside the lock): the code gives no guarantee for these.
- `snrt_global_all_to_all_reduction` more than once per run: nothing resets the accumulator.
- Maxpool.MaxpoolFp64: the double re-reading of an element when it becomes the maximum is one read; the elements are stable between barriers. Elements are real numbers, so NaNs are not modelled.
- MaxpoolLayer.FinishedMeansPooled: the tile loop and the channel loop are one step counter, and the kernel appears in the layer as its single reads and writes; tiles over several clusters are not modelled, since the code indexes channels by the global core number.
- GemmKernel.GemmFp64Opt: sums and products are exact, so fused and separate rounding are the same; the eight loads and stores of the source are loops here, and indices into C do not wrap; aliasing of C with A or B is not modelled. With K of zero the repetition count wraps; the kernel is modelled for K of at least one. Streams that an earlier call has left running (with fewer than eight columns it starts streams and takes nothing from them, and a fourth loop bound or a repetition count can leave elements behind) are not part of "exactly when": every call finds the data movers with no stream running.
- GemmRows.GemmOnCluster: the method runs the cores one after the other, in any order; `GemmCluster.AnyInterleaving` is about the order of their accesses to C. The parameter `alpha` of `gemm` is not used by the code.
- GemmSplit.SplitIsFullIff: no data mover repeats elements; `GemmCluster.ClusterAgreesIff` is about any repetition counts.
- The single, half and quarter precision kernels, and the other network layers.
- Ssr.DataMover.Read: a stream is started from its first position; the shadow registers that hold back a stream while another is running are not modelled, nor are pointers and loop counters narrower than 32 bits.
- StaticSchedule.LoopVariables.ForStaticInit4: quantities are exact where the source has 32 bits, except the loop size of a loop without iterations, which wraps as an unsigned number.
- Frep.Sequencer.EmulSeq: staggering masks are not used by the emulator; of what the permissive mode makes of nested FREPs only an instance is stated.
- ReductionTree.GlobalReductionDma: only what is left in cluster 0 is stated; elements are integers, so rounding is not modelled.
- PiEstimation.CalculatePartialSum: which points next to the circle the roundings of double precision let in is not modelled: the test of a point is any one, and where it matters any one that is right for all points not within 2^-50 of the circle. Counts stay below 2^30; the data-mover core also calls the function, to no effect on the sum.
- BuildScheduler.RunInvariant: the processes and files themselves; whether a build succeeds is arbitrary, so a build that times out is one that fails, and a simulation that times out one that ends, with its run of the model part of it. The abort flag is read in the same step as what follows it.
- The order in which builds are interleaved across apps, regression scripts, reports and plots.
