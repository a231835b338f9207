# Verified model of the Ascend serving stack's hard core

A Dafny model of the parts of this repository whose behaviour is hardest to see by reading one
function: the device matching of Mooncake's topology script, and in vllm-ascend the choice of the
MoE collective on ranks that do not talk to each other, the padding and the shared mask of a forward
context, the bookkeeping of prefill dispatch, the CPU allocator, the compressed KV positions, the
sampling of ACL graph sizes, the NZ layouts, contiguous axes, the FLASHCOMM2 batch ids, and the
snapshot-and-restore tool for QoS registers; in Mooncake also the lazily probed allocator shared by
threads. `dafny verify dfyconfig.toml` (Dafny 4.11) checks the whole project.

Code that computes by expressions is modelled by functions, code that updates variables, arrays or
object fields by methods and classes, each method tied by its postcondition to a specification
function, and the lemmas are about those functions. Exceptions of the original are results: `None`
or `Err`. Latencies and normalised costs are exact reals, quotients inside `floor`, `ceil` and
`round` exact rationals. What the program asks of the outside is a parameter: the assignment solver
(its contract is `Assignment.SolvesAssignment`, and `SolverExists` shows it can be met), the notify
collective (`Dispatch.Notified`), which register getters work, what `npu-smi`, `/proc` and the JSON
files say, and what a fabric probe returns.

| file | what it models |
|---|---|
| `Text`, `Arith`, `Seqs`, `Ints`, `Dict` | decimal text, splitting and joining; quotients; positions and ranges; sorted lists; insertion-ordered dictionaries and JSON |
| `Assignment`, `Topology`, `HostPair` | padded min-cost assignment as a matching, one partition group, one host pair |
| `MoeComm`, `ForwardContext` | collective agreement across data-parallel ranks; padding and the shared MC2 mask |
| `Dispatch` | sender ranks and receiver prefix sums of prefill dispatch |
| `CpuSlices`, `CpuPools`, `SharedHost`, `Devices`, `CpuAlloc`, `CpuText` | slices and roles, pools of one process, all processes of a host, the NPU lists a process reads, the allocator object, CPU text forms |
| `Compressed` | compressed positions: vector formula, loop, whole runs |
| `GraphSizes`, `NzLayout`, `Flashcomm2`, `Strides` | graph-size sampling, NZ tilings, batch ids, contiguous axes |
| `QosState`, `QosTool`, `QosRuns`, `QosCommands` | registers and records, apply and unset, whole runs, the command object |
| `LazyProbe` | probe and allocators as interleaved thread steps |

## Properties that do not hold as one might expect

Each has a lemma at a concrete input and the exact condition under which the property does hold.

- Matching: filtering out the 1e9 sentinel keeps the most pairs on every latency table of n rows
  within [lo, hi] exactly when n <= 1 or n * (hi - lo) + lo < 1e9 (`SpreadBoundIsExact`). Losing
  inputs are the tables of `PathLosesAPair` and the three endpoints of `WideInstance`.
- MoE, first-generation runner: with the recompute scheduler the all-reduce is skipped although
  prefill does not need MC2, and ranks can pick different collectives (`RecomputeCanSplit`, exact in
  `TargetRanksAgree`); on decode batches they never do (`DecodeRanksAgree`). Draft ranks can split as well (`DraftCanSplit`, `DraftRanksAgree`).
- MoE, second-generation runner: the choice reads the rank's own count even when counts were
  compared, so eager ranks can split (`EagerRanksCanSplit`, exact in `EagerRanksAgreeWhen`).
- Padding: when the all-reduce is skipped each rank rounds its own count, so ranks with flash-comm on
  reach different padded lengths (`SkippingSplitsLengths`, exact in `RanksAgreeOnLength`).
- Mask: two writes of the one reserved buffer interfere unless they agree on the tokens both slices
  cover (`InnerOverwrites`, exact in `OuterMaskSurvives`). This is a property of the buffer: no
  caller in the repository enters one forward context inside another.
- CPU pools in topology mode: a CPU listed twice in an affinity list can go to two NPUs
  (`RepeatedCpuIsShared`; shares are disjoint exactly when no repeated CPU straddles a cut,
  `SamePoolIsSplit`), and NPUs on neighbouring nodes are both given the later node
  (`NeighboursShareANode`). No two processes of a host share a CPU exactly when extended pools that
  differ are disjoint and the others are cut cleanly (`HostExclusiveWhen`, and `HostExclusiveByReach`
  in terms of affinities and nodes).
- QoS: a device whose bandwidth or fuse getter fails is captured again by every apply, so unset does
  not go back to the beginning (`SecondApplyForgets`, exact in `RestoredExactlyWhen`).
- Graph sizes: when exactly one size fits, the step is a division by zero, and when none fits the
  first index does not exist (`OneSizeFails`, `NoSizeFails`, exact in `UpdateMeansBudget`).
- Probe: a call that waits for the lock while another thread publishes the probe returns None
  (`SecondThreadGetsNone`; exactly those calls do, `OneProbe`).
- Axes: an axis of length one can go unflagged in a tensor that is laid out contiguously
  (`UnitAxisUnflagged`, exact in `RowMajorExactlyWhen`).

## Model

| member | source | states |
|---|---|---|
| `Assignment.ScalingKeepsMinimum` | Mooncake/scripts/generate_cluster_topology.py:180-184 | an optimal assignment of the normalised costs is optimal for the costs themselves |
| `Assignment.Extend` | Mooncake/scripts/generate_cluster_topology.py:158-174 | every matching of measured pairs extends to a permutation of the padded square at no more than its cost with sentinels |
| `Assignment.FilteredIsBest` | Mooncake/scripts/generate_cluster_topology.py:158-193 | an optimal assignment with the sentinel entries dropped matches at least as many pairs as any matching, and at least total latency among those with as many |
| `Assignment.SpreadBoundIsExact` | Mooncake/scripts/generate_cluster_topology.py:165-193 | no optimal assignment loses a pair, on any table of n rows within [lo, hi], if and only if one sentinel outweighs the spread of n latencies |
| `Assignment.PathLosesAPair` | Mooncake/scripts/generate_cluster_topology.py:165-193 | outside that bound, a table in which all n pairs can be matched and an optimal assignment falls on fewer: row i reaches column i dearly and column i + 1 cheaply |
| `Assignment.SolverExists` | Mooncake/scripts/generate_cluster_topology.py:184 | the contract taken for linear_sum_assignment can be met |
| `Topology.BeforeIs` | Mooncake/scripts/generate_cluster_topology.py:155-156 | names are ordered by characters: a proper beginning, or smaller at the first difference |
| `Topology.DevicesInOrder` | Mooncake/scripts/generate_cluster_topology.py:155-156 | the device lists are strictly increasing in that order |
| `Topology.FillTables` | Mooncake/scripts/generate_cluster_topology.py:155-174 | the cost table holds the last measurement of each device pair and the sentinel elsewhere, the valid table marks exactly the measured cells, the latency map holds their endpoints |
| `Topology.NormalisedInUnit` | Mooncake/scripts/generate_cluster_topology.py:180-182 | the normalised costs lie in [0, 1) |
| `Topology.LeastBecomesZero` | Mooncake/scripts/generate_cluster_topology.py:180-182 | the least cost becomes 0 |
| `Topology.AssignColumns` | Mooncake/scripts/generate_cluster_topology.py:176-184 | normalising and solving gives columns of least total cost in the original table |
| `Topology.CollectMatched` | Mooncake/scripts/generate_cluster_topology.py:186-193 | partial mode returns the measured pairs of the assignment in row order; complete mode the same if every pair is measured and nothing otherwise |
| `Topology.PicksAreBest` | Mooncake/scripts/generate_cluster_topology.py:184-193 | with comparable latencies the pairs picked are a maximum matching of least total latency |
| `Topology.PicksAreCheapest` | Mooncake/scripts/generate_cluster_topology.py:165-193 | whatever the spread, the pairs picked have the least latency plus one sentinel per unmatched row among all matchings |
| `Topology.WideLosesAPair` | Mooncake/scripts/generate_cluster_topology.py:154-193 | two sources and two destinations whose complete matching costs more than the cheap pair and a sentinel: partial mode keeps at most one pair and complete mode none, for every optimal assignment |
| `Topology.WideInstance` | Mooncake/scripts/generate_cluster_topology.py:154-193 | three concrete endpoints lose a pair in every result of the group, and some result exists |
| `Topology.SolvedBySome` | Mooncake/scripts/generate_cluster_topology.py:184-193 | every group of finite endpoints has a result from an optimal assignment |
| `Topology.AssignGroup` | Mooncake/scripts/generate_cluster_topology.py:154-193 | the result of a group is what the pass over some optimal assignment of the padded costs appends |
| `Topology.SolvePartitionGroup` | Mooncake/scripts/generate_cluster_topology.py:154-193 | the result is a matching; complete mode covers all devices or is empty; with comparable latencies partial mode is a maximum matching of least latency and complete mode is non-empty exactly when a perfect matching exists |
| `HostPair.KeysDoNotCollide` | Mooncake/scripts/generate_cluster_topology.py:149-211 | a partition key names one pair of NUMA nodes and no plain key is another partition's extra key |
| `HostPair.KeyReads` | Mooncake/scripts/generate_cluster_topology.py:149 | the key is the source node, a dash and the destination node |
| `HostPair.PartitionMembers` | Mooncake/scripts/generate_cluster_topology.py:144-151 | the partition of a source and a destination node holds exactly the endpoints of finite latency between them |
| `HostPair.GroupOfParts` | Mooncake/scripts/generate_cluster_topology.py:144-151 | the endpoints of a partition keep their order |
| `HostPair.BuildPartitionMap` | Mooncake/scripts/generate_cluster_topology.py:144-151 | fails exactly when a latency is None; otherwise each key holds its endpoints of finite latency in order, keys without one are absent |
| `HostPair.SolvePartition` | Mooncake/scripts/generate_cluster_topology.py:201-211 | never both a plain and an extra entry; with comparable latencies exactly one, plain if and only if a perfect matching exists, and each is a best matching |
| `HostPair.HostRecord.ProcessHostPair` | Mooncake/scripts/generate_cluster_topology.py:196-213 | for every NUMA partition of the record exactly that entry is stored, and nothing else |
| `MoeComm.SelectsMc2` | vllm-ascend/vllm_ascend/ascend_forward_context.py:266-319 | when MC2 is selected: experts spread over ranks, a count within the capacity, and on A2 a wide enough group, on A3 no fused kernel, on A5 several ranks |
| `MoeComm.SelectsFusedMc2` | vllm-ascend/vllm_ascend/ascend_forward_context.py:285-309 | fused MC2 is selected on A3 only, within the capacity by the decode setting and above it by the prefill setting |
| `MoeComm.SelectsAllToAll` | vllm-ascend/vllm_ascend/ascend_forward_context.py:285-319 | all-to-all is selected on A3 and A5 only, where MC2 is out, on A5 with more ranks than experts per token |
| `MoeComm.SelectsAllGather` | vllm-ascend/vllm_ascend/ascend_forward_context.py:274-319 | all-gather is selected for experts that are not spread, on 310P, on A2 where MC2 is out, and on A5 where it is out and ranks are at most the experts per token |
| `MoeComm.SelectsNothing` | vllm-ascend/vllm_ascend/ascend_forward_context.py:260-261 | nothing is selected exactly for a model without experts |
| `MoeComm.SelectsError` | vllm-ascend/vllm_ascend/ascend_forward_context.py:274-321 | the selection fails exactly for an unknown device, a capacity that was never set where one is compared, or no rank per pipeline stage |
| `MoeComm.AboveCapacity` | vllm-ascend/vllm_ascend/ascend_forward_context.py:266-319 | what each device selects above the capacity |
| `MoeComm.Mc2IsDownwardClosed` | vllm-ascend/vllm_ascend/ascend_forward_context.py:233-319 | a token count that selects an MC2 method makes every smaller count select the same method |
| `MoeComm.SkipKeepsMc2` | vllm-ascend/vllm_ascend/utils.py:1173-1211 | if skipping is justified by prefill needing MC2, all counts within the scheduler's limit select one MC2-type method, on every device type and fused setting |
| `MoeComm.PotentialMaxIsLeast` | vllm-ascend/vllm_ascend/utils.py:1176-1204 | the largest decode batch is the least count covering the captured graphs and a decode step within the limit; without graphs, a decode step cut at 512 |
| `MoeComm.NeedsMc2Is` | vllm-ascend/vllm_ascend/utils.py:1173-1174 | when a count needs an MC2 method, from the configuration |
| `MoeComm.SkipsWhen` | vllm-ascend/vllm_ascend/utils.py:1156-1211 | when ranks skip, from the configuration: never with hierarchical communication, always without experts, otherwise on KV consumers whose decode needs MC2 and whose prefill does or may be recomputed; and when the test fails |
| `MoeComm.AcrossEntries` | vllm-ascend/vllm_ascend/worker/model_runner_v1.py:595-620 | which counts a rank is given: its own, every rank's in its place, or the largest repeated |
| `MoeComm.AgreeWhenReduced` | vllm-ascend/vllm_ascend/worker/model_runner_v1.py:582-620 | when the all-reduce is not skipped all first-generation ranks pick the same collective |
| `MoeComm.SeenIsLargest` | vllm-ascend/vllm_ascend/worker/model_runner_v1.py:582-620 | the count a rank selects by is the largest entry of the counts it was given, skipped, padded or not |
| `MoeComm.SeparatesExactly` | vllm-ascend/vllm_ascend/ascend_forward_context.py:233-319 | an empty batch and one of b tokens select differently if and only if the guards on capacity, device type, fusion and world size say so |
| `MoeComm.AgreeIffOneSide` | vllm-ascend/vllm_ascend/utils.py:1142-1211 | when it is skipped, all ranks agree on every batch of up to b tokens if and only if an empty batch and b tokens select alike |
| `MoeComm.TargetRanksAgree` | vllm-ascend/vllm_ascend/utils.py:1142-1211 | for every bound b, ranks of the target model agree on every batch of up to b tokens if and only if they do not skip, or the model has no experts, or b tokens need MC2; equivalently, if and only if they do not skip or no guard separates an empty batch from b tokens |
| `MoeComm.DecodeRanksAgree` | vllm-ascend/vllm_ascend/utils.py:1184-1211 | whatever prefill needs, target ranks with experts that skip pick one MC2 method for all counts up to the largest decode batch |
| `MoeComm.DraftRanksAgree` | vllm-ascend/vllm_ascend/utils.py:1142-1211 | ranks of a draft model, whose skip test looks at the target model only, agree on every batch of up to b tokens if and only if they do not skip or no guard of the selection for drafts separates an empty batch from b tokens |
| `MoeComm.DraftCanSplit` | vllm-ascend/vllm_ascend/utils.py:1142-1211 | a fused configuration in which two draft ranks pick different collectives |
| `MoeComm.RecomputeCanSplit` | vllm-ascend/vllm_ascend/utils.py:1206-1211 | a recompute-scheduler configuration in which two target ranks pick different collectives, and agree on all batches of decode size |
| `MoeComm.EagerRanksAgreeWhen` | vllm-ascend/vllm_ascend/platform.py:761-765 | second-generation ranks that run eagerly, and so select by their own counts, agree on every batch of up to b tokens if and only if no guard separates an empty batch from b tokens |
| `MoeComm.EagerRanksCanSplit` | vllm-ascend/vllm_ascend/platform.py:761-765 | a configuration without skipping in which first-generation ranks agree and eager second-generation ranks do not |
| `ForwardContext.RoundUpIsLeast` | vllm-ascend/vllm_ascend/ascend_forward_context.py:198-210 | the rounded count is the least multiple of the tensor-parallel size that holds the tokens |
| `ForwardContext.PadCompletes` | vllm-ascend/vllm_ascend/ascend_forward_context.py:139-142 | the modular pad formula is exactly what is missing to that multiple |
| `ForwardContext.FlashCommWhen` | vllm-ascend/vllm_ascend/ascend_forward_context.py:118-137 | when flash-comm is on, from the inputs: the second version, or sequence parallelism with experts, or a dense target above 1000 tokens |
| `ForwardContext.OwnPadding` | vllm-ascend/vllm_ascend/ascend_forward_context.py:139-181 | on one rank the padded count is the least multiple holding the tokens, and the pad is the difference exactly when flash-comm is on; without tokens nothing is padded |
| `ForwardContext.SharedPadding` | vllm-ascend/vllm_ascend/ascend_forward_context.py:160-181 | with shared counts the same for the largest of them, and the padded length is set exactly when flash-comm is on |
| `ForwardContext.ActualIsMarked` | vllm-ascend/vllm_ascend/ascend_forward_context.py:177-180 | the tokens marked are the given actual count, or else the given count, or else that of the attention metadata |
| `ForwardContext.MaskIsMarked` | vllm-ascend/vllm_ascend/ascend_forward_context.py:177-187 | below the padded count a bit is true exactly for actual tokens, later bits keep their value, and without a token count all do |
| `ForwardContext.RanksPadAlike` | vllm-ascend/vllm_ascend/ascend_forward_context.py:161-181 | ranks given the same counts with flash-comm on reach the same padded length, the least multiple holding every rank's tokens, with a non-negative pad |
| `ForwardContext.RankPads` | vllm-ascend/vllm_ascend/ascend_forward_context.py:139-181 | skipped or not, a rank's padded length is a multiple of the tensor-parallel size rounded from the count it selects by, holds its tokens, and its pad is what is missing |
| `ForwardContext.RanksAgreeOnLength` | vllm-ascend/vllm_ascend/worker/model_runner_v1.py:595-620 | for any counts of all ranks, two ranks with flash-comm on reach the same padded length if and only if the all-reduce was not skipped or their own counts round up alike |
| `ForwardContext.SkippingSplitsLengths` | vllm-ascend/vllm_ascend/worker/model_runner_v1.py:598-600 | a configuration that skips, in which ranks with 8 and 16 tokens pad to 8 and 16 |
| `ForwardContext.RoundingKeepsAgreement` | vllm-ascend/vllm_ascend/worker/model_runner_v1.py:2690-2807 | counts rounded up to the tensor-parallel size and padded to a graph size before the exchange can exceed the scheduler's limit; with the capacity as it is set, ranks agree by them if and only if they agree by the scheduled counts |
| `ForwardContext.MaskIsNeverStale` | vllm-ascend/vllm_ascend/ascend_forward_context.py:182-187 | after any sequence of uses of the reserved buffer the current mask is true exactly on the first actual tokens, and marks all of them exactly when the slice is long enough |
| `ForwardContext.OuterMaskSurvives` | vllm-ascend/vllm_ascend/ascend_forward_context.py:182-191 | the mask of an enclosing context is intact after an inner one if and only if the two agree on the tokens both slices cover |
| `ForwardContext.InnerOverwrites` | vllm-ascend/vllm_ascend/ascend_forward_context.py:182-187 | a mask of three tokens after a write for one token over the same buffer |
| `ForwardContext.Runner.SetMc2TokensCapacity` | vllm-ascend/vllm_ascend/ascend_forward_context.py:198-210 | the capacity is set once, rounded up to the tensor-parallel size |
| `ForwardContext.Runner.SetMc2Mask` | vllm-ascend/vllm_ascend/ascend_forward_context.py:217-226 | the mask is allocated once, all false, for models with experts only |
| `ForwardContext.Runner.EnterV1` | vllm-ascend/vllm_ascend/ascend_forward_context.py:122-187 | pad size, padded length, maximum and padded count are those of `PaddingOf`; the mask marks exactly the actual tokens of the inputs below the padded count and keeps its later bits |
| `ForwardContext.Runner.EnterV2` | vllm-ascend/vllm_ascend/platform.py:782-816 | the second generation computes the same fields for target-model runs, and its mask marks the token count |
| `Dispatch.SendTokenIdx` | vllm-ascend/csrc/torch_binding.cpp:657-672 | each routing's index is the number of earlier routings to the same expert, and the accumulators end at the totals |
| `Dispatch.RecvLayout` | vllm-ascend/csrc/torch_binding.cpp:682-705 | the count table holds the prefix sums in expert-then-source order, with offsets, total, largest batch and per-expert totals |
| `Dispatch.LargestIsAnnounced` | vllm-ascend/csrc/torch_binding.cpp:682-705 | the largest batch is at least every announced one, and 0 or one of them |
| `Dispatch.SlotFromTables` | vllm-ascend/csrc/torch_binding.cpp:657-705 | the slot of a routing is its entry of send_token_idx plus the entry of recv_count before its cell, on the arrays the two methods fill |
| `Dispatch.SlotInRange` | vllm-ascend/csrc/torch_binding.cpp:657-705 | sender index plus the preceding count lies in [0, total_recv_tokens) |
| `Dispatch.SlotInjective` | vllm-ascend/csrc/torch_binding.cpp:657-705 | no two routings to a rank share a slot |
| `Dispatch.SlotOnto` | vllm-ascend/csrc/torch_binding.cpp:657-705 | every slot belongs to some routing |
| `Dispatch.AnnouncedIsNotified` | vllm-ascend/csrc/torch_binding.cpp:685-693 | if source src announces for local expert e what it routes there, the transposed cells count exactly that |
| `Dispatch.SlotsAreABijection` | vllm-ascend/csrc/torch_binding.cpp:657-705 | from the received data, slots are a bijection from all routings to the rank onto [0, total_recv_tokens) |
| `Dispatch.ExpertConserved` | vllm-ascend/csrc/torch_binding.cpp:685-704 | a local expert receives exactly what all ranks send it |
| `Dispatch.TokensConserved` | vllm-ascend/csrc/torch_binding.cpp:657-705 | over all ranks, exactly the routings with a non-negative expert are received |
| `CpuSlices.GlobalSlicesPartition` | vllm-ascend/vllm_ascend/cpu_binding.py:278-311 | the slices of all NPUs concatenate to the sorted cpuset |
| `CpuSlices.GlobalSlicesApart` | vllm-ascend/vllm_ascend/cpu_binding.py:306-311 | every CPU of an earlier NPU's slice is below every CPU of a later one's |
| `CpuSlices.SharesPartition` | vllm-ascend/vllm_ascend/cpu_binding.py:207-216 | the even shares of a pool concatenate to the pool |
| `CpuSlices.SharesDisjoint` | vllm-ascend/vllm_ascend/cpu_binding.py:207-216 | the shares are pairwise disjoint if and only if no repeated CPU straddles a cut |
| `CpuSlices.RolesSplitPool` | vllm-ascend/vllm_ascend/cpu_binding.py:373-385 | IRQ, main, acl and release are the whole pool, main is never empty, and no CPU has two roles |
| `CpuPools.GlobalSlicesCover` | vllm-ascend/vllm_ascend/cpu_binding.py:264-317 | slices have at least 5 CPUs, differ by at most one, concatenate to the cpuset, and each visible NPU gets its own |
| `CpuPools.GlobalSucceedsWhen` | vllm-ascend/vllm_ascend/cpu_binding.py:264-317 | global slicing succeeds if and only if the cpuset is empty or has five CPUs per mapped NPU and every visible id is below their number |
| `CpuPools.GlobalEnteredAre` | vllm-ascend/vllm_ascend/cpu_binding.py:264-317 | what is entered in any case: the slices up to the first id out of range, nothing with too few CPUs |
| `CpuPools.GlobalExclusive` | vllm-ascend/vllm_ascend/cpu_binding.py:264-317 | processes that share a cpuset and an NPU map give each CPU at most one NPU and role between them, whichever NPUs they see |
| `CpuPools.TotalIsMapSize` | vllm-ascend/vllm_ascend/cpu_binding.py:269-275 | where a process runs, the number of slices is the size of the NPU map |
| `CpuPools.OnlyExtendingFails` | vllm-ascend/vllm_ascend/cpu_binding.py:341-371 | every visible NPU is a candidate, so topology pools fail exactly when extending a candidate does |
| `CpuPools.TopoIndependent` | vllm-ascend/vllm_ascend/cpu_binding.py:341-371 | in topology mode the pool of an NPU does not depend on which NPUs the process sees |
| `CpuPools.SamePoolIsSplit` | vllm-ascend/vllm_ascend/cpu_binding.py:207-216 | NPUs with the same extended pool get shares that concatenate to the sorted pool, disjoint if and only if no repeated CPU straddles a cut |
| `CpuPools.TopoExclusive` | vllm-ascend/vllm_ascend/cpu_binding.py:341-371 | two processes give different NPUs disjoint CPUs if their extended pools are equal and without repeats, or disjoint |
| `CpuPools.RepeatedCpuIsShared` | vllm-ascend/vllm_ascend/cpu_binding.py:341-371 | two NPUs with affinity 0-4,4-8 on two nodes get full pools of five that share CPU 4 |
| `SharedHost.FinalsDisjointWhen` | vllm-ascend/vllm_ascend/cpu_binding.py:355-371 | all candidates get disjoint CPUs if and only if extended pools that differ are disjoint and no repeated CPU straddles a cut of a shared one |
| `SharedHost.HostExclusiveWhen` | vllm-ascend/vllm_ascend/cpu_binding.py:335-371 | on a host where topology mode works, no two processes give one CPU to two NPUs, whichever NPUs they see, if and only if that holds of the host's extended pools |
| `SharedHost.PoolIsReach` | vllm-ascend/vllm_ascend/cpu_binding.py:218-230 | with nodes numbered from 0, an extended pool holds exactly the allowed CPUs of the affinity and, when those lie on one node, of the next node |
| `SharedHost.ApartByReach` | vllm-ascend/vllm_ascend/cpu_binding.py:218-230 | so whether pools that differ are disjoint can be read off the affinities and the nodes |
| `SharedHost.HostExclusiveByReach` | vllm-ascend/vllm_ascend/cpu_binding.py:335-371 | with nodes numbered from 0 and no CPU listed twice, processes never share a CPU if and only if NPUs whose pools differ reach no common CPU |
| `SharedHost.NeighboursShareANode` | vllm-ascend/vllm_ascend/cpu_binding.py:218-230 | three nodes of five CPUs, NPU 0 on the first and NPU 1 on the second, none listed twice: both pools hold CPUs 5 to 9 |
| `Devices.GetNpuMapInfo` | vllm-ascend/vllm_ascend/cpu_binding.py:89-100 | the map of the listed lines, later lines for a chip replacing earlier ones, lines without a number skipped |
| `Devices.IdIsLast` | vllm-ascend/vllm_ascend/cpu_binding.py:89-100 | the map gives a chip the id of its last numbered line, and none without such a line |
| `Devices.ChipsAreDistinct` | vllm-ascend/vllm_ascend/cpu_binding.py:89-100 | no chip has two entries, so every entry is its chip's id |
| `Devices.GetAllLogicNpus` | vllm-ascend/vllm_ascend/cpu_binding.py:74-87 | the sorted set of the map's logical ids |
| `Devices.GetRunningNpus` | vllm-ascend/vllm_ascend/cpu_binding.py:102-131 | the sorted set of the processes' logical ids within the visible devices; an unmapped chip or an empty set is an error |
| `Devices.RunsExactly` | vllm-ascend/vllm_ascend/cpu_binding.py:102-131 | an id runs if and only if some listed chip has it and it is visible; with every chip mapped, reading fails exactly if no id does |
| `Devices.MissingChip` | vllm-ascend/vllm_ascend/cpu_binding.py:120-124 | the ids are missing exactly if a listed chip is not in the map |
| `Devices.NumbersRead` | vllm-ascend/vllm_ascend/cpu_binding.py:94-98 | exactly texts of digits are numbers, and the text of a number reads as it |
| `Devices.ReadIsValid` | vllm-ascend/vllm_ascend/cpu_binding.py:74-131 | every successful reading gives sorted lists, at least one running NPU, and only running NPUs of the map |
| `CpuAlloc.CpuAlloc.BuildCpuNodeMap` | vllm-ascend/vllm_ascend/cpu_binding.py:232-244 | the two NUMA maps are those of the listed rows; no row is an error |
| `CpuAlloc.NumaHas` | vllm-ascend/vllm_ascend/cpu_binding.py:232-244 | a CPU is on the node of its last row, a node has the CPUs of its rows in order, and both are known exactly if they have a row |
| `CpuAlloc.CpuAlloc.BuildGlobalSliceCpuPool` | vllm-ascend/vllm_ascend/cpu_binding.py:246-317 | pools and failures are those of the global slices; a failure leaves the slices of the ids before the invalid one |
| `CpuAlloc.CpuAlloc.ExtendNuma` | vllm-ascend/vllm_ascend/cpu_binding.py:218-230 | a list on one node is joined with the next node's allowed CPUs and sorted, other lists are kept; looking up a missing node creates it; an error changes nothing |
| `CpuAlloc.CpuAlloc.AverageDistribute` | vllm-ascend/vllm_ascend/cpu_binding.py:207-216 | the members of a group get the even shares of its sorted pool, the last one the rest |
| `CpuAlloc.CpuAlloc.BuildTopoPools` | vllm-ascend/vllm_ascend/cpu_binding.py:341-371 | the loops over candidates, groups and visible NPUs compute the topology pools, and fail exactly when those do; a failure leaves the candidates extended before it |
| `CpuAlloc.CpuAlloc.BuildCpuPools` | vllm-ascend/vllm_ascend/cpu_binding.py:324-371 | no NUMA row is an error; global slices by mode or without affinities, topology pools otherwise; pools, NUMA maps and error after every outcome |
| `CpuAlloc.CpuAlloc.Allocate` | vllm-ascend/vllm_ascend/cpu_binding.py:373-385 | succeeds exactly when every pool has at least 5 CPUs; the pools before the first short one are assigned by role |
| `CpuText.ExpandCpuList` | vllm-ascend/vllm_ascend/cpu_binding.py:64-72 | the loop computes what the comma-separated parts denote, or fails |
| `CpuText.InclusiveHas` | vllm-ascend/vllm_ascend/cpu_binding.py:64-72 | a range denotes every CPU from its first to its last, in order, and no other |
| `CpuText.ExpandRendered` | vllm-ascend/vllm_ascend/cpu_binding.py:64-72 | every non-empty list of CPUs and ranges is read back as the CPUs it was written from |
| `CpuText.BindRoundTrip` | vllm-ascend/vllm_ascend/cpu_binding.py:199 | expanding the list that bind builds gives the same CPUs, if and only if none is negative |
| `CpuText.CpuToMask` | vllm-ascend/vllm_ascend/cpu_binding.py:168-175 | read as 32-bit hexadecimal groups, most significant first, the mask is 2 to the CPU number; it has one group of eight digits per 32 CPUs |
| `Compressed.VectorIsLoop` | vllm-ascend/vllm_ascend/utils.py:1574-1581 | the arange plus repeat formula equals appending each request's positions in turn |
| `Compressed.EmittedToRequest` | vllm-ascend/vllm_ascend/utils.py:1578-1583 | the request indices pick out, element for element, each request's own range |
| `Compressed.SingleCount` | vllm-ascend/vllm_ascend/utils.py:1583 | a single count repeats every element that many times |
| `Compressed.GroupEmits` | vllm-ascend/vllm_ascend/utils.py:1566-1586 | in what a cache group gets, the entries with index i are the new compressed positions of request i |
| `Compressed.CompressGroup` | vllm-ascend/vllm_ascend/utils.py:1566-1586 | one cache group gets the loop's positions, aligned request indices and the new counts |
| `Compressed.GetCompressedPosAndIndices` | vllm-ascend/vllm_ascend/utils.py:1521-1587 | nothing without compression, an assertion exactly for different lengths or a negative count, otherwise one such triple per cache group in order |
| `Compressed.EachPositionOnce` | vllm-ascend/vllm_ascend/utils.py:1566-1581 | over any run, however chunked, batched and interleaved, a request's compressed positions are emitted exactly once and in order |
| `Compressed.FromScratch` | vllm-ascend/vllm_ascend/utils.py:1566-1581 | T tokens from scratch give 0, 1, ..., T/ratio - 1, or 0, ..., T - 1 for ratios 0 and 1 |
| `GraphSizes.BudgetIsExact` | vllm-ascend/vllm_ascend/utils.py:600-659 | n sizes are admitted if and only if their streams plus the reservation stay within 1800, in every mode |
| `GraphSizes.StreamsAreExact` | vllm-ascend/vllm_ascend/utils.py:600-659 | the same in numbers, mode by mode: 1, 3 or 5 streams a unit, 40 per group and 100 per context parallelism without AIV; with AIV one stream per kind of parallelism and one graph set aside for a dense model |
| `GraphSizes.FortyEightLayers` | vllm-ascend/vllm_ascend/utils.py:653-659 | 48 layers on four tensor-parallel ranks: 11 sizes |
| `GraphSizes.RoundedIsNearest` | vllm-ascend/vllm_ascend/utils.py:673-674 | the rounded quotient is nearest, and even at an exact half |
| `GraphSizes.NearestIsUnique` | vllm-ascend/vllm_ascend/utils.py:673-674 | there is only one such number |
| `GraphSizes.RoundedApart` | vllm-ascend/vllm_ascend/utils.py:673-674 | half-to-even rounding never merges two points more than one apart |
| `GraphSizes.IndicesAreASample` | vllm-ascend/vllm_ascend/utils.py:671-677 | the rounded indices are strictly increasing, in range, and already start at 0 and end at the last index |
| `GraphSizes.SampleOfOrdered` | vllm-ascend/vllm_ascend/utils.py:671-679 | the sample is a subsequence of exactly the admitted number of sizes with the same least and greatest, at the indices nearest to even steps |
| `GraphSizes.ThreeOfSix` | vllm-ascend/vllm_ascend/utils.py:671-679 | three of six sizes are the first, the third and the sixth |
| `GraphSizes.CompilationConfig.PostInit` | vllm/vllm/config/compilation.py:1055-1080 | the sizes are sorted, and the greatest must be the configured maximum |
| `GraphSizes.CompilationConfig.UpdateCudagraphCaptureSizes` | vllm-ascend/vllm_ascend/utils.py:535-564 | a maximum that disagrees with configured sizes is an error that changes nothing; otherwise sizes and maximum are replaced |
| `GraphSizes.CompilationConfig.UpdateAclgraphSizes` | vllm-ascend/vllm_ascend/utils.py:567-698 | the configuration after the update, with every failure and what it leaves behind |
| `GraphSizes.UpdateMeansBudget` | vllm-ascend/vllm_ascend/utils.py:567-698 | from ordered sizes the update succeeds if and only if all sizes or at least two fit; then the sizes kept stay within 1800 streams, keep the greatest, and the maximum is set to it |
| `GraphSizes.UpdateFillsStreams` | vllm-ascend/vllm_ascend/utils.py:567-698 | the sizes kept fit the streams counted in numbers, and if some were dropped one more would not fit |
| `GraphSizes.OneSizeFails` | vllm-ascend/vllm_ascend/utils.py:671-674 | settings under which one size fits and the update divides by zero, sizes left cleared |
| `GraphSizes.NoSizeFails` | vllm-ascend/vllm_ascend/utils.py:671-677 | settings under which none fits and the first index does not exist |
| `NzLayout.TransposedTwice` | vllm-ascend/vllm_ascend/utils.py:282-308 | exchanging the two outer axes is a bijection on flat contents, undone by exchanging them back |
| `NzLayout.NzAt` | vllm-ascend/vllm_ascend/utils.py:289-308 | row i, column x lies in block x / 16, row i, column x mod 16, and padding is zero |
| `NzLayout.NzHolds` | vllm-ascend/vllm_ascend/utils.py:289-308 | that place holds the matrix element, or zero outside the matrix |
| `NzLayout.NzRoundTrip` | vllm-ascend/vllm_ascend/utils.py:289-308 | the matrix is recovered from its NZ contents |
| `NzLayout.NdToNzSpec` | vllm-ascend/vllm_ascend/utils.py:311-321 | writing into a zeroed buffer and permuting gives the contents of nd_to_nz_2d, on every matrix |
| `NzLayout.PermutedIsTransposed` | vllm-ascend/vllm_ascend/utils.py:1502-1512 | splitting the rows into tiles does not show in the flat contents |
| `NzLayout.TransSucceedsWhen` | vllm-ascend/vllm_ascend/utils.py:1491-1510 | the reshape succeeds if and only if there is no element or the matrices are aligned to the tile (16 by 32 for int8, 16 by 16 otherwise) |
| `NzLayout.TransAgreesWith2d` | vllm-ascend/vllm_ascend/utils.py:1491-1512 | on 16-aligned matrices that are not int8, each matrix of the batch has the contents of nd_to_nz_2d |
| `NzLayout.TransRoundTrip` | vllm-ascend/vllm_ascend/utils.py:1491-1512 | whatever the tile and the batch, every matrix is recovered |
| `Flashcomm2.Validate` | vllm-ascend/vllm_ascend/utils.py:1236-1283 | a positive size is accepted if and only if it properly divides the tensor-parallel size and nothing conflicts; zero exactly for sizes not above zero |
| `Flashcomm2.ReorganizedBatchIds` | vllm-ascend/vllm_ascend/utils.py:1286-1302 | group i holds at position j the rank i plus j times the number of groups |
| `Flashcomm2.AcceptedIsAPartition` | vllm-ascend/vllm_ascend/utils.py:1262-1302 | for an accepted size every rank occurs exactly once, at group r mod G and position r div G |
| `Flashcomm2.LastRankPresentWhen` | vllm-ascend/vllm_ascend/utils.py:1267-1302 | without the divisibility check, and only then, the last rank is missing |
| `Strides.IsContiguousAxes` | vllm-ascend/csrc/torch_binding.cpp:1102-1123 | an axis is flagged exactly when its stride is the number of elements behind it |
| `Strides.AllFlaggedIsBijection` | vllm-ascend/csrc/torch_binding.cpp:1102-1123 | all axes flagged: the offset map is a bijection from index tuples onto [0, numel), for any rank |
| `Strides.OffsetInjective` | vllm-ascend/csrc/torch_binding.cpp:1102-1123 | all axes but the first flagged and a first stride that clears the rest: no two index tuples share an offset |
| `Strides.RowMajorExactlyWhen` | vllm-ascend/csrc/torch_binding.cpp:1102-1123 | with positive sizes the elements lie in row-major order if and only if every axis longer than one is flagged |
| `Strides.UnitAxisUnflagged` | vllm-ascend/csrc/torch_binding.cpp:1102-1123 | sizes 2, 1, 3 with strides 3, 7, 1: the middle axis is not flagged and the layout is row-major |
| `QosState.FreshRecords` | vllm-ascend/tools/ai_qos.py:178-221 | a first capture records every listed device as it is now, as far as its getters work |
| `QosState.MergedRecords` | vllm-ascend/tools/ai_qos.py:224-246 | merging keeps the snapshot of a completely recorded device and replaces all three entries of any other |
| `QosTool.LevelsAreLowest` | vllm-ascend/tools/ai_qos.py:326-368 | AIV masters get 1, 3 or 5 and SDMA 2, 4 or 6 by the lower of the two settings, PCIe 0 or 7 |
| `QosTool.ApplyDevicesEffect` | vllm-ascend/tools/ai_qos.py:340-436 | after applying to a list of devices every register of every device has the value the levels prescribe or its old one |
| `QosTool.StateFields` | vllm-ascend/tools/ai_qos.py:249-267 | the state that apply writes is read back as the same record |
| `QosTool.ValidatesWhen` | vllm-ascend/tools/ai_qos.py:56-121 | exactly which states the validator accepts, field by field and entry by entry |
| `QosRuns.QosForm` | vllm-ascend/tools/ai_qos.py:178-192 | the file lists a master's number, mpamid, qos, pmg and mode |
| `QosRuns.BwForm` | vllm-ascend/tools/ai_qos.py:195-210 | the file lists the SDMA mpamid, low, high and hard limit |
| `QosRuns.FuseForm` | vllm-ascend/tools/ai_qos.py:213-221 | the file lists the three fuse settings |
| `QosRuns.RecordValidates` | vllm-ascend/tools/ai_qos.py:56-121 | the state that apply writes always passes unset's validator, with its contents unchanged |
| `QosRuns.UnsetRestores` | vllm-ascend/tools/ai_qos.py:270-319 | unset writes back each recorded device's snapshot, leaves every other register, and removes the file |
| `QosRuns.RunRecords` | vllm-ascend/tools/ai_qos.py:340-436 | after any run of applies the file records, for each touched device, the start of the apply that last captured it |
| `QosRuns.RunEffect` | vllm-ascend/tools/ai_qos.py:340-436 | after any run the registers are those the last apply touching the device prescribes |
| `QosRuns.RunSetsPriority` | vllm-ascend/tools/ai_qos.py:340-436 | the registers of a device after any run, in numbers, from the priority of the last request that lists it |
| `QosRuns.ApplyThenUnset` | vllm-ascend/tools/ai_qos.py:224-436 | for any run with any devices and priorities, unset puts every register of a device with working getters, and of an untouched device, back to its value before the run |
| `QosRuns.RestoredExactlyWhen` | vllm-ascend/tools/ai_qos.py:224-436 | for any set of working getters, exactly when a touched device is restored |
| `QosRuns.SecondApplyForgets` | vllm-ascend/tools/ai_qos.py:224-246 | a run of two applies after which unset leaves a changed QoS level, because the bandwidth getter fails |
| `QosCommands.ParseAndValidateUnsetState` | vllm-ascend/tools/ai_qos.py:56-121 | the validator's loops accept and return exactly what the specification does |
| `QosCommands.AiQos.CaptureOriginalQos` | vllm-ascend/tools/ai_qos.py:178-192 | the captured dictionary, device by device and master by master |
| `QosCommands.AiQos.CaptureOriginalSdmaMata` | vllm-ascend/tools/ai_qos.py:195-210 | the captured SDMA bandwidths, through the mpamid read from the SDMA master |
| `QosCommands.AiQos.CaptureOriginalFuse` | vllm-ascend/tools/ai_qos.py:213-221 | the captured fuse settings |
| `QosCommands.AiQos.MergeBaselineForNewDevices` | vllm-ascend/tools/ai_qos.py:224-246 | the merged record, all three maps captured again for a device missing from any |
| `QosCommands.AiQos.SetQos` | vllm-ascend/tools/ai_qos.py:340-436 | hardware and state file after an apply |
| `QosCommands.AiQos.RunUnset` | vllm-ascend/tools/ai_qos.py:270-319 | hardware, state file and exit code after an unset, with a missing or invalid file |
| `LazyProbe.StepKeeps` | Mooncake/mooncake-integration/allocator.py:91-117 | every atomic step of every thread keeps mutual exclusion and the facts about probe, results and allocators |
| `LazyProbe.OneProbe` | Mooncake/mooncake-integration/allocator.py:91-107 | over any schedule of any number of threads: at most one probe, its value fixed before it is published, every result that is not None is that value, and a call returns None if and only if it was waiting for the lock at publication |
| `LazyProbe.ProbedValue` | Mooncake/mooncake-integration/allocator.py:96-106 | what is published is what the probe returned, or -2 if it failed |
| `LazyProbe.PublishedIsFinal` | Mooncake/mooncake-integration/allocator.py:91-107 | once published, neither value nor results ever change |
| `LazyProbe.OneAllocatorPerDevice` | Mooncake/mooncake-integration/allocator.py:110-117 | each device gets at most one allocator, and callers given one for the same device are given the same |
| `LazyProbe.GivesAreRight` | Mooncake/mooncake-integration/allocator.py:110-117 | over any schedule a call of get_allocator ends without an allocator if and only if its own build failed, and otherwise with the one allocator of the device it asked for |
| `LazyProbe.FailedByChoice` | Mooncake/mooncake-integration/allocator.py:113-116 | a call counts as failed exactly if the outside made its build fail |
| `LazyProbe.InstanceStays` | Mooncake/mooncake-integration/allocator.py:110-117 | once a device has an allocator it keeps it, and every later call for the device is given that one |
| `LazyProbe.EveryCallIsAnswered` | Mooncake/mooncake-integration/allocator.py:91-117 | every call of either method that is over was answered exactly once |
| `LazyProbe.CallsStart` | Mooncake/mooncake-integration/allocator.py:91-117 | a call that starts is the one that was asked for |
| `LazyProbe.StepsAreBounded` | Mooncake/mooncake-integration/allocator.py:91-117 | every step a thread takes inside a call brings it nearer to the end of the call |
| `LazyProbe.CanFinish` | Mooncake/mooncake-integration/allocator.py:91-117 | from every reachable state all calls under way can be brought to an end |
| `LazyProbe.AloneIsAnswered` | Mooncake/mooncake-integration/allocator.py:91-107 | a single thread never gets None |
| `LazyProbe.NeverStuck` | Mooncake/mooncake-integration/allocator.py:91-117 | whenever a call is under way some thread can move |
| `LazyProbe.SecondThreadGetsNone` | Mooncake/mooncake-integration/allocator.py:93-107 | a two-thread schedule in which the second call returns None |

## Left out

- Floating-point error: normalisation, `math.floor`, `math.ceil` and `round(i * step)` are exact here.
- Fixed-width integers: the int32 counters of dispatch, the int64 sizes and the numpy dtypes are unbounded here.
- The body of linear_sum_assignment: only its contract is used.
- The notify collective and every other device kernel: only the stated contract of the former is used.
- Subprocesses, SSH, `/proc`, `npu-smi`, `taskset`, IRQ and NUMA-memory binding, JSON file I/O and logging: their parsed results are inputs.
- The texts of error messages, and which exception of several a line would raise first.
- `int()` on text with spaces, underscores or non-ASCII digits, and JSON numbers that are not integers: such text counts as malformed here.
- Getters that work in one call and fail in the next: whether a getter works is fixed per device and register during a run.
- A device number given in two spellings in one state file; apply writes only one spelling.
- The commands printed for the switch side: each apply overwrites the earlier list.
- The string key by which pools are grouped: the list itself is the key here.
- Speculative and quantisation settings behind the fused decode path: they are flags of the configuration here.
- max_cudagraph_capture_size being None when the MC2 capacity is set; compile_sizes, which post_init also fills.
- The shapes of NZ tensors beyond their flat contents, and strides of the returned views.
- The graph mode that is exchanged together with the token counts, and which captured size a count is padded to before the exchange: any captured size that holds it is allowed.
- Fields of a forward context other than padding and mask, among them num_tokens, which the two generations fill differently when it is not given.
- The sorting of endpoints by name uses the order of characters; the order of devices does not matter for the results stated.
- Configuration normalisation, setup scripts, benchmarks and clients: case distinctions over a few flags, with nothing to say over all inputs or runs.
