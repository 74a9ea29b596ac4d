# Sandbox2: a verified model of its decision logic

This project models the parts of Sandbox2 in which decisions are made and proves what they promise, in Dafny.
The kernel, the file system and the other process appear only as answers that may be anything.

The model has six parts.

* **The seccomp filter.** `Bpf` is an interpreter for classic BPF as the policy code uses it, `Bits` says what its conjunctions come to, and `Wide` has the comparisons of 32-bit and 64-bit arguments. `Dispatch` is the block that `AddPolicyOnSyscalls` emits: comparisons prepended back to front, 8-bit distances, helper jumps. `Rules` gives lists of rules a first-match meaning and proves the emitted code decides accordingly. `PolicyBuilders` holds the builder as a class that keeps its instruction vector equal to the compilation of the rules. `Labels` is `bpf_resolve_jumps`, `Policies`, `LabelledPolicies` and `Filters` are the default policy and the assembled filter, `BuilderLaws` relates sequences of builder calls, `CallLaws` says what the filter of any sequence of calls returns, and `MmapPolicies` what two of the bodies on mmap allow.
* **The mount tree.** `Paths` is lexical path cleaning and joining and `PathLaws` what it means, `MountTrees` the tree as a value, `MountPoints` the class `Mounts` that edits it in place through a cursor, and `Libraries` the worklist that collects the libraries of a binary and mounts them.
* **Descriptor tables.** `Descriptors` has `dup`, `dup2` and `close` as POSIX.1-2017 describes them and `MoveFDs`; `Ipc` has both sides of handing descriptors to the sandboxee and `IpcLaws` says which mappings keep their numbers; `ClientEnv` the environment variable that carries the map of names across an execve.
* **The ptrace monitor.** `MonitorModel` is one iteration of the main loop as a function of the kernel's answers, and every run as a fold over them. `Verdicts` says which answers call for which status and which reports, one wait at a time, and `RunVerdicts` for whole runs. `Monitors` has the classes with updated fields, proved against it.
* **Messages.** `Wire` is the encoding, `Comms` the loops around `read` and `write` with short transfers and errors, `Transmission` the interleavings of concurrent senders under the mutex with a receiver.
* **Helpers.** `Options`, `Sequences`, `Splitting` (splitting at a character), `Decimals` (numbers as text), `Seccomp` (constants of the supported hosts).

Verify with `dafny verify dfyconfig.toml`.

## Main results

1. For every builder that `TryBuild` accepts, on each host, in both modes and for every system call, the filter returns, and returns the first-match decision (`Filters.FilterDecides`); the labelled program that the source writes resolves to the one reasoned about (`LabelledPolicies.DefaultResolves`), and resolving keeps the meaning of every program (`Labels.ResolvingKeepsMeaning`). In terms of the calls alone, and in the words of the kernel interface, it returns what the first call that decides says, then the default action, then the first overridable block, unless the default policy decides (`CallLaws.FilterOfCalls`).
2. A block dispatches as intended on all bodies of a length exactly when that length is 0 or the list of numbers needs no helper jump (`Rules.DispatchExact`); with helper offsets one smaller it does so for every length (`Rules.RepairedDispatch`).
3. The system calls ptrace and bpf get only a KILL, a notification, an errno or a TRACE, all below ALLOW, when no `AddPolicyOnSyscalls` that covers them precedes the call that blocks them, and the condition cannot be weakened (`BuilderLaws.GuardedFilterDenies`, `BuilderLaws.UnguardedFilterAllows`).
4. `MoveFDs` is a correct parallel move (`Descriptors.MoveFDs`), and `SetUpIPC` keeps every preserved descriptor and the connection while it installs any sequence of mappings (`Ipc.SetUpIPC`); both fail only when the kernel refuses a descriptor or the request itself is unusable. No mapping loses its number to a later one, whichever free numbers the kernel picks, exactly when the requests are safe (`IpcLaws.NeverLostIff`).
5. The library worklist collects exactly the reachable libraries of any import graph, and succeeds exactly when the graph is within its limits and a depth-first visit meets no name too deep (`Libraries.CollectLibraries`).
6. A failing `Insert` or `Remove` leaves the whole tree as it was, a successful one changes the resolution of paths exactly as stated, and the listing agrees with the resolution. Cleaning a path keeps the place that it leads to from every directory, and gives the only canonical path of its kind that does (`PathLaws.CleanKeepsPlace`, `PathLaws.CleanUnique`).
7. In every run of the ptrace monitor a status is given if and only if an iteration calls for it while the run is going on, with its reason (`RunVerdicts.RunVerdict`); in particular a run ends with a violation if and only if it is shown one (`RunVerdicts.ViolationIff`). The final status is set exactly once, and every reported return belongs to the latest decision to inspect (`MonitorModel.RunSafe`); reports never follow the death of their process exactly when no process dies with a call in progress (`MonitorModel.ReportsExact`).
8. For all interleavings and chunkings the receiver holds a prefix of the messages in mutex order, and all of them once the stream is drained (`Transmission.ReceiverSeesMutexOrder`); every run can be finished, in writes and reads of any sizes (`Transmission.CanFinish`, `Transmission.SendsInChunks`, `Transmission.ReadAtOnce`); it can be misled later exactly when a message was left half-written on a connection that is still up (`Transmission.RightExact`).
9. The comparisons of 64-bit arguments, made of 32-bit instructions and scratch memory, decide as comparisons of the whole argument and keep the high half in the accumulator (`Wide.Code64Decides`).

## Where code and comments disagree

The model follows the code.

* The helper jump of `AddPolicyOnSyscalls` is meant to reach the policy (policybuilder.cc:1106-1111), but its offset leads to the second instruction of the body, because the load behind the body is counted once too little. `Rules.DispatchExact` says exactly when this matters and `Rules.MisdirectedBody` gives a body for every list that is too long.
* A comment in policy.cc:156-158 says that the user's policy can only block ptrace. A body added with `AddPolicyOnSyscalls` before `BlockSyscallWithErrno(__NR_ptrace, ...)` can allow it, because the later block lifts the default denial. `BuilderLaws.Guarded` is the condition under which the comment holds.
* monitor_ptrace.cc:356-361 reports a main process that exits before its execve as a setup error. With stack traces collected on exit the exit stop comes first and reports OK (monitor_ptrace.cc:849-850). `MonitorModel.OkMeansMonitored` gives the exact condition.
* A comment in monitor_ptrace.cc:638-640 says that the entry of a call in progress is removed when its process exits. It is removed at a PTRACE_EVENT_EXIT stop, not when `waitpid` reports a death without one, and the entry can then be reported for a dead process. `MonitorModel.ReportsExact` gives the exact condition.
* `Comms::Send` leaves the connection up after an error that is not fatal, also in the middle of a message; the next message is then read as the rest of the first. `Transmission.RightExact` gives the exact condition.
* A mapping that asks for no number keeps the one at which its descriptor arrives (client.cc:250-270), and a later mapping that asks for that number takes it, so that the name of the first refers to the file of the second. `IpcLaws.LateRequestTakes` gives the input and `IpcLaws.NeverLostIff` the exact condition.
* In the mmap policy of `AllowSystemMalloc` the part for PROT_NONE is also reached for read and write, so that unreserved anonymous memory is allowed there too. `MmapPolicies.SystemMmapAllows` says exactly what is allowed.
* The map of named descriptors survives the environment variable only when no name is empty or holds a comma (`ClientEnv.EnvRoundTrip`).

## Assumptions of the model

* Instructions: loads of the number, the architecture and the halves of arguments, scratch memory, AND, the four conditional jumps, JA and RET with a constant. Words are natural numbers below 2^32; every store to a `uint8_t` or `uint32_t` is an explicit truncation.
* System call numbers and seccomp constants are those of the Linux headers of x86-64, ppc64le, arm64 and arm.
* `stat`, `Exists`, ELF parsing and library lookup are functions of a fixed file system. The number that `dup` picks is any free one. `waitpid`, `ptrace`, `kill`, clocks and the user's `Notify` object are arbitrary answers, one record for each iteration of the main loop.
* A failed CHECK ends the process; methods return `false` there and promise only what holds of the ones that go on.
* Unordered containers are visited in any order.

## Model

| member | source | states |
|---|---|---|
| Bpf.BoundedRun | sandboxed_api/sandbox2/policybuilder.cc:82-90 | a program whose jumps all pass `CheckBpfBounds` returns or is left exactly at its end, from every position and for every input |
| Bpf.BoundedIff | sandboxed_api/sandbox2/policybuilder.cc:82-90 | a program passes `CheckBpfBounds` exactly when no jump leads past its end, whether it can be taken or not |
| Bits.BitAndBits | sandboxed_api/sandbox2/util/bpf_helper.h:184-186 | bit k of a conjunction is set exactly when it is set in both operands |
| Bits.CommonBit | sandboxed_api/sandbox2/util/bpf_helper.h:228-236 | two 64-bit numbers have a bit in common exactly when their upper or their lower halves do |
| Wide.Code32Decides | sandboxed_api/sandbox2/util/bpf_helper.h:176-202 | each 32-bit comparison reaches its instruction exactly when it is true of the accumulator, and keeps the machine |
| Wide.Code64Decides | sandboxed_api/sandbox2/util/bpf_helper.h:204-284 | each 64-bit comparison reaches its instruction exactly when it is true of the whole number, and on both ways the high half is in the accumulator again |
| Wide.CompareArgument | sandboxed_api/sandbox2/util/bpf_helper.h:169-284 | a body that loads an argument and compares it returns its action exactly when the 64-bit argument compares so, and is left at its end otherwise |
| Bpf.RunSeq | sandboxed_api/sandbox2/policybuilder.cc:1116-1117 | concatenated programs run one after the other, the second from where the first was left |
| Dispatch.ShortJumpsFit | sandboxed_api/sandbox2/policybuilder.cc:1092-1115 | no distance stored in a `uint8_t` is ever truncated, for lists and bodies of any length |
| Dispatch.MissPasses | sandboxed_api/sandbox2/policybuilder.cc:1086-1117 | a number outside a list of any length passes all comparisons and helper jumps and leaves the block at its end with the machine unchanged |
| Dispatch.HelperLands | sandboxed_api/sandbox2/policybuilder.cc:1106-1113 | a helper jump leads into the body at its second instruction with the offset of the code, and at the first with one less |
| Dispatch.MatchEnters | sandboxed_api/sandbox2/policybuilder.cc:1086-1117 | a listed number enters the body at the first instruction when within reach, and where the helper jumps lead otherwise |
| Rules.TailRun | sandboxed_api/sandbox2/policybuilder.cc:1063-1081 | an accepted body returns, or reaches its trailing load and leaves with the number in A; no jump crosses the end of the block |
| Rules.CompiledRules | sandboxed_api/sandbox2/policybuilder.cc:109-142 | the code of a list of rules returns the decision of the first rule that decides, or is left at its end with A = nr |
| Rules.NormalisedRuns | sandboxed_api/sandbox2/policybuilder.cc:1063-1078 | a normalised body does what the body does, except that every TRACE it returns carries the host's architecture |
| Rules.DispatchExact | sandboxed_api/sandbox2/policybuilder.cc:1059-1119 | the block runs each body of n instructions from its start exactly for the listed numbers, for all inputs, if and only if n = 0 or the list needs no helper jump |
| Rules.MisdirectedBody | sandboxed_api/sandbox2/policybuilder.cc:1106-1113 | for every longer list, a body and an input on which the block does not do what it is for |
| Rules.RepairedDispatch | sandboxed_api/sandbox2/policybuilder.cc:1106-1113 | with helper offsets one smaller, dispatch is right for lists of every length |
| PolicyBuilders.PolicyBuilder.CheckBody | sandboxed_api/sandbox2/policybuilder.cc:1061-1085 | the loop rejects exactly the bodies with a jump out of bounds or too many instructions, and normalises every TRACE of another value, which the bit masks of the code find exactly |
| PolicyBuilders.PolicyBuilder.EmitComparisons | sandboxed_api/sandbox2/policybuilder.cc:1086-1116 | the loop over the reversed list builds the block of module Dispatch |
| PolicyBuilders.PolicyBuilder.AddPolicyOnSyscalls | sandboxed_api/sandbox2/policybuilder.cc:1059-1119 | the instruction vector stays the compilation of the rules, or the error is recorded and nothing is added |
| PolicyBuilders.PolicyBuilder.AllowSyscall | sandboxed_api/sandbox2/policybuilder.cc:109-114 | a rule is added unless the number is handled, and the vector stays the compilation of the rules |
| PolicyBuilders.PolicyBuilder.BlockSyscallWithErrno | sandboxed_api/sandbox2/policybuilder.cc:131-142 | the same, and blocking ptrace or bpf for the first time is noted |
| PolicyBuilders.PolicyBuilder.OverridableBlockSyscallWithErrno | sandboxed_api/sandbox2/policybuilder.cc:144-149 | the rule that returns the errno goes behind all others whatever has been handled, and the vector stays the compilation of the rules |
| PolicyBuilders.PolicyBuilder.TryBuild | sandboxed_api/sandbox2/policybuilder.cc:1174-1229 | at most one policy is handed out: user rules, default action, overridable rules; otherwise the first of the error conditions that applies, and nothing changes |
| Labels.BpfResolveJumps | sandboxed_api/sandbox2/util/bpf_helper.c:31-73 | the backward loop succeeds exactly on the programs that can be resolved, and then every jump has the distance to its label |
| Labels.ResolvingKeepsMeaning | sandboxed_api/sandbox2/util/bpf_helper.c:31-73 | the resolved program does on every input what the program with labels means |
| Labels.ResolvableIff | sandboxed_api/sandbox2/util/bpf_helper.c:31-73 | a program can be resolved exactly when every jump has its label further on and no label is set twice |
| LabelledPolicies.DefaultResolves | sandboxed_api/sandbox2/policy.cc:98-194 | the default policy as written with labels can be resolved in every configuration, and resolves to the program reasoned about |
| LabelledPolicies.GetDefaultPolicy | sandboxed_api/sandbox2/policy.cc:98-194 | the resolved default policy is returned; resolving never fails |
| LabelledPolicies.GetPolicy | sandboxed_api/sandbox2/policy.cc:58-89 | default policy, load, user policy and KILL are assembled in this order, with KILLs replaced in the notification mode, or the tracking policy is returned |
| Policies.ReplaceKills | sandboxed_api/sandbox2/policy.cc:78-85 | the loop replaces exactly the instructions that return KILL |
| Policies.EntriesCheck | sandboxed_api/sandbox2/policy.cc:98-154 | the checks of the architecture, of the first execveat and of the seccomp call of the client decide as `EntryDecision` says and otherwise leave A = nr |
| Filters.KillsReplaced | sandboxed_api/sandbox2/policy.cc:78-85 | replacing KILLs maps the outcome KILL to a notification and changes no other outcome of any program |
| Filters.FilterDecides | sandboxed_api/sandbox2/policy.cc:58-194 | for every builder that can be built, both modes and every input, the filter returns the first-match decision over default checks, user rules in call order, default action, overridable rules, then KILL |
| Filters.FilterDecidesAsMeant | sandboxed_api/sandbox2/policy.cc:58-89 | when no list needs a helper jump, the decision is the one of the first rule meant to decide, each body run from its start |
| Filters.CallsBuildable | sandboxed_api/sandbox2/policybuilder.cc:1174-1191 | every sequence of calls without an error and within the length limit can be built, and no other |
| CallLaws.BuildableIff | sandboxed_api/sandbox2/policybuilder.cc:1059-1191 | calls can be built exactly when every body passes the bounds check and fits, and the code has at most 30000 instructions: a rejected body is never forgotten |
| CallLaws.StatusOfCalls | sandboxed_api/sandbox2/policybuilder.cc:1061-1085 | the error on record is the one of the last body that was rejected |
| CallLaws.FilterOfCalls | sandboxed_api/sandbox2/policy.cc:58-194 | for every sequence of calls that can be built: a foreign architecture is traced under its name or reported, the start of the sandboxee is traced or allowed, what is denied by default is killed (ptrace and bpf unless their first plain call is a block, clone exactly with bit 23, seccomp exactly with bit 3), and all else gets the word of the first call that decides, the default action, the first overridable block with its errno in the low 16 bits, or KILL |
| CallLaws.OverridableReturnsErrno | sandboxed_api/sandbox2/policybuilder.cc:144-149 | an overridable block returns its errno when no other call decides about the number, and the first of several wins |
| MmapPolicies.ScudoMmapAllows | sandboxed_api/sandbox2/policybuilder.cc:215-236 | the resolved body allows read and write with one of four sets of flags and no access with one, and passes on everything else |
| MmapPolicies.SystemMmapAllows | sandboxed_api/sandbox2/policybuilder.cc:280-297 | the resolved body allows read and write with two sets of flags and no access with one, and passes on everything else |
| Filters.TrackingTraces | sandboxed_api/sandbox2/policy.cc:197-214 | the tracking policy sends every system call to the monitor with its architecture |
| BuilderLaws.HandledCheckIsSound | sandboxed_api/sandbox2/policybuilder.cc:109-142 | leaving out the rules of handled numbers decides every system call as appending all rules would |
| BuilderLaws.AllowsCommute | sandboxed_api/sandbox2/policybuilder.h:64-81 | two `AllowSyscall` calls can be swapped after and before any other calls without changing any decision |
| BuilderLaws.FiltersCommute | sandboxed_api/sandbox2/policybuilder.h:64-81 | both orders can be built or neither can, and the two filters do the same with every system call |
| BuilderLaws.GuardedNeverAllowed | sandboxed_api/sandbox2/policy.cc:156-167 | a guarded ptrace or bpf is decided by KILL, a notification, an errno or a TRACE, each below every word that allows, whatever the calls, mode and arguments |
| BuilderLaws.GuardedFilterDenies | sandboxed_api/sandbox2/policy.cc:156-167 | the filter of every guarded sequence of calls that can be built returns such a word for the number |
| BuilderLaws.PlainCallsAreGuarded | sandboxed_api/sandbox2/policybuilder.cc:109-142 | no sequence of calls without `AddPolicyOnSyscalls` breaks the guard |
| BuilderLaws.UnguardedCanBeAllowed | sandboxed_api/sandbox2/policybuilder.cc:131-142 | for every unguarded sequence of calls there are bodies with which the decision is to allow: the guard is exact |
| BuilderLaws.UnguardedFilterAllows | sandboxed_api/sandbox2/policybuilder.cc:131-142 | the filter of every unguarded sequence of calls, with bodies that allow and if it can be built, allows the number |
| BuilderLaws.BodyThenBlockAllows | sandboxed_api/sandbox2/policybuilder.cc:131-142 | a body for ptrace or bpf followed by a block of it can be built, and its filter allows the call on every host |
| Paths.CleanPath | sandboxed_api/util/path.cc:72-101 | the loop over the components gives the cleaned path, the one that PathLaws characterises |
| Paths.CleanIdempotent | sandboxed_api/util/path.cc:72-101 | cleaning twice is cleaning once, and keeps the components |
| Paths.CleanForm | sandboxed_api/util/path.cc:72-101 | absoluteness is kept, the result is the canonical spelling of its components, `.` is only the whole result and `..` only leads a relative path |
| Paths.CleanPrefix | sandboxed_api/util/path.cc:72-101 | a prefix can be cleaned before the rest is appended if and only if it is not empty |
| PathLaws.CleanKeepsPlace | sandboxed_api/util/path.cc:72-101 | the cleaned path leads where the path does, from every working directory |
| PathLaws.CleanUnique | sandboxed_api/util/path.cc:72-101 | every canonical path, absolute exactly when the path is, that leads where the path does from every directory is the cleaned path |
| PathLaws.DotDotRemoves | sandboxed_api/util/path.cc:77-86 | a component and the `..` behind it can be left out |
| PathLaws.DotRemoves | sandboxed_api/util/path.cc:77-86 | so can a `.` |
| PathLaws.DotDotAtRoot | sandboxed_api/util/path.cc:72-101 | a `..` at the root can be left out |
| PathLaws.ProperIsKept | sandboxed_api/util/path.cc:72-101 | an absolute path of proper components is kept as it is |
| Paths.JoinPathImpl | sandboxed_api/util/path.cc:30-48 | the components of the result are those of all arguments in order, and it is absolute exactly when the first argument that is not empty is |
| Paths.JoinPathCleans | sandboxed_api/util/path.cc:30-48 | joining to a non-empty path and putting a slash in between come to the same place |
| PathLaws.JoinIsCanonical | sandboxed_api/util/path.cc:30-48 | joining canonical spellings gives the canonical spelling of all components |
| PathLaws.JoinSlash | sandboxed_api/util/path.cc:30-48 | one slash at the seam, on either side or on none, makes no difference |
| MountTrees.FailedInsertChangesNothing | sandboxed_api/sandbox2/mounts.cc:256-290 | an `Insert` that fails leaves the whole tree as it was, although it creates entries while it walks |
| MountTrees.FailedRemoveChangesNothing | sandboxed_api/sandbox2/mounts.cc:191-208 | a `Remove` that fails changes nothing |
| MountTrees.InsertSucceedsIff | sandboxed_api/sandbox2/mounts.cc:256-290 | `Insert` succeeds exactly when no file is mounted above and the entry is free, and has no entries if the node is a file, or holds a mount of the same kind, with the same flag, of the same file or with the same options; it fails with FailedPrecondition otherwise |
| MountTrees.InsertedNode | sandboxed_api/sandbox2/mounts.cc:148-171 | after a successful `Insert` the path holds the node, or the one that was there and agrees with it in kind, flag, and file or options |
| MountTrees.InsertResolves | sandboxed_api/sandbox2/mounts.cc:210-290 | after an `Insert` at p, paths below p resolve in the entry there, paths that enter a created entry are not found, and all others resolve as before |
| MountTrees.InsertedResolves | sandboxed_api/sandbox2/mounts.cc:210-346 | after a successful `Insert` the path resolves to the new outside path or to the one of the equivalent mount that was there |
| MountTrees.InsertKeepsNodes | sandboxed_api/sandbox2/mounts.cc:256-290 | no mounted node is ever changed by an `Insert` |
| MountTrees.InsertSetsOnly | sandboxed_api/sandbox2/mounts.cc:256-290 | no node is set but the one at the path |
| MountTrees.DeepestEntryResolves | sandboxed_api/sandbox2/mounts.cc:314-346 | a path is resolved by the deepest entry on it, and by nothing above that entry |
| MountTrees.RemoveResolves | sandboxed_api/sandbox2/mounts.cc:175-208 | after a successful `Remove` the path and all below it are not found, and every other path resolves as before |
| MountTrees.RemoveKeepsNodes | sandboxed_api/sandbox2/mounts.cc:191-208 | the removed entry is empty, and every mount elsewhere stays |
| MountTrees.RemoveSucceedsIff | sandboxed_api/sandbox2/mounts.cc:175-208 | in a well-formed tree `Remove` succeeds exactly on the paths that are in it |
| MountTrees.InsertKeepsRoot | sandboxed_api/sandbox2/mounts.cc:261-290 | an `Insert` keeps the tree well-formed: files have no entries and all keys are clean components without null bytes |
| MountTrees.RemoveKeepsRoot | sandboxed_api/sandbox2/mounts.cc:191-208 | so does a `Remove` |
| MountPoints.Mounts.Insert | sandboxed_api/sandbox2/mounts.cc:210-290 | the checks and the walk with a cursor do what the tree function says, keep the tree well-formed, and change nothing on failure; InvalidArgument exactly for a null byte, a relative path, the root or a missing source, and on success the mount, or one that agrees with it, is there |
| MountPoints.InsertPathIff | sandboxed_api/sandbox2/mounts.cc:210-290 | by path: which of the three statuses is returned, each exactly when, and what is mounted then |
| MountPoints.Mounts.Remove | sandboxed_api/sandbox2/mounts.cc:175-208 | the same for removal |
| MountPoints.RemovePathIff | sandboxed_api/sandbox2/mounts.cc:175-208 | by path: which of the three statuses is returned, each exactly when, and that nothing is left there on success |
| MountPoints.Mounts.ResolvePath | sandboxed_api/sandbox2/mounts.cc:314-346 | the loop over a string cursor resolves the cleaned components of the path |
| MountPoints.Mounts.AddTmpfs | sandboxed_api/sandbox2/mounts.cc:508-513 | the node has the size as its option and is inserted like any other |
| MountPoints.Mounts.RecursivelyListMounts | sandboxed_api/sandbox2/mounts.cc:708-740 | for every order of visits the two lists are aligned and hold exactly one pair for each mounted node |
| MountPoints.ListedResolves | sandboxed_api/sandbox2/mounts.cc:314-346 | the inside path of every listed file or directory resolves to its outside path |
| MountPoints.ListedAs | sandboxed_api/sandbox2/mounts.cc:708-740 | an entry is marked W exactly when it is writable and R otherwise, a directory has a slash on both sides, a tmpfs shows its options |
| Libraries.CollectLibraries | sandboxed_api/sandbox2/mounts.cc:410-495 | for every import graph, cyclic ones included, the loop ends and the pending list stays within 1000; it succeeds exactly when the graph is within the limits and a depth-first visit meets no name too deep, which is so without a name behind a simple chain of ten libraries; the set is then exactly the libraries reachable through resolvable imports; every error is witnessed by the graph, and the limit on loaded libraries is never reached |
| Libraries.AddMappings | sandboxed_api/sandbox2/mounts.cc:410-503 | on success the interpreter and exactly the reachable libraries are mounted read-only, and earlier mounts are kept; a failure to mount names a library or the interpreter that the tree rejects with that status, and is the only failure of a graph that can be collected; any other failure leaves the tree as it was |
| Descriptors.MoveFDs | sandboxed_api/sandbox2/forkserver.cc:92-130 | a parallel move: moved variables hold their targets, every tracked variable refers to its file under a number of its own, other variables and descriptors are unchanged, and nothing is leaked; it fails only when `dup` or `dup2` refuses or a tracked variable has a negative target |
| Ipc.ParseUndoesWire | sandboxed_api/sandbox2/client.cc:221-228 | reading what was sent gives back the mappings in order |
| Ipc.SendFdsOverComms | sandboxed_api/sandbox2/ipc.cc:57-83 | a beginning of the messages is sent, all of them exactly on success, which is exactly when the connection takes them all and every descriptor is open; then the other side reads exactly the entries of the map |
| Ipc.MoveAway | sandboxed_api/sandbox2/comms.cc:675-682 | a tracked variable moves to a new number that was free, keeps its file, and leaves its old number to nobody; it fails only when the kernel refuses, and then nothing moves |
| Ipc.SetUpIPC | sandboxed_api/sandbox2/client.cc:205-276 | preserved descriptors and the connection keep their files under current numbers, and the rest of the table is as before with every mapping installed in order, at the number it asked for or at one that was free; if the requests are safe every mapping is found at its number in the end; it fails only when the kernel refuses, the messages do not parse, a name repeats or a request is below -1 |
| Ipc.InstalledStays | sandboxed_api/sandbox2/client.cc:248-270 | a mapping stays installed unless a later one takes its number |
| IpcLaws.UnrequestedStays | sandboxed_api/sandbox2/client.cc:250-270 | a mapping refers to its file at the end when no later one asks for its number |
| IpcLaws.RequestedTakes | sandboxed_api/sandbox2/client.cc:250-270 | otherwise its number refers to the file of the last later mapping that asks for it |
| IpcLaws.LateRequestTakes | sandboxed_api/sandbox2/client.cc:250-274 | two mappings after which the name of the first refers to the file of the second |
| IpcLaws.NeverLostIff | sandboxed_api/sandbox2/client.cc:250-270 | all mappings get different numbers, whichever free ones the kernel picks, if and only if no number is asked for twice and none that is free at first is asked for behind a mapping that asks for none |
| IpcLaws.EntriesArrive | sandboxed_api/sandbox2/client.cc:205-276 | when the mappings that are installed are the entries that were sent, and safe, every entry's file is found at the wanted number and under its name |
| IpcLaws.NamesExactly | sandboxed_api/sandbox2/client.cc:272-274 | exactly the non-empty names of the mappings are known |
| Ipc.NamesGive | sandboxed_api/sandbox2/client.cc:272-274 | every named mapping is found under its name |
| ClientEnv.EnvRoundTrip | sandboxed_api/sandbox2/client.cc:130-149 | parsing the environment variable gives back the map, for every order of visits, if and only if no name is empty or holds a comma |
| ClientEnv.OddIsRejected | sandboxed_api/sandbox2/client.cc:130-149 | a value that ends with a new name and no number is not accepted |
| MonitorModel.RunSafe | sandboxed_api/sandbox2/monitor_ptrace.cc:264-393 | in every run the CHECK in `SetExitStatusCode` never fires, the loop is left exactly when a status is set, and every reported return belongs to the latest decision to inspect, with no exit stop or report of the process in between |
| MonitorModel.ReportedAtMostOnce | sandboxed_api/sandbox2/monitor_ptrace.cc:720-803 | between two reports of a process in a run there is the decision that the later one is for: no decision is reported twice |
| MonitorModel.ReportsExact | sandboxed_api/sandbox2/monitor_ptrace.cc:349-383 | no report comes after the death of its process, at any point of the run and whatever the kernel answers next, if and only if `waitpid` never reports the death of a process other than the main one whose call is still in progress |
| MonitorModel.DeadThreadReported | sandboxed_api/sandbox2/monitor_ptrace.cc:637-644 | a run in which the call of a thread killed without an exit stop is reported after its death, and monitoring goes on |
| MonitorModel.ExitStopsKeepOrder | sandboxed_api/sandbox2/monitor_ptrace.cc:800-803 | a kernel that gives every process an exit stop between its last seccomp stop and its death makes only runs in which reports precede deaths |
| MonitorModel.RunExplained | sandboxed_api/sandbox2/monitor_ptrace.cc:364-383 | EXTERNAL_KILL, TIMEOUT and SIGNALED are given only when the iterations up to then hold the request named and none that takes precedence |
| MonitorModel.OkMeansMonitored | sandboxed_api/sandbox2/monitor_ptrace.cc:349-363 | OK implies that the sandboxee was executed, in every run, if and only if stack traces on exit are off or no execve is awaited |
| Verdicts.WaitJudged | sandboxed_api/sandbox2/monitor_ptrace.cc:330-392 | handling a wait gives a status and reason exactly when they are due: VIOLATION for a call of another architecture, a denied call, a death by seccomp, or the death of the main process with a network violation on record, and likewise every other status |
| Verdicts.WaitRecorded | sandboxed_api/sandbox2/monitor_ptrace.cc:617-803 | a decision, a return with its value, an exit stop or a death is logged exactly when it is due, and the first exec starts monitoring |
| Verdicts.WaitFlags | sandboxed_api/sandbox2/monitor_ptrace.cc:911-931 | a stack dump that was asked for is done with at a stop of the main process where it can be made, and all requests stay on record |
| RunVerdicts.RequestsJudged | sandboxed_api/sandbox2/monitor_ptrace.cc:294-326 | the loop is left exactly when a request cannot be acted on, with the reason of the first one |
| RunVerdicts.RunRemembers | sandboxed_api/sandbox2/monitor_ptrace.cc:294-393 | a run that is going on remembers exactly the requests made, a stack dump still to be done, and whether a program was executed |
| RunVerdicts.RunVerdict | sandboxed_api/sandbox2/monitor_ptrace.cc:294-393 | for every run, status and reason: the run has them if and only if some iteration, while the run was going on, called for them, given what happened before |
| RunVerdicts.ViolationIff | sandboxed_api/sandbox2/monitor_ptrace.cc:294-393 | a run ends with VIOLATION if and only if an iteration showed one while it was going on: a denied call is never let through |
| Monitors.PtraceMonitor.Run | sandboxed_api/sandbox2/monitor_ptrace.cc:264-393 | the class with updated fields keeps its calls in progress equal to what the log leaves pending, returns exactly with a status, ends with VIOLATION if and only if an iteration showed one, with SETUP_ERROR when it cannot start, and makes the runs that the theorems are about |
| Monitors.PtraceMonitor.HandleWait | sandboxed_api/sandbox2/monitor_ptrace.cc:330-392 | handling a wait gives exactly the status that is due and logs exactly what is due, follows it in the calls in progress, and sets a status only while none is set |
| Monitors.MonitorBase.Launch | sandboxed_api/sandbox2/monitor_base.cc:154-259 | a launch finishes exactly once, with the status that was set; the first step that fails gives the reason, and then the process is killed and nothing is monitored; otherwise monitoring is run and nothing is killed |
| Monitors.PidWaiter.RefillStatuses | sandboxed_api/sandbox2/monitor_ptrace.cc:103-122 | the priority process is asked for first and then any, until there is an error or nothing is left for any process, and no longer; nothing that the kernel reports is lost or reordered |
| Monitors.PidWaiter.Wait | sandboxed_api/sandbox2/monitor_ptrace.cc:83-100 | reports and errors are handed out one at a time, each once, in the order of the kernel's answers; it comes back with nothing only when the kernel has just been asked for any process and had none |
| Wire.BytesRoundTrip | sandboxed_api/sandbox2/comms.cc:245-257 | an integer that fits is read back from its bytes |
| Wire.DecodeEncode | sandboxed_api/sandbox2/comms.cc:225-258 | a message is read back from its encoding, and nothing more is wanted |
| Wire.Layout | sandboxed_api/sandbox2/comms.cc:245-257 | the bytes of a message: four of tag, eight of length, least significant first, then the value |
| Wire.BeginningOfStream | sandboxed_api/sandbox2/comms.cc:575-620 | a receiver that never takes more than it wants has a beginning of the first message, and all of it exactly when it wants nothing |
| Comms.Connection.Send | sandboxed_api/sandbox2/comms.cc:512-544 | for every sequence of short writes and errors a prefix is written, all of it exactly on success; short writes are continued, and it fails exactly at the first write that fails or writes nothing; the connection ends exactly on an error other than EAGAIN, EFAULT, EINTR, EINVAL and ENOMEM, and a closed one sends nothing |
| Comms.Connection.Recv | sandboxed_api/sandbox2/comms.cc:546-572 | the next bytes in order, as many as asked for exactly on success; short reads are continued, and it fails exactly at the first read that fails or reads nothing; the connection ends exactly at the end of the stream or on a fatal error |
| Comms.Connection.SendTLV | sandboxed_api/sandbox2/comms.cc:225-258 | a prefix of the encoding is written, all of it exactly on success, and nothing when the value is too long; otherwise it fails exactly at the first write that transfers nothing |
| Comms.Connection.RecvTL | sandboxed_api/sandbox2/comms.cc:575-600 | succeeds exactly when a whole header within the limit was taken, and gives its tag and length; it fails exactly at the first read that transfers nothing, or on a whole header above the limit |
| Comms.Connection.RecvTLV | sandboxed_api/sandbox2/comms.cc:602-620 | succeeds exactly when the bytes taken are a whole message within the limit, and they are the encoding of what is returned; fails exactly at the first read that transfers nothing, or on a header above the limit |
| Comms.Connection.RecvTLVInto | sandboxed_api/sandbox2/comms.cc:622-640 | the same with a buffer; of a message that does not fit only the header is taken |
| Comms.ReceivedIsSent | sandboxed_api/sandbox2/comms.cc:611-620 | what is received from a stream of sent messages is the first of them |
| Transmission.ReceiverSeesMutexOrder | sandboxed_api/sandbox2/comms.cc:225-258 | for every interleaving of senders, every split of writes and reads and every error, as long as nothing is written behind a half-written message: the receiver holds a prefix of the messages in mutex order, sees no length above the limit, and once the stream is drained holds all of them but for the half-written one |
| Transmission.HalfWrittenMisleads | sandboxed_api/sandbox2/comms.cc:512-544 | after a non-fatal error within any message, at any byte, one further message makes the receiver take a message that was not sent or a length above the limit |
| Transmission.RightExact | sandboxed_api/sandbox2/comms.cc:512-544 | after every run with the mutex free, the receiver stays right however callers that finish go on, if and only if no message was left half-written on a connection that is still up |
| Transmission.SendsInChunks | sandboxed_api/sandbox2/comms.cc:512-544 | whenever the mutex is free and the connection is up, any caller can send any message, in chunks of any sizes |
| Transmission.ReadAtOnce | sandboxed_api/sandbox2/comms.cc:546-572 | reading what is wanted in one piece does what reading it byte by byte does |
| Transmission.CanFinish | sandboxed_api/sandbox2/comms.cc:225-258 | every run with the connection up and nothing left half-written can go on until the receiver has all messages |
| Transmission.FatalError | sandboxed_api/sandbox2/comms.cc:512-544 | after a fatal error nothing is written any more |

## Left out

- The namespace part of `TryBuild`, the policy description and the many `Allow*` methods, which only add instances of the same rules.
- `UnotifyMonitor`, whose wait after the loop can end without a status.
- The wait for the sandboxee after the main loop of `PtraceMonitor::Run`: it sets no status and reports nothing to the user.
- `InitPtraceAttach`, `InitSetupSignals`: one answer each; clocks, registers, stack traces and logging are not modelled.
- How a stopped process is resumed (`ContinueProcess`, `CompleteSyscall`, `StopProcess`): calls on the kernel without an answer that the monitor looks at.
- A `seccomp` limit on the length of the assembled filter is the kernel's and not part of the code.
- `RecvFD` and `SendFD`: a descriptor travels as one message; the control messages and their alignment are not modelled.
- The sizes and tags of `RecvInt`, `RecvString` and the other typed calls on top of the messages.
- `absl::SimpleAtoi`: only the decimal numbers that are written are read; white space and overflow are not modelled.
- `ResolveLibraryPath`, the search paths and the checks of the interpreter: library lookup is a function.
- `Insert` of a node that is not set: no caller does it.
- `CreateMounts`, namespaces, the fork server apart from `MoveFDs`, and everything that only makes system calls.
- Validity of iterators of hash maps, memory orders, and the variants for sanitizers and Android.
- `contrib/`, `oss-internship-2020/`, and the layer of SAPI variables and remote calls.
