# Verified models of the release and readiness scripts

This project models the parts of three scripts in which a mistake would go unnoticed, and proves
what those parts promise, for every input and every run:

* `scripts/migration-readiness.py` — how worker intervals become attempt timings and are checked
  again, how one task's resources are sampled, recorded and re-validated, which processes count as
  one tree, and the JSON-Schema subset evaluator;
* `scripts/release-binaries.py` — the tar image of a release archive (the ustar interchange format
  of the pax utility in POSIX.1-2017), the walks over ELF program headers and dynamic tables
  (System V gABI) and Mach-O load commands, and the all-or-nothing store of a binary set;
* `scripts/reviewed-docker-consumer-run.py` — the supervised child process, its bounded failure
  diagnostic, and the custody observer with its budget ledger.

| files | content |
|---|---|
| `Prelude.dfy` | options, results, sums over sequences, the stable sort behind `sorted` |
| `Intervals.dfy`, `Timing.dfy` | intervals as sets of instants; the sweep line and the interval merge |
| `AttemptTimings.dfy`, `AttemptLaws.dfy`, `AttemptMeaning.dfy` | the validator of attempt timings, what acceptance implies, and exactly what it means |
| `Collector.dfy`, `CollectorLaws.dfy` | the collector of worker evidence and when the validator agrees with it |
| `Sampler.dfy`, `SamplerLaws.dfy` | the resource sampler, and what its registration, samples and snapshots mean |
| `Evidence.dfy`, `EvidenceLaws.dfy`, `EvidenceMeaning.dfy` | `run_task`, the re-check of its record, and what both decide in terms of the readings |
| `ProcessTree.dfy` | resident memory of a process and its descendants |
| `Schema.dfy` | the schema evaluator: termination, meaning, inlining of references |
| `Bytes.dfy`, `Ustar.dfy`, `Archive.dfy`, `HeaderBytes.dfy` | tar headers, the archive builder and the archive validator, and the headers byte for byte |
| `Binary.dfy`, `BinaryLaws.dfy` | ELF and Mach-O validation, and its meaning on the bytes of a file |
| `Store.dfy`, `StoreLaws.dfy` | exclusive creation, the transactional copy, `collect` and `read_set`, and what the manifest binds |
| `Diagnostic.dfy`, `Supervisor.dfy` | the diagnostic automaton and the supervision loop |
| `Custody.dfy`, `CustodyLaws.dfy` | the custody observer, and which rows, visits and endings it accepts |

Loops and objects of the scripts are methods and classes here; each is tied by its `ensures` to a
specification function or to a declared property, and the laws are lemmas about those. What a
specification function decides is in turn stated without it, on the inputs alone, in the lemmas named
`...Means`, `...Iff` and `...Shown`. Whatever the program does not decide — clocks, signals, other processes, files, readers, library calls — is a
parameter over which the theorems quantify.

## Where the code does not do what one would expect

* Timestamps. The collector and the validator visit tasks in different orders and compare the texts
  of the earliest start and latest finish. They agree exactly when, besides chronological attempts,
  both orders meet the same text (`CollectorLaws.CollectedAcceptedIff`). `now()` writes one text for
  one instant, RFC 3339 (section 5.6) does not: `CollectorLaws.OffsetsRefused` is a collection whose
  timings the validator refuses.
* Podman lookup. The sampler looks for podman once, preflight looks again. A record that `run_task`
  marks passed is accepted by the validator exactly when a required podman was found the first time
  (`EvidenceLaws.PassedAcceptedIff`); `EvidenceLaws.FlickerRefused` is a passed record that is refused.
* Long versions. `binding` admits versions of 128 characters, but an archive can be built exactly when
  version and target have at most 145 characters together (`Store.PackageableIff`). A version of 127
  characters or more fits no target, and `Store.LongVersionRefused` names one that `binding` admits.
* Ledger. Acknowledged deltas telescope and nothing is counted twice. For honest rows the report is
  the holder's work and the observer's if and only if the case is `positive` or `guard-loss`, where the
  holder publishes a result (`Custody.ReportExactIff`); in every other case the last acknowledged delta
  is in neither term. In `Custody.LostOwnerReport` 18 calls are made and 17 reported. For the same
  reason the allowance bounds the true total only up to that delta (`Custody.TrueTotalBounded`).
* "Descriptors seen closed" also comes out true when the guard is already dead, since nothing is
  listed then. Which finished runs saw a listing without role directories from a living guard is read
  off their looks (`Custody.FinishedRunListed`); `Custody.DeadGuardFinishes` is a run that saw none.
* An accepted child whose output is empty is rejected by the final read of the log; the condition
  `log != []` in `Supervisor.Execute` and `0 < |Output(env, n)|` in `Supervisor.WellBehaved` say so.

## Model

| member | source | states |
|---|---|---|
| Intervals.MaxOverlapIsMaximum | scripts/migration-readiness.py:211-227 | overlap is the maximum over all instants of the number of tasks with start <= t < finish, and some instant reaches it |
| Intervals.MaxOverlapPermutation | scripts/migration-readiness.py:211-227 | overlap does not depend on the order of the tasks |
| Intervals.MeasurePermutation | scripts/migration-readiness.py:230-251 | the union and its measure do not depend on the order of the tasks |
| Intervals.DoubleCounting | scripts/migration-readiness.py:211-251 | the sum of the lengths lies between the union measure and that measure times the overlap; the union measure fits between earliest start and latest finish |
| Intervals.WindowsDecompose | scripts/migration-readiness.py:211-251 | over two consecutive windows overlap is the maximum and union measure the sum |
| Timing.CollectSpans | scripts/migration-readiness.py:213-219 | the intervals of the tasks, or an error naming the first empty or reversed one |
| Timing.RunningCountBounded | scripts/migration-readiness.py:219-224 | because finishes sort before starts at one instant, no running count of the sweep exceeds the overlap |
| Timing.SweepFindsOverlap | scripts/migration-readiness.py:219-224 | the largest running count over sorted events is the overlap |
| Timing.MaximumIntervalOverlap | scripts/migration-readiness.py:211-227 | returns the set-level overlap in any order; the final consistency check fires only on an empty list |
| Timing.Merge | scripts/migration-readiness.py:242-250 | the merge of sorted intervals computes the exact measure of their union, with nesting, duplicates and touching ends |
| Timing.ActiveIntervalSeconds | scripts/migration-readiness.py:230-251 | the rounded measure of the union for any order; its errors are the empty list and the first improper interval |
| AttemptTimings.CheckGroup | scripts/migration-readiness.py:297-322 | one entry is accepted exactly when it states the earliest start, latest finish, active time and overlap of its tasks, within limits and not before the previous finish |
| AttemptTimings.CheckAttempt | scripts/migration-readiness.py:279-323 | one turn of the loop accepts exactly the entries with a larger attempt, known distinct unused ids and matching values |
| AttemptTimings.EntryExtends | scripts/migration-readiness.py:275-323 | comparing only with the entry before and with the ids seen is exactly what extends an accepted prefix |
| AttemptTimings.ValidateEntries | scripts/migration-readiness.py:273-326 | aggregate entries are accepted exactly when every entry, every adjacent pair and the coverage of ids are right; the result is the longest attempt |
| AttemptTimings.ValidateAttemptTimings | scripts/migration-readiness.py:254-326 | for each evidence kind, exactly which runs are accepted and which wall time they must state |
| AttemptLaws.ChainOrders | scripts/migration-readiness.py:310-312 | from adjacent checks alone, every earlier attempt finishes before any later one starts |
| AttemptLaws.AttemptsPartition | scripts/migration-readiness.py:287-325 | the attempts contain every task exactly once |
| AttemptLaws.GroupsDecompose | scripts/migration-readiness.py:254-326 | over chronological attempts overlap is the largest attempt overlap and union measure the sum of the attempts' measures |
| AttemptLaws.AcceptedRunDecomposes | scripts/migration-readiness.py:254-326 | accepted evidence partitions the tasks into attempts in order, decomposes overlap and active time, and keeps the concurrency limit for the whole run |
| AttemptMeaning.DescribesMeans | scripts/migration-readiness.py:297-322 | what is checked of one entry, on its tasks alone: their ids in order, the text of the first earliest start and of the first latest finish, the rounded union measure and the overlap, both within limits |
| AttemptMeaning.AcceptedIff | scripts/migration-readiness.py:273-326 | for tasks of different ids, timings are accepted if and only if they split the tasks into attempts of increasing number, every task of one finished before any of a later one starts, and each entry states what its own tasks say |
| Collector.GroupByAttempt | scripts/migration-readiness.py:2269-2274 | tasks grouped by attempt in worker order, attempts in order of first meeting, refused on any missing or non-positive attempt |
| Collector.BuildEntry | scripts/migration-readiness.py:2277-2305 | the entry of one attempt, refused exactly when the attempt is outside the limits |
| Collector.BuildEntries | scripts/migration-readiness.py:2276-2305 | one entry per attempt in ascending order, refused exactly when some attempt is outside the limits |
| Collector.BuildAggregate | scripts/migration-readiness.py:2269-2319 | entries, wall time, first start, last finish and concurrency of the aggregate, and exactly when they are refused |
| CollectorLaws.ResortedPermutes | scripts/migration-readiness.py:296-303 | looking tasks up through their sorted ids visits each of them exactly once |
| CollectorLaws.EntryReDerived | scripts/migration-readiness.py:296-318 | the validator re-derives a collected entry exactly when both visiting orders meet the same texts |
| CollectorLaws.CollectedAcceptedIff | scripts/migration-readiness.py:2269-2322 | what the collector writes is accepted by the validator if and only if attempts are chronological and the texts agree |
| CollectorLaws.CanonicalCollectionAccepted | scripts/migration-readiness.py:2269-2322 | with one text per instant and chronological attempts the collector's timings are exactly what the validator recomputes |
| CollectorLaws.GlobalCheckImplied | scripts/migration-readiness.py:2317-2319 | for ordered attempts the global concurrency check follows from the per-attempt checks |
| CollectorLaws.Collect | scripts/migration-readiness.py:2269-2348 | building and then validating succeeds exactly for positive attempts within limits, in order, with agreeing texts |
| CollectorLaws.OffsetsRefused | scripts/migration-readiness.py:312-318 | for limits of two workers and their own active time, timings that the collector writes for a concrete collection with offset timestamps, in order, and that the validator refuses |
| CollectorLaws.OffsetsNeverAccepted | scripts/migration-readiness.py:312-318 | whatever the collector writes for these workers is refused |
| Sampler.RegisterPaths | scripts/migration-readiness.py:1118-1146 | one record per device with baseline and sources, kept up to the first error |
| Sampler.ResourceSampler.constructor | scripts/migration-readiness.py:1094-1146 | the initial latches, baseline and records |
| Sampler.ResourceSampler.Measure | scripts/migration-readiness.py:1158-1169 | a measurement fails exactly when some reading fails or changes identity; otherwise one counter per filesystem |
| Sampler.ResourceSampler.TakeSample | scripts/migration-readiness.py:1148-1172 | one sample is the step function: all minima move at once or none does, and an error is latched |
| Sampler.ResourceSampler.Snapshot | scripts/migration-readiness.py:1180-1221 | the snapshot of the state with floors, ceilings, sorting, total growth and least baseline; SamplerLaws.SnapshotMeans says what it shows |
| Sampler.StepMonotone | scripts/migration-readiness.py:1148-1178 | peaks only rise, minima only fall, latches never clear, records keep their shape |
| Sampler.DiskRun | scripts/migration-readiness.py:1157-1172 | over any run each minimum is the least of the baseline and the counters before the first failed sample, and the error is latched by exactly that sample |
| Sampler.MemoryRun | scripts/migration-readiness.py:1149-1154 | over any run the memory peak is the largest drop, and null for ever after one unavailable reading |
| SamplerLaws.RegistrationMeans | scripts/migration-readiness.py:1118-1146 | registration fails exactly when some path is not read, or a device met for the first time changes its view or shows no counter in its second call; the records are one for each device in the order met, with the sources of the paths before the failure and that counter as baseline |
| SamplerLaws.SampleFailsIff | scripts/migration-readiness.py:1157-1172 | a sample fails exactly when the reading of some source, counted over all sources before it, is not answered, shows another view, or lacks the counter of a first source |
| SamplerLaws.StepMeans | scripts/migration-readiness.py:1148-1172 | one sample, field by field on its readings: the memory peak, the resident peak, the latches, and every minimum, which a failed sample leaves as it was |
| SamplerLaws.SnapshotMeans | scripts/migration-readiness.py:1180-1221 | what a snapshot shows of the sampler: no memory peak unless every reading was available, no free disk after an error, floors and ceilings in mebibytes, sorted names and devices, the sum of the growths |
| Evidence.ExecutionIdentity | scripts/migration-readiness.py:1251-1310 | exactly when a uid is granted and which: root for privileged tasks, the caller or a consistent sudo identity without the root group for the rest |
| Evidence.RunTask | scripts/migration-readiness.py:1494-1584 | the record that the run of one task produces from everything it meets; EvidenceMeaning says on the readings what it reports and decides |
| EvidenceLaws.RegisterAllKeeps | scripts/migration-readiness.py:1118-1144 | registered devices are distinct and roles, paths and observations stay consistent |
| EvidenceLaws.RoundedDrop | scripts/migration-readiness.py:1187-1203 | the ceiling of a drop in mebibytes is the difference of the floors or one more |
| EvidenceLaws.RecordAccepted | scripts/migration-readiness.py:1653-1697 | one sampled filesystem passes the provenance and growth checks on it |
| EvidenceLaws.SnapshotAccepted | scripts/migration-readiness.py:1774-1825 | a final snapshot passes all filesystem checks exactly when a required podman has its graph root registered |
| EvidenceLaws.PassedAcceptedIff | scripts/migration-readiness.py:1734-1831 | every record marked passed is accepted by the validator if and only if a required podman was found when the sampler was made |
| EvidenceLaws.FlickerRefused | scripts/migration-readiness.py:1232-1247 | a concrete passed record that the validator refuses because the lookup changed |
| EvidenceMeaning.SamplerHolds | scripts/migration-readiness.py:1094-1178 | after the preflight and at the end the sampler holds what the readings so far say: the largest drop, the largest resident size or the fallback, the least counters before the first failure, and each latch |
| EvidenceMeaning.PreflightMeans | scripts/migration-readiness.py:1313-1361 | exactly when a task is not started: a missing tool or variable, no consistent identity, no graph root, a filesystem that could not be read, or too little memory or disk at the baseline |
| EvidenceMeaning.DecisionMeans | scripts/migration-readiness.py:1494-1584 | exactly when a task is passed, failed or unavailable, on the readings; a passed task had every memory reading available |
| EvidenceMeaning.ProducedMeans | scripts/migration-readiness.py:1494-1584 | what the record reports: the memory peak is missing if and only if the baseline or some reading up to the snapshot was unavailable, and otherwise is the largest drop; the other resources likewise |
| EvidenceMeaning.ProducedFields | scripts/migration-readiness.py:1494-1611 | the other fields of the record: what was missing, the effective uid, and status, time-out and revision exactly when the command was started |
| EvidenceMeaning.RefusedIff | scripts/migration-readiness.py:1734-1845 | exactly which records the validator refuses, one disjunct for each check, on the fields of the record |
| ProcessTree.ClosedIsTree | scripts/migration-readiness.py:849-854 | a closed set grown from the root is exactly the set of reachable processes, cycles included |
| ProcessTree.TotalWithout | scripts/migration-readiness.py:855-855 | the sum does not depend on the order of the set |
| ProcessTree.Pass | scripts/migration-readiness.py:853-853 | one pass in any order admits all children of what was selected and only descendants |
| ProcessTree.ProcessTreeRss | scripts/migration-readiness.py:849-855 | terminates and returns the resident size of exactly the processes reachable from the root |
| JsonSchema.AcyclicEnds | scripts/migration-readiness.py:422-439 | without a cycle every chain of references ends within as many steps as there are definitions |
| JsonSchema.LocalMeets | scripts/migration-readiness.py:440-493 | the keywords that do not recurse, each on the value and its own field: types (a boolean is neither integer nor number), const, enum, inclusive bounds, finiteness, length, pattern, format, item counts, unique encodings, required and closed names as sets |
| JsonSchema.AcceptedIff | scripts/migration-readiness.py:440-493 | a value is accepted by a schema without a reference if and only if it meets every keyword, every item is accepted by items and every member by the property of its name, cyclic definitions included |
| JsonSchema.MissingRefused | scripts/migration-readiness.py:484-486 | an object that lacks a required name is refused, whatever the other keywords are |
| JsonSchema.EvalRefines | scripts/migration-readiness.py:430-493 | within an explicit bound on nested calls the evaluator decides the plain reading: every keyword of the schema at the end of the references, each stated on its own, and recursion on the value alone |
| JsonSchema.TerminatesIff | scripts/migration-readiness.py:430-493 | evaluation terminates on every value and schema if and only if no chain of definitions that are bare references is cyclic |
| JsonSchema.EvalMonotone | scripts/migration-readiness.py:430-493 | a verdict does not depend on how many nested calls are allowed beyond those it needs |
| JsonSchema.InlineStep | scripts/migration-readiness.py:437-439 | replacing references inside a schema by their definitions keeps every verdict, at no more nested calls, and one more undoes it |
| JsonSchema.InliningKeepsVerdict | scripts/migration-readiness.py:437-493 | inlining one reference at any depth, root definitions fixed, changes no verdict and no divergence |
| Ustar.OctalRoundTrip | scripts/release-binaries.py:338-338 | octal header numbers read back |
| Ustar.HeaderRoundTrip | scripts/release-binaries.py:308-315 | a written ustar header reads back as the same member information |
| Archive.ValidateTar | scripts/release-binaries.py:329-350 | the member loop computes the declarative scan, for any reader of members |
| Archive.ScanSound | scripts/release-binaries.py:333-350 | from any accepted position the rest of the image is canonical members and at least 1024 zero bytes |
| Archive.AcceptedIsCanonical | scripts/release-binaries.py:319-350 | whatever the reader, an accepted image is canonical: some order of the four members, each header, content and padding, then zeros |
| Archive.ScanComplete | scripts/release-binaries.py:333-350 | every canonical image is accepted with its contents by any reader that reads plain regular headers and zero blocks after canonical members as what they are |
| Archive.AcceptedIffCanonical | scripts/release-binaries.py:319-350 | for such a reader, accepted with given contents if and only if canonical for those contents |
| Archive.MakeTar | scripts/release-binaries.py:305-316 | the image laid out for four files, or an error exactly when ustar cannot hold a header |
| Archive.TarFits | scripts/release-binaries.py:38-41 | every image for files within their bounds fits MAX_TAR |
| Archive.ArchiveRoundTrip | scripts/release-binaries.py:305-350 | validating the built image with any such reader returns exactly the four files given |
| Archive.RepresentableIff | scripts/release-binaries.py:309-311 | the archive can be written exactly when its root has at most 155 bytes |
| HeaderBytes.HeaderMeans | scripts/release-binaries.py:305-316 | every byte of a member's 512-byte header: name and prefix, mode 0755 or 0644, owner, group, size and time in octal, the checksum as the sum of the bytes around it, type, magic, zeros elsewhere |
| Binary.Region | scripts/release-binaries.py:147-149 | a slice exactly when it lies inside the data |
| Binary.CheckDynamic | scripts/release-binaries.py:178-189 | a dynamic table is accepted exactly when it has a first null tag, no needed tag before it and only zeros after it |
| Binary.CheckSegment | scripts/release-binaries.py:174-189 | a segment is accepted exactly when it lies in the file, is no interpreter, and is a good table if dynamic |
| Binary.ValidateElf | scripts/release-binaries.py:155-190 | an ELF file is accepted exactly when its header, every segment and one executable load are as declared |
| Binary.NoNeededAnywhere | scripts/release-binaries.py:182-189 | an accepted table has no DT_NEEDED at any index, before or after the terminator |
| Binary.ElfSelfContained | scripts/release-binaries.py:168-189 | accepted ELF: every segment in the file, no PT_INTERP, no DT_NEEDED in any PT_DYNAMIC table |
| Binary.ValidateMachO | scripts/release-binaries.py:191-209 | the command loop computes the declarative walk |
| Binary.WalkOfTiles | scripts/release-binaries.py:197-209 | a tiling of the command table is walked to its end and reports whether a command is executable |
| Binary.WalkLaysTiles | scripts/release-binaries.py:197-209 | a successful walk has laid such a tiling |
| Binary.MachAcceptedIff | scripts/release-binaries.py:191-209 | accepted Mach-O if and only if the header is and exactly ncmds commands tile the table from byte 32 to its end, one an executable segment |
| Binary.TilesCoverOnce | scripts/release-binaries.py:199-209 | the commands are 8-aligned and every byte of the table lies in exactly one of them |
| Binary.ValidateBinary | scripts/release-binaries.py:152-209 | size bound and dispatch by target, with no read outside the data |
| BinaryLaws.ElfMeans | scripts/release-binaries.py:155-190 | an ELF file is accepted if and only if its bytes, numbers lowest byte first at their System V gABI positions, show the identification, machine and sizes of the target, and segments and dynamic tables as required |
| BinaryLaws.MachMeans | scripts/release-binaries.py:191-209 | the same for Mach-O: header bytes, and commands that fill the table from byte 32, one a segment that is executable and not empty |
| BinaryLaws.ElfHeaderReads | scripts/release-binaries.py:159-161 | an ELF header laid out field by field, whatever the fields are, is read back |
| BinaryLaws.ProgramReads | scripts/release-binaries.py:168-173 | a program header laid out field by field is read back, in either class |
| BinaryLaws.MachHeaderReads | scripts/release-binaries.py:192-192 | a Mach-O header laid out field by field is read back |
| BinaryLaws.SegmentReads | scripts/release-binaries.py:199-206 | a segment command laid out anywhere in a file is read back |
| BinaryLaws.ElfImageAccepted | scripts/release-binaries.py:152-190 | for every Linux target and any code, a file of header, one loaded segment and the code is accepted |
| BinaryLaws.MachImageAccepted | scripts/release-binaries.py:152-209 | for every Darwin target and any code, a file of header, one segment and the code is accepted |
| BinaryLaws.TinyElfAccepted | scripts/release-binaries.py:152-190 | a concrete ELF file of 121 bytes, byte for byte, that is accepted |
| BinaryLaws.TinyMachAccepted | scripts/release-binaries.py:152-209 | a concrete Mach-O file of 108 bytes, byte for byte, that is accepted |
| Store.Directory.WriteNew | scripts/release-binaries.py:103-111 | an exclusive write adds the whole file or leaves no trace, and never replaces an entry |
| Store.Directory.CopyNew | scripts/release-binaries.py:403-416 | adds every asset exactly when no name is taken and no write fails; otherwise leaves what was there and what others created |
| Store.NoForeigners | scripts/release-binaries.py:403-416 | with nobody else at work a failed copy restores the initial directory |
| Store.WriteMeets | scripts/release-binaries.py:409-412 | a write succeeds exactly when its name is neither old, foreign nor repeated and the write does not fail |
| Store.ArchiveNamesDiffer | scripts/release-binaries.py:66-68 | the archive name is injective in the target and never the manifest's name |
| Store.ManifestFits | scripts/release-binaries.py:376-378 | the manifest text of any bound invocation is within its reader's limit |
| Store.PackageableIff | scripts/release-binaries.py:57-68 | a version and target can be packaged exactly when they have at most 145 characters together |
| Store.LongVersionsUnpackageable | scripts/release-binaries.py:57-68 | no target leaves room for a version of 127 characters or more |
| Store.LongVersionRefused | scripts/release-binaries.py:305-316 | a 128-character version that the binding admits, for which every target has a member without a ustar header |
| Store.ListNames | scripts/release-binaries.py:395-400 | the set of entry names, or a refusal exactly when there are too many |
| Store.ReadSet | scripts/release-binaries.py:381-392 | reads the six archives in target order exactly when the directory holds the seven names, all archives are accepted and the manifest is the expected one |
| Store.Gather | scripts/release-binaries.py:419-430 | the six archives of the workers, each alone in its directory |
| Store.Collect | scripts/release-binaries.py:419-433 | success exactly for a gathered set, an empty output outside the input and a clear copy; otherwise nothing of ours remains |
| Store.CollectedReadsBack | scripts/release-binaries.py:381-433 | after a successful collect the reader returns the same six pairs in the same order, exactly when nobody else added an entry |
| StoreLaws.NamesAre | scripts/release-binaries.py:27-68 | the archive and worker names in full, and the order of the targets |
| StoreLaws.ManifestBinds | scripts/release-binaries.py:376-378 | two manifests are the same bytes if and only if version, revision and run are the same and each target's archives have the same digest |
| StoreLaws.ReadMeans | scripts/release-binaries.py:381-392 | exactly which directories the reader accepts, on their entries, and the six pairs it returns |
| StoreLaws.ManifestChecked | scripts/release-binaries.py:381-392 | a set is refused whose manifest is of another version, revision or run, or of an archive with another digest |
| StoreLaws.GatherMeans | scripts/release-binaries.py:419-430 | exactly which inputs are gathered: six worker directories and nothing else, each with its one good archive |
| Diagnostic.CutRoundTrip | scripts/reviewed-docker-consumer-run.py:315-333 | cutting a log at newlines loses nothing |
| Diagnostic.VerdictMeaning | scripts/reviewed-docker-consumer-run.py:294-338 | the verdict is s exactly when s is one of the stages and the log is quiet lines, the marker of s and quiet lines, all closed by newlines |
| Diagnostic.MarkerNames | scripts/reviewed-docker-consumer-run.py:305-307 | the marker of every stage is a single line and the dictionary maps it back to that stage |
| Diagnostic.EveryStageNamed | scripts/reviewed-docker-consumer-run.py:305-338 | for every stage a log that is its marker has that stage as verdict |
| Diagnostic.StepKeepsSummary | scripts/reviewed-docker-consumer-run.py:315-333 | one byte keeps the bounded state a summary of everything fed |
| Diagnostic.MechanismFailureDiagnostic.Feed | scripts/reviewed-docker-consumer-run.py:315-333 | for any chunking the state, never longer than one marker, summarises the whole stream |
| Diagnostic.MechanismFailureDiagnostic.LastEnteredStage | scripts/reviewed-docker-consumer-run.py:335-338 | the stage returned is the verdict on the whole stream |
| Supervisor.Latches.StopWork | scripts/reviewed-docker-consumer-run.py:393-402 | the first stop sets the deadline and sends TERM; later ones change nothing |
| Supervisor.SignalsMeaning | scripts/reviewed-docker-consumer-run.py:366-371 | the signal in force is the first that was delivered |
| Supervisor.RanOnce | scripts/reviewed-docker-consumer-run.py:407-434 | the environment alone decides how many turns the loop takes, whether and when it stops the child, and how it is left |
| Supervisor.WellBehavedRuns | scripts/reviewed-docker-consumer-run.py:407-434 | a child that ends by itself in time, within the output limit and without a signal is never stopped |
| Supervisor.Supervise | scripts/reviewed-docker-consumer-run.py:407-434 | for every clock that never goes back and passes every instant the loop ends; it stops the child in exactly the first turn with a signal, the limit in time reached or too much output, leaves early exactly when overdue or when the observer raises, and keeps exactly the output before the stop |
| Supervisor.Close | scripts/reviewed-docker-consumer-run.py:435-461 | KILL before the reap, the outcome, and what is emitted, for every ending |
| Supervisor.Execute | scripts/reviewed-docker-consumer-run.py:349-461 | a stop happens exactly in the first turn with a reason or at closing; the deadline moves at most once, with the TERM that announces it; a log is returned if and only if the child ended by itself with an accepted status and some output, and is its complete output; a well-behaved child's always is; an emitted stage is the verdict on the entire output |
| Custody.ReserveCovers | scripts/reviewed-docker-consumer-run.py:657-705 | in a command no charge after a granted reserve can fail, whatever the child writes |
| Custody.CommandMeans | scripts/reviewed-docker-consumer-run.py:667-705 | exactly when a command answers with a status and what it costs, on what the child prints |
| Custody.ScanIff | scripts/reviewed-docker-consumer-run.py:737-766 | a listing of at most 128 descriptors is accepted or refused on its own merits, never by the budget, and yields exactly the roles held |
| Custody.RunKeeps | scripts/reviewed-docker-consumer-run.py:790-880 | every run of ticks keeps the order of phases, the latches, the telescoping of acknowledged deltas and the allowance |
| Custody.FinishedRunWitnessed | scripts/reviewed-docker-consumer-run.py:790-957 | when finish returns, the run saw prepared, held with six distinct directories, at most one of replaced or closed, descriptors gone with the container present, then both processes dead and three resources absent, each of which the environment showed |
| Custody.FinishMeans | scripts/reviewed-docker-consumer-run.py:906-957 | finish returns if and only if the wait ended with the descriptors seen gone, a replacement was seen where one is due, the owner is dead, the three presence reads answer 1, the private directory is gone, the files of the case are there and the allowance lasts; the reported upper bound is what was used plus the explicit uncertainty of the case |
| CustodyLaws.RowMeans | scripts/reviewed-docker-consumer-run.py:790-873 | which rows are accepted, on what they show: identities, sizes, six distinct directories, an unchanged listing, a replaced object, or nothing held with the container present |
| CustodyLaws.RowLeaves | scripts/reviewed-docker-consumer-run.py:790-873 | what an accepted row leaves: owner, container, the directories shown, the latches and the acknowledged counts |
| CustodyLaws.VisitMeans | scripts/reviewed-docker-consumer-run.py:874-880 | when a visit without a row is survived, and when it looks at nothing |
| CustodyLaws.WaitMeans | scripts/reviewed-docker-consumer-run.py:906-912 | the wait is survived only without a late poll, and ends with the descriptors seen gone exactly when they were before or some poll sees nothing held and the container present |
| CustodyLaws.AllowanceMeans | scripts/reviewed-docker-consumer-run.py:642-660 | what a reserve compares, in numbers: known and own work and the unseen work of the case, and the request, against 256 calls and 16 MiB |
| Custody.LookDecides | scripts/reviewed-docker-consumer-run.py:878-880 | a look latches "closed" exactly when no role directory is listed, or the guard is dead, and the container answers 0; it is a listing exactly when the guard is alive |
| Custody.ShutFollows | scripts/reviewed-docker-consumer-run.py:869-873 | a closed row is accepted only in phase 2, when no role directory is listed or the guard is dead and the container answers 0; it is a listing exactly when the guard is alive |
| Custody.FinishedRunListed | scripts/reviewed-docker-consumer-run.py:869-913 | the vacant looks of a finished run, read off its visits and polls; a listing without role directories was seen exactly when one of them met a living guard |
| Custody.DeadGuardFinishes | scripts/reviewed-docker-consumer-run.py:906-913 | a concrete run that finishes and never saw such a listing |
| Custody.ReportCounts | scripts/reviewed-docker-consumer-run.py:874-957 | the reported totals against the holder's and the observer's own work, delta by delta: nothing twice, and which delta may be missing |
| Custody.ReportExactIff | scripts/reviewed-docker-consumer-run.py:940-957 | for honest rows the report is exact if and only if the case is positive or guard-loss |
| Custody.TrueTotalBounded | scripts/reviewed-docker-consumer-run.py:648-660 | the true total of calls and bytes stays within the allowance up to the last acknowledged delta |
| Custody.LostOwnerReport | scripts/reviewed-docker-consumer-run.py:906-957 | a concrete run with files of plausible sizes that finishes with honest rows and reports one call and 2630 bytes too few |
| Custody.DeadGuardLooksVacant | scripts/reviewed-docker-consumer-run.py:878-880 | in every watched case and state a dead guard counts as descriptors gone |
| Custody.CustodyObserver.Spend | scripts/reviewed-docker-consumer-run.py:648-655 | a charge adds first and then fails exactly when the total with the uncertainty is over |
| Custody.CustodyObserver.Ask | scripts/reviewed-docker-consumer-run.py:667-705 | a command answers as specified and is never overcharged |
| Custody.CustodyObserver.Inventory | scripts/reviewed-docker-consumer-run.py:737-766 | the role directories listed, or a refusal |
| Custody.CustodyObserver.Tick | scripts/reviewed-docker-consumer-run.py:790-880 | one tick takes the observer to the specified next state or refuses, and keeps order, latches and balance |
| Custody.CustodyObserver.Finish | scripts/reviewed-docker-consumer-run.py:906-957 | the end of the run takes the observer to the specified report or refuses; with the invariant it leaves a witnessed history |

## Left out

- gzip, zlib and SHA-256: the model starts at the unpacked tar image (the gzip header of RFC 1952 section 2.3 is not looked at) and the digest is a parameter.
- The checks of `validate_archive` after the member loop (BUILD-INFO, LICENSE, README) and its returned record, which would only add equalities; `Store` takes acceptance of an archive as a parameter.
- Archive.AcceptedIffCanonical: of the reader of tar members it asks only that, after canonical members, a plain header of a regular file is read as what it says and a zero block as the end; that Python's tarfile does so is not proved. Extended headers, GNU headers, other kinds and number fields that are not plain octal are left free, and `Archive.AcceptedIsCanonical` asks nothing of the reader.
- JSON text: `Store` assumes that the canonical manifest text parses and encodes to itself; the text itself is built and bounded.
- Parsing of timestamps, floating-point seconds and decimal rounding: instants are microseconds and `round` is an arbitrary function, in `EvidenceLaws` one that is monotone and keeps whole seconds.
- Error messages: refusals are collapsed to few constructors, and errors of the operating system to refusals.
- EvidenceLaws.PassedAcceptedIff: the chronology checks, budgets copied from the catalogue and the canonical-path, mount and Btrfs checks on one observation are not modelled; the last are one predicate that the theorem assumes of every registered source.
- EvidenceLaws.RecordAccepted: the canonical-path, mount and Btrfs checks on one source are the predicate `wellPlaced`.
- EvidenceLaws.SnapshotAccepted: the same predicate stands for those checks.
- EvidenceMeaning.RefusedIff: the same checks are left out, and the same predicate stands for those on one source.
- StoreLaws.ManifestBinds: version, revision, run and digests are ASCII without quotation marks, as `binding` and hexadecimal digests are.
- Evidence.RunTask: the command itself, `run_process` and `lens_commands`, is the sequence of samples it takes, its status and whether it timed out.
- JsonSchema.TerminatesIff: the model counts nested calls and has no other limit; Python's recursion limit is not modelled. `validate_schema_definition` is represented by the type of schemas, which can only express the supported keywords; a `$ref` of null is not representable. Regular expressions, the two formats, equality of values (plain Python equality below the top) and the encoding behind `uniqueItems` are parameters.
- Store.Directory.CopyNew: removing a created file is taken to succeed, other processes may add entries between writes but not replace or remove ours, and an interrupt between a finished write and its bookkeeping is not modelled. Symbolic links in parent directories are part of whether a directory can be opened.
- Supervisor.Execute: signals are delivered at the points where the loop looks at them, one read per turn, and exceptions of the diagnostic itself do not occur.
- Custody.CustodyObserver.Tick: identities, digests, clocks, sockets and namespaces are one condition per row; descriptor links are charged by length only; the expiry decision is read and bounded but not interpreted.
- Custody.ReportCounts: assumes a holder that adds every acknowledged delta to its own work before its next row, as the launcher does.
- `smoke`, `package`, `stage`, argument parsing, logging, the catalogue, and the admission, authorization, evidence and transfer scripts: literal comparison against fixed records.
